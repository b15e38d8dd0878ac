/** How deep a fleet may be: a chain of relays over one node, at every height. */
module FleetDepth {
  import opened Base
  import opened Text
  import opened FleetManifest
  import R = RelayLoad

  function Label(n: nat): string {
    seq(n, _ => 'x')
  }

  /** A node below `height - 1` relays. */
  function Chain(height: nat): seq<Entry>
    requires height >= 1
  {
    if height == 1 then [Entry(Label(1), "x", "node", "user", "", "", "none", "amd64", "", [])]
    else [Entry(Label(height), "x", "relay", "user", "", "", "none", "amd64", "", Chain(height - 1))]
  }

  function ChainDocument(height: nat): Document
    requires height >= 1
  {
    Document(MANIFEST_VERSION, "", 0, 0, Chain(height))
  }

  function BareHost(): Host { Host(map[], {}) }

  function ChainSettings(): Settings {
    Settings(BareHost(), [], None, false, true, DEFAULT_TIMEOUT)
  }

  lemma LabelIsSafe(n: nat)
    requires n >= 1
    ensures SafeLabel(Label(n)) && TrimSpace(Label(n)) == Label(n)
  {
    assert Label(n)[0] == 'x';
    R.LabelsAreTrimmed(Label(n));
  }

  lemma DestinationIsSafe()
    ensures SafeSsh("x") && TrimSpace("x") == "x"
  {
    assert "x"[1..] == "";
    assert BeforeAt("") == "" && AfterAt("") == None;
    assert BeforeAt("x") == ['x'] + BeforeAt("");
    R.LabelsAreTrimmed("x");
  }

  lemma ChainEntryPasses(height: nat, nested: bool)
    requires height >= 1
    ensures CheckEntry(ChainSettings(), Chain(height)[0], nested).Ok?
  {
    hide SafeSsh, TrimSpace, ToLower;
    DestinationIsSafe();
    R.KnownWords();
    R.WordsAreNormal("node");
    R.WordsAreNormal("relay");
    R.WordsAreNormal("user");
    R.WordsAreNormal("none");
    R.WordsAreNormal("amd64");
    R.WordsAreNormal("");
  }

  lemma {:induction false} ChainPasses(height: nat, nested: bool)
    requires height >= 1
    ensures EntriesPass(ChecksOf(ChainSettings()), Chain(height), nested)
    ensures Height(Chain(height)) == height && Count(Chain(height)) == height
  {
    hide CheckEntry, SafeLabel, TrimSpace;
    var e := Chain(height)[0];
    LabelIsSafe(height);
    ChainEntryPasses(height, nested);
    assert Chain(height)[1..] == [];
    if height > 1 {
      ChainPasses(height - 1, true);
    } else {
      assert e.children == [];
    }
  }

  lemma {:induction false} ChainNamesDiffer(height: nat)
    requires height >= 1
    ensures Distinct(Names(Chain(height)))
    ensures forall name :: name in Names(Chain(height)) ==> |name| <= height
  {
    hide TrimSpace;
    LabelIsSafe(height);
    assert Chain(height)[1..] == [];
    var e := Chain(height)[0];
    var below := Names(e.children);
    assert Names(Chain(height)) == [Label(height)] + below;
    if height > 1 {
      ChainNamesDiffer(height - 1);
      assert forall i :: 0 <= i < |below| ==> below[i] in below;
    } else {
      assert below == [];
    }
  }

  lemma ChainSettingsAre(height: nat)
    requires height >= 1
    ensures SettingsFor(ChainDocument(height), BareHost(), [], false, true) == Ok(ChainSettings())
  {
    TrimKeeps("");
  }

  /** A chain of relays over a node is accepted up to seven levels, and refused with the eighth, which is the limit. */
  lemma DepthIsOneLess(height: nat)
    requires 1 <= height <= MAX_TARGETS
    ensures Load(ChainDocument(height), BareHost(), [], false, true).Ok? <==> height <= MAX_DEPTH - 1
    ensures EntriesPass(ChecksOf(ChainSettings()), Chain(height), false) && Height(Chain(height)) == height
  {
    hide Load, EntriesPass;
    ChainSettingsAre(height);
    ChainPasses(height, false);
    ChainNamesDiffer(height);
    DocumentAccepted(ChainDocument(height), BareHost(), [], false, true);
  }

  lemma SevenNotEight()
    ensures Load(ChainDocument(MAX_DEPTH - 1), BareHost(), [], false, true).Ok?
    ensures Load(ChainDocument(MAX_DEPTH), BareHost(), [], false, true).Err?
  {
    hide Load;
    DepthIsOneLess(MAX_DEPTH - 1);
    DepthIsOneLess(MAX_DEPTH);
  }
}
