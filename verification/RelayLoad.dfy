/** A relay reads the bundle it was handed: the same tree comes back, at every depth. */
module RelayLoad {
  import opened Base
  import opened Text
  import opened Paths
  import opened FleetManifest
  import opened RelayBundle

  type Path = FleetManifest.Path

  // ---- Resolved trees --------------------------------------------------------------------------------------------

  /** What the loader's checks leave behind in a target. */
  predicate GoodTarget(t: Target, nested: bool) {
    && SafeLabel(t.name) && SafeSsh(t.ssh)
    && t.role in {"node", "hub", "privileged-helper", "relay"}
    && (t.role == "relay" <==> t.children != [])
    && t.scope in {"system", "user"} && t.become in {"sudo", "none"}
    && (t.role == "relay" ==> t.scope == "user") && (t.scope == "user" ==> t.become == "none")
    && (t.role == "privileged-helper" ==> t.scope == "system")
    && t.arch in {"", "amd64", "arm64"} && (nested ==> t.arch != "")
    && 1 <= t.timeout <= MAX_TIMEOUT
  }

  predicate GoodTree(targets: seq<Target>, nested: bool)
    decreases targets
  {
    targets == [] ||
    (GoodTarget(targets[0], nested) && GoodTree(targets[0].children, true) && GoodTree(targets[1..], nested))
  }

  /** A tree of a loaded manifest, or a part of one, which starts at the given depth. */
  ghost predicate Admissible(host: Host, targets: seq<Target>, nested: bool, depth: nat) {
    var entries := WrittenList(host, targets);
    && GoodTree(targets, nested)
    && depth + Height(entries) <= MAX_DEPTH && Count(entries) <= MAX_TARGETS && NewNames(Names(entries), {})
  }

  lemma CheckedIsGood(m: Settings, e: Entry, nested: bool, children: seq<Target>, index: nat)
    requires CheckEntry(m, e, nested).Ok? && SafeLabel(TrimSpace(e.name))
    requires (children == [] <==> e.children == []) && 1 <= m.timeout <= MAX_TIMEOUT
    ensures GoodTarget(Placed(ChecksOf(m), e, nested, index).(children := children), nested)
  {
    hide SafeLabel, SafeSsh, TrimSpace, ToLower, ResolveFile, ResolveConfigDir, ValidSha;
  }

  /** What the loader returns is a good tree of the same shape, with the same names. */
  lemma {:induction false} ResolvedIsGood(m: Settings, host: Host, entries: seq<Entry>, depth: nat, nested: bool,
                                          index: nat, seen: set<string>)
    requires depth <= MAX_DEPTH && index <= MAX_TARGETS && 1 <= m.timeout <= MAX_TIMEOUT
    requires ResolveList(ChecksOf(m), entries, depth, nested, index, seen).Ok?
    ensures var targets := ResolveList(ChecksOf(m), entries, depth, nested, index, seen).value.targets;
            && GoodTree(targets, nested) && (targets == [] <==> entries == [])
            && Height(WrittenList(host, targets)) == Height(entries)
            && Names(WrittenList(host, targets)) == Names(entries)
    decreases entries
  {
    if entries == [] {
    } else {
      hide CheckEntry, GoodTarget, ResolveList;
      var e := entries[0];
      var one, below, rest := AcceptedParts(ChecksOf(m), entries, depth, nested, index, seen);
      ResolvedIsGood(m, host, e.children, depth + 1, true, index + 1, seen + {one.name});
      ResolvedIsGood(m, host, entries[1..], depth, nested, below.index, below.seen);
      CheckedIsGood(m, e, nested, below.targets, index);
      var t := one.(children := below.targets);
      LabelsAreTrimmed(one.name);
      assert ([t] + rest.targets)[1..] == rest.targets;
    }
  }

  /** Neither a safe label nor a safe destination has white space at its ends. */
  lemma LabelsAreTrimmed(s: string)
    requires SafeLabel(s) || s == ""
    ensures TrimSpace(s) == s
  {
    if s != "" {
      assert IsLabelChar(s[0]) && IsLabelChar(s[|s| - 1]);
      TrimKeeps(s);
    }
  }

  lemma {:induction false} SplitAtSign(s: string)
    ensures s == BeforeAt(s) + (if AfterAt(s).Some? then "@" + AfterAt(s).value else "")
  {
    if s != "" && s[0] != '@' {
      SplitAtSign(s[1..]);
      assert s == [s[0]] + s[1..];
    }
  }

  lemma DestinationsAreTrimmed(s: string)
    requires SafeSsh(s)
    ensures TrimSpace(s) == s
  {
    SplitAtSign(s);
    var before, after := BeforeAt(s), AfterAt(s);
    assert s[0] == if before != "" then before[0] else '@';
    assert s[|s| - 1] == if after.None? then before[|before| - 1] else (after.value)[|after.value| - 1];
    TrimKeeps(s);
  }

  predicate IsWord(s: string) {
    forall i :: 0 <= i < |s| ==> 'a' <= s[i] <= 'z' || '0' <= s[i] <= '9' || (s[i] == '-' && i > 0)
  }

  /** A word in lower case is its own normal form. */
  lemma WordsAreNormal(s: string)
    requires IsWord(s)
    ensures ToLower(TrimSpace(s)) == s && TrimSpace(s) == s
  {
    forall i | 0 <= i < |s|
      ensures IsLabelChar(s[i]) && LowerChar(s[i]) == s[i]
    {
    }
    LabelsAreTrimmed(s);
  }

  lemma KnownWords()
    ensures forall s :: s in {"node", "hub", "privileged-helper", "relay"} ==> IsWord(s)
    ensures forall s :: s in {"system", "user", "sudo", "none", "", "amd64", "arm64"} ==> IsWord(s)
  {
  }

  lemma FieldsAreNormal(t: Target, nested: bool)
    requires GoodTarget(t, nested)
    ensures TrimSpace(t.name) == t.name && TrimSpace(t.ssh) == t.ssh
    ensures ToLower(TrimSpace(t.role)) == t.role && ToLower(TrimSpace(t.scope)) == t.scope
    ensures ToLower(TrimSpace(t.become)) == t.become
    ensures TrimSpace(t.arch) == t.arch && NormalArch(t.arch) == t.arch
  {
    hide ToLower, TrimSpace, SafeLabel, SafeSsh, IsWord;
    KnownWords();
    LabelsAreTrimmed(t.name);
    DestinationsAreTrimmed(t.ssh);
    WordsAreNormal(t.role);
    WordsAreNormal(t.scope);
    WordsAreNormal(t.become);
    WordsAreNormal(t.arch);
  }

  // ---- One target on the relay -----------------------------------------------------------------------------------

  predicate SoundHost(host: Host) {
    forall p :: p in host.files && host.files[p].Some? ==> IsDigest(host.files[p].value)
  }

  lemma DigestsAreNormal(s: string)
    requires IsDigest(s)
    ensures ToLower(TrimSpace(s)) == s && ValidSha(s)
  {
    WordsAreNormal(s);
  }

  /** A name without directory leads into the directory of the manifest. */
  lemma NamesLeadToStage(m: Settings, name: string)
    requires SafeConfigName(name)
    ensures TrimSpace(name) == name
    ensures ResolveFile(m, name)
            == if m.base + [name] in m.host.files then Ok(Some(m.base + [name])) else Err(BadBinary)
  {
    LabelsAreTrimmed(name);
    forall i | 0 <= i < |name|
      ensures name[i] != '/'
    {
      assert IsLabelChar(name[i]);
    }
    ComponentIsRead(name, "", m.base, "");
    assert name + "" == name && "" + name == name;
  }

  /** A target as the relay finds it, without its place. */
  function OnRelay(host: Host, stage: Path, t: Target, timeout: nat): Target {
    t.(index := 0, binary := Some(stage + [TargetAsset(t)]), configDir := None, sha := TargetDigest(host, t),
       timeout := timeout, children := [])
  }

  /** The relay accepts a written target exactly if the file staged under its name has the hash written with it. */
  lemma EntryReadsBack(host: Host, m: Settings, t: Target, children: seq<Entry>, nested: bool)
    requires GoodTarget(t, nested) && CheckAsset(host, t).Ok? && SoundHost(host)
    requires children == [] <==> t.children == []
    requires m.requireBinary && m.allowRelay && m.globalBinary == None
    ensures CheckEntry(m, Written(host, t, children), nested).Ok?
            <==> HashOf(m.host, m.base + [TargetAsset(t)]) == Some(TargetDigest(host, t))
    ensures CheckEntry(m, Written(host, t, children), nested).Ok? ==>
              CheckEntry(m, Written(host, t, children), nested).value == OnRelay(host, m.base, t, m.timeout)
  {
    hide SafeLabel, SafeSsh, TrimSpace, ToLower, NormalArch, ResolveFile, IsDigest;
    FieldsAreNormal(t, nested);
    assert IsDigest(TargetDigest(host, t));
    DigestsAreNormal(TargetDigest(host, t));
    NamesLeadToStage(m, TargetAsset(t));
    LabelsAreTrimmed("");
    assert TargetDigest(host, t) != "" by { DigestIsSome(TargetDigest(host, t)); }
    assert TargetAsset(t) != "" by { NameIsSome(TargetAsset(t)); }
  }

  lemma DigestIsSome(s: string)
    requires IsDigest(s)
    ensures s != ""
  {
  }

  lemma NameIsSome(s: string)
    requires SafeConfigName(s)
    ensures s != ""
  {
  }

  // ---- The tree on the relay -------------------------------------------------------------------------------------

  /** Every file of the tree stands in the staging directory, under its name and with its content. */
  predicate Carried(host: Host, relay: Host, stage: Path, targets: seq<Target>)
    decreases targets
  {
    targets == [] ||
    (HashOf(relay, stage + [TargetAsset(targets[0])]) == Some(TargetDigest(host, targets[0]))
     && Carried(host, relay, stage, targets[0].children) && Carried(host, relay, stage, targets[1..]))
  }

  /** The tree as it should come back: new numbers, staged files, and checksums filled in. */
  function Relocated(host: Host, stage: Path, targets: seq<Target>, timeout: nat, index: nat): seq<Target>
    decreases targets
  {
    if targets == [] then []
    else
      var t := targets[0];
      [OnRelay(host, stage, t, timeout).(index := index,
                                         children := Relocated(host, stage, t.children, timeout, index + 1))]
      + Relocated(host, stage, targets[1..], timeout, index + 1 + Count(WrittenList(host, t.children)))
  }

  /** What holds of nested targets holds of targets at the top. */
  lemma {:induction false} NestedIsGood(targets: seq<Target>)
    requires GoodTree(targets, true)
    ensures GoodTree(targets, false)
    decreases targets
  {
    if targets != [] {
      NestedIsGood(targets[1..]);
    }
  }

  /** The relay accepts all written targets exactly if every file arrived. */
  lemma {:induction false} EntriesPassExactly(host: Host, m: Settings, targets: seq<Target>, nested: bool)
    requires GoodTree(targets, nested) && Usable(host, targets) && SoundHost(host)
    requires m.requireBinary && m.allowRelay && m.globalBinary == None
    ensures EntriesPass(ChecksOf(m), WrittenList(host, targets), nested) <==> Carried(host, m.host, m.base, targets)
    decreases targets
  {
    hide CheckEntry, SafeLabel, TrimSpace, CheckAsset, TargetAsset, TargetDigest, SoundHost;
    if targets != [] {
      var t, below := targets[0], WrittenList(host, targets[0].children);
      EntryReadsBack(host, m, t, below, nested);
      EntriesPassExactly(host, m, t.children, true);
      EntriesPassExactly(host, m, targets[1..], nested);
      FieldsAreNormal(t, nested);
      assert WrittenList(host, targets)[0] == Written(host, t, below);
      assert WrittenList(host, targets)[1..] == WrittenList(host, targets[1..]);
    }
  }

  /** Whatever the walk accepts there is the tree that was sent. */
  lemma {:induction false} ResolvedIsRelocated(host: Host, m: Settings, targets: seq<Target>, depth: nat, nested: bool,
                                               index: nat, seen: set<string>)
    requires depth <= MAX_DEPTH && index <= MAX_TARGETS
    requires GoodTree(targets, nested) && Usable(host, targets) && SoundHost(host)
    requires m.requireBinary && m.allowRelay && m.globalBinary == None
    requires ResolveList(ChecksOf(m), WrittenList(host, targets), depth, nested, index, seen).Ok?
    ensures ResolveList(ChecksOf(m), WrittenList(host, targets), depth, nested, index, seen).value.targets
            == Relocated(host, m.base, targets, m.timeout, index)
    decreases targets
  {
    hide CheckEntry, ResolveList, SafeLabel, TrimSpace, CheckAsset, TargetAsset, TargetDigest, SoundHost, Relocated,
      WrittenList, Count, OnRelay, GoodTarget, Written;
    TreeParts(host, m.base, targets, m.timeout, index);
    if targets == [] {
      NothingResolved(ChecksOf(m), depth, nested, index, seen);
    } else {
      var t, entries := targets[0], WrittenList(host, targets);
      var below := WrittenList(host, t.children);
      var one, lower, rest := AcceptedParts(ChecksOf(m), entries, depth, nested, index, seen);
      TreeParts(host, m.base, t.children, m.timeout, index + 1);
      EntryReadsBack(host, m, t, below, nested);
      FieldsAreNormal(t, nested);
      OnRelayFields(host, m.base, t, m.timeout, below);
      ResolvedIsRelocated(host, m, t.children, depth + 1, true, index + 1, seen + {one.name});
      ResolvedIsRelocated(host, m, targets[1..], depth, nested, lower.index, lower.seen);
    }
  }

  /** Both views of a tree, taken apart. */
  lemma TreeParts(host: Host, stage: Path, targets: seq<Target>, timeout: nat, index: nat)
    ensures WrittenList(host, targets) == [] <==> targets == []
    ensures targets == [] ==> Relocated(host, stage, targets, timeout, index) == []
    ensures targets != [] ==>
              var t, entries := targets[0], WrittenList(host, targets);
              var below, next := WrittenList(host, t.children), index + 1 + Count(WrittenList(host, t.children));
              && entries[0] == Written(host, t, below) && entries[1..] == WrittenList(host, targets[1..])
              && Relocated(host, stage, targets, timeout, index)
                 == [OnRelay(host, stage, t, timeout).(index := index,
                                                       children := Relocated(host, stage, t.children, timeout, index + 1))]
                    + Relocated(host, stage, targets[1..], timeout, next)
  {
  }

  lemma OnRelayFields(host: Host, stage: Path, t: Target, timeout: nat, below: seq<Entry>)
    ensures OnRelay(host, stage, t, timeout).name == t.name
    ensures Written(host, t, below).name == t.name && Written(host, t, below).children == below
  {
  }

  lemma NothingResolved(check: Checks, depth: nat, nested: bool, index: nat, seen: set<string>)
    ensures ResolveList(check, [], depth, nested, index, seen) == Ok(Pass([], index, seen))
  {
  }

  lemma {:induction false} RelocatedHasChecksums(host: Host, stage: Path, targets: seq<Target>, timeout: nat, index: nat)
    requires Usable(host, targets) && SoundHost(host)
    ensures AllHaveChecksum(Relocated(host, stage, targets, timeout, index))
    decreases targets
  {
    hide SafeConfigName;
    if targets != [] {
      var t := targets[0];
      var next := index + 1 + Count(WrittenList(host, t.children));
      RelocatedHasChecksums(host, stage, t.children, timeout, index + 1);
      RelocatedHasChecksums(host, stage, targets[1..], timeout, next);
      var all := Relocated(host, stage, targets, timeout, index);
      assert all[1..] == Relocated(host, stage, targets[1..], timeout, next);
      assert IsDigest(TargetDigest(host, t));
    }
  }

  // ---- Delivery --------------------------------------------------------------------------------------------------

  /** The staging directory holds the bundle's files, and over them the manifest. */
  predicate Delivered(host: Host, files: map<string, Path>, relay: Host, stage: Path, manifestSum: string) {
    && HashOf(relay, stage + [CASCADE_FILE]) == Some(manifestSum)
    && forall n :: n in files && n != CASCADE_FILE ==> HashOf(relay, stage + [n]) == HashOf(host, files[n])
  }

  /** A machine after a file arrived in a directory. */
  function Put(host: Host, dir: Path, name: string, content: Option<string>): Host {
    host.(files := host.files[dir + [name] := content])
  }

  predicate Inside(p: Path, dir: Path) {
    p != [] && p[..|p| - 1] == dir
  }

  /** Outside a directory nothing changed. */
  predicate SameOutside(before: Host, after: Host, dir: Path) {
    && after.configDirs == before.configDirs
    && forall p :: p in before.files && !Inside(p, dir) ==> p in after.files && after.files[p] == before.files[p]
  }

  lemma PutOne(host: Host, dir: Path, name: string, content: Option<string>, n: string)
    ensures HashOf(Put(host, dir, name, content), dir + [n]) == if n == name then content else HashOf(host, dir + [n])
    ensures SameOutside(host, Put(host, dir, name, content), dir)
  {
    assert (dir + [n])[|dir|] == n && (dir + [name])[|dir|] == name;
    assert (dir + [name])[..|dir + [name]| - 1] == dir;
  }

  lemma {:induction false} NamesAreChecked(host: Host, targets: seq<Target>, name: string)
    requires Usable(host, targets) && NameUsed(targets, name)
    ensures SafeConfigName(name) && name != FLEETTYCTL
    decreases targets
  {
    if TargetAsset(targets[0]) != name {
      if NameUsed(targets[0].children, name) {
        NamesAreChecked(host, targets[0].children, name);
      } else {
        NamesAreChecked(host, targets[1..], name);
      }
    }
  }

  /** A bundle that was built has no file named like the relay's own program, so an upload delivers all of it. */
  lemma BundleLeavesProgram(host: Host, targets: seq<Target>)
    requires Build(host, targets, map[]).Ok?
    ensures FLEETTYCTL !in Build(host, targets, map[]).value.files
  {
    BuildMeans(host, targets, map[]);
    if FLEETTYCTL in Build(host, targets, map[]).value.files {
      NamesAreChecked(host, targets, FLEETTYCTL);
    }
  }

  /** The upload: every file of the bundle and the relay's own program, then the manifest; any copy may fail. */
  method Upload(host: Host, bundle: map<string, Path>, binary: Path, stage: Path, manifestSum: string, before: Host)
    returns (done: bool, relay: Host)
    ensures done && FLEETTYCTL !in bundle ==> Delivered(host, bundle, relay, stage, manifestSum)
    ensures done ==> HashOf(relay, stage + [FLEETTYCTL]) == HashOf(host, binary)
    ensures SameOutside(before, relay, stage)
  {
    var files := bundle[FLEETTYCTL := binary];
    relay := before;
    done := false;
    var pending := files.Keys;
    while pending != {}
      invariant pending <= files.Keys
      invariant forall n :: n in files && n !in pending ==> HashOf(relay, stage + [n]) == HashOf(host, files[n])
      invariant SameOutside(before, relay, stage)
      decreases |pending|
    {
      var name :| name in pending;
      var copied: bool := *;
      if !copied {
        return;
      }
      forall n {
        PutOne(relay, stage, name, HashOf(host, files[name]), n);
      }
      pending := pending - {name};
      relay := Put(relay, stage, name, HashOf(host, files[name]));
    }
    var copied: bool := *;
    if !copied {
      return;
    }
    forall n {
      PutOne(relay, stage, CASCADE_FILE, Some(manifestSum), n);
    }
    relay := Put(relay, stage, CASCADE_FILE, Some(manifestSum));
    done := true;
  }

  /** The manifest that goes with a bundle. */
  function RelayDocument(entries: seq<Entry>, timeout: nat): Document {
    Document(MANIFEST_VERSION, "", DEFAULT_PARALLEL, timeout, entries)
  }

  /** No file of the bundle is overwritten by a different manifest. */
  predicate CascadeNameIsFree(host: Host, files: map<string, Path>, manifestSum: string) {
    CASCADE_FILE in files ==> HashOf(host, files[CASCADE_FILE]) == Some(manifestSum)
  }

  lemma {:induction false} ConsistentIsCarried(host: Host, relay: Host, stage: Path, targets: seq<Target>,
                                               table: map<string, string>)
    requires Consistent(host, targets, table)
    requires forall n :: n in table ==> HashOf(relay, stage + [n]) == Some(table[n])
    ensures Carried(host, relay, stage, targets)
    decreases targets
  {
    if targets != [] {
      ConsistentIsCarried(host, relay, stage, targets[0].children, table);
      ConsistentIsCarried(host, relay, stage, targets[1..], table);
    }
  }

  lemma {:induction false} CarriedName(host: Host, relay: Host, stage: Path, targets: seq<Target>,
                                       table: map<string, string>, name: string)
    requires Consistent(host, targets, table) && Carried(host, relay, stage, targets) && NameUsed(targets, name)
    ensures name in table && HashOf(relay, stage + [name]) == Some(table[name])
    decreases targets
  {
    if TargetAsset(targets[0]) == name {
    } else if NameUsed(targets[0].children, name) {
      CarriedName(host, relay, stage, targets[0].children, table, name);
    } else {
      CarriedName(host, relay, stage, targets[1..], table, name);
    }
  }

  /** Delivery carries the whole tree exactly if the manifest overwrote none of its files. */
  lemma DeliveryCarries(host: Host, targets: seq<Target>, bundle: Bundle, relay: Host, stage: Path, manifestSum: string)
    requires Build(host, targets, map[]) == Ok(bundle)
    requires Delivered(host, bundle.files, relay, stage, manifestSum)
    ensures Carried(host, relay, stage, targets) <==> CascadeNameIsFree(host, bundle.files, manifestSum)
  {
    hide Build;
    BuildMeans(host, targets, map[]);
    var table := Digests(host, bundle.files);
    if CascadeNameIsFree(host, bundle.files, manifestSum) {
      ConsistentIsCarried(host, relay, stage, targets, table);
    }
    if Carried(host, relay, stage, targets) && CASCADE_FILE in bundle.files {
      CarriedName(host, relay, stage, targets, table, CASCADE_FILE);
    }
  }

  // ---- The round trip --------------------------------------------------------------------------------------------

  /**
   * A relay accepts the manifest built for it exactly if that manifest's file name does not collide with a file of
   * the bundle; it then works on the tree that was sent, apart from numbers, file locations and filled-in checksums.
   */
  lemma RelayReadsBack(host: Host, targets: seq<Target>, depth: nat, timeout: nat, bundle: Bundle, relay: Host,
                       stage: Path, manifestSum: string)
    requires SoundHost(host) && targets != [] && depth >= 1 && 1 <= timeout <= MAX_TIMEOUT
    requires Admissible(host, targets, true, depth)
    requires Build(host, targets, map[]) == Ok(bundle)
    requires Delivered(host, bundle.files, relay, stage, manifestSum)
    ensures var loaded := LoadCascade(RelayDocument(bundle.entries, timeout), relay, stage);
            && (loaded.Ok? <==> CascadeNameIsFree(host, bundle.files, manifestSum))
            && (loaded.Ok? ==>
                  loaded.value == Loaded(DEFAULT_PARALLEL, timeout, Relocated(host, stage, targets, timeout, 0)))
  {
    hide Build, CheckEntry, ResolveList, EntriesPass, GoodTree, Height, Count, Names, NewNames, Relocated, Usable,
      AllHaveChecksum, Carried, SoundHost;
    var document := RelayDocument(bundle.entries, timeout);
    var m := Settings(relay, stage, None, true, true, timeout);
    BuildMeans(host, targets, map[]);
    TreeParts(host, stage, targets, timeout, 0);
    LabelsAreTrimmed("");
    assert SettingsFor(document, relay, stage, true, true) == Ok(m);
    NestedIsGood(targets);
    EntriesPassExactly(host, m, targets, false);
    DeliveryCarries(host, targets, bundle, relay, stage, manifestSum);
    ListAccepted(ChecksOf(m), bundle.entries, 1, false, 0, {});
    if ResolveList(ChecksOf(m), bundle.entries, 1, false, 0, {}).Ok? {
      ResolvedIsRelocated(host, m, targets, 1, false, 0, {});
      RelocatedHasChecksums(host, stage, targets, timeout, 0);
    }
  }

  // ---- All the way down ------------------------------------------------------------------------------------------

  /** Each relay of a list has a bundle that can be built and whose file names leave the manifest's name free. */
  predicate Ready(host: Host, targets: seq<Target>)
    decreases targets
  {
    targets == [] ||
    ((targets[0].role == "relay" ==>
        Build(host, targets[0].children, map[]).Ok? && !NameUsed(targets[0].children, CASCADE_FILE))
     && Ready(host, targets[1..]))
  }

  /**
   * Every relay of the list gets its bundle, and wherever that is delivered, the relay accepts it, works on the tree
   * that was sent, and serves its own relays in turn, for as many levels as stated.
   */
  ghost predicate Serves(levels: nat, host: Host, targets: seq<Target>)
    decreases levels, targets
  {
    targets == [] ||
    ((levels > 0 && targets[0].role == "relay" ==>
        Build(host, targets[0].children, map[]).Ok? && ServesBelow(levels, host, targets[0]))
     && Serves(levels, host, targets[1..]))
  }

  ghost predicate ServesBelow(levels: nat, host: Host, t: Target)
    requires levels > 0 && Build(host, t.children, map[]).Ok?
    decreases levels, t
  {
    var bundle := Build(host, t.children, map[]).value;
    forall relay: Host, stage: Path, sum: string ::
      SoundHost(relay) && Delivered(host, bundle.files, relay, stage, sum) ==>
        && LoadCascade(RelayDocument(bundle.entries, t.timeout), relay, stage)
           == Ok(Loaded(DEFAULT_PARALLEL, t.timeout, Relocated(host, stage, t.children, t.timeout, 0)))
        && Serves(levels - 1, relay, Relocated(host, stage, t.children, t.timeout, 0))
  }

  /** The relay writes for its own relays exactly the entries it was sent. */
  lemma {:induction false} WrittenAgain(host: Host, relay: Host, stage: Path, targets: seq<Target>, timeout: nat,
                                        index: nat)
    requires Carried(host, relay, stage, targets)
    ensures WrittenList(relay, Relocated(host, stage, targets, timeout, index)) == WrittenList(host, targets)
    decreases targets
  {
    if targets != [] {
      var t := targets[0];
      var next := index + 1 + Count(WrittenList(host, t.children));
      WrittenAgain(host, relay, stage, t.children, timeout, index + 1);
      WrittenAgain(host, relay, stage, targets[1..], timeout, next);
      AssetOnRelay(host, relay, stage, t, timeout);
      var all := Relocated(host, stage, targets, timeout, index);
      assert all[1..] == Relocated(host, stage, targets[1..], timeout, next);
    }
  }

  lemma AssetOnRelay(host: Host, relay: Host, stage: Path, t: Target, timeout: nat)
    ensures TargetAsset(OnRelay(host, stage, t, timeout)) == TargetAsset(t)
    ensures HashOf(relay, stage + [TargetAsset(t)]) == Some(TargetDigest(host, t)) ==>
              TargetDigest(relay, OnRelay(host, stage, t, timeout)) == TargetDigest(host, t)
  {
    assert (stage + [TargetAsset(t)])[|stage|] == TargetAsset(t);
  }

  /** The relocated tree is as good a tree, and its files again fit one table. */
  lemma {:induction false} RelocatedFits(host: Host, relay: Host, stage: Path, targets: seq<Target>, nested: bool,
                                         timeout: nat, index: nat, table: map<string, string>)
    requires GoodTree(targets, nested) && 1 <= timeout <= MAX_TIMEOUT
    requires Usable(host, targets) && Consistent(host, targets, table) && Carried(host, relay, stage, targets)
    ensures var again := Relocated(host, stage, targets, timeout, index);
            && GoodTree(again, nested) && Usable(relay, again) && Consistent(relay, again, table)
    ensures forall n :: NameUsed(Relocated(host, stage, targets, timeout, index), n) ==> NameUsed(targets, n)
    decreases targets
  {
    hide SafeLabel, SafeSsh, SafeConfigName;
    if targets != [] {
      var t := targets[0];
      var next := index + 1 + Count(WrittenList(host, t.children));
      RelocatedFits(host, relay, stage, t.children, true, timeout, index + 1, table);
      RelocatedFits(host, relay, stage, targets[1..], nested, timeout, next, table);
      AssetOnRelay(host, relay, stage, t, timeout);
      var all := Relocated(host, stage, targets, timeout, index);
      assert all[1..] == Relocated(host, stage, targets[1..], timeout, next);
    }
  }

  /** Every relay below can build its own bundle from what it was handed. */
  lemma {:induction false} ReadyOnRelay(host: Host, relay: Host, stage: Path, targets: seq<Target>, nested: bool,
                                        timeout: nat, index: nat, table: map<string, string>)
    requires GoodTree(targets, nested) && 1 <= timeout <= MAX_TIMEOUT
    requires Usable(host, targets) && Consistent(host, targets, table) && Carried(host, relay, stage, targets)
    requires !NameUsed(targets, CASCADE_FILE)
    ensures Ready(relay, Relocated(host, stage, targets, timeout, index))
    decreases targets
  {
    hide GoodTarget, CheckAsset, Build, AllHaveChecksum;
    if targets != [] {
      var t := targets[0];
      var next := index + 1 + Count(WrittenList(host, t.children));
      var below := Relocated(host, stage, t.children, timeout, index + 1);
      RelocatedFits(host, relay, stage, t.children, true, timeout, index + 1, table);
      BuildSucceeds(relay, below, map[], table);
      ReadyOnRelay(host, relay, stage, targets[1..], nested, timeout, next, table);
      var all := Relocated(host, stage, targets, timeout, index);
      assert all[0].children == below && all[1..] == Relocated(host, stage, targets[1..], timeout, next);
    }
  }

  lemma {:induction false} FewerTaken(names: seq<string>, seen: set<string>, fewer: set<string>)
    requires NewNames(names, seen) && fewer <= seen
    ensures NewNames(names, fewer)
    decreases names
  {
    if names != [] {
      FewerTaken(names[1..], seen + {names[0]}, fewer + {names[0]});
    }
  }

  lemma AdmissibleParts(host: Host, targets: seq<Target>, nested: bool, depth: nat)
    requires Admissible(host, targets, nested, depth) && targets != []
    ensures Admissible(host, targets[0].children, true, depth + 1)
    ensures Admissible(host, targets[1..], nested, depth)
  {
    hide GoodTarget, TrimSpace, NewNames;
    var entries := WrittenList(host, targets);
    var t := targets[0];
    var name, below, rest := TrimSpace(entries[0].name), WrittenList(host, t.children), WrittenList(host, targets[1..]);
    assert entries[0].children == below && entries[1..] == rest;
    assert Names(entries) == [name] + Names(below) + Names(rest);
    NewNamesSplit(name, Names(below), Names(rest), {});
    FewerTaken(Names(below), {} + {name}, {});
    FewerTaken(Names(rest), Taken(Names(below), {} + {name}), {});
  }

  /** What a relay gets is again fit to be handed on. */
  lemma HandedOn(host: Host, t: Target, depth: nat, relay: Host, stage: Path, sum: string)
    requires SoundHost(host) && Admissible(host, t.children, true, depth) && depth >= 1 && t.children != []
    requires Build(host, t.children, map[]).Ok? && !NameUsed(t.children, CASCADE_FILE) && 1 <= t.timeout <= MAX_TIMEOUT
    requires Delivered(host, Build(host, t.children, map[]).value.files, relay, stage, sum)
    ensures LoadCascade(RelayDocument(Build(host, t.children, map[]).value.entries, t.timeout), relay, stage)
            == Ok(Loaded(DEFAULT_PARALLEL, t.timeout, Relocated(host, stage, t.children, t.timeout, 0)))
    ensures Admissible(relay, Relocated(host, stage, t.children, t.timeout, 0), false, 1)
    ensures Ready(relay, Relocated(host, stage, t.children, t.timeout, 0))
  {
    hide Build, GoodTree, Usable, Consistent, Height, Count, Names, NewNames, LoadCascade, Relocated, Carried, Ready,
      SoundHost;
    var bundle := Build(host, t.children, map[]).value;
    var table := Digests(host, bundle.files);
    BuildMeans(host, t.children, map[]);
    RelayReadsBack(host, t.children, depth, t.timeout, bundle, relay, stage, sum);
    DeliveryCarries(host, t.children, bundle, relay, stage, sum);
    NestedIsGood(t.children);
    RelocatedFits(host, relay, stage, t.children, false, t.timeout, 0, table);
    WrittenAgain(host, relay, stage, t.children, t.timeout, 0);
    ReadyOnRelay(host, relay, stage, t.children, false, t.timeout, 0, table);
  }

  /** Once the first bundle of each relay can be built, no level further down fails to build or to load. */
  lemma {:induction false} ServedAllTheWay(levels: nat, host: Host, targets: seq<Target>, nested: bool, depth: nat)
    requires SoundHost(host) && Admissible(host, targets, nested, depth) && depth >= 1 && Ready(host, targets)
    ensures Serves(levels, host, targets)
    decreases levels, targets
  {
    hide Admissible, Delivered, LoadCascade, Relocated, SoundHost, Build;
    if targets != [] {
      var t := targets[0];
      AdmissibleParts(host, targets, nested, depth);
      ServedAllTheWay(levels, host, targets[1..], nested, depth);
      if levels > 0 && t.role == "relay" {
        FirstIsGood(host, targets, nested, depth);
        var bundle := Build(host, t.children, map[]).value;
        forall relay: Host, stage: Path, sum: string |
          SoundHost(relay) && Delivered(host, bundle.files, relay, stage, sum)
          ensures LoadCascade(RelayDocument(bundle.entries, t.timeout), relay, stage)
                  == Ok(Loaded(DEFAULT_PARALLEL, t.timeout, Relocated(host, stage, t.children, t.timeout, 0)))
          ensures Serves(levels - 1, relay, Relocated(host, stage, t.children, t.timeout, 0))
        {
          HandedOn(host, t, depth + 1, relay, stage, sum);
          ServedAllTheWay(levels - 1, relay, Relocated(host, stage, t.children, t.timeout, 0), false, 1);
        }
      }
    }
  }

  lemma FirstIsGood(host: Host, targets: seq<Target>, nested: bool, depth: nat)
    requires Admissible(host, targets, nested, depth) && targets != []
    ensures GoodTarget(targets[0], nested)
  {
  }

  /** The same for a manifest as the operator wrote it. */
  lemma FleetIsServed(d: Document, host: Host, base: Path, requireBinary: bool, levels: nat)
    requires SoundHost(host)
    requires Load(d, host, base, requireBinary, true).Ok?
    requires Ready(host, Load(d, host, base, requireBinary, true).value.targets)
    ensures Serves(levels, host, Load(d, host, base, requireBinary, true).value.targets)
  {
    hide CheckEntry, ResolveList, EntriesPass, GoodTree, Height, Count, Names, NewNames, Ready, Serves, SoundHost;
    var m := SettingsFor(d, host, base, requireBinary, true).value;
    ListAccepted(ChecksOf(m), d.targets, 1, false, 0, {});
    ResolvedIsGood(m, host, d.targets, 1, false, 0, {});
    assert Count(d.targets) == |Names(d.targets)|;
    ServedAllTheWay(levels, host, Load(d, host, base, requireBinary, true).value.targets, false, 1);
  }

  // ---- A file name that does not come through --------------------------------------------------------------------

  function Repeated(c: char): string {
    seq(64, i => c)
  }

  function ClashHost(): Host {
    Host(map[["srv", CASCADE_FILE] := Some(Repeated('0'))], {})
  }

  function ClashTarget(): Target {
    Target(1, "web", "web", "node", "user", Some(["srv", CASCADE_FILE]), None, "none", "amd64", "", 15, [])
  }

  /** A program called like the relay's manifest is put into the bundle, overwritten, and then refused by the relay. */
  lemma ClashIsRefused(relay: Host, stage: Path)
    ensures Build(ClashHost(), [ClashTarget()], map[]).Ok?
    ensures Delivered(ClashHost(), Build(ClashHost(), [ClashTarget()], map[]).value.files, relay, stage, Repeated('1')) ==>
              LoadCascade(RelayDocument(Build(ClashHost(), [ClashTarget()], map[]).value.entries, 15), relay, stage).Err?
  {
    hide LoadCascade, Delivered, RelayDocument;
    var host, t, p := ClashHost(), ClashTarget(), ["srv", CASCADE_FILE];
    assert AssetName(p) == CASCADE_FILE && SafeConfigName(CASCADE_FILE);
    ClashBuilds();
    var bundle := Build(host, [t], map[]).value;
    assert HashOf(host, p).value[0] == '0' && Repeated('1')[0] == '1';
    if Delivered(host, bundle.files, relay, stage, Repeated('1')) {
      ClashIsAdmissible();
      RelayReadsBack(host, [t], 2, 15, bundle, relay, stage, Repeated('1'));
    }
  }

  lemma ClashBuilds()
    ensures var built := Build(ClashHost(), [ClashTarget()], map[]);
            built.Ok? && built.value.files == map[CASCADE_FILE := ["srv", CASCADE_FILE]]
  {
    var host, t, p := ClashHost(), ClashTarget(), ["srv", CASCADE_FILE];
    assert AssetName(p) == CASCADE_FILE && SafeConfigName(CASCADE_FILE) && CASCADE_FILE != FLEETTYCTL;
    assert CheckAsset(host, t) == Ok(CASCADE_FILE);
    assert Build(host, t.children, map[]) == Ok(Bundle(map[], []));
    assert [t][1..] == [];
    var added: map<string, Path> := map[CASCADE_FILE := p];
    assert AddAsset(host, map[], CASCADE_FILE, p) == Ok(added) && map[] + added == added;
    assert Build(host, [], added) == Ok(Bundle(added, []));
  }

  lemma WebIsSafe()
    ensures SafeLabel("web") && SafeSsh("web") && TrimSpace("web") == "web"
  {
    assert "web"[1..] == "eb" && "eb"[1..] == "b" && "b"[1..] == "";
    assert BeforeAt("") == "" && BeforeAt("b") == "b" && BeforeAt("eb") == "eb";
    assert BeforeAt("web") == ['w'] + BeforeAt("eb");
    assert AfterAt("") == None && AfterAt("b") == None && AfterAt("eb") == None;
    LabelsAreTrimmed("web");
  }

  lemma ClashIsAdmissible()
    ensures Admissible(ClashHost(), [ClashTarget()], true, 2) && SoundHost(ClashHost())
  {
    hide SafeLabel, SafeSsh, TrimSpace;
    var host, t := ClashHost(), ClashTarget();
    WebIsSafe();
    assert GoodTarget(t, true);
    assert [t][1..] == [];
    var entries := WrittenList(host, [t]);
    assert t.children == [] && WrittenList(host, t.children) == [] && WrittenList(host, [t][1..]) == [];
    assert entries == [Written(host, t, [])];
    assert entries[1..] == [] && entries[0].children == [];
    assert Names(entries) == [TrimSpace("web")];
    assert NewNames(Names(entries), {});
    assert Height(entries) == 1 && Count(entries) == 1;
  }
}
