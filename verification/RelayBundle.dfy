/** The manifest and the files that are handed to a relay, and how the relay reads them back. */
module RelayBundle {
  import opened Base
  import opened FleetManifest

  type Path = FleetManifest.Path

  datatype BuildProblem = ConfigNotRelayed | BinaryMissing | UnsafeAssetName | AssetUnreadable | NameCollision

  /** Files by their name in the bundle, and the targets written for the relay. */
  datatype Bundle = Bundle(files: map<string, Path>, entries: seq<Entry>)

  const FLEETTYCTL := "fleettyctl"
  const CASCADE_FILE := "cascade.json"

  // ---- Building --------------------------------------------------------------------------------------------------

  function AssetName(p: Path): string {
    if p == [] then "/" else p[|p| - 1]
  }

  function TargetAsset(t: Target): string {
    if t.binary.Some? then AssetName(t.binary.value) else ""
  }

  function Digest(host: Host, p: Path): string {
    if HashOf(host, p).Some? then HashOf(host, p).value else ""
  }

  function TargetDigest(host: Host, t: Target): string {
    if t.binary.Some? then Digest(host, t.binary.value) else ""
  }

  function CheckAsset(host: Host, t: Target): Result<string, BuildProblem> {
    if t.configDir.Some? then Err(ConfigNotRelayed)
    else if t.binary.None? then Err(BinaryMissing)
    else if !SafeConfigName(TargetAsset(t)) || TargetAsset(t) == FLEETTYCTL then Err(UnsafeAssetName)
    else if HashOf(host, t.binary.value).None? then Err(AssetUnreadable)
    else Ok(TargetAsset(t))
  }

  predicate SameContent(host: Host, p: Path, q: Path) {
    HashOf(host, p).Some? && HashOf(host, p) == HashOf(host, q)
  }

  function AddAsset(host: Host, files: map<string, Path>, name: string, p: Path): Result<map<string, Path>, BuildProblem>
  {
    if name !in files then Ok(files[name := p])
    else if SameContent(host, files[name], p) then Ok(files)
    else Err(NameCollision)
  }

  predicate Mergeable(host: Host, files: map<string, Path>, more: map<string, Path>) {
    forall n :: n in files && n in more && files[n] != more[n] ==> SameContent(host, files[n], more[n])
  }

  function Written(host: Host, t: Target, children: seq<Entry>): Entry {
    Entry(t.name, t.ssh, t.role, t.scope, TargetAsset(t), "", t.become, t.arch, TargetDigest(host, t), children)
  }

  /** The bundle for a list of targets, added to files that are already in it. */
  function Build(host: Host, targets: seq<Target>, files: map<string, Path>): Result<Bundle, BuildProblem>
    decreases targets
  {
    if targets == [] then Ok(Bundle(files, []))
    else
      var t := targets[0];
      var name := CheckAsset(host, t);
      if name.Err? then Err(name.error)
      else
        var added := AddAsset(host, files, name.value, t.binary.value);
        if added.Err? then Err(added.error)
        else
          var below := Build(host, t.children, map[]);
          if below.Err? then Err(below.error)
          else if !Mergeable(host, added.value, below.value.files) then Err(NameCollision)
          else
            var rest := Build(host, targets[1..], below.value.files + added.value);
            if rest.Err? then Err(rest.error)
            else Ok(Bundle(rest.value.files, [Written(host, t, below.value.entries)] + rest.value.entries))
  }

  /** The whole build amounts to what was collected so far followed by the build of the remaining targets. */
  ghost predicate Continues(host: Host, targets: seq<Target>, spec: Result<Bundle, BuildProblem>, i: nat,
                            files: map<string, Path>, entries: seq<Entry>)
    requires i <= |targets|
  {
    var rest := Build(host, targets[i..], files);
    if rest.Err? then spec == Err(rest.error)
    else spec == Ok(Bundle(rest.value.files, entries + rest.value.entries))
  }

  lemma ContinuesFromStart(host: Host, targets: seq<Target>)
    ensures Continues(host, targets, Build(host, targets, map[]), 0, map[], [])
  {
    var spec := Build(host, targets, map[]);
    assert targets[0..] == targets && (spec.Ok? ==> [] + spec.value.entries == spec.value.entries);
  }

  lemma ContinuesToEnd(host: Host, targets: seq<Target>, spec: Result<Bundle, BuildProblem>,
                       files: map<string, Path>, entries: seq<Entry>)
    requires Continues(host, targets, spec, |targets|, files, entries)
    ensures spec == Ok(Bundle(files, entries))
  {
    assert targets[|targets|..] == [] && entries + [] == entries;
  }

  lemma ContinuesWith(host: Host, targets: seq<Target>, spec: Result<Bundle, BuildProblem>, i: nat,
                      files: map<string, Path>, entries: seq<Entry>)
    requires i < |targets| && Continues(host, targets, spec, i, files, entries)
    ensures var t := targets[i];
            var name := CheckAsset(host, t);
            && (name.Err? ==> spec == Err(name.error))
            && (name.Ok? ==>
                  var added := AddAsset(host, files, name.value, t.binary.value);
                  && (added.Err? ==> spec == Err(added.error))
                  && (added.Ok? ==>
                        var below := Build(host, t.children, map[]);
                        && (below.Err? ==> spec == Err(below.error))
                        && (below.Ok? && !Mergeable(host, added.value, below.value.files) ==> spec == Err(NameCollision))
                        && (below.Ok? && Mergeable(host, added.value, below.value.files) ==>
                              Continues(host, targets, spec, i + 1, below.value.files + added.value,
                                        entries + [Written(host, t, below.value.entries)]))))
  {
    hide SafeConfigName, AddAsset, Mergeable;
    var t := targets[i];
    assert targets[i..][0] == t && targets[i..][1..] == targets[i + 1..];
    if CheckAsset(host, t).Ok? && AddAsset(host, files, CheckAsset(host, t).value, t.binary.value).Ok? {
      var added := AddAsset(host, files, CheckAsset(host, t).value, t.binary.value).value;
      var below := Build(host, t.children, map[]);
      if below.Ok? && Mergeable(host, added, below.value.files) {
        var rest := Build(host, targets[i + 1..], below.value.files + added);
        if rest.Ok? {
          var one := Written(host, t, below.value.entries);
          assert entries + ([one] + rest.value.entries) == entries + [one] + rest.value.entries;
        }
      }
    }
  }

  /** The files of the subtree join those collected so far, in any order; a file that is already there stays. */
  method MergeFiles(host: Host, files: map<string, Path>, more: map<string, Path>)
    returns (r: Result<map<string, Path>, BuildProblem>)
    ensures r == if Mergeable(host, files, more) then Ok(more + files) else Err(NameCollision)
  {
    var merged := files;
    var pending := more.Keys;
    while pending != {}
      invariant pending <= more.Keys
      invariant merged.Keys == files.Keys + (more.Keys - pending)
      invariant forall n :: n in merged ==> merged[n] == if n in files then files[n] else more[n]
      invariant forall n :: n in files && n in more && n !in pending && files[n] != more[n] ==>
                              SameContent(host, files[n], more[n])
      decreases |pending|
    {
      var n :| n in pending;
      pending := pending - {n};
      var source := more[n];
      if n in merged && merged[n] != source {
        var existingHash, sourceHash := HashOf(host, merged[n]), HashOf(host, source);
        if existingHash.None? || sourceHash.None? || existingHash.value != sourceHash.value {
          return Err(NameCollision);
        }
      } else {
        merged := merged[n := source];
      }
    }
    assert merged == more + files;
    r := Ok(merged);
  }

  method BuildRelayManifest(host: Host, children: seq<Target>) returns (r: Result<Bundle, BuildProblem>)
    ensures r == Build(host, children, map[])
    decreases children
  {
    hide Continues, Build, Mergeable;
    var files: map<string, Path> := map[];
    var targets: seq<Entry> := [];
    var i := 0;
    ghost var spec := Build(host, children, map[]);
    ContinuesFromStart(host, children);
    while i < |children|
      invariant i <= |children|
      invariant Continues(host, children, spec, i, files, targets)
    {
      var child := children[i];
      ContinuesWith(host, children, spec, i, files, targets);
      if child.configDir.Some? {
        return Err(ConfigNotRelayed);
      }
      if child.binary.None? {
        return Err(BinaryMissing);
      }
      var name := AssetName(child.binary.value);
      if !SafeConfigName(name) || name == FLEETTYCTL {
        return Err(UnsafeAssetName);
      }
      var hash := HashOf(host, child.binary.value);
      if hash.None? {
        return Err(AssetUnreadable);
      }
      if name in files {
        var existingHash := HashOf(host, files[name]);
        if existingHash.None? || existingHash.value != hash.value {
          return Err(NameCollision);
        }
      } else {
        files := files[name := child.binary.value];
      }
      var below := BuildRelayManifest(host, child.children);
      if below.Err? {
        return Err(below.error);
      }
      var merged := MergeFiles(host, files, below.value.files);
      if merged.Err? {
        return Err(merged.error);
      }
      files := merged.value;
      targets := targets + [Entry(child.name, child.ssh, child.role, child.scope, name, "", child.become, child.arch,
                                  hash.value, below.value.entries)];
      i := i + 1;
    }
    ContinuesToEnd(host, children, spec, files, targets);
    r := Ok(Bundle(files, targets));
  }

  // ---- When it succeeds ------------------------------------------------------------------------------------------

  /** The entries written for a tree. */
  function WrittenList(host: Host, targets: seq<Target>): seq<Entry>
    decreases targets
  {
    if targets == [] then []
    else [Written(host, targets[0], WrittenList(host, targets[0].children))] + WrittenList(host, targets[1..])
  }

  /** Every target of the tree can be put into a bundle by itself. */
  predicate Usable(host: Host, targets: seq<Target>)
    decreases targets
  {
    targets == [] ||
    (CheckAsset(host, targets[0]).Ok? && Usable(host, targets[0].children) && Usable(host, targets[1..]))
  }

  /** A table of hashes by file name holds what every target of the tree expects under the name of its file. */
  predicate Consistent(host: Host, targets: seq<Target>, table: map<string, string>)
    decreases targets
  {
    targets == [] ||
    (TargetAsset(targets[0]) in table && table[TargetAsset(targets[0])] == TargetDigest(host, targets[0])
     && Consistent(host, targets[0].children, table) && Consistent(host, targets[1..], table))
  }

  /** The file name is that of some target in the tree. */
  predicate NameUsed(targets: seq<Target>, name: string)
    decreases targets
  {
    targets != [] &&
    (TargetAsset(targets[0]) == name || NameUsed(targets[0].children, name) || NameUsed(targets[1..], name))
  }

  predicate Readable(host: Host, files: map<string, Path>) {
    forall n :: n in files ==> HashOf(host, files[n]).Some?
  }

  function Digests(host: Host, files: map<string, Path>): map<string, string> {
    map n | n in files :: Digest(host, files[n])
  }

  lemma {:induction false} ConsistentGrows(host: Host, targets: seq<Target>, table: map<string, string>,
                                           larger: map<string, string>)
    requires Consistent(host, targets, table)
    requires forall n :: n in table ==> n in larger && larger[n] == table[n]
    ensures Consistent(host, targets, larger)
    decreases targets
  {
    if targets != [] {
      ConsistentGrows(host, targets[0].children, table, larger);
      ConsistentGrows(host, targets[1..], table, larger);
    }
  }

  /** One table that fits every target and the files collected so far lets the build go through. */
  lemma {:induction false} BuildSucceeds(host: Host, targets: seq<Target>, files: map<string, Path>,
                                         table: map<string, string>)
    requires Readable(host, files) && Usable(host, targets) && Consistent(host, targets, table)
    requires forall n :: n in files ==> n in table && table[n] == Digest(host, files[n])
    ensures Build(host, targets, files).Ok?
    ensures var bundle := Build(host, targets, files).value;
            && Readable(host, bundle.files)
            && forall n :: n in bundle.files ==> n in table && table[n] == Digest(host, bundle.files[n])
    decreases targets
  {
    if targets != [] {
      var t := targets[0];
      var added := AddAsset(host, files, TargetAsset(t), t.binary.value).value;
      BuildSucceeds(host, t.children, map[], table);
      var below := Build(host, t.children, map[]).value;
      assert Mergeable(host, added, below.files);
      BuildSucceeds(host, targets[1..], below.files + added, table);
    }
  }

  /** The steps of a finished build. */
  lemma BuildParts(host: Host, targets: seq<Target>, files: map<string, Path>)
    returns (added: map<string, Path>, below: Bundle, rest: Bundle)
    requires targets != [] && Readable(host, files) && Build(host, targets, files).Ok?
    ensures CheckAsset(host, targets[0]) == Ok(TargetAsset(targets[0])) && targets[0].binary.Some?
    ensures AddAsset(host, files, TargetAsset(targets[0]), targets[0].binary.value) == Ok(added)
    ensures Readable(host, added) && Digest(host, added[TargetAsset(targets[0])]) == TargetDigest(host, targets[0])
    ensures forall n :: n in files ==> n in added && added[n] == files[n]
    ensures forall n :: n in added && n !in files ==> n == TargetAsset(targets[0])
    ensures TargetAsset(targets[0]) in added
    ensures Build(host, targets[0].children, map[]) == Ok(below)
    ensures Build(host, targets[1..], below.files + added) == Ok(rest)
    ensures forall n :: n in below.files ==>
              Digest(host, (below.files + added)[n]) == Digest(host, below.files[n])
    ensures Build(host, targets, files)
            == Ok(Bundle(rest.files, [Written(host, targets[0], below.entries)] + rest.entries))
  {
    hide SafeConfigName;
    added := AddAsset(host, files, TargetAsset(targets[0]), targets[0].binary.value).value;
    below := Build(host, targets[0].children, map[]).value;
    rest := Build(host, targets[1..], below.files + added).value;
  }

  /** What a finished build tells. */
  lemma {:induction false} BuildMeans(host: Host, targets: seq<Target>, files: map<string, Path>)
    requires Readable(host, files) && Build(host, targets, files).Ok?
    ensures Usable(host, targets)
    ensures var bundle := Build(host, targets, files).value;
            && bundle.entries == WrittenList(host, targets)
            && Readable(host, bundle.files)
            && Consistent(host, targets, Digests(host, bundle.files))
            && (forall n :: n in files ==> n in bundle.files && bundle.files[n] == files[n])
            && (forall n :: n in bundle.files && n !in files ==> NameUsed(targets, n))
    decreases targets
  {
    hide Build, CheckAsset, AddAsset, Mergeable, Written, Digest;
    if targets == [] {
      NothingToBuild(host, files);
    } else {
      var added, below, rest := BuildParts(host, targets, files);
      BuildMeans(host, targets[0].children, map[]);
      BuildMeans(host, targets[1..], below.files + added);
      ConsistentGrows(host, targets[0].children, Digests(host, below.files), Digests(host, rest.files));
    }
  }

  lemma NothingToBuild(host: Host, files: map<string, Path>)
    ensures Build(host, [], files) == Ok(Bundle(files, []))
  {
  }

  /** A bundle can be built exactly if every target fits by itself and files of one name have one content. */
  lemma BuildsExactly(host: Host, targets: seq<Target>)
    ensures Build(host, targets, map[]).Ok?
            <==> Usable(host, targets) && exists table :: Consistent(host, targets, table)
  {
    if Build(host, targets, map[]).Ok? {
      BuildMeans(host, targets, map[]);
      assert Consistent(host, targets, Digests(host, Build(host, targets, map[]).value.files));
    }
    if Usable(host, targets) && exists table :: Consistent(host, targets, table) {
      var table :| Consistent(host, targets, table);
      BuildSucceeds(host, targets, map[], table);
    }
  }
}
