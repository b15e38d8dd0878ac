/** Replacing a verified duplicate by a symbolic link to the copy that is kept. */
module DedupeLink {
  import opened Base
  import opened Text
  import opened SharedDisk
  import opened FileCalls

  datatype Outcome =
    | Refused
    | Linked(workspace: Path, cleared: bool)
    | Restored(workspace: Path)
    | Stranded(workspace: Path)

  function Payload(workspace: Path): Path { workspace + ["duplicate"] }

  function LinkName(workspace: Path): Path { workspace + ["replacement-link"] }

  // ---- An identity seen twice was there all along ----------------------------------------------------------------

  /** A path bound to the same old object before and after was bound to it in between. */
  lemma BindingHeld(s: State, m: State, t: State, p: Path)
    requires WellFormed(s) && s.clock <= m.clock
    requires Drifts(s, m, p) && Drifts(m, t, p)
    requires p in s.names && p in t.names && s.names[p] == t.names[p]
    ensures p in m.names && m.names[p] == s.names[p]
  {
    assert s.names[p] < s.clock;
  }

  /** An object with the same stamp before and after had the same contents in between. */
  lemma ContentHeld(s: State, m: State, t: State, i: nat)
    requires WellFormed(s) && WellFormed(m) && s.clock <= m.clock
    requires i in s.inodes && i in m.inodes && i in t.inodes
    requires Ages(s, m, i) && Ages(m, t, i)
    requires s.inodes[i].stamp == t.inodes[i].stamp
    ensures m.inodes[i].kind == s.inodes[i].kind
    ensures s.inodes[i].content == m.inodes[i].content == t.inodes[i].content
  {
  }

  predicate RegularAt(s: State, p: Path, i: nat) {
    Names(s, p, i) && i in s.inodes && s.inodes[i].kind.Regular?
  }

  /**
   A regular file inspected at `a` and again at `c` with the same identity, and hashed through its path at `b`
   in between, still has the hashed contents at `c`.
   */
  lemma HashHeld(past: seq<State>, own: set<Path>, ruined: set<nat>, calm: bool, a: nat, b: nat, c: nat,
                 p: Path, i: nat, hops: nat, sha: Content -> string, hash: string)
    requires Chain(past, own, ruined, calm) && a <= b <= c < |past|
    requires RegularAt(past[a], p, i) && RegularAt(past[c], p, i) && i !in ruined
    requires past[a].inodes[i].stamp == past[c].inodes[i].stamp
    requires p !in own || Names(past[b], p, i)
    requires var e := Follow(past[b], p, hops); e.Some? && sha(past[b].inodes[e.value].content) == hash
    ensures sha(past[c].inodes[i].content) == hash
  {
    assert Evolves(past[a], past[b], own, ruined, calm) && Evolves(past[b], past[c], own, ruined, calm);
    if p !in own {
      BindingHeld(past[a], past[b], past[c], p);
    }
    ContentHeld(past[a], past[b], past[c], i);
  }

  /** An identity that is back was never gone. */
  lemma StampHeld(past: seq<State>, own: set<Path>, ruined: set<nat>, calm: bool, a: nat, b: nat, c: nat, i: nat)
    requires Chain(past, own, ruined, calm) && a <= b <= c < |past| && i !in ruined && i in past[a].inodes
    ensures i in past[b].inodes && i in past[c].inodes
    ensures past[a].inodes[i].stamp == past[c].inodes[i].stamp ==> past[b].inodes[i].stamp == past[a].inodes[i].stamp
    ensures past[b].inodes[i].kind == past[a].inodes[i].kind
    ensures past[a].inodes[i].stamp == past[b].inodes[i].stamp ==>
              past[a].inodes[i].content == past[b].inodes[i].content
  {
    assert Evolves(past[a], past[b], own, ruined, calm) && Evolves(past[b], past[c], own, ruined, calm);
    assert Ages(past[a], past[b], i) && Ages(past[b], past[c], i);
  }

  ghost predicate RegularFile(s: State, p: Path) {
    p in s.names && RegularAt(s, p, s.names[p])
  }

  ghost predicate SameAttributes(s: State, first: Path, second: Path) {
    && RegularFile(s, first) && RegularFile(s, second)
    && s.inodes[s.names[first]].attributes == s.inodes[s.names[second]].attributes
  }

  ghost predicate HasHash(s: State, sha: Content -> string, p: Path, hash: string) {
    RegularFile(s, p) && sha(s.inodes[s.names[p]].content) == hash
  }

  /** Two different regular files of one size with the same metadata. */
  ghost predicate Alike(s: State, keep: Path, other: Path) {
    && SameAttributes(s, keep, other) && s.names[keep] != s.names[other]
    && Size(s.inodes[s.names[keep]].content) == Size(s.inodes[s.names[other]].content)
    && s.inodes[s.names[keep]].meta == s.inodes[s.names[other]].meta
  }

  /** A duplicate as the plan describes it. */
  ghost predicate Twins(s: State, sha: Content -> string, keep: Path, other: Path, hash: string) {
    Alike(s, keep, other) && HasHash(s, sha, keep, hash) && HasHash(s, sha, other, hash)
  }

  /** What was seen of the two files is what is there now. */
  ghost predicate Current(s: State, keep: Path, keepInfo: Info, other: Path, otherInfo: Info) {
    && RegularFile(s, keep) && keepInfo == InfoOf(s, s.names[keep])
    && RegularFile(s, other) && otherInfo == InfoOf(s, s.names[other])
  }

  // ---- Checks ----------------------------------------------------------------------------------------------------

  method InspectRegular(fs: FileSystem, p: Path) returns (r: Option<Info>)
    requires fs.Valid()
    modifies fs`state, fs`past
    ensures fs.Valid() && fs.past == old(fs.past) + [fs.state]
    ensures Disturbed(old(fs.state), fs.state, fs.sealed, fs.calm)
    ensures r.Some? ==> RegularAt(fs.state, p, r.value.ino) && r.value == InfoOf(fs.state, r.value.ino)
    ensures fs.reliable && RegularFile(fs.state, p) ==> r.Some?
  {
    var probe := fs.Lstat(p);
    r := if probe.Found? && probe.info.kind.Regular? then Some(probe.info) else None;
  }

  method VerifyHash(fs: FileSystem, p: Path, hash: string) returns (matches: bool)
    requires fs.Valid()
    modifies fs`state, fs`past
    ensures fs.Valid() && fs.past == old(fs.past) + [fs.state]
    ensures Disturbed(old(fs.state), fs.state, fs.sealed, fs.calm)
    ensures matches ==>
              var e := Follow(fs.state, p, fs.hops); e.Some? && fs.sha(fs.state.inodes[e.value].content) == hash
    ensures fs.reliable && HasHash(fs.state, fs.sha, p, hash) ==> matches
    ensures matches && RegularFile(fs.state, p) ==> HasHash(fs.state, fs.sha, p, hash)
  {
    var actual := fs.ReadHash(p);
    matches := actual == Some(hash);
  }

  method SameMetadata(fs: FileSystem, first: Path, firstInfo: Info, second: Path, secondInfo: Info) returns (same: bool)
    requires fs.Valid()
    modifies fs`state, fs`past
    ensures fs.Valid() && old(fs.past) <= fs.past
    ensures Disturbed(old(fs.state), fs.state, fs.sealed, fs.calm)
    ensures same ==> firstInfo.meta == secondInfo.meta
    ensures (&& fs.calm && fs.reliable && SameAttributes(fs.state, first, second)
             && firstInfo.meta == secondInfo.meta) ==> same
    ensures fs.calm && same && RegularFile(fs.state, first) && RegularFile(fs.state, second) ==>
              SameAttributes(fs.state, first, second)
  {
    if firstInfo.meta != secondInfo.meta {
      InterferesStays(fs.state, fs.sealed);
      return false;
    }
    var a := fs.ReadAttributes(first);
    ghost var mid := fs.state;
    if a.None? {
      return false;
    }
    var b := fs.ReadAttributes(second);
    InterferenceComposes(old(fs.state), mid, fs.state, fs.sealed);
    same := a == b;
  }

  lemma InterferesStays(s: State, sealed: set<Path>)
    ensures Interferes(s, s, sealed)
  {
  }

  /** What was seen of the two files before anything is touched, and at which positions of the record. */
  datatype Sighting = Sighting(keep: Info, replace: Info, keepHashed: nat, replaceHashed: nat, keepAt: nat, replaceAt: nat)

  /**
   Two different regular files of one size with the same metadata; the paths led to contents with the hash, and after
   that they still named the files seen at first.
   */
  ghost predicate Passed(fs: FileSystem, keep: Path, replace: Path, hash: string, found: (Info, Info), g: Sighting)
    requires fs.Valid()
    reads fs
  {
    && !SameIdentity(g.keep, g.replace) && g.keep.size == g.replace.size && g.keep.meta == g.replace.meta
    && HashSeen(fs, g.keepHashed, keep, hash) && HashSeen(fs, g.replaceHashed, replace, hash)
    && g.keepHashed < g.replaceHashed < g.keepAt < g.replaceAt < |fs.past|
    && RegularAt(fs.past[g.keepAt], keep, found.0.ino) && found.0 == InfoOf(fs.past[g.keepAt], found.0.ino)
    && RegularAt(fs.past[g.replaceAt], replace, found.1.ino) && found.1 == InfoOf(fs.past[g.replaceAt], found.1.ino)
    && SameIdentity(g.keep, found.0) && SameIdentity(g.replace, found.1)
  }

  /** The path led to contents with the hash. */
  ghost predicate HashSeen(fs: FileSystem, at: nat, p: Path, hash: string)
    requires fs.Valid()
    reads fs
  {
    at < |fs.past| &&
    var e := Follow(fs.past[at], p, fs.hops); e.Some? && fs.sha(fs.past[at].inodes[e.value].content) == hash
  }

  /** A first look at both files. */
  method Compare(fs: FileSystem, keep: Path, replace: Path)
    returns (r: Option<(Info, Info)>, ghost keepAt: nat, ghost replaceAt: nat)
    requires fs.Valid()
    modifies fs`state, fs`past
    ensures fs.Valid() && old(fs.past) <= fs.past
    ensures r.Some? ==>
              && keepAt < replaceAt < |fs.past|
              && RegularAt(fs.past[keepAt], keep, r.value.0.ino) && r.value.0 == InfoOf(fs.past[keepAt], r.value.0.ino)
              && RegularAt(fs.past[replaceAt], replace, r.value.1.ino)
              && r.value.1 == InfoOf(fs.past[replaceAt], r.value.1.ino)
              && !SameIdentity(r.value.0, r.value.1)
              && r.value.0.size == r.value.1.size && r.value.0.meta == r.value.1.meta
    ensures fs.calm ==> fs.state == old(fs.state)
    ensures fs.calm && r.Some? ==> Current(fs.state, keep, r.value.0, replace, r.value.1)
    ensures fs.calm && fs.reliable && Alike(fs.state, keep, replace) ==> r.Some?
    ensures fs.calm && r.Some? ==> Alike(fs.state, keep, replace)
  {
    hide Chain, Interferes;
    r, keepAt, replaceAt := None, 0, 0;
    var keepInfo := InspectRegular(fs, keep);
    if keepInfo.None? { return; }
    keepAt := |fs.past| - 1;
    var replaceInfo := InspectRegular(fs, replace);
    if replaceInfo.None? { return; }
    replaceAt := |fs.past| - 1;
    if SameIdentity(keepInfo.value, replaceInfo.value) { return; }
    if keepInfo.value.size != replaceInfo.value.size { return; }
    var metadata := SameMetadata(fs, keep, keepInfo.value, replace, replaceInfo.value);
    if !metadata { return; }
    r := Some((keepInfo.value, replaceInfo.value));
  }

  /** The checks made before anything is touched. */
  method CheckBefore(fs: FileSystem, keep: Path, replace: Path, hash: string)
    returns (r: Option<(Info, Info)>, ghost g: Sighting)
    requires fs.Valid() && fs.ruined == {}
    modifies fs`state, fs`past
    ensures fs.Valid() && old(fs.past) <= fs.past
    ensures r.Some? ==> r.value.0.ino != r.value.1.ino && Passed(fs, keep, replace, hash, r.value, g)
    ensures fs.calm ==> fs.state == old(fs.state)
    ensures fs.calm && r.Some? ==> Current(fs.state, keep, r.value.0, replace, r.value.1)
    ensures fs.calm && fs.reliable && Twins(fs.state, fs.sha, keep, replace, hash) ==> r.Some?
    ensures fs.calm && r.Some? ==> Twins(fs.state, fs.sha, keep, replace, hash)
  {
    hide Chain, Interferes, Follow, Alike;
    g := Sighting(Info(0, 0, 0, Regular, Meta(0, 0, 0)), Info(0, 0, 0, Regular, Meta(0, 0, 0)), 0, 0, 0, 0);
    var infos;
    ghost var keepFirst, replaceFirst: nat;
    infos, keepFirst, replaceFirst := Compare(fs, keep, replace);
    if infos.None? { return None, g; }
    var (keepInfo, replaceInfo) := infos.value;
    var matches := VerifyHash(fs, keep, hash);
    if !matches { return None, g; }
    ghost var keepHashed := |fs.past| - 1;
    matches := VerifyHash(fs, replace, hash);
    if !matches { return None, g; }
    ghost var replaceHashed := |fs.past| - 1;
    var currentKeep := InspectRegular(fs, keep);
    if currentKeep.None? { return None, g; }
    ghost var keepAt := |fs.past| - 1;
    var currentReplace := InspectRegular(fs, replace);
    if currentReplace.None? { return None, g; }
    if !SameIdentity(keepInfo, currentKeep.value) || !SameIdentity(replaceInfo, currentReplace.value) {
      return None, g;
    }
    StampHeld(fs.past, fs.own, fs.ruined, fs.calm, keepFirst, replaceFirst, keepAt, keepInfo.ino);
    g := Sighting(keepInfo, replaceInfo, keepHashed, replaceHashed, keepAt, |fs.past| - 1);
    r := Some((currentKeep.value, currentReplace.value));
  }

  // ---- The isolated duplicate ------------------------------------------------------------------------------------

  /** The names the replacement may touch. */
  function Touched(replace: Path, w: Path): set<Path> {
    {w, Payload(w), LinkName(w), replace}
  }

  /** Everything the program destroyed was a link or a directory of its own, or one of the listed objects. */
  ghost predicate SpentOnly(s: State, spent: set<nat>, also: set<nat>) {
    forall i :: i in spent ==> i in also || (i in s.inodes && (s.inodes[i].kind.Symlink? || s.inodes[i].kind.Directory?))
  }

  /** The workspace, the duplicate in it, and nothing but links at the names where the program makes them. */
  ghost predicate Arranged(s: State, replace: Path, w: Path, d: nat)
    requires WellFormed(s)
  {
    && Names(s, Payload(w), d)
    && (forall p :: p in {LinkName(w), replace} && p in s.names ==>
          s.names[p] != d && s.inodes[s.names[p]].kind.Symlink?)
    && IsDirectory(s, w) && s.names[w] != d
  }

  /**
   Object `d` sits in the workspace under a name that nobody else can change, and the replaced path is
   reserved for the program.
   */
  ghost predicate Isolated(fs: FileSystem, replace: Path, w: Path, d: nat)
    reads fs
  {
    && fs.Valid() && fs.ruined == {}
    && replace in fs.sealed && w in fs.sealed
    && fs.own <= Touched(replace, w)
    && !(w <= replace) && !(replace <= w)
    && Arranged(fs.state, replace, w, d)
    && d !in fs.spent
    && SpentOnly(fs.state, fs.spent, {})
  }

  /** The names of the workspace and the replaced path are out of reach for the other processes. */
  lemma SealedNames(sealed: set<Path>, replace: Path, w: Path)
    requires replace in sealed && w in sealed
    ensures IsSealed(sealed, w) && IsSealed(sealed, replace) && IsSealed(sealed, Payload(w)) && IsSealed(sealed, LinkName(w))
  {
    assert w <= w && w <= Payload(w) && w <= LinkName(w) && replace <= replace;
  }

  lemma PathsApart(replace: Path, w: Path)
    ensures Payload(w) != LinkName(w) && w != Payload(w) && w != LinkName(w)
    ensures !(w <= replace) ==> replace != Payload(w) && replace != LinkName(w) && replace != w
    ensures !(replace <= w) ==> !(replace <= Payload(w)) || replace == Payload(w)
    ensures !(w <= replace) ==> !(Payload(w) <= replace) && !(LinkName(w) <= replace)
  {
    assert Payload(w)[|w|] != LinkName(w)[|w|];
    if replace <= Payload(w) && replace != Payload(w) {
      assert replace <= Payload(w)[..|w|] == w;
    }
  }

  /** Interference leaves the isolated arrangement alone. */
  lemma IsolationSurvives(before: State, mid: State, sealed: set<Path>, replace: Path, w: Path)
    requires Interferes(before, mid, sealed) && replace in sealed && w in sealed
    ensures SameBinding(before, mid, replace) && SameBinding(before, mid, Payload(w))
    ensures SameBinding(before, mid, LinkName(w)) && SameBinding(before, mid, w)
    ensures forall i :: i in before.inodes ==>
              && i in mid.inodes && mid.inodes[i].kind == before.inodes[i].kind
              && mid.inodes[i].target == before.inodes[i].target
    ensures forall d :: WellFormed(before) && WellFormed(mid) && Arranged(before, replace, w, d) ==>
              Arranged(mid, replace, w, d)
  {
    SealedNames(sealed, replace, w);
    assert forall i :: i in before.inodes ==> Ages(before, mid, i);
  }

  /** Removes one of the program's own links, if it can. */
  method DropLink(fs: FileSystem, p: Path, replace: Path, w: Path, ghost d: nat)
    requires Isolated(fs, replace, w, d) && p in {LinkName(w), replace}
    modifies fs`state, fs`past, fs`own, fs`spent, fs`sealed
    ensures Isolated(fs, replace, w, d) && old(fs.past) <= fs.past && fs.sealed == old(fs.sealed)
    ensures fs.reliable ==> p !in fs.state.names
    ensures forall q :: q in {LinkName(w), replace} && q !in old(fs.state.names) ==> q !in fs.state.names
  {
    PathsApart(replace, w);
    var _ := fs.Remove(p);
    IsolationSurvives(old(fs.state), fs.past[|old(fs.past)|], fs.sealed, replace, w);
  }

  method LookAt(fs: FileSystem, p: Path, replace: Path, w: Path, ghost d: nat) returns (probe: Probe)
    requires Isolated(fs, replace, w, d)
    modifies fs`state, fs`past
    ensures Isolated(fs, replace, w, d) && old(fs.past) <= fs.past
    ensures SameBinding(old(fs.state), fs.state, replace)
    ensures probe.Found? ==> p in fs.state.names && probe.info == InfoOf(fs.state, fs.state.names[p])
    ensures probe.Missing? ==> p !in fs.state.names
    ensures fs.reliable ==> !probe.Failed?
    ensures Names(fs.state, Payload(w), d) && (probe.Found? && p == replace ==> probe.info.kind.Symlink?)
  {
    probe := fs.Lstat(p);
    IsolationSurvives(old(fs.state), fs.state, fs.sealed, replace, w);
  }

  method PutBack(fs: FileSystem, replace: Path, w: Path, ghost d: nat) returns (back: bool)
    requires Isolated(fs, replace, w, d) && replace !in fs.state.names
    modifies fs`state, fs`past, fs`own, fs`spent, fs`sealed
    ensures fs.Valid() && old(fs.past) <= fs.past && fs.own <= Touched(replace, w)
    ensures d !in fs.spent && SpentOnly(fs.state, fs.spent, {})
    ensures Names(fs.state, if back then replace else Payload(w), d)
    ensures fs.reliable ==> back
  {
    PathsApart(replace, w);
    back := fs.Rename(Payload(w), replace);
    IsolationSurvives(old(fs.state), fs.past[|old(fs.past)|], fs.sealed, replace, w);
    if back {
      RemoveWorkspace(fs, replace, w, d);
    }
  }

  method RemoveWorkspace(fs: FileSystem, replace: Path, w: Path, ghost d: nat)
    requires fs.Valid() && fs.own <= Touched(replace, w) && replace in fs.sealed && w in fs.sealed
    requires d !in fs.spent && SpentOnly(fs.state, fs.spent, {}) && Names(fs.state, replace, d)
    requires IsDirectory(fs.state, w) && fs.state.names[w] != d && w != replace
    modifies fs`state, fs`past, fs`own, fs`spent, fs`sealed
    ensures fs.Valid() && old(fs.past) <= fs.past && fs.own <= Touched(replace, w)
    ensures d !in fs.spent && SpentOnly(fs.state, fs.spent, {}) && Names(fs.state, replace, d)
  {
    SealedNames(fs.sealed, replace, w);
    var _ := fs.Remove(w);
    IsolationSurvives(old(fs.state), fs.past[|old(fs.past)|], fs.sealed, replace, w);
  }

  /** The duplicate is at its path again, or still in the workspace. */
  ghost predicate Kept(fs: FileSystem, outcome: Outcome, replace: Path, w: Path, d: nat)
    reads fs
  {
    && d !in fs.spent && SpentOnly(fs.state, fs.spent, {})
    && (outcome == Restored(w) || outcome == Stranded(w))
    && Names(fs.state, if outcome.Restored? then replace else Payload(w), d)
  }

  /** Undoes the replacement: the duplicate goes back to its path, or stays in the workspace. */
  method Restore(fs: FileSystem, replace: Path, w: Path, ghost d: nat) returns (outcome: Outcome)
    requires Isolated(fs, replace, w, d)
    modifies fs`state, fs`past, fs`own, fs`spent, fs`sealed
    ensures fs.Valid() && old(fs.past) <= fs.past && fs.own <= Touched(replace, w)
    ensures Kept(fs, outcome, replace, w, d)
    ensures fs.reliable ==> outcome.Restored?
  {
    hide Chain, Interferes, Arranged;
    DropLink(fs, LinkName(w), replace, w, d);
    var at := LookAt(fs, replace, replace, w, d);
    if at.Found? && at.info.kind.Symlink? {
      DropLink(fs, replace, replace, w, d);
    }
    at := LookAt(fs, replace, replace, w, d);
    if at.Missing? {
      var back := PutBack(fs, replace, w, d);
      if back {
        return Restored(w);
      }
    }
    outcome := Stranded(w);
  }

  // ---- The checks made on the isolated duplicate -----------------------------------------------------------------

  /** A read made while the duplicate is isolated. */
  ghost predicate OnlyLooked(before: State, after: State, replace: Path, w: Path) {
    SameBinding(before, after, replace) && SameBinding(before, after, LinkName(w))
  }

  method InspectHere(fs: FileSystem, p: Path, replace: Path, w: Path, ghost d: nat) returns (r: Option<Info>)
    requires Isolated(fs, replace, w, d)
    modifies fs`state, fs`past
    ensures Isolated(fs, replace, w, d) && fs.past == old(fs.past) + [fs.state]
    ensures OnlyLooked(old(fs.state), fs.state, replace, w)
    ensures r.Some? ==> RegularAt(fs.state, p, r.value.ino) && r.value == InfoOf(fs.state, r.value.ino)
    ensures fs.calm ==> fs.state == old(fs.state)
    ensures fs.reliable && RegularFile(fs.state, p) ==> r.Some?
  {
    r := InspectRegular(fs, p);
    IsolationSurvives(old(fs.state), fs.state, fs.sealed, replace, w);
  }

  method VerifyHere(fs: FileSystem, p: Path, hash: string, replace: Path, w: Path, ghost d: nat) returns (ok: bool)
    requires Isolated(fs, replace, w, d)
    modifies fs`state, fs`past
    ensures Isolated(fs, replace, w, d) && fs.past == old(fs.past) + [fs.state]
    ensures OnlyLooked(old(fs.state), fs.state, replace, w)
    ensures ok ==>
              var e := Follow(fs.state, p, fs.hops); e.Some? && fs.sha(fs.state.inodes[e.value].content) == hash
    ensures fs.calm ==> fs.state == old(fs.state)
    ensures fs.reliable && HasHash(fs.state, fs.sha, p, hash) ==> ok
  {
    ok := VerifyHash(fs, p, hash);
    IsolationSurvives(old(fs.state), fs.state, fs.sealed, replace, w);
  }

  /** At position `at` of the record, `i` is a regular file at `p` with the hash and the given inspection result. */
  ghost predicate Verified(fs: FileSystem, at: nat, p: Path, i: nat, info: Info, hash: string)
    reads fs
  {
    && at < |fs.past| && RegularAt(fs.past[at], p, i) && info == InfoOf(fs.past[at], i)
    && fs.sha(fs.past[at].inodes[i].content) == hash
  }

  /** Both files are hashed again, the duplicate in its workspace. */
  method HashIsolated(fs: FileSystem, keep: Path, replace: Path, replaceInfo: Info, hash: string, w: Path, ghost d: nat)
    returns (r: Option<Info>, ghost first: nat, ghost keepHashed: nat, ghost payloadHashed: nat)
    requires Isolated(fs, replace, w, d)
    modifies fs`state, fs`past
    ensures Isolated(fs, replace, w, d) && old(fs.past) <= fs.past
    ensures OnlyLooked(old(fs.state), fs.state, replace, w)
    ensures r.Some? ==>
              && |old(fs.past)| <= first < keepHashed < payloadHashed < |fs.past|
              && RegularAt(fs.past[first], Payload(w), d) && r.value == InfoOf(fs.past[first], d)
              && SameIdentity(replaceInfo, r.value)
              && HashSeen(fs, keepHashed, keep, hash)
              && HashSeen(fs, payloadHashed, Payload(w), hash) && Names(fs.past[payloadHashed], Payload(w), d)
    ensures fs.calm ==> fs.state == old(fs.state)
    ensures fs.calm && r.Some? ==> RegularAt(fs.state, Payload(w), d) && r.value == InfoOf(fs.state, d)
    ensures (&& fs.calm && fs.reliable && HasHash(fs.state, fs.sha, keep, hash)
             && HasHash(fs.state, fs.sha, Payload(w), hash) && replaceInfo == InfoOf(fs.state, d)) ==> r.Some?
  {
    hide Chain, Interferes;
    first, keepHashed, payloadHashed := 0, 0, 0;
    r := InspectHere(fs, Payload(w), replace, w, d);
    first := |fs.past| - 1;
    if r.None? || !SameIdentity(replaceInfo, r.value) { return None, first, keepHashed, payloadHashed; }
    var ok := VerifyHere(fs, keep, hash, replace, w, d);
    if !ok { return None, first, keepHashed, payloadHashed; }
    keepHashed := |fs.past| - 1;
    ok := VerifyHere(fs, Payload(w), hash, replace, w, d);
    if !ok { return None, first, keepHashed, payloadHashed; }
    payloadHashed := |fs.past| - 1;
  }

  /** The keeper and the duplicate as they were when last inspected. */
  datatype Checked = Checked(keep: Info, duplicate: Info)

  /** Both files are inspected once more. */
  method InspectBoth(fs: FileSystem, keep: Path, keepInfo: Info, payloadInfo: Info, replace: Path, w: Path, ghost d: nat)
    returns (r: Option<Checked>, ghost k: nat, ghost c: nat)
    requires Isolated(fs, replace, w, d) && LinkName(w) !in fs.state.names && keep != replace && keepInfo.ino != d
    modifies fs`state, fs`past
    ensures Isolated(fs, replace, w, d) && old(fs.past) <= fs.past
    ensures OnlyLooked(old(fs.state), fs.state, replace, w)
    ensures r.Some? ==>
              && |old(fs.past)| <= k < c < |fs.past| && keep !in Touched(replace, w)
              && SameIdentity(keepInfo, r.value.keep) && SameIdentity(payloadInfo, r.value.duplicate)
              && RegularAt(fs.past[k], keep, keepInfo.ino) && r.value.keep == InfoOf(fs.past[k], keepInfo.ino)
              && RegularAt(fs.past[c], Payload(w), d) && r.value.duplicate == InfoOf(fs.past[c], d)
    ensures fs.calm ==> fs.state == old(fs.state)
    ensures fs.calm && r.Some? ==> Current(fs.state, keep, r.value.keep, Payload(w), r.value.duplicate)
    ensures fs.calm && fs.reliable && Current(fs.state, keep, keepInfo, Payload(w), payloadInfo) ==> r.Some?
  {
    k, c := 0, 0;
    var finalKeep := InspectHere(fs, keep, replace, w, d);
    if finalKeep.None? { return None, k, c; }
    k := |fs.past| - 1;
    // A name of the program's own would have shown a directory, nothing, or the duplicate itself.
    assert SameIdentity(keepInfo, finalKeep.value) ==> keep !in Touched(replace, w);
    var finalPayload := InspectHere(fs, Payload(w), replace, w, d);
    if finalPayload.None? { return None, k, c; }
    c := |fs.past| - 1;
    if !SameIdentity(keepInfo, finalKeep.value) || !SameIdentity(payloadInfo, finalPayload.value) {
      return None, k, c;
    }
    r := Some(Checked(finalKeep.value, finalPayload.value));
  }

  /** Object `i` is a regular file at `p` with the planned hash, at position `at` of the record. */
  ghost predicate Intact(past: seq<State>, sha: Content -> string, at: nat, p: Path, i: nat, hash: string) {
    at < |past| && RegularAt(past[at], p, i) && sha(past[at].inodes[i].content) == hash
  }

  /** Where in the record the replacement was justified, and the file it relied on. */
  datatype Evidence = Evidence(keeper: nat, inspected: nat, verified: nat, followed: nat)

  /** The keeper and the duplicate were last inspected with equal mode and owner; the duplicate was unchanged. */
  ghost predicate Justified(past: seq<State>, sha: Content -> string, calm: bool, keep: Path, replace: Path, w: Path,
                            hash: string, d: nat, e: Evidence)
  {
    && e.inspected < e.verified && Intact(past, sha, e.inspected, keep, e.keeper, hash)
    && Intact(past, sha, e.verified, Payload(w), d, hash)
    && past[e.inspected].inodes[e.keeper].meta == past[e.verified].inodes[d].meta
    && e.keeper != d && keep !in Touched(replace, w)
    && (calm && d in past[0].inodes ==> past[0].inodes[d] == past[e.verified].inodes[d])
  }

  /** What was hashed between two equal inspections is what the second inspection saw. */
  lemma BothVerified(fs: FileSystem, keep: Path, keepInfo: Info, payloadInfo: Info, hash: string, replace: Path,
                     w: Path, d: nat, checked: Checked, a: nat, first: nat, keepHashed: nat, payloadHashed: nat,
                     k: nat, c: nat)
    requires fs.Valid() && fs.ruined == {} && keep !in fs.own
    requires a <= keepHashed <= k < |fs.past| && first <= payloadHashed <= c < |fs.past|
    requires RegularAt(fs.past[a], keep, keepInfo.ino) && keepInfo == InfoOf(fs.past[a], keepInfo.ino)
    requires RegularAt(fs.past[k], keep, keepInfo.ino) && checked.keep == InfoOf(fs.past[k], keepInfo.ino)
    requires RegularAt(fs.past[first], Payload(w), d) && payloadInfo == InfoOf(fs.past[first], d)
    requires RegularAt(fs.past[c], Payload(w), d) && checked.duplicate == InfoOf(fs.past[c], d)
    requires SameIdentity(keepInfo, checked.keep) && SameIdentity(payloadInfo, checked.duplicate)
    requires HashSeen(fs, keepHashed, keep, hash)
    requires HashSeen(fs, payloadHashed, Payload(w), hash) && Names(fs.past[payloadHashed], Payload(w), d)
    ensures Verified(fs, k, keep, keepInfo.ino, checked.keep, hash)
    ensures checked.keep.meta == checked.duplicate.meta && k < c && keepInfo.ino != d && keep !in Touched(replace, w) ==>
              Justified(fs.past, fs.sha, fs.calm, keep, replace, w, hash, d, Evidence(keepInfo.ino, k, c, c))
  {
    assert Evolves(fs.past[0], fs.past[c], fs.own, fs.ruined, fs.calm);
    HashHeld(fs.past, fs.own, fs.ruined, fs.calm, a, keepHashed, k, keep, keepInfo.ino, fs.hops, fs.sha, hash);
    HashHeld(fs.past, fs.own, fs.ruined, fs.calm, first, payloadHashed, c, Payload(w), d, fs.hops, fs.sha, hash);
  }

  method CheckIsolated(fs: FileSystem, keep: Path, keepInfo: Info, replace: Path, replaceInfo: Info, hash: string,
                       w: Path, ghost d: nat, ghost a: nat)
    returns (r: Option<Checked>, ghost e: Evidence)
    requires Isolated(fs, replace, w, d) && LinkName(w) !in fs.state.names
    requires keep != replace && keepInfo.ino != replaceInfo.ino
    requires a < |fs.past| && RegularAt(fs.past[a], keep, keepInfo.ino) && keepInfo == InfoOf(fs.past[a], keepInfo.ino)
    modifies fs`state, fs`past
    ensures Isolated(fs, replace, w, d) && old(fs.past) <= fs.past
    ensures OnlyLooked(old(fs.state), fs.state, replace, w)
    ensures r.Some? ==> Verified(fs, e.inspected, keep, e.keeper, r.value.keep, hash) && e.keeper == r.value.keep.ino
    ensures r.Some? && r.value.keep.meta == r.value.duplicate.meta ==>
              Justified(fs.past, fs.sha, fs.calm, keep, replace, w, hash, d, e)
    ensures fs.calm ==> fs.state == old(fs.state)
    ensures fs.calm && r.Some? ==> Current(fs.state, keep, r.value.keep, Payload(w), r.value.duplicate)
    ensures (&& fs.calm && fs.reliable && Twins(fs.state, fs.sha, keep, Payload(w), hash)
             && Current(fs.state, keep, keepInfo, Payload(w), replaceInfo)) ==> r.Some?
  {
    e := Evidence(0, 0, 0, 0);
    ghost var k, c := 0, 0;
    var payloadInfo, first, keepHashed, payloadHashed := HashIsolated(fs, keep, replace, replaceInfo, hash, w, d);
    if payloadInfo.None? { return None, e; }
    r, k, c := InspectBoth(fs, keep, keepInfo, payloadInfo.value, replace, w, d);
    if r.None? { return; }
    BothVerified(fs, keep, keepInfo, payloadInfo.value, hash, replace, w, d, r.value,
                 a, first, keepHashed, payloadHashed, k, c);
    e := Evidence(keepInfo.ino, k, c, c);
  }

  method MetadataHere(fs: FileSystem, keep: Path, keepInfo: Info, payloadInfo: Info, replace: Path, w: Path, ghost d: nat)
    returns (same: bool)
    requires Isolated(fs, replace, w, d)
    modifies fs`state, fs`past
    ensures Isolated(fs, replace, w, d) && old(fs.past) <= fs.past
    ensures OnlyLooked(old(fs.state), fs.state, replace, w)
    ensures same ==> keepInfo.meta == payloadInfo.meta
    ensures fs.calm ==> fs.state == old(fs.state)
    ensures (&& fs.calm && fs.reliable && SameAttributes(fs.state, keep, Payload(w))
             && keepInfo.meta == payloadInfo.meta) ==> same
  {
    same := SameMetadata(fs, keep, keepInfo, Payload(w), payloadInfo);
    IsolationSurvives(old(fs.state), fs.state, fs.sealed, replace, w);
  }

  // ---- Publishing the link ---------------------------------------------------------------------------------------

  predicate Blank(s: string) {
    forall i :: 0 <= i < |s| ==> IsSpace(s[i])
  }

  /** The link target "." or a blank one is rejected. */
  predicate UnusableTarget(rel: seq<string>) {
    rel == [] || (|rel| == 1 && Blank(rel[0]))
  }

  /** The replaced path is the program's symbolic link to the keeper. */
  ghost predicate LinkInPlace(s: State, replace: Path, keep: Path) {
    replace in s.names && s.names[replace] in s.inodes && s.inodes[s.names[replace]].kind.Symlink?
    && s.inodes[s.names[replace]].target == Rel(Parent(replace), keep)
  }

  /** Nothing is different but for what the path leads to. */
  ghost predicate Gained(before: State, after: State, p: Path) {
    && (forall q :: q != p ==> SameBinding(before, after, q))
    && (forall i :: i in before.inodes ==> i in after.inodes && after.inodes[i] == before.inodes[i])
  }

  /** The keeper has a link target that the program accepts and that leads back to it. */
  ghost predicate Linkable(fs: FileSystem, keep: Path, replace: Path) {
    fs.hops >= 1 && Clean(keep) && !UnusableTarget(Rel(Parent(replace), keep))
  }

  lemma NewObjectIsGained(s: State, p: Path, target: seq<string>)
    requires WellFormed(s)
    ensures Gained(s, WithObject(s, p, Symlink, target), p)
  {
  }

  method MakeLink(fs: FileSystem, keep: Path, replace: Path, w: Path, ghost d: nat) returns (done: bool)
    requires Isolated(fs, replace, w, d) && LinkName(w) !in fs.state.names && replace !in fs.state.names
    modifies fs`state, fs`past, fs`own, fs`spent, fs`sealed
    ensures Isolated(fs, replace, w, d) && old(fs.past) <= fs.past
    ensures replace !in fs.state.names
    ensures done ==> LinkName(w) in fs.state.names
    ensures done ==> fs.state.inodes[fs.state.names[LinkName(w)]].target == Rel(Parent(replace), keep)
    ensures fs.calm && done ==> Gained(old(fs.state), fs.state, LinkName(w))
    ensures fs.calm && fs.reliable && !UnusableTarget(Rel(Parent(replace), keep)) ==> done
    ensures done ==> !UnusableTarget(Rel(Parent(replace), keep))
  {
    var relative := Rel(Parent(replace), keep);
    if UnusableTarget(relative) { return false; }
    NewObjectIsGained(fs.state, LinkName(w), relative);
    done := CreateLink(fs, relative, replace, w, d);
  }

  method CreateLink(fs: FileSystem, relative: seq<string>, replace: Path, w: Path, ghost d: nat) returns (done: bool)
    requires Isolated(fs, replace, w, d) && LinkName(w) !in fs.state.names && replace !in fs.state.names
    modifies fs`state, fs`past, fs`own, fs`spent, fs`sealed
    ensures Isolated(fs, replace, w, d) && old(fs.past) <= fs.past
    ensures replace !in fs.state.names
    ensures done ==> LinkName(w) in fs.state.names
    ensures done ==> fs.state.inodes[fs.state.names[LinkName(w)]].target == relative
    ensures fs.calm && done ==> fs.state == WithObject(old(fs.state), LinkName(w), Symlink, relative)
    ensures fs.calm && fs.reliable ==> done
  {
    PathsApart(replace, w);
    done := fs.MakeSymlink(relative, LinkName(w));
    IsolationSurvives(old(fs.state), fs.past[|old(fs.past)|], fs.sealed, replace, w);
  }

  lemma MovedLinkIsInPlace(s: State, replace: Path, w: Path, d: nat)
    requires WellFormed(s) && Arranged(s, replace, w, d) && LinkName(w) in s.names
    requires !(w <= replace) && !(replace <= w)
    ensures Arranged(Renamed(s, LinkName(w), replace), replace, w, d)
    ensures Renamed(s, LinkName(w), replace).names[replace] == s.names[LinkName(w)]
    ensures s.inodes[s.names[LinkName(w)]].kind.Symlink?
  {
    PathsApart(replace, w);
  }

  method MoveLink(fs: FileSystem, keep: Path, replace: Path, w: Path, ghost d: nat) returns (done: bool)
    requires Isolated(fs, replace, w, d) && replace !in fs.state.names && LinkName(w) in fs.state.names
    requires fs.state.inodes[fs.state.names[LinkName(w)]].target == Rel(Parent(replace), keep)
    modifies fs`state, fs`past, fs`own, fs`spent, fs`sealed
    ensures Isolated(fs, replace, w, d) && old(fs.past) <= fs.past
    ensures done ==> LinkInPlace(fs.state, replace, keep)
    ensures fs.calm && done ==> fs.state == Renamed(old(fs.state), LinkName(w), replace)
    ensures fs.calm && fs.reliable ==> done
  {
    hide Chain, Interferes, Arranged;
    ChainIsSound(fs.past, fs.own, fs.ruined, fs.calm);
    PathsApart(replace, w);
    done := fs.Rename(LinkName(w), replace);
    ChainIsSound(fs.past, fs.own, fs.ruined, fs.calm);
    ghost var mid := fs.past[|old(fs.past)|];
    IsolationSurvives(old(fs.state), mid, fs.sealed, replace, w);
    if done {
      MovedLinkIsInPlace(mid, replace, w, d);
    }
  }

  lemma GainMoves(s: State, m: State, link: Path, p: Path)
    requires Gained(s, m, link) && WellFormed(m) && link in m.names && link != p && link !in s.names
    ensures Gained(s, Renamed(m, link, p), p)
  {
    forall q | q != p
      ensures SameBinding(s, Renamed(m, link, p), q)
    {
      assert q != link ==> SameBinding(s, m, q);
    }
  }

  method PlaceLink(fs: FileSystem, keep: Path, replace: Path, w: Path, ghost d: nat) returns (done: bool)
    requires Isolated(fs, replace, w, d) && LinkName(w) !in fs.state.names && replace !in fs.state.names
    modifies fs`state, fs`past, fs`own, fs`spent, fs`sealed
    ensures Isolated(fs, replace, w, d) && old(fs.past) <= fs.past
    ensures done ==> LinkInPlace(fs.state, replace, keep)
    ensures fs.calm && done ==> Gained(old(fs.state), fs.state, replace)
    ensures fs.calm && fs.reliable && !UnusableTarget(Rel(Parent(replace), keep)) ==> done
    ensures done ==> !UnusableTarget(Rel(Parent(replace), keep))
  {
    PathsApart(replace, w);
    done := MakeLink(fs, keep, replace, w, d);
    if done {
      if fs.calm {
        GainMoves(old(fs.state), fs.state, LinkName(w), replace);
      }
      done := MoveLink(fs, keep, replace, w, d);
    }
  }

  /** The published link is followed to the file that was verified. */
  method ConfirmLink(fs: FileSystem, keep: Path, keepInfo: Info, hash: string, replace: Path, w: Path,
                     ghost d: nat, ghost k: nat)
    returns (ok: bool)
    requires Isolated(fs, replace, w, d) && LinkInPlace(fs.state, replace, keep)
    requires Verified(fs, k, keep, keepInfo.ino, keepInfo, hash)
    modifies fs`state, fs`past
    ensures Isolated(fs, replace, w, d) && fs.past == old(fs.past) + [fs.state]
    ensures LinkInPlace(fs.state, replace, keep)
    ensures ok ==>
              && Follow(fs.state, replace, fs.hops) == Some(keepInfo.ino)
              && fs.state.inodes[keepInfo.ino].kind.Regular?
              && fs.sha(fs.state.inodes[keepInfo.ino].content) == hash
    ensures fs.calm ==> fs.state == old(fs.state)
    ensures (&& fs.calm && fs.reliable && fs.hops >= 1 && Clean(keep)
             && RegularFile(fs.state, keep) && keepInfo == InfoOf(fs.state, fs.state.names[keep])) ==> ok
  {
    hide Arranged, Gained, Chain, Interferes;
    if fs.calm && fs.hops >= 1 && Clean(keep) {
      RelLeadsBack(Parent(replace), keep);
    }
    ChainIsSound(fs.past, fs.own, fs.ruined, fs.calm);
    var published := fs.Stat(replace);
    ChainIsSound(fs.past, fs.own, fs.ruined, fs.calm);
    IsolationSurvives(old(fs.state), fs.state, fs.sealed, replace, w);
    ok := published.Some? && SameIdentity(keepInfo, published.value);
    assert RegularFile(fs.state, keep) && fs.hops >= 1 ==> Follow(fs.state, keep, fs.hops - 1) == Some(fs.state.names[keep]);
    StampHeld(fs.past, fs.own, fs.ruined, fs.calm, k, |fs.past| - 1, |fs.past| - 1, keepInfo.ino);
  }

  method Publish(fs: FileSystem, keep: Path, keepInfo: Info, hash: string, replace: Path, w: Path,
                 ghost d: nat, ghost k: nat)
    returns (published: bool)
    requires Isolated(fs, replace, w, d) && LinkName(w) !in fs.state.names && replace !in fs.state.names
    requires Verified(fs, k, keep, keepInfo.ino, keepInfo, hash)
    modifies fs`state, fs`past, fs`own, fs`spent, fs`sealed
    ensures Isolated(fs, replace, w, d) && old(fs.past) <= fs.past
    ensures published ==>
              && |old(fs.past)| < |fs.past|
              && LinkInPlace(fs.state, replace, keep)
              && Follow(fs.state, replace, fs.hops) == Some(keepInfo.ino)
              && fs.state.inodes[keepInfo.ino].kind.Regular?
              && fs.sha(fs.state.inodes[keepInfo.ino].content) == hash
    ensures published ==> !UnusableTarget(Rel(Parent(replace), keep))
    ensures fs.calm && published ==> Gained(old(fs.state), fs.state, replace)
    ensures (&& fs.calm && fs.reliable && Linkable(fs, keep, replace) && RegularFile(old(fs.state), keep)
             && keepInfo == InfoOf(old(fs.state), old(fs.state.names)[keep])) ==> published
  {
    published := PlaceLink(fs, keep, replace, w, d);
    if !published { return; }
    assert fs.calm && RegularFile(old(fs.state), keep) ==> SameBinding(old(fs.state), fs.state, keep);
    assert Evolves(fs.past[k], fs.past[|fs.past| - 1], fs.own, fs.ruined, fs.calm);
    published := ConfirmLink(fs, keep, keepInfo, hash, replace, w, d, k);
  }

  // ---- The whole replacement -------------------------------------------------------------------------------------

  /** The program created names that were free and destroyed nothing but its own directories. */
  ghost predicate NothingTouched(fs: FileSystem)
    reads fs
  {
    && SpentOnly(fs.state, fs.spent, {})
    && (forall p :: p in fs.own ==> exists c :: 0 <= c < |fs.past| && p !in fs.past[c].names)
    && (|fs.past| > 0 && fs.calm ==> forall p :: p in fs.own ==> p !in fs.past[0].names)
  }

  /** Of the names the program touches, only the replaced path was in use. */
  ghost predicate FreeAtStart(fs: FileSystem, replace: Path, w: Path)
    requires |fs.past| > 0
    reads fs
  {
    forall p :: p in Touched(replace, w) && p != replace ==> p !in fs.past[0].names
  }

  /** Nobody else puts anything into the workspace or binds another path to it. */
  lemma WorkspaceSurvives(before: State, mid: State, sealed: set<Path>, replace: Path, w: Path)
    requires Interferes(before, mid, sealed) && WellFormed(before) && WellFormed(mid)
    requires w in sealed && IsDirectory(before, w) && Payload(w) !in before.names && LinkName(w) !in before.names
    requires replace in before.names && replace != w ==> before.names[replace] != before.names[w]
    ensures IsDirectory(mid, w) && Payload(w) !in mid.names && LinkName(w) !in mid.names
    ensures replace in mid.names && replace != w ==> mid.names[replace] != mid.names[w]
  {
    assert w <= w && w <= Payload(w) && w <= LinkName(w);
    assert SameBinding(before, mid, w) && SameBinding(before, mid, Payload(w)) && SameBinding(before, mid, LinkName(w));
    assert Drifts(before, mid, replace) && Ages(before, mid, before.names[w]);
  }

  method MoveAside(fs: FileSystem, replace: Path, w: Path) returns (moved: bool, ghost d: nat)
    requires fs.Valid() && fs.ruined == {} && fs.own == {w} && fs.spent == {}
    requires w in fs.sealed && |w| == |Parent(replace)| + 1
    requires IsDirectory(fs.state, w) && Payload(w) !in fs.state.names && LinkName(w) !in fs.state.names
    requires replace in fs.state.names && replace != w ==> fs.state.names[replace] != fs.state.names[w]
    modifies fs`state, fs`past, fs`own, fs`spent, fs`sealed
    ensures fs.Valid() && old(fs.past) <= fs.past && |old(fs.past)| < |fs.past|
    ensures !moved ==> fs.own == {w} && fs.spent == {} && w in fs.sealed && IsDirectory(fs.state, w)
    ensures moved ==> Isolated(fs, replace, w, d) && LinkName(w) !in fs.state.names && replace !in fs.state.names
    ensures moved ==> Names(fs.past[|old(fs.past)|], replace, d)
    ensures moved && fs.calm ==> Names(old(fs.state), replace, d) && replace != w
    ensures moved && fs.calm ==> fs.state == Renamed(old(fs.state), replace, Payload(w))
    ensures (&& fs.calm && fs.reliable && replace in old(fs.state.names) && !(replace <= w)) ==> moved
  {
    hide Chain, Interferes;
    ChainIsSound(fs.past, fs.own, fs.ruined, fs.calm);
    d := 0;
    PathsApart(replace, w);
    moved := fs.Rename(replace, Payload(w));
    ChainIsSound(fs.past, fs.own, fs.ruined, fs.calm);
    ghost var mid := fs.past[|old(fs.past)|];
    WorkspaceSurvives(old(fs.state), mid, fs.sealed, replace, w);
    if moved {
      d := mid.names[replace];
      fs.Seal(replace);
    }
  }

  /** Nothing came of it: the empty workspace is removed again. */
  method DropWorkspace(fs: FileSystem, w: Path, ghost free: nat)
    requires fs.Valid() && fs.own == {w} && fs.spent == {} && w in fs.sealed && IsDirectory(fs.state, w)
    requires free < |fs.past| && w !in fs.past[free].names && (fs.calm ==> w !in fs.past[0].names)
    modifies fs`state, fs`past, fs`own, fs`spent
    ensures fs.Valid() && old(fs.past) <= fs.past && NothingTouched(fs)
  {
    assert w <= w && IsSealed(fs.sealed, w);
    var _ := fs.Remove(w);
    assert SameBinding(old(fs.state), fs.past[|old(fs.past)|], w);
    assert w !in fs.past[free].names;
  }

  lemma WorkspaceIsEmpty(before: State, w: Path, replace: Path)
    requires WellFormed(before) && Unused(before, w)
    ensures forall p :: p in Touched(replace, w) && p != replace ==> p !in before.names
    ensures var t := WithObject(before, w, Directory, []);
            && w !in before.names && IsDirectory(t, w) && Payload(w) !in t.names && LinkName(w) !in t.names
            && (replace in t.names && replace != w ==> t.names[replace] != t.names[w])
  {
    PathsApart(replace, w);
    assert w <= w && w <= Payload(w) && w <= LinkName(w);
  }

  lemma ChainIsSound(past: seq<State>, own: set<Path>, ruined: set<nat>, calm: bool)
    requires |past| > 0 && Chain(past, own, ruined, calm)
    ensures forall i :: 0 <= i < |past| ==> WellFormed(past[i])
  {
  }

  /** Where nobody else acts and the program has done nothing, every name is bound as at first. */
  lemma StillAsAtFirst(past: seq<State>, calm: bool, first: State, last: State)
    requires |past| > 0 && Chain(past, {}, {}, calm) && first == past[0] && last == past[|past| - 1]
    ensures calm ==> forall p :: SameBinding(first, last, p)
  {
    assert Evolves(past[0], past[|past| - 1], {}, {}, calm);
  }

  lemma FreeAsAtFirst(first: State, s: State, replace: Path, w: Path)
    requires forall p :: SameBinding(first, s, p)
    requires forall p :: p in Touched(replace, w) && p != replace ==> p !in s.names
    requires w !in s.names
    ensures forall p :: p in Touched(replace, w) && p != replace ==> p !in first.names
    ensures w !in first.names && SameBinding(first, s, replace)
  {
    forall p | p in Touched(replace, w) && p != replace ensures p !in first.names {
      assert SameBinding(first, s, p);
    }
    assert SameBinding(first, s, w);
  }

  method MakeWorkspace(fs: FileSystem, replace: Path) returns (made: Option<Path>)
    requires fs.Valid() && fs.ruined == {} && fs.own == {} && fs.spent == {}
    modifies fs`state, fs`past, fs`own, fs`spent, fs`sealed
    ensures fs.Valid() && old(fs.past) <= fs.past && fs.spent == {}
    ensures made.None? ==> fs.own == {}
    ensures made.Some? ==>
              var w := made.value;
              && fs.own == {w} && w in fs.sealed && |w| == |Parent(replace)| + 1
              && IsDirectory(fs.state, w) && Payload(w) !in fs.state.names && LinkName(w) !in fs.state.names
              && (replace in fs.state.names && replace != w ==> fs.state.names[replace] != fs.state.names[w])
              && (fs.calm ==> FreeAtStart(fs, replace, w))
              && (fs.calm && replace != w ==> SameBinding(fs.past[0], fs.state, replace))
              && (fs.calm ==> w !in fs.past[0].names)
              && (exists c :: 0 <= c < |fs.past| && w !in fs.past[c].names)
    ensures fs.calm && made.Some? ==> Unused(old(fs.state), made.value)
    ensures fs.calm && made.Some? ==> fs.state == WithObject(old(fs.state), made.value, Directory, [])
    ensures fs.reliable ==> made.Some?
  {
    hide Interferes, Chain, Evolves;
    StillAsAtFirst(fs.past, fs.calm, fs.past[0], fs.state);
    ghost var first, begun, was := fs.past[0], fs.state, fs.past;
    made := fs.MakeTempDirectory(Parent(replace), ".fleetty-dedupe-");
    if made.Some? {
      assert fs.past[0] == first;
      ChainIsSound(fs.past, fs.own, fs.ruined, fs.calm);
      WorkspaceIsEmpty(fs.past[|was|], made.value, replace);
      if fs.calm {
        FreeAsAtFirst(first, begun, replace, made.value);
      }
    }
  }

  /** The duplicate is in a new workspace and nothing else is different. */
  ghost predicate SetAside(before: State, after: State, replace: Path, w: Path) {
    && Unused(before, w) && replace in before.names
    && Names(after, Payload(w), before.names[replace])
    && (forall p :: p in after.names ==> p in {w, Payload(w)} || (p in before.names && p != replace))
    && (forall p :: p in before.names && p != replace ==> Names(after, p, before.names[p]))
    && (forall i :: i in before.inodes ==> i in after.inodes && after.inodes[i] == before.inodes[i])
  }

  lemma WorkspaceIsBeside(s: State, replace: Path, w: Path)
    requires replace in s.names && replace != [] && Unused(s, w) && |w| == |Parent(replace)| + 1
    ensures !(replace <= w)
  {
    assert !(w <= replace);
    assert |replace| == |w| && replace <= w ==> replace == w;
  }

  lemma MovingSetsAside(s: State, replace: Path, w: Path)
    requires WellFormed(s) && Unused(s, w) && replace in s.names
    ensures SetAside(s, Renamed(WithObject(s, w, Directory, []), replace, Payload(w)), replace, w)
  {
    var made := WithObject(s, w, Directory, []);
    var names := made.names;
    assert w <= Payload(w) && w <= w && replace != w;
    assert names[replace] == s.names[replace];
    NamesSetAside(s.names, names, replace, w, s.clock);
  }

  lemma NamesSetAside(before: map<Path, nat>, made: map<Path, nat>, replace: Path, w: Path, i: nat)
    requires replace in before && made == before[w := i] && w !in before && Payload(w) !in before
    ensures var after := (made - {replace})[Payload(w) := made[replace]];
            && after[Payload(w)] == before[replace]
            && (forall p :: p in after ==> p in {w, Payload(w)} || (p in before && p != replace))
            && (forall p :: p in before && p != replace ==> p in after && after[p] == before[p])
  {
  }

  method Isolate(fs: FileSystem, replace: Path) returns (w: Option<Path>, ghost d: nat, ghost c: nat)
    requires fs.Valid() && fs.ruined == {} && fs.own == {} && fs.spent == {}
    modifies fs`state, fs`past, fs`own, fs`spent, fs`sealed
    ensures fs.Valid() && old(fs.past) <= fs.past
    ensures w.None? ==> NothingTouched(fs)
    ensures w.Some? ==> Isolated(fs, replace, w.value, d)
    ensures w.Some? ==> LinkName(w.value) !in fs.state.names && replace !in fs.state.names
    ensures w.Some? ==> c < |fs.past| && Names(fs.past[c], replace, d)
    ensures w.Some? && fs.calm ==> Names(fs.past[0], replace, d) && FreeAtStart(fs, replace, w.value)
    ensures w.Some? && fs.calm ==> SetAside(old(fs.state), fs.state, replace, w.value)
    ensures fs.calm && fs.reliable && replace in old(fs.state.names) && replace != [] ==> w.Some?
  {
    ChainIsSound(fs.past, fs.own, fs.ruined, fs.calm);
    hide Chain, SetAside, Evolves, Disturbed, Interferes;
    d := 0;
    w := MakeWorkspace(fs, replace);
    c := |fs.past|;
    if w.Some? {
      ghost var free :| 0 <= free < |fs.past| && w.value !in fs.past[free].names;
      if fs.calm && replace in old(fs.state.names) && replace != [] {
        WorkspaceIsBeside(old(fs.state), replace, w.value);
      }
      assert fs.calm ==> fs.state == WithObject(old(fs.state), w.value, Directory, []);
      var moved: bool;
      moved, d := MoveAside(fs, replace, w.value);
      if moved && fs.calm {
        assert replace in old(fs.state.names);
        MovingSetsAside(old(fs.state), replace, w.value);
      }
      if !moved {
        DropWorkspace(fs, w.value, free);
        w := None;
      }
    }
  }

  /** The replaced path leads to a regular file with the planned hash. */
  ghost predicate LeadsTo(fs: FileSystem, at: nat, p: Path, i: nat, hash: string)
    requires fs.Valid()
    reads fs
  {
    && at < |fs.past| && Follow(fs.past[at], p, fs.hops) == Some(i)
    && fs.past[at].inodes[i].kind.Regular? && fs.sha(fs.past[at].inodes[i].content) == hash
  }

  /**
   The duplicate was verified in the workspace; then the link, in its place, was followed to another verified file
   while the duplicate was still in the workspace. Only after that was it destroyed.
   */
  ghost predicate LinkedSafely(fs: FileSystem, keep: Path, replace: Path, w: Path, hash: string, d: nat, e: Evidence)
    requires fs.Valid()
    reads fs
  {
    && Justified(fs.past, fs.sha, fs.calm, keep, replace, w, hash, d, e)
    && e.verified < e.followed && LeadsTo(fs, e.followed, replace, e.keeper, hash)
    && Names(fs.past[e.followed], Payload(w), d) && LinkInPlace(fs.past[e.followed], replace, keep)
    && LinkInPlace(fs.state, replace, keep)
    && d in fs.spent && SpentOnly(fs.state, fs.spent, {d})
  }

  /** The request names two such files, and the link to the one that is kept is acceptable. */
  ghost predicate Replaceable(s: State, sha: Content -> string, keep: Path, replace: Path, hash: string) {
    && keep != replace && IsDigest(hash) && !UnusableTarget(Rel(Parent(replace), keep))
    && Twins(s, sha, keep, replace, hash)
  }

  lemma TwinsAreNamed(s: State, sha: Content -> string, keep: Path, other: Path, hash: string)
    ensures Twins(s, sha, keep, other, hash) ==> keep in s.names && other in s.names
  {
  }

  /** Isolated, a duplicate is still what it was, and alone in its workspace. */
  lemma TwinsSetAside(before: State, after: State, sha: Content -> string, keep: Path, keepInfo: Info, replace: Path,
                      replaceInfo: Info, hash: string, w: Path)
    requires Twins(before, sha, keep, replace, hash) && Current(before, keep, keepInfo, replace, replaceInfo)
    requires SetAside(before, after, replace, w)
    ensures Twins(after, sha, keep, Payload(w), hash) && Current(after, keep, keepInfo, Payload(w), replaceInfo)
    ensures OnlyHolds(after, w)
  {
  }

  /**
   Replaces a duplicate by a link. `d` is the object that was isolated. While other processes rewrite files and
   any call may fail, `d` is destroyed only when the link is published; then it had been verified in the
   workspace and the link was last followed to a different file with the planned hash. In every other case `d`
   is back at its path or in the workspace. When nothing interferes and no call fails for a reason of its own,
   every replaceable duplicate is replaced, and no other file.
   */
  method ReplaceDuplicate(fs: FileSystem, keep: Path, replace: Path, hash: string)
    returns (outcome: Outcome, ghost d: nat, ghost e: Evidence)
    requires fs.Valid()
    modifies fs
    ensures fs.Valid() && |fs.past| > 0 && fs.past[0] == old(fs.state)
    ensures keep == replace || !IsDigest(hash) ==> outcome.Refused?
    ensures outcome.Refused? ==> NothingTouched(fs)
    ensures !outcome.Refused? ==> fs.own <= Touched(replace, outcome.workspace)
    ensures !outcome.Refused? ==> exists i :: 0 <= i < |fs.past| && Names(fs.past[i], replace, d)
    ensures !outcome.Refused? && fs.calm ==> Names(fs.past[0], replace, d) && FreeAtStart(fs, replace, outcome.workspace)
    ensures fs.ruined == {}
    ensures outcome.Restored? || outcome.Stranded? ==> Kept(fs, outcome, replace, outcome.workspace, d)
    ensures outcome.Linked? ==> LinkedSafely(fs, keep, replace, outcome.workspace, hash, d, e)
    ensures fs.reliable ==> !outcome.Stranded?
    ensures (&& fs.calm && fs.reliable && fs.hops >= 1 && Clean(keep) && replace != []) ==>
              (outcome.Linked? && outcome.cleared <==> Replaceable(old(fs.state), fs.sha, keep, replace, hash))
  {
    hide Chain, Interferes, SetAside, Twins, Current, OnlyHolds;
    fs.Observe();
    d, e := 0, Evidence(0, 0, 0, 0);
    if keep == replace || !IsDigest(hash) {
      return Refused, d, e;
    }
    var before;
    ghost var g: Sighting;
    before, g := CheckBefore(fs, keep, replace, hash);
    if before.None? {
      return Refused, d, e;
    }
    var (keepInfo, replaceInfo) := before.value;
    ghost var a := g.keepAt;
    assert Twins(old(fs.state), fs.sha, keep, replace, hash) ==> replace in old(fs.state.names) by {
      TwinsAreNamed(old(fs.state), fs.sha, keep, replace, hash);
    }
    var w: Option<Path>;
    ghost var at: nat;
    w, d, at := Isolate(fs, replace);
    if w.None? {
      return Refused, d, e;
    }
    if fs.calm {
      TwinsSetAside(old(fs.state), fs.state, fs.sha, keep, keepInfo, replace, replaceInfo, hash, w.value);
    }
    outcome, e := Exchange(fs, keep, keepInfo, replace, replaceInfo, hash, w.value, d, a);
    assert Names(fs.past[at], replace, d);
  }

  /** From the isolated duplicate to the published link, or back. */
  method Exchange(fs: FileSystem, keep: Path, keepInfo: Info, replace: Path, replaceInfo: Info, hash: string,
                  w: Path, ghost d: nat, ghost a: nat)
    returns (outcome: Outcome, ghost e: Evidence)
    requires Isolated(fs, replace, w, d) && LinkName(w) !in fs.state.names && replace !in fs.state.names
    requires keep != replace && keepInfo.ino != replaceInfo.ino
    requires a < |fs.past| && RegularAt(fs.past[a], keep, keepInfo.ino) && keepInfo == InfoOf(fs.past[a], keepInfo.ino)
    modifies fs`state, fs`past, fs`own, fs`spent, fs`sealed
    ensures fs.Valid() && old(fs.past) <= fs.past && fs.own <= Touched(replace, w)
    ensures !outcome.Refused? && outcome.workspace == w
    ensures !outcome.Linked? ==> Kept(fs, outcome, replace, w, d)
    ensures outcome.Linked? ==> LinkedSafely(fs, keep, replace, w, hash, d, e)
    ensures fs.reliable ==> !outcome.Stranded?
    ensures outcome.Linked? ==> !UnusableTarget(Rel(Parent(replace), keep))
    ensures (&& fs.calm && fs.reliable && Linkable(fs, keep, replace) && OnlyHolds(old(fs.state), w)
             && Twins(old(fs.state), fs.sha, keep, Payload(w), hash)
             && Current(old(fs.state), keep, keepInfo, Payload(w), replaceInfo)) ==> outcome == Linked(w, true)
  {
    hide Chain, Gained, OnlyHolds, Twins, Current;
    ghost var isolated := fs.state;
    var published: bool;
    published, e := TryPublish(fs, keep, keepInfo, replace, replaceInfo, hash, w, d, a);
    if published {
      if fs.calm && OnlyHolds(isolated, w) {
        GainLeavesWorkspace(isolated, fs.state, replace, w);
      }
      outcome := DropDuplicate(fs, keep, replace, w, d);
    } else {
      outcome := Restore(fs, replace, w, d);
    }
  }

  method TryPublish(fs: FileSystem, keep: Path, keepInfo: Info, replace: Path, replaceInfo: Info, hash: string,
                    w: Path, ghost d: nat, ghost a: nat)
    returns (published: bool, ghost e: Evidence)
    requires Isolated(fs, replace, w, d) && LinkName(w) !in fs.state.names && replace !in fs.state.names
    requires keep != replace && keepInfo.ino != replaceInfo.ino
    requires a < |fs.past| && RegularAt(fs.past[a], keep, keepInfo.ino) && keepInfo == InfoOf(fs.past[a], keepInfo.ino)
    modifies fs`state, fs`past, fs`own, fs`spent, fs`sealed
    ensures Isolated(fs, replace, w, d) && old(fs.past) <= fs.past
    ensures published ==>
              && Justified(fs.past, fs.sha, fs.calm, keep, replace, w, hash, d, e) && LinkInPlace(fs.state, replace, keep)
              && e.verified < e.followed && LeadsTo(fs, e.followed, replace, e.keeper, hash)
              && Names(fs.past[e.followed], Payload(w), d) && LinkInPlace(fs.past[e.followed], replace, keep)
    ensures published ==> !UnusableTarget(Rel(Parent(replace), keep))
    ensures fs.calm && published ==> Gained(old(fs.state), fs.state, replace)
    ensures (&& fs.calm && fs.reliable && Linkable(fs, keep, replace)
             && Twins(old(fs.state), fs.sha, keep, Payload(w), hash)
             && Current(old(fs.state), keep, keepInfo, Payload(w), replaceInfo)) ==> published
  {
    e := Evidence(0, 0, 0, 0);
    var checked: Option<Checked>;
    checked, e := CheckIsolated(fs, keep, keepInfo, replace, replaceInfo, hash, w, d, a);
    if checked.None? {
      return false, e;
    }
    ghost var seen := fs.past;
    published := CompareAndPublish(fs, keep, checked.value, replace, hash, w, d, e.inspected);
    if published {
      JustifiedGrows(seen, fs.past, fs.sha, fs.calm, keep, replace, w, hash, d, e, |fs.past| - 1);
      e := e.(followed := |fs.past| - 1);
    }
  }

  lemma JustifiedGrows(past: seq<State>, more: seq<State>, sha: Content -> string, calm: bool, keep: Path,
                       replace: Path, w: Path, hash: string, d: nat, e: Evidence, followed: nat)
    requires past <= more && Justified(past, sha, calm, keep, replace, w, hash, d, e)
    ensures Justified(more, sha, calm, keep, replace, w, hash, d, e.(followed := followed))
  {
  }

  method CompareAndPublish(fs: FileSystem, keep: Path, checked: Checked, replace: Path, hash: string,
                           w: Path, ghost d: nat, ghost seen: nat) returns (published: bool)
    requires Isolated(fs, replace, w, d) && LinkName(w) !in fs.state.names && replace !in fs.state.names
    requires Verified(fs, seen, keep, checked.keep.ino, checked.keep, hash)
    modifies fs`state, fs`past, fs`own, fs`spent, fs`sealed
    ensures Isolated(fs, replace, w, d) && old(fs.past) <= fs.past
    ensures published ==>
              && |old(fs.past)| < |fs.past| && LinkInPlace(fs.state, replace, keep)
              && checked.keep.meta == checked.duplicate.meta
              && LeadsTo(fs, |fs.past| - 1, replace, checked.keep.ino, hash)
    ensures published ==> !UnusableTarget(Rel(Parent(replace), keep))
    ensures fs.calm && published ==> Gained(old(fs.state), fs.state, replace)
    ensures (&& fs.calm && fs.reliable && Linkable(fs, keep, replace) && Alike(old(fs.state), keep, Payload(w))
             && Current(old(fs.state), keep, checked.keep, Payload(w), checked.duplicate)) ==> published
  {
    hide Chain, Interferes;
    published := MetadataHere(fs, keep, checked.keep, checked.duplicate, replace, w, d);
    if published {
      published := Publish(fs, keep, checked.keep, hash, replace, w, d, seen);
    }
  }

  /** The workspace holds the duplicate and nothing else. */
  ghost predicate OnlyHolds(s: State, w: Path) {
    forall p :: p in s.names && w < p ==> p == Payload(w)
  }

  lemma GainLeavesWorkspace(before: State, after: State, p: Path, w: Path)
    requires Gained(before, after, p) && OnlyHolds(before, w) && !(w <= p)
    ensures OnlyHolds(after, w)
  {
    forall q | q in after.names && w < q
      ensures q == Payload(w)
    {
      assert SameBinding(before, after, q);
    }
  }

  /** The last step: the verified duplicate is unlinked. */
  method DropDuplicate(fs: FileSystem, keep: Path, replace: Path, w: Path, ghost d: nat) returns (outcome: Outcome)
    requires Isolated(fs, replace, w, d) && LinkInPlace(fs.state, replace, keep)
    modifies fs`state, fs`past, fs`own, fs`spent, fs`sealed
    ensures fs.Valid() && old(fs.past) <= fs.past && fs.own <= Touched(replace, w)
    ensures outcome == Linked(w, true) || outcome == Linked(w, false) || Kept(fs, outcome, replace, w, d)
    ensures outcome.Linked? ==> LinkInPlace(fs.state, replace, keep) && d in fs.spent && SpentOnly(fs.state, fs.spent, {d})
    ensures fs.reliable ==> !outcome.Stranded?
    ensures fs.calm && fs.reliable && OnlyHolds(old(fs.state), w) ==> outcome == Linked(w, true)
  {
    hide Chain, Interferes;
    ChainIsSound(fs.past, fs.own, fs.ruined, fs.calm);
    PathsApart(replace, w);
    SealedNames(fs.sealed, replace, w);
    var dropped := fs.Remove(Payload(w));
    ChainIsSound(fs.past, fs.own, fs.ruined, fs.calm);
    IsolationSurvives(old(fs.state), fs.past[|old(fs.past)|], fs.sealed, replace, w);
    if !dropped {
      outcome := Restore(fs, replace, w, d);
      return;
    }
    var cleared := RemoveEmptied(fs, keep, replace, w, d);
    outcome := Linked(w, cleared);
  }

  method RemoveEmptied(fs: FileSystem, keep: Path, replace: Path, w: Path, ghost d: nat) returns (cleared: bool)
    requires fs.Valid() && w in fs.sealed && replace in fs.sealed && IsDirectory(fs.state, w) && w != replace
    requires fs.own <= Touched(replace, w) && d in fs.spent && SpentOnly(fs.state, fs.spent, {d})
    requires LinkInPlace(fs.state, replace, keep)
    modifies fs`state, fs`past, fs`own, fs`spent, fs`sealed
    ensures fs.Valid() && old(fs.past) <= fs.past && fs.own <= Touched(replace, w)
    ensures LinkInPlace(fs.state, replace, keep) && d in fs.spent && SpentOnly(fs.state, fs.spent, {d})
    ensures fs.calm && fs.reliable && NothingBelow(old(fs.state), w) ==> cleared
  {
    cleared := fs.Remove(w);
    IsolationSurvives(old(fs.state), fs.past[|old(fs.past)|], fs.sealed, replace, w);
  }
}
