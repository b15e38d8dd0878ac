/** Deleting a file or directory tree, and archiving one before it is deleted. */
module StorageActions {
  import opened Base
  import opened SharedDisk
  import opened FileCalls
  import opened Text

  // ---- The isolated source ---------------------------------------------------------------------------------------

  /** Apart from `staged`, whatever is at the old path or in the workspace appeared after the start and is not `d`. */
  ghost predicate OnlyNewAround(s: State, first: State, original: Path, w: Path, staged: Path, d: nat) {
    forall p :: p in s.names && p != staged && (p == original || w <= p) ==>
      s.names[p] != d && s.names[p] !in first.inodes
  }

  /** No object that existed at the start lost a name or contents to the program, except `d` where allowed. */
  ghost predicate OnlyNewLost(fs: FileSystem, d: nat, allowed: bool)
    reads fs
  {
    |fs.past| > 0 && LostNew(fs.spent + fs.ruined, fs.past[0], d, allowed)
  }

  ghost predicate LostNew(lost: set<nat>, first: State, d: nat, allowed: bool) {
    forall i :: i in lost ==> if i == d then allowed else i !in first.inodes
  }

  lemma LostNewGrows(lost: set<nat>, more: set<nat>, extra: set<nat>, first: State, d: nat, allowed: bool)
    requires LostNew(lost, first, d, allowed) && more <= lost + extra
    requires forall i :: i in extra ==> if i == d then allowed else i !in first.inodes
    ensures LostNew(more, first, d, allowed)
  {
  }

  /** The source, or what a failed removal left of it, is in the workspace. */
  ghost predicate Remains(fs: FileSystem, original: Path, w: Path, staged: Path, d: nat)
    reads fs
  {
    && fs.Valid() && w in fs.sealed && w < staged && !(w <= original)
    && OnlyNewLost(fs, d, true)
    && OnlyNewAround(fs.state, fs.past[0], original, w, staged, d)
    && d in fs.state.inodes && (staged in fs.state.names ==> fs.state.names[staged] == d)
  }

  /** The whole source has been in the workspace at every step since position `iso` of the record. */
  ghost predicate Staged(fs: FileSystem, original: Path, w: Path, staged: Path, d: nat, iso: nat)
    reads fs
  {
    && Remains(fs, original, w, staged, d) && OnlyNewLost(fs, d, false)
    && iso < |fs.past| && InWorkspace(fs.past, iso, |fs.past|, staged, d)
  }

  ghost predicate InWorkspace(past: seq<State>, from: nat, until: nat, staged: Path, d: nat) {
    until <= |past| && forall j :: from <= j < until ==> Names(past[j], staged, d)
  }

  /** Interference cannot reach into the workspace, and binds the old path only to new objects. */
  lemma AroundSurvives(before: State, mid: State, sealed: set<Path>, first: State,
                       original: Path, w: Path, staged: Path, d: nat)
    requires WellFormed(first) && WellFormed(before) && first.clock <= before.clock && d in before.inodes
    requires Interferes(before, mid, sealed) && w in sealed && w <= staged
    requires OnlyNewAround(before, first, original, w, staged, d)
    ensures OnlyNewAround(mid, first, original, w, staged, d)
    ensures SameBinding(before, mid, staged)
  {
    assert IsSealed(sealed, staged);
    forall p | p in mid.names && p != staged && (p == original || w <= p)
      ensures mid.names[p] != d && mid.names[p] !in first.inodes
    {
      assert Drifts(before, mid, p);
      assert w <= p ==> IsSealed(sealed, p);
    }
  }

  lemma RecordStarts(fs: FileSystem)
    requires fs.Valid()
    ensures WellFormed(fs.past[0]) && WellFormed(fs.state) && fs.past[0].clock <= fs.state.clock
  {
    assert Evolves(fs.past[0], fs.past[|fs.past| - 1], fs.own, fs.ruined, fs.calm);
  }

  /** Everything in the workspace appeared after the start and is not `d`. */
  ghost predicate OnlyNewIn(s: State, first: State, w: Path, d: nat) {
    forall p :: p in s.names && w <= p ==> s.names[p] != d && s.names[p] !in first.inodes
  }

  lemma OnlyNewSurvives(before: State, mid: State, sealed: set<Path>, first: State, w: Path, d: nat)
    requires Interferes(before, mid, sealed) && w in sealed && OnlyNewIn(before, first, w, d)
    ensures OnlyNewIn(mid, first, w, d)
  {
    forall p | p in mid.names && w <= p ensures mid.names[p] != d && mid.names[p] !in first.inodes {
      assert IsSealed(sealed, p) && SameBinding(before, mid, p);
    }
  }

  // ---- Putting the source back -----------------------------------------------------------------------------------

  /** The workspace holds the source and nothing else. */
  ghost predicate Alone(s: State, w: Path, staged: Path) {
    w in s.names && forall p :: p in s.names && w < p ==> p == staged
  }

  ghost predicate InodesKept(before: State, after: State) {
    forall i :: i in before.inodes ==> i in after.inodes && after.inodes[i] == before.inodes[i]
  }

  /** The source is back, the workspace is gone, and everything else is as it was. */
  ghost predicate PutBackWhole(before: State, after: State, original: Path, w: Path, staged: Path) {
    && InodesKept(before, after) && staged in before.names && Names(after, original, before.names[staged])
    && forall p :: p != original ==> if w <= p then p !in after.names else SameBinding(before, after, p)
  }

  datatype Return = PutBack | StillStaged

  /**
   Moves the source back if its path is free. A whole source (`whole`) stays in the workspace until position `at`
   of the record, where it is back at its path.
   */
  method RestoreStaged(fs: FileSystem, original: Path, w: Path, staged: Path, sweep: bool,
                       ghost d: nat, ghost iso: nat, ghost whole: bool)
    returns (r: Return, ghost at: nat)
    requires Remains(fs, original, w, staged, d) && (whole ==> Staged(fs, original, w, staged, d, iso))
    modifies fs`state, fs`past, fs`own, fs`spent, fs`ruined
    ensures fs.Valid() && old(fs.past) <= fs.past && OnlyNewLost(fs, d, !whole) && old(fs.spent) <= fs.spent
    ensures whole && r.StillStaged? ==> Staged(fs, original, w, staged, d, iso)
    ensures whole && r.PutBack? ==>
              iso < at < |fs.past| && Names(fs.past[at], original, d) && InWorkspace(fs.past, iso, at, staged, d)
    ensures (&& fs.calm && fs.reliable && whole && original !in old(fs.state.names) && !(staged <= original)) ==>
              && r.PutBack?
              && (sweep || Alone(old(fs.state), w, staged) ==> PutBackWhole(old(fs.state), fs.state, original, w, staged))
  {
    at := 0;
    r := StillStaged;
    var free := IsFree(fs, original, w, staged, d, iso, whole);
    if free {
      var back := MoveBack(fs, original, w, staged, d, iso, whole);
      if back {
        at := |fs.past| - 1;
        ghost var moved := fs.state;
        if fs.calm {
          ReturnIsWhole(old(fs.state), moved, original, w, staged);
        }
        ClearWorkspace(fs, w, sweep, d, !whole);
        r := PutBack;
      }
    }
  }

  lemma ReturnIsWhole(before: State, moved: State, original: Path, w: Path, staged: Path)
    requires WellFormed(before) && staged in before.names && moved == Renamed(before, staged, original)
    requires w < staged && !(w <= original)
    ensures PutBackWhole(before, Removed(moved, Below(moved, w)), original, w, staged)
    ensures Alone(before, w, staged) ==> IsEmpty(moved, w)
  {
    var after := Removed(moved, Below(moved, w));
    forall p | p != original
      ensures if w <= p then p !in after.names else SameBinding(before, after, p)
    {
      assert p in Below(moved, w) <==> p in moved.names && w <= p;
    }
  }

  method IsFree(fs: FileSystem, original: Path, w: Path, staged: Path, ghost d: nat, ghost iso: nat, ghost whole: bool)
    returns (free: bool)
    requires Remains(fs, original, w, staged, d) && (whole ==> Staged(fs, original, w, staged, d, iso))
    modifies fs`state, fs`past
    ensures Remains(fs, original, w, staged, d) && (whole ==> Staged(fs, original, w, staged, d, iso))
    ensures fs.past == old(fs.past) + [fs.state]
    ensures fs.calm ==> fs.state == old(fs.state)
    ensures fs.calm && fs.reliable ==> (free <==> original !in fs.state.names)
  {
    RecordStarts(fs);
    var probe := fs.Lstat(original);
    AroundSurvives(old(fs.state), fs.state, fs.sealed, fs.past[0], original, w, staged, d);
    free := probe.Missing?;
  }

  method MoveBack(fs: FileSystem, original: Path, w: Path, staged: Path, ghost d: nat, ghost iso: nat, ghost whole: bool)
    returns (back: bool)
    requires Remains(fs, original, w, staged, d) && (whole ==> Staged(fs, original, w, staged, d, iso))
    modifies fs`state, fs`past, fs`own, fs`spent
    ensures fs.Valid() && old(fs.past) <= fs.past && OnlyNewLost(fs, d, !whole) && old(fs.spent) <= fs.spent
    ensures whole && !back ==> Staged(fs, original, w, staged, d, iso)
    ensures back ==> w in fs.sealed && OnlyNewIn(fs.state, fs.past[0], w, d)
    ensures back && whole ==>
              && iso < |fs.past| - 1 && Names(fs.state, original, d)
              && InWorkspace(fs.past, iso, |fs.past| - 1, staged, d)
    ensures fs.calm && back ==> staged in old(fs.state.names) && fs.state == Renamed(old(fs.state), staged, original)
    ensures (&& fs.calm && fs.reliable && whole && original !in old(fs.state.names) && !(staged <= original)) ==> back
  {
    hide Chain;
    RecordStarts(fs);
    back := fs.Rename(staged, original);
    assert fs.past[0] == old(fs.past)[0];
    ghost var mid := fs.past[|old(fs.past)|];
    AroundSurvives(old(fs.state), mid, fs.sealed, fs.past[0], original, w, staged, d);
    assert forall i :: i in Displaced(mid, staged, original) ==> i != d && i !in fs.past[0].inodes;
    LostNewGrows(old(fs.spent) + old(fs.ruined), fs.spent + fs.ruined, Displaced(mid, staged, original),
                 fs.past[0], d, !whole);
  }

  ghost predicate IsEmpty(s: State, p: Path) {
    p in s.names && NothingBelow(s, p)
  }

  lemma EmptyIsAlone(s: State, p: Path)
    ensures IsEmpty(s, p) ==> Below(s, p) == {p}
  {
    if IsEmpty(s, p) {
      forall q | q in s.names && p <= q ensures q == p {
        assert q != p ==> p < q;
      }
      assert p <= p;
    }
  }

  /** Removes what is left of the workspace once the object is no longer part of it. */
  method ClearWorkspace(fs: FileSystem, w: Path, sweep: bool, ghost d: nat, ghost allowed: bool)
    requires fs.Valid() && w in fs.sealed && OnlyNewIn(fs.state, fs.past[0], w, d) && OnlyNewLost(fs, d, allowed)
    modifies fs`state, fs`past, fs`own, fs`spent, fs`ruined
    ensures fs.Valid() && old(fs.past) <= fs.past && OnlyNewLost(fs, d, allowed) && old(fs.spent) <= fs.spent
    ensures fs.calm && fs.reliable && (sweep || IsEmpty(old(fs.state), w)) ==>
              fs.state == Removed(old(fs.state), Below(old(fs.state), w))
  {
    if sweep {
      var _ := fs.RemoveAll(w);
    } else {
      var _ := fs.Remove(w);
    }
    ghost var mid := fs.past[|old(fs.past)|];
    assert fs.past[0] == old(fs.past)[0];
    OnlyNewSurvives(old(fs.state), mid, fs.sealed, fs.past[0], w, d);
    assert forall i :: i in NamedBelow(mid, w) ==> i != d && i !in fs.past[0].inodes;
    assert w <= w && (w in mid.names ==> mid.names[w] in NamedBelow(mid, w));
    EmptyIsAlone(mid, w);
    LostNewGrows(old(fs.spent) + old(fs.ruined), fs.spent + fs.ruined, NamedBelow(mid, w), fs.past[0], d, allowed);
  }

  // ---- Isolating the source --------------------------------------------------------------------------------------

  /** Everything in the workspace appeared after the start and is not what the source's path leads to. */
  ghost predicate OnlyOurs(s: State, first: State, original: Path, w: Path) {
    forall p :: p in s.names && w <= p ==>
      s.names[p] !in first.inodes && (original in s.names && !(w <= original) ==> s.names[p] != s.names[original])
  }

  /** The workspace holds only what the program made in it, and not yet the source. */
  ghost predicate Prepared(fs: FileSystem, original: Path, w: Path)
    reads fs
  {
    && fs.Valid() && w in fs.sealed && fs.spent == {} && fs.ruined == {}
    && OnlyOurs(fs.state, fs.past[0], original, w)
    && (forall p :: p in fs.own ==> w <= p)
  }

  /** Nothing that existed at the start lost a name or contents to the program. */
  ghost predicate SourceUntouched(fs: FileSystem)
    reads fs
  {
    |fs.past| > 0 && forall i :: i in fs.spent + fs.ruined ==> i !in fs.past[0].inodes
  }

  lemma PreparedSurvives(before: State, mid: State, sealed: set<Path>, first: State, original: Path, w: Path)
    requires WellFormed(before) && Interferes(before, mid, sealed) && w in sealed && OnlyOurs(before, first, original, w)
    ensures OnlyOurs(mid, first, original, w)
    ensures forall p :: p in mid.names && w <= p ==> p in before.names
  {
    forall p | p in mid.names && w <= p
      ensures p in before.names && mid.names[p] == before.names[p]
      ensures original in mid.names && !(w <= original) ==> mid.names[p] != mid.names[original]
    {
      assert IsSealed(sealed, p) && SameBinding(before, mid, p) && Drifts(before, mid, original);
    }
  }

  /** Nothing is different but in a workspace that was not there before. */
  ghost predicate OnlyAdded(before: State, after: State, w: Path) {
    && Unused(before, w) && InodesKept(before, after)
    && forall p :: !(w <= p) ==> SameBinding(before, after, p)
  }

  ghost predicate Unchanged(before: State, after: State) {
    InodesKept(before, after) && forall p :: SameBinding(before, after, p)
  }

  ghost predicate Gone(before: State, after: State, path: Path) {
    InodesKept(before, after) && path !in after.names && forall p :: p != path ==> SameBinding(before, after, p)
  }

  /** The source is in a new workspace, and nothing else is different. */
  ghost predicate SetAside(before: State, after: State, original: Path, w: Path, staged: Path) {
    && Unused(before, w) && InodesKept(before, after) && w < staged && !(w <= original)
    && original in before.names && Names(after, staged, before.names[original]) && original !in after.names
    && forall p :: p != original && !(w <= p) ==> SameBinding(before, after, p)
  }

  lemma AddedIsRemoved(before: State, s: State, w: Path)
    requires WellFormed(s) && OnlyAdded(before, s, w)
    ensures Unchanged(before, Removed(s, Below(s, w)))
  {
    forall p ensures SameBinding(before, Removed(s, Below(s, w)), p) {
      assert p in Below(s, w) <==> p in s.names && w <= p;
      assert if w <= p then p !in before.names else SameBinding(before, s, p);
    }
  }

  lemma MovingSetsAside(before: State, s: State, original: Path, w: Path, staged: Path)
    requires WellFormed(s) && OnlyAdded(before, s, w) && original in s.names && w < staged && !(w <= original)
    ensures SetAside(before, Renamed(s, original, staged), original, w, staged)
  {
    forall p | p != original && !(w <= p) ensures SameBinding(before, Renamed(s, original, staged), p) {
      assert SameBinding(before, s, p);
    }
    assert SameBinding(before, s, original);
  }

  lemma ReturnUndoes(before: State, s: State, after: State, original: Path, w: Path, staged: Path)
    requires SetAside(before, s, original, w, staged) && PutBackWhole(s, after, original, w, staged)
    ensures Unchanged(before, after)
  {
    forall p ensures SameBinding(before, after, p) {
      if p != original {
        assert if w <= p then p !in before.names else SameBinding(before, s, p) && SameBinding(s, after, p);
      }
    }
  }

  lemma RemovalFinishes(before: State, s: State, original: Path, w: Path, staged: Path)
    requires WellFormed(s) && SetAside(before, s, original, w, staged)
    ensures var t := Removed(s, {staged}); Gone(before, Removed(t, Below(t, w)), original)
  {
    var t := Removed(s, {staged});
    var after := Removed(t, Below(t, w));
    forall p | p != original ensures SameBinding(before, after, p) {
      assert p in Below(t, w) <==> p in t.names && w <= p;
      assert if w <= p then p !in before.names else SameBinding(before, s, p);
    }
  }

  lemma WorkspaceIsBeside(s: State, original: Path, w: Path, staged: Path)
    requires original in s.names && original != [] && Unused(s, w) && |w| == |original| && w < staged
    ensures !(original <= staged) && !(w <= original)
  {
    assert staged[..|w|] == w && original != w;
  }

  method MakeWorkspace(fs: FileSystem, original: Path, parent: Path, prefix: string) returns (made: Option<Path>)
    requires fs.Valid() && fs.own == {} && fs.spent == {} && fs.ruined == {}
    modifies fs`state, fs`past, fs`own, fs`spent, fs`sealed
    ensures fs.Valid() && old(fs.past) <= fs.past && fs.spent == {}
    ensures made.Some? ==>
              && Prepared(fs, original, made.value) && |made.value| == |parent| + 1
              && forall p :: p in fs.state.names && made.value <= p ==> p == made.value
    ensures fs.reliable ==> made.Some?
    ensures made.Some? ==> exists suffix :: Numeral(suffix) && made.value == parent + [prefix + suffix]
    ensures fs.calm && made.Some? ==> OnlyAdded(old(fs.state), fs.state, made.value) && made.value in fs.state.names
    ensures fs.calm && made.None? ==> fs.state == old(fs.state)
  {
    RecordStarts(fs);
    made := fs.MakeTempDirectory(parent, prefix);
    if made.Some? {
      assert Evolves(fs.past[0], fs.past[|old(fs.past)|], fs.own, fs.ruined, fs.calm);
    }
  }

  /** Moves whatever is at the path into the workspace. */
  method MoveIn(fs: FileSystem, original: Path, w: Path, staged: Path)
    returns (moved: bool, ghost d: nat, ghost iso: nat)
    requires Prepared(fs, original, w) && w < staged && staged !in fs.state.names && (w <= original ==> w == original)
    modifies fs`state, fs`past, fs`own, fs`spent
    ensures old(fs.past) <= fs.past
    ensures !moved ==> Prepared(fs, original, w)
    ensures moved ==> Staged(fs, original, w, staged, d, iso) && iso > 0 && Names(fs.past[iso - 1], original, d)
    ensures fs.calm && moved ==>
              original in old(fs.state.names) && fs.state == Renamed(old(fs.state), original, staged)
    ensures fs.calm && !moved ==> fs.state == old(fs.state)
    ensures fs.calm && fs.reliable && original in old(fs.state.names) && !(original <= staged) ==> moved
  {
    RecordStarts(fs);
    d := 0;
    moved := fs.Rename(original, staged);
    ghost var mid := fs.past[|old(fs.past)|];
    assert fs.past[0] == old(fs.past)[0];
    PreparedSurvives(old(fs.state), mid, fs.sealed, fs.past[0], original, w);
    iso := |fs.past| - 1;
    if moved {
      d := mid.names[original];
      assert Drifts(old(fs.state), mid, original);
    }
  }

  // ---- Deleting --------------------------------------------------------------------------------------------------

  datatype Removal =
    | NotMoved
    | Deleted(workspace: Path)
    | Returned(workspace: Path)
    | Quarantined(workspace: Path)

  function Quarantine(w: Path): Path { w + ["payload"] }

  /** At position `v` of the record the object at `p` had the identity that was confirmed. */
  ghost predicate Confirmed(past: seq<State>, v: nat, p: Path, d: nat, info: Info) {
    v < |past| && Names(past[v], p, d) && d in past[v].inodes && SameIdentity(info, InfoOf(past[v], d))
  }

  /** After a removal was tried: gone, or still there in part or whole. */
  ghost predicate Tried(fs: FileSystem, original: Path, w: Path, staged: Path, d: nat, done: bool)
    reads fs
  {
    && fs.Valid() && w in fs.sealed && OnlyNewLost(fs, d, true)
    && (!done ==> Remains(fs, original, w, staged, d))
    && (done ==> d in fs.spent && OnlyNewIn(fs.state, fs.past[0], w, d))
  }

  /** A removal was tried right after position `t`, where the source was in the workspace. */
  ghost predicate RemovedAt(past: seq<State>, before: State, t: nat, sealed: set<Path>, staged: Path, d: nat, done: bool) {
    && t < |past| && Names(past[t], staged, d) && Interferes(before, past[t], sealed)
    && (done ==> |past| == t + 2 && staged !in past[t + 1].names)
  }

  method DeleteFile(fs: FileSystem, original: Path, w: Path, staged: Path, ghost d: nat, ghost iso: nat)
    returns (done: bool)
    requires Staged(fs, original, w, staged, d, iso)
    modifies fs`state, fs`past, fs`own, fs`spent
    ensures old(fs.past) <= fs.past && Tried(fs, original, w, staged, d, done)
    ensures !done ==> Staged(fs, original, w, staged, d, iso)
    ensures RemovedAt(fs.past, old(fs.state), |old(fs.past)|, fs.sealed, staged, d, done)
    ensures fs.calm && done ==> fs.state == Removed(old(fs.state), {staged})
    ensures fs.calm && fs.reliable && NothingBelow(old(fs.state), staged) ==> done
  {
    RecordStarts(fs);
    done := fs.Remove(staged);
    assert fs.past[0] == old(fs.past)[0];
    AroundSurvives(old(fs.state), fs.past[|old(fs.past)|], fs.sealed, fs.past[0], original, w, staged, d);
    LostNewGrows(old(fs.spent) + old(fs.ruined), fs.spent + fs.ruined, {d}, fs.past[0], d, true);
  }

  method DeleteTree(fs: FileSystem, original: Path, w: Path, staged: Path, ghost d: nat, ghost iso: nat)
    returns (done: bool)
    requires Staged(fs, original, w, staged, d, iso)
    modifies fs`state, fs`past, fs`own, fs`spent, fs`ruined
    ensures old(fs.past) <= fs.past && Tried(fs, original, w, staged, d, done) && d in fs.spent
    ensures RemovedAt(fs.past, old(fs.state), |old(fs.past)|, fs.sealed, staged, d, done) && |fs.past| == |old(fs.past)| + 2
    ensures fs.calm && done && NothingBelow(old(fs.state), staged) ==> fs.state == Removed(old(fs.state), {staged})
    ensures fs.reliable ==> done
  {
    hide Chain, Evolves;
    EmptyIsAlone(fs.state, staged);
    RecordStarts(fs);
    done := fs.RemoveAll(staged);
    assert fs.past[0] == old(fs.past)[0];
    ghost var mid := fs.past[|old(fs.past)|];
    AroundSurvives(old(fs.state), mid, fs.sealed, fs.past[0], original, w, staged, d);
    OnlyNewNamed(mid, fs.past[0], original, w, staged, d);
    LostNewGrows(old(fs.spent) + old(fs.ruined), fs.spent + fs.ruined, NamedBelow(mid, staged), fs.past[0], d, true);
    assert staged in mid.names && staged <= staged;
  }

  lemma OnlyNewNamed(s: State, first: State, original: Path, w: Path, staged: Path, d: nat)
    requires OnlyNewAround(s, first, original, w, staged, d) && w <= staged
    requires staged in s.names ==> s.names[staged] == d
    ensures forall i :: i in NamedBelow(s, staged) ==> i == d || i !in first.inodes
  {
    forall p | p in s.names && staged <= p ensures s.names[p] == d || s.names[p] !in first.inodes {
      assert w <= p;
    }
  }

  /** Removes the staged object; `whole` tells whether a failed removal left all of it. */
  method DeleteStaged(fs: FileSystem, original: Path, w: Path, staged: Path, tree: bool, ghost d: nat, ghost iso: nat)
    returns (done: bool, ghost whole: bool)
    requires Staged(fs, original, w, staged, d, iso)
    modifies fs`state, fs`past, fs`own, fs`spent, fs`ruined
    ensures old(fs.past) <= fs.past && Tried(fs, original, w, staged, d, done)
    ensures whole ==> Staged(fs, original, w, staged, d, iso)
    ensures !done && !tree ==> whole
    ensures done || whole || d in fs.spent
    ensures RemovedAt(fs.past, old(fs.state), |old(fs.past)|, fs.sealed, staged, d, done)
    ensures !whole ==> |fs.past| == |old(fs.past)| + 2
    ensures fs.calm && done && NothingBelow(old(fs.state), staged) ==> fs.state == Removed(old(fs.state), {staged})
    ensures fs.calm && fs.reliable && NothingBelow(old(fs.state), staged) ==> done
  {
    if tree {
      done := DeleteTree(fs, original, w, staged, d, iso);
      whole := false;
    } else {
      done := DeleteFile(fs, original, w, staged, d, iso);
      whole := !done;
    }
  }

  method InspectStaged(fs: FileSystem, original: Path, w: Path, staged: Path, ghost d: nat, ghost iso: nat)
    returns (found: Option<Info>)
    requires Staged(fs, original, w, staged, d, iso)
    modifies fs`state, fs`past
    ensures Staged(fs, original, w, staged, d, iso) && fs.past == old(fs.past) + [fs.state]
    ensures found.Some? ==> found.value == InfoOf(fs.state, d)
    ensures fs.calm ==> fs.state == old(fs.state)
    ensures fs.reliable ==> found.Some?
  {
    RecordStarts(fs);
    var probe := fs.Lstat(staged);
    assert fs.past[0] == old(fs.past)[0];
    AroundSurvives(old(fs.state), fs.state, fs.sealed, fs.past[0], original, w, staged, d);
    found := if probe.Found? then Some(probe.info) else None;
  }

  /** Where an isolated source is: back at its path since `at`, or in the workspace to the end of the record. */
  ghost predicate Accounted(fs: FileSystem, back: bool, original: Path, staged: Path, d: nat, iso: nat, at: nat)
    reads fs
  {
    if back then iso < at < |fs.past| && Names(fs.past[at], original, d) && InWorkspace(fs.past, iso, at, staged, d)
    else InWorkspace(fs.past, iso, |fs.past|, staged, d)
  }

  /** Moves the target into a new quarantine. */
  method IsolateTarget(fs: FileSystem, path: Path) returns (r: Option<Path>, ghost d: nat, ghost iso: nat)
    requires fs.Valid() && fs.past == [fs.state] && fs.own == {} && fs.spent == {} && fs.ruined == {}
    modifies fs`state, fs`past, fs`own, fs`spent, fs`ruined, fs`sealed
    ensures fs.Valid() && old(fs.past) <= fs.past
    ensures r.None? ==> SourceUntouched(fs)
    ensures r.Some? ==>
              Staged(fs, path, r.value, Quarantine(r.value), d, iso) && iso > 0 && Names(fs.past[iso - 1], path, d)
    ensures fs.calm && fs.reliable && path != [] ==> (r.Some? <==> path in old(fs.state.names))
    ensures fs.calm && fs.reliable && r.None? && path != [] ==> Unchanged(old(fs.state), fs.state)
    ensures fs.calm && r.Some? && path != [] ==>
              && SetAside(old(fs.state), fs.state, path, r.value, Quarantine(r.value))
              && Alone(fs.state, r.value, Quarantine(r.value))
  {
    hide Chain;
    d, iso, r := 0, 0, None;
    var made := MakeWorkspace(fs, path, Parent(path), ".fleetty-delete-");
    if made.None? { return; }
    var w := made.value;
    ghost var prepared := fs.state;
    RecordStarts(fs);
    if fs.calm && path != [] && path in old(fs.state.names) {
      WorkspaceIsBeside(old(fs.state), path, w, Quarantine(w));
      assert SameBinding(old(fs.state), prepared, path);
    }
    var moved: bool;
    moved, d, iso := MoveIn(fs, path, w, Quarantine(w));
    if moved {
      r := made;
      if fs.calm && path != [] {
        MoveIsolates(old(fs.state), prepared, path, w);
      }
    } else {
      DropWorkspace(fs, path, w, false);
      if fs.calm {
        AddedIsRemoved(old(fs.state), prepared, w);
      }
    }
  }

  lemma MoveIsolates(before: State, s: State, path: Path, w: Path)
    requires WellFormed(s) && OnlyAdded(before, s, w) && path in s.names && path != [] && |w| == |path|
    requires w in s.names && forall p :: p in s.names && w <= p ==> p == w
    requires path != w
    ensures SetAside(before, Renamed(s, path, Quarantine(w)), path, w, Quarantine(w))
    ensures Alone(Renamed(s, path, Quarantine(w)), w, Quarantine(w))
  {
    MovingSetsAside(before, s, path, w, Quarantine(w));
  }

  /** The path leads to what was confirmed. */
  ghost predicate Deletable(s: State, path: Path, info: Info) {
    path in s.names && s.names[path] in s.inodes && SameIdentity(info, InfoOf(s, s.names[path]))
  }

  /**
   Deletes what was confirmed. `d` is the object that was moved into the quarantine, whatever had become of the
   path by then. Only an object with the confirmed identity is destroyed; any other one, and a confirmed one that
   could not be removed, is back at the path or still in the quarantine. When nothing interferes and no call fails for
   a reason of its own, exactly the confirmed object is gone, or nothing is different.
   */
  method RemoveTarget(fs: FileSystem, path: Path, info: Info)
    returns (r: Removal, ghost d: nat, ghost iso: nat, ghost v: nat, ghost at: nat)
    requires fs.Valid()
    modifies fs
    ensures fs.Valid() && |fs.past| > 0 && fs.past[0] == old(fs.state)
    ensures r.NotMoved? ==> SourceUntouched(fs)
    ensures !r.NotMoved? ==> 0 < iso < |fs.past| && Names(fs.past[iso - 1], path, d) && OnlyNewLost(fs, d, true)
    ensures !r.NotMoved? && d in fs.spent + fs.ruined ==> Confirmed(fs.past, v, Quarantine(r.workspace), d, info)
    ensures r.Deleted? ==> d in fs.spent
    ensures r.Returned? || r.Quarantined? ==>
              d in fs.spent + fs.ruined || Accounted(fs, r.Returned?, path, Quarantine(r.workspace), d, iso, at)
    ensures (r.Returned? || r.Quarantined?) && !info.kind.Directory? ==> d !in fs.spent + fs.ruined
    ensures (&& fs.calm && fs.reliable && path != []) ==>
              if Deletable(old(fs.state), path, info) then r.Deleted? && Gone(old(fs.state), fs.state, path)
              else !r.Deleted? && Unchanged(old(fs.state), fs.state)
  {
    hide Chain;
    fs.Observe();
    d, iso, v, at := 0, 0, 0, 0;
    var w: Option<Path>;
    w, d, iso := IsolateTarget(fs, path);
    if w.None? {
      return NotMoved, d, iso, v, at;
    }
    ghost var was := fs.past;
    ghost var isolated := fs.state;
    RecordStarts(fs);
    assert Names(isolated, Quarantine(w.value), d);
    r, v, at := DeleteQuarantined(fs, path, info, w.value, d, iso);
    assert fs.past[iso - 1] == was[iso - 1];
    if fs.calm && fs.reliable && path != [] {
      if r.Deleted? {
        RemovalFinishes(old(fs.state), isolated, path, w.value, Quarantine(w.value));
      } else {
        ReturnUndoes(old(fs.state), isolated, fs.state, path, w.value, Quarantine(w.value));
      }
    }
  }

  method DropWorkspace(fs: FileSystem, original: Path, w: Path, sweep: bool)
    requires Prepared(fs, original, w)
    modifies fs`state, fs`past, fs`own, fs`spent, fs`ruined
    ensures fs.Valid() && old(fs.past) <= fs.past && SourceUntouched(fs)
    ensures fs.calm && fs.reliable && (sweep || IsEmpty(old(fs.state), w)) ==>
              fs.state == Removed(old(fs.state), Below(old(fs.state), w))
  {
    EmptyIsAlone(fs.state, w);
    if sweep {
      var _ := fs.RemoveAll(w);
    } else {
      var _ := fs.Remove(w);
    }
    assert fs.past[0] == old(fs.past)[0] && w <= w;
    PreparedSurvives(old(fs.state), fs.past[|old(fs.past)|], fs.sealed, fs.past[0], original, w);
  }

  /** The source was removed, and then the workspace. */
  ghost predicate Emptied(s: State, after: State, w: Path, staged: Path)
    requires WellFormed(s)
  {
    var t := Removed(s, {staged});
    after == Removed(t, Below(t, w))
  }

  method DeleteQuarantined(fs: FileSystem, path: Path, info: Info, w: Path, ghost d: nat, ghost iso: nat)
    returns (r: Removal, ghost v: nat, ghost at: nat)
    requires Staged(fs, path, w, Quarantine(w), d, iso)
    modifies fs`state, fs`past, fs`own, fs`spent, fs`ruined
    ensures fs.Valid() && old(fs.past) <= fs.past && OnlyNewLost(fs, d, true)
    ensures r == Deleted(w) || r == Returned(w) || r == Quarantined(w)
    ensures d in fs.spent + fs.ruined ==> Confirmed(fs.past, v, Quarantine(w), d, info)
    ensures r.Deleted? ==> d in fs.spent
    ensures !r.Deleted? ==> d in fs.spent + fs.ruined || Accounted(fs, r.Returned?, path, Quarantine(w), d, iso, at)
    ensures !r.Deleted? && !info.kind.Directory? ==> d !in fs.spent + fs.ruined
    ensures (&& fs.calm && fs.reliable && Alone(old(fs.state), w, Quarantine(w)) && path !in old(fs.state.names)) ==>
              if SameIdentity(info, InfoOf(old(fs.state), d))
              then r.Deleted? && Emptied(old(fs.state), fs.state, w, Quarantine(w))
              else r.Returned? && PutBackWhole(old(fs.state), fs.state, path, w, Quarantine(w))
  {
    hide Chain, RemovedAt, OnlyNewAround;
    var found := InspectStaged(fs, path, w, Quarantine(w), d, iso);
    v, at := |fs.past| - 1, 0;
    var done := false;
    ghost var whole := true;
    ghost var seen := fs.past;
    if found.Some? && SameIdentity(info, found.value) {
      done, whole := DeleteStaged(fs, path, w, Quarantine(w), info.kind.Directory?, d, iso);
    }
    assert fs.past[v] == seen[v];
    if done {
      ClearWorkspace(fs, w, false, d, true);
      return Deleted(w), v, at;
    }
    var back: Return;
    back, at := RestoreStaged(fs, path, w, Quarantine(w), false, d, iso, whole);
    r := if back.PutBack? then Returned(w) else Quarantined(w);
  }

  // ---- Archiving -------------------------------------------------------------------------------------------------

  /** `Archived` and `Returned` name the archive if one was published. */
  datatype Archival =
    | NotArchived
    | Archived(workspace: Path, archive: Path)
    | SourceReturned(workspace: Path, published: Option<Path>)
    | SourceKept(workspace: Path, published: Option<Path>)

  function StagedSource(w: Path, path: Path): Path
    requires path != []
  {
    w + ["input", path[|path| - 1]]
  }

  function Input(w: Path): Path { w + ["input"] }

  function TempArchive(w: Path): Path { w + ["payload.7z"] }

  /**
   The object the archive was written to, when the source was packed, the archive tested and linked, and when the source
   was last in the workspace.
   */
  datatype Publication = Publication(archive: nat, packed: nat, tested: nat, linked: nat, dropped: nat)

  /** Object `a` in the workspace is an archive of the source as it was at `packed`. */
  ghost predicate Packed(fs: FileSystem, w: Path, staged: Path, d: nat, a: nat, packed: nat)
    reads fs
  {
    && packed < |fs.past| && Names(fs.past[packed], staged, d) && d in fs.past[packed].inodes
    && Names(fs.state, TempArchive(w), a) && a in fs.state.inodes
    && fs.state.inodes[a].kind.Regular? && fs.state.inodes[a].held
    && fs.state.inodes[a].content.Archive? && fs.state.inodes[a].content.source == fs.past[packed].inodes[d].content
  }

  /** The archive passed its test before it was published under a free name, and was the same then. */
  ghost predicate Published(past: seq<State>, final: Path, staged: Path, d: nat, p: Publication) {
    && p.packed < p.tested < p.linked < |past|
    && Names(past[p.packed], staged, d) && d in past[p.packed].inodes
    && p.archive in past[p.tested].inodes && p.archive in past[p.linked].inodes
    && past[p.tested].inodes[p.archive].content.Archive? && past[p.tested].inodes[p.archive].content.intact
    && past[p.tested].inodes[p.archive].content.source == past[p.packed].inodes[d].content
    && final !in past[p.linked - 1].names && Names(past[p.linked], final, p.archive)
    && past[p.linked].inodes[p.archive].content == past[p.tested].inodes[p.archive].content
  }

  lemma ArchiveSurvives(before: State, mid: State, sealed: set<Path>, w: Path, a: nat)
    requires Interferes(before, mid, sealed) && w in sealed
    requires Names(before, TempArchive(w), a) && a in before.inodes && before.inodes[a].held
    ensures Names(mid, TempArchive(w), a) && a in mid.inodes && mid.inodes[a] == before.inodes[a]
  {
    assert w <= TempArchive(w) && IsSealed(sealed, TempArchive(w));
    assert SameBinding(before, mid, TempArchive(w)) && Ages(before, mid, a);
  }

  /** One read-only call while the packed source is staged. */
  lemma StillPacked(fs: FileSystem, before: State, was: seq<State>, original: Path, w: Path, staged: Path,
                    d: nat, iso: nat, a: nat, packed: nat)
    requires fs.Valid() && |was| > 0 && was[|was| - 1] == before && fs.past == was + [fs.state]
    requires WellFormed(was[0]) && WellFormed(before) && was[0].clock <= before.clock
    requires Interferes(before, fs.state, fs.sealed) && w in fs.sealed && w < staged && !(w <= original)
    requires OnlyNewLost(fs, d, false) && OnlyNewAround(before, was[0], original, w, staged, d)
    requires d in before.inodes && iso < |was| && InWorkspace(was, iso, |was|, staged, d)
    requires Names(before, TempArchive(w), a) && a in before.inodes && before.inodes[a].held
    ensures Staged(fs, original, w, staged, d, iso)
    ensures Names(fs.state, TempArchive(w), a) && a in fs.state.inodes && fs.state.inodes[a] == before.inodes[a]
  {
    assert fs.past[0] == was[0] && Names(before, staged, d);
    AroundSurvives(before, fs.state, fs.sealed, was[0], original, w, staged, d);
    ArchiveSurvives(before, fs.state, fs.sealed, w, a);
  }

  /** Nothing is different but for what the path leads to. */
  ghost predicate OnlyChanged(before: State, after: State, path: Path) {
    InodesKept(before, after) && forall p :: p != path ==> SameBinding(before, after, p)
  }

  method Pack(fs: FileSystem, original: Path, w: Path, staged: Path, ghost d: nat, ghost iso: nat)
    returns (done: bool, ghost a: nat, ghost packed: nat)
    requires Staged(fs, original, w, staged, d, iso) && staged != TempArchive(w)
    modifies fs`state, fs`past, fs`own
    ensures Staged(fs, original, w, staged, d, iso) && old(fs.past) <= fs.past
    ensures done ==> Packed(fs, w, staged, d, a, packed)
    ensures fs.calm ==> OnlyChanged(old(fs.state), fs.state, TempArchive(w))
    ensures fs.calm && done ==> packed == |old(fs.past)| && fs.past[packed] == old(fs.state)
    ensures fs.calm && fs.reliable && TempArchive(w) !in old(fs.state.names) ==>
              done && Usable(fs.state.inodes[a].content)
  {
    RecordStarts(fs);
    done := fs.PackArchive(staged, TempArchive(w));
    packed := |old(fs.past)|;
    ghost var mid := fs.past[packed];
    assert fs.past[0] == old(fs.past)[0];
    AroundSurvives(old(fs.state), mid, fs.sealed, fs.past[0], original, w, staged, d);
    assert w <= TempArchive(w) && SameBinding(mid, fs.state, staged);
    assert Evolves(fs.past[0], mid, fs.own, fs.ruined, fs.calm);
    forall p | p in fs.state.names && p != staged && (p == original || w <= p)
      ensures fs.state.names[p] != d && fs.state.names[p] !in fs.past[0].inodes
    {
      assert p != TempArchive(w) ==> SameBinding(mid, fs.state, p);
    }
    a := if done then fs.state.names[TempArchive(w)] else 0;
  }

  method StatArchive(fs: FileSystem, original: Path, w: Path, staged: Path, ghost d: nat, ghost iso: nat,
                     ghost a: nat, ghost packed: nat) returns (usable: bool)
    requires Staged(fs, original, w, staged, d, iso) && Packed(fs, w, staged, d, a, packed)
    modifies fs`state, fs`past
    ensures Staged(fs, original, w, staged, d, iso) && Packed(fs, w, staged, d, a, packed)
    ensures old(fs.past) <= fs.past
    ensures fs.calm ==> fs.state == old(fs.state)
    ensures fs.calm && fs.reliable && Size(fs.state.inodes[a].content) > 0 ==> usable
  {
    RecordStarts(fs);
    var info := fs.Stat(TempArchive(w));
    StillPacked(fs, old(fs.state), old(fs.past), original, w, staged, d, iso, a, packed);
    usable := info.Some? && info.value.kind.Regular? && info.value.size != 0;
  }

  method TestStaged(fs: FileSystem, original: Path, w: Path, staged: Path, ghost d: nat, ghost iso: nat,
                    ghost a: nat, ghost packed: nat) returns (passed: bool)
    requires Staged(fs, original, w, staged, d, iso) && Packed(fs, w, staged, d, a, packed)
    modifies fs`state, fs`past
    ensures Staged(fs, original, w, staged, d, iso) && Packed(fs, w, staged, d, a, packed)
    ensures fs.past == old(fs.past) + [fs.state]
    ensures passed ==> fs.state.inodes[a].content.intact
    ensures fs.calm ==> fs.state == old(fs.state)
    ensures fs.calm && fs.reliable && Usable(fs.state.inodes[a].content) ==> passed
  {
    RecordStarts(fs);
    passed := fs.TestArchive(TempArchive(w));
    StillPacked(fs, old(fs.state), old(fs.past), original, w, staged, d, iso, a, packed);
  }

  method SyncStaged(fs: FileSystem, original: Path, w: Path, staged: Path, ghost d: nat, ghost iso: nat,
                    ghost a: nat, ghost packed: nat) returns (ok: bool)
    requires Staged(fs, original, w, staged, d, iso) && Packed(fs, w, staged, d, a, packed)
    modifies fs`state, fs`past
    ensures Staged(fs, original, w, staged, d, iso) && Packed(fs, w, staged, d, a, packed)
    ensures fs.past == old(fs.past) + [fs.state] && fs.state.inodes[a] == old(fs.state).inodes[a]
    ensures fs.calm ==> fs.state == old(fs.state)
    ensures fs.reliable ==> ok
  {
    RecordStarts(fs);
    ok := fs.SyncFile(TempArchive(w));
    StillPacked(fs, old(fs.state), old(fs.past), original, w, staged, d, iso, a, packed);
  }

  method ProbeName(fs: FileSystem, name: Path, original: Path, w: Path, staged: Path, ghost d: nat, ghost iso: nat,
                   ghost a: nat, ghost packed: nat) returns (probe: Probe)
    requires Staged(fs, original, w, staged, d, iso) && Packed(fs, w, staged, d, a, packed)
    modifies fs`state, fs`past
    ensures Staged(fs, original, w, staged, d, iso) && Packed(fs, w, staged, d, a, packed)
    ensures fs.past == old(fs.past) + [fs.state] && fs.state.inodes[a] == old(fs.state).inodes[a]
    ensures probe.Missing? ==> name !in fs.state.names
    ensures probe.Found? ==> name in fs.state.names
    ensures fs.calm ==> fs.state == old(fs.state)
    ensures fs.reliable ==> !probe.Failed?
  {
    RecordStarts(fs);
    probe := fs.Lstat(name);
    StillPacked(fs, old(fs.state), old(fs.past), original, w, staged, d, iso, a, packed);
  }

  const MAX_SUFFIX := 10_000

  /** The names tried for the archive: the source's with ".7z", then with a number before it. */
  function ArchiveName(path: Path, suffix: nat): Path
    requires path != []
  {
    var base := path[|path| - 1];
    Parent(path) + [base + (if suffix == 0 then ".7z" else "-" + Decimal(suffix) + ".7z")]
  }

  /** The name was in use at some position of the record. */
  ghost predicate SeenTaken(past: seq<State>, from: nat, name: Path) {
    exists k :: from <= k < |past| && name in past[k].names
  }

  lemma SeenTakenStays(past: seq<State>, more: seq<State>, from: nat, name: Path)
    requires SeenTaken(past, from, name) && past <= more
    ensures SeenTaken(more, from, name)
  {
    var k :| from <= k < |past| && name in past[k].names;
    assert name in more[k].names;
  }

  /** The first candidate that is free, unless a candidate cannot be looked at. */
  method NextArchivePath(fs: FileSystem, original: Path, w: Path, staged: Path, ghost d: nat, ghost iso: nat,
                         ghost a: nat, ghost packed: nat) returns (r: Option<Path>, ghost n: nat)
    requires Staged(fs, original, w, staged, d, iso) && Packed(fs, w, staged, d, a, packed) && original != []
    modifies fs`state, fs`past
    ensures Staged(fs, original, w, staged, d, iso) && Packed(fs, w, staged, d, a, packed)
    ensures old(fs.past) <= fs.past && fs.state.inodes[a] == old(fs.state).inodes[a]
    ensures r.Some? ==>
              && n <= MAX_SUFFIX && r.value == ArchiveName(original, n) && r.value !in fs.state.names
              && forall m :: 0 <= m < n ==> SeenTaken(fs.past, |old(fs.past)|, ArchiveName(original, m))
    ensures fs.calm ==> fs.state == old(fs.state)
    ensures fs.calm && r.Some? ==> forall m :: 0 <= m < n ==> ArchiveName(original, m) in fs.state.names
    ensures fs.calm && fs.reliable && r.None? ==>
              forall m :: 0 <= m <= MAX_SUFFIX ==> ArchiveName(original, m) in fs.state.names
  {
    hide Chain, OnlyNewAround, LostNew, InWorkspace, ArchiveName;
    n := 0;
    var suffix := 0;
    while suffix <= MAX_SUFFIX
      invariant suffix == n
      invariant Staged(fs, original, w, staged, d, iso) && Packed(fs, w, staged, d, a, packed)
      invariant old(fs.past) <= fs.past && fs.state.inodes[a] == old(fs.state).inodes[a]
      invariant forall m :: 0 <= m < n ==> SeenTaken(fs.past, |old(fs.past)|, ArchiveName(original, m))
      invariant fs.calm ==> fs.state == old(fs.state)
      invariant fs.calm ==> forall m :: 0 <= m < n ==> ArchiveName(original, m) in fs.state.names
    {
      ghost var was := fs.past;
      var probe := ProbeName(fs, ArchiveName(original, suffix), original, w, staged, d, iso, a, packed);
      forall m | 0 <= m < n ensures SeenTaken(fs.past, |old(fs.past)|, ArchiveName(original, m)) {
        SeenTakenStays(was, fs.past, |old(fs.past)|, ArchiveName(original, m));
      }
      if probe.Missing? {
        return Some(ArchiveName(original, suffix)), n;
      }
      if probe.Failed? {
        return None, n;
      }
      assert ArchiveName(original, n) in fs.past[|fs.past| - 1].names;
      suffix, n := suffix + 1, n + 1;
    }
    r := None;
  }

  /** The archive was seen intact at `tested` and is still the same. */
  ghost predicate Tested(fs: FileSystem, w: Path, staged: Path, d: nat, a: nat, packed: nat, tested: nat)
    reads fs
  {
    && Packed(fs, w, staged, d, a, packed) && packed < tested < |fs.past|
    && a in fs.past[tested].inodes && fs.past[tested].inodes[a] == fs.state.inodes[a]
    && fs.state.inodes[a].content.intact
  }

  method PackAndTest(fs: FileSystem, original: Path, w: Path, staged: Path, ghost d: nat, ghost iso: nat)
    returns (ok: bool, ghost a: nat, ghost packed: nat, ghost tested: nat)
    requires Staged(fs, original, w, staged, d, iso) && staged != TempArchive(w)
    modifies fs`state, fs`past, fs`own
    ensures Staged(fs, original, w, staged, d, iso) && old(fs.past) <= fs.past
    ensures ok ==> Tested(fs, w, staged, d, a, packed, tested)
    ensures fs.calm ==> OnlyChanged(old(fs.state), fs.state, TempArchive(w))
    ensures fs.calm && ok ==> fs.past[packed] == old(fs.state)
    ensures fs.calm && fs.reliable && TempArchive(w) !in old(fs.state.names) ==> ok
  {
    hide Chain, OnlyChanged, OnlyNewAround, LostNew, InWorkspace;
    tested := 0;
    ok, a, packed := Pack(fs, original, w, staged, d, iso);
    if !ok { return; }
    ok := StatArchive(fs, original, w, staged, d, iso, a, packed);
    if !ok { return; }
    ok := TestStaged(fs, original, w, staged, d, iso, a, packed);
    tested := |fs.past| - 1;
    var cancelled: bool := *;
    if !ok || (cancelled && !fs.reliable) {
      ok := false;
      return;
    }
    ok := SyncStaged(fs, original, w, staged, d, iso, a, packed);
  }

  method PublishArchive(fs: FileSystem, final: Path, original: Path, w: Path, staged: Path, ghost d: nat, ghost iso: nat,
                        ghost a: nat, ghost packed: nat, ghost tested: nat) returns (done: bool)
    requires Staged(fs, original, w, staged, d, iso) && Tested(fs, w, staged, d, a, packed, tested)
    requires staged != TempArchive(w) && !(w < final)
    modifies fs`state, fs`past, fs`own, fs`spent
    ensures Staged(fs, original, w, staged, d, iso) && old(fs.past) <= fs.past
    ensures done ==> Published(fs.past, final, staged, d, Publication(a, packed, tested, |fs.past| - 1, 0))
    ensures fs.calm && !done ==> fs.state == old(fs.state)
    ensures fs.calm && done ==> fs.state == old(fs.state).(names := old(fs.state).names[final := a])
    ensures fs.calm && fs.reliable && final !in old(fs.state.names) ==> done
  {
    hide Chain;
    RecordStarts(fs);
    done := fs.HardLink(TempArchive(w), final);
    ghost var mid := fs.past[|old(fs.past)|];
    assert fs.past[0] == old(fs.past)[0];
    AroundSurvives(old(fs.state), mid, fs.sealed, fs.past[0], original, w, staged, d);
    ArchiveSurvives(old(fs.state), mid, fs.sealed, w, a);
    assert w <= TempArchive(w);
    if done {
      LinkPublishes(old(fs.past), fs.past, final, w, staged, d, a, packed, tested);
    }
  }

  lemma LinkPublishes(was: seq<State>, now: seq<State>, final: Path, w: Path, staged: Path,
                      d: nat, a: nat, packed: nat, tested: nat)
    requires was <= now && |now| == |was| + 2 && packed < tested < |was|
    requires Names(was[packed], staged, d) && d in was[packed].inodes
    requires a in was[tested].inodes && was[tested].inodes[a].content.Archive? && was[tested].inodes[a].content.intact
    requires was[tested].inodes[a].content.source == was[packed].inodes[d].content
    requires var mid, last := now[|was|], now[|was| + 1];
             && final !in mid.names && Names(mid, TempArchive(w), a) && a in mid.inodes
             && mid.inodes[a].content == was[tested].inodes[a].content
             && last == mid.(names := mid.names[final := a])
    ensures Published(now, final, staged, d, Publication(a, packed, tested, |now| - 1, 0))
  {
  }

  lemma PublishedGrows(past: seq<State>, more: seq<State>, final: Path, staged: Path, d: nat, p: Publication)
    requires past <= more && Published(past, final, staged, d, p)
    ensures Published(more, final, staged, d, p)
  {
  }

  method DropTempArchive(fs: FileSystem, original: Path, w: Path, staged: Path, ghost d: nat, ghost iso: nat)
    returns (done: bool)
    requires Staged(fs, original, w, staged, d, iso) && staged != TempArchive(w)
    modifies fs`state, fs`past, fs`own, fs`spent
    ensures Staged(fs, original, w, staged, d, iso) && old(fs.past) <= fs.past
    ensures fs.calm && done ==> fs.state == Removed(old(fs.state), {TempArchive(w)})
    ensures fs.calm && fs.reliable && IsEmpty(old(fs.state), TempArchive(w)) ==> done
  {
    RecordStarts(fs);
    done := fs.Remove(TempArchive(w));
    ghost var mid := fs.past[|old(fs.past)|];
    assert fs.past[0] == old(fs.past)[0] && w <= TempArchive(w);
    AroundSurvives(old(fs.state), mid, fs.sealed, fs.past[0], original, w, staged, d);
    LostNewGrows(old(fs.spent) + old(fs.ruined), fs.spent + fs.ruined,
                 if done then {mid.names[TempArchive(w)]} else {}, fs.past[0], d, false);
  }

  /**
   The source was destroyed only after an archive of it had passed its test and been published, while the source
   was still in the workspace.
   */
  ghost predicate DestroyedSafely(fs: FileSystem, key: Option<Info>, final: Option<Path>, staged: Path,
                                  d: nat, iso: nat, v: nat, p: Publication)
    reads fs
  {
    && key.Some? && Confirmed(fs.past, v, staged, d, key.value)
    && final.Some? && Published(fs.past, final.value, staged, d, p)
    && InWorkspace(fs.past, iso, p.linked + 1, staged, d) && LastSeen(fs.past, staged, d, iso, p)
  }

  /**
   The source was in the workspace from its isolation until `dropped`, the moment before it was removed, and if it
   still had the stamp then that it was packed with, what was removed is what the archive holds.
   */
  ghost predicate LastSeen(past: seq<State>, staged: Path, d: nat, iso: nat, p: Publication) {
    && p.packed < p.linked < p.dropped < |past| - 1 && InWorkspace(past, iso, p.dropped + 1, staged, d)
    && d in past[p.packed].inodes && d in past[p.dropped].inodes
    && p.archive in past[p.linked].inodes && past[p.linked].inodes[p.archive].content.Archive?
    && (past[p.dropped].inodes[d].stamp == past[p.packed].inodes[d].stamp ==>
          past[p.dropped].inodes[d].content == past[p.linked].inodes[p.archive].content.source)
  }

  /** The workspace holds the source, its directory and the archive. */
  ghost predicate Furnished(s: State, w: Path, path: Path)
    requires path != []
  {
    Holds(s, w, {w, Input(w), StagedSource(w, path), TempArchive(w)})
  }

  lemma EmptyingBares(s: State, w: Path, path: Path)
    requires WellFormed(s) && path != [] && Furnished(s, w, path)
    ensures IsEmpty(s, TempArchive(w))
    ensures var t := Removed(s, {TempArchive(w)});
            && NothingBelow(t, StagedSource(w, path))
            && Holds(Removed(t, {StagedSource(w, path)}), w, {w, Input(w)})
            && forall after :: Cleared(Removed(t, {StagedSource(w, path)}), after, w) ==> Cleared(s, after, w)
  {
    assert StagedSource(w, path)[|w|] == "input" && TempArchive(w)[|w|] == "payload.7z";
    assert w <= StagedSource(w, path) && w <= TempArchive(w) && w <= Input(w);
    forall q | q in s.names ensures !(TempArchive(w) < q) {
      assert w <= q ==> q in {w, Input(w), StagedSource(w, path), TempArchive(w)};
    }
    var t := Removed(s, {TempArchive(w)});
    forall after | Cleared(Removed(t, {StagedSource(w, path)}), after, w) ensures Cleared(s, after, w) {
      forall p ensures if w <= p then p !in after.names else SameBinding(s, after, p) {
        assert !(w <= p) ==> SameBinding(Removed(t, {StagedSource(w, path)}), after, p);
      }
    }
  }

  /** At `dropped`, not before `from`, the source was last seen in the workspace, and its stamp tells whether it changed. */
  ghost predicate Dropped(past: seq<State>, from: nat, packed: nat, staged: Path, d: nat, iso: nat, dropped: nat) {
    && packed < |past| && from <= dropped < |past| - 1 && InWorkspace(past, iso, dropped + 1, staged, d)
    && d in past[packed].inodes && d in past[dropped].inodes
    && (past[dropped].inodes[d].stamp == past[packed].inodes[d].stamp ==>
          past[dropped].inodes[d].content == past[packed].inodes[d].content)
  }

  lemma DroppedGrows(past: seq<State>, more: seq<State>, from: nat, packed: nat, staged: Path, d: nat, iso: nat,
                     dropped: nat)
    requires past <= more && Dropped(past, from, packed, staged, d, iso, dropped)
    ensures Dropped(more, from, packed, staged, d, iso, dropped) && dropped + 1 < |past|
  {
  }

  lemma StampStillMeansPacked(packed: State, s: State, t: State, sealed: set<Path>, d: nat)
    requires WellFormed(packed) && packed.clock <= s.clock && d in packed.inodes && d in s.inodes && Ages(packed, s, d)
    requires Interferes(s, t, sealed)
    ensures d in t.inodes
    ensures t.inodes[d].stamp == packed.inodes[d].stamp ==> t.inodes[d].content == packed.inodes[d].content
  {
    assert Ages(s, t, d);
  }

  /** As `DeleteStaged`, remembering what was removed. */
  method DeleteSource(fs: FileSystem, path: Path, w: Path, staged: Path, tree: bool, ghost d: nat, ghost iso: nat,
                      ghost packed: nat)
    returns (done: bool, ghost whole: bool, ghost dropped: nat)
    requires Staged(fs, path, w, staged, d, iso) && packed < |fs.past| && d in fs.past[packed].inodes
    modifies fs`state, fs`past, fs`own, fs`spent, fs`ruined
    ensures old(fs.past) <= fs.past && Tried(fs, path, w, staged, d, done)
    ensures whole ==> Staged(fs, path, w, staged, d, iso)
    ensures !done && !tree ==> whole
    ensures done || whole || d in fs.spent
    ensures done || !whole ==> Dropped(fs.past, |old(fs.past)|, packed, staged, d, iso, dropped) && dropped + 1 < |fs.past|
    ensures done ==> staged !in fs.past[dropped + 1].names
    ensures fs.calm && done && NothingBelow(old(fs.state), staged) ==> fs.state == Removed(old(fs.state), {staged})
    ensures fs.calm && fs.reliable && NothingBelow(old(fs.state), staged) ==> done
  {
    hide Chain, Interferes, Tried, Evolves, OnlyNewAround, LostNew;
    ghost var was, s := fs.past, fs.state;
    dropped := |was|;
    NotLost(fs.spent, fs.ruined, fs.past[0], d);
    StampMeansPacked(fs.past, fs.own, fs.ruined, fs.calm, packed, |fs.past| - 1, d);
    done, whole := DeleteStaged(fs, path, w, staged, tree, d, iso);
    StampStillMeansPacked(was[packed], s, fs.past[dropped], fs.sealed, d);
    if done || !whole {
      StillThere(was, fs.past, iso, staged, d);
    }
  }

  /** The archive's temporary link goes first, then the source. */
  method RemoveSource(fs: FileSystem, path: Path, w: Path, staged: Path, tree: bool, ghost d: nat, ghost iso: nat,
                      ghost packed: nat)
    returns (done: bool, ghost whole: bool, ghost dropped: nat)
    requires Staged(fs, path, w, staged, d, iso) && packed < |fs.past| && d in fs.past[packed].inodes
    requires staged != TempArchive(w)
    modifies fs`state, fs`past, fs`own, fs`spent, fs`ruined
    ensures old(fs.past) <= fs.past && Tried(fs, path, w, staged, d, done)
    ensures whole ==> Staged(fs, path, w, staged, d, iso)
    ensures !done && !tree ==> whole
    ensures done || whole || d in fs.spent
    ensures done || !whole ==> Dropped(fs.past, |old(fs.past)|, packed, staged, d, iso, dropped) && dropped + 1 < |fs.past|
    ensures done ==> staged !in fs.past[dropped + 1].names
    ensures (&& fs.calm && fs.reliable && path != [] && staged == StagedSource(w, path)
             && Furnished(old(fs.state), w, path)) ==>
              && done && Holds(fs.state, w, {w, Input(w)})
              && forall after :: Cleared(fs.state, after, w) ==> Cleared(old(fs.state), after, w)
  {
    hide Chain, Holds, Cleared, Furnished, IsEmpty, OnlyNewAround, InWorkspace, LostNew;
    RecordStarts(fs);
    if fs.calm && path != [] && Furnished(fs.state, w, path) && staged == StagedSource(w, path) {
      EmptyingBares(fs.state, w, path);
    }
    done := DropTempArchive(fs, path, w, staged, d, iso);
    whole, dropped := true, 0;
    if done {
      assert fs.past[packed] == old(fs.past)[packed];
      done, whole, dropped := DeleteSource(fs, path, w, staged, tree, d, iso, packed);
    } else {
      MayBeLost(fs.spent + fs.ruined, fs.past[0], d);
    }
  }

  lemma MayBeLost(lost: set<nat>, first: State, d: nat)
    requires LostNew(lost, first, d, false)
    ensures LostNew(lost, first, d, true)
  {
  }

  lemma NotLost(spent: set<nat>, ruined: set<nat>, first: State, d: nat)
    requires LostNew(spent + ruined, first, d, false)
    ensures d !in spent + ruined
  {
  }

  lemma StillThere(was: seq<State>, now: seq<State>, iso: nat, staged: Path, d: nat)
    requires was <= now && |was| < |now| && InWorkspace(was, iso, |was|, staged, d) && Names(now[|was|], staged, d)
    ensures InWorkspace(now, iso, |was| + 1, staged, d)
  {
  }

  /** From the published archive to the end: the temporary link goes first, then the source. */
  method FinishArchive(fs: FileSystem, path: Path, w: Path, staged: Path, final: Path, tree: bool,
                       ghost d: nat, ghost iso: nat, ghost packed: nat)
    returns (r: Archival, ghost at: nat, ghost dropped: nat)
    requires Staged(fs, path, w, staged, d, iso) && staged != TempArchive(w)
    requires packed < |fs.past| && d in fs.past[packed].inodes
    modifies fs`state, fs`past, fs`own, fs`spent, fs`ruined
    ensures fs.Valid() && old(fs.past) <= fs.past && OnlyNewLost(fs, d, true)
    ensures r == Archived(w, final) || r == SourceReturned(w, Some(final)) || r == SourceKept(w, Some(final))
    ensures r.Archived? ==> d in fs.spent
    ensures !r.Archived? ==> d in fs.spent + fs.ruined || Accounted(fs, r.SourceReturned?, path, staged, d, iso, at)
    ensures !r.Archived? && !tree ==> d !in fs.spent + fs.ruined
    ensures d in fs.spent + fs.ruined ==> Dropped(fs.past, |old(fs.past)|, packed, staged, d, iso, dropped)
    ensures r.Archived? ==> staged !in fs.past[dropped + 1].names
    ensures (&& fs.calm && fs.reliable && path != [] && staged == StagedSource(w, path)
             && Furnished(old(fs.state), w, path)) ==>
              r.Archived? && Cleared(old(fs.state), fs.state, w)
  {
    hide Chain, Holds, Cleared, Furnished, Dropped, OnlyNewAround, InWorkspace;
    at := 0;
    var done: bool;
    ghost var whole;
    done, whole, dropped := RemoveSource(fs, path, w, staged, tree, d, iso, packed);
    ghost var tried := fs.past;
    if done {
      ClearDirectories(fs, w, d);
      DroppedGrows(tried, fs.past, |old(fs.past)|, packed, staged, d, iso, dropped);
      return Archived(w, final), at, dropped;
    }
    var back: Return;
    back, at := RestoreStaged(fs, path, w, staged, true, d, iso, whole);
    if !whole {
      DroppedGrows(tried, fs.past, |old(fs.past)|, packed, staged, d, iso, dropped);
    }
    r := if back.PutBack? then SourceReturned(w, Some(final)) else SourceKept(w, Some(final));
  }

  /** Below the workspace, these names are in use and no others. */
  ghost predicate Holds(s: State, w: Path, all: set<Path>) {
    forall p :: w <= p ==> (p in s.names <==> p in all)
  }

  /** The workspace is gone, and nothing else is different. */
  ghost predicate Cleared(before: State, after: State, w: Path) {
    && InodesKept(before, after)
    && forall p :: if w <= p then p !in after.names else SameBinding(before, after, p)
  }

  lemma ClearingClears(s: State, w: Path)
    requires WellFormed(s) && Holds(s, w, {w, Input(w)})
    ensures IsEmpty(s, Input(w)) && IsEmpty(Removed(s, {Input(w)}), w)
    ensures var t := Removed(s, {Input(w)}); Cleared(s, Removed(t, Below(t, w)), w)
  {
    assert w <= Input(w) && w <= w && Input(w)[..|w|] == w;
    var t := Removed(s, {Input(w)});
    var after := Removed(t, Below(t, w));
    forall p ensures if w <= p then p !in after.names else SameBinding(s, after, p) {
      assert p in Below(t, w) <==> p in t.names && w <= p;
    }
  }

  method ClearDirectories(fs: FileSystem, w: Path, ghost d: nat)
    requires fs.Valid() && w in fs.sealed && OnlyNewIn(fs.state, fs.past[0], w, d) && OnlyNewLost(fs, d, true)
    modifies fs`state, fs`past, fs`own, fs`spent, fs`ruined
    ensures fs.Valid() && old(fs.past) <= fs.past && OnlyNewLost(fs, d, true) && old(fs.spent) <= fs.spent
    ensures (&& fs.calm && fs.reliable && Holds(old(fs.state), w, {w, Input(w)})) ==> Cleared(old(fs.state), fs.state, w)
  {
    if fs.calm && Holds(fs.state, w, {w, Input(w)}) {
      ClearingClears(fs.state, w);
    }
    var _ := fs.Remove(Input(w));
    assert fs.past[0] == old(fs.past)[0] && w <= Input(w);
    ghost var mid := fs.past[|old(fs.past)|];
    OnlyNewSurvives(old(fs.state), mid, fs.sealed, fs.past[0], w, d);
    LostNewGrows(old(fs.spent) + old(fs.ruined), fs.spent + fs.ruined, NamedBelow(mid, w), fs.past[0], d, true);
    ClearWorkspace(fs, w, false, d, true);
  }

  /** As `FinishArchive`, remembering why the source may be destroyed. */
  method CompleteArchive(fs: FileSystem, path: Path, key: Option<Info>, w: Path, staged: Path, final: Path, tree: bool,
                         ghost d: nat, ghost iso: nat, ghost v: nat, ghost p: Publication)
    returns (r: Archival, ghost at: nat, ghost dropped: nat)
    requires Staged(fs, path, w, staged, d, iso) && staged != TempArchive(w)
    requires key.Some? && Confirmed(fs.past, v, staged, d, key.value) && Published(fs.past, final, staged, d, p)
    modifies fs`state, fs`past, fs`own, fs`spent, fs`ruined
    ensures fs.Valid() && old(fs.past) <= fs.past && OnlyNewLost(fs, d, true)
    ensures !r.NotArchived? && r.workspace == w && FinalName(r) == Some(final)
    ensures d in fs.spent + fs.ruined ==>
              DestroyedSafely(fs, key, Some(final), staged, d, iso, v, p.(dropped := dropped))
    ensures r.Archived? ==> d in fs.spent && staged !in fs.past[dropped + 1].names
    ensures !r.Archived? ==> d in fs.spent + fs.ruined || Accounted(fs, r.SourceReturned?, path, staged, d, iso, at)
    ensures (&& fs.calm && fs.reliable && path != [] && staged == StagedSource(w, path)
             && Furnished(old(fs.state), w, path)) ==>
              r.Archived? && Cleared(old(fs.state), fs.state, w)
  {
    assert InWorkspace(fs.past, iso, p.linked + 1, staged, d);
    r, at, dropped := FinishArchive(fs, path, w, staged, final, tree, d, iso, p.packed);
    PublishedGrows(old(fs.past), fs.past, final, staged, d, p);
  }

  method GiveBack(fs: FileSystem, path: Path, w: Path, staged: Path, ghost d: nat, ghost iso: nat)
    returns (r: Archival, ghost at: nat)
    requires Staged(fs, path, w, staged, d, iso)
    modifies fs`state, fs`past, fs`own, fs`spent, fs`ruined
    ensures fs.Valid() && old(fs.past) <= fs.past && OnlyNewLost(fs, d, false)
    ensures r == SourceReturned(w, None) || r == SourceKept(w, None)
    ensures Accounted(fs, r.SourceReturned?, path, staged, d, iso, at)
    ensures (&& fs.calm && fs.reliable && path !in old(fs.state.names) && !(staged <= path)) ==>
              r.SourceReturned? && PutBackWhole(old(fs.state), fs.state, path, w, staged)
  {
    var back: Return;
    back, at := RestoreStaged(fs, path, w, staged, true, d, iso, true);
    r := if back.PutBack? then SourceReturned(w, None) else SourceKept(w, None);
  }

  /** From the isolated source to the archive and the deletion, or back. */
  method ArchiveStaged(fs: FileSystem, path: Path, key: Option<Info>, w: Path, ghost d: nat, ghost iso: nat)
    returns (r: Archival, ghost v: nat, ghost at: nat, ghost p: Publication)
    requires path != [] && |w| == |path| && Staged(fs, path, w, StagedSource(w, path), d, iso)
    modifies fs`state, fs`past, fs`own, fs`spent, fs`ruined
    ensures fs.Valid() && old(fs.past) <= fs.past && OnlyNewLost(fs, d, true)
    ensures !r.NotArchived? && r.workspace == w
    ensures d in fs.spent + fs.ruined ==>
              DestroyedSafely(fs, key, FinalName(r), StagedSource(w, path), d, iso, v, p)
    ensures r.Archived? ==> d in fs.spent && p.dropped + 1 < |fs.past|
                            && StagedSource(w, path) !in fs.past[p.dropped + 1].names
    ensures !r.Archived? ==> d in fs.spent + fs.ruined
                             || Accounted(fs, r.SourceReturned?, path, StagedSource(w, path), d, iso, at)
    ensures (&& fs.calm && fs.reliable && Holds(old(fs.state), w, {w, Input(w), StagedSource(w, path)})
             && path !in old(fs.state.names)) ==>
              if Accepted(old(fs.state), path, key, d)
              then
                && r.Archived? && FirstFree(old(fs.state), path, r.archive)
                && Stored(old(fs.state), fs.state, w, r.archive, d)
              else r.SourceReturned? && PutBackWhole(old(fs.state), fs.state, path, w, StagedSource(w, path))
  {
    hide Chain, PutBackWhole, Linked, FirstFree, Stored, NoneFree, OnlyChanged, Furnished, Cleared, Holds, Accepted;
    var staged := StagedSource(w, path);
    var final: Option<Path>;
    var tree: bool;
    TempIsNew(fs.state, path, w);
    at := 0;
    final, tree, v, p := ConfirmAndArchive(fs, path, key, w, d, iso);
    ghost var tried := fs.state;
    ghost var quiet := fs.calm && Holds(old(fs.state), w, {w, Input(w), staged}) && path !in old(fs.state.names);
    if quiet {
      TriedIsReady(old(fs.state), tried, path, w, final, d);
    }
    if final.None? {
      r, at := GiveBack(fs, path, w, staged, d, iso);
      if quiet && PutBackWhole(tried, fs.state, path, w, staged) {
        ReturnAfterPacking(old(fs.state), tried, fs.state, path, w);
      }
    } else {
      ghost var dropped;
      r, at, dropped := CompleteArchive(fs, path, key, w, staged, final.value, tree, d, iso, v, p);
      p := p.(dropped := dropped);
      if quiet && Cleared(tried, fs.state, w) {
        StoredWhenCleared(old(fs.state), tried, fs.state, path, w, final.value, d);
      }
    }
  }

  /** An archive of the isolated source, if it is the confirmed one. */
  method ConfirmAndArchive(fs: FileSystem, path: Path, key: Option<Info>, w: Path, ghost d: nat, ghost iso: nat)
    returns (final: Option<Path>, tree: bool, ghost v: nat, ghost p: Publication)
    requires path != [] && |w| == |path| && Staged(fs, path, w, StagedSource(w, path), d, iso)
    modifies fs`state, fs`past, fs`own, fs`spent
    ensures Staged(fs, path, w, StagedSource(w, path), d, iso) && old(fs.past) <= fs.past
    ensures final.Some? ==>
              && key.Some? && Confirmed(fs.past, v, StagedSource(w, path), d, key.value)
              && Published(fs.past, final.value, StagedSource(w, path), d, p)
    ensures fs.calm ==> Tries(old(fs.state), fs.state, path, w, final, d)
    ensures fs.calm && fs.reliable && TempArchive(w) !in old(fs.state.names) ==>
              (final.Some? <==> Accepted(old(fs.state), path, key, d))
  {
    hide Chain, Linked, FreeAfter, OnlyChanged;
    p, final := Publication(0, 0, 0, 0, 0), None;
    var staged := StagedSource(w, path);
    var ok: bool;
    ok, tree, v := ConfirmStaged(fs, path, key, w, staged, d, iso);
    if !ok { return; }
    ghost var seen, s := fs.past, fs.state;
    final, p := TryArchive(fs, path, w, d, iso);
    ConfirmedGrows(seen, fs.past, v, staged, d, key.value);
    if fs.calm && final.Some? {
      FreeIsNotTaken(s, path, final.value);
    }
  }

  lemma FreeIsNotTaken(s: State, path: Path, name: Path)
    requires path != [] && FirstFree(s, path, name)
    ensures !NoneFree(s, path)
  {
    var n: nat :| n <= MAX_SUFFIX && FreeAfter(s, path, n) && name == ArchiveName(path, n);
  }

  /** What trying to archive does on a quiet disk. */
  ghost predicate Tries(s: State, t: State, path: Path, w: Path, final: Option<Path>, d: nat)
    requires path != []
  {
    if final.Some? then FirstFree(s, path, final.value) && Linked(s, t, w, final.value, d)
    else t == s || OnlyChanged(s, t, TempArchive(w))
  }

  /** The isolated object is the confirmed one and one of the names for its archive is free. */
  ghost predicate Accepted(s: State, path: Path, key: Option<Info>, d: nat)
    requires path != [] && d in s.inodes
  {
    key.Some? && SameIdentity(key.value, InfoOf(s, d)) && !NoneFree(s, path)
  }

  /** The archive stands under its name, and nothing else is different outside the workspace, which is gone. */
  ghost predicate Stored(before: State, after: State, w: Path, name: Path, d: nat) {
    && InodesKept(before, after) && name !in before.names && HoldsArchive(before, after, name, d) && !(w <= name)
    && forall p :: p != name ==> if w <= p then p !in after.names else SameBinding(before, after, p)
  }

  lemma TempIsNew(s: State, path: Path, w: Path)
    requires path != []
    ensures Holds(s, w, {w, Input(w), StagedSource(w, path)}) ==> TempArchive(w) !in s.names
  {
    assert StagedSource(w, path)[|w|] == "input" && TempArchive(w)[|w|] == "payload.7z" && Input(w)[|w|] == "input";
  }

  /** The workspace after the archiver's run, whether or not an archive was published. */
  lemma TriedIsReady(s: State, t: State, path: Path, w: Path, final: Option<Path>, d: nat)
    requires path != [] && |w| == |path| && path !in s.names && Holds(s, w, {w, Input(w), StagedSource(w, path)})
    requires Tries(s, t, path, w, final, d)
    ensures if final.Some? then Furnished(t, w, path) && !(w <= final.value) else path !in t.names
    ensures !(StagedSource(w, path) <= path)
  {
    assert |StagedSource(w, path)| > |path|;
    if final.Some? {
      var n: nat :| n <= MAX_SUFFIX && FreeAfter(s, path, n) && final.value == ArchiveName(path, n);
      NamesAreBeside(path, w, n);
      forall p | w <= p ensures p in t.names <==> p in {w, Input(w), StagedSource(w, path), TempArchive(w)} {
        assert p != TempArchive(w) ==> SameBinding(s, t, p);
      }
    } else if t != s {
      assert SameBinding(s, t, path);
    }
  }

  lemma ReturnAfterPacking(s: State, t: State, after: State, path: Path, w: Path)
    requires path != [] && (t == s || OnlyChanged(s, t, TempArchive(w)))
    requires PutBackWhole(t, after, path, w, StagedSource(w, path))
    ensures PutBackWhole(s, after, path, w, StagedSource(w, path))
  {
    if t != s {
      assert SameBinding(s, t, StagedSource(w, path)) by {
        assert |StagedSource(w, path)| > |TempArchive(w)|;
      }
      forall p | p != path ensures if w <= p then p !in after.names else SameBinding(s, after, p) {
        assert p != TempArchive(w) ==> SameBinding(s, t, p);
      }
    }
  }

  lemma StoredWhenCleared(s: State, t: State, after: State, path: Path, w: Path, name: Path, d: nat)
    requires Linked(s, t, w, name, d) && !(w <= name) && Cleared(t, after, w)
    ensures Stored(s, after, w, name, d)
  {
    assert SameBinding(t, after, name);
    forall p | p != name ensures if w <= p then p !in after.names else SameBinding(s, after, p) {
      assert p != TempArchive(w) ==> SameBinding(s, t, p);
    }
  }

  /** A source that still has the stamp it was packed with has the contents that were packed. */
  lemma StampMeansPacked(past: seq<State>, own: set<Path>, ruined: set<nat>, calm: bool, packed: nat, t: nat, d: nat)
    requires Chain(past, own, ruined, calm) && packed <= t < |past| && d in past[packed].inodes && d !in ruined
    ensures WellFormed(past[packed]) && past[packed].clock <= past[t].clock
    ensures d in past[t].inodes && Ages(past[packed], past[t], d)
    ensures past[t].inodes[d].stamp == past[packed].inodes[d].stamp ==>
              past[t].inodes[d].content == past[packed].inodes[d].content
  {
    assert Evolves(past[packed], past[t], own, ruined, calm) && Ages(past[packed], past[t], d);
  }

  lemma ConfirmedGrows(past: seq<State>, more: seq<State>, v: nat, p: Path, d: nat, info: Info)
    requires past <= more && Confirmed(past, v, p, d, info)
    ensures Confirmed(more, v, p, d, info)
  {
  }

  method ConfirmStaged(fs: FileSystem, path: Path, key: Option<Info>, w: Path, staged: Path, ghost d: nat, ghost iso: nat)
    returns (ok: bool, tree: bool, ghost v: nat)
    requires Staged(fs, path, w, staged, d, iso)
    modifies fs`state, fs`past
    ensures Staged(fs, path, w, staged, d, iso) && old(fs.past) <= fs.past
    ensures ok ==> key.Some? && Confirmed(fs.past, v, staged, d, key.value)
    ensures fs.calm ==> fs.state == old(fs.state)
    ensures fs.calm && fs.reliable ==> (ok <==> key.Some? && SameIdentity(key.value, InfoOf(fs.state, d)))
  {
    var info := InspectStaged(fs, path, w, staged, d, iso);
    v := |fs.past| - 1;
    ok := info.Some? && key.Some? && SameIdentity(key.value, info.value);
    tree := info.Some? && info.value.kind.Directory?;
  }

  function FinalName(r: Archival): Option<Path> {
    match r
    case NotArchived => None
    case Archived(_, archive) => Some(archive)
    case SourceReturned(_, published) => published
    case SourceKept(_, published) => published
  }

  /** The first of the names tried for the archive that is free. */
  ghost predicate FirstFree(s: State, path: Path, name: Path)
    requires path != []
  {
    exists n: nat :: n <= MAX_SUFFIX && FreeAfter(s, path, n) && name == ArchiveName(path, n)
  }

  ghost predicate FreeAfter(s: State, path: Path, n: nat)
    requires path != []
  {
    ArchiveName(path, n) !in s.names && forall m :: 0 <= m < n ==> ArchiveName(path, m) in s.names
  }

  ghost predicate NoneFree(s: State, path: Path)
    requires path != []
  {
    forall m :: 0 <= m <= MAX_SUFFIX ==> ArchiveName(path, m) in s.names
  }

  /** The name leads to an intact archive of what object `d` held. */
  ghost predicate HoldsArchive(before: State, after: State, name: Path, d: nat) {
    && d in before.inodes && name in after.names && after.names[name] in after.inodes
    && var c := after.inodes[after.names[name]].content; c.Archive? && c.intact && c.source == before.inodes[d].content
  }

  /** A free name now leads to the archive; nothing is different outside the workspace. */
  ghost predicate Linked(before: State, after: State, w: Path, name: Path, d: nat) {
    && InodesKept(before, after) && name !in before.names && HoldsArchive(before, after, name, d)
    && TempArchive(w) in after.names
    && forall p :: p != name && p != TempArchive(w) ==> SameBinding(before, after, p)
  }

  lemma NamesAreBeside(path: Path, w: Path, n: nat)
    requires path != [] && |w| == |path|
    ensures ArchiveName(path, n) != TempArchive(w) && ArchiveName(path, n) != path
    ensures w <= ArchiveName(path, n) ==> w == ArchiveName(path, n)
  {
    assert |ArchiveName(path, n)[|path| - 1]| > |path[|path| - 1]|;
  }

  /** Whether candidate names are free does not depend on what is in the workspace. */
  lemma FreeNamesAgree(s: State, t: State, path: Path, w: Path)
    requires path != [] && |w| == |path| && forall n: nat :: SameBinding(s, t, ArchiveName(path, n))
    ensures NoneFree(s, path) <==> NoneFree(t, path)
    ensures forall n: nat :: FreeAfter(s, path, n) <==> FreeAfter(t, path, n)
    ensures forall name :: FirstFree(s, path, name) <==> FirstFree(t, path, name)
  {
  }

  /** On a quiet disk, the name that was found free and linked was the first one free before. */
  lemma LinkingArchives(s: State, packed: State, path: Path, w: Path, n: nat, a: nat, d: nat)
    requires path != [] && |w| == |path| && OnlyChanged(s, packed, TempArchive(w)) && n <= MAX_SUFFIX
    requires FreeAfter(packed, path, n) && d in s.inodes && a in packed.inodes && TempArchive(w) in packed.names
    requires var c := packed.inodes[a].content; c.Archive? && c.intact && c.source == s.inodes[d].content
    ensures FirstFree(s, path, ArchiveName(path, n))
    ensures Linked(s, packed.(names := packed.names[ArchiveName(path, n) := a]), w, ArchiveName(path, n), d)
  {
    NamesStayFree(s, packed, path, w);
    NamesAreBeside(path, w, n);
    assert FreeAfter(s, path, n);
    var name := ArchiveName(path, n);
    var t := packed.(names := packed.names[name := a]);
    forall p | p != name && p != TempArchive(w) ensures SameBinding(s, t, p) {
      assert SameBinding(s, packed, p);
    }
    assert HoldsArchive(s, t, name, d);
  }

  lemma NamesStayFree(s: State, packed: State, path: Path, w: Path)
    requires path != [] && |w| == |path| && OnlyChanged(s, packed, TempArchive(w))
    ensures NoneFree(s, path) <==> NoneFree(packed, path)
    ensures forall n: nat :: FreeAfter(s, path, n) <==> FreeAfter(packed, path, n)
  {
    forall n: nat ensures SameBinding(s, packed, ArchiveName(path, n)) {
      NamesAreBeside(path, w, n);
    }
    FreeNamesAgree(s, packed, path, w);
  }

  /** Packs, tests and publishes under the first free name. */
  method TryArchive(fs: FileSystem, path: Path, w: Path, ghost d: nat, ghost iso: nat)
    returns (final: Option<Path>, ghost p: Publication)
    requires path != [] && |w| == |path| && Staged(fs, path, w, StagedSource(w, path), d, iso)
    modifies fs`state, fs`past, fs`own, fs`spent
    ensures Staged(fs, path, w, StagedSource(w, path), d, iso) && old(fs.past) <= fs.past
    ensures final.Some? ==> Published(fs.past, final.value, StagedSource(w, path), d, p)
    ensures fs.calm && final.None? ==> OnlyChanged(old(fs.state), fs.state, TempArchive(w))
    ensures fs.calm && final.Some? ==>
              FirstFree(old(fs.state), path, final.value) && Linked(old(fs.state), fs.state, w, final.value, d)
    ensures (&& fs.calm && fs.reliable && TempArchive(w) !in old(fs.state.names) && final.None?) ==>
              NoneFree(old(fs.state), path)
  {
    hide Chain, OnlyChanged, Linked, FirstFree, InodesKept, HoldsArchive;
    p := Publication(0, 0, 0, 0, 0);
    final := None;
    var staged := StagedSource(w, path);
    ghost var a, packed, tested, n;
    var ok: bool;
    ok, a, packed, tested := PackAndTest(fs, path, w, staged, d, iso);
    if !ok { return; }
    ghost var ready, packedState := fs.past, fs.state;
    final, n := NextArchivePath(fs, path, w, staged, d, iso, a, packed);
    if fs.calm {
      NamesStayFree(old(fs.state), packedState, path, w);
    }
    if final.None? { return; }
    if fs.calm {
      LinkingArchives(old(fs.state), packedState, path, w, n, a, d);
    }
    assert fs.past[tested] == ready[tested];
    ok := PublishArchive(fs, final.value, path, w, staged, d, iso, a, packed, tested);
    p := Publication(a, packed, tested, |fs.past| - 1, 0);
    if !ok { final := None; }
  }

  /** The path leads to the confirmed object and one of the names for its archive is free. */
  ghost predicate Archivable(s: State, path: Path, key: Option<Info>)
    requires path != []
  {
    path in s.names && s.names[path] in s.inodes && Accepted(s, path, key, s.names[path])
  }

  /** An archive of what was at the path stands under a name that was free, and nothing else is different. */
  ghost predicate ReplacedBy(before: State, after: State, path: Path, name: Path) {
    && InodesKept(before, after) && path in before.names && path !in after.names && name !in before.names
    && HoldsArchive(before, after, name, before.names[path])
    && forall p :: p != path && p != name ==> SameBinding(before, after, p)
  }

  /** The workspace's name is none of those tried for the archive. */
  ghost predicate Apart(w: Path, path: Path)
    requires path != []
  {
    forall n: nat :: ArchiveName(path, n) != w
  }

  lemma WorkspaceIsNoArchive(path: Path, w: Path, suffix: string)
    requires path != [] && Numeral(suffix) && w == Parent(path) + [".fleetty-archive-" + suffix]
    ensures Apart(w, path)
  {
    forall n: nat ensures ArchiveName(path, n) != w {
      var a, b := ArchiveName(path, n)[|path| - 1], w[|path| - 1];
      assert a[|a| - 1] == 'z' && b[|b| - 1] == suffix[|suffix| - 1];
    }
  }

  /** Moves the source into a new workspace. */
  method IsolateSource(fs: FileSystem, path: Path) returns (r: Option<Path>, ghost d: nat, ghost iso: nat)
    requires fs.Valid() && fs.past == [fs.state] && fs.own == {} && fs.spent == {} && fs.ruined == {} && path != []
    modifies fs`state, fs`past, fs`own, fs`spent, fs`ruined, fs`sealed
    ensures fs.Valid() && old(fs.past) <= fs.past
    ensures r.None? ==> SourceUntouched(fs)
    ensures r.Some? ==>
              && |r.value| == |path| && Staged(fs, path, r.value, StagedSource(r.value, path), d, iso)
              && iso > 0 && Names(fs.past[iso - 1], path, d)
    ensures r.Some? ==> Apart(r.value, path)
    ensures fs.calm && fs.reliable ==> (r.Some? <==> path in old(fs.state.names))
    ensures fs.calm && fs.reliable && r.None? ==> Unchanged(old(fs.state), fs.state)
    ensures fs.calm && r.Some? ==>
              && SetAside(old(fs.state), fs.state, path, r.value, StagedSource(r.value, path))
              && Holds(fs.state, r.value, {r.value, Input(r.value), StagedSource(r.value, path)})
  {
    hide Chain, SetAside, Holds, Apart, OnlyAdded, Unchanged, OnlyOurs, OnlyNewAround, InWorkspace, LostNew;
    d, iso, r := 0, 0, None;
    var made := MakeWorkspace(fs, path, Parent(path), ".fleetty-archive-");
    if made.None? { return; }
    var w := made.value;
    ghost var suffix :| Numeral(suffix) && w == Parent(path) + [".fleetty-archive-" + suffix];
    WorkspaceIsNoArchive(path, w, suffix);
    RecordStarts(fs);
    ghost var empty := fs.state;
    var input := MakeInput(fs, path, w);
    if !input {
      DropWorkspace(fs, path, w, false);
      return;
    }
    ghost var prepared := fs.state;
    RecordStarts(fs);
    if fs.calm {
      InputIsInside(old(fs.state), empty, path, w);
    }
    var moved: bool;
    moved, d, iso := MoveIn(fs, path, w, StagedSource(w, path));
    if moved {
      r := made;
      if fs.calm {
        SourceMovesIn(old(fs.state), prepared, path, w);
      }
    } else {
      DropWorkspace(fs, path, w, true);
      if fs.calm {
        AddedIsRemoved(old(fs.state), prepared, w);
      }
    }
  }

  lemma InputIsInside(before: State, s: State, path: Path, w: Path)
    requires WellFormed(s) && OnlyAdded(before, s, w) && path != [] && |w| == |path| && w in s.names
    requires forall p :: p in s.names && w <= p ==> p == w
    ensures var t := WithObject(s, Input(w), Directory, []);
            && OnlyAdded(before, t, w) && Holds(t, w, {w, Input(w)})
            && (path in before.names ==> path in t.names && !(path <= StagedSource(w, path)) && !(w <= path))
            && (path in t.names && path != w ==> path in before.names)
  {
    var t := WithObject(s, Input(w), Directory, []);
    assert w <= Input(w) && w <= w && w < StagedSource(w, path) && |Input(w)| > |path|;
    forall p | !(w <= p) ensures SameBinding(before, t, p) {
      assert SameBinding(before, s, p);
    }
    if path in before.names {
      WorkspaceIsBeside(before, path, w, StagedSource(w, path));
    }
    assert w <= path ==> w == path;
    assert !(w <= path) ==> SameBinding(before, t, path);
  }

  lemma SourceMovesIn(before: State, s: State, path: Path, w: Path)
    requires WellFormed(s) && OnlyAdded(before, s, w) && path != [] && |w| == |path| && path in s.names && !(w <= path)
    requires Holds(s, w, {w, Input(w)})
    ensures SetAside(before, Renamed(s, path, StagedSource(w, path)), path, w, StagedSource(w, path))
    ensures Holds(Renamed(s, path, StagedSource(w, path)), w, {w, Input(w), StagedSource(w, path)})
  {
    assert w < StagedSource(w, path);
    MovingSetsAside(before, s, path, w, StagedSource(w, path));
  }

  /** Whether the source may be archived can be told before it is isolated. */
  lemma IsolatedAsBefore(before: State, s: State, path: Path, key: Option<Info>, w: Path, d: nat)
    requires WellFormed(before) && path != [] && |w| == |path| && SetAside(before, s, path, w, StagedSource(w, path))
    requires Apart(w, path) && Names(s, StagedSource(w, path), d)
    ensures d in s.inodes && d == before.names[path] && path !in s.names
    ensures Archivable(before, path, key) <==> Accepted(s, path, key, d)
    ensures forall name :: FirstFree(before, path, name) <==> FirstFree(s, path, name)
  {
    forall n: nat ensures SameBinding(before, s, ArchiveName(path, n)) {
      NamesAreBeside(path, w, n);
    }
    FreeNamesAgree(before, s, path, w);
  }

  lemma StoredInstead(before: State, s: State, after: State, path: Path, w: Path, name: Path)
    requires path != [] && SetAside(before, s, path, w, StagedSource(w, path)) && path in before.names
    requires |w| == |path| && FirstFree(s, path, name) && before.names[path] in before.inodes
    requires Stored(s, after, w, name, before.names[path])
    ensures ReplacedBy(before, after, path, name)
  {
    var n: nat :| n <= MAX_SUFFIX && FreeAfter(s, path, n) && name == ArchiveName(path, n);
    NamesAreBeside(path, w, n);
    forall p | p != path && p != name ensures SameBinding(before, after, p) {
      assert if w <= p then p !in before.names else SameBinding(before, s, p);
    }
    assert SameBinding(before, s, name);
    assert SameBinding(s, after, path);
  }

  /**
   Archives the source at a path and deletes it. `d` is the object that was isolated. It is destroyed only if it had
   the confirmed identity and an archive of it, tested intact, was published under a free name while it was still
   in the workspace; otherwise it stays in the workspace until it is back at its path. When nothing interferes and no
   call fails for a reason of its own, the archive has exactly taken the source's place, or nothing is different.
   */
  method ArchiveAndDelete(fs: FileSystem, path: Path, key: Option<Info>)
    returns (r: Archival, ghost d: nat, ghost iso: nat, ghost v: nat, ghost at: nat, ghost p: Publication)
    requires fs.Valid() && path != []
    modifies fs
    ensures fs.Valid() && |fs.past| > 0 && fs.past[0] == old(fs.state)
    ensures r.NotArchived? ==> SourceUntouched(fs)
    ensures !r.NotArchived? ==> 0 < iso < |fs.past| && Names(fs.past[iso - 1], path, d) && OnlyNewLost(fs, d, true)
    ensures !r.NotArchived? && d in fs.spent + fs.ruined ==>
              DestroyedSafely(fs, key, FinalName(r), StagedSource(r.workspace, path), d, iso, v, p)
    ensures r.Archived? ==> d in fs.spent && p.dropped + 1 < |fs.past|
                            && StagedSource(r.workspace, path) !in fs.past[p.dropped + 1].names
    ensures r.SourceReturned? || r.SourceKept? ==>
              d in fs.spent + fs.ruined
              || Accounted(fs, r.SourceReturned?, path, StagedSource(r.workspace, path), d, iso, at)
    ensures fs.calm && fs.reliable ==>
              if Archivable(old(fs.state), path, key)
              then
                && r.Archived? && FirstFree(old(fs.state), path, r.archive)
                && ReplacedBy(old(fs.state), fs.state, path, r.archive)
              else !r.Archived? && Unchanged(old(fs.state), fs.state)
  {
    hide Chain, FirstFree, ReplacedBy, Unchanged, SetAside, Holds, Stored, PutBackWhole, Accepted;
    fs.Observe();
    RecordStarts(fs);
    d, iso, v, at, p := 0, 0, 0, 0, Publication(0, 0, 0, 0, 0);
    var w: Option<Path>;
    w, d, iso := IsolateSource(fs, path);
    if w.None? {
      return NotArchived, d, iso, v, at, p;
    }
    ghost var isolated := fs.state;
    ghost var was := fs.past;
    r, v, at, p := ArchiveStaged(fs, path, key, w.value, d, iso);
    assert fs.past[iso - 1] == was[iso - 1];
    if fs.calm && fs.reliable {
      IsolatedAsBefore(old(fs.state), isolated, path, key, w.value, d);
      if r.Archived? {
        StoredInstead(old(fs.state), isolated, fs.state, path, w.value, r.archive);
      } else {
        ReturnUndoes(old(fs.state), isolated, fs.state, path, w.value, StagedSource(w.value, path));
      }
    }
  }

  method MakeInput(fs: FileSystem, original: Path, w: Path) returns (done: bool)
    requires Prepared(fs, original, w)
    requires original != [] && forall p :: p in fs.state.names && w <= p ==> p == w
    modifies fs`state, fs`past, fs`own, fs`spent
    ensures Prepared(fs, original, w) && old(fs.past) <= fs.past
    ensures StagedSource(w, original) !in fs.state.names
    ensures fs.calm && done ==> fs.state == WithObject(old(fs.state), Input(w), Directory, [])
    ensures fs.reliable ==> done
  {
    RecordStarts(fs);
    done := fs.MakeDirectory(Input(w));
    ghost var mid := fs.past[|old(fs.past)|];
    assert fs.past[0] == old(fs.past)[0] && w <= Input(w) && w <= StagedSource(w, original);
    PreparedSurvives(old(fs.state), mid, fs.sealed, fs.past[0], original, w);
    assert Evolves(fs.past[0], mid, fs.own, fs.ruined, fs.calm);
  }
}
