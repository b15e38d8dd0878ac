/** The system calls the storage operations make, on a disk shared with other processes. */
module FileCalls {
  import opened Base
  import opened SharedDisk

  /** `own` are the names the program itself has changed since `s`, `ruined` the objects whose contents it has. */
  ghost predicate Evolves(s: State, t: State, own: set<Path>, ruined: set<nat>, calm: bool) {
    && s.clock <= t.clock
    && (forall i :: i in s.inodes ==> i in t.inodes && t.inodes[i].kind == s.inodes[i].kind)
    && (forall i :: i in s.inodes && i !in ruined ==> Ages(s, t, i) && (calm ==> t.inodes[i] == s.inodes[i]))
    && (forall p :: p !in own ==> Drifts(s, t, p) && (calm ==> SameBinding(s, t, p)))
  }

  lemma EvolvesComposes(s: State, t: State, u: State, own: set<Path>, ruined: set<nat>, calm: bool)
    requires WellFormed(s)
    requires Evolves(s, t, own, ruined, calm) && Evolves(t, u, own, ruined, calm)
    ensures Evolves(s, u, own, ruined, calm)
  {
    forall i | i in s.inodes && i !in ruined
      ensures Ages(s, u, i) && (calm ==> u.inodes[i] == s.inodes[i])
    {
      assert Ages(s, t, i) && Ages(t, u, i);
    }
    forall p | p !in own ensures Drifts(s, u, p) && (calm ==> SameBinding(s, u, p)) {
      assert Drifts(s, t, p) && Drifts(t, u, p);
      assert calm ==> SameBinding(s, t, p) && SameBinding(t, u, p);
    }
  }

  /** Every recorded state evolves into every later one. */
  ghost predicate Chain(past: seq<State>, own: set<Path>, ruined: set<nat>, calm: bool) {
    && (forall i :: 0 <= i < |past| ==> WellFormed(past[i]))
    && (forall i, j {:trigger Evolves(past[i], past[j], own, ruined, calm)} ::
          0 <= i <= j < |past| ==> Evolves(past[i], past[j], own, ruined, calm))
  }

  lemma ChainGrows(past: seq<State>, own: set<Path>, ruined: set<nat>, next: State,
                   own': set<Path>, ruined': set<nat>, calm: bool)
    requires |past| > 0 && Chain(past, own, ruined, calm) && own <= own' && ruined <= ruined'
    requires WellFormed(next) && Evolves(past[|past| - 1], next, own', ruined', calm)
    ensures Chain(past + [next], own', ruined', calm)
  {
    var all := past + [next];
    forall i, j | 0 <= i <= j < |all| ensures Evolves(all[i], all[j], own', ruined', calm) {
      if j < |past| {
        assert Evolves(past[i], past[j], own, ruined, calm);
      } else if i < |past| {
        assert Evolves(past[i], past[|past| - 1], own, ruined, calm);
        EvolvesComposes(past[i], past[|past| - 1], next, own', ruined', calm);
      }
    }
  }

  /** What the other processes may have done between `before` and `mid`. */
  ghost predicate Disturbed(before: State, mid: State, sealed: set<Path>, calm: bool) {
    Interferes(before, mid, sealed) && (calm ==> mid == before)
  }

  class FileSystem {
    var state: State
    var sealed: set<Path>
    /** SHA-256 of a file's contents, in hexadecimal. */
    const sha: Content -> string
    /** Symbolic links the kernel follows before it gives up. */
    const hops: nat
    /** No other process acts. */
    const calm: bool
    /** A call fails only for a reason visible in the state. */
    const reliable: bool

    ghost var past: seq<State>
    ghost var own: set<Path>
    /** Objects of which the program removed a name. */
    ghost var spent: set<nat>
    /** Objects of which the program may have destroyed part of the contents. */
    ghost var ruined: set<nat>

    ghost predicate Valid()
      reads this
    {
      |past| > 0 && past[|past| - 1] == state && Chain(past, own, ruined, calm)
    }

    constructor (start: State, sha: Content -> string, hops: nat, calm: bool, reliable: bool)
      requires WellFormed(start)
      ensures Valid() && state == start && past == [start] && sealed == {} && own == {} && spent == {} && ruined == {}
      ensures this.sha == sha && this.hops == hops && this.calm == calm && this.reliable == reliable
    {
      state, sealed := start, {};
      this.sha, this.hops, this.calm, this.reliable := sha, hops, calm, reliable;
      past, own, spent, ruined := [start], {}, {}, {};
    }

    /** Starts a new record of what happens. */
    ghost method Observe()
      requires Valid()
      modifies this`past, this`own, this`spent, this`ruined
      ensures Valid() && past == [state] && own == {} && spent == {} && ruined == {}
    {
      assert Evolves(past[|past| - 1], past[|past| - 1], own, ruined, calm);
      past, own, spent, ruined := [state], {}, {}, {};
    }

    /** From here on no other process creates or removes anything at or below the path. */
    method Seal(p: Path)
      modifies this`sealed
      ensures sealed == old(sealed) + {p}
    {
      sealed := sealed + {p};
    }

    method Interfere()
      requires Valid()
      modifies this`state, this`past
      ensures Valid() && past == old(past) + [state]
      ensures Disturbed(old(state), state, sealed, calm)
    {
      if !calm {
        var edits: seq<Edit> := *;
        state := ApplyEdits(state, edits, sealed);
      }
      ChainGrows(past, own, ruined, state, own, ruined, calm);
      past := past + [state];
    }

    method Settle(next: State, ghost touched: set<Path>, ghost gone: set<nat>)
      requires Valid() && WellFormed(next)
      requires Evolves(state, next, own + touched, ruined, calm)
      modifies this`state, this`past, this`own, this`spent
      ensures Valid() && state == next && past == old(past) + [next]
      ensures own == old(own) + touched && spent == old(spent) + gone
    {
      ChainGrows(past, own, ruined, next, own + touched, ruined, calm);
      state, past := next, past + [next];
      own, spent := own + touched, spent + gone;
    }

    method SettleDamage(next: State, ghost touched: set<Path>, ghost gone: set<nat>, ghost damaged: set<nat>)
      requires Valid() && WellFormed(next)
      requires Evolves(state, next, own + touched, ruined + damaged, calm)
      modifies this`state, this`past, this`own, this`spent, this`ruined
      ensures Valid() && state == next && past == old(past) + [next]
      ensures own == old(own) + touched && spent == old(spent) + gone && ruined == old(ruined) + damaged
    {
      ChainGrows(past, own, ruined, next, own + touched, ruined + damaged, calm);
      state, past := next, past + [next];
      own, spent, ruined := own + touched, spent + gone, ruined + damaged;
    }

    // ---- Calls that only look --------------------------------------------------------------------------------

    method Lstat(p: Path) returns (r: Probe)
      requires Valid()
      modifies this`state, this`past
      ensures Valid() && past == old(past) + [state] && Disturbed(old(state), state, sealed, calm)
      ensures r.Found? ==> p in state.names && r.info == InfoOf(state, state.names[p])
      ensures r.Missing? ==> p !in state.names
      ensures reliable ==> !r.Failed?
    {
      Interfere();
      var fails: bool := *;
      if fails && !reliable {
        return Failed;
      }
      r := if p in state.names then Found(InfoOf(state, state.names[p])) else Missing;
    }

    method Stat(p: Path) returns (r: Option<Info>)
      requires Valid()
      modifies this`state, this`past
      ensures Valid() && past == old(past) + [state] && Disturbed(old(state), state, sealed, calm)
      ensures r.Some? ==> Follow(state, p, hops).Some? && r.value == InfoOf(state, Follow(state, p, hops).value)
      ensures reliable && Follow(state, p, hops).Some? ==> r.Some?
    {
      Interfere();
      var fails: bool := *;
      if fails && !reliable {
        return None;
      }
      var end := Follow(state, p, hops);
      r := if end.Some? then Some(InfoOf(state, end.value)) else None;
    }

    method ReadHash(p: Path) returns (r: Option<string>)
      requires Valid()
      modifies this`state, this`past
      ensures Valid() && past == old(past) + [state] && Disturbed(old(state), state, sealed, calm)
      ensures r.Some? ==>
                && Follow(state, p, hops).Some?
                && state.inodes[Follow(state, p, hops).value].kind.Regular?
                && r.value == sha(state.inodes[Follow(state, p, hops).value].content)
      ensures (&& reliable && Follow(state, p, hops).Some?
               && state.inodes[Follow(state, p, hops).value].kind.Regular?) ==> r.Some?
    {
      Interfere();
      var fails: bool := *;
      var end := Follow(state, p, hops);
      if (fails && !reliable) || end.None? || !state.inodes[end.value].kind.Regular? {
        return None;
      }
      r := Some(sha(state.inodes[end.value].content));
    }

    method ReadAttributes(p: Path) returns (r: Option<map<string, string>>)
      requires Valid()
      modifies this`state, this`past
      ensures Valid() && past == old(past) + [state] && Disturbed(old(state), state, sealed, calm)
      ensures r.Some? ==>
                && Follow(state, p, hops).Some?
                && r.value == state.inodes[Follow(state, p, hops).value].attributes
      ensures reliable && Follow(state, p, hops).Some? ==> r.Some?
    {
      Interfere();
      var fails: bool := *;
      var end := Follow(state, p, hops);
      if (fails && !reliable) || end.None? {
        return None;
      }
      r := Some(state.inodes[end.value].attributes);
    }

    // ---- Calls that change names -----------------------------------------------------------------------------

    /** The directory is new: nothing is named at or below it. */
    method MakeTempDirectory(parent: Path, prefix: string) returns (made: Option<Path>)
      requires Valid()
      modifies this`state, this`past, this`own, this`spent, this`sealed
      ensures Valid() && |past| > |old(past)| && old(past) <= past
      ensures Disturbed(old(state), past[|old(past)|], old(sealed), calm)
      ensures own == old(own) + (if made.Some? then {made.value} else {}) && spent == old(spent)
      ensures made.None? ==> state == past[|old(past)|] && sealed == old(sealed) && |past| == |old(past)| + 1
      ensures made.Some? ==>
                && |past| == |old(past)| + 2
                && Parent(made.value) == parent && |made.value| == |parent| + 1
                && Unused(past[|old(past)|], made.value)
                && (exists suffix :: Numeral(suffix) && made.value == parent + [prefix + suffix])
                && sealed == old(sealed) + {made.value}
                && state == WithObject(past[|old(past)|], made.value, Directory, [])
      ensures reliable ==> made.Some?
    {
      Interfere();
      var fails: bool := *;
      assert Numeral("0");
      var suffix: string :| Numeral(suffix);
      if reliable {
        suffix := FreeSuffix(state.names.Keys, parent, prefix);
      }
      var p := parent + [prefix + suffix];
      if (fails && !reliable) || exists q :: q in state.names && p <= q {
        return None;
      }
      CreateObject(p, Directory, []);
      sealed := sealed + {p};
      made := Some(p);
    }

    method CreateObject(p: Path, kind: Kind, target: seq<string>)
      requires Valid() && p !in state.names
      modifies this`state, this`past, this`own, this`spent
      ensures Valid() && past == old(past) + [state] && spent == old(spent)
      ensures own == old(own) + {p} && state == WithObject(old(state), p, kind, target)
    {
      Settle(WithObject(state, p, kind, target), {p}, {});
    }

    method MakeDirectory(p: Path) returns (done: bool)
      requires Valid()
      modifies this`state, this`past, this`own, this`spent
      ensures Valid() && |past| > |old(past)| && old(past) <= past && spent == old(spent)
      ensures Disturbed(old(state), past[|old(past)|], sealed, calm)
      ensures own == old(own) + (if done then {p} else {})
      ensures !done ==> state == past[|old(past)|] && |past| == |old(past)| + 1
      ensures done ==> |past| == |old(past)| + 2 && p !in past[|old(past)|].names
      ensures done ==> state == WithObject(past[|old(past)|], p, Directory, [])
      ensures reliable && p !in past[|old(past)|].names ==> done
    {
      Interfere();
      var fails: bool := *;
      if (fails && !reliable) || p in state.names {
        return false;
      }
      CreateObject(p, Directory, []);
      done := true;
    }

    method MakeSymlink(target: seq<string>, p: Path) returns (done: bool)
      requires Valid()
      modifies this`state, this`past, this`own, this`spent
      ensures Valid() && |past| > |old(past)| && old(past) <= past && spent == old(spent)
      ensures Disturbed(old(state), past[|old(past)|], sealed, calm)
      ensures own == old(own) + (if done then {p} else {})
      ensures !done ==> state == past[|old(past)|] && |past| == |old(past)| + 1
      ensures done ==> |past| == |old(past)| + 2 && p !in past[|old(past)|].names
      ensures done ==> state == WithObject(past[|old(past)|], p, Symlink, target)
      ensures reliable && p !in past[|old(past)|].names ==> done
    {
      Interfere();
      var fails: bool := *;
      if (fails && !reliable) || p in state.names {
        return false;
      }
      CreateObject(p, Symlink, target);
      done := true;
    }

    /** The object pushed out of the destination, if any, counts as spent. A path cannot move below itself. */
    method Rename(from: Path, to: Path) returns (done: bool)
      requires Valid()
      modifies this`state, this`past, this`own, this`spent
      ensures Valid() && |past| > |old(past)| && old(past) <= past
      ensures Disturbed(old(state), past[|old(past)|], sealed, calm)
      ensures own == old(own) + (if done then {from, to} else {})
      ensures !done ==> state == past[|old(past)|] && spent == old(spent) && |past| == |old(past)| + 1
      ensures done ==> |past| == |old(past)| + 2 && from in past[|old(past)|].names
      ensures done ==> state == Renamed(past[|old(past)|], from, to)
      ensures done ==> spent == old(spent) + Displaced(past[|old(past)|], from, to)
      ensures reliable && from in past[|old(past)|].names && to !in past[|old(past)|].names && !(from <= to) ==> done
      ensures from <= to ==> !done
    {
      Interfere();
      var fails: bool := *;
      if from <= to || from !in state.names || (fails && (!reliable || to in state.names)) {
        return false;
      }
      var next := Renamed(state, from, to);
      assert forall p :: p !in own + {from, to} ==> SameBinding(state, next, p);
      Settle(next, {from, to}, Displaced(state, from, to));
      done := true;
    }

    method HardLink(from: Path, to: Path) returns (done: bool)
      requires Valid()
      modifies this`state, this`past, this`own, this`spent
      ensures Valid() && |past| > |old(past)| && old(past) <= past && spent == old(spent)
      ensures Disturbed(old(state), past[|old(past)|], sealed, calm)
      ensures own == old(own) + (if done then {to} else {})
      ensures !done ==> state == past[|old(past)|] && |past| == |old(past)| + 1
      ensures done ==> |past| == |old(past)| + 2 && from in past[|old(past)|].names && to !in past[|old(past)|].names
      ensures done ==>
                state == past[|old(past)|].(names := past[|old(past)|].names[to := past[|old(past)|].names[from]])
      ensures reliable && from in past[|old(past)|].names && to !in past[|old(past)|].names ==> done
    {
      Interfere();
      var fails: bool := *;
      if (fails && !reliable) || from !in state.names || to in state.names {
        return false;
      }
      Settle(state.(names := state.names[to := state.names[from]]), {to}, {});
      done := true;
    }

    method Remove(p: Path) returns (done: bool)
      requires Valid()
      modifies this`state, this`past, this`own, this`spent
      ensures Valid() && |past| > |old(past)| && old(past) <= past
      ensures Disturbed(old(state), past[|old(past)|], sealed, calm)
      ensures own == old(own) + (if done then {p} else {})
      ensures !done ==> state == past[|old(past)|] && spent == old(spent) && |past| == |old(past)| + 1
      ensures done ==> |past| == |old(past)| + 2 && p in past[|old(past)|].names
      ensures done ==> state == Removed(past[|old(past)|], {p}) && spent == old(spent) + {past[|old(past)|].names[p]}
      ensures (&& reliable && p in past[|old(past)|].names
               && (IsDirectory(past[|old(past)|], p) ==> NothingBelow(past[|old(past)|], p))) ==> done
    {
      Interfere();
      var fails: bool := *;
      if (fails && !reliable) || p !in state.names || (IsDirectory(state, p) && exists q :: q in state.names && p < q) {
        return false;
      }
      var next := Removed(state, {p});
      assert forall q :: q !in own + {p} ==> SameBinding(state, next, q);
      Settle(next, {p}, {state.names[p]});
      done := true;
    }

    /**
     Removes a path and everything below it. When it fails, any part may already be gone: some names below the
     path, or part of the contents of the object at the path itself.
     */
    method RemoveAll(p: Path) returns (done: bool)
      requires Valid()
      modifies this`state, this`past, this`own, this`spent, this`ruined
      ensures Valid() && |past| > |old(past)| && old(past) <= past
      ensures Disturbed(old(state), past[|old(past)|], sealed, calm)
      ensures |past| == |old(past)| + 2
      ensures own == old(own) + Below(past[|old(past)|], p)
      ensures spent == old(spent) + NamedBelow(past[|old(past)|], p)
      ensures ruined == old(ruined) + Damaged(past[|old(past)|], p, done)
      ensures Swept(past[|old(past)|], state, p, done)
      ensures reliable ==> done
    {
      Interfere();
      done := *;
      done := done || reliable;
      var kept: set<Path> := *;
      var rest: Content := *;
      var gone := set q | q in state.names && p <= q && (done || q !in kept);
      var next := SweepResult(state, p, gone, rest, done);
      SweepEvolves(state, next, p, done, own + Below(state, p), ruined + Damaged(state, p, done), calm);
      SettleDamage(next, Below(state, p), NamedBelow(state, p), Damaged(state, p, done));
    }

    // ---- The archiver --------------------------------------------------------------------------------------------

    /**
     Packs a source into a new archive file. Success only says that the archiver reported success: what it wrote may
     be damaged, and a failed run may leave a file behind.
     */
    method PackArchive(source: Path, archive: Path) returns (done: bool)
      requires Valid()
      modifies this`state, this`past, this`own
      ensures Valid() && |past| == |old(past)| + 2 && old(past) <= past
      ensures Disturbed(old(state), past[|old(past)|], sealed, calm)
      ensures own == old(own) + {archive}
      ensures forall p :: p != archive ==> SameBinding(past[|old(past)|], state, p)
      ensures forall i :: i in past[|old(past)|].inodes ==>
                            i in state.inodes && state.inodes[i] == past[|old(past)|].inodes[i]
      ensures archive in past[|old(past)|].names ==> state == past[|old(past)|] && !done
      ensures reliable && source in past[|old(past)|].names && archive !in past[|old(past)|].names ==> done
      ensures archive !in past[|old(past)|].names && archive in state.names ==>
                state.names[archive] !in past[|old(past)|].inodes
      ensures done ==>
                && source in past[|old(past)|].names && archive in state.names
                && state.names[archive] !in past[|old(past)|].inodes
                && state.inodes[state.names[archive]].kind.Regular? && state.inodes[state.names[archive]].held
                && state.inodes[state.names[archive]].content.Archive?
                && (reliable ==> Usable(state.inodes[state.names[archive]].content))
                && state.inodes[state.names[archive]].content.source
                   == past[|old(past)|].inodes[past[|old(past)|].names[source]].content
    {
      hide Chain, Evolves, Interferes;
      Interfere();
      CurrentIsSound();
      var intact: bool := *;
      var size: nat := *;
      var written: bool := *;
      done := *;
      var garbage: Content := *;
      done := (done || reliable) && source in state.names && archive !in state.names;
      if reliable {
        intact, size := true, if size > 0 then size else 1;
      }
      var content := if done then Archive(state.inodes[state.names[source]].content, intact, size) else garbage;
      WritingEvolves(state, archive, content, own + {archive}, ruined, calm);
      var next := if archive !in state.names && (done || written) then WithFile(state, archive, content) else state;
      Extend(next, {archive});
    }

    lemma CurrentIsSound()
      requires Valid()
      ensures WellFormed(state)
    {
    }

    /** The archiver reads the whole archive back and checks it. */
    method TestArchive(archive: Path) returns (passed: bool)
      requires Valid()
      modifies this`state, this`past
      ensures Valid() && past == old(past) + [state] && Disturbed(old(state), state, sealed, calm)
      ensures passed ==>
                && Follow(state, archive, hops).Some?
                && state.inodes[Follow(state, archive, hops).value].content.Archive?
                && state.inodes[Follow(state, archive, hops).value].content.intact
      ensures (&& reliable && Follow(state, archive, hops).Some?
               && Usable(state.inodes[Follow(state, archive, hops).value].content)) ==> passed
    {
      Interfere();
      var fails: bool := *;
      var end := Follow(state, archive, hops);
      passed := (!fails || reliable) && end.Some?
                && state.inodes[end.value].content.Archive? && state.inodes[end.value].content.intact;
    }

    method SyncFile(p: Path) returns (ok: bool)
      requires Valid()
      modifies this`state, this`past
      ensures Valid() && past == old(past) + [state] && Disturbed(old(state), state, sealed, calm)
      ensures ok ==> Follow(state, p, hops).Some?
      ensures reliable && Follow(state, p, hops).Some? ==> ok
    {
      Interfere();
      var fails: bool := *;
      ok := (!fails || reliable) && Follow(state, p, hops).Some?;
    }

    method Extend(next: State, ghost touched: set<Path>)
      requires Valid() && WellFormed(next)
      requires Evolves(state, next, own + touched, ruined, calm)
      modifies this`state, this`past, this`own
      ensures Valid() && state == next && past == old(past) + [next] && own == old(own) + touched
    {
      ChainGrows(past, own, ruined, next, own + touched, ruined, calm);
      state, past, own := next, past + [next], own + touched;
    }
  }

  /** An undamaged archive of some length. */
  predicate Usable(c: Content) {
    c.Archive? && c.intact && Size(c) > 0
  }

  predicate NothingBelow(s: State, p: Path) {
    forall q :: q in s.names ==> !(p < q)
  }

  predicate Numeral(s: string) {
    s != "" && forall i :: 0 <= i < |s| ==> '0' <= s[i] <= '9'
  }

  /** A name that no path goes through yet: longer than all that stand at its place. */
  method FreeSuffix(names: set<Path>, parent: Path, prefix: string) returns (suffix: string)
    ensures Numeral(suffix)
    ensures forall q :: q in names ==> !(parent + [prefix + suffix] <= q)
  {
    var longest: nat := 0;
    var pending := names;
    while pending != {}
      invariant pending <= names
      invariant forall q :: q in names - pending && |q| > |parent| ==> |q[|parent|]| <= longest
      decreases |pending|
    {
      var q :| q in pending;
      if |q| > |parent| && |q[|parent|]| > longest {
        longest := |q[|parent|]|;
      }
      pending := pending - {q};
    }
    suffix := seq(longest + 1, _ => '0');
    var p := parent + [prefix + suffix];
    assert p[|parent|] == prefix + suffix;
    forall q | q in names
      ensures !(p <= q)
    {
      assert q in names - pending;
      if |q| > |parent| {
        assert q[|parent|] != p[|parent|];
      }
    }
  }

  ghost predicate Unused(s: State, p: Path) {
    forall q :: q in s.names ==> !(p <= q)
  }

  // ---- Effects ---------------------------------------------------------------------------------------------------

  predicate IsDirectory(s: State, p: Path)
    requires WellFormed(s)
  {
    p in s.names && s.inodes[s.names[p]].kind.Directory?
  }

  function WithObject(s: State, p: Path, kind: Kind, target: seq<string>): (t: State)
    requires WellFormed(s)
    ensures WellFormed(t)
  {
    State(s.names[p := s.clock],
          s.inodes[s.clock := Inode(kind, s.clock, Plain(""), target, Meta(0, 0, 0), map[], false)],
          s.clock + 1)
  }

  function WithFile(s: State, p: Path, content: Content): (t: State)
    requires WellFormed(s)
    ensures WellFormed(t)
  {
    State(s.names[p := s.clock],
          s.inodes[s.clock := Inode(Regular, s.clock, content, [], Meta(0, 0, 0), map[], true)],
          s.clock + 1)
  }

  function Renamed(s: State, from: Path, to: Path): (t: State)
    requires WellFormed(s) && from in s.names
    ensures WellFormed(t)
  {
    s.(names := (s.names - {from})[to := s.names[from]])
  }

  /** The object a rename pushes out of its destination. */
  function Displaced(s: State, from: Path, to: Path): set<nat> {
    if to in s.names then {s.names[to]} else {}
  }

  function Removed(s: State, gone: set<Path>): (t: State)
    requires WellFormed(s)
    ensures WellFormed(t)
  {
    s.(names := s.names - gone)
  }

  lemma WritingEvolves(s: State, p: Path, content: Content, own: set<Path>, ruined: set<nat>, calm: bool)
    requires WellFormed(s) && p in own
    ensures Evolves(s, s, own, ruined, calm) && Evolves(s, WithFile(s, p, content), own, ruined, calm)
  {
  }

  ghost predicate Swept(s: State, t: State, p: Path, done: bool)
    requires WellFormed(s)
  {
    && (done ==> t == Removed(s, Below(s, p)))
    && (forall q :: q in t.names ==> q in s.names && t.names[q] == s.names[q])
    && (forall q :: q in s.names && !(p <= q) ==> q in t.names)
    && (forall i :: i in s.inodes ==> i in t.inodes && t.inodes[i].kind == s.inodes[i].kind)
    && (forall i :: i in s.inodes && i !in NamedBelow(s, p) ==> t.inodes[i] == s.inodes[i])
  }

  function SweepResult(s: State, p: Path, gone: set<Path>, rest: Content, done: bool): (t: State)
    requires WellFormed(s)
    requires gone <= Below(s, p) && (done ==> gone == Below(s, p))
    ensures WellFormed(t) && Swept(s, t, p, done) && t.clock == s.clock
  {
    var next := Removed(s, gone);
    if !done && p in next.names && s.inodes[s.names[p]].kind.Directory? then
      assert s.names[p] in NamedBelow(s, p);
      next.(inodes := next.inodes[s.names[p] := next.inodes[s.names[p]].(content := rest)])
    else next
  }

  lemma SweepEvolves(s: State, t: State, p: Path, done: bool, own: set<Path>, ruined: set<nat>, calm: bool)
    requires WellFormed(s) && WellFormed(t) && Swept(s, t, p, done) && s.clock == t.clock
    requires Below(s, p) <= own && (done || NamedBelow(s, p) <= ruined)
    ensures Evolves(s, t, own, ruined, calm)
  {
    forall q | q !in own ensures SameBinding(s, t, q) {
      assert q in s.names ==> !(p <= q);
    }
  }

  function Below(s: State, p: Path): set<Path> {
    set q | q in s.names && p <= q
  }

  /** The objects that a removal which did not finish may have damaged. */
  function Damaged(s: State, p: Path, done: bool): set<nat> {
    if done then {} else NamedBelow(s, p)
  }

  function NamedBelow(s: State, p: Path): set<nat> {
    set q | q in s.names && p <= q :: s.names[q]
  }
}
