/**
 Files that other processes rename. The checks of the storage operations compare identities (object, size, stamp and
 type), and a rename changes none of these: what a path led to in between cannot be told from two equal looks at it.
 */
module MovedFiles {
  import opened Base
  import opened SharedDisk
  import opened FileCalls
  import L = DedupeLink

  /** What another process may do here: an edit, or giving an existing object another name. */
  datatype Act = Does(edit: Edit) | Moves(from: Path, to: Path)

  function Moved(s: State, from: Path, to: Path): (t: State)
    requires WellFormed(s)
    ensures WellFormed(t)
  {
    if from in s.names then s.(names := (s.names - {from})[to := s.names[from]]) else s
  }

  function Acted(s: State, act: Act): (t: State)
    requires WellFormed(s)
    ensures WellFormed(t)
  {
    match act
    case Does(edit) => ApplyEditInterferes(s, edit, {}); ApplyEdit(s, edit, {})
    case Moves(from, to) => Moved(s, from, to)
  }

  function AllActed(s: State, acts: seq<Act>): (t: State)
    requires WellFormed(s)
    ensures WellFormed(t)
    decreases |acts|
  {
    if acts == [] then s else AllActed(Acted(s, acts[0]), acts[1..])
  }

  /** Through any number of edits and renames, objects change only by getting a new stamp. */
  lemma {:induction false} ObjectsAge(s: State, acts: seq<Act>, i: nat)
    requires WellFormed(s) && i in s.inodes
    ensures var t := AllActed(s, acts); s.clock <= t.clock && i in t.inodes && Ages(s, t, i)
    decreases |acts|
  {
    if acts != [] {
      var m := Acted(s, acts[0]);
      if acts[0].Does? {
        ApplyEditInterferes(s, acts[0].edit, {});
      }
      assert s.clock <= m.clock && i in m.inodes && Ages(s, m, i);
      ObjectsAge(m, acts[1..], i);
      assert Ages(m, AllActed(m, acts[1..]), i);
    }
  }

  // ---- One round of checks ---------------------------------------------------------------------------------------

  /** At `s` and at `t` the path showed one and the same file; in between, at `m`, it led to contents with the hash. */
  ghost predicate SeenAround(s: State, m: State, t: State, p: Path, i: nat, hops: nat, sha: Content -> string, hash: string)
    requires WellFormed(s) && WellFormed(m) && WellFormed(t)
  {
    && L.RegularAt(s, p, i) && L.RegularAt(t, p, i) && SameIdentity(InfoOf(s, i), InfoOf(t, i))
    && Follow(m, p, hops).Some? && sha(m.inodes[Follow(m, p, hops).value].content) == hash
  }

  /** Whatever edits and renames happen around it, hashing the file itself tells what it holds in the end. */
  lemma SameObjectIsHeld(s: State, before: seq<Act>, after: seq<Act>, p: Path, i: nat, hops: nat, sha: Content -> string,
                         hash: string)
    requires WellFormed(s)
    requires var m := AllActed(s, before); SeenAround(s, m, AllActed(m, after), p, i, hops, sha, hash)
    requires Follow(AllActed(s, before), p, hops) == Some(i)
    ensures i in AllActed(AllActed(s, before), after).inodes
    ensures sha(AllActed(AllActed(s, before), after).inodes[i].content) == hash
  {
    var m := AllActed(s, before);
    ObjectsAge(s, before, i);
    ObjectsAge(m, after, i);
    L.ContentHeld(s, m, AllActed(m, after), i);
  }

  function WithContent(s: State, i: nat, c: Content): (t: State)
    requires WellFormed(s) && i in s.inodes
    ensures WellFormed(t) && i in t.inodes
  {
    s.(inodes := s.inodes[i := s.inodes[i].(content := c)])
  }

  lemma OneActCarries(s: State, act: Act, i: nat, c: Content)
    requires WellFormed(s) && i in s.inodes
    ensures var t := Acted(s, act);
            && i in t.inodes && s.clock <= t.clock
            && (if t.inodes[i].stamp == s.inodes[i].stamp then Acted(WithContent(s, i, c), act) == WithContent(t, i, c)
                else t.inodes[i].stamp >= s.clock)
  {
    if act.Does? {
      ApplyEditInterferes(s, act.edit, {});
      ApplyEditInterferes(WithContent(s, i, c), act.edit, {});
      EditCarries(s, act.edit, i, c);
    }
  }

  lemma EditCarries(s: State, e: Edit, i: nat, c: Content)
    requires WellFormed(s) && i in s.inodes
    ensures var t := ApplyEdit(s, e, {});
            && i in t.inodes
            && (if t.inodes[i].stamp == s.inodes[i].stamp
                then ApplyEdit(WithContent(s, i, c), e, {})
                     == t.(inodes := t.inodes[i := t.inodes[i].(content := c)])
                else t.inodes[i].stamp >= s.clock)
  {
    match e
    case Write(p, content) => WriteCarries(s, p, content, i, c);
    case Place(p, node) => PlaceCarries(s, p, node, i, c);
    case Unlink(p) =>
    case Retag(p, meta, attributes) => RetagCarries(s, p, meta, attributes, i, c);
  }

  lemma WriteCarries(s: State, p: Path, content: Content, i: nat, c: Content)
    requires WellFormed(s) && i in s.inodes
    ensures var t := ApplyEdit(s, Write(p, content), {});
            && i in t.inodes
            && (if t.inodes[i].stamp == s.inodes[i].stamp
                then ApplyEdit(WithContent(s, i, c), Write(p, content), {})
                     == t.(inodes := t.inodes[i := t.inodes[i].(content := c)])
                else t.inodes[i].stamp >= s.clock)
  {
    var t, other := ApplyEdit(s, Write(p, content), {}), ApplyEdit(WithContent(s, i, c), Write(p, content), {});
    if t.inodes[i].stamp == s.inodes[i].stamp {
      assert other.inodes == t.inodes[i := t.inodes[i].(content := c)];
    }
  }

  lemma PlaceCarries(s: State, p: Path, node: Inode, i: nat, c: Content)
    requires WellFormed(s) && i in s.inodes
    ensures var t := ApplyEdit(s, Place(p, node), {});
            && i in t.inodes && t.inodes[i].stamp == s.inodes[i].stamp
            && ApplyEdit(WithContent(s, i, c), Place(p, node), {})
               == t.(inodes := t.inodes[i := t.inodes[i].(content := c)])
  {
    var t, other := ApplyEdit(s, Place(p, node), {}), ApplyEdit(WithContent(s, i, c), Place(p, node), {});
    assert other.inodes == t.inodes[i := t.inodes[i].(content := c)];
  }

  lemma RetagCarries(s: State, p: Path, meta: Meta, attributes: map<string, string>, i: nat, c: Content)
    requires WellFormed(s) && i in s.inodes
    ensures var t := ApplyEdit(s, Retag(p, meta, attributes), {});
            && i in t.inodes && t.inodes[i].stamp == s.inodes[i].stamp
            && ApplyEdit(WithContent(s, i, c), Retag(p, meta, attributes), {})
               == t.(inodes := t.inodes[i := t.inodes[i].(content := c)])
  {
    var e := Retag(p, meta, attributes);
    var t, other := ApplyEdit(s, e, {}), ApplyEdit(WithContent(s, i, c), e, {});
    assert other.inodes == t.inodes[i := t.inodes[i].(content := c)];
  }

  /** What a file holds has no influence on a run that does not write to it. */
  lemma {:induction false} ContentIsCarried(s: State, acts: seq<Act>, i: nat, c: Content)
    requires WellFormed(s) && i in s.inodes
    ensures i in AllActed(s, acts).inodes
    ensures AllActed(s, acts).inodes[i].stamp == s.inodes[i].stamp ==>
              AllActed(WithContent(s, i, c), acts) == WithContent(AllActed(s, acts), i, c)
    decreases |acts|
  {
    if acts != [] {
      var m := Acted(s, acts[0]);
      OneActCarries(s, acts[0], i, c);
      ContentIsCarried(m, acts[1..], i, c);
      ObjectsAge(m, acts[1..], i);
    }
  }

  /** The file with these contents passes a round of checks, and holds what was hashed. */
  ghost predicate Passes(s: State, before: seq<Act>, after: seq<Act>, p: Path, i: nat, hops: nat, sha: Content -> string,
                         c: Content)
    requires WellFormed(s) && i in s.inodes
  {
    var m := AllActed(WithContent(s, i, c), before);
    && Follow(m, p, hops).Some?
    && SeenAround(WithContent(s, i, c), m, AllActed(m, after), p, i, hops, sha,
                  sha(m.inodes[Follow(m, p, hops).value].content))
  }

  ghost predicate Holds(s: State, before: seq<Act>, after: seq<Act>, p: Path, i: nat, hops: nat, sha: Content -> string,
                        c: Content)
    requires WellFormed(s) && i in s.inodes && Passes(s, before, after, p, i, hops, sha, c)
  {
    var m := AllActed(WithContent(s, i, c), before);
    sha(AllActed(m, after).inodes[i].content) == sha(m.inodes[Follow(m, p, hops).value].content)
  }

  /**
   A run after which the path shows the file again, unwritten. Whatever the file holds, the checks pass; and they mean
   that it holds what was hashed if and only if the object that was opened for hashing was the file itself.
   */
  lemma IdentityDecides(s: State, before: seq<Act>, after: seq<Act>, p: Path, i: nat, hops: nat, sha: Content -> string,
                        a: Content, b: Content)
    requires WellFormed(s) && i in s.inodes && sha(a) != sha(b)
    requires var m := AllActed(s, before);
             var t := AllActed(m, after);
             && Follow(m, p, hops).Some? && L.RegularAt(s, p, i) && L.RegularAt(t, p, i)
             && t.inodes[i].stamp == s.inodes[i].stamp
    ensures forall c :: Passes(s, before, after, p, i, hops, sha, c)
    ensures (forall c :: Passes(s, before, after, p, i, hops, sha, c) && Holds(s, before, after, p, i, hops, sha, c))
            <==> Follow(AllActed(s, before), p, hops) == Some(i)
  {
    hide Passes, Holds, L.RegularAt;
    var m := AllActed(s, before);
    var reached := Follow(m, p, hops).value;
    forall c
      ensures Passes(s, before, after, p, i, hops, sha, c)
      ensures Holds(s, before, after, p, i, hops, sha, c)
              <==> sha(c) == sha(if reached == i then c else m.inodes[reached].content)
    {
      RoundWith(s, before, after, p, i, hops, sha, c);
    }
    if reached != i {
      var other := if sha(a) == sha(m.inodes[reached].content) then b else a;
      assert !Holds(s, before, after, p, i, hops, sha, other);
    }
  }

  lemma RoundWith(s: State, before: seq<Act>, after: seq<Act>, p: Path, i: nat, hops: nat, sha: Content -> string,
                  c: Content)
    requires WellFormed(s) && i in s.inodes
    requires var m := AllActed(s, before);
             var t := AllActed(m, after);
             && Follow(m, p, hops).Some? && L.RegularAt(s, p, i) && L.RegularAt(t, p, i)
             && t.inodes[i].stamp == s.inodes[i].stamp
    ensures Passes(s, before, after, p, i, hops, sha, c)
    ensures var m := AllActed(s, before);
            var reached := Follow(m, p, hops).value;
            Holds(s, before, after, p, i, hops, sha, c)
            <==> sha(c) == sha(if reached == i then c else m.inodes[reached].content)
  {
    hide AllActed, ApplyEdit;
    var m := AllActed(s, before);
    ObjectsAge(s, before, i);
    ObjectsAge(m, after, i);
    ContentIsCarried(s, before, i, c);
    ContentIsCarried(m, after, i, c);
    FollowIgnoresContent(m, p, hops, i, c);
  }

  lemma {:induction false} FollowIgnoresContent(s: State, p: Path, hops: nat, i: nat, c: Content)
    requires WellFormed(s) && i in s.inodes
    ensures Follow(WithContent(s, i, c), p, hops) == Follow(s, p, hops)
    decreases hops
  {
    if p in s.names && s.inodes[s.names[p]].kind.Symlink? && hops > 0 {
      FollowIgnoresContent(s, Join(Parent(p), s.inodes[s.names[p]].target), hops - 1, i, c);
    }
  }

  // ---- A decoy through both rounds -------------------------------------------------------------------------------

  function Keep(): Path { ["keep"] }

  function Decoy(): Path { ["decoy"] }

  function Aside(): Path { ["aside"] }

  function Copy(): Path { ["copy"] }

  function Workspace(): Path { ["w"] }

  /** The kept file steps aside for the decoy. */
  function Away(): seq<Act> { [Moves(Keep(), Aside()), Moves(Decoy(), Keep())] }

  function Back(): seq<Act> { [Moves(Keep(), Decoy()), Moves(Aside(), Keep())] }

  lemma NamesDiffer()
    ensures Keep() != Decoy() && Keep() != Aside() && Decoy() != Aside() && Copy() !in {Keep(), Decoy(), Aside()}
    ensures Workspace() !in {Keep(), Decoy(), Aside(), Copy()}
    ensures L.Payload(Workspace()) !in {Keep(), Decoy(), Aside(), Copy(), Workspace()}
    ensures L.LinkName(Workspace()) !in {Keep(), Decoy(), Aside(), Copy(), Workspace(), L.Payload(Workspace())}
  {
    assert Keep()[0] == "keep" && Decoy()[0] == "decoy" && Aside()[0] == "aside" && Copy()[0] == "copy";
    assert Workspace()[0] == "w" && |L.Payload(Workspace())| == 2 && |L.LinkName(Workspace())| == 2;
    assert L.Payload(Workspace())[1] == "duplicate" && L.LinkName(Workspace())[1] == "replacement-link";
  }

  lemma TwoActs(s: State, a: Act, b: Act)
    requires WellFormed(s)
    ensures AllActed(s, [a, b]) == Acted(Acted(s, a), b)
  {
    hide Acted;
    var m := Acted(s, a);
    assert [a, b][1..] == [b] && [b][1..] == [];
    assert AllActed(s, [a, b]) == AllActed(m, [b]);
    assert AllActed(m, [b]) == AllActed(Acted(m, b), []);
  }

  /** While the decoy is in place: the names, with everything else as it was. */
  ghost predicate Swapped(s: State, m: State) {
    && Keep() in s.names && Decoy() in s.names && Aside() !in s.names
    && m.inodes == s.inodes && m.clock == s.clock
    && m.names == (s.names - {Decoy()})[Aside() := s.names[Keep()]][Keep() := s.names[Decoy()]]
  }

  lemma SwapsAway(s: State)
    requires WellFormed(s) && Keep() in s.names && Decoy() in s.names && Aside() !in s.names
    ensures Swapped(s, AllActed(s, Away()))
  {
    hide AllActed;
    NamesDiffer();
    TwoActs(s, Moves(Keep(), Aside()), Moves(Decoy(), Keep()));
    var one := Moved(s, Keep(), Aside());
    assert one.names == (s.names - {Keep()})[Aside() := s.names[Keep()]];
    var m := Moved(one, Decoy(), Keep());
    assert m.names == (s.names - {Decoy()})[Aside() := s.names[Keep()]][Keep() := s.names[Decoy()]];
  }

  lemma SwapsBack(s: State, m: State)
    requires WellFormed(s) && WellFormed(m) && Swapped(s, m)
    ensures AllActed(m, Back()) == s
  {
    hide AllActed;
    NamesDiffer();
    TwoActs(m, Moves(Keep(), Decoy()), Moves(Aside(), Keep()));
    var one := Moved(m, Keep(), Decoy());
    assert one.names == (m.names - {Keep()})[Decoy() := m.names[Keep()]];
    var t := Moved(one, Aside(), Keep());
    assert t.names == s.names;
  }

  /** What a round of checks asks of the two files, hashed at `m` and looked at before and after. */
  ghost predicate RoundPasses(s: State, m: State, t: State, other: Path, sha: Content -> string, hops: nat, hash: string)
    requires WellFormed(s) && WellFormed(m) && WellFormed(t)
  {
    && L.Alike(s, Keep(), other) && L.Alike(t, Keep(), other)
    && SeenAround(s, m, t, Keep(), s.names[Keep()], hops, sha, hash)
    && SeenAround(s, m, t, other, s.names[other], hops, sha, hash)
  }

  /** The decoy lets any two files alike pass, if the other one has the hash: what the kept one holds is never seen. */
  lemma DecoyPasses(s: State, other: Path, sha: Content -> string, hops: nat, hash: string)
    requires WellFormed(s) && L.Alike(s, Keep(), other) && L.HasHash(s, sha, other, hash)
    requires L.HasHash(s, sha, Decoy(), hash) && Aside() !in s.names && other !in {Keep(), Decoy(), Aside()}
    ensures var m := AllActed(s, Away()); AllActed(m, Back()) == s && RoundPasses(s, m, s, other, sha, hops, hash)
  {
    hide AllActed;
    var m := AllActed(s, Away());
    SwapsAway(s);
    SwapsBack(s, m);
    NamesDiffer();
    assert Follow(m, Keep(), hops) == Some(s.names[Decoy()]) && Follow(m, other, hops) == Some(s.names[other]);
  }

  /** The duplicate in its workspace, and after that the link published in its place. */
  function InWorkspace(s: State): State
    requires WellFormed(s) && Copy() in s.names
  {
    Renamed(WithObject(s, Workspace(), Directory, []), Copy(), L.Payload(Workspace()))
  }

  function Published(s: State): State
    requires WellFormed(s)
  {
    Renamed(WithObject(s, L.LinkName(Workspace()), Symlink, Rel(Parent(Copy()), Keep())), L.LinkName(Workspace()), Copy())
  }

  lemma StillDecoyed(s: State, sha: Content -> string, hash: string)
    requires WellFormed(s) && L.Alike(s, Keep(), Copy()) && L.HasHash(s, sha, Copy(), hash)
    requires L.HasHash(s, sha, Decoy(), hash) && Aside() !in s.names && Unused(s, Workspace())
    ensures var t := InWorkspace(s);
            && WellFormed(t) && L.Alike(t, Keep(), L.Payload(Workspace()))
            && L.HasHash(t, sha, L.Payload(Workspace()), hash) && L.HasHash(t, sha, Decoy(), hash)
            && Aside() !in t.names && L.LinkName(Workspace()) !in t.names && Copy() !in t.names
            && Names(t, Keep(), s.names[Keep()]) && Names(t, L.Payload(Workspace()), s.names[Copy()])
            && t.inodes[s.names[Keep()]] == s.inodes[s.names[Keep()]]
            && InfoOf(t, s.names[Copy()]) == InfoOf(s, s.names[Copy()])
  {
    NamesDiffer();
    assert Workspace() <= Workspace() && Workspace() <= L.LinkName(Workspace()) && Workspace() <= L.Payload(Workspace());
  }

  lemma LinkLeadsToKeep(t: State, hops: nat)
    requires WellFormed(t) && L.RegularFile(t, Keep()) && Copy() !in t.names && L.LinkName(Workspace()) !in t.names
    requires L.Payload(Workspace()) in t.names && hops >= 1
    ensures var u := Published(t);
            && L.LinkInPlace(u, Copy(), Keep()) && Follow(u, Copy(), hops) == Some(t.names[Keep()])
            && var gone := Removed(u, {L.Payload(Workspace())});
               && L.Payload(Workspace()) !in gone.names && Follow(gone, Copy(), hops) == Some(t.names[Keep()])
               && gone.inodes[t.names[Keep()]] == t.inodes[t.names[Keep()]]
  {
    NamesDiffer();
    assert Parent(Copy()) == [] && [] <= Keep() && Rel([], Keep()) == Keep()[0..] == Keep();
    assert Clean(Keep());
    RelLeadsBack(Parent(Copy()), Keep());
    var u := Published(t);
    assert Names(u, Keep(), t.names[Keep()]) && Names(u, Copy(), t.clock);
    var gone := Removed(u, {L.Payload(Workspace())});
    assert Names(gone, Keep(), t.names[Keep()]) && Names(gone, Copy(), t.clock);
    assert Follow(u, Keep(), hops - 1) == Some(t.names[Keep()]) && Follow(gone, Keep(), hops - 1) == Some(t.names[Keep()]);
  }

  /**
   The decoy through a whole replacement, stepping in while the kept path is hashed, in both rounds. Every check passes,
   the link is published and followed to the kept file, and the duplicate is removed. What the kept file holds was never
   compared with anything; the replaced path now reads it.
   */
  lemma DecoyDestroys(s: State, sha: Content -> string, hops: nat, hash: string)
    requires WellFormed(s) && L.Alike(s, Keep(), Copy()) && L.HasHash(s, sha, Copy(), hash) && hops >= 1
    requires L.HasHash(s, sha, Decoy(), hash) && Aside() !in s.names && Unused(s, Workspace())
    ensures var m := AllActed(s, Away()); AllActed(m, Back()) == s && RoundPasses(s, m, s, Copy(), sha, hops, hash)
    ensures WellFormed(InWorkspace(s))
    ensures var t := InWorkspace(s);
            var m := AllActed(t, Away());
            && AllActed(m, Back()) == t && RoundPasses(t, m, t, L.Payload(Workspace()), sha, hops, hash)
            && InfoOf(t, t.names[L.Payload(Workspace())]) == InfoOf(s, s.names[Copy()])
    ensures var u := Published(InWorkspace(s));
            && L.LinkInPlace(u, Copy(), Keep()) && Follow(u, Copy(), hops) == Some(s.names[Keep()])
    ensures var gone := Removed(Published(InWorkspace(s)), {L.Payload(Workspace())});
            && L.Payload(Workspace()) !in gone.names && Follow(gone, Copy(), hops) == Some(s.names[Keep()])
            && gone.inodes[s.names[Keep()]].content == s.inodes[s.names[Keep()]].content
  {
    hide AllActed, InWorkspace, Published, Unused, RoundPasses, Keep, Decoy, Aside, Copy;
    NamesDiffer();
    DecoyPasses(s, Copy(), sha, hops, hash);
    StillDecoyed(s, sha, hash);
    DecoyPasses(InWorkspace(s), L.Payload(Workspace()), sha, hops, hash);
    LinkLeadsToKeep(InWorkspace(s), hops);
  }

  function OneFile(content: string): Inode {
    Inode(Regular, 0, Plain(content), [], Meta(0, 0, 0), map[], false)
  }

  /** Such files: the kept one never had the hash, and the replaced path reads something else in the end. */
  lemma DecoyExample(sha: Content -> string, hops: nat)
    requires sha(Plain("a")) != sha(Plain("b")) && hops >= 1
    ensures var s := State(map[Keep() := 0, Decoy() := 1, Copy() := 2],
                           map[0 := OneFile("a"), 1 := OneFile("b"), 2 := OneFile("b")], 3);
            && WellFormed(s) && L.Alike(s, Keep(), Copy()) && L.HasHash(s, sha, Copy(), sha(Plain("b")))
            && L.HasHash(s, sha, Decoy(), sha(Plain("b"))) && Aside() !in s.names && Unused(s, Workspace())
            && s.inodes[s.names[Keep()]].content != s.inodes[s.names[Copy()]].content
  {
    NamesDiffer();
    assert !(Workspace() <= Keep()) && !(Workspace() <= Decoy()) && !(Workspace() <= Copy());
  }
}
