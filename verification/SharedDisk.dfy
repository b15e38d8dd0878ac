/**
 A file system that other processes use at the same time.

 Names are bound to numbered objects (inodes); an object has a kind, contents and a modification stamp.
 Every call of the program is atomic: first the other processes act, then the call either has its full effect
 or fails without one. A directory handled as one object keeps its whole tree in its contents.
 */
module SharedDisk {
  import opened Base

  /** A cleaned absolute path, as its components. */
  type Path = seq<string>

  datatype Content =
    | Plain(data: string)
    | Archive(source: Content, intact: bool, size: nat)

  function Size(c: Content): nat {
    match c
    case Plain(data) => |data|
    case Archive(_, _, size) => size
  }

  datatype Kind = Regular | Directory | Symlink | Special

  datatype Meta = Meta(mode: nat, uid: nat, gid: nat)

  /** `held` marks a file the program made in a private directory: no other process can have it open. */
  datatype Inode = Inode(
    kind: Kind,
    stamp: nat,
    content: Content,
    target: seq<string>,
    meta: Meta,
    attributes: map<string, string>,
    held: bool)

  /** Object numbers and stamps below `clock` have been handed out. */
  datatype State = State(names: map<Path, nat>, inodes: map<nat, Inode>, clock: nat)

  datatype Info = Info(ino: nat, size: nat, stamp: nat, kind: Kind, meta: Meta)

  datatype Probe = Found(info: Info) | Missing | Failed

  ghost predicate WellFormed(s: State) {
    && (forall p :: p in s.names ==> s.names[p] in s.inodes)
    && (forall i :: i in s.inodes ==> i < s.clock && s.inodes[i].stamp < s.clock)
  }

  /** The path is bound to the object. */
  predicate Names(s: State, p: Path, i: nat) {
    p in s.names && s.names[p] == i
  }

  function InfoOf(s: State, i: nat): Info
    requires i in s.inodes
  {
    var n := s.inodes[i];
    Info(i, Size(n.content), n.stamp, n.kind, n.meta)
  }

  /** Same object, size, modification stamp and type. */
  predicate SameIdentity(a: Info, b: Info) {
    a.ino == b.ino && a.size == b.size && a.stamp == b.stamp && a.kind == b.kind
  }

  // ---- Paths -------------------------------------------------------------------------------------------------

  function Parent(p: Path): Path {
    if p == [] then [] else p[..|p| - 1]
  }

  /** Lexical resolution of a relative target against a directory. */
  function Join(base: Path, rel: seq<string>): Path
    decreases |rel|
  {
    if rel == [] then base
    else if rel[0] == ".." then Join(Parent(base), rel[1..])
    else Join(base + [rel[0]], rel[1..])
  }

  /** The relative path that leads from a directory to a target. */
  function Rel(base: Path, target: Path): seq<string>
    decreases |base|
  {
    if base <= target then target[|base|..] else [".."] + Rel(Parent(base), target)
  }

  predicate Clean(p: Path) {
    forall i :: 0 <= i < |p| ==> p[i] != ".."
  }

  lemma {:induction false} JoinDescends(base: Path, rel: seq<string>)
    requires Clean(rel)
    ensures Join(base, rel) == base + rel
    decreases |rel|
  {
    if rel == [] {
      assert base + rel == base;
    } else {
      JoinDescends(base + [rel[0]], rel[1..]);
      assert base + rel == base + [rel[0]] + rel[1..];
    }
  }

  /** A relative link written for `target` leads back to it from the directory it was computed for. */
  lemma {:induction false} RelLeadsBack(base: Path, target: Path)
    requires Clean(target)
    ensures Join(base, Rel(base, target)) == target
    decreases |base|
  {
    if base <= target {
      JoinDescends(base, target[|base|..]);
    } else {
      RelLeadsBack(Parent(base), target);
      assert ([".."] + Rel(Parent(base), target))[1..] == Rel(Parent(base), target);
    }
  }

  /** The object a path reaches when at most `hops` symbolic links are followed. */
  function Follow(s: State, p: Path, hops: nat): (r: Option<nat>)
    requires forall q :: q in s.names ==> s.names[q] in s.inodes
    ensures r.Some? ==> r.value in s.inodes && !s.inodes[r.value].kind.Symlink?
    decreases hops
  {
    if p !in s.names then None
    else if !s.inodes[s.names[p]].kind.Symlink? then Some(s.names[p])
    else if hops == 0 then None
    else Follow(s, Join(Parent(p), s.inodes[s.names[p]].target), hops - 1)
  }

  // ---- Other processes ---------------------------------------------------------------------------------------

  /** What another process may do to one path between two calls. Every write and every new object is stamped afresh. */
  datatype Edit =
    | Write(path: Path, content: Content)
    | Place(path: Path, node: Inode)
    | Unlink(path: Path)
    | Retag(path: Path, meta: Meta, attributes: map<string, string>)

  /** Names at or below a sealed path are out of the other processes' reach; open descriptors still allow writes. */
  predicate IsSealed(sealed: set<Path>, p: Path) {
    exists q :: q in sealed && q <= p
  }

  function ApplyEdit(s: State, e: Edit, sealed: set<Path>): State
    requires WellFormed(s)
  {
    match e
    case Write(p, c) =>
      if p in s.names && s.inodes[s.names[p]].kind.Regular? && !s.inodes[s.names[p]].held then
        s.(inodes := s.inodes[s.names[p] := s.inodes[s.names[p]].(content := c, stamp := s.clock)],
           clock := s.clock + 1)
      else s
    case Place(p, node) =>
      if IsSealed(sealed, p) then s
      else State(s.names[p := s.clock], s.inodes[s.clock := node.(stamp := s.clock, held := false)], s.clock + 1)
    case Unlink(p) =>
      if IsSealed(sealed, p) then s else s.(names := s.names - {p})
    case Retag(p, meta, attributes) =>
      if p in s.names && !s.inodes[s.names[p]].held then
        s.(inodes := s.inodes[s.names[p] := s.inodes[s.names[p]].(meta := meta, attributes := attributes)])
      else s
  }

  function ApplyEdits(s: State, edits: seq<Edit>, sealed: set<Path>): (t: State)
    requires WellFormed(s)
    ensures WellFormed(t)
    ensures Interferes(s, t, sealed)
    decreases |edits|
  {
    if edits == [] then s
    else
      var mid := ApplyEdit(s, edits[0], sealed);
      ApplyEditInterferes(s, edits[0], sealed);
      var t := ApplyEdits(mid, edits[1..], sealed);
      InterferenceComposes(s, mid, t, sealed);
      t
  }

  /** An object changed only by giving it a stamp that was never used before; a held one did not change. */
  ghost predicate Ages(s: State, t: State, i: nat)
    requires i in s.inodes && i in t.inodes
  {
    && t.inodes[i].kind == s.inodes[i].kind
    && t.inodes[i].target == s.inodes[i].target
    && (t.inodes[i].stamp == s.inodes[i].stamp || t.inodes[i].stamp >= s.clock)
    && (t.inodes[i].stamp == s.inodes[i].stamp ==> t.inodes[i].content == s.inodes[i].content)
    && (s.inodes[i].held ==> t.inodes[i] == s.inodes[i])
  }

  /** A path kept its binding, lost it, or was bound to an object that did not exist before. */
  ghost predicate Drifts(s: State, t: State, p: Path) {
    p in t.names ==> (p in s.names && t.names[p] == s.names[p]) || t.names[p] >= s.clock
  }

  ghost predicate SameBinding(s: State, t: State, p: Path) {
    (p in t.names <==> p in s.names) && (p in s.names ==> t.names[p] == s.names[p])
  }

  ghost predicate Interferes(s: State, t: State, sealed: set<Path>) {
    && s.clock <= t.clock
    && (forall i :: i in s.inodes ==> i in t.inodes && Ages(s, t, i))
    && (forall p :: Drifts(s, t, p))
    && (forall p :: IsSealed(sealed, p) ==> SameBinding(s, t, p))
  }

  lemma ApplyEditInterferes(s: State, e: Edit, sealed: set<Path>)
    requires WellFormed(s)
    ensures WellFormed(ApplyEdit(s, e, sealed))
    ensures Interferes(s, ApplyEdit(s, e, sealed), sealed)
  {
    var t := ApplyEdit(s, e, sealed);
    assert forall i :: i in s.inodes ==> i in t.inodes && Ages(s, t, i);
    assert forall p :: Drifts(s, t, p);
    assert forall p :: IsSealed(sealed, p) ==> SameBinding(s, t, p);
  }

  lemma InterferenceComposes(s: State, t: State, u: State, sealed: set<Path>)
    requires WellFormed(s)
    requires Interferes(s, t, sealed) && Interferes(t, u, sealed)
    ensures Interferes(s, u, sealed)
  {
    forall i | i in s.inodes ensures i in u.inodes && Ages(s, u, i) {
      assert Ages(s, t, i) && Ages(t, u, i);
    }
    forall p ensures Drifts(s, u, p) {
      assert Drifts(s, t, p) && Drifts(t, u, p);
    }
    forall p | IsSealed(sealed, p) ensures SameBinding(s, u, p) {
      assert SameBinding(s, t, p) && SameBinding(t, u, p);
    }
  }
}
