/** A bounded list of entries, least recently touched first: what the storage map's cache amounts to. */
module LruList {
  import opened Base
  import opened SharedDisk

  const CACHE_LIMIT := 32

  /** Whether the relative path from a directory to another stays below it. */
  predicate WithinRoot(path: Path, root: Path) {
    Rel(root, path) == [] || Rel(root, path)[0] != ".."
  }

  lemma WithinMeansPrefix(path: Path, root: Path)
    requires Clean(path)
    ensures WithinRoot(path, root) <==> root <= path
  {
    if root <= path && Rel(root, path) != [] {
      assert Rel(root, path)[0] == path[|root|];
    }
  }

  /** One path is the other or lies below it. */
  predicate Related(p: Path, q: Path) {
    p <= q || q <= p
  }

  // ---- Lists of entries ------------------------------------------------------------------------------------------

  datatype Entry<T> = Entry(path: Path, value: T)

  function Keep<T>(list: seq<Entry<T>>, wanted: Path -> bool): seq<Entry<T>> {
    if list == [] then []
    else if wanted(list[0].path) then [list[0]] + Keep(list[1..], wanted)
    else Keep(list[1..], wanted)
  }

  function Without<T>(list: seq<Entry<T>>, path: Path): seq<Entry<T>> {
    Keep(list, p => p != path)
  }

  function Unrelated<T>(list: seq<Entry<T>>, path: Path): seq<Entry<T>> {
    Keep(list, p => !Related(p, path))
  }

  function Newest<T>(list: seq<Entry<T>>): seq<Entry<T>> {
    if |list| > CACHE_LIMIT then list[|list| - CACHE_LIMIT..] else list
  }

  function Store<T>(list: seq<Entry<T>>, path: Path, value: T): seq<Entry<T>> {
    Newest(Without(list, path) + [Entry(path, value)])
  }

  function Lookup<T>(list: seq<Entry<T>>, path: Path): Option<T> {
    if list == [] then None
    else if list[0].path == path then Some(list[0].value)
    else Lookup(list[1..], path)
  }

  function Touch<T>(list: seq<Entry<T>>, path: Path): seq<Entry<T>> {
    var found := Lookup(list, path);
    if found.None? then list else Without(list, path) + [Entry(path, found.value)]
  }

  // ---- Runs ------------------------------------------------------------------------------------------------------

  datatype Op<T> = StoreOp(path: Path, value: T) | HitOp(path: Path) | InvalidateOp(path: Path)

  function Step<T>(list: seq<Entry<T>>, op: Op<T>): seq<Entry<T>> {
    match op
    case StoreOp(path, value) => Store(list, path, value)
    case HitOp(path) => Touch(list, path)
    case InvalidateOp(path) => Unrelated(list, path)
  }

  function Run<T>(ops: seq<Op<T>>): seq<Entry<T>>
    decreases |ops|
  {
    if ops == [] then [] else Step(Run(ops[..|ops| - 1]), ops[|ops| - 1])
  }

  /** One more than the position of the last store or lookup of a path, zero if there is none. */
  function LastTouch<T>(ops: seq<Op<T>>, path: Path): (n: nat)
    ensures n <= |ops|
    decreases |ops|
  {
    if ops == [] then 0
    else
      var last := ops[|ops| - 1];
      if !last.InvalidateOp? && last.path == path then |ops| else LastTouch(ops[..|ops| - 1], path)
  }

  /** The value stored last for a path. */
  function LastStored<T>(ops: seq<Op<T>>, path: Path): Option<T>
    decreases |ops|
  {
    if ops == [] then None
    else
      var last := ops[|ops| - 1];
      if last.StoreOp? && last.path == path then Some(last.value) else LastStored(ops[..|ops| - 1], path)
  }

  /** The entries stand in the order of their last touches, each with the value stored last for its path. */
  ghost predicate Current<T(!new)>(list: seq<Entry<T>>, ops: seq<Op<T>>) {
    list == [] ||
    (&& LastStored(ops, list[0].path) == Some(list[0].value)
     && (forall e :: e in list[1..] ==> LastTouch(ops, list[0].path) < LastTouch(ops, e.path))
     && Current(list[1..], ops))
  }

  lemma {:induction false} KeepHas<T>(list: seq<Entry<T>>, wanted: Path -> bool)
    ensures forall e :: e in Keep(list, wanted) <==> e in list && wanted(e.path)
    ensures |Keep(list, wanted)| <= |list|
  {
    if list != [] {
      KeepHas(list[1..], wanted);
    }
  }

  lemma {:induction false} KeepsCurrent<T(!new)>(list: seq<Entry<T>>, ops: seq<Op<T>>, op: Op<T>, wanted: Path -> bool)
    requires Current(list, ops)
    requires forall e :: e in list && wanted(e.path) ==> op.InvalidateOp? || op.path != e.path
    ensures Current(Keep(list, wanted), ops + [op])
  {
    var more := ops + [op];
    assert more[..|more| - 1] == ops;
    if list != [] {
      KeepsCurrent(list[1..], ops, op, wanted);
      KeepHas(list[1..], wanted);
      assert list[0] in list && forall e :: e in list[1..] ==> e in list;
      if wanted(list[0].path) {
        var kept := Keep(list, wanted);
        assert kept[1..] == Keep(list[1..], wanted);
      }
    }
  }

  lemma {:induction false} AppendsCurrent<T(!new)>(list: seq<Entry<T>>, ops: seq<Op<T>>, e: Entry<T>)
    requires Current(list, ops) && LastStored(ops, e.path) == Some(e.value)
    requires forall f :: f in list ==> LastTouch(ops, f.path) < LastTouch(ops, e.path)
    ensures Current(list + [e], ops)
  {
    if list == [] {
      assert ([] + [e])[1..] == [];
    } else {
      AppendsCurrent(list[1..], ops, e);
      assert (list + [e])[1..] == list[1..] + [e];
    }
  }

  lemma {:induction false} TailCurrent<T(!new)>(list: seq<Entry<T>>, ops: seq<Op<T>>, n: nat)
    requires Current(list, ops) && n <= |list|
    ensures Current(list[n..], ops)
    decreases n
  {
    if n == 0 {
      assert list[0..] == list;
    } else {
      TailCurrent(list[1..], ops, n - 1);
      assert list[n..] == list[1..][n - 1..];
    }
  }

  lemma {:induction false} LookupFinds<T>(list: seq<Entry<T>>, path: Path)
    ensures Lookup(list, path).Some? ==> Entry(path, Lookup(list, path).value) in list
    ensures Lookup(list, path).None? ==> forall e :: e in list ==> e.path != path
  {
    if list != [] && list[0].path != path {
      LookupFinds(list[1..], path);
    }
  }

  lemma {:induction false} CurrentHas<T(!new)>(list: seq<Entry<T>>, ops: seq<Op<T>>, e: Entry<T>)
    requires Current(list, ops) && e in list
    ensures LastStored(ops, e.path) == Some(e.value)
  {
    if list[0] != e {
      CurrentHas(list[1..], ops, e);
    }
  }

  /** The touched path moves to the end, behind everything touched before. */
  lemma MovesToEnd<T(!new)>(list: seq<Entry<T>>, ops: seq<Op<T>>, op: Op<T>, value: T)
    requires Current(list, ops) && !op.InvalidateOp? && LastStored(ops + [op], op.path) == Some(value)
    ensures Current(Without(list, op.path) + [Entry(op.path, value)], ops + [op])
  {
    var more := ops + [op];
    assert more[..|more| - 1] == ops;
    KeepsCurrent(list, ops, op, p => p != op.path);
    KeepHas(list, p => p != op.path);
    AppendsCurrent(Without(list, op.path), more, Entry(op.path, value));
  }

  lemma StoreStaysCurrent<T(!new)>(list: seq<Entry<T>>, ops: seq<Op<T>>, path: Path, value: T)
    requires Current(list, ops)
    ensures Current(Store(list, path, value), ops + [StoreOp(path, value)]) && |Store(list, path, value)| <= CACHE_LIMIT
  {
    var op := StoreOp(path, value);
    assert (ops + [op])[..|ops + [op]| - 1] == ops;
    MovesToEnd(list, ops, op, value);
    var all := Without(list, path) + [Entry(path, value)];
    if |all| > CACHE_LIMIT {
      TailCurrent(all, ops + [op], |all| - CACHE_LIMIT);
    }
  }

  lemma HitStaysCurrent<T(!new)>(list: seq<Entry<T>>, ops: seq<Op<T>>, path: Path)
    requires Current(list, ops)
    ensures Current(Touch(list, path), ops + [HitOp(path)]) && |Touch(list, path)| <= |list|
  {
    var op: Op<T> := HitOp(path);
    assert (ops + [op])[..|ops + [op]| - 1] == ops;
    LookupFinds(list, path);
    if Lookup(list, path).Some? {
      CurrentHas(list, ops, Entry(path, Lookup(list, path).value));
      MovesToEnd(list, ops, op, Lookup(list, path).value);
      LosesOne(list, path);
    } else {
      KeepsCurrent(list, ops, op, p => true);
      KeepAll(list);
    }
  }

  /**
   * After any run, the list holds at most the limit, in the order of the last touches, and every entry has the value
   * stored last for its path.
   */
  lemma {:induction false} RunIsCurrent<T(!new)>(ops: seq<Op<T>>)
    ensures Current(Run(ops), ops) && |Run(ops)| <= CACHE_LIMIT
    decreases |ops|
  {
    hide Current, Store, Touch, Unrelated;
    if ops == [] {
      NoneCurrent<T>();
    } else {
      var before, op := ops[..|ops| - 1], ops[|ops| - 1];
      var list := Run(before);
      RunIsCurrent(before);
      assert ops == before + [op];
      match op {
        case StoreOp(path, value) =>
          StoreStaysCurrent(list, before, path, value);
        case HitOp(path) =>
          HitStaysCurrent(list, before, path);
        case InvalidateOp(path) =>
          InvalidateStaysCurrent(list, before, path);
      }
    }
  }

  lemma NoneCurrent<T(!new)>()
    ensures Current<T>([], [])
  {
  }

  lemma InvalidateStaysCurrent<T(!new)>(list: seq<Entry<T>>, ops: seq<Op<T>>, path: Path)
    requires Current(list, ops)
    ensures Current(Unrelated(list, path), ops + [InvalidateOp(path)]) && |Unrelated(list, path)| <= |list|
  {
    KeepsCurrent(list, ops, InvalidateOp(path), p => !Related(p, path));
    KeepHas(list, p => !Related(p, path));
  }

  lemma {:induction false} KeepAll<T>(list: seq<Entry<T>>)
    ensures Keep(list, p => true) == list
  {
    if list != [] {
      KeepAll(list[1..]);
    }
  }

  lemma {:induction false} LosesOne<T>(list: seq<Entry<T>>, path: Path)
    requires Lookup(list, path).Some?
    ensures |Without(list, path)| < |list|
  {
    KeepHas(list[1..], p => p != path);
    if list[0].path != path {
      LosesOne(list[1..], path);
    }
  }

  /** A store that has to make room drops exactly the first entry, the one touched least recently. */
  lemma EvictsOldest<T(!new)>(ops: seq<Op<T>>, path: Path, value: T)
    requires |Run(ops)| == CACHE_LIMIT && Lookup(Run(ops), path).None?
    ensures Store(Run(ops), path, value) == Run(ops)[1..] + [Entry(path, value)]
    ensures forall e :: e in Run(ops)[1..] ==> LastTouch(ops, Run(ops)[0].path) < LastTouch(ops, e.path)
  {
    var list := Run(ops);
    RunIsCurrent(ops);
    LookupFinds(list, path);
    KeepOthers(list, path);
    assert (list + [Entry(path, value)])[1..] == list[1..] + [Entry(path, value)];
  }

  lemma {:induction false} KeepOthers<T>(list: seq<Entry<T>>, path: Path)
    requires forall e :: e in list ==> e.path != path
    ensures Without(list, path) == list
  {
    if list != [] {
      assert list[0] in list;
      KeepOthers(list[1..], path);
    }
  }

  /** After an invalidation no ancestor and no descendant of the path is left, and everything else is. */
  lemma InvalidationIsExact<T>(list: seq<Entry<T>>, path: Path, e: Entry<T>)
    ensures e in Unrelated(list, path) <==> e in list && !Related(e.path, path)
  {
    KeepHas(list, p => !Related(p, path));
  }
}
