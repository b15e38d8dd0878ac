/** Measuring a directory tree: one worker at a time, or many at once over shared counters and a shared set of inodes. */
module StorageScan {
  import opened Base

  /** What identifies a file over all its names. */
  datatype Inode = Inode(device: nat, number: nat)

  /**
   * A tree as the scan meets it. `Other` stands for symbolic links, which are skipped, and `Mount` for excluded mounts.
   * A file with several links carries the key of its inode. A child without information cannot be inspected.
   */
  datatype Tree =
    | Other
    | Mount
    | File(size: nat, key: Option<Inode>)
    | Directory(size: nat, readable: bool, children: seq<Option<Tree>>)

  datatype Counts = Counts(size: nat, files: nat, directories: nat)

  function Zero(): Counts {
    Counts(0, 0, 0)
  }

  function Plus(a: Counts, b: Counts): Counts {
    Counts(a.size + b.size, a.files + b.files, a.directories + b.directories)
  }

  // ---- Atomic steps ----------------------------------------------------------------------------------------------

  /** What a worker does to the shared state, one lock at a time. `Settle` records the file claimed just before. */
  datatype Op = Record(counts: Counts) | Claim(key: Inode, size: nat) | Settle | Skip | Exclude

  /** The state behind the scanner's lock. */
  datatype Shared = Shared(seen: set<Inode>, progress: Counts, skipped: nat, excluded: nat)

  /** What a worker's steps change: the shared state, a claimed size still to be recorded, what it has added up. */
  datatype Doing = Doing(shared: Shared, pending: Option<nat>, node: Counts)

  function Tally(d: Doing, c: Counts): Doing {
    d.(shared := d.shared.(progress := Plus(d.shared.progress, c)), node := Plus(d.node, c))
  }

  function Apply(op: Op, d: Doing): Doing {
    match op
    case Record(c) => Tally(d, c)
    case Claim(key, size) =>
      d.(shared := d.shared.(seen := d.shared.seen + {key}), pending := Some(if key in d.shared.seen then 0 else size))
    case Settle => Tally(d, Counts(if d.pending.Some? then d.pending.value else 0, 1, 0)).(pending := None)
    case Skip => d.(shared := d.shared.(skipped := d.shared.skipped + 1))
    case Exclude => d.(shared := d.shared.(excluded := d.shared.excluded + 1))
  }

  /** The steps for a tree and for the children of a directory. */
  function Steps(t: Tree): seq<Op>
    decreases t
  {
    match t
    case Other => [Skip]
    case Mount => [Exclude]
    case File(size, None) => [Record(Counts(size, 1, 0))]
    case File(size, Some(key)) => [Claim(key, size), Settle]
    case Directory(size, readable, children) =>
      [Record(Counts(size, 0, 1))] + if readable then StepsOfAll(children) else [Skip]
  }

  function StepsOfAll(children: seq<Option<Tree>>): seq<Op>
    decreases children
  {
    if children == [] then [] else StepsOfChild(children[0]) + StepsOfAll(children[1..])
  }

  function StepsOfChild(child: Option<Tree>): seq<Op>
    decreases child
  {
    if child.None? then [Skip] else Steps(child.value)
  }

  /** A worker that is never interrupted. */
  function Alone(ops: seq<Op>, d: Doing): Doing {
    if ops == [] then d else Alone(ops[1..], Apply(ops[0], d))
  }

  lemma {:induction false} AloneInParts(a: seq<Op>, b: seq<Op>, d: Doing)
    ensures Alone(a + b, d) == Alone(b, Alone(a, d))
    decreases a
  {
    if a == [] {
      assert a + b == b;
    } else {
      assert (a + b)[1..] == a[1..] + b;
      AloneInParts(a[1..], b, Apply(a[0], d));
    }
  }

  /** What a worker adds up does not depend on what it had before. */
  lemma {:induction false} NodeStartsAnywhere(ops: seq<Op>, d: Doing, node: Counts)
    ensures Alone(ops, d.(node := Plus(node, d.node))) == Alone(ops, d).(node := Plus(node, Alone(ops, d).node))
    decreases ops
  {
    if ops != [] {
      NodeStartsAnywhere(ops[1..], Apply(ops[0], d), node);
    }
  }

  function Fresh(sh: Shared): Doing {
    Doing(sh, None, Zero())
  }

  // ---- The scanner -----------------------------------------------------------------------------------------------

  class Scanner {
    var shared: Shared
    var entries: seq<Counts>

    constructor ()
      ensures shared == Shared({}, Zero(), 0, 0) && entries == []
    {
      shared, entries := Shared({}, Zero(), 0, 0), [];
    }

    method ClaimFile(key: Inode) returns (first: bool)
      modifies this`shared
      ensures first == (key !in old(shared).seen)
      ensures shared == old(shared).(seen := old(shared).seen + {key})
    {
      if key in shared.seen {
        assert shared.seen + {key} == shared.seen;
        return false;
      }
      shared := shared.(seen := shared.seen + {key});
      first := true;
    }

    method RecordProgress(entry: Option<nat>, c: Counts)
      requires entry.Some? ==> entry.value < |entries|
      modifies this
      ensures shared == old(shared).(progress := Plus(old(shared).progress, c))
      ensures entries == if entry.Some? then old(entries)[entry.value := Plus(old(entries)[entry.value], c)]
                         else old(entries)
    {
      shared := shared.(progress := Plus(shared.progress, c));
      if entry.Some? {
        entries := entries[entry.value := Plus(entries[entry.value], c)];
      }
    }

    /** Scans one tree without interruption: the effect is that of its steps, and the entry moves by the result. */
    method ScanEntry(t: Tree, entry: nat) returns (node: Counts)
      requires entry < |entries|
      modifies this
      ensures Doing(shared, None, node) == Alone(Steps(t), Fresh(old(shared)))
      ensures entries == old(entries)[entry := Plus(old(entries)[entry], node)]
      decreases t, 2
    {
      match t {
        case Other =>
          shared, node := shared.(skipped := shared.skipped + 1), Zero();
        case Mount =>
          shared, node := shared.(excluded := shared.excluded + 1), Zero();
        case File(size, None) =>
          node := Counts(size, 1, 0);
          RecordProgress(Some(entry), node);
        case File(size, Some(key)) =>
          var first := ClaimFile(key);
          node := Counts(if first then size else 0, 1, 0);
          RecordProgress(Some(entry), node);
          ClaimedAlone(key, size, Fresh(old(shared)));
        case Directory(size, readable, children) =>
          node := ScanDirectory(size, readable, children, entry);
      }
    }

    method ScanDirectory(size: nat, readable: bool, children: seq<Option<Tree>>, entry: nat) returns (node: Counts)
      requires entry < |entries|
      modifies this
      ensures Doing(shared, None, node) == Alone(Steps(Directory(size, readable, children)), Fresh(old(shared)))
      ensures entries == old(entries)[entry := Plus(old(entries)[entry], node)]
      decreases children, 1
    {
      hide Alone, StepsOfAll;
      node := Counts(size, 0, 1);
      RecordProgress(Some(entry), node);
      ghost var mid := Doing(shared, None, node);
      ghost var rest := if readable then StepsOfAll(children) else [Skip];
      AloneInParts([Record(node)], rest, Fresh(old(shared)));
      OneAlone(Record(node), Fresh(old(shared)));
      if !readable {
        shared := shared.(skipped := shared.skipped + 1);
        OneAlone(Skip, mid);
        return;
      }
      NodeStartsAnywhere(rest, Fresh(shared), node);
      var below := ScanChildren(children, entry);
      node := Plus(node, below);
    }

    method ScanChild(child: Option<Tree>, entry: nat) returns (node: Counts)
      requires entry < |entries|
      modifies this
      ensures Doing(shared, None, node) == Alone(StepsOfChild(child), Fresh(old(shared)))
      ensures entries == old(entries)[entry := Plus(old(entries)[entry], node)]
      decreases child, 2
    {
      if child.None? {
        shared, node := shared.(skipped := shared.skipped + 1), Zero();
      } else {
        node := ScanEntry(child.value, entry);
      }
    }

    /** The children of a directory, one after the other. */
    method ScanChildren(children: seq<Option<Tree>>, entry: nat) returns (node: Counts)
      requires entry < |entries|
      modifies this
      ensures Doing(shared, None, node) == Alone(StepsOfAll(children), Fresh(old(shared)))
      ensures entries == old(entries)[entry := Plus(old(entries)[entry], node)]
      decreases children, 0
    {
      hide Alone, StepsOfAll;
      node := Zero();
      ghost var before := entries[entry];
      assert children[0..] == children;
      for i := 0 to |children|
        invariant entry < |entries|
        invariant entries == old(entries)[entry := Plus(before, node)]
        invariant Alone(StepsOfAll(children[i..]), Doing(shared, None, node))
                  == Alone(StepsOfAll(children), Fresh(old(shared)))
      {
        ghost var d := Doing(shared, None, node);
        NextChild(children, i, d);
        NodeStartsAnywhere(StepsOfChild(children[i]), Fresh(shared), node);
        var child := ScanChild(children[i], entry);
        node := Plus(node, child);
      }
      assert children[|children|..] == [];
      NoneAlone(Doing(shared, None, node));
    }
  }

  lemma ClaimedAlone(key: Inode, size: nat, d: Doing)
    ensures Alone([Claim(key, size), Settle], d) == Apply(Settle, Apply(Claim(key, size), d))
  {
    var ops := [Claim(key, size), Settle];
    assert ops[1..] == [Settle];
    OneAlone(Settle, Apply(Claim(key, size), d));
  }

  lemma OneAlone(op: Op, d: Doing)
    ensures Alone([op], d) == Apply(op, d)
  {
    assert [op][1..] == [];
  }

  lemma NoneAlone(d: Doing)
    ensures Alone(StepsOfAll([]), d) == d
  {
  }

  lemma NextChild(children: seq<Option<Tree>>, i: nat, d: Doing)
    requires i < |children|
    ensures Alone(StepsOfAll(children[i..]), d) == Alone(StepsOfAll(children[i + 1..]), Alone(StepsOfChild(children[i]), d))
  {
    assert children[i..][0] == children[i] && children[i..][1..] == children[i + 1..];
    AloneInParts(StepsOfChild(children[i]), StepsOfAll(children[i + 1..]), d);
  }
}
