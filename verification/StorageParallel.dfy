/** The children of the scanned directory on many workers: any order of their steps gives the sequential result. */
module StorageParallel {
  import opened Base
  import opened StorageScan

  // ---- What remains to be done -----------------------------------------------------------------------------------

  /** What a collection of steps amounts to, whatever their order: counts, inodes to claim, skips and exclusions. */
  datatype Load = Load(counts: Counts, keys: set<Inode>, skips: nat, excludes: nat)

  function NoLoad(): Load {
    Load(Zero(), {}, 0, 0)
  }

  function Add(a: Load, b: Load): Load {
    Load(Plus(a.counts, b.counts), a.keys + b.keys, a.skips + b.skips, a.excludes + b.excludes)
  }

  function LoadOf(op: Op): Load {
    match op
    case Record(c) => NoLoad().(counts := c)
    case Claim(key, size) => NoLoad().(keys := {key})
    case Settle => NoLoad().(counts := Counts(0, 1, 0))
    case Skip => NoLoad().(skips := 1)
    case Exclude => NoLoad().(excludes := 1)
  }

  function LoadOfAll(ops: seq<Op>): Load {
    if ops == [] then NoLoad() else Add(LoadOf(ops[0]), LoadOfAll(ops[1..]))
  }

  function Owed(pending: Option<nat>): Load {
    NoLoad().(counts := Counts(if pending.Some? then pending.value else 0, 0, 0))
  }

  /** The bytes of a set of inodes, each counted once. */
  ghost function Bytes(keys: set<Inode>, sizes: map<Inode, nat>): nat
    decreases |keys|
  {
    if keys == {} then 0
    else var k :| k in keys; (if k in sizes then sizes[k] else 0) + Bytes(keys - {k}, sizes)
  }

  lemma {:induction false} BytesWithout(keys: set<Inode>, sizes: map<Inode, nat>, key: Inode)
    requires key in keys
    ensures Bytes(keys, sizes) == (if key in sizes then sizes[key] else 0) + Bytes(keys - {key}, sizes)
    decreases |keys|
  {
    var k :| k in keys && Bytes(keys, sizes) == (if k in sizes then sizes[k] else 0) + Bytes(keys - {k}, sizes);
    if k != key {
      BytesWithout(keys - {k}, sizes, key);
      BytesWithout(keys - {key}, sizes, k);
      assert keys - {k} - {key} == keys - {key} - {k};
    }
  }

  /** The shared state once a load has been worked off: new inodes add their bytes, known ones add nothing. */
  ghost function After(sh: Shared, load: Load, sizes: map<Inode, nat>): Shared {
    Shared(sh.seen + load.keys,
           Plus(sh.progress, Plus(load.counts, Counts(Bytes(load.keys - sh.seen, sizes), 0, 0))),
           sh.skipped + load.skips, sh.excluded + load.excludes)
  }

  /** All links of an inode report one size. */
  predicate Agree(ops: seq<Op>, sizes: map<Inode, nat>) {
    forall op :: op in ops && op.Claim? ==> op.key in sizes && sizes[op.key] == op.size
  }

  /** Every claim is settled by the next step. */
  predicate Paired(ops: seq<Op>, owing: bool) {
    if ops == [] then !owing
    else if ops[0].Claim? then !owing && Paired(ops[1..], true)
    else if ops[0].Settle? then owing && Paired(ops[1..], false)
    else !owing && Paired(ops[1..], false)
  }

  lemma AddRegroups(a: Load, b: Load, c: Load)
    ensures Add(Add(a, b), c) == Add(a, Add(b, c))
  {
    assert a.keys + b.keys + c.keys == a.keys + (b.keys + c.keys);
  }

  lemma AddSwaps(a: Load, b: Load, c: Load)
    ensures Add(a, Add(b, c)) == Add(b, Add(a, c))
  {
    assert a.keys + (b.keys + c.keys) == b.keys + (a.keys + c.keys);
  }

  lemma AddNothing(a: Load)
    ensures Add(NoLoad(), a) == a && Add(a, NoLoad()) == a
  {
    assert {} + a.keys == a.keys && a.keys + {} == a.keys;
  }

  /** What the fields of a worked-off state are, set by set. */
  lemma SameAfter(sh: Shared, load: Load, next: Shared, left: Load, sizes: map<Inode, nat>)
    requires sh.seen + load.keys == next.seen + left.keys
    requires Plus(sh.progress, Plus(load.counts, Counts(Bytes(load.keys - sh.seen, sizes), 0, 0)))
             == Plus(next.progress, Plus(left.counts, Counts(Bytes(left.keys - next.seen, sizes), 0, 0)))
    requires sh.skipped + load.skips == next.skipped + left.skips
    requires sh.excluded + load.excludes == next.excluded + left.excludes
    ensures After(sh, load, sizes) == After(next, left, sizes)
  {
  }

  lemma NothingCounted(c: Counts, n: nat)
    requires n == 0
    ensures Plus(c, Plus(Zero(), Counts(n, 0, 0))) == c
  {
    var none := Counts(n, 0, 0);
    assert none == Zero();
    assert Plus(Zero(), none) == none;
  }

  lemma NoBytes(keys: set<Inode>, sizes: map<Inode, nat>)
    requires keys == {}
    ensures Bytes(keys, sizes) == 0
  {
  }

  lemma NothingAfter(sh: Shared, sizes: map<Inode, nat>)
    ensures After(sh, NoLoad(), sizes) == sh
  {
    hide Plus, Bytes;
    var left := NoLoad().keys - sh.seen;
    assert left == {};
    NoBytes(left, sizes);
    NothingCounted(sh.progress, Bytes(left, sizes));
    assert sh.seen + NoLoad().keys == sh.seen;
  }

  /** Claiming an inode takes its bytes out of those still to come, unless they were counted already. */
  lemma ClaimTakesBytes(key: Inode, others: set<Inode>, seen: set<Inode>, sizes: map<Inode, nat>)
    requires key in sizes
    ensures Bytes(({key} + others) - seen, sizes)
            == (if key in seen then 0 else sizes[key]) + Bytes(others - (seen + {key}), sizes)
    ensures seen + ({key} + others) == seen + {key} + others
  {
    if key in seen {
      assert ({key} + others) - seen == others - (seen + {key});
    } else {
      BytesWithout(({key} + others) - seen, sizes, key);
      assert ({key} + others) - seen - {key} == others - (seen + {key});
    }
  }

  /** One step moves its load from what remains into the shared state. */
  lemma StepWorksOff(op: Op, d: Doing, others: Load, sizes: map<Inode, nat>)
    requires op.Claim? ==> op.key in sizes && sizes[op.key] == op.size
    requires op.Settle? <==> d.pending.Some?
    ensures var next := Apply(op, d);
            && After(d.shared, Add(Add(Owed(d.pending), LoadOf(op)), others), sizes)
               == After(next.shared, Add(Owed(next.pending), others), sizes)
            && (next.pending.Some? <==> op.Claim?)
  {
    hide Bytes, After, Add, Apply, Plus, Owed, LoadOf;
    var next := Apply(op, d);
    var before := Add(Add(Owed(d.pending), LoadOf(op)), others);
    var after := Add(Owed(next.pending), others);
    StepKeys(op, d, others);
    StepSkips(op, d, others);
    if op.Claim? {
      ClaimTakesBytes(op.key, others.keys, d.shared.seen, sizes);
      ClaimCounts(op, d, others, Bytes(before.keys - d.shared.seen, sizes), Bytes(after.keys - next.shared.seen, sizes));
    } else {
      StepCounts(op, d, others, Bytes(others.keys - d.shared.seen, sizes));
    }
    SameAfter(d.shared, before, next.shared, after, sizes);
  }

  lemma StepKeys(op: Op, d: Doing, others: Load)
    ensures Add(Owed(Apply(op, d).pending), others).keys == others.keys
    ensures Add(Add(Owed(d.pending), LoadOf(op)), others).keys
            == if op.Claim? then {op.key} + others.keys else others.keys
    ensures Apply(op, d).shared.seen == if op.Claim? then d.shared.seen + {op.key} else d.shared.seen
  {
    hide Plus;
    NoKeys(others.keys);
    if op.Claim? {
      NoKeys({op.key});
    } else {
      NoKeys({});
    }
  }

  lemma StepSkips(op: Op, d: Doing, others: Load)
    requires op.Settle? <==> d.pending.Some?
    ensures var next, before := Apply(op, d), Add(Add(Owed(d.pending), LoadOf(op)), others);
            var after := Add(Owed(next.pending), others);
            && d.shared.skipped + before.skips == next.shared.skipped + after.skips
            && d.shared.excluded + before.excludes == next.shared.excluded + after.excludes
            && (next.pending.Some? <==> op.Claim?)
  {
    hide Plus;
  }

  lemma ClaimCounts(op: Op, d: Doing, others: Load, before: nat, after: nat)
    requires op.Claim? && d.pending.None? && before == (if op.key in d.shared.seen then 0 else op.size) + after
    ensures var next := Apply(op, d);
            Plus(d.shared.progress, Plus(Add(Add(Owed(d.pending), LoadOf(op)), others).counts, Counts(before, 0, 0)))
            == Plus(next.shared.progress, Plus(Add(Owed(next.pending), others).counts, Counts(after, 0, 0)))
  {
  }

  lemma StepCounts(op: Op, d: Doing, others: Load, left: nat)
    requires !op.Claim? && (op.Settle? <==> d.pending.Some?)
    ensures var next := Apply(op, d);
            Plus(d.shared.progress, Plus(Add(Add(Owed(d.pending), LoadOf(op)), others).counts, Counts(left, 0, 0)))
            == Plus(next.shared.progress, Plus(Add(Owed(next.pending), others).counts, Counts(left, 0, 0)))
  {
  }

  lemma NoKeys(keys: set<Inode>)
    ensures {} + keys == keys && keys + {} == keys
  {
  }

  /** Without interruption the whole load is worked off. */
  lemma {:induction false} AloneWorksOff(ops: seq<Op>, d: Doing, sizes: map<Inode, nat>)
    requires Agree(ops, sizes) && Paired(ops, d.pending.Some?)
    ensures Alone(ops, d).shared == After(d.shared, Add(Owed(d.pending), LoadOfAll(ops)), sizes)
    ensures Alone(ops, d).pending.None?
    decreases ops
  {
    hide Add, After, Apply;
    if ops == [] {
      AddNothing(NoLoad());
      NothingAfter(d.shared, sizes);
    } else {
      StepWorksOff(ops[0], d, LoadOfAll(ops[1..]), sizes);
      AloneWorksOff(ops[1..], Apply(ops[0], d), sizes);
      AddRegroups(Owed(d.pending), LoadOf(ops[0]), LoadOfAll(ops[1..]));
    }
  }

  /** What was added up is what the progress moved by. */
  lemma {:induction false} NodeIsProgress(ops: seq<Op>, d: Doing, base: Counts)
    requires d.shared.progress == Plus(base, d.node)
    ensures Alone(ops, d).shared.progress == Plus(base, Alone(ops, d).node)
    decreases ops
  {
    if ops != [] {
      NodeIsProgress(ops[1..], Apply(ops[0], d), base);
    }
  }

  lemma {:induction false} LoadAppends(a: seq<Op>, b: seq<Op>)
    ensures LoadOfAll(a + b) == Add(LoadOfAll(a), LoadOfAll(b))
    decreases a
  {
    hide Add, LoadOf;
    if a == [] {
      assert a + b == b;
      AddNothing(LoadOfAll(b));
    } else {
      assert (a + b)[1..] == a[1..] + b;
      LoadAppends(a[1..], b);
      AddRegroups(LoadOf(a[0]), LoadOfAll(a[1..]), LoadOfAll(b));
    }
  }

  lemma {:induction false} PairedAppends(a: seq<Op>, b: seq<Op>, owing: bool)
    requires Paired(a, owing) && Paired(b, false)
    ensures Paired(a + b, owing)
    decreases a
  {
    if a == [] {
      assert a + b == b;
    } else {
      assert (a + b)[1..] == a[1..] + b;
      PairedAppends(a[1..], b, a[0].Claim?);
    }
  }

  lemma {:induction false} StepsArePaired(t: Tree)
    ensures Paired(Steps(t), false)
    decreases t, 1
  {
    match t {
      case File(size, Some(key)) =>
        assert [Claim(key, size), Settle][1..] == [Settle] && [Settle][1..] == [];
      case Directory(size, readable, children) =>
        StepsOfAllArePaired(children);
        var first := [Record(Counts(size, 0, 1))];
        assert first[1..] == [] && [Skip][1..] == [];
        PairedAppends(first, if readable then StepsOfAll(children) else [Skip], false);
      case _ =>
        assert Steps(t)[1..] == [];
    }
  }

  lemma {:induction false} StepsOfAllArePaired(children: seq<Option<Tree>>)
    ensures Paired(StepsOfAll(children), false)
    decreases children, 0
  {
    if children != [] {
      StepsOfChildArePaired(children[0]);
      StepsOfAllArePaired(children[1..]);
      PairedAppends(StepsOfChild(children[0]), StepsOfAll(children[1..]), false);
    }
  }

  lemma {:induction false} StepsOfChildArePaired(child: Option<Tree>)
    ensures Paired(StepsOfChild(child), false)
    decreases child, 2
  {
    if child.None? {
      assert [Skip][1..] == [];
    } else {
      StepsArePaired(child.value);
    }
  }

  // ---- Many tasks ------------------------------------------------------------------------------------------------

  /** A task: the steps left, the claimed size still to be recorded, and what it has added up. */
  datatype Task = Task(rest: seq<Op>, pending: Option<nat>, node: Counts)

  function LoadOfTask(t: Task): Load {
    Add(Owed(t.pending), LoadOfAll(t.rest))
  }

  function LoadOfTasks(tasks: seq<Task>): Load {
    if tasks == [] then NoLoad() else Add(LoadOfTask(tasks[0]), LoadOfTasks(tasks[1..]))
  }

  function StepsLeft(tasks: seq<Task>): nat {
    if tasks == [] then 0 else |tasks[0].rest| + StepsLeft(tasks[1..])
  }

  function Nodes(tasks: seq<Task>): Counts {
    if tasks == [] then Zero() else Plus(tasks[0].node, Nodes(tasks[1..]))
  }

  /** Taking one task out of the sums. */
  lemma {:induction false} TaskApart(tasks: seq<Task>, i: nat)
    requires i < |tasks|
    ensures LoadOfTasks(tasks) == Add(LoadOfTask(tasks[i]), LoadOfTasks(tasks[..i] + tasks[i + 1..]))
    ensures StepsLeft(tasks) == |tasks[i].rest| + StepsLeft(tasks[..i] + tasks[i + 1..])
    ensures Nodes(tasks) == Plus(tasks[i].node, Nodes(tasks[..i] + tasks[i + 1..]))
    decreases tasks
  {
    hide Add, LoadOfTask;
    var without := tasks[..i] + tasks[i + 1..];
    if i == 0 {
      assert without == tasks[1..];
    } else {
      TaskApart(tasks[1..], i - 1);
      var rest := tasks[1..][..i - 1] + tasks[1..][i..];
      assert without == [tasks[0]] + rest;
      assert without[1..] == rest;
      AddSwaps(LoadOfTask(tasks[0]), LoadOfTask(tasks[i]), LoadOfTasks(rest));
    }
  }

  /** The state in the middle of a run: what is still to come does not depend on who comes next. */
  ghost predicate Underway(sh: Shared, tasks: seq<Task>, sizes: map<Inode, nat>, end: Shared, base: Counts) {
    && (forall t :: t in tasks ==> Agree(t.rest, sizes) && Paired(t.rest, t.pending.Some?))
    && After(sh, LoadOfTasks(tasks), sizes) == end
    && sh.progress == Plus(base, Nodes(tasks))
  }

  function Stepped(tasks: seq<Task>, i: nat, d: Doing): seq<Task>
    requires i < |tasks| && tasks[i].rest != []
  {
    tasks[i := Task(tasks[i].rest[1..], d.pending, d.node)]
  }

  function DoingOf(sh: Shared, t: Task): Doing {
    Doing(sh, t.pending, t.node)
  }

  lemma AnyStepStaysUnderway(sh: Shared, tasks: seq<Task>, i: nat, sizes: map<Inode, nat>, end: Shared, base: Counts)
    requires Underway(sh, tasks, sizes, end, base) && i < |tasks| && tasks[i].rest != []
    ensures var d := Apply(tasks[i].rest[0], DoingOf(sh, tasks[i]));
            && Underway(d.shared, Stepped(tasks, i, d), sizes, end, base)
            && StepsLeft(Stepped(tasks, i, d)) < StepsLeft(tasks)
  {
    hide LoadOfTasks, Nodes, After, StepsLeft;
    var t, op := tasks[i], tasks[i].rest[0];
    var d := Apply(op, DoingOf(sh, t));
    var more := Stepped(tasks, i, d);
    var others := tasks[..i] + tasks[i + 1..];
    assert t in tasks;
    TaskApart(tasks, i);
    TaskApart(more, i);
    assert more[..i] + more[i + 1..] == others;
    OpWorksOff(op, sh, t, LoadOfTasks(others), sizes);
    forall u | u in more
      ensures Agree(u.rest, sizes) && Paired(u.rest, u.pending.Some?)
    {
      if u != more[i] {
        var j :| 0 <= j < |more| && more[j] == u;
        assert u == tasks[j] && tasks[j] in tasks;
      }
    }
  }

  lemma OpWorksOff(op: Op, sh: Shared, t: Task, others: Load, sizes: map<Inode, nat>)
    requires t.rest != [] && op == t.rest[0] && Agree(t.rest, sizes) && Paired(t.rest, t.pending.Some?)
    ensures var d := Apply(op, DoingOf(sh, t));
            var next := Task(t.rest[1..], d.pending, d.node);
            && After(sh, Add(LoadOfTask(t), others), sizes) == After(d.shared, Add(LoadOfTask(next), others), sizes)
            && Agree(next.rest, sizes) && Paired(next.rest, next.pending.Some?)
            && (forall base: Counts, n: Counts :: sh.progress == Plus(base, Plus(t.node, n)) ==>
                  d.shared.progress == Plus(base, Plus(next.node, n)))
  {
    hide Add, After;
    var d := Apply(op, DoingOf(sh, t));
    var left := LoadOfAll(t.rest[1..]);
    StepWorksOff(op, DoingOf(sh, t), Add(left, others), sizes);
    AddRegroups(Add(Owed(t.pending), LoadOf(op)), left, others);
    AddRegroups(Owed(t.pending), LoadOf(op), left);
    AddRegroups(Owed(d.pending), left, others);
  }

  lemma {:induction false} NothingLeft(sh: Shared, tasks: seq<Task>, sizes: map<Inode, nat>, end: Shared, base: Counts)
    requires Underway(sh, tasks, sizes, end, base) && forall t :: t in tasks ==> t.rest == []
    ensures sh == end
  {
    hide After, LoadOfTasks, Nodes;
    NoLoadLeft(tasks);
    NothingAfter(sh, sizes);
  }

  lemma {:induction false} NoLoadLeft(tasks: seq<Task>)
    requires forall t :: t in tasks ==> t.rest == [] && Paired(t.rest, t.pending.Some?)
    ensures LoadOfTasks(tasks) == NoLoad()
    decreases tasks
  {
    hide Add;
    AddNothing(NoLoad());
    if tasks != [] {
      assert tasks[0] in tasks && forall t :: t in tasks[1..] ==> t in tasks;
      NoLoadLeft(tasks[1..]);
    }
  }

  // ---- What each child has to show for itself --------------------------------------------------------------------

  /** The children that can be inspected, in order. */
  function Inspected<T>(children: seq<Option<T>>): seq<T> {
    if children == [] then []
    else (if children[0].Some? then [children[0].value] else []) + Inspected(children[1..])
  }

  lemma {:induction false} InspectedAppends<T>(children: seq<Option<T>>, child: Option<T>)
    ensures Inspected(children + [child])
            == if child.Some? then Inspected(children) + [child.value] else Inspected(children)
    decreases |children|
  {
    var all := children + [child];
    if children == [] {
      assert all[1..] == [];
    } else {
      assert all[0] == children[0] && all[1..] == children[1..] + [child];
      InspectedAppends(children[1..], child);
    }
  }

  /** The entries that show anything, in order. */
  function Found(entries: seq<Counts>): seq<Counts> {
    if entries == [] then [] else (if entries[0] == Zero() then [] else [entries[0]]) + Found(entries[1..])
  }

  lemma {:induction false} FoundAppends(entries: seq<Counts>, c: Counts)
    ensures Found(entries + [c]) == Found(entries) + (if c == Zero() then [] else [c])
  {
    if entries == [] {
      assert [] + [c] == [c] && [c][1..] == [];
    } else {
      assert (entries + [c])[1..] == entries[1..] + [c];
      FoundAppends(entries[1..], c);
    }
  }

  /** What a child alone amounts to, and the bytes of the inodes it was the first to claim. */
  function ShareOf(t: Tree, mine: nat): Counts {
    Plus(LoadOfAll(Steps(t)).counts, Counts(mine, 0, 0))
  }

  /** What a task has added up and still has to add make up its child's share; it claimed only inodes of its child. */
  ghost predicate Attributed(t: Task, tree: Tree, mine: set<Inode>, sizes: map<Inode, nat>) {
    && Plus(t.node, LoadOfTask(t).counts) == ShareOf(tree, Bytes(mine, sizes))
    && mine + LoadOfTask(t).keys <= LoadOfAll(Steps(tree)).keys
  }

  ghost predicate AllAttributed(tasks: seq<Task>, trees: seq<Tree>, mine: seq<set<Inode>>, sizes: map<Inode, nat>) {
    && |tasks| == |trees| == |mine|
    && forall i :: 0 <= i < |tasks| ==> Attributed(tasks[i], trees[i], mine[i], sizes)
  }

  /** Each inode seen since `before` was claimed by exactly one task. */
  ghost predicate SharedOut(mine: seq<set<Inode>>, before: set<Inode>, seen: set<Inode>) {
    && (forall i, j :: 0 <= i < j < |mine| ==> mine[i] !! mine[j])
    && (forall i :: 0 <= i < |mine| ==> mine[i] !! before && mine[i] <= seen)
    && before <= seen
    && forall k :: k in seen && k !in before ==> exists i :: 0 <= i < |mine| && k in mine[i]
  }

  /** The inodes a task is the first to claim by its next step. */
  function Claimed(op: Op, seen: set<Inode>): set<Inode> {
    if op.Claim? && op.key !in seen then {op.key} else {}
  }

  lemma ClaimIsShared(mine: seq<set<Inode>>, before: set<Inode>, sh: Shared, i: nat, op: Op, d: Doing)
    requires SharedOut(mine, before, sh.seen) && i < |mine| && d.shared == sh
    ensures SharedOut(mine[i := mine[i] + Claimed(op, sh.seen)], before, Apply(op, d).shared.seen)
  {
    hide Plus;
    var more, seen := mine[i := mine[i] + Claimed(op, sh.seen)], Apply(op, d).shared.seen;
    forall k | k in seen && k !in before ensures exists j :: 0 <= j < |more| && k in more[j] {
      if k in sh.seen {
        var j :| 0 <= j < |mine| && k in mine[j];
        assert k in more[j];
      } else {
        assert k in more[i];
      }
    }
  }

  /** A step of a task keeps what its child has to show in the end. */
  lemma StepIsAttributed(sh: Shared, t: Task, tree: Tree, mine: set<Inode>, sizes: map<Inode, nat>)
    requires t.rest != [] && Agree(t.rest, sizes) && Paired(t.rest, t.pending.Some?)
    requires Attributed(t, tree, mine, sizes) && mine <= sh.seen
    ensures var op := t.rest[0];
            var d := Apply(op, DoingOf(sh, t));
            Attributed(Task(t.rest[1..], d.pending, d.node), tree, mine + Claimed(op, sh.seen), sizes)
  {
    hide Agree, Paired, LoadOfAll, Steps, Bytes, Plus;
    var op := t.rest[0];
    var d := Apply(op, DoingOf(sh, t));
    var next, claimed := Task(t.rest[1..], d.pending, d.node), Claimed(op, sh.seen);
    TaskLoads(t, op, sizes);
    if claimed != {} {
      BytesWithout(mine + claimed, sizes, op.key);
      assert mine + claimed - {op.key} == mine;
    } else {
      assert mine + claimed == mine;
    }
    StepBalances(op, DoingOf(sh, t), LoadOfAll(next.rest));
    BytesAdded(LoadOfAll(Steps(tree)).counts, Bytes(mine, sizes), Bytes(mine + claimed, sizes) - Bytes(mine, sizes));
  }

  lemma TaskLoads(t: Task, op: Op, sizes: map<Inode, nat>)
    requires t.rest != [] && op == t.rest[0] && Agree(t.rest, sizes) && Paired(t.rest, t.pending.Some?)
    ensures LoadOfTask(t) == Add(Owed(t.pending), Add(LoadOf(op), LoadOfAll(t.rest[1..])))
    ensures op.Settle? <==> t.pending.Some?
    ensures op.Claim? ==> op.key in sizes && sizes[op.key] == op.size
  {
    hide Add;
  }

  lemma BytesAdded(c: Counts, before: nat, more: nat)
    ensures Plus(Plus(c, Counts(before, 0, 0)), Counts(more, 0, 0)) == Plus(c, Counts(before + more, 0, 0))
  {
  }

  /** One step moves what was owed into what was added up; a first claim adds the inode's bytes to what is owed. */
  lemma StepBalances(op: Op, d: Doing, rest: Load)
    requires op.Settle? <==> d.pending.Some?
    ensures var next := Apply(op, d);
            && Plus(next.node, Add(Owed(next.pending), rest).counts)
               == Plus(Plus(d.node, Add(Owed(d.pending), Add(LoadOf(op), rest)).counts),
                       Counts(if op.Claim? && op.key !in d.shared.seen then op.size else 0, 0, 0))
            && Add(Owed(next.pending), rest).keys + Claimed(op, d.shared.seen)
               <= Add(Owed(d.pending), Add(LoadOf(op), rest)).keys
  {
  }

  /** The entries are the children's shares: counts of its own, and the bytes of the inodes that fell to it. */
  ghost predicate EntriesAreShares(entries: seq<Counts>, trees: seq<Tree>, mine: seq<set<Inode>>, sizes: map<Inode, nat>) {
    && |entries| == |trees| == |mine|
    && forall i :: 0 <= i < |entries| ==>
         entries[i] == ShareOf(trees[i], Bytes(mine[i], sizes)) && mine[i] <= LoadOfAll(Steps(trees[i])).keys
  }

  lemma NothingOwed(t: Task, tree: Tree, mine: set<Inode>, sizes: map<Inode, nat>)
    requires t.rest == [] && Paired(t.rest, t.pending.Some?) && Attributed(t, tree, mine, sizes)
    ensures t.node == ShareOf(tree, Bytes(mine, sizes)) && mine <= LoadOfAll(Steps(tree)).keys
  {
    hide Steps, Bytes;
    assert LoadOfTask(t) == NoLoad();
    PlusNothing(t.node);
  }

  lemma TasksShow(tasks: seq<Task>, entries: seq<Counts>, trees: seq<Tree>, mine: seq<set<Inode>>, sizes: map<Inode, nat>)
    requires forall t :: t in tasks ==> t.rest == [] && Paired(t.rest, t.pending.Some?)
    requires AllAttributed(tasks, trees, mine, sizes) && EntriesShow(entries, tasks)
    ensures EntriesAreShares(entries, trees, mine, sizes)
  {
    hide Attributed, ShareOf;
    forall i | 0 <= i < |entries|
      ensures entries[i] == ShareOf(trees[i], Bytes(mine[i], sizes)) && mine[i] <= LoadOfAll(Steps(trees[i])).keys
    {
      assert tasks[i] in tasks;
      NothingOwed(tasks[i], trees[i], mine[i], sizes);
    }
  }

  lemma FreshIsAttributed(tree: Tree, sizes: map<Inode, nat>)
    ensures Attributed(Task(Steps(tree), None, Zero()), tree, {}, sizes)
  {
    hide Steps, LoadOfAll;
    var t := Task(Steps(tree), None, Zero());
    FreshLoad(t);
    NoBytes({}, sizes);
    assert {} + LoadOfTask(t).keys == LoadOfTask(t).keys;
    NothingCountedYet(LoadOfTask(t).counts);
  }

  lemma NothingCountedYet(c: Counts)
    ensures Plus(Zero(), c) == Plus(c, Counts(0, 0, 0))
  {
  }

  // ---- The scan of a directory on many workers -------------------------------------------------------------------

  function Total(counts: seq<Counts>): Counts {
    if counts == [] then Zero() else Plus(counts[0], Total(counts[1..]))
  }

  lemma {:induction false} TotalAppends(counts: seq<Counts>, c: Counts)
    ensures Total(counts + [c]) == Plus(Total(counts), c)
    decreases counts
  {
    if counts == [] {
      assert [] + [c] == [c] && [c][1..] == [];
      assert Plus(c, Zero()) == c && Plus(Zero(), c) == c;
    } else {
      assert (counts + [c])[1..] == counts[1..] + [c];
      TotalAppends(counts[1..], c);
    }
  }

  lemma {:induction false} TasksAppend(tasks: seq<Task>, t: Task)
    ensures LoadOfTasks(tasks + [t]) == Add(LoadOfTasks(tasks), LoadOfTask(t))
    ensures Nodes(tasks + [t]) == Plus(Nodes(tasks), t.node)
    decreases tasks
  {
    hide Add, Plus, LoadOfTask;
    if tasks == [] {
      assert [] + [t] == [t] && [t][1..] == [];
      AddNothing(LoadOfTask(t));
      PlusNothing(t.node);
    } else {
      assert (tasks + [t])[1..] == tasks[1..] + [t];
      TasksAppend(tasks[1..], t);
      AddRegroups(LoadOfTask(tasks[0]), LoadOfTasks(tasks[1..]), LoadOfTask(t));
      PlusRegroups(tasks[0].node, Nodes(tasks[1..]), t.node);
    }
  }

  lemma PlusNothing(c: Counts)
    ensures Plus(c, Zero()) == c && Plus(Zero(), c) == c
  {
  }

  lemma PlusRegroups(a: Counts, b: Counts, c: Counts)
    ensures Plus(Plus(a, b), c) == Plus(a, Plus(b, c))
  {
  }

  /** What a step adds to the entry of its task. */
  function Recorded(op: Op, pending: Option<nat>): Counts {
    match op
    case Record(c) => c
    case Settle => Counts(if pending.Some? then pending.value else 0, 1, 0)
    case _ => Zero()
  }

  lemma RecordedIsAdded(op: Op, d: Doing)
    ensures Apply(op, d).node == Plus(d.node, Recorded(op, d.pending))
  {
  }

  /** The entries shown while the scan runs hold what their tasks have added up. */
  ghost predicate EntriesShow(entries: seq<Counts>, tasks: seq<Task>) {
    |entries| == |tasks| && forall i :: 0 <= i < |tasks| ==> entries[i] == tasks[i].node
  }

  /** A fresh task's load joins those before it; a child without information is skipped at once. */
  lemma ChildQueued(sh: Shared, tasks: seq<Task>, children: seq<Option<Tree>>, i: nat, sizes: map<Inode, nat>)
    requires i < |children| && Agree(StepsOfAll(children[i..]), sizes)
    ensures Agree(StepsOfAll(children[i + 1..]), sizes)
    ensures children[i].None? ==>
              After(sh, Add(LoadOfTasks(tasks), LoadOfAll(StepsOfAll(children[i..]))), sizes)
              == After(sh.(skipped := sh.skipped + 1),
                       Add(LoadOfTasks(tasks), LoadOfAll(StepsOfAll(children[i + 1..]))), sizes)
    ensures children[i].Some? ==>
              var t := Task(Steps(children[i].value), None, Zero());
              && Agree(t.rest, sizes) && Paired(t.rest, false)
              && Add(LoadOfTasks(tasks), LoadOfAll(StepsOfAll(children[i..])))
                 == Add(LoadOfTasks(tasks + [t]), LoadOfAll(StepsOfAll(children[i + 1..])))
              && Nodes(tasks + [t]) == Nodes(tasks)
  {
    hide Add, After, LoadOfTasks, Nodes, Plus, Steps, LoadOfAll;
    var steps, rest := StepsOfChild(children[i]), StepsOfAll(children[i + 1..]);
    assert children[i..][0] == children[i] && children[i..][1..] == children[i + 1..];
    assert StepsOfAll(children[i..]) == steps + rest;
    assert forall op :: op in rest ==> op in steps + rest;
    assert forall op :: op in steps ==> op in steps + rest;
    LoadAppends(steps, rest);
    if children[i].None? {
      SkipMoves(sh, LoadOfTasks(tasks), LoadOfAll(rest), sizes);
    } else {
      var t := Task(Steps(children[i].value), None, Zero());
      StepsArePaired(children[i].value);
      TasksAppend(tasks, t);
      PlusNothing(Nodes(tasks));
      FreshLoad(t);
      AddRegroups(LoadOfTasks(tasks), LoadOfAll(steps), LoadOfAll(rest));
    }
  }

  lemma FreshLoad(t: Task)
    requires t.pending.None?
    ensures LoadOfTask(t) == LoadOfAll(t.rest)
  {
    AddNothing(LoadOfAll(t.rest));
    assert Owed(None) == NoLoad();
  }

  lemma SkipMoves(sh: Shared, queued: Load, rest: Load, sizes: map<Inode, nat>)
    ensures After(sh, Add(queued, Add(LoadOfAll([Skip]), rest)), sizes)
            == After(sh.(skipped := sh.skipped + 1), Add(queued, rest), sizes)
  {
    hide Add, After, Plus;
    var skip, others := LoadOf(Skip), Add(queued, rest);
    assert LoadOfAll([Skip]) == Add(skip, LoadOfAll([])) by {
      assert [Skip][1..] == [];
    }
    AddNothing(skip);
    AddSwaps(queued, skip, rest);
    StepWorksOff(Skip, Fresh(sh), others, sizes);
    assert Owed(None) == NoLoad();
    AddNothing(others);
  }

  /**
   * The children of the scanned directory on any number of workers, whose steps happen in any order: the shared
   * state and the totals end as if one worker had done it all. Each child that can be inspected has its entry, with
   * its own counts and the bytes of the inodes that fell to it (`mine`), and those that found anything are listed.
   */
  method ScanChildrenParallel(s: Scanner, own: Counts, children: seq<Option<Tree>>, ghost sizes: map<Inode, nat>)
    returns (node: Counts, listed: seq<Counts>, ghost mine: seq<set<Inode>>)
    requires Agree(StepsOfAll(children), sizes)
    modifies s
    ensures var alone := Alone(StepsOfAll(children), Fresh(old(s.shared)));
            && s.shared == alone.shared
            && node == Plus(own, alone.node)
            && Total(s.entries) == alone.node && Total(listed) == alone.node
            && s.shared.progress == Plus(old(s.shared).progress, alone.node)
    ensures listed == Found(s.entries) && EntriesAreShares(s.entries, Inspected(children), mine, sizes)
    ensures SharedOut(mine, old(s.shared).seen, s.shared.seen)
  {
    hide LoadOfTasks, Nodes, After, Add, StepsOfAll, Alone, Agree, Paired, StepsLeft, Plus, Total, Steps, LoadOfAll,
      Apply, Inspected, Found, AllAttributed, EntriesAreShares, SharedOut, Claimed;
    ghost var base, steps := s.shared.progress, StepsOfAll(children);
    ghost var alone := Alone(steps, Fresh(s.shared));
    StartsUnderway(s.shared, children, sizes);
    var tasks: seq<Task> := [];
    s.entries, mine := [], [];
    ghost var before := s.shared.seen;
    NothingShared(before, sizes);
    assert children[..0] == [];
    for i := 0 to |children|
      invariant Agree(StepsOfAll(children[i..]), sizes)
      invariant After(s.shared, Add(LoadOfTasks(tasks), LoadOfAll(StepsOfAll(children[i..]))), sizes) == alone.shared
      invariant forall t :: t in tasks ==> Agree(t.rest, sizes) && Paired(t.rest, t.pending.Some?)
      invariant s.shared.progress == Plus(base, Nodes(tasks)) && EntriesShow(s.entries, tasks)
      invariant AllAttributed(tasks, Inspected(children[..i]), mine, sizes)
      invariant SharedOut(mine, before, s.shared.seen) && s.shared.seen == before
    {
      ChildQueued(s.shared, tasks, children, i, sizes);
      assert children[..i + 1] == children[..i] + [children[i]];
      InspectedAppends(children[..i], children[i]);
      if children[i].None? {
        s.shared := s.shared.(skipped := s.shared.skipped + 1);
      } else {
        FreshTask(tasks, Inspected(children[..i]), mine, before, children[i].value, sizes);
        tasks := tasks + [Task(Steps(children[i].value), None, Zero())];
        s.entries := s.entries + [Zero()];
        mine := mine + [{}];
      }
    }
    AllQueued(s.shared, tasks, children, sizes);
    assert children[..|children|] == children;
    while exists i :: 0 <= i < |tasks| && tasks[i].rest != []
      invariant Underway(s.shared, tasks, sizes, alone.shared, base) && EntriesShow(s.entries, tasks)
      invariant AllAttributed(tasks, Inspected(children), mine, sizes) && SharedOut(mine, before, s.shared.seen)
      decreases StepsLeft(tasks)
    {
      var i :| 0 <= i < |tasks| && tasks[i].rest != [];
      AnyStepStaysUnderway(s.shared, tasks, i, sizes, alone.shared, base);
      var op := tasks[i].rest[0];
      var d := DoingOf(s.shared, tasks[i]);
      RecordedIsAdded(op, d);
      AnyStepIsAttributed(s.shared, tasks, Inspected(children), mine, before, i, sizes);
      mine := mine[i := mine[i] + Claimed(op, s.shared.seen)];
      s.entries := s.entries[i := Plus(s.entries[i], Recorded(op, d.pending))];
      d := Apply(op, d);
      s.shared, tasks := d.shared, Stepped(tasks, i, d);
    }
    NothingLeft(s.shared, tasks, sizes, alone.shared, base);
    TasksShow(tasks, s.entries, Inspected(children), mine, sizes);
    node, listed := Collect(s, own, tasks);
    SameNode(steps, old(s.shared), base, Nodes(tasks));
  }

  lemma NothingShared(before: set<Inode>, sizes: map<Inode, nat>)
    ensures AllAttributed([], Inspected([]), [], sizes) && SharedOut([], before, before)
  {
  }

  lemma FreshTask(tasks: seq<Task>, trees: seq<Tree>, mine: seq<set<Inode>>, before: set<Inode>, tree: Tree,
                  sizes: map<Inode, nat>)
    requires AllAttributed(tasks, trees, mine, sizes) && SharedOut(mine, before, before)
    ensures AllAttributed(tasks + [Task(Steps(tree), None, Zero())], trees + [tree], mine + [{}], sizes)
    ensures SharedOut(mine + [{}], before, before)
  {
    hide Attributed, Steps;
    FreshIsAttributed(tree, sizes);
  }

  lemma AnyStepIsAttributed(sh: Shared, tasks: seq<Task>, trees: seq<Tree>, mine: seq<set<Inode>>, before: set<Inode>,
                            i: nat, sizes: map<Inode, nat>)
    requires AllAttributed(tasks, trees, mine, sizes) && SharedOut(mine, before, sh.seen)
    requires i < |tasks| && tasks[i].rest != []
    requires Agree(tasks[i].rest, sizes) && Paired(tasks[i].rest, tasks[i].pending.Some?)
    ensures i < |mine|
    ensures var op := tasks[i].rest[0];
            var d := Apply(op, DoingOf(sh, tasks[i]));
            var more := mine[i := mine[i] + Claimed(op, sh.seen)];
            AllAttributed(Stepped(tasks, i, d), trees, more, sizes) && SharedOut(more, before, d.shared.seen)
  {
    hide Attributed, Agree, Paired, Apply;
    StepIsAttributed(sh, tasks[i], trees[i], mine[i], sizes);
    ClaimIsShared(mine, before, sh, i, tasks[i].rest[0], DoingOf(sh, tasks[i]));
  }

  lemma StartsUnderway(sh: Shared, children: seq<Option<Tree>>, sizes: map<Inode, nat>)
    requires Agree(StepsOfAll(children), sizes)
    ensures After(sh, Add(LoadOfTasks([]), LoadOfAll(StepsOfAll(children[0..]))), sizes)
            == Alone(StepsOfAll(children), Fresh(sh)).shared
    ensures children[0..] == children && sh.progress == Plus(sh.progress, Nodes([]))
  {
    hide Add, After, StepsOfAll;
    StepsOfAllArePaired(children);
    AloneWorksOff(StepsOfAll(children), Fresh(sh), sizes);
    assert children[0..] == children;
    assert Owed(None) == NoLoad() && LoadOfTasks([]) == NoLoad();
    PlusNothing(sh.progress);
  }

  lemma AllQueued(sh: Shared, tasks: seq<Task>, children: seq<Option<Tree>>, sizes: map<Inode, nat>)
    ensures Add(LoadOfTasks(tasks), LoadOfAll(StepsOfAll(children[|children|..]))) == LoadOfTasks(tasks)
  {
    hide Add;
    assert children[|children|..] == [];
    AddNothing(LoadOfTasks(tasks));
  }

  lemma SameNode(steps: seq<Op>, sh: Shared, base: Counts, nodes: Counts)
    requires base == sh.progress && Alone(steps, Fresh(sh)).shared.progress == Plus(base, nodes)
    ensures Alone(steps, Fresh(sh)).node == nodes
  {
    hide Alone;
    NodeIsProgress(steps, Fresh(sh), base);
  }

  lemma NothingFound()
    ensures Found([]) == []
  {
  }

  /** Adds up the tasks and lists those that found anything. */
  method Collect(s: Scanner, own: Counts, tasks: seq<Task>) returns (node: Counts, listed: seq<Counts>)
    requires EntriesShow(s.entries, tasks)
    modifies s`entries
    ensures s.entries == old(s.entries)
    ensures node == Plus(own, Nodes(tasks)) && Total(listed) == Nodes(tasks) && Total(s.entries) == Nodes(tasks)
    ensures listed == Found(s.entries)
  {
    hide Plus, Found;
    NothingFound();
    node, listed := own, [];
    ghost var sums: seq<Counts> := [];
    PlusNothing(own);
    assert tasks[..0] == [];
    for i := 0 to |tasks|
      invariant EntriesShow(s.entries, tasks) && s.entries == old(s.entries)
      invariant node == Plus(own, Nodes(tasks[..i]))
      invariant Total(listed) == Nodes(tasks[..i]) && Total(s.entries[..i]) == Nodes(tasks[..i])
      invariant listed == Found(s.entries[..i])
    {
      var child := tasks[i].node;
      assert tasks[..i + 1] == tasks[..i] + [tasks[i]];
      assert s.entries[..i + 1] == s.entries[..i] + [child];
      TasksAppend(tasks[..i], tasks[i]);
      TotalAppends(s.entries[..i], child);
      FoundAppends(s.entries[..i], child);
      TotalAppends(listed, child);
      PlusRegroups(own, Nodes(tasks[..i]), child);
      PlusNothing(Total(listed));
      node := Plus(node, child);
      if child.size != 0 || child.files != 0 || child.directories != 0 {
        s.entries := s.entries[i := child];
        listed := listed + [child];
      } else {
        assert child == Zero();
      }
    }
    assert tasks[..|tasks|] == tasks && s.entries[..|tasks|] == s.entries;
  }

  /** The scan of a whole directory: its own size, then its children on many workers. */
  method ScanRoot(s: Scanner, size: nat, readable: bool, children: seq<Option<Tree>>, ghost sizes: map<Inode, nat>)
    returns (node: Counts, listed: seq<Counts>, ghost mine: seq<set<Inode>>)
    requires s.shared == Shared({}, Zero(), 0, 0)
    requires Agree(StepsOfAll(children), sizes)
    modifies s
    ensures var alone := Alone(Steps(Directory(size, readable, children)), Fresh(old(s.shared)));
            s.shared == alone.shared && node == alone.node
    ensures s.shared.progress == node
    ensures node == Plus(Counts(size, 0, 1), Total(listed)) && (readable ==> Total(s.entries) == Total(listed))
    ensures if readable then listed == Found(s.entries) else listed == []
    ensures readable ==>
              && EntriesAreShares(s.entries, Inspected(children), mine, sizes)
              && SharedOut(mine, {}, s.shared.seen)
  {
    hide Alone, StepsOfAll, Total, Plus, EntriesAreShares, SharedOut, Inspected, Found;
    ghost var start := Fresh(s.shared);
    var own := Counts(size, 0, 1);
    s.RecordProgress(None, own);
    PlusNothing(own);
    ghost var rest := if readable then StepsOfAll(children) else [Skip];
    AloneInParts([Record(own)], rest, start);
    OneAlone(Record(own), start);
    ghost var mid := Doing(s.shared, None, own);
    assert Alone([Record(own)], start) == mid;
    NodeStartsAnywhere(rest, Fresh(s.shared), own);
    if !readable {
      s.shared := s.shared.(skipped := s.shared.skipped + 1);
      OneAlone(Skip, mid);
      node, listed, mine := own, [], [];
      assert Total([]) == Zero() by { NoTotal(); }
      return;
    }
    node, listed, mine := ScanChildrenParallel(s, own, children, sizes);
  }

  lemma NoTotal()
    ensures Total([]) == Zero()
  {
  }

  /** The totals of a scan: every inode with several names counts its bytes once. */
  lemma TotalsCountInodesOnce(t: Tree, sizes: map<Inode, nat>)
    requires Agree(Steps(t), sizes)
    ensures var load := LoadOfAll(Steps(t));
            Alone(Steps(t), Fresh(Shared({}, Zero(), 0, 0))).node
            == Plus(load.counts, Counts(Bytes(load.keys, sizes), 0, 0))
  {
    hide Steps, Alone, Plus, Bytes, LoadOfAll;
    var sh := Shared({}, Zero(), 0, 0);
    var load := LoadOfAll(Steps(t));
    StepsArePaired(t);
    AloneWorksOff(Steps(t), Fresh(sh), sizes);
    PlusNothing(Zero());
    NodeIsProgress(Steps(t), Fresh(sh), Zero());
    AddNothing(load);
    assert Owed(None) == NoLoad();
    assert load.keys - {} == load.keys;
    PlusNothing(Plus(load.counts, Counts(Bytes(load.keys, sizes), 0, 0)));
    PlusNothing(Alone(Steps(t), Fresh(sh)).node);
  }
}
