/** From hashed files to groups of duplicates: grouping, the order within a group, and the space that can be saved. */
module DuplicateGroups {
  import opened Base

  datatype Candidate = Candidate(path: string, size: nat, occupied: nat, mode: nat, owner: Option<(nat, nat)>)

  /** A candidate with its hash, unless it could not be read. */
  datatype Hashed = Hashed(candidate: Candidate, hash: Option<string>)

  /** What all copies of a group have in common. */
  datatype Key = Key(size: nat, hash: string, mode: nat, owner: Option<(nat, nat)>)

  datatype Copy = Copy(path: string, occupied: nat)

  datatype Group = Group(hash: string, size: nat, copies: seq<Copy>, keep: nat, reclaimable: nat)

  // ---- The order within a group ----------------------------------------------------------------------------------

  function Depth(path: string): nat {
    if path == "" then 0 else (if path[0] == '/' then 1 else 0) + Depth(path[1..])
  }

  predicate Less(a: string, b: string) {
    if b == "" then false
    else if a == "" then true
    else a[0] < b[0] || (a[0] == b[0] && Less(a[1..], b[1..]))
  }

  /** Shallow paths first, then short ones, then by name. */
  predicate Before(a: string, b: string) {
    if Depth(a) != Depth(b) then Depth(a) < Depth(b)
    else if |a| != |b| then |a| < |b|
    else Less(a, b)
  }

  lemma {:induction false} LessIsTotal(a: string, b: string)
    ensures a == b || Less(a, b) || Less(b, a)
    ensures !(Less(a, b) && Less(b, a)) && !Less(a, a)
    decreases a
  {
    if a != "" {
      LessIsTotal(a[1..], a[1..]);
      if b != "" && a[0] == b[0] {
        LessIsTotal(a[1..], b[1..]);
        assert a == [a[0]] + a[1..] && b == [b[0]] + b[1..];
      }
    }
  }

  lemma {:induction false} LessIsTransitive(a: string, b: string, c: string)
    requires Less(a, b) && Less(b, c)
    ensures Less(a, c)
    decreases a
  {
    if a != "" && a[0] == b[0] && b[0] == c[0] {
      LessIsTransitive(a[1..], b[1..], c[1..]);
    }
  }

  lemma BeforeIsTotal(a: string, b: string)
    ensures a == b || Before(a, b) || Before(b, a)
    ensures !(Before(a, b) && Before(b, a)) && !Before(a, a)
  {
    LessIsTotal(a, b);
    LessIsTotal(a, a);
  }

  lemma BeforeIsTransitive(a: string, b: string, c: string)
    requires Before(a, b) && Before(b, c)
    ensures Before(a, c)
  {
    if Depth(a) == Depth(b) == Depth(c) && |a| == |b| == |c| {
      LessIsTransitive(a, b, c);
    }
  }

  function Insert(c: Copy, sorted: seq<Copy>): seq<Copy> {
    if sorted == [] || Before(c.path, sorted[0].path) then [c] + sorted else [sorted[0]] + Insert(c, sorted[1..])
  }

  function Sort(copies: seq<Copy>): seq<Copy> {
    if copies == [] then [] else Insert(copies[0], Sort(copies[1..]))
  }

  /** Each path before all that follow. */
  ghost predicate InOrder(s: seq<Copy>) {
    s == [] || ((forall c :: c in s[1..] ==> Before(s[0].path, c.path)) && InOrder(s[1..]))
  }

  ghost predicate DistinctPaths(s: seq<Copy>) {
    s == [] || ((forall c :: c in s[1..] ==> s[0].path != c.path) && DistinctPaths(s[1..]))
  }

  lemma {:induction false} InsertSorts(c: Copy, s: seq<Copy>)
    requires InOrder(s) && forall d :: d in s ==> d.path != c.path
    ensures InOrder(Insert(c, s)) && multiset(Insert(c, s)) == multiset{c} + multiset(s)
    decreases s
  {
    if s == [] {
    } else if Before(c.path, s[0].path) {
      forall d | d in s
        ensures Before(c.path, d.path)
      {
        if d != s[0] {
          assert s == [s[0]] + s[1..];
          BeforeIsTransitive(c.path, s[0].path, d.path);
        }
      }
      assert ([c] + s)[1..] == s;
    } else {
      assert s == [s[0]] + s[1..];
      assert s[0] in s;
      BeforeIsTotal(c.path, s[0].path);
      InsertSorts(c, s[1..]);
      var rest := Insert(c, s[1..]);
      assert Insert(c, s) == [s[0]] + rest && Insert(c, s)[1..] == rest;
      forall d | d in rest
        ensures Before(s[0].path, d.path)
      {
        assert d in multiset(rest);
      }
    }
  }

  lemma {:induction false} SortSorts(copies: seq<Copy>)
    requires DistinctPaths(copies)
    ensures InOrder(Sort(copies)) && multiset(Sort(copies)) == multiset(copies) && |Sort(copies)| == |copies|
    decreases copies
  {
    if copies != [] {
      assert copies == [copies[0]] + copies[1..];
      SortSorts(copies[1..]);
      forall d | d in Sort(copies[1..])
        ensures d.path != copies[0].path
      {
        assert d in multiset(Sort(copies[1..]));
      }
      InsertSorts(copies[0], Sort(copies[1..]));
      assert |multiset(Sort(copies))| == |Sort(copies)|;
    }
  }

  /** There is one way to put given copies in order. */
  lemma {:induction false} OneOrder(a: seq<Copy>, b: seq<Copy>)
    requires InOrder(a) && InOrder(b) && multiset(a) == multiset(b)
    ensures a == b
    decreases a
  {
    assert |multiset(a)| == |a| && |multiset(b)| == |b|;
    if a != [] {
      assert a == [a[0]] + a[1..] && b == [b[0]] + b[1..];
      assert a[0] in multiset(b) && b[0] in multiset(a);
      if a[0] != b[0] {
        assert a[0] in b[1..] && b[0] in a[1..];
        BeforeIsTotal(a[0].path, b[0].path);
      }
      assert multiset(a[1..]) == multiset(a) - multiset{a[0]};
      assert multiset(b[1..]) == multiset(b) - multiset{b[0]};
      OneOrder(a[1..], b[1..]);
    }
  }

  // ---- Grouping --------------------------------------------------------------------------------------------------

  function KeyOf(h: Hashed): Key
    requires h.hash.Some?
  {
    Key(h.candidate.size, h.hash.value, h.candidate.mode, h.candidate.owner)
  }

  function CopyOf(h: Hashed): Copy {
    Copy(h.candidate.path, h.candidate.occupied)
  }

  /** The copies with a key, in the order in which their hashes arrived. */
  function CopiesWith(hashed: seq<Hashed>, key: Key): seq<Copy> {
    if hashed == [] then []
    else if hashed[0].hash.Some? && KeyOf(hashed[0]) == key then [CopyOf(hashed[0])] + CopiesWith(hashed[1..], key)
    else CopiesWith(hashed[1..], key)
  }

  function Occupied(copies: seq<Copy>): nat {
    if copies == [] then 0 else copies[0].occupied + Occupied(copies[1..])
  }

  /** What all copies but the kept one occupy. */
  function Reclaimable(copies: seq<Copy>, keep: nat): nat
    requires keep < |copies|
  {
    Occupied(copies[..keep]) + Occupied(copies[keep + 1..])
  }

  lemma {:induction false} OccupiedAppends(a: seq<Copy>, b: seq<Copy>)
    ensures Occupied(a + b) == Occupied(a) + Occupied(b)
    decreases a
  {
    if a == [] {
      assert a + b == b;
    } else {
      assert (a + b)[1..] == a[1..] + b;
      OccupiedAppends(a[1..], b);
    }
  }

  /** Whichever copy is kept: what it occupies and what can be saved is what all copies occupy. */
  lemma KeptAndSaved(copies: seq<Copy>, keep: nat)
    requires keep < |copies|
    ensures Reclaimable(copies, keep) + copies[keep].occupied == Occupied(copies)
  {
    var before, kept, rest := copies[..keep], copies[keep], copies[keep + 1..];
    assert copies == before + ([kept] + rest);
    OccupiedAppends(before, [kept] + rest);
    assert ([kept] + rest)[1..] == rest;
  }

  /** Adds up what can be saved, skipping the kept copy. */
  method ReclaimableOf(copies: seq<Copy>, keep: nat) returns (saved: nat)
    requires keep < |copies|
    ensures saved == Reclaimable(copies, keep)
  {
    saved := 0;
    assert copies[..0] == [];
    for i := 0 to |copies|
      invariant saved == if i <= keep then Occupied(copies[..i]) else Occupied(copies[..i]) - copies[keep].occupied
    {
      assert copies[..i + 1] == copies[..i] + [copies[i]];
      OccupiedAppends(copies[..i], [copies[i]]);
      assert [copies[i]][1..] == [];
      if i != keep {
        saved := saved + copies[i].occupied;
      }
    }
    assert copies[..|copies|] == copies;
    KeptAndSaved(copies, keep);
  }

  ghost predicate DistinctFiles(hashed: seq<Hashed>) {
    forall i, j :: 0 <= i < j < |hashed| ==> hashed[i].candidate.path != hashed[j].candidate.path
  }

  lemma {:induction false} CopiesAreDistinct(hashed: seq<Hashed>, key: Key)
    requires DistinctFiles(hashed)
    ensures DistinctPaths(CopiesWith(hashed, key))
    ensures forall c :: c in CopiesWith(hashed, key) ==> exists h :: h in hashed && c == CopyOf(h)
    decreases hashed
  {
    if hashed != [] {
      assert forall i :: 0 <= i < |hashed[1..]| ==> hashed[1..][i] == hashed[i + 1];
      CopiesAreDistinct(hashed[1..], key);
      var rest := CopiesWith(hashed[1..], key);
      forall c | c in rest
        ensures c.path != hashed[0].candidate.path
      {
        var h :| h in hashed[1..] && c == CopyOf(h);
        var i :| 0 <= i < |hashed[1..]| && hashed[1..][i] == h;
      }
      if hashed[0].hash.Some? && KeyOf(hashed[0]) == key {
        assert CopiesWith(hashed, key)[1..] == rest;
      }
    }
  }

  lemma {:induction false} CopiesAppend(hashed: seq<Hashed>, h: Hashed, key: Key)
    ensures CopiesWith(hashed + [h], key)
            == CopiesWith(hashed, key) + (if h.hash.Some? && KeyOf(h) == key then [CopyOf(h)] else [])
    decreases hashed
  {
    if hashed == [] {
      assert ([] + [h])[1..] == [];
    } else {
      assert (hashed + [h])[1..] == hashed[1..] + [h];
      CopiesAppend(hashed[1..], h, key);
    }
  }

  /** How many files could not be hashed. */
  function Unread(hashed: seq<Hashed>): nat {
    if hashed == [] then 0 else (if hashed[0].hash.None? then 1 else 0) + Unread(hashed[1..])
  }

  lemma {:induction false} UnreadAppends(hashed: seq<Hashed>, h: Hashed)
    ensures Unread(hashed + [h]) == Unread(hashed) + (if h.hash.None? then 1 else 0)
    decreases hashed
  {
    if hashed == [] {
      assert ([] + [h])[1..] == [];
    } else {
      assert (hashed + [h])[1..] == hashed[1..] + [h];
      UnreadAppends(hashed[1..], h);
    }
  }

  /** Collects the hashes as they arrive. */
  method Collect(hashed: seq<Hashed>) returns (grouped: map<Key, seq<Copy>>, skipped: nat)
    ensures forall key :: key in grouped <==> CopiesWith(hashed, key) != []
    ensures forall key :: key in grouped ==> grouped[key] == CopiesWith(hashed, key)
    ensures skipped == Unread(hashed)
  {
    grouped, skipped := map[], 0;
    assert hashed[..0] == [];
    for i := 0 to |hashed|
      invariant forall key :: key in grouped <==> CopiesWith(hashed[..i], key) != []
      invariant forall key :: key in grouped ==> grouped[key] == CopiesWith(hashed[..i], key)
      invariant skipped == Unread(hashed[..i])
    {
      var h := hashed[i];
      assert hashed[..i + 1] == hashed[..i] + [h];
      UnreadAppends(hashed[..i], h);
      forall key {
        CopiesAppend(hashed[..i], h, key);
      }
      if h.hash.None? {
        skipped := skipped + 1;
      } else {
        var key := KeyOf(h);
        grouped := grouped[key := (if key in grouped then grouped[key] else []) + [CopyOf(h)]];
      }
    }
    assert hashed[..|hashed|] == hashed;
  }

  /** A group of the result: at least two copies of one key, in order, with the first kept. */
  ghost predicate IsGroup(hashed: seq<Hashed>, key: Key, g: Group) {
    && |CopiesWith(hashed, key)| >= 2
    && g.copies == Sort(CopiesWith(hashed, key)) && |g.copies| >= 2
    && g.hash == key.hash && g.size == key.size && g.keep == 0 && g.reclaimable == Reclaimable(g.copies, 0)
  }

  function TotalReclaimable(groups: seq<Group>): nat {
    if groups == [] then 0 else groups[0].reclaimable + TotalReclaimable(groups[1..])
  }

  lemma {:induction false} TotalAppends(groups: seq<Group>, g: Group)
    ensures TotalReclaimable(groups + [g]) == TotalReclaimable(groups) + g.reclaimable
    decreases groups
  {
    if groups == [] {
      assert ([] + [g])[1..] == [];
    } else {
      assert (groups + [g])[1..] == groups[1..] + [g];
      TotalAppends(groups[1..], g);
    }
  }

  /** One group for every key with two copies or more, and no other. */
  ghost predicate OneForEachKey(hashed: seq<Hashed>, keys: seq<Key>, groups: seq<Group>) {
    && |keys| == |groups| && Distinct(keys)
    && (forall i :: 0 <= i < |groups| ==> IsGroup(hashed, keys[i], groups[i]))
    && forall key :: |CopiesWith(hashed, key)| >= 2 ==> key in keys
  }

  /** The groups with their keys, and their saved space added up. */
  method MakeGroups(hashed: seq<Hashed>) returns (groups: seq<Group>, reclaimable: nat, ghost keys: seq<Key>)
    requires DistinctFiles(hashed)
    ensures OneForEachKey(hashed, keys, groups) && reclaimable == TotalReclaimable(groups)
  {
    hide CopiesWith, Sort, Reclaimable;
    var grouped, _ := Collect(hashed);
    groups, reclaimable, keys := [], 0, [];
    var pending := grouped.Keys;
    while pending != {}
      invariant pending <= grouped.Keys
      invariant |keys| == |groups| && Distinct(keys)
      invariant forall i :: 0 <= i < |keys| ==> keys[i] !in pending
      invariant forall i :: 0 <= i < |groups| ==> IsGroup(hashed, keys[i], groups[i])
      invariant forall key :: key in grouped && key !in pending && |grouped[key]| >= 2 ==> key in keys
      invariant reclaimable == TotalReclaimable(groups)
      decreases |pending|
    {
      var key :| key in pending;
      pending := pending - {key};
      if |grouped[key]| >= 2 {
        CopiesAreDistinct(hashed, key);
        SortSorts(grouped[key]);
        var copies := Sort(grouped[key]);
        var saved := ReclaimableOf(copies, 0);
        var group := Group(key.hash, key.size, copies, 0, saved);
        assert IsGroup(hashed, key, group);
        TotalAppends(groups, group);
        groups, keys := groups + [group], keys + [key];
        reclaimable := reclaimable + saved;
      }
    }
  }

  /** Which hashed file a copy comes from. */
  lemma {:induction false} CopyComesFrom(hashed: seq<Hashed>, key: Key, c: Copy) returns (i: nat)
    requires c in CopiesWith(hashed, key)
    ensures i < |hashed| && c == CopyOf(hashed[i]) && hashed[i].hash.Some? && KeyOf(hashed[i]) == key
    decreases hashed
  {
    if hashed[0].hash.Some? && KeyOf(hashed[0]) == key && c == CopyOf(hashed[0]) {
      return 0;
    }
    i := CopyComesFrom(hashed[1..], key, c);
    i := i + 1;
  }

  lemma {:induction false} InOrderApart(s: seq<Copy>, a: nat, b: nat)
    requires InOrder(s) && a < b < |s|
    ensures s[a].path != s[b].path
    decreases a
  {
    if a == 0 {
      assert s[b] == s[1..][b - 1] && s[b] in s[1..];
      BeforeIsTotal(s[0].path, s[b].path);
    } else {
      InOrderApart(s[1..], a - 1, b - 1);
    }
  }

  /** A group's copies are files with its key, all different. */
  lemma GroupCopies(hashed: seq<Hashed>, key: Key, g: Group, a: nat) returns (i: nat)
    requires DistinctFiles(hashed) && IsGroup(hashed, key, g) && a < |g.copies|
    ensures i < |hashed| && g.copies[a] == CopyOf(hashed[i]) && hashed[i].hash.Some? && KeyOf(hashed[i]) == key
    ensures forall b :: 0 <= b < |g.copies| && b != a ==> g.copies[b].path != g.copies[a].path
  {
    CopiesAreDistinct(hashed, key);
    SortSorts(CopiesWith(hashed, key));
    assert g.copies[a] in multiset(g.copies);
    i := CopyComesFrom(hashed, key, g.copies[a]);
    forall b | 0 <= b < |g.copies| && b != a ensures g.copies[b].path != g.copies[a].path {
      InOrderApart(g.copies, if a < b then a else b, if a < b then b else a);
    }
  }

  /** No file is listed twice, in one group or in two. */
  lemma ListedOnce(hashed: seq<Hashed>, keys: seq<Key>, groups: seq<Group>, i: nat, a: nat, j: nat, b: nat)
    requires DistinctFiles(hashed) && OneForEachKey(hashed, keys, groups)
    requires i < |groups| && a < |groups[i].copies| && j < |groups| && b < |groups[j].copies|
    ensures groups[i].copies[a].path == groups[j].copies[b].path ==> i == j && a == b
  {
    var x := GroupCopies(hashed, keys[i], groups[i], a);
    var y := GroupCopies(hashed, keys[j], groups[j], b);
    if groups[i].copies[a].path == groups[j].copies[b].path {
      assert x == y;
      assert keys[i] == keys[j];
    }
  }

  function OwnCopy(h: Hashed, key: Key): seq<Copy> {
    if h.hash.Some? && KeyOf(h) == key then [CopyOf(h)] else []
  }

  /** Taking one file out of those hashed takes out its copy. */
  lemma TakenOut(hashed: seq<Hashed>, i: nat, key: Key)
    requires i < |hashed|
    ensures multiset(hashed[..i] + hashed[i + 1..]) == multiset(hashed) - multiset{hashed[i]}
    ensures multiset(CopiesWith(hashed, key))
            == multiset(OwnCopy(hashed[i], key)) + multiset(CopiesWith(hashed[..i] + hashed[i + 1..], key))
  {
    var before, h, rest := hashed[..i], hashed[i], hashed[i + 1..];
    assert hashed == before + ([h] + rest);
    CopiesConcat(before, [h] + rest, key);
    CopiesConcat(before, rest, key);
    assert ([h] + rest)[1..] == rest;
    assert CopiesWith([h] + rest, key) == OwnCopy(h, key) + CopiesWith(rest, key);
  }

  lemma {:induction false} SameCopies(a: seq<Hashed>, b: seq<Hashed>, key: Key)
    requires multiset(a) == multiset(b)
    ensures multiset(CopiesWith(a, key)) == multiset(CopiesWith(b, key))
    decreases a
  {
    hide OwnCopy, KeyOf;
    assert |multiset(a)| == |a| && |multiset(b)| == |b|;
    if a == [] {
      assert b == [];
    } else {
      assert a[0] in multiset(b);
      var i :| 0 <= i < |b| && b[i] == a[0];
      var fewer := b[..i] + b[i + 1..];
      TakenOut(a, 0, key);
      TakenOut(b, i, key);
      assert a[..0] + a[1..] == a[1..];
      SameCopies(a[1..], fewer, key);
    }
  }

  lemma {:induction false} CopiesConcat(a: seq<Hashed>, b: seq<Hashed>, key: Key)
    ensures CopiesWith(a + b, key) == CopiesWith(a, key) + CopiesWith(b, key)
    decreases a
  {
    if a == [] {
      assert a + b == b;
    } else {
      assert (a + b)[1..] == a[1..] + b;
      CopiesConcat(a[1..], b, key);
    }
  }

  /** The workers may finish in any order: the groups are the same. */
  lemma ArrivalDoesNotMatter(a: seq<Hashed>, b: seq<Hashed>, key: Key, g: Group)
    requires DistinctFiles(a) && DistinctFiles(b) && multiset(a) == multiset(b)
    ensures IsGroup(a, key, g) <==> IsGroup(b, key, g)
  {
    SameCopies(a, b, key);
    CopiesAreDistinct(a, key);
    CopiesAreDistinct(b, key);
    SortSorts(CopiesWith(a, key));
    SortSorts(CopiesWith(b, key));
    OneOrder(Sort(CopiesWith(a, key)), Sort(CopiesWith(b, key)));
  }

  // ---- Choosing another keeper -----------------------------------------------------------------------------------

  /** The result on display. */
  class DuplicateState {
    var groups: seq<Group>
    var reclaimable: nat

    constructor (groups: seq<Group>, reclaimable: nat)
      ensures this.groups == groups && this.reclaimable == reclaimable
    {
      this.groups, this.reclaimable := groups, reclaimable;
    }

    /** Each group shows what it can save, and the total is their sum. */
    ghost predicate Valid()
      reads this
    {
      && reclaimable == TotalReclaimable(groups)
      && forall i :: 0 <= i < |groups| ==>
           groups[i].keep < |groups[i].copies| && groups[i].reclaimable == Reclaimable(groups[i].copies, groups[i].keep)
    }

    /** Keeps the next copy of a group. The total never has to be cut off at zero. */
    method CycleKeeper(cursor: nat)
      requires Valid() && cursor < |groups|
      modifies this
      ensures Valid() && |groups| == |old(groups)|
      ensures groups[cursor].copies == old(groups)[cursor].copies
      ensures groups[cursor].keep == (old(groups)[cursor].keep + 1) % |groups[cursor].copies|
      ensures forall i :: 0 <= i < |groups| && i != cursor ==> groups[i] == old(groups)[i]
    {
      var group := groups[cursor];
      if |group.copies| < 2 {
        return;
      }
      var previous := group.reclaimable;
      var keep := (group.keep + 1) % |group.copies|;
      var saved := ReclaimableOf(group.copies, keep);
      OneGroupChanges(groups, cursor, group.(keep := keep, reclaimable := saved));
      groups := groups[cursor := group.(keep := keep, reclaimable := saved)];
      assert reclaimable >= previous;
      reclaimable := reclaimable - previous;
      reclaimable := reclaimable + saved;
    }
  }

  lemma {:induction false} OneGroupChanges(groups: seq<Group>, i: nat, g: Group)
    requires i < |groups|
    ensures TotalReclaimable(groups[i := g]) + groups[i].reclaimable == TotalReclaimable(groups) + g.reclaimable
    ensures TotalReclaimable(groups) >= groups[i].reclaimable
    decreases i
  {
    if i == 0 {
      assert groups[0 := g][1..] == groups[1..];
    } else {
      assert groups[i := g][1..] == groups[1..][i - 1 := g];
      OneGroupChanges(groups[1..], i - 1, g);
    }
  }
}
