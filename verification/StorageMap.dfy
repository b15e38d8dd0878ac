/** The state behind the storage page: the displayed map, its scan, and the cache of scanned directories. */
module StorageMap {
  import opened Base
  import opened SharedDisk
  import opened LruList

  const CACHE_TTL := 120

  /** A scanned directory. A path of none is the empty result; a finishing time of zero means not finished. */
  datatype ScanResult = ScanResult(path: Option<Path>, entries: seq<Path>, finishedAt: nat)

  function EmptyResult(): ScanResult {
    ScanResult(None, [], 0)
  }

  datatype Cached = Cached(result: ScanResult, complete: bool, cachedAt: nat)

  datatype Failure = Canceled | Broken

  /** What a scan sends back. */
  datatype Message =
    | Progress(generation: nat, result: ScanResult)
    | Finished(generation: nat, result: ScanResult, failure: Option<Failure>)

  /** Everything a user can see of the map, and what decides about it. */
  datatype View = View(
    path: Path, result: ScanResult, failed: bool, scanning: bool, generation: nat, cacheHit: bool,
    cache: seq<Entry<Cached>>)

  // ---- The cache -------------------------------------------------------------------------------------------------

  /** The cache as a list: the order with the values. */
  function Listed(order: seq<Path>, cache: map<Path, Cached>): seq<Entry<Cached>>
    requires forall p :: p in order ==> p in cache
  {
    if order == [] then [] else [Entry(order[0], cache[order[0]])] + Listed(order[1..], cache)
  }

  ghost predicate CacheHolds(order: seq<Path>, cache: map<Path, Cached>) {
    && Distinct(order) && |order| <= CACHE_LIMIT
    && (forall p :: p in order <==> p in cache)
    && forall p :: p in cache ==> cache[p].result.path == Some(p) && Clean(p)
  }

  function RemoveFirst(order: seq<Path>, path: Path): seq<Path> {
    if order == [] then []
    else if order[0] == path then order[1..]
    else [order[0]] + RemoveFirst(order[1..], path)
  }

  lemma {:induction false} ListedAppends(a: seq<Path>, b: seq<Path>, cache: map<Path, Cached>)
    requires forall p :: p in a + b ==> p in cache
    ensures Listed(a + b, cache) == Listed(a, cache) + Listed(b, cache)
    decreases a
  {
    if a == [] {
      assert a + b == b;
    } else {
      assert (a + b)[1..] == a[1..] + b;
      ListedAppends(a[1..], b, cache);
    }
  }

  lemma {:induction false} ListedHas(order: seq<Path>, cache: map<Path, Cached>)
    requires forall p :: p in order ==> p in cache
    ensures |Listed(order, cache)| == |order|
    ensures forall i :: 0 <= i < |order| ==> Listed(order, cache)[i] == Entry(order[i], cache[order[i]])
  {
    if order != [] {
      ListedHas(order[1..], cache);
    }
  }

  lemma {:induction false} SameListed(order: seq<Path>, cache: map<Path, Cached>, other: map<Path, Cached>)
    requires forall p :: p in order ==> p in cache && p in other && cache[p] == other[p]
    ensures Listed(order, cache) == Listed(order, other)
  {
    if order != [] {
      SameListed(order[1..], cache, other);
    }
  }

  /** Looking a path up in the list is looking it up in the map. */
  lemma {:induction false} LookupIsMap(order: seq<Path>, cache: map<Path, Cached>, path: Path)
    requires forall p :: p in order ==> p in cache
    ensures Lookup(Listed(order, cache), path) == if path in order then Some(cache[path]) else None
  {
    if order != [] && order[0] != path {
      LookupIsMap(order[1..], cache, path);
    }
  }

  lemma {:induction false} RemovedFirst(order: seq<Path>, path: Path)
    requires Distinct(order)
    ensures Distinct(RemoveFirst(order, path))
    ensures forall p :: p in RemoveFirst(order, path) <==> p in order && p != path
    ensures |RemoveFirst(order, path)| == if path in order then |order| - 1 else |order|
  {
    if order != [] {
      assert forall i, j :: 0 <= i < j < |order[1..]| ==> order[1..][i] != order[1..][j] by {
        assert forall i :: 0 <= i < |order[1..]| ==> order[1..][i] == order[i + 1];
      }
      assert order[0] !in order[1..] by {
        assert forall i :: 0 <= i < |order[1..]| ==> order[1..][i] == order[i + 1];
      }
      RemovedFirst(order[1..], path);
    }
  }

  /** Removing the one position of a path filters it out of the list. */
  lemma {:induction false} RemovedIsWithout(order: seq<Path>, cache: map<Path, Cached>, path: Path)
    requires Distinct(order) && forall p :: p in order ==> p in cache
    ensures forall p :: p in RemoveFirst(order, path) ==> p in cache
    ensures Listed(RemoveFirst(order, path), cache) == Without(Listed(order, cache), path)
  {
    RemovedFirst(order, path);
    if order != [] {
      assert forall i :: 0 <= i < |order[1..]| ==> order[1..][i] == order[i + 1];
      assert Distinct(order[1..]) && order[0] !in order[1..];
      var rest := Listed(order[1..], cache);
      assert Listed(order, cache)[1..] == rest;
      if order[0] == path {
        ListedHas(order[1..], cache);
        KeepOthers(rest, path);
      } else {
        RemovedIsWithout(order[1..], cache, path);
        assert RemoveFirst(order, path)[1..] == RemoveFirst(order[1..], path);
      }
    }
  }

  lemma {:induction false} RemoveFirstAt(order: seq<Path>, path: Path, index: nat)
    requires index < |order| && order[index] == path && path !in order[..index]
    ensures RemoveFirst(order, path) == order[..index] + order[index + 1..]
    decreases index
  {
    if index > 0 {
      assert order[0] in order[..index];
      assert order[1..][..index - 1] == order[..index][1..];
      RemoveFirstAt(order[1..], path, index - 1);
      assert order[..index] + order[index + 1..] == [order[0]] + (order[1..][..index - 1] + order[1..][index..]);
    }
  }

  lemma {:induction false} RemoveNone(order: seq<Path>, path: Path)
    requires path !in order
    ensures RemoveFirst(order, path) == order
  {
    if order != [] {
      RemoveNone(order[1..], path);
    }
  }

  /** Moving a path to the end, with a new value, is what storing does before it makes room. */
  lemma MovedToEnd(order: seq<Path>, cache: map<Path, Cached>, path: Path, value: Cached)
    requires CacheHolds(order, cache) && value.result.path == Some(path) && Clean(path)
    ensures var next, values := RemoveFirst(order, path) + [path], cache[path := value];
            && Distinct(next) && (forall p :: p in next <==> p in values)
            && |next| == (if path in order then |order| else |order| + 1)
            && Listed(next, values) == Without(Listed(order, cache), path) + [Entry(path, value)]
  {
    hide Clean, Keep, RemoveFirst;
    var shorter, values := RemoveFirst(order, path), cache[path := value];
    RemovedFirst(order, path);
    RemovedIsWithout(order, cache, path);
    SameListed(shorter, cache, values);
    ListedAppends(shorter, [path], values);
    assert Listed([path], values) == [Entry(path, value)] + Listed([path][1..], values);
    assert [path][1..] == [];
  }

  /** Dropping the first path of the order drops the first entry of the list. */
  lemma DroppedFirst(order: seq<Path>, cache: map<Path, Cached>)
    requires order != [] && Distinct(order) && forall p :: p in order <==> p in cache
    ensures Distinct(order[1..]) && forall p :: p in order[1..] <==> p in cache - {order[0]}
    ensures Listed(order[1..], cache - {order[0]}) == Listed(order, cache)[1..]
  {
    assert forall i :: 0 <= i < |order[1..]| ==> order[1..][i] == order[i + 1];
    assert order[0] !in order[1..];
    assert order == [order[0]] + order[1..];
    SameListed(order[1..], cache, cache - {order[0]});
  }

  lemma NothingCached(order: seq<Path>, cache: map<Path, Cached>)
    requires CacheHolds(order, cache)
    ensures |cache| == 0 ==> order == []
  {
    if order != [] {
      assert order[0] in cache;
    }
  }

  /** Filtering the order by what is still cached filters the list. */
  lemma {:induction false} FilteredOrder(order: seq<Path>, cache: map<Path, Cached>, path: Path)
    requires Distinct(order) && forall p :: p in order ==> p in cache
    ensures var kept := KeptOrder(order, path);
            && Distinct(kept) && |kept| <= |order|
            && (forall p :: p in kept <==> p in order && !Related(p, path))
            && Listed(kept, cache) == Unrelated(Listed(order, cache), path)
  {
    if order != [] {
      assert forall i :: 0 <= i < |order[1..]| ==> order[1..][i] == order[i + 1];
      assert order[0] !in order[1..];
      FilteredOrder(order[1..], cache, path);
      var rest, kept := KeptOrder(order[1..], path), KeptOrder(order, path);
      assert !Related(order[0], path) ==> kept[1..] == rest;
    }
  }

  function KeptOrder(order: seq<Path>, path: Path): seq<Path> {
    if order == [] then []
    else if Related(order[0], path) then KeptOrder(order[1..], path)
    else [order[0]] + KeptOrder(order[1..], path)
  }

  lemma {:induction false} KeptAppends(order: seq<Path>, p: Path, path: Path)
    ensures KeptOrder(order + [p], path) == KeptOrder(order, path) + (if Related(p, path) then [] else [p])
  {
    if order == [] {
      assert ([] + [p])[1..] == [];
    } else {
      assert (order + [p])[1..] == order[1..] + [p];
      KeptAppends(order[1..], p, path);
    }
  }

  lemma OneMore(ops: seq<Op<Cached>>, op: Op<Cached>)
    ensures Run(ops + [op]) == LruList.Step(Run(ops), op)
  {
    assert (ops + [op])[..|ops|] == ops;
  }

  // ---- The state -------------------------------------------------------------------------------------------------

  class MapState {
    const root: Path
    var path: Path
    var result: ScanResult
    var failed: bool
    var scanning: bool
    var generation: nat
    var cacheHit: bool
    var cache: map<Path, Cached>
    var order: seq<Path>
    var onPage: bool
    var duplicateMode: bool
    var launched: map<nat, Path>  // the directories of the scans that were started, by generation
    ghost var ops: seq<Op<Cached>>  // every store, lookup and invalidation of the cache so far

    constructor (root: Path)
      requires Clean(root)
      ensures Valid() && this.root == root && path == root && result == EmptyResult() && Cache() == [] && ops == []
    {
      this.root, path, result, failed, scanning := root, root, EmptyResult(), false, false;
      generation, cacheHit, cache, order := 0, false, map[], [];
      onPage, duplicateMode, launched := false, false, map[];
      ops := [];
    }

    /** Map and order are one list, and that is what the cache operations so far amount to. */
    ghost predicate CacheValid()
      reads this
    {
      CacheHolds(order, cache) && Listed(order, cache) == Run(ops)
    }

    /** No stale map: what is displayed is empty or belongs to the displayed directory. */
    ghost predicate NotStale()
      reads this
    {
      result.path.None? || result.path == Some(path)
    }

    ghost predicate Valid()
      reads this
    {
      && CacheValid() && NotStale() && Clean(path) && root <= path
      && (generation in launched ==> launched[generation] == path)
      && (forall g :: g in launched ==> g <= generation && Clean(launched[g]))
      && (scanning ==> generation in launched)
    }

    ghost function Cache(): seq<Entry<Cached>>
      reads this
      requires CacheValid()
    {
      Listed(order, cache)
    }

    ghost function Shown(): View
      reads this
      requires CacheValid()
    {
      View(path, result, failed, scanning, generation, cacheHit, Cache())
    }

    // ---- Cache methods -------------------------------------------------------------------------------------------

    /** Takes the one position of a path out of the order. */
    method DropFromOrder(path: Path)
      modifies this`order
      ensures order == RemoveFirst(old(order), path)
    {
      var index := 0;
      while index < |order| && order[index] != path
        invariant index <= |order| && path !in order[..index] && order == old(order)
      {
        index := index + 1;
      }
      if index < |order| {
        RemoveFirstAt(order, path, index);
        order := order[..index] + order[index + 1..];
      } else {
        assert order[..index] == order;
        RemoveNone(order, path);
      }
    }

    method CacheResult(result: ScanResult, complete: bool, now: nat)
      requires CacheValid() && (result.path.Some? ==> Clean(result.path.value))
      modifies this`cache, this`order, this`ops
      ensures CacheValid()
      ensures ops == if result.path.None? || (!complete && result.entries == []) then old(ops)
                     else old(ops) + [StoreOp(result.path.value, Cached(result, complete, now))]
      ensures Cache() == if result.path.None? || (!complete && result.entries == []) then old(Cache())
                         else Store(old(Cache()), result.path.value, Cached(result, complete, now))
    {
      hide Clean;
      if result.path.None? || (!complete && result.entries == []) {
        return;
      }
      var path, value := result.path.value, Cached(result, complete, now);
      MovedToEnd(order, cache, path, value);
      ghost var all := Without(Cache(), path) + [Entry(path, value)];
      DropFromOrder(path);
      cache := cache[path := value];
      order := order + [path];
      EvictOldest(all);
      ops := ops + [StoreOp(path, value)];
      OneMore(old(ops), StoreOp(path, value));
    }

    /** Makes room by dropping from the front. */
    method EvictOldest(ghost all: seq<Entry<Cached>>)
      requires Distinct(order) && (forall p :: p in order <==> p in cache)
      requires forall p :: p in cache ==> cache[p].result.path == Some(p) && Clean(p)
      requires Listed(order, cache) == all
      modifies this`cache, this`order
      ensures CacheHolds(order, cache) && Listed(order, cache) == Newest(all)
    {
      hide Clean, Listed, Distinct;
      ListedHas(order, cache);
      while |order| > CACHE_LIMIT
        invariant CACHE_LIMIT <= |order| || |order| == |all|
        invariant |order| <= |all|
        invariant Distinct(order) && (forall p :: p in order <==> p in cache)
        invariant forall p :: p in cache ==> cache[p].result.path == Some(p) && Clean(p)
        invariant Listed(order, cache) == all[|all| - |order|..]
      {
        DroppedFirst(order, cache);
        var oldest := order[0];
        assert all[|all| - |order|..][1..] == all[|all| - |order| + 1..];
        order := order[1..];
        cache := cache - {oldest};
      }
    }

    method CachedResult(path: Path) returns (cached: Option<Cached>)
      requires CacheValid()
      modifies this`order, this`ops
      ensures CacheValid() && ops == old(ops) + [HitOp(path)]
      ensures cached == Lookup(old(Cache()), path) && Cache() == Touch(old(Cache()), path)
      ensures cached.Some? ==> cached.value.result.path == Some(path)
    {
      hide Clean;
      LookupIsMap(order, cache, path);
      ops := ops + [HitOp(path)];
      OneMore(old(ops), HitOp(path));
      if path !in cache {
        return None;
      }
      MovedToEnd(order, cache, path, cache[path]);
      assert cache[path := cache[path]] == cache;
      DropFromOrder(path);
      order := order + [path];
      cached := Some(cache[path]);
    }

    /** Stores what is displayed, unless there is nothing worth storing. */
    method CacheCurrentResult(now: nat)
      requires CacheValid() && (result.path.Some? ==> Clean(result.path.value))
      modifies this`cache, this`order, this`ops
      ensures CacheValid() && Cache() == Remembered(old(Shown()), now)
      ensures ops == old(ops)
              || (result.path.Some? && exists value :: ops == old(ops) + [StoreOp(result.path.value, value)])
    {
      hide Clean, Run, Store, Distinct;
      if result.path.None? {
        return;
      }
      var complete := result.finishedAt != 0 && !scanning;
      if !complete && result.entries == [] {
        return;
      }
      var path := result.path.value;
      LookupIsMap(order, cache, path);
      if path in cache && cache[path].complete && complete {
        return;
      }
      ghost var before := Cache();
      CacheResult(result, complete, now);
      if complete {
        RestampLast(order, cache, before, path, Cached(result, true, now), result.finishedAt);
        cache := cache[path := cache[path].(cachedAt := result.finishedAt)];
        var stored := StoreOp(path, cache[path]);
        ops := old(ops) + [stored];
        OneMore(old(ops), stored);
      }
    }

    method InvalidateMutation(path: Path)
      requires CacheValid() && Clean(path)
      modifies this`cache, this`order, this`ops
      ensures CacheValid() && Cache() == Unrelated(old(Cache()), path)
      ensures ops == old(ops) + [InvalidateOp(path)]
    {
      hide Clean, Run, Related, Distinct;
      ops := ops + [InvalidateOp(path)];
      OneMore(old(ops), InvalidateOp(path));
      if |cache| == 0 {
        NothingCached(order, cache);
        return;
      }
      FilteredOrder(order, cache, path);
      DropRelated(path);
      FilterOrder(path);
      SameListed(order, old(cache), cache);
    }

    /** Keeps in the order what is still in the map. */
    method FilterOrder(path: Path)
      requires forall p :: p in order ==> (p in cache <==> !Related(p, path))
      modifies this`order
      ensures order == KeptOrder(old(order), path)
    {
      hide Related;
      var kept: seq<Path> := [];
      for i := 0 to |order|
        invariant order == old(order) && kept == KeptOrder(order[..i], path)
      {
        assert order[..i + 1] == order[..i] + [order[i]];
        KeptAppends(order[..i], order[i], path);
        if order[i] in cache {
          kept := kept + [order[i]];
        }
      }
      assert order[..|order|] == order;
      order := kept;
    }

    /** Takes every ancestor and descendant of a path out of the map. */
    method DropRelated(path: Path)
      requires Clean(path) && forall p :: p in cache ==> Clean(p)
      modifies this`cache
      ensures forall p :: p in cache <==> p in old(cache) && !Related(p, path)
      ensures forall p :: p in cache ==> cache[p] == old(cache)[p]
    {
      var pending := cache.Keys;
      while pending != {}
        invariant pending <= cache.Keys <= old(cache).Keys
        invariant forall p :: p in old(cache) ==> (p in cache <==> p in pending || !Related(p, path))
        invariant forall p :: p in cache ==> cache[p] == old(cache)[p]
        decreases |pending|
      {
        var cachedPath :| cachedPath in pending;
        pending := pending - {cachedPath};
        WithinMeansPrefix(path, cachedPath);
        WithinMeansPrefix(cachedPath, path);
        if WithinRoot(path, cachedPath) || WithinRoot(cachedPath, path) {
          cache := cache - {cachedPath};
        }
      }
    }

    // ---- Scans ---------------------------------------------------------------------------------------------------

    /** Turns to a directory: a fresh cached result is shown at once, otherwise a scan of a new generation starts. */
    method BeginScanMode(target: Path, force: bool, now: nat)
      requires Valid() && Clean(target)
      modifies this
      ensures Valid() && old(ops) <= ops
      ensures !(root <= target) ==> Shown() == old(Shown()) && launched == old(launched)
      ensures root <= target ==> Shown() == Turned(old(Shown()), target, force, now)
      ensures root <= target ==>
                launched == if scanning then old(launched)[generation := target] else old(launched)
      ensures onPage == old(onPage) && duplicateMode == old(duplicateMode)
    {
      hide CacheHolds, Listed, Run, Remembered, Touch, Lookup, WithinRoot;
      WithinMeansPrefix(target, root);
      if !WithinRoot(target, root) {
        return;
      }
      CacheCurrentResult(now);
      generation := generation + 1;
      var cached := CachedResult(target);
      ShowCached(target, cached, force, now);
    }

    /** Shows what the cache has of a directory, and starts a scan unless that is complete and recent enough. */
    method ShowCached(target: Path, cached: Option<Cached>, force: bool, now: nat)
      requires CacheValid() && Clean(target) && root <= target
      requires cached.Some? ==> cached.value.result.path == Some(target)
      requires forall g :: g in launched ==> g < generation && Clean(launched[g])
      modifies `path, `result, `failed, `scanning, `cacheHit, `launched
      ensures Valid()
      ensures var usable := cached.Some? && cached.value.complete && now - cached.value.cachedAt <= CACHE_TTL && !force;
              && path == target && result == (if cached.Some? then cached.value.result else EmptyResult())
              && !failed && scanning == !usable && cacheHit == cached.Some?
              && launched == if usable then old(launched) else old(launched)[generation := target]
    {
      hide CacheHolds, Listed, Run;
      if cached.Some? && cached.value.complete && now - cached.value.cachedAt <= CACHE_TTL && !force {
        path := target;
        result := cached.value.result;
        failed, scanning, cacheHit := false, false, true;
        return;
      }
      path := target;
      if cached.Some? {
        result, cacheHit := cached.value.result, true;
      } else {
        result, cacheHit := EmptyResult(), false;
      }
      failed, scanning := false, true;
      launched := launched[generation := target];
    }

    /** A message of a scan that was started: what it found belongs to the directory it was started for. */
    ghost predicate Honest(msg: Message)
      reads this
    {
      && msg.generation in launched
      && ((msg.Finished? && msg.failure.Some?) || msg.result.path == Some(launched[msg.generation]))
    }

    method ApplyResult(msg: Message, now: nat)
      requires Valid() && msg.Finished? && Honest(msg)
      modifies this
      ensures Valid() && old(ops) <= ops
      ensures launched == old(launched) && onPage == old(onPage) && duplicateMode == old(duplicateMode)
      ensures msg.generation != old(generation) ==> Shown() == old(Shown())
      ensures msg.generation == old(generation) ==> Shown() == Received(old(Shown()), msg, now)
    {
      hide CacheHolds, Listed, Run, Remembered, Store, Lookup, Touch, Clean;
      if msg.generation != generation {
        return;
      }
      scanning := false;
      if msg.failure.Some? {
        if msg.failure.value == Canceled {
          return;
        }
        if result.path.Some? {
          failed, cacheHit := false, true;
          return;
        }
        failed := true;
        return;
      }
      result := msg.result;
      failed, cacheHit := false, false;
      CacheResult(msg.result, true, now);
    }

    method ApplyProgress(msg: Message, now: nat) returns (more: bool)
      requires Valid() && msg.Progress? && Honest(msg)
      modifies this
      ensures Valid() && old(ops) <= ops
      ensures launched == old(launched) && onPage == old(onPage) && duplicateMode == old(duplicateMode)
      ensures more <==> msg.generation == old(generation) && old(scanning)
      ensures !more ==> Shown() == old(Shown())
      ensures more ==> Shown() == Received(old(Shown()), msg, now)
    {
      hide CacheHolds, Listed, Run, Remembered, Store, Lookup, Touch, Clean;
      if msg.generation != generation || !scanning {
        return false;
      }
      result := msg.result;
      failed, cacheHit := false, false;
      CacheResult(msg.result, false, now);
      more := true;
    }

    // ---- What else changes the page ------------------------------------------------------------------------------

    /** Stops looking at a scan without leaving its directory. */
    method GiveUpScan(now: nat, remember: bool)
      requires Valid()
      modifies this
      ensures Valid() && old(ops) <= ops
      ensures launched == old(launched) && onPage == old(onPage) && duplicateMode == old(duplicateMode)
      ensures Shown() == GivenUp(old(Shown()), now, remember)
    {
      hide CacheHolds, Listed, Run, Remembered, Store, Lookup, Touch, Clean;
      if remember {
        CacheCurrentResult(now);
      }
      generation := generation + 1;
      scanning := false;
    }

    method SwitchPage(toStorage: bool, now: nat)
      requires Valid()
      modifies this
      ensures Valid() && old(ops) <= ops
      ensures onPage == toStorage && duplicateMode == (old(duplicateMode) && (!old(onPage) || toStorage))
      ensures Shown() == Switched(old(Shown()), old(onPage), toStorage, now)
    {
      hide CacheHolds, Listed, Run, Remembered, Store, Lookup, Touch, Clean;
      if onPage && !toStorage && scanning {
        GiveUpScan(now, true);
        failed := false;
      }
      if onPage && !toStorage && duplicateMode {
        duplicateMode := false;
      }
      onPage := toStorage;
      if toStorage && !scanning && result.finishedAt == 0 {
        BeginScanMode(path, false, now);
      }
    }

    method PrepareAction(available: bool, now: nat)
      requires Valid()
      modifies this
      ensures Valid() && old(ops) <= ops
      ensures launched == old(launched)
      ensures Shown() == if available && old(scanning) then GivenUp(old(Shown()), now, true) else old(Shown())
    {
      if available && scanning {
        GiveUpScan(now, true);
      }
    }

    method BeginDuplicateScan(target: Path, now: nat)
      requires Valid() && Clean(target)
      modifies this
      ensures Valid() && old(ops) <= ops
      ensures launched == old(launched) && duplicateMode == (root <= target || old(duplicateMode))
      ensures Shown() == if root <= target then GivenUp(old(Shown()), now, false) else old(Shown())
    {
      WithinMeansPrefix(target, root);
      if !WithinRoot(target, root) {
        return;
      }
      GiveUpScan(now, false);
      duplicateMode := true;
    }

    method LeaveDuplicates()
      requires Valid()
      modifies this`duplicateMode
      ensures Valid() && Shown() == old(Shown())
    {
      duplicateMode := false;
    }

    /** After a file was deleted or archived: what the cache knows about it is dropped, and its directory refreshed. */
    method ApplyActionResult(target: Path, parent: Path, now: nat)
      requires Valid() && Clean(target) && Clean(parent)
      modifies this
      ensures Valid() && old(ops) <= ops
      ensures root <= parent ==>
                Shown() == Turned(old(Shown()).(cache := Unrelated(old(Cache()), target)), parent, true, now)
      ensures !(root <= parent) ==> Shown() == old(Shown()).(cache := Unrelated(old(Cache()), target))
      ensures RelatedIsCached(Cache(), target) <==> root <= parent && StillShows(old(Shown()), target)
    {
      hide CacheHolds, Listed, Turned, Unrelated, StillShows, RelatedIsCached, Run;
      ReturnsExactly(Shown(), target, parent, now);
      NoneIsRelated(Cache(), target);
      InvalidateMutation(target);
      BeginScanMode(parent, true, now);
    }

    method NavigateRoot(now: nat)
      requires Valid()
      modifies this
      ensures Valid() && old(ops) <= ops && path == root
    {
      if path == root && !scanning {
        return;
      }
      BeginScanMode(root, false, now);
    }

    method NavigateParent(now: nat)
      requires Valid()
      modifies this
      ensures Valid() && old(ops) <= ops && path == if old(path) == root then root else Parent(old(path))
    {
      if path == root {
        return;
      }
      var up := Parent(path);
      assert root <= up by {
        assert |root| < |path|;
      }
      WithinMeansPrefix(up, root);
      if !WithinRoot(up, root) {
        up := root;
      }
      BeginScanMode(up, false, now);
    }

    /** Any event of a session. Messages come from any scan ever started, however late. */
    method Handle(e: Event, now: nat)
      requires Valid()
      modifies this
      ensures Valid() && old(ops) <= ops
      ensures e.Arrives? && e.generation != old(generation) ==> Shown() == old(Shown())
    {
      match e {
        case Opens(target) =>
          if Clean(target) {
            BeginScanMode(target, false, now);
          }
        case Refreshes =>
          BeginScanMode(path, true, now);
        case GoesUp =>
          NavigateParent(now);
        case GoesToRoot =>
          NavigateRoot(now);
        case Switches(toStorage) =>
          SwitchPage(toStorage, now);
        case Prepares(available) =>
          PrepareAction(available, now);
        case Acted(target, parent) =>
          if Clean(target) && Clean(parent) {
            ApplyActionResult(target, parent, now);
          }
        case LooksForDuplicates(target) =>
          if Clean(target) {
            BeginDuplicateScan(target, now);
          }
        case LeavesDuplicates =>
          LeaveDuplicates();
        case Arrives(from, entries, finishedAt, last, failure) =>
          if from in launched {
            var found := ScanResult(Some(launched[from]), entries, finishedAt);
            if last {
              ApplyResult(Finished(from, found, failure), now);
            } else {
              var _ := ApplyProgress(Progress(from, found), now);
            }
          }
      }
    }

    /** Any run of events: what is displayed is never stale, and the cache stays within its bounds. */
    method HandleAll(events: seq<(Event, nat)>)
      requires Valid()
      modifies this
      ensures Valid() && NotStale() && |Cache()| <= CACHE_LIMIT
      ensures old(ops) <= ops && Current(Cache(), ops)
    {
      for i := 0 to |events|
        invariant Valid() && old(ops) <= ops
      {
        Handle(events[i].0, events[i].1);
      }
      RunIsCurrent(ops);
    }
  }

  datatype Event =
    | Opens(target: Path) | Refreshes | GoesUp | GoesToRoot
    | Switches(toStorage: bool) | Prepares(available: bool) | Acted(target: Path, parent: Path)
    | LooksForDuplicates(target: Path) | LeavesDuplicates
    | Arrives(generation: nat, entries: seq<Path>, finishedAt: nat, last: bool, failure: Option<Failure>)

  /** What is shown once a running scan does not count any more. */
  function GivenUp(v: View, now: nat, remember: bool): View {
    v.(generation := v.generation + 1, scanning := false, cache := if remember then Remembered(v, now) else v.cache)
  }

  /** What is shown after changing pages. */
  function Switched(v: View, wasThere: bool, toStorage: bool, now: nat): View {
    var left := if wasThere && !toStorage && v.scanning then GivenUp(v, now, true).(failed := false) else v;
    if toStorage && !left.scanning && left.result.finishedAt == 0 then Turned(left, left.path, false, now) else left
  }

  /** What is shown after turning to a directory below the root. */
  function Turned(v: View, target: Path, force: bool, now: nat): View {
    var stored := Remembered(v, now);
    var found := Lookup(stored, target);
    var usable := found.Some? && found.value.complete && now - found.value.cachedAt <= CACHE_TTL && !force;
    View(target, if found.Some? then found.value.result else EmptyResult(), false, !usable, v.generation + 1,
         found.Some?, Touch(stored, target))
  }

  /** What is shown after a message of the current generation was taken in. */
  function Received(v: View, msg: Message, now: nat): View {
    if msg.Finished? && msg.failure.Some? then
      if msg.failure.value == Canceled then v.(scanning := false)
      else if v.result.path.Some? then v.(scanning := false, failed := false, cacheHit := true)
      else v.(scanning := false, failed := true)
    else
      var complete := msg.Finished?;
      v.(result := msg.result, failed := false, cacheHit := false, scanning := v.scanning && !complete,
         cache := if msg.result.path.None? || (!complete && msg.result.entries == []) then v.cache
                  else Store(v.cache, msg.result.path.value, Cached(msg.result, complete, now)))
  }

  /** The cache after the displayed result was stored. */
  function Remembered(v: View, now: nat): seq<Entry<Cached>> {
    var r := v.result;
    if r.path.None? then v.cache
    else
      var complete := r.finishedAt != 0 && !v.scanning;
      var found := Lookup(v.cache, r.path.value);
      if (!complete && r.entries == []) || (complete && found.Some? && found.value.complete) then v.cache
      else Store(v.cache, r.path.value, Cached(r, complete, if complete then r.finishedAt else now))
  }

  /** Correcting the time of the entry just stored is storing it with that time. */
  lemma RestampLast(order: seq<Path>, cache: map<Path, Cached>, before: seq<Entry<Cached>>, path: Path, value: Cached,
                    time: nat)
    requires CacheHolds(order, cache) && Listed(order, cache) == Store(before, path, value)
    ensures path in cache && cache[path] == value && order != [] && order[|order| - 1] == path
    ensures Listed(order, cache[path := value.(cachedAt := time)]) == Store(before, path, value.(cachedAt := time))
  {
    hide Without;
    var all := Without(before, path) + [Entry(path, value)];
    var stored := Newest(all);
    assert stored[|stored| - 1] == Entry(path, value);
    ListedHas(order, cache);
    var n := |order| - 1;
    assert Listed(order, cache)[n] == Entry(order[n], cache[order[n]]);
    var newer := cache[path := value.(cachedAt := time)];
    ListedHas(order, newer);
    var other := Without(before, path) + [Entry(path, value.(cachedAt := time))];
    assert Newest(other) == Newest(all)[..n] + [Entry(path, value.(cachedAt := time))];
    forall i | 0 <= i < |order|
      ensures Listed(order, newer)[i] == Newest(other)[i]
    {
      if i < n {
        assert order[i] != path;
        assert Listed(order, cache)[i] == stored[i];
      }
    }
  }

  lemma {:induction false} FoundAtEnd(list: seq<Entry<Cached>>, path: Path, value: Cached)
    requires forall e :: e in list ==> e.path != path
    ensures Lookup(list + [Entry(path, value)], path) == Some(value)
    decreases list
  {
    if list != [] {
      assert list[0] in list;
      assert (list + [Entry(path, value)])[1..] == list[1..] + [Entry(path, value)];
      FoundAtEnd(list[1..], path, value);
    }
  }

  lemma FoundAfterStore(list: seq<Entry<Cached>>, path: Path, value: Cached)
    ensures Lookup(Store(list, path, value), path) == Some(value)
    ensures Lookup(Touch(Store(list, path, value), path), path) == Some(value)
  {
    KeepHas(list, p => p != path);
    var others := Without(list, path);
    var all := others + [Entry(path, value)];
    if |all| > CACHE_LIMIT {
      var n := |all| - CACHE_LIMIT;
      assert all[n..] == others[n..] + [Entry(path, value)];
      FoundAtEnd(others[n..], path, value);
    } else {
      FoundAtEnd(others, path, value);
    }
    var stored := Store(list, path, value);
    KeepHas(stored, p => p != path);
    FoundAtEnd(Without(stored, path), path, value);
  }

  /**
   * The refresh that follows a deletion does not start from a clean page: the finished map on display is stored again
   * after the invalidation, and stays on display until the new scan reports.
   */
  lemma RefreshRestoresOldMap(v: View, target: Path, parent: Path, now: nat)
    requires v.result.path == Some(parent) && v.result.finishedAt != 0 && !v.scanning && Related(parent, target)
    ensures var shown := Turned(v.(cache := Unrelated(v.cache, target)), parent, true, now);
            && shown.result == v.result && shown.scanning && shown.cacheHit
            && Lookup(shown.cache, parent) == Some(Cached(v.result, true, v.result.finishedAt))
  {
    var dropped := Unrelated(v.cache, target);
    var value := Cached(v.result, true, v.result.finishedAt);
    LookupFinds(dropped, parent);
    KeepHas(v.cache, p => !Related(p, target));
    assert Lookup(dropped, parent).None?;
    assert Remembered(v.(cache := dropped), now) == Store(dropped, parent, value);
    FoundAfterStore(dropped, parent, value);
  }

  // ---- What comes back after an invalidation ---------------------------------------------------------------------

  ghost predicate HasPath(list: seq<Entry<Cached>>, path: Path) {
    exists e :: e in list && e.path == path
  }

  lemma StorePaths(list: seq<Entry<Cached>>, path: Path, value: Cached)
    ensures HasPath(Store(list, path, value), path)
    ensures forall e :: e in Store(list, path, value) ==> e in list || e.path == path
  {
    KeepHas(list, p => p != path);
    var all := Without(list, path) + [Entry(path, value)];
    assert Newest(all)[|Newest(all)| - 1] == Entry(path, value);
  }

  lemma TouchPaths(list: seq<Entry<Cached>>, path: Path, p: Path)
    ensures HasPath(Touch(list, path), p) <==> HasPath(list, p)
  {
    KeepHas(list, q => q != path);
    LookupFinds(list, path);
    var found := Lookup(list, path);
    if found.Some? {
      var entry := Entry(path, found.value);
      assert Touch(list, path) == Without(list, path) + [entry];
      assert entry in Touch(list, path) && entry in list;
      if HasPath(list, p) && p != path {
        var e :| e in list && e.path == p;
        assert e in Touch(list, path);
      }
    }
  }

  /** Something related to a changed path is stored. */
  ghost predicate RelatedIsCached(list: seq<Entry<Cached>>, target: Path) {
    exists e :: e in list && Related(e.path, target)
  }

  lemma NoneIsRelated(list: seq<Entry<Cached>>, target: Path)
    ensures !RelatedIsCached(Unrelated(list, target), target)
  {
    KeepHas(list, p => !Related(p, target));
  }

  /** The displayed map is related to a path, and worth storing: it is finished, or shows some entry. */
  predicate StillShows(v: View, target: Path) {
    && v.result.path.Some? && Related(v.result.path.value, target)
    && ((v.result.finishedAt != 0 && !v.scanning) || v.result.entries != [])
  }

  lemma RememberedHas(v: View, target: Path, now: nat)
    ensures RelatedIsCached(Remembered(v.(cache := Unrelated(v.cache, target)), now), target) <==> StillShows(v, target)
  {
    var dropped := Unrelated(v.cache, target);
    var stored := Remembered(v.(cache := dropped), now);
    KeepHas(v.cache, p => !Related(p, target));
    if stored != dropped {
      var path := v.result.path.value;
      var complete := v.result.finishedAt != 0 && !v.scanning;
      StorePaths(dropped, path, Cached(v.result, complete, if complete then v.result.finishedAt else now));
    }
    if StillShows(v, target) {
      LookupFinds(dropped, v.result.path.value);
      assert Lookup(dropped, v.result.path.value).None?;
      StorePaths(dropped, v.result.path.value,
                 Cached(v.result, v.result.finishedAt != 0 && !v.scanning,
                        if v.result.finishedAt != 0 && !v.scanning then v.result.finishedAt else now));
    }
  }

  /**
   * After an action on a path, its directory refreshed, the cache holds something related to the path again if and
   * only if the map on display was related to it and worth storing.
   */
  lemma ReturnsExactly(v: View, target: Path, parent: Path, now: nat)
    ensures RelatedIsCached(Turned(v.(cache := Unrelated(v.cache, target)), parent, true, now).cache, target)
            <==> StillShows(v, target)
  {
    hide Remembered, StillShows, Unrelated;
    RememberedHas(v, target, now);
    var stored := Remembered(v.(cache := Unrelated(v.cache, target)), now);
    var after := Turned(v.(cache := Unrelated(v.cache, target)), parent, true, now).cache;
    assert after == Touch(stored, parent);
    if RelatedIsCached(after, target) {
      var e :| e in after && Related(e.path, target);
      TouchPaths(stored, parent, e.path);
    }
    if RelatedIsCached(stored, target) {
      var e :| e in stored && Related(e.path, target);
      assert HasPath(stored, e.path);
      TouchPaths(stored, parent, e.path);
    }
  }

  /** A file is deleted from the displayed directory, and the finished map that lists it is cached again. */
  lemma ReturnExample(now: nat)
    ensures var before := ScanResult(Some(["d"]), [["d", "f"]], 1);
            var shown := View(["d"], before, false, false, 1, false, [Entry(["d"], Cached(before, true, 1))]);
            && Unrelated(shown.cache, ["d", "f"]) == []
            && RelatedIsCached(Turned(shown.(cache := []), ["d"], true, now).cache, ["d", "f"])
            && Turned(shown.(cache := []), ["d"], true, now).result == before
  {
    var before := ScanResult(Some(["d"]), [["d", "f"]], 1);
    var shown := View(["d"], before, false, false, 1, false, [Entry(["d"], Cached(before, true, 1))]);
    assert ["d"] <= ["d", "f"];
    assert Unrelated(shown.cache, ["d", "f"]) == Unrelated(shown.cache[1..], ["d", "f"]) == [];
    ReturnsExactly(shown, ["d", "f"], ["d"], now);
    RefreshRestoresOldMap(shown, ["d", "f"], ["d"], now);
  }
}
