/** Cutting the entries of a directory into pages of the map. */
module StoragePager {
  import opened Base

  const MAXIMUM_SIZE_RATIO := 24

  type Page = (nat, nat)

  /** How many entries fit on a page of the given size. */
  function Capacity(width: int, height: int): (n: nat)
    ensures 4 <= n <= 16
  {
    Min(16, Max(4, width * height / 64))
  }

  /** Empty entries count as one byte. */
  function Weight(size: nat): (w: nat)
    ensures w > 0
  {
    if size == 0 then 1 else size
  }

  /** The entry at `k` is too small to share a page with the first one, which holds four entries already. */
  predicate TooSmall(sizes: seq<nat>, start: nat, k: nat)
    requires start <= k < |sizes|
  {
    k - start >= 4 && Weight(sizes[start]) > Weight(sizes[k])
    && Weight(sizes[start]) / Weight(sizes[k]) > MAXIMUM_SIZE_RATIO
  }

  /** A page that may be shown. */
  predicate PageFits(sizes: seq<nat>, capacity: nat, start: nat, end: nat) {
    && start < end <= |sizes| && end - start <= capacity
    && forall k :: start < k < end ==> !TooSmall(sizes, start, k)
  }

  /** Consecutive pages from one position to the end. */
  predicate Partition(sizes: seq<nat>, capacity: nat, pages: seq<Page>, from: nat)
    decreases |pages|
  {
    if pages == [] then from == |sizes|
    else
      && pages[0].0 == from && PageFits(sizes, capacity, from, pages[0].1)
      && Partition(sizes, capacity, pages[1..], pages[0].1)
  }

  /** No page could take in one more entry. */
  predicate Filled(sizes: seq<nat>, capacity: nat, pages: seq<Page>) {
    forall i :: 0 <= i < |pages| ==> !PageFits(sizes, capacity, pages[i].0, pages[i].1 + 1)
  }

  lemma {:induction false} PartitionAppends(sizes: seq<nat>, capacity: nat, pages: seq<Page>, page: Page, from: nat)
    requires PagesUpTo(sizes, capacity, pages, from, page.0) && PageFits(sizes, capacity, page.0, page.1)
    ensures PagesUpTo(sizes, capacity, pages + [page], from, page.1)
    decreases |pages|
  {
    if pages == [] {
      assert ([] + [page])[1..] == [];
    } else {
      assert (pages + [page])[1..] == pages[1..] + [page];
      PartitionAppends(sizes, capacity, pages[1..], page, pages[0].1);
    }
  }

  /** Consecutive pages from one position up to another. */
  predicate PagesUpTo(sizes: seq<nat>, capacity: nat, pages: seq<Page>, from: nat, to: nat)
    decreases |pages|
  {
    if pages == [] then from == to
    else
      && pages[0].0 == from && PageFits(sizes, capacity, from, pages[0].1)
      && PagesUpTo(sizes, capacity, pages[1..], pages[0].1, to)
  }

  lemma {:induction false} UpToTheEnd(sizes: seq<nat>, capacity: nat, pages: seq<Page>, from: nat)
    ensures PagesUpTo(sizes, capacity, pages, from, |sizes|) <==> Partition(sizes, capacity, pages, from)
    decreases |pages|
  {
    if pages != [] {
      UpToTheEnd(sizes, capacity, pages[1..], pages[0].1);
    }
  }

  /** The page ranges: a partition of the entries into pages that fit, each as long as it can be. */
  method PageRanges(sizes: seq<nat>, width: int, height: int) returns (ranges: seq<Page>)
    ensures sizes == [] ==> ranges == [(0, 0)]
    ensures sizes != [] ==>
              && Partition(sizes, Capacity(width, height), ranges, 0)
              && Filled(sizes, Capacity(width, height), ranges)
  {
    if |sizes| == 0 {
      return [(0, 0)];
    }
    var capacity := Capacity(width, height);
    ranges := [];
    var start := 0;
    while start < |sizes|
      invariant start <= |sizes|
      invariant PagesUpTo(sizes, capacity, ranges, 0, start) && Filled(sizes, capacity, ranges)
    {
      var end := start + 1;
      var largest := sizes[start];
      if largest == 0 {
        largest := 1;
      }
      while end < |sizes| && end - start < capacity
        invariant PageFits(sizes, capacity, start, end) && largest == Weight(sizes[start])
      {
        var candidate := sizes[end];
        if candidate == 0 {
          candidate := 1;
        }
        if end - start >= 4 && largest > candidate && largest / candidate > MAXIMUM_SIZE_RATIO {
          assert TooSmall(sizes, start, end);
          break;
        }
        end := end + 1;
      }
      PartitionAppends(sizes, capacity, ranges, (start, end), 0);
      ranges := ranges + [(start, end)];
      start := end;
    }
    UpToTheEnd(sizes, capacity, ranges, 0);
  }

  // ---- No partition is shorter -----------------------------------------------------------------------------------

  predicate LargestFirst(sizes: seq<nat>) {
    forall i, j :: 0 <= i < j < |sizes| ==> sizes[i] >= sizes[j]
  }

  /** Dividing less by the same gives no more. */
  lemma RatioShrinks(a: nat, b: nat, c: nat)
    requires a >= b && c > 0
    ensures a / c >= b / c
  {
    var q, r := a / c, a % c;
    var u, v := b / c, b % c;
    assert a == q * c + r && b == u * c + v && r < c;
    assert (u - q) * c == u * c - q * c;
    assert u - q >= 1 ==> (u - q) * c >= c;
  }

  /** With the largest entries first, a page that fits still fits when it starts later. */
  lemma StartsLater(sizes: seq<nat>, capacity: nat, start: nat, later: nat, end: nat)
    requires LargestFirst(sizes) && PageFits(sizes, capacity, start, end) && start <= later < end
    ensures PageFits(sizes, capacity, later, end)
  {
    forall k | later < k < end
      ensures !TooSmall(sizes, later, k)
    {
      assert !TooSmall(sizes, start, k);
      RatioShrinks(Weight(sizes[start]), Weight(sizes[later]), Weight(sizes[k]));
    }
  }

  /** A shorter page fits as well. */
  lemma EndsEarlier(sizes: seq<nat>, capacity: nat, start: nat, end: nat, earlier: nat)
    requires PageFits(sizes, capacity, start, end) && start < earlier <= end
    ensures PageFits(sizes, capacity, start, earlier)
  {
  }

  lemma ReachesNoFurther(sizes: seq<nat>, capacity: nat, behind: nat, otherEnd: nat, from: nat, end: nat)
    requires LargestFirst(sizes) && behind <= from && PageFits(sizes, capacity, behind, otherEnd)
    requires PageFits(sizes, capacity, from, end) && !PageFits(sizes, capacity, from, end + 1)
    ensures otherEnd <= end
  {
    var longer: nat := end + 1;
    if otherEnd >= longer {
      StartsLater(sizes, capacity, behind, from, otherEnd);
      EndsEarlier(sizes, capacity, from, otherEnd, longer);
    }
  }

  /** Filled pages that start no earlier than others are no more than the others. */
  lemma {:induction false} FilledIsShortest(sizes: seq<nat>, capacity: nat, filled: seq<Page>, from: nat,
                                           other: seq<Page>, behind: nat)
    requires LargestFirst(sizes) && behind <= from
    requires Partition(sizes, capacity, filled, from) && Filled(sizes, capacity, filled)
    requires Partition(sizes, capacity, other, behind)
    ensures |filled| <= |other|
    decreases |filled|
  {
    if filled != [] {
      assert other != [] by {
        assert from < |sizes|;
      }
      var end, otherEnd := filled[0].1, other[0].1;
      ReachesNoFurther(sizes, capacity, behind, otherEnd, from, end);
      assert Filled(sizes, capacity, filled[1..]) by {
        assert forall i :: 0 <= i < |filled[1..]| ==> filled[1..][i] == filled[i + 1];
      }
      FilledIsShortest(sizes, capacity, filled[1..], end, other[1..], otherEnd);
    }
  }

  /** The page on display: the requested one of the page ranges, moved into range. */
  method PageEntries(sizes: seq<nat>, width: int, height: int, requested: int)
    returns (page: nat, pages: nat, start: nat, end: nat, ghost ranges: seq<Page>)
    ensures sizes == [] ==> page == 0 && pages == 1 && start == end == 0
    ensures sizes != [] ==>
              && Partition(sizes, Capacity(width, height), ranges, 0)
              && Filled(sizes, Capacity(width, height), ranges)
              && page < pages == |ranges| && page == Min(Max(0, requested), pages - 1) && (start, end) == ranges[page]
              && PageFits(sizes, Capacity(width, height), start, end)
    ensures LargestFirst(sizes) && sizes != [] ==>
              forall other :: Partition(sizes, Capacity(width, height), other, 0) ==> pages <= |other|
  {
    if |sizes| == 0 {
      return 0, 1, 0, 0, [];
    }
    var spans := PageRanges(sizes, width, height);
    page := Min(Max(0, requested), |spans| - 1);
    pages, start, end, ranges := |spans|, spans[page].0, spans[page].1, spans;
    PageOfPartition(sizes, Capacity(width, height), ranges, 0, page);
    forall other | LargestFirst(sizes) && Partition(sizes, Capacity(width, height), other, 0)
      ensures pages <= |other|
    {
      FilledIsShortest(sizes, Capacity(width, height), ranges, 0, other, 0);
    }
  }

  lemma {:induction false} PageOfPartition(sizes: seq<nat>, capacity: nat, pages: seq<Page>, from: nat, i: nat)
    requires Partition(sizes, capacity, pages, from) && i < |pages|
    ensures PageFits(sizes, capacity, pages[i].0, pages[i].1)
    decreases i
  {
    if i > 0 {
      PageOfPartition(sizes, capacity, pages[1..], pages[0].1, i - 1);
    }
  }

  /** Every entry is on exactly one page. */
  lemma {:induction false} OnOnePage(sizes: seq<nat>, capacity: nat, pages: seq<Page>, from: nat, k: nat)
    requires Partition(sizes, capacity, pages, from) && from <= k < |sizes|
    ensures exists i :: 0 <= i < |pages| && pages[i].0 <= k < pages[i].1
                        && forall j :: 0 <= j < |pages| && pages[j].0 <= k < pages[j].1 ==> j == i
    decreases |pages|
  {
    if k < pages[0].1 {
      forall j | 0 < j < |pages|
        ensures pages[j].0 > k
      {
        LaterPage(sizes, capacity, pages[1..], pages[0].1, j - 1);
      }
    } else {
      OnOnePage(sizes, capacity, pages[1..], pages[0].1, k);
      var i :| 0 <= i < |pages[1..]| && pages[1..][i].0 <= k < pages[1..][i].1
               && forall j :: 0 <= j < |pages[1..]| && pages[1..][j].0 <= k < pages[1..][j].1 ==> j == i;
      forall j | 0 <= j < |pages| && pages[j].0 <= k < pages[j].1
        ensures j == i + 1
      {
        assert j > 0 && pages[1..][j - 1] == pages[j];
      }
      assert pages[i + 1] == pages[1..][i];
    }
  }

  lemma {:induction false} LaterPage(sizes: seq<nat>, capacity: nat, pages: seq<Page>, from: nat, i: nat)
    requires Partition(sizes, capacity, pages, from) && i < |pages|
    ensures pages[i].0 >= from
    decreases i
  {
    if i > 0 {
      LaterPage(sizes, capacity, pages[1..], pages[0].1, i - 1);
    }
  }
}
