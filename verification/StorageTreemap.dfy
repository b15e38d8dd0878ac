/** The layout of the storage map: a box divided among entries by recursive splits. */
module StorageTreemap {
  import opened Base
  import StoragePager

  /** An entry by its position in the displayed list, with its weight. */
  datatype Item = Item(entry: nat, weight: nat)

  datatype Box = Box(x: int, y: int, width: int, height: int)

  datatype Rect = Rect(entry: nat, box: Box)

  predicate Contains(b: Box, x: int, y: int) {
    b.x <= x < b.x + b.width && b.y <= y < b.y + b.height
  }

  predicate IsPositive(b: Box) {
    b.width > 0 && b.height > 0
  }

  // ---- Splitting -------------------------------------------------------------------------------------------------

  function Sum(items: seq<Item>): nat {
    if items == [] then 0 else items[0].weight + Sum(items[1..])
  }

  lemma {:induction false} SumAppends(a: seq<Item>, b: seq<Item>)
    ensures Sum(a + b) == Sum(a) + Sum(b)
    decreases a
  {
    if a == [] {
      assert a + b == b;
    } else {
      assert (a + b)[1..] == a[1..] + b;
      SumAppends(a[1..], b);
    }
  }

  lemma SumNext(items: seq<Item>, n: nat)
    requires n < |items|
    ensures Sum(items[..n + 1]) == Sum(items[..n]) + items[n].weight
  {
    assert items[..n + 1] == items[..n] + [items[n]];
    SumAppends(items[..n], [items[n]]);
    assert [items[n]][1..] == [];
  }

  /** Where items are divided: as late as the first part stays within half of the weight, but neither part is empty. */
  predicate SplitsAt(items: seq<Item>, split: nat) {
    && 1 <= split < |items|
    && (split == 1 || Sum(items[..split]) <= Sum(items) / 2)
    && (split + 1 < |items| ==> Sum(items[..split + 1]) > Sum(items) / 2)
  }

  lemma {:induction false} SumGrows(items: seq<Item>, a: nat, b: nat)
    requires a <= b <= |items|
    ensures Sum(items[..a]) <= Sum(items[..b])
    decreases b
  {
    if a < b {
      SumGrows(items, a, b - 1);
      SumNext(items, b - 1);
    }
  }

  /** There is one such place. */
  lemma SplitIsUnique(items: seq<Item>, a: nat, b: nat)
    requires SplitsAt(items, a) && SplitsAt(items, b)
    ensures a == b
  {
    if a < b {
      SumGrows(items, a + 1, b);
    } else if b < a {
      SumGrows(items, b + 1, a);
    }
  }

  /** Finds the place; the two corrections that follow the search never apply. */
  method FindSplit(items: seq<Item>) returns (split: nat, firstWeight: nat)
    requires |items| >= 2
    ensures SplitsAt(items, split) && firstWeight == Sum(items[..split])
  {
    var total := 0;
    assert items[..0] == [];
    for i := 0 to |items|
      invariant total == Sum(items[..i])
    {
      SumNext(items, i);
      total := total + items[i].weight;
    }
    assert items[..|items|] == items;
    var half := total / 2;
    firstWeight, split := 0, 1;
    while split < |items|
      invariant 1 <= split <= |items| && firstWeight == Sum(items[..split - 1])
      invariant split <= 2 || firstWeight <= half
    {
      SumNext(items, split - 1);
      var next := firstWeight + items[split - 1].weight;
      if split > 1 && next > half {
        break;
      }
      firstWeight := next;
      split := split + 1;
    }
    split := split - 1;
    var corrected := split < 1 || split >= |items|;
    assert !corrected;
  }

  // ---- Placing ---------------------------------------------------------------------------------------------------

  /** Rounds the share of a length that goes to the first part, half upwards. */
  function Share(length: int, first: nat, total: nat): int
    requires total > 0
  {
    (2 * length * first + total) / (2 * total)
  }

  function FirstLength(length: int, share: int): int {
    Min(length - 1, Max(1, share))
  }

  /** The place to divide, found by looking. */
  function SplitOf(items: seq<Item>, from: nat): (split: nat)
    requires 1 <= from < |items|
    ensures from <= split < |items|
    decreases |items| - from
  {
    if from + 1 < |items| && Sum(items[..from + 1]) <= Sum(items) / 2 then SplitOf(items, from + 1) else from
  }

  lemma {:induction false} SplitOfSplits(items: seq<Item>, from: nat)
    requires 1 <= from < |items| && (from == 1 || Sum(items[..from]) <= Sum(items) / 2)
    ensures SplitsAt(items, SplitOf(items, from))
    decreases |items| - from
  {
    if from + 1 < |items| && Sum(items[..from + 1]) <= Sum(items) / 2 {
      SplitOfSplits(items, from + 1);
    }
  }

  /** The part of a box for the first items, cut off the longer side (a cell is twice as high as it is wide). */
  function FirstBox(b: Box, share: int): Box {
    if b.width >= b.height * 2 then b.(width := FirstLength(b.width, share))
    else b.(height := FirstLength(b.height, share))
  }

  function SecondBox(b: Box, share: int): Box {
    if b.width >= b.height * 2 then
      b.(x := b.x + FirstLength(b.width, share), width := b.width - FirstLength(b.width, share))
    else
      b.(y := b.y + FirstLength(b.height, share), height := b.height - FirstLength(b.height, share))
  }

  function Divided(b: Box): int {
    if b.width >= b.height * 2 then b.width else b.height
  }

  /**
   * The rectangles of a box. `round` gives the share of the first part before it is clamped; it may be any function,
   * so nothing below depends on how fractions are computed.
   */
  function Place(items: seq<Item>, b: Box, round: (int, nat, nat) -> int): seq<Rect>
    decreases |items|
  {
    if items == [] || !IsPositive(b) then []
    else if |items| == 1 || (b.width == 1 && b.height == 1) then [Rect(items[0].entry, b)]
    else
      var split := SplitOf(items, 1);
      var share := round(Divided(b), Sum(items[..split]), Sum(items));
      Place(items[..split], FirstBox(b, share), round) + Place(items[split..], SecondBox(b, share), round)
  }

  /** A box is divided into two positive parts, whatever the share. */
  lemma BoxIsDivided(b: Box, share: int, x: int, y: int)
    requires IsPositive(b) && !(b.width == 1 && b.height == 1)
    ensures IsPositive(FirstBox(b, share)) && IsPositive(SecondBox(b, share))
    ensures Contains(b, x, y) <==> Contains(FirstBox(b, share), x, y) || Contains(SecondBox(b, share), x, y)
    ensures !(Contains(FirstBox(b, share), x, y) && Contains(SecondBox(b, share), x, y))
  {
  }

  /** How many rectangles contain a cell. */
  function Cover(rects: seq<Rect>, x: int, y: int): nat {
    if rects == [] then 0 else (if Contains(rects[0].box, x, y) then 1 else 0) + Cover(rects[1..], x, y)
  }

  lemma {:induction false} CoverAppends(a: seq<Rect>, b: seq<Rect>, x: int, y: int)
    ensures Cover(a + b, x, y) == Cover(a, x, y) + Cover(b, x, y)
    decreases a
  {
    if a == [] {
      assert a + b == b;
    } else {
      assert (a + b)[1..] == a[1..] + b;
      CoverAppends(a[1..], b, x, y);
    }
  }

  predicate Positive(rects: seq<Rect>) {
    forall i :: 0 <= i < |rects| ==> IsPositive(rects[i].box)
  }

  /** The rectangles of a box cover each of its cells once and no other cell, and none is empty. */
  lemma {:induction false} PlaceTiles(items: seq<Item>, b: Box, round: (int, nat, nat) -> int, x: int, y: int)
    requires items != [] && IsPositive(b)
    ensures Cover(Place(items, b, round), x, y) == if Contains(b, x, y) then 1 else 0
    ensures Positive(Place(items, b, round))
    decreases |items|
  {
    hide Contains, IsPositive, FirstBox, SecondBox, Divided, SplitOf;
    if |items| == 1 || (b.width == 1 && b.height == 1) {
      assert Place(items, b, round)[1..] == [];
    } else {
      var split := SplitOf(items, 1);
      var share := round(Divided(b), Sum(items[..split]), Sum(items));
      BoxIsDivided(b, share, x, y);
      PlaceTiles(items[..split], FirstBox(b, share), round, x, y);
      PlaceTiles(items[split..], SecondBox(b, share), round, x, y);
      CoverAppends(Place(items[..split], FirstBox(b, share), round), Place(items[split..], SecondBox(b, share), round),
                   x, y);
    }
  }

  lemma {:induction false} CoverCounts(rects: seq<Rect>, i: nat, x: int, y: int)
    requires i < |rects| && Contains(rects[i].box, x, y)
    ensures Cover(rects, x, y) >= 1
    decreases i
  {
    if i > 0 {
      CoverCounts(rects[1..], i - 1, x, y);
    }
  }

  lemma {:induction false} CoverCountsTwo(rects: seq<Rect>, i: nat, j: nat, x: int, y: int)
    requires i < j < |rects| && Contains(rects[i].box, x, y) && Contains(rects[j].box, x, y)
    ensures Cover(rects, x, y) >= 2
    decreases i
  {
    if i > 0 {
      CoverCountsTwo(rects[1..], i - 1, j - 1, x, y);
    } else {
      CoverCounts(rects[1..], j - 1, x, y);
    }
  }

  /** No two rectangles share a cell, and every rectangle lies in the box. */
  lemma PlacedApart(items: seq<Item>, b: Box, round: (int, nat, nat) -> int, i: nat, x: int, y: int)
    requires items != [] && IsPositive(b) && i < |Place(items, b, round)|
    requires Contains(Place(items, b, round)[i].box, x, y)
    ensures Contains(b, x, y)
    ensures forall j :: i < j < |Place(items, b, round)| ==> !Contains(Place(items, b, round)[j].box, x, y)
  {
    var rects := Place(items, b, round);
    PlaceTiles(items, b, round, x, y);
    CoverCounts(rects, i, x, y);
    forall j | i < j < |rects|
      ensures !Contains(rects[j].box, x, y)
    {
      if Contains(rects[j].box, x, y) {
        CoverCountsTwo(rects, i, j, x, y);
      }
    }
  }

  // ---- Which entries are shown -----------------------------------------------------------------------------------

  function Shown(rects: seq<Rect>): seq<nat> {
    seq(|rects|, i requires 0 <= i < |rects| => rects[i].entry)
  }

  function Given(items: seq<Item>): seq<nat> {
    seq(|items|, i requires 0 <= i < |items| => items[i].entry)
  }

  /** The shown entries are given entries, in their order. */
  lemma {:induction false} ShownInOrder(items: seq<Item>, b: Box, round: (int, nat, nat) -> int)
    ensures Subsequence(Shown(Place(items, b, round)), Given(items))
    decreases |items|
  {
    hide FirstBox, SecondBox, Divided, SplitOf, Sum;
    var rects := Place(items, b, round);
    if items == [] || !IsPositive(b) {
    } else if |items| == 1 || (b.width == 1 && b.height == 1) {
      assert Shown(rects) == [items[0].entry] && Given(items)[0] == items[0].entry && Shown(rects)[1..] == [];
    } else {
      var split := SplitOf(items, 1);
      var share := round(Divided(b), Sum(items[..split]), Sum(items));
      ShownInOrder(items[..split], FirstBox(b, share), round);
      ShownInOrder(items[split..], SecondBox(b, share), round);
      var first, second := Place(items[..split], FirstBox(b, share), round),
                           Place(items[split..], SecondBox(b, share), round);
      SubsequencesAppend(Shown(first), Given(items[..split]), Shown(second), Given(items[split..]));
      assert Shown(rects) == Shown(first) + Shown(second);
      assert Given(items) == Given(items[..split]) + Given(items[split..]);
    }
  }

  // ---- The layout ------------------------------------------------------------------------------------------------

  function Weighted(sizes: seq<nat>): seq<Item> {
    seq(|sizes|, i requires 0 <= i < |sizes| => Item(i, StoragePager.Weight(sizes[i])))
  }

  /** The layout in progress. */
  class Layout {
    var rectangles: seq<Rect>

    constructor ()
      ensures rectangles == []
    {
      rectangles := [];
    }

    method PlaceItems(items: seq<Item>, left: int, top: int, w: int, h: int)
      modifies this
      ensures rectangles == old(rectangles) + Place(items, Box(left, top, w, h), RoundShare)
      decreases |items|
    {
      hide Sum, SplitsAt, SplitOf, FirstLength, Share, Place, FirstBox, SecondBox;
      PlaceParts(items, Box(left, top, w, h), RoundShare);
      if |items| == 0 || w <= 0 || h <= 0 {
        return;
      }
      if |items| == 1 || (w == 1 && h == 1) {
        rectangles := rectangles + [Rect(items[0].entry, Box(left, top, w, h))];
        return;
      }
      var split, firstWeight := FindSplit(items);
      SplitIsFound(items, split);
      ghost var was, b := rectangles, Box(left, top, w, h);
      var ratio := RoundShare(if w >= h * 2 then w else h, firstWeight, Sum(items));
      BoxesAre(b, ratio);
      if w >= h * 2 {
        var firstWidth := FirstLength(w, ratio);
        PlaceItems(items[..split], left, top, firstWidth, h);
        PlaceItems(items[split..], left + firstWidth, top, w - firstWidth, h);
      } else {
        var firstHeight := FirstLength(h, ratio);
        PlaceItems(items[..split], left, top, w, firstHeight);
        PlaceItems(items[split..], left, top + firstHeight, w, h - firstHeight);
      }
      assert rectangles == was + (Place(items[..split], FirstBox(b, ratio), RoundShare)
                                  + Place(items[split..], SecondBox(b, ratio), RoundShare));
    }
  }

  /** One level of the recursion. */
  lemma PlaceParts(items: seq<Item>, b: Box, round: (int, nat, nat) -> int)
    ensures items == [] || !IsPositive(b) ==> Place(items, b, round) == []
    ensures items != [] && IsPositive(b) && (|items| == 1 || (b.width == 1 && b.height == 1)) ==>
              Place(items, b, round) == [Rect(items[0].entry, b)]
    ensures |items| >= 2 && IsPositive(b) && !(b.width == 1 && b.height == 1) ==>
              var split := SplitOf(items, 1);
              var share := round(Divided(b), Sum(items[..split]), Sum(items));
              Place(items, b, round)
              == Place(items[..split], FirstBox(b, share), round) + Place(items[split..], SecondBox(b, share), round)
  {
  }

  lemma BoxesAre(b: Box, share: int)
    ensures b.width >= b.height * 2 ==>
              && FirstBox(b, share) == Box(b.x, b.y, FirstLength(b.width, share), b.height)
              && SecondBox(b, share)
                 == Box(b.x + FirstLength(b.width, share), b.y, b.width - FirstLength(b.width, share), b.height)
    ensures b.width < b.height * 2 ==>
              && FirstBox(b, share) == Box(b.x, b.y, b.width, FirstLength(b.height, share))
              && SecondBox(b, share)
                 == Box(b.x, b.y + FirstLength(b.height, share), b.width, b.height - FirstLength(b.height, share))
  {
  }

  lemma SplitIsFound(items: seq<Item>, split: nat)
    requires |items| >= 2 && SplitsAt(items, split)
    ensures split == SplitOf(items, 1) && 1 <= split < |items|
  {
    SplitOfSplits(items, 1);
    SplitIsUnique(items, split, SplitOf(items, 1));
  }

  function RoundShare(length: int, first: nat, total: nat): int {
    if total == 0 then 0 else Share(length, first, total)
  }

  /** The map of a page: positive, disjoint rectangles that tile the box, for entries in their order. */
  method LayoutTreemap(sizes: seq<nat>, x: int, y: int, width: int, height: int) returns (rects: seq<Rect>)
    ensures sizes == [] || width <= 0 || height <= 0 ==> rects == []
    ensures rects == Place(Weighted(sizes), Box(x, y, width, height), RoundShare)
    ensures sizes != [] && width > 0 && height > 0 ==> Positive(rects) && Tiles(rects, Box(x, y, width, height))
    ensures Subsequence(Shown(rects), Given(Weighted(sizes)))
  {
    hide Place, Cover, Subsequence, Positive, Tiles, RoundShare;
    var b := Box(x, y, width, height);
    if |sizes| == 0 || width <= 0 || height <= 0 {
      rects := [];
      NothingPlaced(Weighted(sizes), b);
      return;
    }
    var weighted: seq<Item> := [];
    for i := 0 to |sizes|
      invariant |weighted| == i && forall k :: 0 <= k < i ==> weighted[k] == Item(k, StoragePager.Weight(sizes[k]))
    {
      var weight := sizes[i];
      if weight == 0 {
        weight := 1;
      }
      weighted := weighted + [Item(i, weight)];
    }
    assert weighted == Weighted(sizes);
    var layout := new Layout();
    layout.PlaceItems(weighted, x, y, width, height);
    rects := layout.rectangles;
    assert [] + Place(weighted, b, RoundShare) == Place(weighted, b, RoundShare);
    ShownInOrder(weighted, b, RoundShare);
    PlacementTiles(weighted, b, RoundShare);
  }

  /** Each cell of the box is covered once, and nothing outside. */
  ghost predicate Tiles(rects: seq<Rect>, b: Box) {
    forall x, y :: Cover(rects, x, y) == if Contains(b, x, y) then 1 else 0
  }

  lemma PlacementTiles(items: seq<Item>, b: Box, round: (int, nat, nat) -> int)
    requires items != [] && IsPositive(b)
    ensures Tiles(Place(items, b, round), b) && Positive(Place(items, b, round))
  {
    forall x, y
      ensures Cover(Place(items, b, round), x, y) == if Contains(b, x, y) then 1 else 0
    {
      PlaceTiles(items, b, round, x, y);
    }
    PlaceTiles(items, b, round, 0, 0);
  }

  lemma NothingPlaced(items: seq<Item>, b: Box)
    requires items == [] || !IsPositive(b)
    ensures Place(items, b, RoundShare) == [] && Subsequence(Shown([]), Given(items))
  {
  }
}
