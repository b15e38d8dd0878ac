/** The geometry of the CPU chart: how many bars fit, where each bar stands, and which bar was clicked. */
module CpuChart {
  import opened Base

  const GROUP := 16

  datatype Layout = Layout(columns: nat, barHeight: nat, start: nat, end: nat, plotWidth: nat, historyWidth: nat)

  /** The least width of a plot with this many bars: one cell a bar, and a blank after every sixteen. */
  function MinimumPlot(columns: int): int {
    columns + (columns - 1) / GROUP
  }

  /** What any layout satisfies. */
  predicate Sound(l: Layout) {
    l.columns >= 1 && MinimumPlot(l.columns) <= l.plotWidth && l.barHeight >= 2 && l.start <= l.end
    && l.end - l.start <= 2 * l.columns
  }

  lemma MoreIsWider(a: int, b: int)
    requires 1 <= a <= b
    ensures MinimumPlot(a) <= MinimumPlot(b)
  {
  }

  lemma WidthOfPlot()
    ensures forall n: nat :: n >= 1 ==> MinimumPlot(n) == n + (n - 1) / GROUP >= n
  {
  }

  /** The largest number of bars up to `columns` that fits into a plot. */
  function Widest(columns: nat, plotWidth: nat): nat {
    if columns <= 1 || MinimumPlot(columns) <= plotWidth then columns else Widest(columns - 1, plotWidth)
  }

  /** That number in whole groups, if a group fits. */
  function Fitting(plotWidth: nat): nat {
    var n := Widest(plotWidth, plotWidth);
    if n >= GROUP then n - n % GROUP else n
  }

  /** How many bars stand in a row of the chart. */
  function Columns(count: nat, width: int): (n: nat)
    ensures n >= 1
  {
    Max(1, Min(count, Fitting(Max(1, width - 4))))
  }

  /** The cores of the page that shows the selected one. */
  function Page(count: nat, width: int, selected: int): (nat, nat) {
    var size := 2 * Columns(count, width);
    var start := PageStart(Min(Max(0, selected), Max(0, count - 1)), size);
    (start, Min(count, start + size))
  }

  /** Pages of one length follow each other from the first core on. */
  function PageStart(chosen: nat, size: nat): (start: nat)
    requires size > 0
    ensures start <= chosen < start + size
  {
    PageHasIt(chosen, size);
    chosen / size * size
  }

  /** As many bars as fit into a plot, in whole groups if a group fits. */
  method FittingColumns(plotWidth: nat) returns (columns: nat)
    requires plotWidth >= 1
    ensures columns == Fitting(plotWidth)
    ensures 1 <= columns && MinimumPlot(columns) <= plotWidth
    ensures columns < GROUP || columns % GROUP == 0
    ensures forall wider: nat :: columns < wider && (wider < GROUP || wider % GROUP == 0) ==> MinimumPlot(wider) > plotWidth
  {
    FittingMeans(plotWidth);
    columns := plotWidth;
    while columns + (columns - 1) / GROUP > plotWidth
      invariant 1 <= columns <= plotWidth && Widest(columns, plotWidth) == Widest(plotWidth, plotWidth)
    {
      columns := columns - 1;
    }
    if columns >= GROUP {
      columns := columns - columns % GROUP;
    }
  }

  lemma {:induction false} WidestMeans(n: nat, plotWidth: nat)
    requires 1 <= n && 1 <= plotWidth
    ensures 1 <= Widest(n, plotWidth) <= n && MinimumPlot(Widest(n, plotWidth)) <= plotWidth
    ensures forall wider: nat :: Widest(n, plotWidth) < wider <= n ==> MinimumPlot(wider) > plotWidth
  {
    if n > 1 && MinimumPlot(n) > plotWidth {
      WidestMeans(n - 1, plotWidth);
    }
  }

  /** No larger number of bars, in whole groups or less than one, fits. */
  lemma FittingMeans(plotWidth: nat)
    requires plotWidth >= 1
    ensures 1 <= Fitting(plotWidth) <= plotWidth && MinimumPlot(Fitting(plotWidth)) <= plotWidth
    ensures Fitting(plotWidth) < GROUP || Fitting(plotWidth) % GROUP == 0
    ensures forall wider: nat :: Fitting(plotWidth) < wider && (wider < GROUP || wider % GROUP == 0) ==>
                                   MinimumPlot(wider) > plotWidth
  {
    hide MinimumPlot, Widest;
    var n, fitting := Widest(plotWidth, plotWidth), Fitting(plotWidth);
    WidestMeans(plotWidth, plotWidth);
    WidthOfPlot();
    RoundedDown(n);
    MoreIsWider(fitting, n);
    forall wider: nat | fitting < wider && (wider < GROUP || wider % GROUP == 0)
      ensures MinimumPlot(wider) > plotWidth
    {
      if wider <= n {
        NoGroupBetween(n, wider);
      }
    }
  }

  lemma RoundedDown(n: nat)
    requires n >= 1
    ensures var down := if n >= GROUP then n - n % GROUP else n;
            1 <= down <= n && (down < GROUP || down % GROUP == 0)
  {
  }

  /**
   * The layout for a number of cores: as many bars as fit but no more than there are cores, two rows of them to a
   * page, and the page that shows the selected core.
   */
  method NewLayout(count: nat, width: int, terminalHeight: int, selected: int) returns (l: Layout)
    ensures l.columns == Columns(count, width) && (l.start, l.end) == Page(count, width, selected)
    ensures Sound(l) && l.columns <= Max(1, count)
    ensures l.columns > GROUP && l.columns < count ==> l.columns % GROUP == 0
    ensures forall wider: nat :: l.columns < wider <= count && (wider < GROUP || wider % GROUP == 0) ==>
                                   MinimumPlot(wider) > Max(1, width - 4)
    ensures l.plotWidth + (if l.historyWidth > 0 then l.historyWidth + 3 else 0) == Max(1, width - 4)
    ensures l.start % (2 * l.columns) == 0 && l.end == Min(count, l.start + 2 * l.columns)
    ensures count > 0 ==> l.start <= Min(Max(0, selected), count - 1) < l.end
  {
    hide Widest, Fitting, PageStart;
    var plotWidth := Max(1, width - 4);
    var fitting := FittingColumns(plotWidth);
    var columns := Max(1, Min(count, fitting));
    MoreIsWider(columns, fitting);
    var chosen := Min(Max(0, selected), Max(0, count - 1));
    var start, end := PageOf(count, chosen, columns * 2);
    var height := 4;
    if end - start > columns {
      height := 3;
    }
    if 0 < terminalHeight < 32 {
      height := 2;
    }
    var minimumPlot := columns + (columns - 1) / GROUP;
    var historyWidth := 0;
    var spare := plotWidth - minimumPlot - 3;
    if spare >= 14 {
      historyWidth := Min(spare, Min(40, Max(14, width / 4)));
      plotWidth := plotWidth - (historyWidth + 3);
    }
    l := Layout(columns, height, start, end, plotWidth, historyWidth);
  }

  /** The page of a core: pages have one length and follow each other from the first core on. */
  method PageOf(count: nat, chosen: nat, pageSize: nat) returns (start: nat, end: nat)
    requires pageSize >= 1 && (count == 0 ==> chosen == 0) && (count > 0 ==> chosen < count)
    ensures start == PageStart(chosen, pageSize)
    ensures start % pageSize == 0 && end == Min(count, start + pageSize)
    ensures start <= end && (count > 0 ==> start <= chosen < end)
  {
    PageHasIt(chosen, pageSize);
    start := chosen / pageSize * pageSize;
    end := Min(count, start + pageSize);
  }

  /** Between a number and the last whole group below it there is no other whole group. */
  lemma NoGroupBetween(n: nat, m: nat)
    requires n >= 1 && m <= n && (m < GROUP || m % GROUP == 0)
    ensures m <= if n >= GROUP then n - n % GROUP else n
  {
  }

  lemma PageHasIt(chosen: nat, pageSize: nat)
    requires pageSize > 0
    ensures var start := chosen / pageSize * pageSize; start <= chosen < start + pageSize && start % pageSize == 0
  {
    var q := chosen / pageSize;
    assert chosen == q * pageSize + chosen % pageSize;
    MultipleOf(q, pageSize);
  }

  /**
   * Over all selections the pages partition the cores: each core is on the page that selecting it shows, and on no
   * other.
   */
  lemma OnOnePage(count: nat, width: int, core: nat)
    requires core < count
    ensures Page(count, width, core).0 <= core < Page(count, width, core).1
    ensures forall selected: int ::
              Page(count, width, selected).0 <= core < Page(count, width, selected).1
              <==> Page(count, width, selected) == Page(count, width, core)
  {
    hide Columns, PageStart;
    var size := 2 * Columns(count, width);
    forall selected: int
      ensures Page(count, width, selected).0 <= core < Page(count, width, selected).1
              <==> Page(count, width, selected) == Page(count, width, core)
    {
      SamePage(core, Min(Max(0, selected), count - 1), size);
    }
  }

  lemma SamePage(core: nat, chosen: nat, size: nat)
    requires size > 0
    ensures PageStart(chosen, size) <= core < PageStart(chosen, size) + size
            <==> PageStart(chosen, size) == PageStart(core, size)
  {
    var q := chosen / size;
    if q * size <= core < q * size + size {
      DivisionIsUnique(core, size, q, core - q * size);
    }
  }

  lemma {:induction false} MultipleOf(q: nat, n: nat)
    requires n > 0
    ensures q * n % n == 0
    decreases q
  {
    if q > 0 {
      MultipleOf(q - 1, n);
      assert q * n == (q - 1) * n + n;
      assert ((q - 1) * n + n) % n == ((q - 1) * n) % n by {
        AddingOne((q - 1) * n, n);
      }
    }
  }

  lemma AddingOne(a: nat, n: nat)
    requires n > 0
    ensures (a + n) % n == a % n && (a + n) / n == a / n + 1
  {
    var q, r := a / n, a % n;
    assert a + n == (q + 1) * n + r;
    DivisionIsUnique(a + n, n, q + 1, r);
  }

  lemma DivisionIsUnique(a: nat, n: nat, q: nat, r: nat)
    requires n > 0 && a == q * n + r && r < n
    ensures a / n == q && a % n == r
  {
    var p, s := a / n, a % n;
    assert a == p * n + s;
    assert (p - q) * n == p * n - q * n == r - s;
    SmallMultiple(p - q, n);
  }

  lemma AtLeastOnce(d: int, n: int)
    requires d >= 1 && n >= 1
    ensures d * n >= n
  {
    assert d * n == (d - 1) * n + n;
  }

  lemma BelowOnce(d: int, n: int)
    requires n >= 1 && d * n < n
    ensures d <= 0
  {
    if d >= 1 {
      AtLeastOnce(d, n);
    }
  }

  lemma SmallMultiple(d: int, n: int)
    requires n >= 1 && -n < d * n < n
    ensures d == 0
  {
    BelowOnce(d, n);
    assert -d * n == -(d * n);
    BelowOnce(-d, n);
  }

  // ---- Bars ------------------------------------------------------------------------------------------------------

  function Usable(l: Layout): int {
    l.plotWidth - (l.columns - 1) / GROUP
  }

  function Left(l: Layout, bar: nat): int
    requires l.columns > 0
  {
    bar * Usable(l) / l.columns + bar / GROUP
  }

  function Right(l: Layout, bar: nat): int
    requires l.columns > 0
  {
    (bar + 1) * Usable(l) / l.columns + bar / GROUP
  }

  /** Adding at least the divisor moves the quotient on. */
  lemma QuotientMoves(a: nat, b: nat, n: nat)
    requires n > 0 && b >= n
    ensures (a + b) / n >= a / n + 1
  {
    AddingOne(a, n);
    QuotientGrows(a + n, a + b, n);
  }

  lemma QuotientGrows(a: nat, b: nat, n: nat)
    requires n > 0 && a <= b
    ensures a / n <= b / n
  {
    var p, q := a / n, b / n;
    assert a == p * n + a % n && b == q * n + b % n;
    assert (p - q) * n == p * n - q * n;
    BelowOnce(p - q, n);
  }

  /**
   * Bars have a positive width and stand in a row: the first at the left edge, the last at the right edge of the
   * plot, with one blank cell after every sixteenth bar and none elsewhere.
   */
  lemma BarsTile(l: Layout, bar: nat)
    requires Sound(l) && bar < l.columns
    ensures Left(l, bar) < Right(l, bar)
    ensures Left(l, 0) == 0 && Right(l, l.columns - 1) == l.plotWidth
    ensures bar + 1 < l.columns ==> Left(l, bar + 1) == Right(l, bar) + if (bar + 1) % GROUP == 0 then 1 else 0
  {
    var u, n := Usable(l), l.columns;
    assert (bar + 1) * u == bar * u + u;
    QuotientMoves(bar * u, u, n);
    assert 0 * u == 0;
    assert (n - 1 + 1) * u == u * n;
    DivisionIsUnique(u * n, n, u, 0);
  }

  /** Later bars stand further right. */
  lemma {:induction false} BarsAreApart(l: Layout, a: nat, b: nat)
    requires Sound(l) && a < b < l.columns
    ensures Right(l, a) <= Left(l, b)
    decreases b
  {
    BarsTile(l, b - 1);
    if a < b - 1 {
      BarsAreApart(l, a, b - 1);
    }
  }

  lemma BarsInPlot(l: Layout, bar: nat)
    requires Sound(l) && bar < l.columns
    ensures 0 <= Left(l, bar) < Right(l, bar) <= l.plotWidth
  {
    BarsTile(l, bar);
    if bar > 0 {
      BarsTile(l, 0);
      BarsAreApart(l, 0, bar);
    }
    if bar < l.columns - 1 {
      BarsAreApart(l, bar, l.columns - 1);
      BarsTile(l, l.columns - 1);
    }
  }

  // ---- Clicks ----------------------------------------------------------------------------------------------------

  /** The row of bars a core stands in, and its bar there. */
  function BandOf(l: Layout, core: nat): nat
    requires Sound(l) && l.start <= core
  {
    (core - l.start) / l.columns
  }

  function BarOf(l: Layout, core: nat): nat
    requires Sound(l) && l.start <= core
  {
    (core - l.start) % l.columns
  }

  lemma PlaceOf(l: Layout, core: nat)
    requires Sound(l) && l.start <= core < l.end
    ensures core - l.start == BandOf(l, core) * l.columns + BarOf(l, core) && BarOf(l, core) < l.columns
    ensures BandOf(l, core) < 2
  {
    var band, n := BandOf(l, core), l.columns;
    assert core - l.start == band * n + BarOf(l, core);
    assert (band - 1) * n == band * n - n;
    BelowOnce(band - 1, n);
  }

  lemma CoreFrom(l: Layout, band: nat, bar: nat)
    requires Sound(l) && bar < l.columns
    ensures BandOf(l, l.start + band * l.columns + bar) == band && BarOf(l, l.start + band * l.columns + bar) == bar
  {
    DivisionIsUnique(band * l.columns + bar, l.columns, band, bar);
  }

  /** Whether a cell of the chart belongs to a core: in the core's row of bars, within the bar's span. */
  predicate Covers(l: Layout, core: nat, row: int, column: int)
    requires Sound(l)
  {
    && l.start <= core < l.end && row >= 0
    && row / (l.barHeight + 1) == BandOf(l, core)
    && Left(l, BarOf(l, core)) <= column < Right(l, BarOf(l, core))
  }

  /** The core at a cell of the chart. */
  method CoreAt(l: Layout, row: int, column: int) returns (core: Option<nat>)
    requires Sound(l)
    ensures core.Some? ==> Covers(l, core.value, row, column)
    ensures core.None? ==> forall c: nat :: !Covers(l, c, row, column)
  {
    hide BandOf, BarOf, Left, Right;
    if row < 0 || column < 0 {
      OutsideIsEmpty(l, row, column);
      return None;
    }
    var band := row / (l.barHeight + 1);
    if band >= 2 || column >= l.plotWidth {
      OutsideIsEmpty(l, row, column);
      return None;
    }
    for within := 0 to l.columns
      invariant forall bar: nat :: bar < within ==> !(Left(l, bar) <= column < Right(l, bar))
    {
      if column < Left(l, within) || column >= Right(l, within) {
        continue;
      }
      var index := l.start + band * l.columns + within;
      CoreFrom(l, band, within);
      if index >= l.end {
        EndIsEmpty(l, row, column, within);
        return None;
      }
      return Some(index);
    }
    forall c: nat
      ensures !Covers(l, c, row, column)
    {
      if l.start <= c < l.end {
        PlaceOf(l, c);
      }
    }
    core := None;
  }

  /** No core is left of the plot, right of it, above it or below its two rows. */
  lemma OutsideIsEmpty(l: Layout, row: int, column: int)
    requires Sound(l)
    requires row < 0 || column < 0 || row / (l.barHeight + 1) >= 2 || column >= l.plotWidth
    ensures forall c: nat :: !Covers(l, c, row, column)
  {
    forall c: nat
      ensures !Covers(l, c, row, column)
    {
      if l.start <= c < l.end {
        PlaceOf(l, c);
        BarsInPlot(l, BarOf(l, c));
      }
    }
  }

  /** Behind the last core of the page there is none. */
  lemma EndIsEmpty(l: Layout, row: int, column: int, bar: nat)
    requires Sound(l) && row >= 0 && bar < l.columns && Left(l, bar) <= column < Right(l, bar)
    requires l.start + row / (l.barHeight + 1) * l.columns + bar >= l.end
    ensures forall c: nat :: !Covers(l, c, row, column)
  {
    hide BandOf, BarOf, Left, Right;
    forall c: nat
      ensures !Covers(l, c, row, column)
    {
      if l.start <= c < l.end {
        PlaceOf(l, c);
        if Left(l, BarOf(l, c)) <= column < Right(l, BarOf(l, c)) {
          OneBar(l, BarOf(l, c), bar, column);
        }
      }
    }
  }

  lemma OneBar(l: Layout, a: nat, b: nat, column: int)
    requires Sound(l) && a < l.columns && b < l.columns
    requires Left(l, a) <= column < Right(l, a) && Left(l, b) <= column < Right(l, b)
    ensures a == b
  {
    hide Left, Right;
    if a < b {
      BarsAreApart(l, a, b);
    } else if b < a {
      BarsAreApart(l, b, a);
    }
  }

  /** No cell belongs to two cores: a click is the exact inverse of drawing. */
  lemma OneCore(l: Layout, a: nat, b: nat, row: int, column: int)
    requires Sound(l) && Covers(l, a, row, column) && Covers(l, b, row, column)
    ensures a == b
  {
    hide BandOf, BarOf, Left, Right;
    PlaceOf(l, a);
    PlaceOf(l, b);
    OneBar(l, BarOf(l, a), BarOf(l, b), column);
  }
}
