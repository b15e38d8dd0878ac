/** Packing the widgets of the dashboard into rows of columns, with a look ahead for widgets that still fit. */
module WidgetGrid {
  import opened Base

  const GAP := 1

  datatype Size = Small | Medium | Large

  datatype Widget = Widget(size: Size, structural: bool, collapsed: bool)

  /** A widget in its row, and on the page. Widgets are named by their position in the list of preferences. */
  datatype Cell = Cell(widget: nat, x: int, width: int, height: nat)

  datatype Placement = Placement(widget: nat, x: int, y: int, width: int, height: nat)

  function GridColumns(width: int): (n: nat)
    ensures 1 <= n <= 4 && (n > 1 ==> width >= 64)
  {
    if width >= 148 then 4 else if width >= 100 then 3 else if width >= 64 then 2 else 1
  }

  function ColumnSpan(w: Widget, columns: nat): (span: nat)
    requires columns >= 1
    ensures 1 <= span <= columns
  {
    match w.size
    case Small => 1
    case Medium => Min(2, columns)
    case Large => if w.structural then columns else Min(2, columns)
  }

  // ---- Columns ---------------------------------------------------------------------------------------------------

  /** Where a column starts: the widths of those before it and a gap after each. */
  function ColumnX(widths: seq<int>, column: nat): int
    requires column <= |widths|
  {
    if column == 0 then 0 else ColumnX(widths, column - 1) + widths[column - 1] + GAP
  }

  /** The columns fill the width, with a gap between neighbours, and none is negative. */
  ghost predicate Fills(widths: seq<int>, width: int) {
    && |widths| >= 1 && ColumnX(widths, |widths|) == width + GAP
    && forall i :: 0 <= i < |widths| ==> widths[i] >= 0
  }

  /** Shares the width among the columns, the remainder one cell each from the left. */
  method ColumnWidths(width: int, columns: nat) returns (widths: seq<int>)
    requires columns >= 1 && width >= (columns - 1) * GAP
    ensures |widths| == columns && Fills(widths, width)
  {
    hide EvenX, ColumnX;
    var available := width - (columns - 1) * GAP;
    var share, extra := available / columns, available % columns;
    widths := [];
    EvenEnds(available, columns);
    EvenSteps(0, share, extra);
    NoColumns();
    while |widths| < columns
      invariant |widths| <= columns && forall i :: 0 <= i < |widths| ==> widths[i] >= 0
      invariant ColumnX(widths, |widths|) == EvenX(|widths|, share, extra)
    {
      var index := |widths|;
      var columnWidth := share;
      if index < extra {
        columnWidth := columnWidth + 1;
      }
      NextColumn(widths, columnWidth);
      EvenSteps(index, share, extra);
      widths := widths + [columnWidth];
    }
  }

  lemma NoColumns()
    ensures ColumnX([], 0) == 0
  {
  }

  lemma NextColumn(widths: seq<int>, more: int)
    ensures ColumnX(widths + [more], |widths| + 1) == ColumnX(widths, |widths|) + more + GAP
  {
    SameStart(widths, more, |widths|);
  }

  function EvenX(column: nat, share: int, extra: int): int {
    column * share + column * GAP + Min(column, extra)
  }

  lemma EvenSteps(column: nat, share: int, extra: int)
    ensures EvenX(column + 1, share, extra) == EvenX(column, share, extra) + share + (if column < extra then 1 else 0) + GAP
    ensures extra >= 0 ==> EvenX(0, share, extra) == 0
  {
    assert (column + 1) * share == column * share + share;
  }

  lemma EvenEnds(available: int, columns: nat)
    requires columns >= 1 && available >= 0
    ensures EvenX(columns, available / columns, available % columns) == available + columns * GAP
    ensures available / columns >= 0 && available % columns >= 0
  {
    assert available == columns * (available / columns) + available % columns;
  }

  lemma {:induction false} SameStart(widths: seq<int>, more: int, column: nat)
    requires column <= |widths|
    ensures ColumnX(widths + [more], column) == ColumnX(widths, column)
    decreases column
  {
    if column > 0 {
      SameStart(widths, more, column - 1);
    }
  }

  lemma {:induction false} ColumnsAscend(widths: seq<int>, a: nat, b: nat)
    requires a <= b <= |widths| && forall i :: 0 <= i < |widths| ==> widths[i] >= 0
    ensures ColumnX(widths, a) + (b - a) * GAP <= ColumnX(widths, b)
    decreases b
  {
    if a < b {
      ColumnsAscend(widths, a, b - 1);
    }
  }

  /** The width of a run of columns with the gaps between them. */
  method RunWidth(widths: seq<int>, from: nat, span: nat) returns (width: int)
    requires span >= 1 && from + span <= |widths|
    ensures width == ColumnX(widths, from + span) - GAP - ColumnX(widths, from)
  {
    width := (span - 1) * GAP;
    for i := 0 to span
      invariant width == (span - 1) * GAP + ColumnX(widths, from + i) - i * GAP - ColumnX(widths, from)
    {
      width := width + widths[from + i];
    }
  }

  /** The left edge of a column. */
  method LeftEdge(widths: seq<int>, column: nat) returns (x: int)
    requires column <= |widths|
    ensures x == ColumnX(widths, column)
  {
    x := column * GAP;
    for i := 0 to column
      invariant x == column * GAP + ColumnX(widths, i) - i * GAP
    {
      x := x + widths[i];
    }
  }

  // ---- What a layout must be -------------------------------------------------------------------------------------

  /** The cells of a row stand side by side, a gap apart, before the given column. */
  ghost predicate RowHolds(row: seq<Cell>, widths: seq<int>, used: nat) {
    && used <= |widths|
    && (forall i :: 0 <= i < |row| ==>
          row[i].x >= 0 && row[i].width >= 0 && row[i].height > 0
          && row[i].x + row[i].width + GAP <= ColumnX(widths, used))
    && (forall i, j :: 0 <= i < j < |row| ==> row[i].x + row[i].width + GAP <= row[j].x)
  }

  predicate Apart(p: Placement, q: Placement) {
    || p.x + p.width <= q.x || q.x + q.width <= p.x
    || p.y + p.height <= q.y || q.y + q.height <= p.y
  }

  /** Finished rows end above the next one, lie within the width, and no two widgets overlap. */
  ghost predicate PageHolds(placements: seq<Placement>, width: int, rowY: int) {
    && (forall i :: 0 <= i < |placements| ==>
          placements[i].x >= 0 && placements[i].x + placements[i].width <= width
          && placements[i].y >= 0 && placements[i].y + placements[i].height <= rowY && placements[i].height > 0)
    && (forall i, j :: 0 <= i < j < |placements| ==> Apart(placements[i], placements[j]))
  }

  function OnPage(row: seq<Cell>, y: int): seq<Placement> {
    seq(|row|, i requires 0 <= i < |row| => Placement(row[i].widget, row[i].x, y, row[i].width, row[i].height))
  }

  /** Finishes a row: its widgets join the page, and the next row starts a gap below the highest of them. */
  method Flush(placements: seq<Placement>, row: seq<Cell>, rowY: int, ghost widths: seq<int>, ghost used: nat,
               ghost width: int)
    returns (all: seq<Placement>, nextY: int)
    requires PageHolds(placements, width, rowY) && RowHolds(row, widths, used) && Fills(widths, width) && rowY >= 0
    ensures PageHolds(all, width, nextY) && nextY >= rowY
    ensures all == placements + OnPage(row, rowY)
  {
    if |row| == 0 {
      assert placements + OnPage(row, rowY) == placements;
      return placements, rowY;
    }
    ColumnsAscend(widths, used, |widths|);
    all := placements;
    var rowHeight := 0;
    assert OnPage(row[..0], rowY) == [];
    for i := 0 to |row|
      invariant all == placements + OnPage(row[..i], rowY) && rowHeight >= 0
      invariant forall k :: 0 <= k < i ==> row[k].height <= rowHeight
    {
      rowHeight := Max(rowHeight, row[i].height);
      assert OnPage(row[..i + 1], rowY)
          == OnPage(row[..i], rowY) + [Placement(row[i].widget, row[i].x, rowY, row[i].width, row[i].height)];
      all := all + [Placement(row[i].widget, row[i].x, rowY, row[i].width, row[i].height)];
    }
    assert row[..|row|] == row;
    nextY := rowY + rowHeight + GAP;
    RowJoinsPage(placements, row, rowY, widths, used, width, nextY);
  }

  lemma RowJoinsPage(placements: seq<Placement>, row: seq<Cell>, rowY: int, widths: seq<int>, used: nat, width: int,
                     nextY: int)
    requires PageHolds(placements, width, rowY) && RowHolds(row, widths, used) && 0 <= rowY <= nextY
    requires ColumnX(widths, used) <= width + GAP && forall k :: 0 <= k < |row| ==> rowY + row[k].height <= nextY
    ensures PageHolds(placements + OnPage(row, rowY), width, nextY)
  {
    var added := OnPage(row, rowY);
    assert forall k :: 0 <= k < |row| ==> added[k].x + added[k].width <= width && added[k].y == rowY;
    forall i, j | 0 <= i < j < |placements + added|
      ensures Apart((placements + added)[i], (placements + added)[j])
    {
      if i < |placements| <= j {
        assert placements[i].y + placements[i].height <= rowY;
      } else if |placements| <= i {
        assert row[i - |placements|].x + row[i - |placements|].width + GAP <= row[j - |placements|].x;
      }
    }
  }

  // ---- The packer ------------------------------------------------------------------------------------------------

  function WidgetsOf(placements: seq<Placement>): seq<nat> {
    seq(|placements|, i requires 0 <= i < |placements| => placements[i].widget)
  }

  function WidgetsIn(row: seq<Cell>): seq<nat> {
    seq(|row|, i requires 0 <= i < |row| => row[i].widget)
  }

  predicate Visible(widgets: seq<Widget>, w: nat) {
    w < |widgets| && !widgets[w].collapsed
  }

  /** Every visible widget is still pending or was drawn at some width, and not both. */
  ghost predicate QueueHolds(widgets: seq<Widget>, pending: seq<nat>, drawn: map<nat, int>) {
    && Ascending(pending)
    && (forall w: nat :: w in pending ==> Visible(widgets, w) && w !in drawn)
    && (forall w: nat :: w in drawn ==> Visible(widgets, w))
    && forall w: nat :: Visible(widgets, w) ==> w in pending || w in drawn
  }

  /** What stands on the page is what was drawn and had something to show, each widget once. */
  ghost predicate ShownHolds(shown: seq<nat>, drawn: map<nat, int>, height: (nat, int) -> nat) {
    && Distinct(shown)
    && forall w: nat :: w in shown <==> w in drawn && height(w, drawn[w]) > 0
  }

  /** The placement is the first of its row. */
  predicate RowStart(placements: seq<Placement>, k: nat)
    requires k < |placements|
  {
    k == 0 || placements[k - 1].y != placements[k].y
  }

  /** A widget that starts a row comes before everything placed after it. */
  ghost predicate StartsFirst(placements: seq<Placement>) {
    forall k, j :: 0 <= k < j < |placements| && RowStart(placements, k) ==> placements[k].widget < placements[j].widget
  }

  /** Every finished row starts with a widget before the given one. */
  ghost predicate StartsBefore(placements: seq<Placement>, w: nat) {
    forall k :: 0 <= k < |placements| && RowStart(placements, k) ==> placements[k].widget < w
  }

  /** The same for the rows that are finished and the one in the making, with everything still pending. */
  ghost predicate OrderHolds(placements: seq<Placement>, row: seq<Cell>, pending: seq<nat>) {
    && StartsFirst(placements)
    && (forall i :: 0 <= i < |row| ==> StartsBefore(placements, row[i].widget))
    && (forall w: nat :: w in pending ==> StartsBefore(placements, w))
    && (row != [] ==> (forall i :: 1 <= i < |row| ==> row[0].widget < row[i].widget)
                      && forall w: nat :: w in pending ==> row[0].widget < w)
  }

  function Removed(pending: seq<nat>, candidate: nat): seq<nat>
    requires candidate < |pending|
  {
    pending[..candidate] + pending[candidate + 1..]
  }

  lemma RemovedHas(pending: seq<nat>, candidate: nat)
    requires candidate < |pending| && Ascending(pending)
    ensures Ascending(Removed(pending, candidate))
    ensures forall w: nat :: w in Removed(pending, candidate) <==> w in pending && w != pending[candidate]
  {
    var rest := Removed(pending, candidate);
    forall w: nat | w in pending && w != pending[candidate]
      ensures w in rest
    {
      var i :| 0 <= i < |pending| && pending[i] == w;
      assert if i < candidate then rest[i] == w else rest[i - 1] == w;
    }
  }

  /** Drawing a widget takes it from the queue to the page, if it shows anything. */
  lemma DrawnOnce(widgets: seq<Widget>, pending: seq<nat>, drawn: map<nat, int>, candidate: nat, at: int,
                  shown: seq<nat>, height: (nat, int) -> nat)
    requires QueueHolds(widgets, pending, drawn) && candidate < |pending| && ShownHolds(shown, drawn, height)
    ensures var w := pending[candidate];
            && QueueHolds(widgets, Removed(pending, candidate), drawn[w := at])
            && w !in shown
            && (height(w, at) == 0 ==> ShownHolds(shown, drawn[w := at], height))
            && (height(w, at) > 0 ==> ShownHolds(shown + [w], drawn[w := at], height))
  {
    RemovedHas(pending, candidate);
    assert pending[candidate] in pending;
  }

  lemma FewerPending(placements: seq<Placement>, row: seq<Cell>, pending: seq<nat>, fewer: seq<nat>)
    requires OrderHolds(placements, row, pending) && forall w: nat :: w in fewer ==> w in pending
    ensures OrderHolds(placements, row, fewer)
  {
  }

  /** Whichever widget joins the row: if it is the first one there, it is the earliest of those pending. */
  lemma JoinsRow(placements: seq<Placement>, row: seq<Cell>, pending: seq<nat>, candidate: nat, cell: Cell)
    requires OrderHolds(placements, row, pending) && Ascending(pending) && candidate < |pending|
    requires cell.widget == pending[candidate] && (row == [] ==> candidate == 0)
    ensures OrderHolds(placements, row + [cell], Removed(pending, candidate))
  {
    RemovedHas(pending, candidate);
    assert pending[candidate] in pending;
    if row == [] {
      forall w: nat | w in Removed(pending, 0)
        ensures pending[0] < w
      {
        var i :| 0 <= i < |pending| && pending[i] == w;
      }
    }
  }

  lemma RowFinished(placements: seq<Placement>, row: seq<Cell>, pending: seq<nat>, rowY: int, width: int)
    requires OrderHolds(placements, row, pending) && PageHolds(placements, width, rowY)
    ensures OrderHolds(placements + OnPage(row, rowY), [], pending)
    ensures WidgetsOf(placements + OnPage(row, rowY)) == WidgetsOf(placements) + WidgetsIn(row)
  {
    var all, n := placements + OnPage(row, rowY), |placements|;
    forall k | 0 <= k < |all| && RowStart(all, k)
      ensures k <= n && (k < n ==> RowStart(placements, k))
    {
    }
    forall k, j | 0 <= k < j < |all| && RowStart(all, k)
      ensures all[k].widget < all[j].widget
    {
      if k < n <= j {
        assert StartsBefore(placements, row[j - n].widget);
      }
    }
    forall w: nat | w in pending
      ensures StartsBefore(all, w)
    {
      assert StartsBefore(placements, w);
    }
  }

  /** A cell for the next columns of a row. */
  lemma CellFits(row: seq<Cell>, widths: seq<int>, used: nat, span: nat, cell: Cell, width: int)
    requires RowHolds(row, widths, used) && Fills(widths, width) && span >= 1 && used + span <= |widths|
    requires cell.x == ColumnX(widths, used) && cell.width == ColumnX(widths, used + span) - GAP - ColumnX(widths, used)
    requires cell.height > 0
    ensures RowHolds(row + [cell], widths, used + span)
  {
    ColumnsAscend(widths, 0, used);
    ColumnsAscend(widths, used, used + span);
  }

  /** The widget to draw next: the first pending one, or the first further one that still fits into the row. */
  method NextCandidate(widgets: seq<Widget>, pending: seq<nat>, columns: nat, used: nat)
    returns (candidate: Option<nat>, span: nat)
    requires columns >= 1 && used < columns && pending != []
    requires forall i :: 0 <= i < |pending| ==> pending[i] < |widgets|
    ensures candidate.Some? ==>
              && candidate.value < |pending| && span == ColumnSpan(widgets[pending[candidate.value]], columns)
              && used + span <= columns && (used == 0 ==> candidate.value == 0)
              && forall i :: 0 <= i < candidate.value ==> used + ColumnSpan(widgets[pending[i]], columns) > columns
    ensures candidate.None? ==>
              used > 0 && forall i :: 0 <= i < |pending| ==> used + ColumnSpan(widgets[pending[i]], columns) > columns
  {
    assert pending[0] in pending;
    span := ColumnSpan(widgets[pending[0]], columns);
    if used > 0 && used + span > columns {
      var remaining := columns - used;
      for index := 1 to |pending|
        invariant forall i :: 0 <= i < index ==> used + ColumnSpan(widgets[pending[i]], columns) > columns
      {
        assert pending[index] in pending;
        if ColumnSpan(widgets[pending[index]], columns) <= remaining {
          return Some(index), ColumnSpan(widgets[pending[index]], columns);
        }
      }
      return None, span;
    }
    candidate := Some(0);
  }

  method PendingWidgets(widgets: seq<Widget>) returns (pending: seq<nat>)
    ensures QueueHolds(widgets, pending, map[])
  {
    pending := [];
    for i := 0 to |widgets|
      invariant Ascending(pending) && forall k :: 0 <= k < |pending| ==> pending[k] < i
      invariant forall w: nat :: w in pending <==> w < i && Visible(widgets, w)
    {
      if !widgets[i].collapsed {
        pending := pending + [i];
      }
    }
  }

  /**
   * The page: every visible widget is drawn once, those with something to show are placed once, without overlap and
   * within the width, and each row starts with the earliest widget that was still pending.
   */
  method RenderGrid(widgets: seq<Widget>, width: int, height: (nat, int) -> nat)
    returns (placements: seq<Placement>, ghost drawn: map<nat, int>)
    requires width >= 0
    ensures forall w: nat :: w in drawn <==> Visible(widgets, w)
    ensures ShownHolds(WidgetsOf(placements), drawn, height)
    ensures exists bottom :: PageHolds(placements, width, bottom)
    ensures StartsFirst(placements)
  {
    hide QueueHolds, ShownHolds, OrderHolds, RowHolds, PageHolds, Fills, StartsFirst, ColumnSpan, Distinct, ColumnX;
    var columns := GridColumns(width);
    var widths := ColumnWidths(width, columns);
    var pending := PendingWidgets(widgets);
    var row: seq<Cell>, used: nat, rowY: int := [], 0, 0;
    placements, drawn := [], map[];
    NothingPacked(widgets, pending, widths, width, height);
    while pending != []
      invariant QueueHolds(widgets, pending, drawn)
      invariant ShownHolds(WidgetsOf(placements) + WidgetsIn(row), drawn, height)
      invariant OrderHolds(placements, row, pending)
      invariant RowHolds(row, widths, used) && PageHolds(placements, width, rowY) && rowY >= 0
      invariant used < columns && (used == 0 <==> row == [])
      decreases |pending|, used
    {
      QueueIsValid(widgets, pending, drawn);
      var candidate, span := NextCandidate(widgets, pending, columns, used);
      if candidate.None? {
        RowFinished(placements, row, pending, rowY, width);
        placements, rowY := Flush(placements, row, rowY, widths, used, width);
        row, used := [], 0;
        EmptyRow(placements, widths);
        continue;
      }
      var widget := pending[candidate.value];
      ghost var before, shown := pending, WidgetsOf(placements) + WidgetsIn(row);
      pending := pending[..candidate.value] + pending[candidate.value + 1..];
      var widgetWidth := RunWidth(widths, used, span);
      var contentHeight := height(widget, widgetWidth);
      DrawnOnce(widgets, before, drawn, candidate.value, widgetWidth, shown, height);
      drawn := drawn[widget := widgetWidth];
      if contentHeight == 0 {
        QueueAscends(widgets, before, candidate.value);
        FewerPending(placements, row, before, pending);
        continue;
      }
      var x := LeftEdge(widths, used);
      var cell := Cell(widget, x, widgetWidth, contentHeight);
      CellFits(row, widths, used, span, cell, width);
      QueueAscends(widgets, before, candidate.value);
      JoinsRow(placements, row, before, candidate.value, cell);
      assert WidgetsOf(placements) + WidgetsIn(row + [cell]) == shown + [widget];
      row, used := row + [cell], used + span;
      if used >= columns {
        RowFinished(placements, row, pending, rowY, width);
        placements, rowY := Flush(placements, row, rowY, widths, used, width);
        row, used := [], 0;
        EmptyRow(placements, widths);
      }
    }
    RowFinished(placements, row, pending, rowY, width);
    placements, rowY := Flush(placements, row, rowY, widths, used, width);
    AllPacked(widgets, drawn, placements);
  }

  lemma NothingPacked(widgets: seq<Widget>, pending: seq<nat>, widths: seq<int>, width: int, height: (nat, int) -> nat)
    ensures ShownHolds(WidgetsOf([]) + WidgetsIn([]), map[], height) && OrderHolds([], [], pending)
    ensures RowHolds([], widths, 0) && PageHolds([], width, 0)
  {
  }

  lemma EmptyRow(placements: seq<Placement>, widths: seq<int>)
    ensures WidgetsOf(placements) + WidgetsIn([]) == WidgetsOf(placements) && RowHolds([], widths, 0)
  {
  }

  lemma QueueIsValid(widgets: seq<Widget>, pending: seq<nat>, drawn: map<nat, int>)
    requires QueueHolds(widgets, pending, drawn)
    ensures Ascending(pending) && forall i :: 0 <= i < |pending| ==> pending[i] < |widgets|
  {
    assert forall i :: 0 <= i < |pending| ==> pending[i] in pending;
  }

  lemma QueueAscends(widgets: seq<Widget>, pending: seq<nat>, candidate: nat)
    requires Ascending(pending) && candidate < |pending|
    ensures forall w: nat :: w in Removed(pending, candidate) ==> w in pending
  {
    RemovedHas(pending, candidate);
  }

  lemma AllPacked(widgets: seq<Widget>, drawn: map<nat, int>, placements: seq<Placement>)
    requires QueueHolds(widgets, [], drawn) && OrderHolds(placements, [], [])
    ensures (forall w: nat :: w in drawn <==> Visible(widgets, w)) && StartsFirst(placements)
  {
  }
}
