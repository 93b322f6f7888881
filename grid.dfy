/**
 * The grid's drag-to-select engine: snapping a pointer to cell boundaries,
 * clamping it to a row, resolving a row to the resource that owns it, and the
 * idle -> dragging -> idle machine that emits one selection per release.
 */
module Grid {

  import opened Wrappers
  import opened Geometry
  import opened TimeUnits

  datatype Point = Point(x: int, y: int)

  /** The highlighted rectangle drawn while a selection is in progress. */
  datatype Style = Style(left: int, top: int, width: int)

  /** A mouse event on the grid surface, with the surface's bounding rectangle. */
  datatype MouseEvent = MouseEvent(clientX: int, clientY: int, button: int, onButton: bool, bounds: Rect)

  datatype Resource = Resource(id: string, caption: string)

  /**
   * What the grid receives from its host at the time of an event: the zoom
   * level, the rendered row count, the resources, the number of stacked rows
   * each resource occupies, whether an `onGridSelect` handler is present, and
   * the date that column 0 stands for.
   */
  datatype GridProps = GridProps(
    zoom: int, rows: int, data: seq<Resource>, rowsPerItem: seq<int>,
    hasOnGridSelect: bool, anchor: Date)

  /** What `onGridSelect` receives. */
  datatype SelectionResult = SelectionResult(resourceId: string, resourceLabel: string, startDate: Date, endDate: Date)

  /** A run of cells, both ends included. */
  datatype CellRange = CellRange(first: int, last: int)

  // ---------------------------------------------------------------------------
  // Time-unit table and snapping

  /** `getCellWidthAndUnit` of the grid: hour view, day view, and week view for every other zoom. */
  function CellWidthAndUnit(zoom: int, layout: Layout): (s: CellSpec)
    ensures zoom == 2 ==> s == CellSpec(layout.zoom2ColumnWidth, Hours)
    ensures zoom == 1 ==> s == CellSpec(layout.dayWidth, Days)
    ensures zoom != 1 && zoom != 2 ==> s == CellSpec(layout.weekWidth, Weeks)
  {
    match zoom
    case 2 => CellSpec(layout.zoom2ColumnWidth, Hours)
    case 1 => CellSpec(layout.dayWidth, Days)
    case _ => CellSpec(layout.weekWidth, Weeks)
  }

  /** The cell width `snapX` picks by its own conditional; it agrees with the unit table. */
  function SnapCellWidth(zoom: int, layout: Layout): (c: PosInt)
    ensures c == CellWidthAndUnit(zoom, layout).cellWidth
  {
    if zoom == 2 then layout.zoom2ColumnWidth else if zoom == 1 then layout.dayWidth else layout.weekWidth
  }

  /**
   * Snapping a grid-local x: the multiple of c nearest to it (halves go right),
   * floored at 0. The result is 0 exactly when the pointer is left of the middle
   * of cell 0.
   */
  function SnapLocal(localX: int, c: PosInt): (s: int)
    ensures s >= 0 && s % c == 0
    ensures s == 0 <==> 2 * localX < c
    ensures s > 0 ==> 2 * s - c <= 2 * localX < 2 * s + c
  {
    var k := JsRound(localX, c);
    if k <= 0 then
      MulMonotone(c, k, 0);
      0
    else
      MulMonotone(c, 1, k);
      MultipleMod(k, c);
      k * c
  }

  lemma MultipleMod(k: int, c: PosInt)
    ensures (k * c) % c == 0
  {
    var q, m := (k * c) / c, (k * c) % c;
    assert k * c == q * c + m && 0 <= m < c;
    if q < k {
      MulMonotone(c, q + 1, k);
    } else if q > k {
      MulMonotone(c, k + 1, q);
    }
  }

  /** `snapX(clientX, rect)`: 0 without bounds, otherwise the snapped grid-local x. */
  function SnapX(clientX: int, bounds: Option<Rect>, zoom: int, layout: Layout): (s: int)
    ensures bounds.None? ==> s == 0
    ensures s >= 0 && s % CellWidthAndUnit(zoom, layout).cellWidth == 0
    ensures bounds.Some? ==> s == SnapLocal(clientX - bounds.value.left, CellWidthAndUnit(zoom, layout).cellWidth)
  {
    match bounds
    case None => 0
    case Some(rect) => SnapLocal(clientX - rect.left, SnapCellWidth(zoom, layout))
  }

  /** Re-snapping an already snapped local x leaves it where it is. */
  lemma SnapIdempotent(localX: int, c: PosInt)
    ensures SnapLocal(SnapLocal(localX, c), c) == SnapLocal(localX, c)
  {
    var s := SnapLocal(localX, c);
    var k := JsRound(localX, c);
    if k <= 0 {
      RoundOfMultiple(0, c);
    } else {
      RoundOfMultiple(k, c);
    }
  }

  /** Snapping the client position of a snapped cell boundary returns that boundary. */
  lemma SnapXIdempotent(clientX: int, rect: Rect, zoom: int, layout: Layout)
    ensures SnapX(rect.left + SnapX(clientX, Some(rect), zoom, layout), Some(rect), zoom, layout)
         == SnapX(clientX, Some(rect), zoom, layout)
  {
    SnapIdempotent(clientX - rect.left, SnapCellWidth(zoom, layout));
  }

  // ---------------------------------------------------------------------------
  // Rows

  /**
   * `snapYRowIndex(clientY, rect)`: 0 without bounds; otherwise the row under
   * the pointer, clamped into [0, rows - 1], so a pointer above the grid gives
   * row 0 and one below it gives the last row. With no rows at all the clamp
   * yields rows - 1.
   */
  function SnapYRowIndex(clientY: int, bounds: Option<Rect>, rows: int, layout: Layout): (r: int)
    ensures bounds.None? ==> r == 0
    ensures bounds.Some? && rows >= 1 ==> 0 <= r < rows
    ensures bounds.Some? && rows < 1 ==> r == rows - 1
    ensures bounds.Some? ==>
      var y := clientY - bounds.value.top;
      && (0 <= y < rows * layout.boxHeight ==> r * layout.boxHeight <= y < (r + 1) * layout.boxHeight)
      && (rows >= 1 && y < 0 ==> r == 0)
      && (rows >= 1 && y >= rows * layout.boxHeight ==> r == rows - 1)
  {
    match bounds
    case None => 0
    case Some(rect) =>
      var y := clientY - rect.top;
      RowClampFacts(y, layout.boxHeight, rows);
      Min(Max(0, y / layout.boxHeight), rows - 1)
  }

  lemma RowClampFacts(y: int, h: PosInt, rows: int)
    ensures var r := Min(Max(0, y / h), rows - 1);
      && (0 <= y < rows * h ==> r * h <= y < (r + 1) * h)
      && (rows >= 1 && y >= rows * h ==> r == rows - 1)
  {
    var f := y / h;
    FloorDivBounds(y, h);
    if 0 <= y < rows * h {
      if f >= rows { MulMonotone(h, rows, f); }
      if f < 0 { MulMonotone(h, f + 1, 0); }
    } else if y >= rows * h && rows >= 1 {
      if f < rows - 1 { MulMonotone(h, f + 1, rows - 1); }
    }
  }

  lemma FloorDivBounds(y: int, h: PosInt)
    ensures (y / h) * h <= y < (y / h) * h + h
  {
  }

  // ---------------------------------------------------------------------------
  // Row -> resource

  /** Total of the first n row spans. */
  function PrefixSum(spans: seq<int>, n: nat): int
    requires n <= |spans|
  {
    if n == 0 then 0 else PrefixSum(spans, n - 1) + spans[n - 1]
  }

  function Shift(o: Option<nat>, k: nat): Option<nat> {
    match o
    case None => None
    case Some(i) => Some(i + k)
  }

  /**
   * The resource owning visual row `row`: the first index whose cumulative row
   * count exceeds `row`, or None when no prefix does.
   */
  function Owner(row: int, spans: seq<int>): (o: Option<nat>)
    ensures o.Some? ==> o.value < |spans|
    decreases |spans|
  {
    if spans == [] then None
    else if row < spans[0] then Some(0)
    else Shift(Owner(row - spans[0], spans[1..]), 1)
  }

  /** The index the mouse-up handler settles on: the owner, else 0 (not the last resource). */
  function ResourceIndexOf(row: int, spans: seq<int>): (i: nat)
    ensures |spans| > 0 ==> i < |spans|
    ensures Owner(row, spans).Some? ==> i == Owner(row, spans).value
    ensures Owner(row, spans).None? ==> i == 0
  {
    match Owner(row, spans)
    case Some(i) => i
    case None => 0
  }

  lemma {:induction false} PrefixSumTail(spans: seq<int>, n: nat)
    requires 1 <= n <= |spans|
    ensures PrefixSum(spans, n) == spans[0] + PrefixSum(spans[1..], n - 1)
  {
    if n > 1 {
      PrefixSumTail(spans, n - 1);
    }
  }

  /** Resource i is the first whose cumulative row count exceeds row. */
  predicate FirstExceeding(row: int, spans: seq<int>, i: nat) {
    && i < |spans|
    && row < PrefixSum(spans, i + 1)
    && forall n :: 1 <= n <= i ==> PrefixSum(spans, n) <= row
  }

  /** No cumulative row count exceeds row. */
  predicate NoneExceeding(row: int, spans: seq<int>) {
    forall n :: 1 <= n <= |spans| ==> PrefixSum(spans, n) <= row
  }

  lemma {:induction false} OwnerSound(row: int, spans: seq<int>, i: nat)
    requires Owner(row, spans) == Some(i)
    ensures FirstExceeding(row, spans, i)
    decreases |spans|
  {
    var rest := spans[1..];
    PrefixSumTail(spans, i + 1);
    if row >= spans[0] {
      assert Owner(row - spans[0], rest) == Some(i - 1);
      OwnerSound(row - spans[0], rest, i - 1);
      forall n | 1 <= n <= i
        ensures PrefixSum(spans, n) <= row
      {
        PrefixSumTail(spans, n);
        if n > 1 {
          assert PrefixSum(rest, n - 1) <= row - spans[0];
        }
      }
    }
  }

  lemma {:induction false} OwnerComplete(row: int, spans: seq<int>, i: nat)
    requires FirstExceeding(row, spans, i)
    ensures Owner(row, spans) == Some(i)
    decreases |spans|
  {
    assert PrefixSum(spans, 1) == spans[0];
    if i > 0 {
      var rest := spans[1..];
      assert PrefixSum(spans, 1) <= row;
      PrefixSumTail(spans, i + 1);
      forall m | 1 <= m <= i - 1
        ensures PrefixSum(rest, m) <= row - spans[0]
      {
        PrefixSumTail(spans, m + 1);
        assert PrefixSum(spans, m + 1) <= row;
      }
      OwnerComplete(row - spans[0], rest, i - 1);
    }
  }

  lemma {:induction false} OwnerNoneSound(row: int, spans: seq<int>)
    requires Owner(row, spans).None?
    ensures NoneExceeding(row, spans)
    decreases |spans|
  {
    if spans != [] {
      var rest := spans[1..];
      assert Owner(row - spans[0], rest).None?;
      OwnerNoneSound(row - spans[0], rest);
      forall n | 1 <= n <= |spans|
        ensures PrefixSum(spans, n) <= row
      {
        PrefixSumTail(spans, n);
        if n > 1 {
          assert PrefixSum(rest, n - 1) <= row - spans[0];
        }
      }
    }
  }

  /**
   * Owner(row, spans) is i exactly when resource i is the first whose
   * cumulative row count exceeds row.
   */
  lemma OwnerIsFirstExceeding(row: int, spans: seq<int>, i: nat)
    ensures Owner(row, spans) == Some(i) <==> FirstExceeding(row, spans, i)
  {
    if Owner(row, spans) == Some(i) {
      OwnerSound(row, spans, i);
    } else if FirstExceeding(row, spans, i) {
      OwnerComplete(row, spans, i);
    }
  }

  /** No owner exists exactly when no cumulative row count exceeds row. */
  lemma OwnerNoneIff(row: int, spans: seq<int>)
    ensures Owner(row, spans).None? <==> NoneExceeding(row, spans)
  {
    match Owner(row, spans)
    case None => OwnerNoneSound(row, spans);
    case Some(i) =>
      OwnerSound(row, spans, i);
      assert PrefixSum(spans, i + 1) > row;
  }

  /** A row inside the span table always has an owner (the no-owner fallback is for stale tables). */
  lemma OwnerWithinTotal(row: int, spans: seq<int>)
    requires 0 <= row < PrefixSum(spans, |spans|)
    ensures Owner(row, spans).Some?
  {
    OwnerNoneIff(row, spans);
    assert |spans| > 0;
  }

  /** Spans [2, 1, 3]: rows 0-1 belong to resource 0, row 2 to 1, rows 3-5 to 2, and row 99 falls back to 0. */
  lemma RowSpansExample()
    ensures ResourceIndexOf(0, [2, 1, 3]) == 0 && ResourceIndexOf(1, [2, 1, 3]) == 0
    ensures ResourceIndexOf(2, [2, 1, 3]) == 1
    ensures ResourceIndexOf(3, [2, 1, 3]) == 2 && ResourceIndexOf(5, [2, 1, 3]) == 2
    ensures ResourceIndexOf(99, [2, 1, 3]) == 0
  {
  }

  /** The accumulation loop of the mouse-up handler, with its early `break`. */
  method ResolveResourceIndex(row: int, rowsPerItem: seq<int>) returns (resourceIndex: nat)
    ensures resourceIndex == ResourceIndexOf(row, rowsPerItem)
  {
    var acc := 0;
    resourceIndex := 0;
    for i := 0 to |rowsPerItem|
      invariant acc == PrefixSum(rowsPerItem, i)
      invariant Owner(row, rowsPerItem) == Shift(Owner(row - acc, rowsPerItem[i..]), i)
      invariant resourceIndex == 0
    {
      assert rowsPerItem[i..][1..] == rowsPerItem[i + 1..];
      acc := acc + rowsPerItem[i];
      if row < acc {
        resourceIndex := i;
        break;
      }
    }
  }

  // ---------------------------------------------------------------------------
  // The emitted range

  /**
   * The cells spanned by a release between leftX and rightX: from the cell at
   * the left bound up to the cell before the right bound, and never fewer than
   * one cell.
   */
  function SelectionCells(leftX: int, rightX: int, c: PosInt): (r: CellRange)
    ensures r.first == JsRound(leftX, c)
    ensures r.first <= r.last
    ensures r.last == r.first || r.last == JsRound(rightX, c) - 1
    ensures r.last >= JsRound(rightX, c) - 1
  {
    var startIdx := JsRound(leftX, c);
    var endIdxExclusive := JsRound(rightX, c);
    CellRange(startIdx, Max(startIdx, endIdxExclusive - 1))
  }

  /** Between two cell boundaries i*c <= j*c the selection covers cells i .. j-1, or cell i alone when i == j. */
  lemma SelectionCellsOfSnapped(i: int, j: int, c: PosInt)
    requires i <= j
    ensures SelectionCells(i * c, j * c, c) == CellRange(i, if i == j then i else j - 1)
    ensures var r := SelectionCells(i * c, j * c, c); r.last - r.first + 1 == Max(1, j - i)
  {
    RoundOfMultiple(i, c);
    RoundOfMultiple(j, c);
  }

  /**
   * What one release emits for a gesture that began at snapped startX on row
   * rowIndex and ended at snapped endX: nothing unless the owning resource
   * exists and a handler is present; otherwise that resource and the selected
   * cells as dates counted from the anchor.
   */
  function SelectionFor(startX: int, endX: int, rowIndex: int, p: GridProps, layout: Layout): (r: Option<SelectionResult>)
    ensures r.Some? <==> ResourceIndexOf(rowIndex, p.rowsPerItem) < |p.data| && p.hasOnGridSelect
    ensures r.Some? ==>
      var res := p.data[ResourceIndexOf(rowIndex, p.rowsPerItem)];
      var spec := CellWidthAndUnit(p.zoom, layout);
      var cells := SelectionCells(Min(startX, endX), Max(startX, endX), spec.cellWidth);
      && r.value.resourceId == res.id && r.value.resourceLabel == res.caption
      && r.value.startDate == AddUnits(p.anchor, cells.first, spec.unit)
      && r.value.endDate == AddUnits(p.anchor, cells.last, spec.unit)
      && r.value.startDate <= r.value.endDate
  {
    var leftX := Min(startX, endX);
    var rightX := Max(startX, endX);
    var resourceIndex := ResourceIndexOf(rowIndex, p.rowsPerItem);
    if resourceIndex < |p.data| && p.hasOnGridSelect then
      var resource := p.data[resourceIndex];
      var spec := CellWidthAndUnit(p.zoom, layout);
      var cells := SelectionCells(leftX, rightX, spec.cellWidth);
      AddUnitsMonotone(p.anchor, cells.first, cells.last, spec.unit);
      Some(SelectionResult(resource.id, resource.caption,
        AddUnits(p.anchor, cells.first, spec.unit), AddUnits(p.anchor, cells.last, spec.unit)))
    else
      None
  }

  /** Dragging right-to-left selects the same range as dragging left-to-right. */
  lemma SelectionDirectionIrrelevant(startX: int, endX: int, rowIndex: int, p: GridProps, layout: Layout)
    ensures SelectionFor(startX, endX, rowIndex, p, layout) == SelectionFor(endX, startX, rowIndex, p, layout)
  {
  }

  /**
   * A drag spanning cells i .. j-1 selects dates from anchor + i units to
   * anchor + (j-1) units; a zero-width drag and a one-cell drag both select the
   * single cell i.
   */
  lemma SelectionDates(i: int, j: int, rowIndex: int, p: GridProps, layout: Layout)
    requires i <= j
    requires SelectionFor(i * CellWidthAndUnit(p.zoom, layout).cellWidth, j * CellWidthAndUnit(p.zoom, layout).cellWidth, rowIndex, p, layout).Some?
    ensures
      var spec := CellWidthAndUnit(p.zoom, layout);
      var r := SelectionFor(i * spec.cellWidth, j * spec.cellWidth, rowIndex, p, layout).value;
      && r.startDate == AddUnits(p.anchor, i, spec.unit)
      && r.endDate == AddUnits(p.anchor, if j <= i + 1 then i else j - 1, spec.unit)
  {
    var c := CellWidthAndUnit(p.zoom, layout).cellWidth;
    SelectionCellsOfSnapped(i, j, c);
    MulMonotone(c, i, j);
  }

  // ---------------------------------------------------------------------------
  // The selection gesture

  class SelectionGesture {
    var isDragging: bool
    var dragStart: Option<Point>
    var dragCurrent: Option<Point>
    /** The cached bounding rectangle of the grid surface. */
    var gridBounds: Option<Rect>
    /** The row the gesture started on. */
    var startRowIndex: int

    /** A session exists exactly while dragging, with both endpoints snapped into the grid. */
    ghost predicate Valid()
      reads this
    {
      && (isDragging <==> dragStart.Some?)
      && (dragStart.Some? <==> dragCurrent.Some?)
      && (dragStart.Some? ==> dragStart.value.x >= 0 && dragCurrent.value.x >= 0)
    }

    constructor ()
      ensures Valid()
      ensures !isDragging && dragStart.None? && dragCurrent.None?
      ensures gridBounds.None? && startRowIndex == 0
    {
      isDragging := false;
      dragStart := None;
      dragCurrent := None;
      gridBounds := None;
      startRowIndex := 0;
    }

    /**
     * `selectionStyle`: present exactly during a session; it spans the two
     * endpoints horizontally and stays on the origin row whatever the pointer's y.
     */
    function SelectionStyle(layout: Layout): (s: Option<Style>)
      reads this
      ensures s.Some? <==> isDragging && dragStart.Some? && dragCurrent.Some?
      ensures s.Some? ==>
        var a, b := dragStart.value.x, dragCurrent.value.x;
        && s.value.width >= 0
        && s.value.left == Min(a, b) && s.value.left + s.value.width == Max(a, b)
        && s.value.top == startRowIndex * layout.boxHeight + 2
    {
      if !isDragging || dragStart.None? || dragCurrent.None? then None
      else
        var left := Min(dragStart.value.x, dragCurrent.value.x);
        var width := Abs(dragCurrent.value.x - dragStart.value.x);
        var top := startRowIndex * layout.boxHeight + 2;
        Some(Style(left, top, width))
    }

    /** Starts a session on a primary-button press over empty grid area; ignores anything else. */
    method MouseDown(e: MouseEvent, p: GridProps, layout: Layout)
      requires Valid()
      modifies this
      ensures Valid()
      ensures e.onButton || e.button != 0 ==> unchanged(this)
      ensures !e.onButton && e.button == 0 ==>
        var x := SnapX(e.clientX, Some(e.bounds), p.zoom, layout);
        && isDragging
        && gridBounds == Some(e.bounds)
        && startRowIndex == SnapYRowIndex(e.clientY, Some(e.bounds), p.rows, layout)
        && dragStart == Some(Point(x, e.clientY))
        && dragCurrent == Some(Point(x, e.clientY))
    {
      if e.onButton {
        return;
      }
      if e.button != 0 {
        return;
      }
      var bounds := e.bounds;
      gridBounds := Some(bounds);
      isDragging := true;
      startRowIndex := SnapYRowIndex(e.clientY, Some(bounds), p.rows, layout);
      dragStart := Some(Point(SnapX(e.clientX, Some(bounds), p.zoom, layout), e.clientY));
      dragCurrent := Some(Point(SnapX(e.clientX, Some(bounds), p.zoom, layout), e.clientY));
    }

    /** Moves the current endpoint during a session; does nothing otherwise. */
    method MouseMove(e: MouseEvent, p: GridProps, layout: Layout)
      requires Valid()
      modifies this
      ensures Valid()
      ensures !old(isDragging) ==> unchanged(this)
      ensures old(isDragging) ==>
        && isDragging && dragStart == old(dragStart) && startRowIndex == old(startRowIndex)
        && gridBounds == Some(e.bounds)
        && dragCurrent == Some(Point(SnapX(e.clientX, Some(e.bounds), p.zoom, layout), e.clientY))
    {
      if !isDragging {
        return;
      }
      var bounds := e.bounds;
      gridBounds := Some(bounds);
      dragCurrent := Some(Point(SnapX(e.clientX, Some(bounds), p.zoom, layout), e.clientY));
    }

    /**
     * Ends a session: emits the selection between the origin and the release
     * point on the origin row's resource (when that resource and a handler
     * exist), and always clears the session. Without a session nothing changes.
     */
    method MouseUp(e: MouseEvent, p: GridProps, layout: Layout) returns (emitted: Option<SelectionResult>)
      requires Valid()
      modifies this
      ensures Valid()
      ensures !old(isDragging) || old(dragStart).None? ==> emitted.None? && unchanged(this)
      ensures old(isDragging) && old(dragStart).Some? ==>
        && !isDragging && dragStart.None? && dragCurrent.None?
        && gridBounds == Some(e.bounds) && startRowIndex == old(startRowIndex)
        && emitted == SelectionFor(old(dragStart).value.x, SnapX(e.clientX, Some(e.bounds), p.zoom, layout),
                                   old(startRowIndex), p, layout)
    {
      if !isDragging || dragStart.None? {
        return None;
      }
      var bounds := e.bounds;
      gridBounds := Some(bounds);
      var endX := SnapX(e.clientX, Some(bounds), p.zoom, layout);
      var startX := dragStart.value.x;
      var leftX := Min(startX, endX);
      var rightX := Max(startX, endX);
      var rowIndex := startRowIndex;
      var resourceIndex := ResolveResourceIndex(rowIndex, p.rowsPerItem);
      emitted := None;
      if resourceIndex < |p.data| && p.hasOnGridSelect {
        var resource := p.data[resourceIndex];
        var spec := CellWidthAndUnit(p.zoom, layout);
        var startIdx := JsRound(leftX, spec.cellWidth);
        var endIdxExclusive := JsRound(rightX, spec.cellWidth);
        var endIdxInclusive := Max(startIdx, endIdxExclusive - 1);
        var start := AddUnits(p.anchor, startIdx, spec.unit);
        var end := AddUnits(p.anchor, endIdxInclusive, spec.unit);
        emitted := Some(SelectionResult(resource.id, resource.caption, start, end));
      }
      isDragging := false;
      dragStart := None;
      dragCurrent := None;
    }
  }

  /**
   * Pressing at the left edge of the grid and releasing one day-cell to the
   * right, in day view, selects the anchor day alone.
   */
  method OneDayDragScenario(p: GridProps, layout: Layout, rect: Rect) returns (r: Option<SelectionResult>)
    requires p.zoom == 1 && p.rows >= 1 && p.hasOnGridSelect && |p.data| > 0
    requires |p.rowsPerItem| > 0 && p.rowsPerItem[0] >= 1
    ensures r == Some(SelectionResult(p.data[0].id, p.data[0].caption, p.anchor, p.anchor))
  {
    var g := new SelectionGesture();
    g.MouseDown(MouseEvent(rect.left, rect.top, 0, false, rect), p, layout);
    RoundOfMultiple(0, layout.dayWidth);
    assert g.startRowIndex == 0;
    assert g.dragStart == Some(Point(0, rect.top));
    var up := MouseEvent(rect.left + layout.dayWidth, rect.top, 0, false, rect);
    RoundOfMultiple(1, layout.dayWidth);
    assert SnapX(up.clientX, Some(rect), p.zoom, layout) == layout.dayWidth;
    r := g.MouseUp(up, p, layout);
    SelectionDates(0, 1, 0, p, layout);
  }
}
