/**
 * The tile's drag/resize engine: a press picks a mode from the pointer's
 * distance to the tile's edges, every window mouse move updates a ghost
 * geometry by whole cells, and the window mouse up turns the ghost into a new
 * date range when it differs from the tile in whole cells. Mutable flags tear
 * the session down and swallow the click that follows a drag.
 */
module Tile {

  import opened Wrappers
  import opened Geometry
  import opened TimeUnits

  datatype Mode = Move | Left | Right

  /** The cursor set on the document body. */
  datatype Cursor = DefaultCursor | Grabbing | EwResize

  /** The live geometry of a tile during a drag. */
  datatype Ghost = Ghost(x: int, width: int)

  /** What the press records: pointer x, the tile's x and width, and its row. */
  datatype DragStart = DragStart(clientX: int, startX: int, width: int, rowIndex: int)

  /** The project a tile shows (its display fields play no part here). */
  datatype Project = Project(id: string, startDate: Date, endDate: Date)

  /**
   * What the tile receives: its placed x and width (computed by layout code
   * outside this model), its row, the zoom level, its project, the resource it
   * belongs to, and whether `onTileChange` and `onTileClick` handlers exist.
   */
  datatype TileProps = TileProps(
    x: int, width: int, row: int, zoom: int, data: Project, resourceId: Option<string>,
    hasOnTileChange: bool, hasOnTileClick: bool)

  /** What `onTileChange` receives. */
  datatype TileChange = TileChange(
    projectId: string, resourceId: string, previousResourceId: Option<string>,
    startDate: Date, endDate: Date)

  /** Pixels from a tile edge within which a press resizes instead of moving. */
  const EdgeThreshold := 8

  /** Pointer travel, in pixels, beyond which a gesture counts as having moved. */
  const MoveTolerance := 2

  /**
   * `getCellWidthAndUnit` of the tile: hour view for zoom 2, day cells for
   * every other zoom (zoom 0 included, unlike the grid's table).
   */
  function CellWidthAndUnit(zoom: int, layout: Layout): (s: CellSpec)
    ensures zoom == 2 ==> s == CellSpec(layout.zoom2ColumnWidth, Hours)
    ensures zoom != 2 ==> s == CellSpec(layout.dayWidth, Days)
  {
    match zoom
    case 2 => CellSpec(layout.zoom2ColumnWidth, Hours)
    case 1 => CellSpec(layout.dayWidth, Days)
    case _ => CellSpec(layout.dayWidth, Days)
  }

  /**
   * The mode a press selects from its distances to the tile's left and right
   * edges: left resize near the left edge (winning when both are near), right
   * resize near the right edge only, a move otherwise.
   */
  function PickMode(fromLeft: int, fromRight: int): (m: Mode)
    ensures m == Left <==> fromLeft <= EdgeThreshold
    ensures m == Right <==> fromLeft > EdgeThreshold && fromRight <= EdgeThreshold
    ensures m == Move <==> fromLeft > EdgeThreshold && fromRight > EdgeThreshold
  {
    if fromLeft <= EdgeThreshold then Left
    else if fromRight <= EdgeThreshold then Right
    else Move
  }

  /** The cursor shown while dragging in a mode: grabbing for a move, a resize arrow otherwise, never the default. */
  function DragCursor(m: Mode): (k: Cursor)
    ensures k != DefaultCursor
    ensures k == Grabbing <==> m == Move
  {
    if m == Move then Grabbing else EwResize
  }

  /**
   * The ghost after the pointer has travelled `steps` whole cells of width c:
   * a move shifts both edges; a right resize keeps the left edge and moves the
   * right one, but never to less than one cell; a left resize moves the left
   * edge and keeps the right one while at least one cell remains, and shrinks
   * to one cell otherwise.
   */
  function GhostAfter(mode: Mode, start: DragStart, steps: int, c: PosInt): (g: Ghost)
    ensures mode == Move ==> g.width == start.width && g.x == start.startX + steps * c
    ensures mode == Right ==>
      && g.x == start.startX
      && g.x + g.width == Max(start.startX + c, start.startX + start.width + steps * c)
    ensures mode == Left ==>
      && g.x == start.startX + steps * c
      && (start.width - steps * c >= c ==> g.x + g.width == start.startX + start.width)
      && (start.width - steps * c < c ==> g.width == c)
    ensures mode != Move ==> g.width >= c
    ensures start.width >= c ==> g.width >= c
  {
    match mode
    case Left =>
      Ghost(start.startX + steps * c, Max(c, start.width - steps * c))
    case Right =>
      Ghost(start.startX, Max(c, start.width + steps * c))
    case Move =>
      Ghost(start.startX + steps * c, start.width)
  }

  /** A width in whole cells, at least one: one for anything under half a cell. */
  function WidthSteps(w: int, c: PosInt): (n: int)
    ensures n >= 1
    ensures 2 * w < c ==> n == 1
    ensures 2 * w >= c ==> 2 * n * c - c <= 2 * w < 2 * n * c + c
  {
    RoundAtLeastOne(w, c);
    Max(1, JsRound(w, c))
  }

  /** A width of at least half a cell rounds to at least one cell, a narrower one to at most zero. */
  lemma RoundAtLeastOne(w: int, c: PosInt)
    ensures 2 * w >= c <==> JsRound(w, c) >= 1
  {
    var r := JsRound(w, c);
    if 2 * w >= c && r < 1 {
      MulMonotone(c, r, 0);
    } else if 2 * w < c && r >= 1 {
      MulMonotone(c, 1, r);
    }
  }

  /** An offset rounds to zero cells exactly when it lies within half a cell of zero, the upper half excluded. */
  lemma RoundZeroIff(a: int, c: PosInt)
    ensures JsRound(a, c) == 0 <==> -(c as int) <= 2 * a < c
  {
    if -(c as int) <= 2 * a < c {
      RoundUnique(a, c, 0);
    }
  }

  /** A width of k >= 1 whole cells is k cells. */
  lemma WidthStepsOfMultiple(k: int, c: PosInt)
    requires k >= 1
    ensures WidthSteps(k * c, c) == k
  {
    RoundOfMultiple(k, c);
  }

  /**
   * Whether the ghost differs from the pressed tile in whole cells: unchanged
   * exactly when its left edge lies within half a cell of the pressed one
   * (the upper half excluded) and its width counts as the same number of cells.
   */
  function Changed(start: DragStart, g: Ghost, c: PosInt): (b: bool)
    ensures !b <==>
      && -(c as int) <= 2 * (g.x - start.startX) < c
      && WidthSteps(g.width, c) == WidthSteps(start.width, c)
  {
    RoundZeroIff(g.x - start.startX, c);
    JsRound(g.x - start.startX, c) != 0 || WidthSteps(g.width, c) != WidthSteps(start.width, c)
  }

  /**
   * The new range of a changed tile: its start moved by dxSteps units; a
   * resized tile then lasts widthSteps cells, a moved one keeps its duration.
   */
  function MovedRange(mode: Mode, data: Project, dxSteps: int, widthSteps: int, unit: TimeUnit): (r: (Date, Date))
    requires widthSteps >= 1
    ensures r.0 == AddUnits(data.startDate, dxSteps, unit)
    ensures mode != Move ==> r.0 <= r.1 && r.1 - r.0 == (widthSteps - 1) * UnitHours(unit)
    ensures mode == Move ==> r.1 == AddUnits(data.endDate, dxSteps, unit)
    ensures mode == Move ==> r.1 - r.0 == data.endDate - data.startDate
  {
    var movedStart := AddUnits(data.startDate, dxSteps, unit);
    match mode
    case Left =>
      AddUnitsMonotone(movedStart, 0, widthSteps - 1, unit);
      (movedStart, AddUnits(movedStart, widthSteps - 1, unit))
    case Right =>
      AddUnitsMonotone(movedStart, 0, widthSteps - 1, unit);
      (movedStart, AddUnits(movedStart, widthSteps - 1, unit))
    case Move =>
      (movedStart, AddUnits(data.endDate, dxSteps, unit))
  }

  /**
   * What the release of a session emits: nothing when the ghost equals the
   * pressed tile in whole cells or when no handler exists; otherwise the
   * project's new range, on the tile's own resource (or "" when it has none),
   * with no previous resource.
   */
  function Release(mode: Mode, start: DragStart, g: Ghost, p: TileProps, layout: Layout): (e: Option<TileChange>)
    ensures var c := CellWidthAndUnit(p.zoom, layout).cellWidth;
      e.Some? <==> Changed(start, g, c) && p.hasOnTileChange
    ensures e.Some? ==>
      var spec := CellWidthAndUnit(p.zoom, layout);
      var range := MovedRange(mode, p.data, JsRound(g.x - start.startX, spec.cellWidth),
                              WidthSteps(g.width, spec.cellWidth), spec.unit);
      && e.value.projectId == p.data.id
      && e.value.resourceId == p.resourceId.GetOr("")
      && e.value.previousResourceId.None?
      && e.value.startDate == range.0 && e.value.endDate == range.1
  {
    var spec := CellWidthAndUnit(p.zoom, layout);
    var c := spec.cellWidth;
    var dxSteps := JsRound(g.x - start.startX, c);
    if Changed(start, g, c) && p.hasOnTileChange then
      var range := MovedRange(mode, p.data, dxSteps, WidthSteps(g.width, c), spec.unit);
      Some(TileChange(p.data.id, p.resourceId.GetOr(""), None, range.0, range.1))
    else
      None
  }

  // ---------------------------------------------------------------------------
  // Properties of a whole gesture

  /** A ghost still at the pressed geometry is unchanged, so its release emits nothing. */
  lemma NoMovementNoChange(start: DragStart, c: PosInt)
    ensures !Changed(start, Ghost(start.startX, start.width), c)
  {
    RoundOfMultiple(0, c);
  }

  lemma MaxTimes(m: int, c: PosInt)
    ensures Max(c, m * c) == Max(1, m) * c
  {
    if m < 1 {
      MulMonotone(c, m, 0);
    } else {
      MulMonotone(c, 1, m);
    }
  }

  /**
   * For a tile k >= 1 cells wide dragged by `steps` cells, the gesture counts
   * as changed exactly when a move or left resize moved at all, or when a right
   * resize changed the number of cells (a one-cell tile cannot shrink further).
   */
  lemma ChangedAfterDrag(mode: Mode, start: DragStart, k: int, steps: int, c: PosInt)
    requires k >= 1 && start.width == k * c
    ensures Changed(start, GhostAfter(mode, start, steps, c), c) <==>
      if mode == Right then Max(1, k + steps) != k else steps != 0
  {
    var g := GhostAfter(mode, start, steps, c);
    WidthStepsOfMultiple(k, c);
    match mode
    case Move =>
      assert g.x - start.startX == steps * c;
      RoundOfMultiple(steps, c);
    case Right =>
      RoundOfMultiple(0, c);
      assert start.width + steps * c == (k + steps) * c;
      MaxTimes(k + steps, c);
      WidthStepsOfMultiple(Max(1, k + steps), c);
    case Left =>
      assert g.x - start.startX == steps * c;
      RoundOfMultiple(steps, c);
      assert start.width - steps * c == (k - steps) * c;
      MaxTimes(k - steps, c);
      WidthStepsOfMultiple(Max(1, k - steps), c);
  }

  /**
   * The dates a changed gesture emits for a tile k >= 1 cells wide dragged by
   * `steps` cells: a move shifts both dates by `steps` units; a right resize
   * keeps the start and ends max(1, k + steps) cells later, inclusive; a left
   * resize shifts the start and, while at least one cell remains, keeps the
   * tile's end cell start + (k - 1); pushed past the right edge it collapses
   * to the single cell it was dragged to, later than the original end.
   */
  lemma DragDates(mode: Mode, start: DragStart, k: int, steps: int, p: TileProps, layout: Layout)
    requires k >= 1 && start.width == k * CellWidthAndUnit(p.zoom, layout).cellWidth
    requires Release(mode, start, GhostAfter(mode, start, steps, CellWidthAndUnit(p.zoom, layout).cellWidth), p, layout).Some?
    ensures
      var spec := CellWidthAndUnit(p.zoom, layout);
      var e := Release(mode, start, GhostAfter(mode, start, steps, spec.cellWidth), p, layout).value;
      && (mode == Move ==>
            e.startDate == AddUnits(p.data.startDate, steps, spec.unit)
            && e.endDate == AddUnits(p.data.endDate, steps, spec.unit))
      && (mode == Right ==>
            e.startDate == p.data.startDate
            && e.endDate == AddUnits(p.data.startDate, Max(1, k + steps) - 1, spec.unit))
      && (mode == Left ==>
            e.startDate == AddUnits(p.data.startDate, steps, spec.unit)
            && (steps < k ==> e.endDate == AddUnits(p.data.startDate, k - 1, spec.unit))
            && (steps >= k ==> e.endDate == e.startDate))
      && (mode != Move ==> e.startDate <= e.endDate)
  {
    var spec := CellWidthAndUnit(p.zoom, layout);
    var c := spec.cellWidth;
    var g := GhostAfter(mode, start, steps, c);
    var s := p.data.startDate;
    match mode
    case Move =>
      assert g.x - start.startX == steps * c;
      RoundOfMultiple(steps, c);
    case Right =>
      RoundOfMultiple(0, c);
      assert start.width + steps * c == (k + steps) * c;
      MaxTimes(k + steps, c);
      WidthStepsOfMultiple(Max(1, k + steps), c);
      AddUnitsAdditive(s, 0, Max(1, k + steps) - 1, spec.unit);
    case Left =>
      assert g.x - start.startX == steps * c;
      RoundOfMultiple(steps, c);
      assert start.width - steps * c == (k - steps) * c;
      MaxTimes(k - steps, c);
      WidthStepsOfMultiple(Max(1, k - steps), c);
      AddUnitsAdditive(s, steps, Max(1, k - steps) - 1, spec.unit);
  }

  /** A three-day tile moved two cells right in day view starts and ends two days later. */
  lemma MovePreservesDurationExample(start: DragStart, p: TileProps, layout: Layout)
    requires p.zoom == 1 && p.hasOnTileChange
    requires start.width == 3 * layout.dayWidth
    requires p.data.endDate == p.data.startDate + 2 * 24
    ensures
      var e := Release(Move, start, GhostAfter(Move, start, 2, layout.dayWidth), p, layout);
      && e.Some?
      && e.value.startDate == p.data.startDate + 48
      && e.value.endDate == p.data.endDate + 48
      && e.value.endDate - e.value.startDate == 2 * 24
  {
    ChangedAfterDrag(Move, start, 3, 2, layout.dayWidth);
    DragDates(Move, start, 3, 2, p, layout);
  }

  // ---------------------------------------------------------------------------
  // The tile gesture

  class TileGesture {
    var dragMode: Option<Mode>
    var dragStart: Option<DragStart>
    /** The ghost as React state (drives rendering). */
    var liveGhost: Option<Ghost>
    /** The ghost as a ref (read by the release handler). */
    var ghostRef: Option<Ghost>
    var hasMoved: bool
    var suppressClick: bool
    /** `document.body.style.userSelect == "none"`. */
    var textSelectionDisabled: bool
    /** `document.body.style.cursor`. */
    var cursor: Cursor
    /** Whether the window mousemove/mouseup listeners are attached. */
    var listenersAttached: bool

    /**
     * A session (mode and start) exists exactly while the window listeners
     * are attached and the body styles are those of a drag in its mode.
     */
    ghost predicate Valid()
      reads this
    {
      && (dragMode.Some? <==> dragStart.Some?)
      && (dragStart.Some? <==> listenersAttached)
      && (listenersAttached <==> textSelectionDisabled)
      && (dragMode.None? ==> cursor == DefaultCursor)
      && (dragMode.Some? ==> cursor == DragCursor(dragMode.value))
    }

    constructor ()
      ensures Valid()
      ensures dragMode.None? && dragStart.None? && liveGhost.None? && ghostRef.None?
      ensures !hasMoved && !suppressClick && !listenersAttached
    {
      dragMode := None;
      dragStart := None;
      liveGhost := None;
      ghostRef := None;
      hasMoved := false;
      suppressClick := false;
      textSelectionDisabled := false;
      cursor := DefaultCursor;
      listenersAttached := false;
    }

    /**
     * A press on the tile at clientX, the tile's bounding rectangle being
     * rect: starts a session in the mode the edges select, with the ghost at the
     * tile's geometry and the click suppression cleared.
     */
    method MouseDown(clientX: int, rect: Rect, p: TileProps)
      requires Valid()
      modifies this
      ensures Valid()
      ensures dragMode == Some(PickMode(clientX - rect.left, rect.right - clientX))
      ensures dragStart == Some(DragStart(clientX, p.x, p.width, p.row))
      ensures liveGhost == Some(Ghost(p.x, p.width)) && ghostRef == liveGhost
      ensures !suppressClick && hasMoved == old(hasMoved)
      ensures listenersAttached && textSelectionDisabled && cursor == DragCursor(dragMode.value)
    {
      var mode := PickMode(clientX - rect.left, rect.right - clientX);
      dragMode := Some(mode);
      suppressClick := false;
      dragStart := Some(DragStart(clientX, p.x, p.width, p.row));
      var initial := Ghost(p.x, p.width);
      liveGhost := Some(initial);
      ghostRef := Some(initial);
      textSelectionDisabled := true;
      cursor := DragCursor(mode);
      listenersAttached := true;
    }

    /**
     * A window mouse move to clientX: during a session, the ghost follows the
     * pointer by whole cells, travel beyond the tolerance marks the gesture as
     * moved and any nonzero step arms the click suppression. Without a session
     * nothing changes.
     */
    method WindowMouseMove(clientX: int, p: TileProps, layout: Layout)
      requires Valid()
      modifies this
      ensures Valid()
      ensures old(dragStart).None? || old(dragMode).None? ==> unchanged(this)
      ensures old(dragStart).Some? && old(dragMode).Some? ==>
        var start := old(dragStart).value;
        var dx := clientX - start.clientX;
        var c := CellWidthAndUnit(p.zoom, layout).cellWidth;
        var steps := JsRound(dx, c);
        && liveGhost == Some(GhostAfter(old(dragMode).value, start, steps, c))
        && ghostRef == liveGhost
        && hasMoved == (old(hasMoved) || Abs(dx) > MoveTolerance)
        && suppressClick == (old(suppressClick) || steps != 0)
        && dragMode == old(dragMode) && dragStart == old(dragStart)
        && listenersAttached == old(listenersAttached)
        && textSelectionDisabled == old(textSelectionDisabled) && cursor == old(cursor)
    {
      if dragStart.None? || dragMode.None? {
        return;
      }
      var start := dragStart.value;
      var dx := clientX - start.clientX;
      var cellWidth := CellWidthAndUnit(p.zoom, layout).cellWidth;
      if Abs(dx) > MoveTolerance {
        hasMoved := true;
      }
      var steps := JsRound(dx, cellWidth);
      var next := GhostAfter(dragMode.value, start, steps, cellWidth);
      liveGhost := Some(next);
      ghostRef := Some(next);
      if steps != 0 {
        suppressClick := true;
      }
    }

    /**
     * The window mouse up: during a session with a ghost, emits the release's
     * change (if any), arms the click suppression exactly when the gesture
     * changed the tile, and always tears the session down. Without a session
     * nothing changes and nothing is emitted.
     */
    method WindowMouseUp(p: TileProps, layout: Layout) returns (emitted: Option<TileChange>)
      requires Valid()
      modifies this
      ensures Valid()
      ensures old(dragStart).None? || old(dragMode).None? || (old(ghostRef).None? && old(liveGhost).None?) ==>
        emitted.None? && unchanged(this)
      ensures old(dragStart).Some? && old(dragMode).Some? && (old(ghostRef).Some? || old(liveGhost).Some?) ==>
        var start := old(dragStart).value;
        var g := if old(ghostRef).Some? then old(ghostRef).value else old(liveGhost).value;
        var c := CellWidthAndUnit(p.zoom, layout).cellWidth;
        && emitted == Release(old(dragMode).value, start, g, p, layout)
        && suppressClick == Changed(start, g, c)
        && hasMoved == old(hasMoved)
        && dragMode.None? && dragStart.None? && liveGhost.None? && ghostRef.None?
        && !listenersAttached && !textSelectionDisabled && cursor == DefaultCursor
    {
      if dragStart.None? || dragMode.None? {
        return None;
      }
      var mode := dragMode.value;
      var start := dragStart.value;
      var spec := CellWidthAndUnit(p.zoom, layout);
      var cellWidth := spec.cellWidth;
      var currentGhost := if ghostRef.Some? then ghostRef else liveGhost;
      if currentGhost.None? {
        return None;
      }
      var g := currentGhost.value;
      var dxSteps := JsRound(g.x - start.startX, cellWidth);
      var initialWidthSteps := WidthSteps(start.width, cellWidth);
      var currentWidthSteps := WidthSteps(g.width, cellWidth);
      var changed := dxSteps != 0 || currentWidthSteps != initialWidthSteps;
      emitted := None;
      if changed && p.hasOnTileChange {
        var movedStart := AddUnits(p.data.startDate, dxSteps, spec.unit);
        var movedEnd;
        if mode == Left {
          var widthSteps := WidthSteps(g.width, cellWidth);
          movedEnd := AddUnits(movedStart, widthSteps - 1, spec.unit);
        } else if mode == Right {
          var widthSteps := WidthSteps(g.width, cellWidth);
          movedEnd := AddUnits(movedStart, widthSteps - 1, spec.unit);
        } else {
          movedEnd := AddUnits(p.data.endDate, dxSteps, spec.unit);
        }
        emitted := Some(TileChange(p.data.id, p.resourceId.GetOr(""), None, movedStart, movedEnd));
      }
      suppressClick := changed;
      dragMode := None;
      dragStart := None;
      liveGhost := None;
      textSelectionDisabled := false;
      cursor := DefaultCursor;
      listenersAttached := false;
      ghostRef := None;
    }

    /**
     * `cleanupDrag`, also run when the tile unmounts: ends any session, detaches
     * the listeners and resets the body styles; the ghost ref and the click
     * flags are left as they are.
     */
    method CleanupDrag()
      requires Valid()
      modifies this
      ensures Valid()
      ensures dragMode.None? && dragStart.None? && liveGhost.None?
      ensures ghostRef == old(ghostRef)
      ensures hasMoved == old(hasMoved) && suppressClick == old(suppressClick)
      ensures !listenersAttached && !textSelectionDisabled && cursor == DefaultCursor
    {
      dragMode := None;
      dragStart := None;
      liveGhost := None;
      textSelectionDisabled := false;
      cursor := DefaultCursor;
      listenersAttached := false;
    }

    /**
     * A click on the tile: swallowed, clearing both flags, when the last
     * gesture moved or changed the tile; otherwise passed to `onTileClick`
     * (when present) with the tile's project.
     */
    method Click(p: TileProps) returns (clicked: Option<Project>)
      requires Valid()
      modifies this
      ensures Valid()
      ensures old(hasMoved) || old(suppressClick) ==>
        clicked.None? && !hasMoved && !suppressClick
      ensures !old(hasMoved) && !old(suppressClick) ==>
        clicked == (if p.hasOnTileClick then Some(p.data) else None) && unchanged(this)
      ensures dragMode == old(dragMode) && dragStart == old(dragStart) && liveGhost == old(liveGhost)
      ensures ghostRef == old(ghostRef) && listenersAttached == old(listenersAttached)
    {
      if hasMoved || suppressClick {
        suppressClick := false;
        hasMoved := false;
        return None;
      }
      clicked := if p.hasOnTileClick then Some(p.data) else None;
    }
  }

  /** A press and release without any movement emits no change, and the click that follows reaches `onTileClick`. */
  method PressReleaseClickScenario(clientX: int, rect: Rect, p: TileProps, layout: Layout)
    returns (emitted: Option<TileChange>, clicked: Option<Project>)
    requires p.hasOnTileClick
    ensures emitted.None?
    ensures clicked == Some(p.data)
  {
    var t := new TileGesture();
    t.MouseDown(clientX, rect, p);
    NoMovementNoChange(DragStart(clientX, p.x, p.width, p.row), CellWidthAndUnit(p.zoom, layout).cellWidth);
    emitted := t.WindowMouseUp(p, layout);
    clicked := t.Click(p);
  }

  /** After a forced cleanup in the middle of a drag, later window events emit nothing. */
  method TeardownScenario(pressX: int, dragX: int, laterX: int, rect: Rect, p: TileProps, layout: Layout)
    returns (emitted: Option<TileChange>)
    ensures emitted.None?
  {
    var t := new TileGesture();
    t.MouseDown(pressX, rect, p);
    t.WindowMouseMove(dragX, p, layout);
    t.CleanupDrag();
    t.WindowMouseMove(laterX, p, layout);
    emitted := t.WindowMouseUp(p, layout);
  }
}
