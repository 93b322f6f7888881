# react-scheduler gesture core in Dafny

This project models the two pointer-gesture engines of the react-scheduler
calendar component and proves properties about them.

- **Grid selection** (`Grid.tsx`). Pressing on empty grid area starts a
  selection. The horizontal pointer position is snapped to cell boundaries,
  and the vertical position is clamped to a row. Releasing resolves the origin
  row to the resource that owns it, by walking the per-resource row counts. It
  then emits an end-inclusive date range counted from the view's anchor date.
- **Tile drag and resize** (`Tile.tsx`). Pressing on a tile picks a mode
  (move, left resize, right resize) from the pointer's distance to the tile's
  edges. Every window mouse move updates a "ghost" geometry by whole cells.
  The window mouse up decides, in whole cells, whether anything changed, and
  only then emits a new date range. A few mutable flags tear the session down
  and swallow the click that follows a drag.

Modelling choices:

- Pixels are integers. `Math.round(a / c)` is `Geometry.JsRound`, the nearest
  integer with halves rounded towards +infinity.
- Dates are whole hours. Adding n units of an hour, a day or a week adds
  n × 1, 24 or 168 hours (`TimeUnits.AddUnits`).
- The layout constants `dayWidth`, `weekWidth`, `zoom2ColumnWidth` and
  `boxHeight` come from a constants module that is not part of this model.
  They are passed in as a `Layout` of positive integers, so every result
  holds for any positive values.
- Each gesture is a class. Its fields mirror the component's React state and
  refs. DOM facts become plain values:
  - the bounding rectangle is a `Rect`;
  - "the target is a button" is a flag;
  - the body's `userSelect` and `cursor` styles are fields;
  - attached window listeners are a boolean.
- Each handler is a method that returns the callback's argument as an
  `Option` (None when the callback is not called). The presence of
  `onGridSelect`, `onTileChange` and `onTileClick` is a flag on the props.

A row outside every resource's span leaves the index at 0, not at the last
resource (`Grid.ResourceIndexOf`, `Grid.RowSpansExample`).

## Model

| member | source | states |
|---|---|---|
| Geometry.JsRound | src/components/Calendar/Grid/Grid.tsx:208-209 | The result r satisfies r·c − c/2 ≤ a < r·c + c/2, so it is the rounding of a/c with halves going up. |
| Geometry.RoundUnique | src/components/Calendar/Grid/Grid.tsx:208-209 | Any integer within that half-open window is the rounding, so the rounding is uniquely determined. |
| Geometry.RoundOfMultiple | src/components/Tiles/Tile/Tile.tsx:97-99 | Rounding k·c / c gives exactly k. |
| TimeUnits.UnitHours | src/components/Calendar/Grid/Grid.tsx:145-154 | Every unit is a positive number of hours; an hour is 1. |
| TimeUnits.AddUnits | src/components/Calendar/Grid/Grid.tsx:211-212 | Adding n units leaves the date unchanged exactly when n = 0, and moves it later exactly when n > 0. |
| TimeUnits.AddUnitsAdditive | src/components/Tiles/Tile/Tile.tsx:107-114 | Adding m units and then n units is the same as adding m + n units. |
| TimeUnits.AddUnitsMonotone | src/components/Calendar/Grid/Grid.tsx:210-212 | m ≤ n exactly when d + m units ≤ d + n units. |
| TimeUnits.AddUnitsDistance | src/components/Tiles/Tile/Tile.tsx:102-116 | The distance between d + n units and d + m units is (n − m) units. |
| Grid.CellWidthAndUnit | src/components/Calendar/Grid/Grid.tsx:145-154 | Zoom 2 means hour cells of zoom2ColumnWidth, zoom 1 means day cells of dayWidth, and any other zoom means week cells of weekWidth. |
| Grid.SnapCellWidth | src/components/Calendar/Grid/Grid.tsx:119 | The cell width snapX picks with its own conditional equals the width in the unit table. |
| Grid.SnapLocal | src/components/Calendar/Grid/Grid.tsx:117-121 | The snapped x is a non-negative multiple of the cell width. It is 0 exactly when the pointer is left of the middle of cell 0; otherwise it is the boundary within half a cell of the pointer. |
| Grid.SnapX | src/components/Calendar/Grid/Grid.tsx:113-124 | 0 without bounds; always a non-negative multiple of the zoom's cell width; with bounds, the snap of the grid-local x. |
| Grid.SnapIdempotent | src/components/Calendar/Grid/Grid.tsx:120 | Snapping an already snapped local x leaves it unchanged. |
| Grid.SnapXIdempotent | src/components/Calendar/Grid/Grid.tsx:113-124 | Snapping the client position of a snapped boundary returns that boundary. |
| Grid.SnapYRowIndex | src/components/Calendar/Grid/Grid.tsx:126-135 | 0 without bounds. For rows ≥ 1 the result lies in [0, rows − 1]. Inside the grid it is the row whose band holds y. Above the grid it is row 0; below it, the last row. With no rows it is rows − 1. |
| Grid.Owner | src/components/Calendar/Grid/Grid.tsx:193-201 | An owner returned by the row walk is a valid resource index. |
| Grid.ResourceIndexOf | src/components/Calendar/Grid/Grid.tsx:193-201 | The resolved index is the owner when one exists. It falls back to 0 (not the last resource) when no prefix exceeds the row, and it is in range whenever there are spans. |
| Grid.OwnerSound | src/components/Calendar/Grid/Grid.tsx:195-200 | When the walk returns i, resource i is the first whose cumulative row count exceeds the row. |
| Grid.OwnerComplete | src/components/Calendar/Grid/Grid.tsx:195-200 | When resource i is the first whose cumulative row count exceeds the row, the walk returns i. |
| Grid.OwnerNoneSound | src/components/Calendar/Grid/Grid.tsx:193-201 | When the walk finds no owner, no cumulative row count exceeds the row. |
| Grid.OwnerIsFirstExceeding | src/components/Calendar/Grid/Grid.tsx:193-201 | The walk returns i if and only if i is the first index whose cumulative count exceeds the row. |
| Grid.OwnerNoneIff | src/components/Calendar/Grid/Grid.tsx:193-201 | The walk finds no owner if and only if no cumulative count exceeds the row. |
| Grid.OwnerWithinTotal | src/components/Calendar/Grid/Grid.tsx:193-201 | A non-negative row below the total row count always has an owner. |
| Grid.RowSpansExample | src/components/Calendar/Grid/Grid.tsx:193-201 | For spans [2, 1, 3]: rows 0 and 1 resolve to resource 0, row 2 to 1, rows 3 and 5 to 2, and row 99 falls back to 0. |
| Grid.ResolveResourceIndex | src/components/Calendar/Grid/Grid.tsx:193-201 | The accumulation loop with its early break computes exactly the first-exceeding index, or 0. |
| Grid.SelectionCells | src/components/Calendar/Grid/Grid.tsx:208-210 | The first cell is the rounding of leftX. The last cell is the later of the first cell and the cell before rightX's rounding. |
| Grid.SelectionCellsOfSnapped | src/components/Calendar/Grid/Grid.tsx:208-210 | Between snapped boundaries i·c ≤ j·c the cells are i .. j − 1, or i alone when i = j. The count is max(1, j − i). |
| Grid.SelectionFor | src/components/Calendar/Grid/Grid.tsx:202-219 | A selection is emitted exactly when the resolved resource exists and a handler is present. It carries that resource's id and label, and dates at the anchor plus the first and last cells. Its start is never after its end. |
| Grid.SelectionDirectionIrrelevant | src/components/Calendar/Grid/Grid.tsx:189-190 | Dragging right-to-left emits the same selection as dragging left-to-right. |
| Grid.SelectionDates | src/components/Calendar/Grid/Grid.tsx:205-212 | A drag between cell boundaries i ≤ j selects anchor + i units to anchor + (j − 1) units. A zero-width drag and a one-cell drag both select cell i alone. |
| Grid.SelectionGesture.constructor | src/components/Calendar/Grid/Grid.tsx:37-41 | The gesture starts idle with no endpoints and no cached bounds. |
| Grid.SelectionGesture.SelectionStyle | src/components/Calendar/Grid/Grid.tsx:137-143 | The style is present exactly during a session. It spans from the lesser endpoint to the greater with a non-negative width, and its top is pinned to the origin row whatever the pointer's y. |
| Grid.SelectionGesture.MouseDown | src/components/Calendar/Grid/Grid.tsx:156-170 | A press on a button, or with a non-primary button, changes nothing. Otherwise the press caches the bounds, starts dragging, records the origin row, and sets both endpoints to the snapped press point. |
| Grid.SelectionGesture.MouseMove | src/components/Calendar/Grid/Grid.tsx:172-180 | Outside a session nothing changes. During one, only the current endpoint (and the cached bounds) follow the pointer. |
| Grid.SelectionGesture.MouseUp | src/components/Calendar/Grid/Grid.tsx:182-235 | Without a session nothing changes and nothing is emitted. Otherwise the method emits SelectionFor the origin and the snapped release point on the origin row, and the session is cleared whether or not it emits. |
| Grid.OneDayDragScenario | src/components/Calendar/Grid/Grid.tsx:156-222 | Pressing at the grid's left edge and releasing one day-cell to the right selects the anchor day alone, on the first resource. |
| Tile.CellWidthAndUnit | src/components/Tiles/Tile/Tile.tsx:44-53 | Zoom 2 means hour cells of zoom2ColumnWidth; every other zoom, zoom 0 included, means day cells of dayWidth. |
| Tile.PickMode | src/components/Tiles/Tile/Tile.tsx:159-162 | Left resize exactly when within 8 px of the left edge. Right resize exactly when not near the left edge but within 8 px of the right one. A move otherwise. |
| Tile.DragCursor | src/components/Tiles/Tile/Tile.tsx:170 | A drag never shows the default cursor, and it shows the grabbing cursor exactly for a move (a resize arrow otherwise). |
| Tile.GhostAfter | src/components/Tiles/Tile/Tile.tsx:58-84 | A move shifts both edges by steps·c. A right resize keeps the left edge and puts the right edge at max(left + c, old right + steps·c). A left resize shifts the left edge by steps·c; it keeps the right edge while a cell remains and is one cell wide otherwise. A resize is always at least one cell wide. |
| Tile.WidthSteps | src/components/Tiles/Tile/Tile.tsx:98-99 | The width in cells is at least 1. It is exactly 1 for a width under half a cell, and the rounding of w / c otherwise. |
| Tile.RoundZeroIff | src/components/Tiles/Tile/Tile.tsx:96-97 | An offset rounds to zero cells exactly when it lies within half a cell of zero, the upper half excluded. |
| Tile.Changed | src/components/Tiles/Tile/Tile.tsx:96-100 | A ghost is unchanged exactly when its left edge is within half a cell of the pressed one and its width counts as the same number of cells. |
| Tile.WidthStepsOfMultiple | src/components/Tiles/Tile/Tile.tsx:98-99 | A width of k ≥ 1 whole cells counts as k cells. |
| Tile.MovedRange | src/components/Tiles/Tile/Tile.tsx:102-117 | The start moves by dxSteps units. A resized tile ends (widthSteps − 1) units after its start, so start ≤ end. A moved tile's end moves by the same amount, which preserves its duration. |
| Tile.Release | src/components/Tiles/Tile/Tile.tsx:96-125 | A change is emitted exactly when the ghost differs in whole cells and a handler exists. It carries the project id, the resource id or "", no previous resource, and the moved range. |
| Tile.NoMovementNoChange | src/components/Tiles/Tile/Tile.tsx:96-100 | A ghost still at the pressed geometry is unchanged, so nothing is emitted for it. |
| Tile.ChangedAfterDrag | src/components/Tiles/Tile/Tile.tsx:58-100 | For a tile k ≥ 1 cells wide dragged by steps cells, a move or left resize counts as changed exactly when steps ≠ 0. A right resize counts as changed exactly when max(1, k + steps) ≠ k. |
| Tile.DragDates | src/components/Tiles/Tile/Tile.tsx:58-117 | For a k-cell tile dragged by steps cells: a move shifts both dates by steps units. A right resize keeps the start and ends max(1, k + steps) − 1 units after it. A left resize shifts the start; it keeps the original end cell while steps < k, and collapses to one cell at the new start otherwise. Resizes never end before they start. |
| Tile.MovePreservesDurationExample | src/components/Tiles/Tile/Tile.tsx:78-117 | A three-day tile moved two cells right in day view is emitted two days later with the same two-day span. |
| Tile.TileGesture.constructor | src/components/Tiles/Tile/Tile.tsx:32-42 | The gesture starts with no mode, start or ghost, both flags clear, and no listeners. |
| Tile.TileGesture.MouseDown | src/components/Tiles/Tile/Tile.tsx:156-177 | A press starts a session in the mode the edges select. It records the pointer and the tile's geometry, and puts both ghosts at that geometry. It clears the click suppression but leaves hasMoved alone. It disables text selection, sets the mode's cursor and attaches the listeners. |
| Tile.TileGesture.WindowMouseMove | src/components/Tiles/Tile/Tile.tsx:55-87 | Without a session nothing changes. During one, both ghosts become GhostAfter the rounded step count. Travel beyond 2 px sets hasMoved, and a nonzero step sets the click suppression. |
| Tile.TileGesture.WindowMouseUp | src/components/Tiles/Tile/Tile.tsx:89-144 | Without a session or a ghost nothing changes and nothing is emitted. Otherwise the method emits the Release of the ref ghost (or the state ghost) and sets the click suppression to whether the tile changed. It always clears mode, start and both ghosts, resets the body styles and detaches the listeners. |
| Tile.TileGesture.CleanupDrag | src/components/Tiles/Tile/Tile.tsx:146-154 | Clears mode, start and the state ghost, resets the body styles and detaches the listeners. The ghost ref and both click flags are untouched. |
| Tile.TileGesture.Click | src/components/Tiles/Tile/Tile.tsx:189-201 | A click is swallowed exactly when hasMoved or the suppression is set, and swallowing clears both flags. Otherwise the project is passed to onTileClick when one exists, and nothing changes. |
| Tile.PressReleaseClickScenario | src/components/Tiles/Tile/Tile.tsx:156-201 | A press and release without movement emits no change, and the click that follows reaches onTileClick. |
| Tile.TeardownScenario | src/components/Tiles/Tile/Tile.tsx:146-187 | After a cleanup in the middle of a drag, later window move and up events emit nothing. |

## Left out

- Canvas drawing, canvas sizing and the window resize listener that refreshes the cached grid bounds are rendering and DOM I/O. The gesture's bounds start empty, and every handler supplies them from its event.
- The infinite-scroll IntersectionObserver logic is browser plumbing.
- The DOM is reduced to values:
  - `getBoundingClientRect` is a `Rect`;
  - the button/closest target test is a flag;
  - `preventDefault` and `stopPropagation` are omitted;
  - the body styles and the listener registration are fields.
- The date library's calendar arithmetic, the local-time parsing of the anchor string and daylight-saving effects are a foreign library. Dates are whole hours, and a day is always 24 of them.
- Pixels are integers. Fractional pointer coordinates and floating-point division before rounding are not modelled.
- React scheduling is left out. This covers closure identity, re-render timing and the re-run of the unmount cleanup whenever its callbacks are re-created. It also covers the staleness of state read from an old closure: state and refs are read as their latest values. The mouse-down handler's `setGhost` re-creates `onWindowMouseUp` and so `cleanupDrag`, which would make the unmount effect's old cleanup end each drag right after the press. The model describes the handlers without that re-run.
- `getTileProperties`, `getDatesRange` and `getTileTextColor` are not part of this model. The tile's placed x, width and row are inputs in `TileProps`.
- The layout constants are parameters, not the shipped values. Their module is not part of this model.
- The demo page, tooltip example, styles, prop-type files and re-exports contain no gesture logic.
