# Tiles: a Dafny model of the tile-grid controller's integer and boolean logic

Tiles is a UIKit/SwiftUI widget. It shows a grid of `rows * columns` tiles, reacts
to multi-touch and keeps three flags per tile: pressed, latch and selected. This
project models, in pure functions over integers, booleans, sets and sequences,
the parts of the widget that decide:

- which logical index each drawn tile carries (`tileIndex`);
- how `update` and the initialisers normalise a configuration (clamping,
  the row/column swap for vertical grids, the flag remapping);
- how the active touch set turns into press flags and edge-triggered latch
  toggles (`updateTiles`, `touchesBegan/Moved/Ended/Cancelled`);
- how `draw` rebuilds the tiles and carries press and latch state across by
  logical index;
- how `TileContext.navigate` moves the selected tile inside its row or column.

The modules follow the source's components:

- `Wrappers` (`wrappers.dfy`): `Option` (Swift's `Int?`) and `Checked`. `Checked` is
  either `Ok(value)` or `Trap`; `Trap` stands for a Swift runtime trap.
- `SwiftInt` (`swift_int.dfy`): Swift's truncating `/` and `%` as `Quot` and
  `Rem`, plus the Euclidean division facts used by the proofs.
- `Layouts` (`layouts.dfy`): the `TileLayout` value and `TileLayout.init`. It also
  defines the `(forward, ascending)` remapping that `TileLayout.init`,
  `TileViewController.init` and `update` all apply.
- `TileIndexing` (`tile_indexing.dfy`): `tileIndex`, an inverse `SlotOf`, and the
  proof that `tileIndex` permutes `[0, rows * columns)`.
- `TileStates` (`tile_states.dfy`): the per-tile state record, `updateTiles`, and
  the "first old tile with this index" lookup that `draw` performs.
- `Controller` (`controller.dfy`): `TileViewController`, with its initialiser,
  `draw`, `update` and the four touch handlers.
- `Context` (`context.dfy`): `TileContext` and `navigate`, with a reference
  definition `Step` of the intended move, expressed as row and column.

Behaviour of the code worth noting:

- `update` clamps non-positive `rows` and `columns` to 1; it does not reject them.
- `update` rebuilds at once: `viewDidLayoutSubviews` is called synchronously,
  and there is no debounce.
- The controller has no latching-enabled flag, so a latch toggles on every
  rising edge.
- The controller's initialiser and `update` do swap `rows` and `columns` for a
  vertical grid. `TileLayout.init` does not.

Abstractions:

- A touch is an identity (`TouchId`). Whether its current location lies in the
  frame of the tile at slot `k` is a parameter of each touch event,
  `hit(t, k)`. The frame geometry is floating point and is not modelled.
- The tiles are kept in slot order, because `draw` appends them in that order.
- Swift traps are results, not preconditions. `draw` traps when `rows * columns`
  is negative. `navigate` traps when the product is 0 and a tile is selected.

## Model

| member | source | states |
|---|---|---|
| `SwiftInt.Quot` | Sources/Tiles/TileContext.swift:33-34 | Swift `/`: the quotient is non-negative when the operands have the same sign and non-positive otherwise; it equals Euclidean division on non-negative operands |
| `SwiftInt.Rem` | Sources/Tiles/TileContext.swift:40 | Swift `%`: `a == Quot(a,b)*b + r` with `abs(r) < abs(b)`, and `r` has the dividend's sign; it equals Euclidean `%` on non-negative operands |
| `SwiftInt.QuotRemUnique` | Sources/Tiles/TileContext.swift:33-40 | any quotient/remainder pair with a small remainder of the dividend's sign is the truncating pair, so `Quot`/`Rem` are exactly Swift's operators |
| `Layouts.StoredFlags` | Sources/Tiles/TileLayout.swift:18-19 | a horizontal grid keeps `forward`/`ascending`; a vertical one stores `!ascending` as forward and `forward` as ascending |
| `Layouts.StoredFlagsInjective` | Sources/Tiles/TileLayout.swift:18-19 | the remapping loses no information: for a fixed orientation, equal stored flags imply equal passed flags |
| `Layouts.VerticalRemapIsQuarterTurn` | Sources/Tiles/TileViewController.swift:82-83 | for a vertical grid the remap is a quarter turn of the flag pair: twice negates both flags, four times is the identity, and one, two or three times never gives back the starting pair |
| `Layouts.MakeLayout` | Sources/Tiles/TileLayout.swift:9-23 | `TileLayout.init` stores `horizontal` exactly as passed, stores the remapped flags, and stores rows, columns and spacing verbatim (no clamp, no swap) |
| `Layouts.MakeLayoutInjective` | Sources/Tiles/TileLayout.swift:17-22 | two `TileLayout.init` calls build the same value only for identical arguments |
| `TileIndexing.TileIndex` | Sources/Tiles/TileViewController.swift:130-139 | for `rows, columns >= 1` and a slot in `[0, rows*columns)`, the logical index lies in `[0, rows*columns)` |
| `TileIndexing.RowColumnInRange` | Sources/Tiles/TileViewController.swift:131-135 | the (reflected) row lies below `rows` and the column below `columns` for every slot of a valid grid |
| `TileIndexing.SlotOf` | Sources/Tiles/TileViewController.swift:130-139 | the inverse mapping (logical index to slot) stays in `[0, rows*columns)` |
| `TileIndexing.SlotOfTileIndex` | Sources/Tiles/TileViewController.swift:130-139 | `SlotOf(TileIndex(s)) == s` for every slot |
| `TileIndexing.TileIndexOfSlotOf` | Sources/Tiles/TileViewController.swift:130-139 | `TileIndex(SlotOf(i)) == i` for every logical index |
| `TileIndexing.TileIndexInjective` | Sources/Tiles/TileViewController.swift:130-139 | distinct slots get distinct logical indices |
| `TileIndexing.TileIndexSurjective` | Sources/Tiles/TileViewController.swift:130-139 | every logical index in `[0, rows*columns)` is drawn at some slot |
| `TileIndexing.TileIndexIdentity` | Sources/Tiles/TileViewController.swift:131-137 | with `horizontal`, `forward` and `ascending` all true, `tileIndex(s) == s` |
| `TileIndexing.ForwardReflectsRow` | Sources/Tiles/TileViewController.swift:131-132 | clearing `forward` replaces the index's row part `i % rows` by `rows-1-i % rows` and keeps its column part `i / rows` |
| `TileIndexing.AscendingReflectsColumn` | Sources/Tiles/TileViewController.swift:134-135 | clearing `ascending` replaces the column part `i / rows` by `columns-1-i / rows` and keeps the row part |
| `TileIndexing.ReversedTwoByTwo` | Sources/Tiles/TileViewController.swift:130-139 | a 2x2 horizontal grid with `forward` cleared draws, slot by slot, the indices `[1,0,3,2]` |
| `TileStates.UpdateTiles` | Sources/Tiles/TileViewController.swift:145-158 | each tile's `isPressed` equals "some active touch lies in it"; its latch changes iff it went from not pressed to pressed; index and selection are kept |
| `TileStates.UpdateTilesSettled` | Sources/Tiles/TileViewController.swift:149-157 | when press flags already match the touches, no tile changes (held, released or idle tiles keep their latch) |
| `TileStates.UpdateTilesIdempotent` | Sources/Tiles/TileViewController.swift:152-156 | reconciling twice with the same touches equals reconciling once |
| `TileStates.HoldTogglesOnce` | Sources/Tiles/TileViewController.swift:145-157 | any number `n >= 1` of reconciliations with a held touch gives the result of the first: a latch toggles once per press |
| `TileStates.FirstWithIndex` | Sources/Tiles/TileViewController.swift:108-109 | `first(where: index == i)`: `None` exactly when no tile has index `i`, otherwise the position of the earliest such tile |
| `TileStates.Rebuilt` | Sources/Tiles/TileViewController.swift:108-110 | a rebuilt tile carries index `i`, is unselected, copies press and latch from the first old tile with index `i`, or is released and unlatched when there is none |
| `Controller.AtLeastOne` | Sources/Tiles/TileViewController.swift:74-75 | `max(1, n)`: a non-positive `n` becomes exactly 1 and any `n >= 1` is kept, so the result is at least 1 and at least `n` |
| `Controller.Oriented` | Sources/Tiles/TileViewController.swift:79-80 | a horizontal grid keeps `(rows, columns)`, a vertical one stores them swapped; the product is the same either way |
| `Controller.Init` | Sources/Tiles/TileViewController.swift:19-41 | the initialiser stores `horizontal`, the oriented shape (unclamped) and the remapped flags, with no tiles and no touches |
| `Controller.DefaultControllerDraws` | Sources/Tiles/TileViewController.swift:19-27 | the initialiser's defaults (spacing 1, horizontal, forward, ascending, 5 x 5) draw 25 released, unlatched tiles whose indices run in slot order |
| `Controller.Draw` | Sources/Tiles/TileViewController.swift:88-117 | traps exactly when `rows*columns < 0`; otherwise it makes exactly `rows*columns` tiles, the tile at slot `s` having index `tileIndex(s)` and the old tile's state by index (false when there is none); layout and touches are kept |
| `Controller.DrawIsPermutation` | Sources/Tiles/TileViewController.swift:100-110 | on a grid with `rows, columns >= 1`, the rebuilt tiles carry distinct indices in range and every index is present |
| `Controller.RebuildKeepsState` | Sources/Tiles/TileViewController.swift:95-110 | the tile a rebuild draws for logical index `i` has the press and latch flags of the old tile with index `i` |
| `Controller.RedrawIsStable` | Sources/Tiles/TileViewController.swift:88-117 | rebuilding an already rebuilt controller changes nothing |
| `Controller.Update` | Sources/Tiles/TileViewController.swift:73-86 | stores `rows, columns >= 1` (each clamped by `max(1, ·)`), swaps them for a vertical grid with the same product, stores `horizontal` and the remapped flags, keeps spacing and touches, and is the synchronous rebuild under the new layout |
| `Controller.UpdateAgreesWithInit` | Sources/Tiles/TileViewController.swift:31-35 | for positive shapes `update` normalises the layout exactly as the initialiser does |
| `Controller.UpdateAgreesWithTileLayout` | Sources/Tiles/TileViewController.swift:77-83 | `update` and `TileLayout.init` store the same orientation and flags; for positive shapes `update`'s shape is `TileLayout.init`'s, swapped for vertical grids |
| `Controller.VerticalIsQuarterTurn` | Sources/Tiles/TileViewController.swift:79-83 | with the same arguments, the vertical grid's index at each slot is the horizontal grid's index `i` turned a quarter turn: `(i % rows) * columns + (columns - 1 - i / rows)` |
| `Controller.TouchesBegan` | Sources/Tiles/TileViewController.swift:51-54 | inserts the batch into the active touches, then reconciles the tiles against the enlarged set, so the press flags agree with it |
| `Controller.TouchesMoved` | Sources/Tiles/TileViewController.swift:56-59 | inserts the batch exactly as `touchesBegan` does |
| `Controller.TouchesEnded` | Sources/Tiles/TileViewController.swift:61-64 | removes the batch from the active touches, then reconciles the tiles against the reduced set |
| `Controller.TouchesCancelled` | Sources/Tiles/TileViewController.swift:66-69 | removes the batch exactly as `touchesEnded` does |
| `Controller.HeldMoveChangesNothing` | Sources/Tiles/TileViewController.swift:56-59 | a move event for touches that are already active changes nothing when the tiles agree with them: latches are not toggled again |
| `Controller.PressThenRelease` | Sources/Tiles/TileViewController.swift:51-64 | beginning and then ending fresh touches restores the active set and every press flag, and flips exactly the latches of the tiles the new touches pressed that were not pressed before |
| `Context.Navigate` | Sources/Tiles/TileContext.swift:21-42 | with no selection it changes nothing; it traps exactly when a tile is selected and `rows*columns == 0`; otherwise it keeps a selection and leaves the layout unchanged |
| `Context.DefaultContextNavigates` | Sources/Tiles/TileContext.swift:9-19 | the default context (`TileLayout()`, a 4 x 4 grid, tile 0 selected) is valid, and `navigate` from it reaches tile 1 right, 3 left, 4 down and 12 up |
| `Context.NavigateIsStep` | Sources/Tiles/TileContext.swift:21-41 | on a valid selection, `navigate` equals the reference move `Step` (one column along the row, or one row along the column, wrapping) |
| `Context.NavigateWithoutSelection` | Sources/Tiles/TileContext.swift:22 | a nil `selectedTile` makes `navigate` a no-op |
| `Context.NavigateStaysInGrid` | Sources/Tiles/TileContext.swift:24-41 | for `rows, cols >= 1` and a selection in `[0, rows*cols)`, the new selection lies in `[0, rows*cols)` |
| `Context.NavigateHorizontal` | Sources/Tiles/TileContext.swift:29-40 | a horizontal move keeps the row (`new / cols == old / cols`); it moves by ±1, goes from a row's last cell to its first and from its first to its last, including `0 -> cols-1` |
| `Context.NavigateVertical` | Sources/Tiles/TileContext.swift:29-30 | a vertical move keeps the column (`new % cols == old % cols`), stepping by ±cols and wrapping through `rows*cols` |
| `Context.StepRoundTrip` | Sources/Tiles/TileContext.swift:29-41 | the reference move backward undoes the reference move forward and vice versa |
| `Context.NavigateRoundTrip` | Sources/Tiles/TileContext.swift:29-41 | a forward move followed by a backward move on the same axis restores the selection, and vice versa |

## Left out

- Tile geometry: `tileSize`, `tilePosition`, the `CGRect` frames built in `draw` and touch locations. These are floating point. Frame containment is the `hit` parameter of each touch event.
- The view hierarchy: `draw` removing and adding subviews, `viewDidLayoutSubviews` being called by UIKit, and `init?(coder:)` (which only stops the program).
- `tileDelegate`, which `draw` passes to every tile. The delegate callbacks are platform I/O.
- `touchCapacity`, which is only a capacity hint to `NSMutableSet` and does not bound the set.
- UITouch identity beyond equality, and the `touches.allObjects` conversion.
- `Sources/Tiles/Tile.swift`: a UIView subclass (colours, label, `didSet` rendering hooks). Only its `index`, `isPressed`, `latch` and `isSelected` fields are modelled, as the `Tile` record.
- TileStates.Rebuilt: sets `isSelected` to false on every rebuilt tile. This is an assumption. `draw` calls `T(frame:index:isPressed:latch:delegate:)` (Sources/Tiles/TileViewController.swift:110), but `Tile.swift` (lines 53-59) defines no initialiser with a `delegate:` label, so the flag's value is not read from the code. The controller never sets the flag.
- `TileContext.tile`, the tile type: types are not modelled. `canLatch` is carried as a field, and `navigate` keeps it, but nothing reads it.
- Default arguments are modelled as constants with their source values: `Layouts.DefaultLayout` (`TileLayout()`, Sources/Tiles/TileLayout.swift:10-15), `Controller.DefaultController` (Sources/Tiles/TileViewController.swift:22-27) and `Context.DefaultContext` (Sources/Tiles/TileContext.swift:10-13). The functions `MakeLayout`, `Init` and the `TileContext` constructor themselves take every argument. The `nibName`, `bundle`, `tileType` and `delegate` arguments are left out.
- `spacing` is a `CGFloat` in the controller and a `Double` in `TileLayout` (floating point). The model stores it as a `real`, which is exact. Only its storage is modelled.
- `@Published` change notifications: `navigate` assigns `selectedTile`, which notifies SwiftUI observers (Sources/Tiles/TileContext.swift:7, 41). The model returns the new context and sends no notification.
- `Sources/Tiles/Tiles.swift`, `Sources/Tiles/Tiles+Extensions.swift` and `Package.swift`: SwiftUI glue, a floating-point colour-luminance computation and the build manifest. `Tiles.swift` also calls a `TileViewController` initialiser that the controller does not define.
- Swift's 64-bit `Int` overflow traps: the model uses unbounded integers. No operation here comes near the bounds for realistic grids.
