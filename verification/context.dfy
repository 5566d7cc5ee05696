/** `TileContext`: the observable selection state and `navigate`, which
    moves the selected tile by one step along an axis, wrapping within its
    row or column. */
module Context {
  import opened Wrappers
  import opened SwiftInt
  import opened Layouts
  import opened TileIndexing

  /** SwiftUI's `Axis`. */
  datatype Axis = Horizontal | Vertical

  /** The state `navigate` reads and writes: whether tiles may latch, the
      layout, and the optional selected tile. */
  datatype TileContext = TileContext(canLatch: bool, layout: TileLayout, selectedTile: Option<int>)

  /** `navigate(axis:forward:)`.  With nothing selected it does nothing.
      Otherwise it steps by 1 (horizontal) or by `columns` (vertical),
      pulls a horizontal step that left its row back by one row, brings a
      position outside `[0, rows * columns)` back by one row (for the
      special case of stepping back from 0 horizontally) or by the whole
      grid, and stores the Swift remainder by `rows * columns`.  Swift traps
      when `rows * columns` is 0. */
  function Navigate(ctx: TileContext, axis: Axis, forward: bool): (r: Checked<TileContext>)
    ensures ctx.selectedTile.None? ==> r == Ok(ctx)
    ensures r.Trap? <==> ctx.selectedTile.Some? && Count(ctx.layout) == 0
    ensures r.Ok? ==> r.value.layout == ctx.layout && r.value.canLatch == ctx.canLatch
    ensures r.Ok? && ctx.selectedTile.Some? ==> r.value.selectedTile.Some?
  {
    match ctx.selectedTile
    case None => Ok(ctx)
    case Some(current) =>
      if Count(ctx.layout) == 0 then Trap
      else Ok(ctx.(selectedTile := Some(NextPosition(ctx.layout.rows, ctx.layout.columns, axis, forward, current))))
  }

  /** The position arithmetic of `navigate`, on Swift integers. */
  function NextPosition(rows: int, cols: int, axis: Axis, forward: bool, current: int): int
    requires rows * cols != 0
  {
    assert cols != 0;
    var len := rows * cols;
    Rem(Quantized(len, cols, axis, current, Stepped(cols, axis, forward, current)), len)
  }

  /** `nextPos` after the step and, for a horizontal move that changed
      row (by Swift division), the correction back into the old row. */
  function Stepped(cols: int, axis: Axis, forward: bool, current: int): int
    requires cols != 0
  {
    var offset := if axis == Horizontal then 1 else cols;
    var next := current + (if forward then offset else -offset);
    if axis == Horizontal then
      var currentRow, newRow := Quot(current, cols), Quot(next, cols);
      if currentRow != newRow then next + (if newRow < currentRow then cols else -cols) else next
    else next
  }

  /** The position brought back from outside `[0, len)`: by one row when
      stepping back horizontally from 0, by the whole grid otherwise. */
  function Quantized(len: int, cols: int, axis: Axis, current: int, next: int): int {
    if next < 0 then (if current == 0 && axis == Horizontal then next + cols else next + len)
    else if next >= len then next - len
    else next
  }

  /** A context whose selection names one of the grid's tiles. */
  predicate ValidSelection(ctx: TileContext) {
    ValidShape(ctx.layout) && ctx.selectedTile.Some?
    && 0 <= ctx.selectedTile.value < Count(ctx.layout)
  }

  /** The intended move, stated on the row and column of position `p`
      (row-major, `columns` tiles per row): a horizontal step moves to the
      next or previous column of the same row, a vertical step to the next
      or previous row of the same column, wrapping at the ends. */
  function Step(rows: int, cols: int, axis: Axis, forward: bool, p: int): int
    requires rows >= 1 && cols >= 1
  {
    var row, column := p / cols, p % cols;
    match axis
    case Horizontal =>
      row * cols + (if forward then (if column == cols - 1 then 0 else column + 1)
                    else (if column == 0 then cols - 1 else column - 1))
    case Vertical =>
      (if forward then (if row == rows - 1 then 0 else row + 1)
       else (if row == 0 then rows - 1 else row - 1)) * cols + column
  }

  /** A value already inside `[0, len)` is its own Swift remainder. */
  lemma RemInRange(q: int, len: int)
    requires 0 <= q < len
    ensures Rem(q, len) == q
  {
    DivModOf(0, len, q);
  }

  /** Row and column of a grid position, in the terms `Step` uses. */
  lemma Decompose(rows: int, cols: int, p: int)
    requires rows >= 1 && cols >= 1 && 0 <= p < rows * cols
    ensures 0 <= p / cols < rows && 0 <= p % cols < cols
    ensures p == (p / cols) * cols + p % cols
    ensures 0 <= (p / cols) * cols && (p / cols) * cols + cols <= rows * cols
  {
    DivBelow(p, cols, rows);
    MulNonneg(p / cols, cols);
    MulMono(p / cols + 1, rows, cols);
  }

  /** Stepping right inside a row keeps the row. */
  lemma RightInRow(cols: int, p: int)
    requires cols >= 1 && p >= 0 && p % cols < cols - 1
    ensures (p + 1) / cols == p / cols && (p + 1) % cols == p % cols + 1
  {
    DivModIs(p + 1, cols, p / cols, p % cols + 1);
  }

  /** Stepping right from a row's last tile reaches the next row. */
  lemma RightAcrossRow(cols: int, p: int)
    requires cols >= 1 && p >= 0 && p % cols == cols - 1
    ensures (p + 1) / cols == p / cols + 1
  {
    DivModIs(p + 1, cols, p / cols + 1, 0);
  }

  /** Stepping left inside a row keeps the row. */
  lemma LeftInRow(cols: int, p: int)
    requires cols >= 1 && p >= 0 && p % cols > 0
    ensures (p - 1) / cols == p / cols && (p - 1) % cols == p % cols - 1
  {
    DivModIs(p - 1, cols, p / cols, p % cols - 1);
  }

  /** Stepping left from a row's first tile (not the grid's) reaches the
      previous row. */
  lemma LeftAcrossRow(cols: int, p: int)
    requires cols >= 1 && p >= cols && p % cols == 0
    ensures (p - 1) / cols == p / cols - 1
  {
    DivModIs(p - 1, cols, p / cols - 1, cols - 1);
  }

  lemma StepRight(rows: int, cols: int, p: int)
    requires rows >= 1 && cols >= 1 && 0 <= p < rows * cols
    ensures NextPosition(rows, cols, Horizontal, true, p) == Step(rows, cols, Horizontal, true, p)
  {
    var len, row, column := rows * cols, p / cols, p % cols;
    Decompose(rows, cols, p);
    if column < cols - 1 {
      RightInRow(cols, p);
      assert Stepped(cols, Horizontal, true, p) == p + 1;
      assert Quantized(len, cols, Horizontal, p, p + 1) == p + 1;
      RemInRange(p + 1, len);
      assert Step(rows, cols, Horizontal, true, p) == row * cols + (column + 1);
    } else {
      RightAcrossRow(cols, p);
      assert Stepped(cols, Horizontal, true, p) == p + 1 - cols;
      assert Quantized(len, cols, Horizontal, p, p + 1 - cols) == p + 1 - cols;
      RemInRange(p + 1 - cols, len);
      assert Step(rows, cols, Horizontal, true, p) == row * cols + 0;
    }
  }

  lemma StepLeft(rows: int, cols: int, p: int)
    requires rows >= 1 && cols >= 1 && 0 <= p < rows * cols
    ensures NextPosition(rows, cols, Horizontal, false, p) == Step(rows, cols, Horizontal, false, p)
  {
    Decompose(rows, cols, p);
    if p % cols != 0 {
      StepLeftInRow(rows, cols, p);
    } else if p >= cols {
      StepLeftAcrossRow(rows, cols, p);
    } else {
      assert p == 0;
      StepLeftFromZero(rows, cols);
    }
  }

  lemma StepLeftInRow(rows: int, cols: int, p: int)
    requires rows >= 1 && cols >= 1 && 0 <= p < rows * cols && p % cols != 0
    ensures NextPosition(rows, cols, Horizontal, false, p) == Step(rows, cols, Horizontal, false, p)
  {
    var len, row, column := rows * cols, p / cols, p % cols;
    Decompose(rows, cols, p);
    LeftInRow(cols, p);
    assert Stepped(cols, Horizontal, false, p) == p - 1;
    assert Quantized(len, cols, Horizontal, p, p - 1) == p - 1;
    RemInRange(p - 1, len);
    assert Step(rows, cols, Horizontal, false, p) == row * cols + (column - 1);
  }

  lemma StepLeftAcrossRow(rows: int, cols: int, p: int)
    requires rows >= 1 && cols >= 1 && cols <= p < rows * cols && p % cols == 0
    ensures NextPosition(rows, cols, Horizontal, false, p) == Step(rows, cols, Horizontal, false, p)
  {
    var len, row := rows * cols, p / cols;
    Decompose(rows, cols, p);
    LeftAcrossRow(cols, p);
    assert Stepped(cols, Horizontal, false, p) == p - 1 + cols;
    assert Quantized(len, cols, Horizontal, p, p - 1 + cols) == p - 1 + cols;
    RemInRange(p - 1 + cols, len);
    assert Step(rows, cols, Horizontal, false, p) == row * cols + (cols - 1);
  }

  lemma StepLeftFromZero(rows: int, cols: int)
    requires rows >= 1 && cols >= 1
    ensures NextPosition(rows, cols, Horizontal, false, 0) == Step(rows, cols, Horizontal, false, 0)
  {
    var len := rows * cols;
    MulMono(1, rows, cols);
    DivModIs(0, cols, 0, 0);
    if cols == 1 {
      assert Quot(-1, cols) == -1;
      assert Stepped(cols, Horizontal, false, 0) == 0;
      assert Quantized(len, cols, Horizontal, 0, 0) == 0;
      RemInRange(0, len);
    } else {
      DivModIs(1, cols, 0, 1);
      assert Quot(-1, cols) == 0;
      assert Stepped(cols, Horizontal, false, 0) == -1;
      assert Quantized(len, cols, Horizontal, 0, -1) == cols - 1;
      RemInRange(cols - 1, len);
    }
    assert Step(rows, cols, Horizontal, false, 0) == cols - 1;
  }

  lemma StepDown(rows: int, cols: int, p: int)
    requires rows >= 1 && cols >= 1 && 0 <= p < rows * cols
    ensures NextPosition(rows, cols, Vertical, true, p) == Step(rows, cols, Vertical, true, p)
  {
    var len, row, column := rows * cols, p / cols, p % cols;
    Decompose(rows, cols, p);
    assert Stepped(cols, Vertical, true, p) == p + cols;
    if row < rows - 1 {
      assert p + cols < len by {
        MulMono(row + 2, rows, cols);
      }
      assert Quantized(len, cols, Vertical, p, p + cols) == p + cols;
      RemInRange(p + cols, len);
      assert Step(rows, cols, Vertical, true, p) == (row + 1) * cols + column;
    } else {
      assert p + cols - len == column;
      assert Quantized(len, cols, Vertical, p, p + cols) == column;
      RemInRange(column, len);
      assert Step(rows, cols, Vertical, true, p) == 0 * cols + column;
    }
  }

  lemma StepUp(rows: int, cols: int, p: int)
    requires rows >= 1 && cols >= 1 && 0 <= p < rows * cols
    ensures NextPosition(rows, cols, Vertical, false, p) == Step(rows, cols, Vertical, false, p)
  {
    Decompose(rows, cols, p);
    if p / cols > 0 {
      StepUpInGrid(rows, cols, p);
    } else {
      StepUpWrap(rows, cols, p);
    }
  }

  lemma StepUpInGrid(rows: int, cols: int, p: int)
    requires rows >= 1 && cols >= 1 && 0 <= p < rows * cols && p / cols > 0
    ensures NextPosition(rows, cols, Vertical, false, p) == Step(rows, cols, Vertical, false, p)
  {
    var len, row, column := rows * cols, p / cols, p % cols;
    Decompose(rows, cols, p);
    assert Stepped(cols, Vertical, false, p) == p - cols;
    assert p - cols >= 0 by {
      MulMono(1, row, cols);
    }
    assert Quantized(len, cols, Vertical, p, p - cols) == p - cols;
    RemInRange(p - cols, len);
    assert Step(rows, cols, Vertical, false, p) == (row - 1) * cols + column;
  }

  lemma StepUpWrap(rows: int, cols: int, p: int)
    requires rows >= 1 && cols >= 1 && 0 <= p < cols
    ensures NextPosition(rows, cols, Vertical, false, p) == Step(rows, cols, Vertical, false, p)
  {
    var len := rows * cols;
    DivModIs(p, cols, 0, p);
    assert Stepped(cols, Vertical, false, p) == p - cols;
    assert 0 <= p - cols + len < len by {
      MulMono(1, rows, cols);
    }
    assert Quantized(len, cols, Vertical, p, p - cols) == p - cols + len;
    RemInRange(p - cols + len, len);
    assert Step(rows, cols, Vertical, false, p) == (rows - 1) * cols + p;
  }

  /** On a valid selection, `navigate` performs exactly the intended
      move `Step`. */
  lemma NavigateIsStep(ctx: TileContext, axis: Axis, forward: bool)
    requires ValidSelection(ctx)
    ensures Navigate(ctx, axis, forward)
            == Ok(ctx.(selectedTile := Some(Step(ctx.layout.rows, ctx.layout.columns, axis, forward, ctx.selectedTile.value))))
  {
    var rows, cols, p := ctx.layout.rows, ctx.layout.columns, ctx.selectedTile.value;
    MulMono(1, rows, cols);
    match axis
    case Horizontal =>
      if forward { StepRight(rows, cols, p); } else { StepLeft(rows, cols, p); }
    case Vertical =>
      if forward { StepDown(rows, cols, p); } else { StepUp(rows, cols, p); }
  }

  /** One step forward or backward along a line of `n` cells, wrapping. */
  function Wrap(n: int, k: int, forward: bool): int {
    if forward then (if k == n - 1 then 0 else k + 1) else (if k == 0 then n - 1 else k - 1)
  }

  /** The intended move keeps the position on the grid, moving the column
      of a horizontal step and the row of a vertical one, one cell with
      wrap-around. */
  lemma StepCoordinates(rows: int, cols: int, axis: Axis, forward: bool, p: int)
    requires rows >= 1 && cols >= 1 && 0 <= p < rows * cols
    ensures var q := Step(rows, cols, axis, forward, p);
            0 <= q < rows * cols
            && q / cols == (if axis == Horizontal then p / cols else Wrap(rows, p / cols, forward))
            && q % cols == (if axis == Horizontal then Wrap(cols, p % cols, forward) else p % cols)
  {
    var row, column := p / cols, p % cols;
    DivBelow(p, cols, rows);
    var r := if axis == Horizontal then row else Wrap(rows, row, forward);
    var c := if axis == Horizontal then Wrap(cols, column, forward) else column;
    assert Step(rows, cols, axis, forward, p) == r * cols + c;
    DivModOf(r, cols, c);
    ComposeBelow(r, cols, c, rows);
  }

  /** `TileContext()`: the default layout, latching on, tile 0 selected. */
  const DefaultContext := TileContext(true, DefaultLayout, Some(0))

  /** From the default context's tile 0 of the 4 x 4 grid, `navigate`
      reaches tile 1 going right, 3 going left, 4 going down and 12 going
      up. */
  lemma DefaultContextNavigates()
    ensures ValidSelection(DefaultContext)
    ensures Navigate(DefaultContext, Horizontal, true) == Ok(DefaultContext.(selectedTile := Some(1)))
    ensures Navigate(DefaultContext, Horizontal, false) == Ok(DefaultContext.(selectedTile := Some(3)))
    ensures Navigate(DefaultContext, Vertical, true) == Ok(DefaultContext.(selectedTile := Some(4)))
    ensures Navigate(DefaultContext, Vertical, false) == Ok(DefaultContext.(selectedTile := Some(12)))
  {
    var ctx := DefaultContext;
    assert Count(ctx.layout) == 16;
    NavigateHorizontal(ctx, true);
    NavigateHorizontal(ctx, false);
    NavigateVertical(ctx, true);
    NavigateVertical(ctx, false);
  }

  /** With nothing selected, `navigate` changes nothing. */
  lemma NavigateWithoutSelection(ctx: TileContext, axis: Axis, forward: bool)
    requires ctx.selectedTile.None?
    ensures Navigate(ctx, axis, forward) == Ok(ctx)
  {
  }

  /** From a tile of the grid, `navigate` always selects a tile of the
      grid. */
  lemma NavigateStaysInGrid(ctx: TileContext, axis: Axis, forward: bool)
    requires ValidSelection(ctx)
    ensures Navigate(ctx, axis, forward).Ok?
    ensures ValidSelection(Navigate(ctx, axis, forward).value)
  {
    NavigateIsStep(ctx, axis, forward);
    StepCoordinates(ctx.layout.rows, ctx.layout.columns, axis, forward, ctx.selectedTile.value);
  }

  /** A horizontal move stays in its row (`q / columns == p / columns`):
      it goes to the next or previous tile of the row, and from the row's
      last tile forward to its first, from its first tile backward to its
      last (so from 0 backward to `columns - 1`). */
  lemma NavigateHorizontal(ctx: TileContext, forward: bool)
    requires ValidSelection(ctx)
    ensures Navigate(ctx, Horizontal, forward).Ok?
    ensures Navigate(ctx, Horizontal, forward).value.selectedTile.Some?
    ensures var p, cols := ctx.selectedTile.value, ctx.layout.columns;
            var q := Navigate(ctx, Horizontal, forward).value.selectedTile.value;
            q / cols == p / cols
            && (forward ==> q == if p % cols == cols - 1 then p - (cols - 1) else p + 1)
            && (!forward ==> q == if p % cols == 0 then p + (cols - 1) else p - 1)
            && (p == 0 && !forward ==> q == cols - 1)
  {
    var p, rows, cols := ctx.selectedTile.value, ctx.layout.rows, ctx.layout.columns;
    NavigateIsStep(ctx, Horizontal, forward);
    StepHorizontal(rows, cols, forward, p);
  }

  /** The row-and-column form of a horizontal step, as offsets of `p`. */
  lemma StepHorizontal(rows: int, cols: int, forward: bool, p: int)
    requires rows >= 1 && cols >= 1 && 0 <= p < rows * cols
    ensures var q := Step(rows, cols, Horizontal, forward, p);
            q / cols == p / cols
            && (forward ==> q == if p % cols == cols - 1 then p - (cols - 1) else p + 1)
            && (!forward ==> q == if p % cols == 0 then p + (cols - 1) else p - 1)
            && (p == 0 && !forward ==> q == cols - 1)
  {
    var row, column := p / cols, p % cols;
    DivBelow(p, cols, rows);
    assert p == row * cols + column;
    var c := Wrap(cols, column, forward);
    var q := Step(rows, cols, Horizontal, forward, p);
    assert q == row * cols + c;
    assert 0 <= c < cols;
    DivModIs(q, cols, row, c);
    if p == 0 {
      DivModIs(0, cols, 0, 0);
    }
  }

  /** Forward from the last row wraps to the same column of the first
      row; otherwise a forward vertical step adds `columns`. */
  lemma StepVerticalForward(rows: int, cols: int, p: int)
    requires rows >= 1 && cols >= 1 && 0 <= p < rows * cols
    ensures Step(rows, cols, Vertical, true, p)
            == if p + cols < rows * cols then p + cols else p + cols - rows * cols
  {
    var row, column := p / cols, p % cols;
    DivBelow(p, cols, rows);
    assert p == row * cols + column;
    if row == rows - 1 {
      assert p + cols == rows * cols + column;
    } else {
      ComposeBelow(row + 1, cols, column, rows);
      assert p + cols == (row + 1) * cols + column;
    }
  }

  /** Backward from the first row wraps to the same column of the last
      row; otherwise a backward vertical step subtracts `columns`. */
  lemma StepVerticalBackward(rows: int, cols: int, p: int)
    requires rows >= 1 && cols >= 1 && 0 <= p < rows * cols
    ensures Step(rows, cols, Vertical, false, p)
            == if p >= cols then p - cols else p - cols + rows * cols
  {
    var row, column := p / cols, p % cols;
    DivBelow(p, cols, rows);
    assert p == row * cols + column;
    if row == 0 {
      assert p == column;
      assert (rows - 1) * cols == rows * cols - cols;
    } else {
      assert (row - 1) * cols == row * cols - cols;
      MulMono(1, row, cols);
    }
  }

  /** A vertical move stays in its column (`q % columns == p % columns`):
      it steps by `columns`, forward from the last row to the first and
      backward from the first row to the last (through `rows * columns`). */
  lemma NavigateVertical(ctx: TileContext, forward: bool)
    requires ValidSelection(ctx)
    ensures Navigate(ctx, Vertical, forward).Ok?
    ensures Navigate(ctx, Vertical, forward).value.selectedTile.Some?
    ensures var p, cols, len := ctx.selectedTile.value, ctx.layout.columns, Count(ctx.layout);
            var q := Navigate(ctx, Vertical, forward).value.selectedTile.value;
            q % cols == p % cols
            && (forward ==> q == if p + cols < len then p + cols else p + cols - len)
            && (!forward ==> q == if p >= cols then p - cols else p - cols + len)
  {
    var p, rows, cols := ctx.selectedTile.value, ctx.layout.rows, ctx.layout.columns;
    NavigateIsStep(ctx, Vertical, forward);
    StepCoordinates(rows, cols, Vertical, forward, p);
    if forward {
      StepVerticalForward(rows, cols, p);
    } else {
      StepVerticalBackward(rows, cols, p);
    }
  }

  /** The intended move backward undoes the intended move forward, and
      vice versa. */
  lemma StepRoundTrip(rows: int, cols: int, axis: Axis, forward: bool, p: int)
    requires rows >= 1 && cols >= 1 && 0 <= p < rows * cols
    ensures 0 <= Step(rows, cols, axis, forward, p) < rows * cols
    ensures Step(rows, cols, axis, !forward, Step(rows, cols, axis, forward, p)) == p
  {
    StepCoordinates(rows, cols, axis, forward, p);
    var q := Step(rows, cols, axis, forward, p);
    var row, column := p / cols, p % cols;
    assert p == row * cols + column;
    assert Step(rows, cols, axis, !forward, q) == row * cols + column;
  }

  /** Moving forward and then backward along the same axis, or backward
      and then forward, gives back the original selection. */
  lemma NavigateRoundTrip(ctx: TileContext, axis: Axis, forward: bool)
    requires ValidSelection(ctx)
    ensures Navigate(ctx, axis, forward).Ok?
    ensures Navigate(Navigate(ctx, axis, forward).value, axis, !forward) == Ok(ctx)
  {
    var rows, cols, p := ctx.layout.rows, ctx.layout.columns, ctx.selectedTile.value;
    NavigateIsStep(ctx, axis, forward);
    StepRoundTrip(rows, cols, axis, forward, p);
    var mid := Navigate(ctx, axis, forward).value;
    NavigateIsStep(mid, axis, !forward);
  }
}
