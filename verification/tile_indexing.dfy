/** `TileViewController.tileIndex`: the logical index of the tile drawn at
    a given slot, and the facts that make it a permutation of the slots. */
module TileIndexing {
  import opened SwiftInt
  import opened Layouts

  /** Whether `tileIndex` can run on this layout without dividing by zero:
      a horizontal grid divides by `rows`, a vertical one by `columns`. */
  predicate Divisible(l: TileLayout) {
    if l.horizontal then l.rows != 0 else l.columns != 0
  }

  /** A layout whose shape has at least one row and one column. */
  predicate ValidShape(l: TileLayout) {
    l.rows >= 1 && l.columns >= 1
  }

  /** The number of tiles the layout draws. */
  function Count(l: TileLayout): int {
    l.rows * l.columns
  }

  /** The row a slot lands in, reflected when `forward` is false. */
  function Row(l: TileLayout, slot: int): int
    requires Divisible(l)
  {
    var row := if l.horizontal then Rem(slot, l.rows) else Quot(slot, l.columns);
    if l.forward then row else l.rows - 1 - row
  }

  /** The column a slot lands in, reflected when `ascending` is false. */
  function Column(l: TileLayout, slot: int): int
    requires Divisible(l)
  {
    var column := if l.horizontal then Quot(slot, l.rows) else Rem(slot, l.columns);
    if l.ascending then column else l.columns - 1 - column
  }

  /** `tileIndex(from:)`: the logical index of the tile drawn at `slot`. */
  function TileIndex(l: TileLayout, slot: int): (i: int)
    requires Divisible(l)
    ensures ValidShape(l) && 0 <= slot < Count(l) ==> 0 <= i < Count(l)
  {
    RowColumnInRange(l, slot);
    Column(l, slot) * l.rows + Row(l, slot)
  }

  /** On a grid with at least one row and column, every slot lies in a row
      below `rows` and a column below `columns`. */
  lemma RowColumnInRange(l: TileLayout, slot: int)
    requires Divisible(l)
    ensures ValidShape(l) && 0 <= slot < Count(l) ==>
              0 <= Row(l, slot) < l.rows && 0 <= Column(l, slot) < l.columns
              && 0 <= Column(l, slot) * l.rows + Row(l, slot) < Count(l)
  {
    if ValidShape(l) && 0 <= slot < Count(l) {
      if l.horizontal {
        DivBelow(slot, l.rows, l.columns);
      } else {
        DivBelow(slot, l.columns, l.rows);
      }
      ComposeBelow(Column(l, slot), l.rows, Row(l, slot), l.columns);
    }
  }

  /** The slot at which the tile with logical index `i` is drawn: the
      inverse of `TileIndex`, undoing the reflections and then laying the
      row and column out along the primary axis. */
  function SlotOf(l: TileLayout, i: int): (slot: int)
    requires ValidShape(l)
    ensures 0 <= i < Count(l) ==> 0 <= slot < Count(l)
  {
    var row := i % l.rows;
    var column := i / l.rows;
    var r := if l.forward then row else l.rows - 1 - row;
    var c := if l.ascending then column else l.columns - 1 - column;
    if 0 <= i < Count(l) then
      DivBelow(i, l.rows, l.columns);
      if l.horizontal then
        ComposeBelow(c, l.rows, r, l.columns);
        c * l.rows + r
      else
        ComposeBelow(r, l.columns, c, l.rows);
        r * l.columns + c
    else if l.horizontal then c * l.rows + r else r * l.columns + c
  }

  /** Every slot is drawn back where it came from: `SlotOf` undoes
      `TileIndex`. */
  lemma SlotOfTileIndex(l: TileLayout, slot: int)
    requires ValidShape(l) && 0 <= slot < Count(l)
    ensures SlotOf(l, TileIndex(l, slot)) == slot
  {
    var row, column := Row(l, slot), Column(l, slot);
    RowColumnInRange(l, slot);
    DivModOf(column, l.rows, row);
    var i := TileIndex(l, slot);
    assert i % l.rows == row && i / l.rows == column;
    if l.horizontal {
      assert slot == (slot / l.rows) * l.rows + slot % l.rows;
    } else {
      assert slot == (slot / l.columns) * l.columns + slot % l.columns;
    }
  }

  /** The slot that lays row `r` and column `c` out along the primary
      axis decomposes back into that row and column. */
  lemma SlotCoordinates(l: TileLayout, r: int, c: int)
    requires ValidShape(l) && 0 <= r < l.rows && 0 <= c < l.columns
    ensures var slot := if l.horizontal then c * l.rows + r else r * l.columns + c;
            Row(l, slot) == (if l.forward then r else l.rows - 1 - r)
            && Column(l, slot) == (if l.ascending then c else l.columns - 1 - c)
  {
    if l.horizontal {
      DivModOf(c, l.rows, r);
    } else {
      DivModOf(r, l.columns, c);
    }
  }

  /** Every logical index is drawn somewhere: `TileIndex` undoes
      `SlotOf`. */
  lemma TileIndexOfSlotOf(l: TileLayout, i: int)
    requires ValidShape(l) && 0 <= i < Count(l)
    ensures TileIndex(l, SlotOf(l, i)) == i
  {
    var row, column := i % l.rows, i / l.rows;
    DivBelow(i, l.rows, l.columns);
    assert i == column * l.rows + row;
    var r := if l.forward then row else l.rows - 1 - row;
    var c := if l.ascending then column else l.columns - 1 - column;
    var slot := if l.horizontal then c * l.rows + r else r * l.columns + c;
    assert SlotOf(l, i) == slot;
    SlotCoordinates(l, r, c);
    assert Row(l, slot) == row;
    assert Column(l, slot) == column;
    assert TileIndex(l, slot) == column * l.rows + row;
  }

  /** `tileIndex` gives distinct slots distinct logical indices. */
  lemma TileIndexInjective(l: TileLayout, s1: int, s2: int)
    requires ValidShape(l) && 0 <= s1 < Count(l) && 0 <= s2 < Count(l)
    requires TileIndex(l, s1) == TileIndex(l, s2)
    ensures s1 == s2
  {
    SlotOfTileIndex(l, s1);
    SlotOfTileIndex(l, s2);
  }

  /** Every logical index below the tile count is the index of some slot. */
  lemma TileIndexSurjective(l: TileLayout, i: int)
    requires ValidShape(l) && 0 <= i < Count(l)
    ensures exists slot :: 0 <= slot < Count(l) && TileIndex(l, slot) == i
  {
    TileIndexOfSlotOf(l, i);
  }

  /** With all three flags set the mapping is the identity. */
  lemma TileIndexIdentity(l: TileLayout, slot: int)
    requires ValidShape(l) && 0 <= slot < Count(l)
    requires l.horizontal && l.forward && l.ascending
    ensures TileIndex(l, slot) == slot
  {
    assert slot == (slot / l.rows) * l.rows + slot % l.rows;
  }

  /** Clearing `forward` reflects the row part of every logical index
      (`i % rows` becomes `rows - 1 - i % rows`) and keeps its column part
      (`i / rows`). */
  lemma ForwardReflectsRow(l: TileLayout, slot: int)
    requires ValidShape(l) && 0 <= slot < Count(l) && l.forward
    ensures var i, j := TileIndex(l, slot), TileIndex(l.(forward := false), slot);
            j % l.rows == l.rows - 1 - i % l.rows && j / l.rows == i / l.rows
  {
    var lb := l.(forward := false);
    RowColumnInRange(l, slot);
    RowColumnInRange(lb, slot);
    DivModOf(Column(l, slot), l.rows, Row(l, slot));
    DivModOf(Column(lb, slot), l.rows, Row(lb, slot));
  }

  /** Clearing `ascending` reflects the column part of every logical index
      (`i / rows` becomes `columns - 1 - i / rows`) and keeps its row
      part. */
  lemma AscendingReflectsColumn(l: TileLayout, slot: int)
    requires ValidShape(l) && 0 <= slot < Count(l) && l.ascending
    ensures var i, j := TileIndex(l, slot), TileIndex(l.(ascending := false), slot);
            j / l.rows == l.columns - 1 - i / l.rows && j % l.rows == i % l.rows
  {
    var lb := l.(ascending := false);
    RowColumnInRange(l, slot);
    RowColumnInRange(lb, slot);
    DivModOf(Column(l, slot), l.rows, Row(l, slot));
    DivModOf(Column(lb, slot), l.rows, Row(lb, slot));
  }

  /** A 2 x 2 horizontal grid with `forward` cleared draws the logical
      indices 1, 0, 3, 2 in slot order. */
  lemma ReversedTwoByTwo(slot: int)
    requires 0 <= slot < 4
    ensures TileIndex(TileLayout(true, false, true, 2, 2, 1.0), slot) == [1, 0, 3, 2][slot]
  {
    if slot == 0 {
    } else if slot == 1 {
    } else if slot == 2 {
    } else {
    }
  }
}
