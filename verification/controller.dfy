/** `TileViewController`: its configuration, the rebuild performed by
    `draw`, the normalisation performed by `update`, and the touch
    handlers that keep the active touch set and reconcile the tiles. */
module Controller {
  import opened Wrappers
  import opened SwiftInt
  import opened Layouts
  import opened TileIndexing
  import opened TileStates

  /** The controller's state: its six layout properties, the tiles it
      currently shows (in slot order) and the set of active touches. */
  datatype TileViewController = TileViewController(
    layout: TileLayout,
    tiles: seq<Tile>,
    touches: set<TouchId>)

  /** Swift's `max(1, n)`. */
  function AtLeastOne(n: int): (r: int)
    ensures r >= 1 && r >= n
    ensures n >= 1 ==> r == n
    ensures n < 1 ==> r == 1
  {
    if n < 1 then 1 else n
  }

  /** The initialiser with all its default arguments: spacing 1, a
      horizontal, forward, ascending grid of 5 x 5 tiles. */
  const DefaultController := Init(1.0, true, true, true, 5, 5)

  /** The default controller draws 25 tiles whose logical indices run in
      slot order, all released and unlatched. */
  lemma DefaultControllerDraws()
    ensures Draw(DefaultController).Ok?
    ensures var tiles := Draw(DefaultController).value.tiles;
            |tiles| == 25
            && forall s :: 0 <= s < 25 ==> tiles[s] == Tile(s, false, false, false)
  {
    var c := DefaultController;
    assert Count(c.layout) == 25;
    var tiles := Draw(c).value.tiles;
    forall s | 0 <= s < 25
      ensures tiles[s] == Tile(s, false, false, false)
    {
      TileIndexIdentity(c.layout, s);
    }
  }

  /** The stored shape for a requested shape: a vertical grid stores
      `rows` and `columns` swapped. */
  function Oriented(horizontal: bool, rows: int, columns: int): (rc: (int, int))
    ensures horizontal ==> rc == (rows, columns)
    ensures !horizontal ==> rc == (columns, rows)
    ensures rc.0 * rc.1 == rows * columns
  {
    if horizontal then (rows, columns) else (columns, rows)
  }

  /** The designated initialiser: stores `horizontal`, the oriented shape
      and the remapped flags without clamping; no tiles yet, no touches. */
  function Init(spacing: real, horizontal: bool, forward: bool, ascending: bool,
                rows: int, columns: int): (c: TileViewController)
    ensures c.tiles == [] && c.touches == {}
    ensures c.layout.horizontal == horizontal && c.layout.spacing == spacing
    ensures Flags(c.layout.forward, c.layout.ascending) == StoredFlags(horizontal, forward, ascending)
    ensures (c.layout.rows, c.layout.columns) == Oriented(horizontal, rows, columns)
  {
    var shape := Oriented(horizontal, rows, columns);
    var flags := StoredFlags(horizontal, forward, ascending);
    TileViewController(
      TileLayout(horizontal, flags.forward, flags.ascending, shape.0, shape.1, spacing),
      [], {})
  }

  /** `draw`, apart from geometry: it traps when `rows * columns` is
      negative (an invalid Swift range); otherwise it creates one tile per
      slot, carrying the logical index of that slot and the press and
      latch flags of the first old tile with that index (false when there
      is none). Layout and touches are untouched. */
  function Draw(c: TileViewController): (r: Checked<TileViewController>)
    ensures r.Trap? <==> Count(c.layout) < 0
    ensures r.Ok? ==> r.value.layout == c.layout && r.value.touches == c.touches
    ensures r.Ok? ==> |r.value.tiles| == Count(c.layout)
    ensures r.Ok? ==> forall s :: 0 <= s < |r.value.tiles| ==>
              Divisible(c.layout) && r.value.tiles[s].index == TileIndex(c.layout, s)
              && !r.value.tiles[s].isSelected
    ensures r.Ok? ==> forall s :: 0 <= s < |r.value.tiles| && !HasIndex(c.tiles, r.value.tiles[s].index) ==>
              !r.value.tiles[s].isPressed && !r.value.tiles[s].latch
    ensures r.Ok? ==> forall s, k :: 0 <= s < |r.value.tiles| && IsFirstWithIndex(c.tiles, k, r.value.tiles[s].index) ==>
              r.value.tiles[s].isPressed == c.tiles[k].isPressed && r.value.tiles[s].latch == c.tiles[k].latch
  {
    var n := Count(c.layout);
    if n < 0 then Trap
    else
      NonEmptyIsDivisible(c.layout);
      var tiles := seq(n, s requires 0 <= s < n => Rebuilt(c.tiles, TileIndex(c.layout, s)));
      Ok(c.(tiles := tiles))
  }

  /** A layout with at least one tile has neither zero rows nor zero
      columns, so `tileIndex` never divides by zero on it. */
  lemma NonEmptyIsDivisible(l: TileLayout)
    ensures Count(l) > 0 ==> l.rows != 0 && l.columns != 0 && Divisible(l)
  {
  }

  /** A shape of at least one row and one column has at least one tile. */
  lemma PositiveCount(rows: int, columns: int)
    requires rows >= 1 && columns >= 1
    ensures rows * columns >= 1
  {
    MulMono(1, rows, columns);
  }

  /** On a grid with at least one row and column, `draw` succeeds and hands
      every logical index below `rows * columns` to exactly one tile. */
  lemma DrawIsPermutation(c: TileViewController)
    requires ValidShape(c.layout)
    ensures Draw(c).Ok?
    ensures DistinctIndices(Draw(c).value.tiles)
    ensures forall s :: 0 <= s < |Draw(c).value.tiles| ==> 0 <= Draw(c).value.tiles[s].index < Count(c.layout)
    ensures forall i :: 0 <= i < Count(c.layout) ==> HasIndex(Draw(c).value.tiles, i)
  {
    PositiveCount(c.layout.rows, c.layout.columns);
    var tiles := Draw(c).value.tiles;
    forall j, k | 0 <= j < |tiles| && 0 <= k < |tiles| && tiles[j].index == tiles[k].index
      ensures j == k
    {
      TileIndexInjective(c.layout, j, k);
    }
    forall i | 0 <= i < Count(c.layout)
      ensures HasIndex(tiles, i)
    {
      TileIndexOfSlotOf(c.layout, i);
      assert tiles[SlotOf(c.layout, i)].index == i;
    }
  }

  /** State is keyed by logical index, not by slot: when the old tiles
      carry distinct indices, the tile a rebuild draws for index `i` (at
      slot `SlotOf(i)`) has the press and latch flags of the old tile with
      index `i`. */
  lemma RebuildKeepsState(c: TileViewController, k: int)
    requires ValidShape(c.layout) && DistinctIndices(c.tiles)
    requires 0 <= k < |c.tiles| && 0 <= c.tiles[k].index < Count(c.layout)
    ensures var i := c.tiles[k].index;
            var t := Draw(c).value.tiles[SlotOf(c.layout, i)];
            t.index == i && t.isPressed == c.tiles[k].isPressed && t.latch == c.tiles[k].latch
  {
    var i := c.tiles[k].index;
    PositiveCount(c.layout.rows, c.layout.columns);
    TileIndexOfSlotOf(c.layout, i);
    FirstIsOnly(c.tiles, k);
  }

  /** Rebuilding an already rebuilt controller changes nothing, however
      many times it happens. */
  lemma RedrawIsStable(c: TileViewController)
    requires ValidShape(c.layout)
    ensures Draw(c).Ok? && Draw(Draw(c).value) == Draw(c)
  {
    DrawIsPermutation(c);
    var d := Draw(c).value;
    var e := Draw(d).value;
    forall s | 0 <= s < |e.tiles|
      ensures e.tiles[s] == d.tiles[s]
    {
      FirstIsOnly(d.tiles, s);
    }
    assert e.tiles == d.tiles;
    assert e == d;
  }

  /** `update`: clamps `rows` and `columns` to at least 1, stores
      `horizontal`, swaps the clamped shape for a vertical grid, stores the
      remapped flags, and rebuilds the tiles at once under the new layout.
      Spacing and touches are kept. */
  function Update(c: TileViewController, rows: int, columns: int,
                  horizontal: bool, forward: bool, ascending: bool): (r: TileViewController)
    ensures ValidShape(r.layout)
    ensures Count(r.layout) == AtLeastOne(rows) * AtLeastOne(columns)
    ensures (r.layout.rows, r.layout.columns) == Oriented(horizontal, AtLeastOne(rows), AtLeastOne(columns))
    ensures r.layout.horizontal == horizontal && r.layout.spacing == c.layout.spacing
    ensures Flags(r.layout.forward, r.layout.ascending) == StoredFlags(horizontal, forward, ascending)
    ensures r.touches == c.touches
    ensures Draw(c.(layout := r.layout)) == Ok(r)
  {
    var shape := Oriented(horizontal, AtLeastOne(rows), AtLeastOne(columns));
    var flags := StoredFlags(horizontal, forward, ascending);
    var layout := c.layout.(horizontal := horizontal, forward := flags.forward,
                            ascending := flags.ascending, rows := shape.0, columns := shape.1);
    PositiveCount(AtLeastOne(rows), AtLeastOne(columns));
    Draw(c.(layout := layout)).value
  }

  /** For a shape that needs no clamping, `update` normalises the layout
      exactly as the initialiser does. */
  lemma UpdateAgreesWithInit(spacing: real, horizontal: bool, forward: bool, ascending: bool,
                             rows: int, columns: int)
    requires rows >= 1 && columns >= 1
    ensures var c := Init(spacing, horizontal, forward, ascending, rows, columns);
            Update(c, rows, columns, horizontal, forward, ascending).layout == c.layout
  {
  }

  /** `update` and `TileLayout.init` store the same flags and orientation;
      `update` differs only in clamping and, for a vertical grid, swapping
      the shape. */
  lemma UpdateAgreesWithTileLayout(c: TileViewController, rows: int, columns: int,
                                   horizontal: bool, forward: bool, ascending: bool)
    ensures var r := Update(c, rows, columns, horizontal, forward, ascending).layout;
            var l := MakeLayout(horizontal, forward, ascending, rows, columns, c.layout.spacing);
            r.horizontal == l.horizontal && r.forward == l.forward && r.ascending == l.ascending
            && r.spacing == l.spacing
            && (rows >= 1 && columns >= 1 ==>
                  (r.rows, r.columns) == Oriented(horizontal, l.rows, l.columns))
  {
  }

  /** What the vertical flag remapping means: with the same arguments, a
      vertical grid shows the horizontal grid's logical indices turned a
      quarter turn.  The tile with horizontal index `i` (row part
      `i % rows`, column part `i / rows`) gets vertical index
      `(i % rows) * columns + (columns - 1 - i / rows)`. */
  lemma VerticalIsQuarterTurn(c: TileViewController, rows: int, columns: int,
                              forward: bool, ascending: bool, slot: int)
    requires rows >= 1 && columns >= 1 && 0 <= slot < rows * columns
    ensures var h := Update(c, rows, columns, true, forward, ascending).layout;
            var v := Update(c, rows, columns, false, forward, ascending).layout;
            var i := TileIndex(h, slot);
            TileIndex(v, slot) == (i % rows) * columns + (columns - 1 - i / rows)
  {
    var h := Update(c, rows, columns, true, forward, ascending).layout;
    var v := Update(c, rows, columns, false, forward, ascending).layout;
    RowColumnInRange(h, slot);
    DivModOf(Column(h, slot), rows, Row(h, slot));
    assert Row(v, slot) == columns - 1 - Column(h, slot);
    assert Column(v, slot) == Row(h, slot);
  }

  /** `touchesBegan`: inserts the new touches into the active set, then
      reconciles every tile against the enlarged set. */
  function TouchesBegan(c: TileViewController, batch: set<TouchId>, hit: (TouchId, int) -> bool): (r: TileViewController)
    ensures r.touches == c.touches + batch && r.layout == c.layout
    ensures r.tiles == UpdateTiles(c.tiles, r.touches, hit)
    ensures PressedAgrees(r.tiles, r.touches, hit)
  {
    var active := c.touches + batch;
    c.(touches := active, tiles := UpdateTiles(c.tiles, active, hit))
  }

  /** `touchesMoved`: the same bookkeeping as `touchesBegan`. */
  function TouchesMoved(c: TileViewController, batch: set<TouchId>, hit: (TouchId, int) -> bool): (r: TileViewController)
    ensures r.touches == c.touches + batch && r.layout == c.layout
    ensures r == TouchesBegan(c, batch, hit)
  {
    var active := c.touches + batch;
    c.(touches := active, tiles := UpdateTiles(c.tiles, active, hit))
  }

  /** `touchesEnded`: removes the finished touches from the active set,
      then reconciles every tile against the reduced set. */
  function TouchesEnded(c: TileViewController, batch: set<TouchId>, hit: (TouchId, int) -> bool): (r: TileViewController)
    ensures r.touches == c.touches - batch && r.layout == c.layout
    ensures r.tiles == UpdateTiles(c.tiles, r.touches, hit)
    ensures PressedAgrees(r.tiles, r.touches, hit)
  {
    var active := c.touches - batch;
    c.(touches := active, tiles := UpdateTiles(c.tiles, active, hit))
  }

  /** `touchesCancelled`: identical to `touchesEnded`; a cancelled touch
      releases its tiles just as an ended one does. */
  function TouchesCancelled(c: TileViewController, batch: set<TouchId>, hit: (TouchId, int) -> bool): (r: TileViewController)
    ensures r.touches == c.touches - batch && r.layout == c.layout
    ensures r == TouchesEnded(c, batch, hit)
  {
    var active := c.touches - batch;
    c.(touches := active, tiles := UpdateTiles(c.tiles, active, hit))
  }

  /** Moving touches that are already held, while the tiles agree with the
      touches, changes nothing: no latch is toggled again. */
  lemma HeldMoveChangesNothing(c: TileViewController, batch: set<TouchId>, hit: (TouchId, int) -> bool)
    requires PressedAgrees(c.tiles, c.touches, hit) && batch <= c.touches
    ensures TouchesMoved(c, batch, hit) == c
  {
    assert c.touches + batch == c.touches;
    UpdateTilesSettled(c.tiles, c.touches, hit);
  }

  lemma TouchedUnion(a: set<TouchId>, b: set<TouchId>, hit: (TouchId, int) -> bool, slot: int)
    ensures Touched(a + b, hit, slot) <==> Touched(a, hit, slot) || Touched(b, hit, slot)
  {
    if Touched(a + b, hit, slot) {
      var t :| t in a + b && hit(t, slot);
      assert t in a || t in b;
    }
  }

  /** A press-and-release cycle of fresh touches: beginning them and then
      ending them restores the active set and every press flag, and flips
      exactly the latches of the tiles the new touches pressed that were
      not already pressed. */
  lemma PressThenRelease(c: TileViewController, batch: set<TouchId>, hit: (TouchId, int) -> bool)
    requires batch !! c.touches && PressedAgrees(c.tiles, c.touches, hit)
    ensures var d := TouchesEnded(TouchesBegan(c, batch, hit), batch, hit);
            d.touches == c.touches && d.layout == c.layout && |d.tiles| == |c.tiles|
            && forall k :: 0 <= k < |d.tiles| ==>
                 d.tiles[k].index == c.tiles[k].index
                 && d.tiles[k].isPressed == c.tiles[k].isPressed
                 && (d.tiles[k].latch != c.tiles[k].latch <==>
                       !c.tiles[k].isPressed && Touched(batch, hit, k))
  {
    var m := TouchesBegan(c, batch, hit);
    var d := TouchesEnded(m, batch, hit);
    assert d.touches == c.touches;
    forall k | 0 <= k < |d.tiles|
      ensures d.tiles[k].isPressed == c.tiles[k].isPressed
      ensures d.tiles[k].latch != c.tiles[k].latch <==> !c.tiles[k].isPressed && Touched(batch, hit, k)
    {
      TouchedUnion(c.touches, batch, hit, k);
    }
  }
}
