/** The per-tile interaction state the controller keeps, and
    `updateTiles`: recomputing press flags from the active touches and
    toggling latches on rising edges. */
module TileStates {
  import opened Wrappers

  /** An active touch, by identity.  Its position is not modelled; instead
      each reconciliation is given which slots each touch lies in. */
  type TouchId = int

  /** The state fields of a `Tile` view: its logical index, whether a touch
      is on it, its sticky latch and its selection flag. */
  datatype Tile = Tile(index: int, isPressed: bool, latch: bool, isSelected: bool)

  /** Whether some active touch lies inside the frame of the tile at
      `slot`; `hit(t, slot)` abstracts the frame-containment test of touch
      `t`'s location. */
  predicate Touched(touches: set<TouchId>, hit: (TouchId, int) -> bool, slot: int) {
    exists t :: t in touches && hit(t, slot)
  }

  /** Every tile's press flag says whether an active touch lies in it. */
  predicate PressedAgrees(tiles: seq<Tile>, touches: set<TouchId>, hit: (TouchId, int) -> bool) {
    forall slot :: 0 <= slot < |tiles| ==> tiles[slot].isPressed == Touched(touches, hit, slot)
  }

  /** One tile's reaction to its new press flag: the latch toggles when
      the tile was not pressed and now is. */
  function React(tile: Tile, pressed: bool): Tile {
    var latch := if !tile.isPressed && pressed then !tile.latch else tile.latch;
    tile.(isPressed := pressed, latch := latch)
  }

  /** `updateTiles`: every tile's press flag becomes "some active touch is
      inside it"; its latch flips exactly on a not-pressed to pressed edge
      and is kept when the tile is held, released or stays idle. */
  function UpdateTiles(tiles: seq<Tile>, touches: set<TouchId>, hit: (TouchId, int) -> bool): (r: seq<Tile>)
    ensures |r| == |tiles|
    ensures PressedAgrees(r, touches, hit)
    ensures forall slot :: 0 <= slot < |r| ==>
              r[slot].index == tiles[slot].index && r[slot].isSelected == tiles[slot].isSelected
    ensures forall slot :: 0 <= slot < |r| ==>
              (r[slot].latch != tiles[slot].latch <==> !tiles[slot].isPressed && r[slot].isPressed)
  {
    seq(|tiles|, slot requires 0 <= slot < |tiles| => React(tiles[slot], Touched(touches, hit, slot)))
  }

  /** When the press flags already agree with the touches, reconciling
      changes no tile. */
  lemma UpdateTilesSettled(tiles: seq<Tile>, touches: set<TouchId>, hit: (TouchId, int) -> bool)
    requires PressedAgrees(tiles, touches, hit)
    ensures UpdateTiles(tiles, touches, hit) == tiles
  {
    var r := UpdateTiles(tiles, touches, hit);
    forall slot | 0 <= slot < |r|
      ensures r[slot] == tiles[slot]
    {
      assert r[slot].isPressed == tiles[slot].isPressed;
    }
  }

  /** Reconciling twice against the same touches is reconciling once. */
  lemma UpdateTilesIdempotent(tiles: seq<Tile>, touches: set<TouchId>, hit: (TouchId, int) -> bool)
    ensures var once := UpdateTiles(tiles, touches, hit);
            UpdateTiles(once, touches, hit) == once
  {
    UpdateTilesSettled(UpdateTiles(tiles, touches, hit), touches, hit);
  }

  /** `frames` successive reconciliations against the same touches, as
      when a touch is held while `touchesMoved` keeps arriving. */
  function Hold(tiles: seq<Tile>, touches: set<TouchId>, hit: (TouchId, int) -> bool, frames: nat): seq<Tile>
  {
    if frames == 0 then tiles else UpdateTiles(Hold(tiles, touches, hit, frames - 1), touches, hit)
  }

  /** Holding a touch across any number of frames toggles each latch at
      most once: the result is that of the first frame. */
  lemma {:induction false} HoldTogglesOnce(tiles: seq<Tile>, touches: set<TouchId>, hit: (TouchId, int) -> bool, frames: nat)
    requires frames >= 1
    ensures Hold(tiles, touches, hit, frames) == UpdateTiles(tiles, touches, hit)
  {
    if frames > 1 {
      HoldTogglesOnce(tiles, touches, hit, frames - 1);
      UpdateTilesIdempotent(tiles, touches, hit);
    }
  }

  /** Whether the tile at position `k` is the first one carrying logical
      index `i`, as Swift's `first(where:)` finds it. */
  predicate IsFirstWithIndex(tiles: seq<Tile>, k: int, i: int) {
    0 <= k < |tiles| && tiles[k].index == i && forall j :: 0 <= j < k ==> tiles[j].index != i
  }

  /** Whether some tile carries logical index `i`. */
  predicate HasIndex(tiles: seq<Tile>, i: int) {
    exists k :: 0 <= k < |tiles| && tiles[k].index == i
  }

  /** No two tiles carry the same logical index. */
  predicate DistinctIndices(tiles: seq<Tile>) {
    forall j, k :: 0 <= j < |tiles| && 0 <= k < |tiles| && tiles[j].index == tiles[k].index ==> j == k
  }

  /** The position of the first tile with logical index `i`, if any. */
  function FirstWithIndex(tiles: seq<Tile>, i: int): (r: Option<nat>)
    ensures r.None? <==> !HasIndex(tiles, i)
    ensures r.Some? ==> IsFirstWithIndex(tiles, r.value, i)
    decreases |tiles|
  {
    if |tiles| == 0 then None
    else if tiles[0].index == i then Some(0)
    else match FirstWithIndex(tiles[1..], i)
      case None => None
      case Some(k) => Some(k + 1)
  }

  /** Among tiles with distinct indices, the first tile carrying an index
      is the only one. */
  lemma FirstIsOnly(tiles: seq<Tile>, k: int)
    requires DistinctIndices(tiles) && 0 <= k < |tiles|
    ensures IsFirstWithIndex(tiles, k, tiles[k].index)
  {
  }

  /** The tile `draw` creates for logical index `i`: it copies the press
      and latch flags of the first tile of `previous` with that index, or starts
      released and unlatched when there is none; it is not selected. */
  function Rebuilt(previous: seq<Tile>, i: int): (t: Tile)
    ensures t.index == i && !t.isSelected
    ensures !HasIndex(previous, i) ==> !t.isPressed && !t.latch
    ensures forall k :: IsFirstWithIndex(previous, k, i) ==>
              t.isPressed == previous[k].isPressed && t.latch == previous[k].latch
  {
    match FirstWithIndex(previous, i)
    case None => Tile(i, false, false, false)
    case Some(k) => Tile(i, previous[k].isPressed, previous[k].latch, false)
  }
}
