/** The grid configuration value (`TileLayout`) and the axis-flag
    remapping that both `TileLayout.init` and the controller apply. */
module Layouts {

  /** The traversal flags a grid stores. */
  datatype Flags = Flags(forward: bool, ascending: bool)

  /** The flags stored for the flags a caller passes.  A horizontal grid
      keeps them; a vertical grid stores `!ascending` as its forward flag
      and the passed `forward` as its ascending flag. */
  function StoredFlags(horizontal: bool, forward: bool, ascending: bool): (f: Flags)
    ensures horizontal ==> f.forward == forward && f.ascending == ascending
    ensures !horizontal ==> f.forward == !ascending && f.ascending == forward
  {
    if horizontal then Flags(forward, ascending) else Flags(!ascending, forward)
  }

  /** The remapping loses nothing: distinct passed flags are stored as
      distinct flags, for either orientation. */
  lemma StoredFlagsInjective(h: bool, f1: bool, a1: bool, f2: bool, a2: bool)
    requires StoredFlags(h, f1, a1) == StoredFlags(h, f2, a2)
    ensures f1 == f2 && a1 == a2
  {
  }

  /** For a vertical grid the remapping is a quarter turn of the flag
      pair: applied four times it gives back the flags it started from,
      and no fewer applications do so for every pair. */
  lemma VerticalRemapIsQuarterTurn(f: bool, a: bool)
    ensures var f1 := StoredFlags(false, f, a);
            var f2 := StoredFlags(false, f1.forward, f1.ascending);
            var f3 := StoredFlags(false, f2.forward, f2.ascending);
            var f4 := StoredFlags(false, f3.forward, f3.ascending);
            f4 == Flags(f, a) && f2 == Flags(!f, !a)
            && f1 != Flags(f, a) && f2 != Flags(f, a) && f3 != Flags(f, a)
  {
  }

  /** A grid configuration: the six stored properties of Swift's
      `TileLayout` (the controller stores the same six as fields).
      `spacing` is a floating-point gap that no integer logic reads. */
  datatype TileLayout = TileLayout(
    horizontal: bool,
    forward: bool,
    ascending: bool,
    rows: int,
    columns: int,
    spacing: real)

  /** `TileLayout.init`: stores `horizontal`, the remapped flags, and the
      shape and spacing exactly as passed, with no clamping or swapping. */
  function MakeLayout(horizontal: bool, forward: bool, ascending: bool,
                      rows: int, columns: int, spacing: real): (l: TileLayout)
    ensures l.horizontal == horizontal
    ensures Flags(l.forward, l.ascending) == StoredFlags(horizontal, forward, ascending)
    ensures l.rows == rows && l.columns == columns && l.spacing == spacing
  {
    var f := StoredFlags(horizontal, forward, ascending);
    TileLayout(horizontal, f.forward, f.ascending, rows, columns, spacing)
  }

  /** `TileLayout.init` keeps all its arguments recoverable: two calls
      build the same layout only when they were given the same arguments. */
  lemma MakeLayoutInjective(h1: bool, f1: bool, a1: bool, r1: int, c1: int, s1: real,
                            h2: bool, f2: bool, a2: bool, r2: int, c2: int, s2: real)
    requires MakeLayout(h1, f1, a1, r1, c1, s1) == MakeLayout(h2, f2, a2, r2, c2, s2)
    ensures h1 == h2 && f1 == f2 && a1 == a2 && r1 == r2 && c1 == c2 && s1 == s2
  {
    StoredFlagsInjective(h1, f1, a1, f2, a2);
  }

  /** `TileLayout()`: the initialiser's default arguments, a horizontal,
      forward, ascending 4 x 4 grid with spacing 1. */
  const DefaultLayout := MakeLayout(true, true, true, 4, 4, 1.0)
}
