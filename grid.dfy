/**
 * The rectangular string[,] grids of the CSV side of the system. A cell is
 * None where the array holds null.
 */
module Grid {
  import opened Outcomes

  datatype Table = Table(height: nat, width: nat, cells: seq<seq<Option<string>>>) {
    /** Every one of the `height` rows has exactly `width` cells. */
    predicate Rectangular() {
      |cells| == height && forall r :: 0 <= r < |cells| ==> |cells[r]| == width
    }
  }

  /** string[,]: GetLength(0) is `height`, GetLength(1) is `width`. */
  type Grid = t: Table | t.Rectangular() witness Table(0, 0, [])

  /** csv[r, c] */
  function At(g: Grid, r: nat, c: nat): Option<string>
    requires r < g.height && c < g.width
  {
    g.cells[r][c]
  }
}
