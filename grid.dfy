/** The value view of a seating grid: one reserved flag per seat, row by row. */
module Grid {

  /** `g[r][c]` is true when the seat in row `r`, column `c` is reserved. */
  type Flags = seq<seq<bool>>

  /** The coordinate test of FlightSeats.isValidSeat: the row exists and the
      column exists in that row. */
  predicate InBounds(g: Flags, row: int, col: int) {
    0 <= row < |g| && 0 <= col < |g[row]|
  }

  /** Both grids have the same rows, each of the same length. */
  predicate SameShape(g: Flags, h: Flags) {
    |g| == |h| && forall i :: 0 <= i < |g| ==> |g[i]| == |h[i]|
  }

  /** At least one row, and every row as long as the first. */
  predicate Rectangular(g: Flags) {
    |g| >= 1 && forall i :: 0 <= i < |g| ==> |g[i]| == |g[0]|
  }

  /** A grid of `rows` rows of `cols` available seats. */
  function Blank(rows: nat, cols: nat): (g: Flags)
    ensures |g| == rows
    ensures forall i :: 0 <= i < rows ==> |g[i]| == cols && forall j :: 0 <= j < cols ==> !g[i][j]
  {
    seq(rows, _ => seq(cols, _ => false))
  }
}
