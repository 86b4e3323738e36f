/**
 * Tile row numbering. A map client counts tile rows from the top of the map
 * (XYZ numbering); an MBTiles archive counts them from the bottom (TMS
 * numbering). At zoom z there are 2^z rows, and the two numberings are
 * related by  tms = (2^z - 1) - xyz, in exact integer arithmetic.
 */
module TileAddress {

  /** `1 << z` for a non-negative shift count: the number of tile rows (and columns) at zoom `z`. */
  function Pow2(z: nat): (r: nat)
    ensures r > z
  {
    if z == 0 then 1 else 2 * Pow2(z - 1)
  }

  /** Converts a row between top-origin and bottom-origin numbering (either way). */
  function FlipRow(z: nat, y: int): (r: int)
    ensures 0 <= y < Pow2(z) <==> 0 <= r < Pow2(z)
  {
    Pow2(z) - 1 - y
  }

  /** The conversion is its own inverse. */
  lemma FlipRowInvolution(z: nat, y: int)
    ensures FlipRow(z, FlipRow(z, y)) == y
  {
  }

  /** The top row becomes the bottom row and vice versa. */
  lemma FlipRowCorners(z: nat)
    ensures FlipRow(z, 0) == Pow2(z) - 1
    ensures FlipRow(z, Pow2(z) - 1) == 0
  {
  }

  /** Distinct rows stay distinct, and the vertical order is reversed. */
  lemma FlipRowReversesOrder(z: nat, a: int, b: int)
    ensures a < b <==> FlipRow(z, a) > FlipRow(z, b)
    ensures FlipRow(z, a) == FlipRow(z, b) <==> a == b
  {
  }

  /** Every row of the zoom level is the image of exactly one row of that level. */
  lemma FlipRowOnto(z: nat, r: int)
    requires 0 <= r < Pow2(z)
    ensures exists y :: 0 <= y < Pow2(z) && FlipRow(z, y) == r
  {
    FlipRowInvolution(z, r);
    assert FlipRow(z, FlipRow(z, r)) == r;
  }
}
