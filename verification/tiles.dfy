/** Pixel-to-tile arithmetic of the camera (Camera.calculateXTile and
    Camera.calculateYTile), on 72-pixel square tiles. */
module Tiles {
  import JavaNum

  const TILE_DIMENSION := 72

  /** The tile column (or row) holding pixel `p`, with Java's truncating division. */
  function TileOf(p: int): (t: int)
    ensures p >= 0 ==> t >= 0 && t * TILE_DIMENSION <= p < (t + 1) * TILE_DIMENSION
    ensures p < 0 ==> t <= 0 && (t - 1) * TILE_DIMENSION < p <= t * TILE_DIMENSION
  {
    JavaNum.Quot(p, TILE_DIMENSION)
  }

  /** The map is drawn from the camera's own tile: from a non-negative camera position
      the first tile starts at most one tile to the left of the screen edge, from a
      negative one (truncation rounds toward zero) at most one tile to its right. */
  lemma OffsetWithinOneTile(pos: int)
    ensures pos >= 0 ==> -TILE_DIMENSION < TileOf(pos) * TILE_DIMENSION - pos <= 0
    ensures pos < 0 ==> 0 <= TileOf(pos) * TILE_DIMENSION - pos < TILE_DIMENSION
  {
    var t := TileOf(pos);
    if pos >= 0 {
      assert t * TILE_DIMENSION <= pos < (t + 1) * TILE_DIMENSION;
    } else {
      assert (t - 1) * TILE_DIMENSION < pos <= t * TILE_DIMENSION;
    }
  }

  /** Dividing a map coordinate by the tile size and truncating picks the same tile as
      truncating it to a pixel first and then dividing with Java's int division: the
      tile a map point lies on is the tile of its pixel. */
  lemma TileOfPixel(x: real)
    ensures JavaNum.Trunc(x / TILE_DIMENSION as real) == TileOf(JavaNum.Trunc(x))
  {
    var t := JavaNum.Trunc(x / TILE_DIMENSION as real);
    var p := JavaNum.Trunc(x);
    var d := TILE_DIMENSION as real;
    if x >= 0.0 {
      assert t as real <= x / d < t as real + 1.0;
      assert t as real * d <= x < (t as real + 1.0) * d;
      assert t * TILE_DIMENSION <= p < (t + 1) * TILE_DIMENSION;
    } else {
      assert t as real - 1.0 < x / d <= t as real;
      assert (t as real - 1.0) * d < x <= t as real * d;
      assert (t - 1) * TILE_DIMENSION < p <= t * TILE_DIMENSION;
    }
    var q := TileOf(p);
    if p >= 0 {
      assert q * TILE_DIMENSION <= p < (q + 1) * TILE_DIMENSION;
    } else {
      assert (q - 1) * TILE_DIMENSION < p <= q * TILE_DIMENSION;
    }
  }
}
