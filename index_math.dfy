/** Facts about row-major and tiled index arithmetic that the solver does not find alone. */
module IndexMath {

  /** Solver aid: a product of non-negative numbers is non-negative. */
  lemma MulNonneg(a: int, b: int)
    requires 0 <= a && 0 <= b
    ensures 0 <= a * b
  {}

  /** Tile r of n tiles of width w ends within the n * w positions. */
  lemma TileBound(r: int, n: int, w: int)
    requires 0 <= r < n && 1 <= w
    ensures 0 <= r * w && r * w + w <= w * n
  {
    MulNonneg(r, w);
    MulNonneg(n - r - 1, w);
  }

  /** Position X lies in tile r of width w exactly when X div w == r; its offset is X mod w. */
  lemma TileIndex(X: int, r: int, w: int)
    requires 0 <= r && 1 <= w && r * w <= X < r * w + w
    ensures X / w == r && X % w == X - r * w
  {
    var q, m := X / w, X % w;
    assert X == q * w + m && 0 <= m < w;
    if q > r {
      MulNonneg(q - r - 1, w);
      assert false;
    } else if q < r {
      MulNonneg(r - q - 1, w);
      assert false;
    }
  }

  /** With 0 <= x < w, the row-major index y * w + x lies inside a w * h grid exactly when y < h. */
  lemma RowMajorBound(x: int, y: int, w: int, h: int)
    requires 0 <= x < w && 0 <= y && 1 <= h
    ensures y * w + x < w * h <==> y < h
  {
    if y < h {
      MulNonneg(h - y - 1, w);
    } else {
      MulNonneg(y - h, w);
    }
  }

  /** Solver aid: the next row starts w positions further on. */
  lemma NextRow(y: int, w: int)
    ensures (y + 1) * w == y * w + w
  {
  }

  /** The row-major cursor (x, y) of a w * h grid: its index is inside the grid exactly
      when y < h, and moving it one pixel on, to the next row after the last column,
      moves the index by one. */
  lemma CursorStep(x: int, y: int, w: int, h: int)
    requires 0 <= x < w && 0 <= y && 1 <= h
    ensures y * w + x < w * h <==> y < h
    ensures x + 1 < w ==> y * w + (x + 1) == y * w + x + 1
    ensures x + 1 == w ==> (y + 1) * w + 0 == y * w + x + 1
  {
    RowMajorBound(x, y, w, h);
    NextRow(y, w);
  }
}
