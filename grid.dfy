/** Row-major addressing of a width × height grid stored in a flat array, and rectangle clipping. */
module Grid {
  import opened Numerics

  /** `IsInBounds`: 0 <= x < width and 0 <= y < height. */
  predicate InBounds(width: int, height: int, x: int, y: int)
  {
    0 <= x < width && 0 <= y < height
  }

  /** The flat index `y * width + x` of a cell. */
  function Index(width: int, x: int, y: int): int
  {
    y * width + x
  }

  /** The cell lies in the half-open rectangle [rx, rx+rw) × [ry, ry+rh). */
  predicate InRect(rx: int, ry: int, rw: int, rh: int, x: int, y: int)
  {
    rx <= x < rx + rw && ry <= y < ry + rh
  }

  /** The bounds of a rectangle clipped to the grid, as `Math.Max(0, …)` and `Math.Min(size, …)` compute them. */
  function ClipLow(v: int): int { Max(0, v) }
  function ClipHigh(size: int, v: int, len: int): int { Min(size, v + len) }

  /** A cell of the grid is inside the clipped rectangle exactly when it is inside the rectangle. */
  lemma ClipExact(width: int, height: int, rx: int, ry: int, rw: int, rh: int, x: int, y: int)
    requires InBounds(width, height, x, y)
    ensures (ClipLow(rx) <= x < ClipHigh(width, rx, rw) && ClipLow(ry) <= y < ClipHigh(height, ry, rh))
        <==> InRect(rx, ry, rw, rh, x, y)
  {
  }

  /** A multiple of a positive w that is at least w away from zero unless the factor is zero. */
  lemma {:induction false} MulBounds(d: int, w: int)
    requires w > 0
    ensures d >= 1 ==> d * w >= w
    ensures d <= -1 ==> d * w <= -w
    ensures d >= 0 ==> d * w >= 0
  {
    if d >= 1 {
      assert d * w == w + (d - 1) * w;
    } else if d <= -1 {
      assert d * w == -w - (-d - 1) * w;
    }
  }

  /** `q * w + r` with 0 <= r < w determines q and r. */
  lemma {:induction false} MulAddUnique(w: int, q1: int, r1: int, q2: int, r2: int)
    requires w > 0 && 0 <= r1 < w && 0 <= r2 < w
    requires q1 * w + r1 == q2 * w + r2
    ensures q1 == q2 && r1 == r2
  {
    assert (q2 - q1) * w == r1 - r2;
    MulBounds(q2 - q1, w);
  }

  /** An in-bounds cell has an index inside the flat array of width * height cells. */
  lemma {:induction false} IndexInRange(width: int, height: int, x: int, y: int)
    requires InBounds(width, height, x, y)
    ensures 0 <= Index(width, x, y) < width * height
  {
    MulBounds(y, width);
    MulBounds(height - 1 - y, width);
    assert height * width == y * width + width + (height - 1 - y) * width;
  }

  /** Distinct in-bounds cells have distinct indices. */
  lemma IndexInjective(width: int, height: int, x1: int, y1: int, x2: int, y2: int)
    requires InBounds(width, height, x1, y1) && InBounds(width, height, x2, y2)
    requires Index(width, x1, y1) == Index(width, x2, y2)
    ensures x1 == x2 && y1 == y2
  {
    MulAddUnique(width, y1, x1, y2, x2);
  }

  /** Distinct in-bounds cells have distinct indices (the contrapositive form used by frame proofs). */
  lemma IndexDistinct(width: int, height: int, x1: int, y1: int, x2: int, y2: int)
    requires InBounds(width, height, x1, y1) && InBounds(width, height, x2, y2)
    requires x1 != x2 || y1 != y2
    ensures Index(width, x1, y1) != Index(width, x2, y2)
  {
    if Index(width, x1, y1) == Index(width, x2, y2) {
      MulAddUnique(width, y1, x1, y2, x2);
    }
  }

  /** Every flat index is the index of exactly the cell (i % width, i / width). */
  lemma {:induction false} IndexCovers(width: int, height: int, i: int)
    requires width > 0 && height > 0 && 0 <= i < width * height
    ensures InBounds(width, height, i % width, i / width)
    ensures Index(width, i % width, i / width) == i
  {
    var q, r := i / width, i % width;
    assert i == q * width + r;
    MulBounds(q - height, width);
    MulBounds(-q - 1, width);
    assert (q - height) * width == q * width - height * width;
    assert (-q - 1) * width == -(q * width) - width;
  }
}
