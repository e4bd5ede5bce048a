/**
 * Pixel addressing shared by the pixel loops: an image of width w and
 * height h is stored row by row, pixel (x, y) at index y * w + x.
 */
module Raster {

  /** (nx, ny) is a pixel of a w x h image. */
  predicate InBounds(w: nat, h: nat, nx: int, ny: int)
  {
    0 <= nx < w && 0 <= ny < h
  }

  /** The pixel index of an in-bounds pixel lies below w * h. */
  lemma PixelIndexBound(w: nat, h: nat, nx: int, ny: int)
    requires InBounds(w, h, nx, ny)
    ensures 0 <= ny * w + nx < w * h
  {
    assert ny * w <= (h - 1) * w;
    assert (h - 1) * w == h * w - w;
  }

  /** Index y * w + x splits back into row y and column x. */
  lemma SplitIndex(w: nat, x: nat, y: nat)
    requires x < w
    ensures (y * w + x) / w == y && (y * w + x) % w == x
  {
    var n := y * w + x;
    var q, r := n / w, n % w;
    assert q * w + r == n;
    MulSub(q, y, w);
    if q > y {
      MulAtLeast(q - y, w);
    } else if q < y {
      MulAtLeast(y - q, w);
      MulSub(y, q, w);
    }
  }

  /** The row after y starts at index (y + 1) * w. */
  lemma NextRow(w: nat, y: nat)
    ensures y * w + w == (y + 1) * w
  {
  }

  /** The first y rows of a w x h image, y <= h, fit inside it. */
  lemma RowsBound(w: nat, h: nat, y: nat)
    requires y <= h
    ensures y * w <= w * h
  {
  }

  lemma MulSub(a: int, b: int, w: int)
    ensures (a - b) * w == a * w - b * w
  {
  }

  lemma MulAtLeast(a: int, w: nat)
    requires a >= 1
    ensures a * w >= w
  {
  }
}
