/**
 * The box blur used by the clarity adjustment (`applyBoxBlur`, script.js
 * line 333): every colour channel of every pixel becomes the mean of that
 * channel over the in-bounds pixels of a (2r+1) x (2r+1) window centred on
 * it, stored in a new `Uint8ClampedArray`; every alpha byte becomes 255.
 */
module Blur {
  import opened Bytes
  import opened Raster

  /** Channel c (0..3) of the in-bounds pixel (nx, ny) of an RGBA buffer. */
  function Px(src: seq<byte>, w: nat, h: nat, nx: int, ny: int, c: nat): byte
    requires |src| == w * h * 4 && c < 4 && InBounds(w, h, nx, ny)
  {
    PixelIndexBound(w, h, nx, ny);
    src[(ny * w + nx) * 4 + c]
  }

  /** What a window sum adds up: one colour channel, or the number of pixels. */
  datatype Tally = Channel(c: nat) | Count

  predicate ValidTally(t: Tally)
  {
    t.Channel? ==> t.c < 3
  }

  /** The contribution of neighbour (nx, ny): nothing when it lies outside the image. */
  function Term(src: seq<byte>, w: nat, h: nat, nx: int, ny: int, t: Tally): nat
    requires |src| == w * h * 4 && ValidTally(t)
  {
    if !InBounds(w, h, nx, ny) then 0
    else match t
      case Count => 1
      case Channel(c) => Px(src, w, h, nx, ny, c)
  }

  /** The sum of the terms of the neighbours lo..hi-1 in row ny. */
  function RowSum(src: seq<byte>, w: nat, h: nat, ny: int, lo: int, hi: int, t: Tally): nat
    requires |src| == w * h * 4 && ValidTally(t)
    decreases hi - lo
  {
    if hi <= lo then 0 else RowSum(src, w, h, ny, lo, hi - 1, t) + Term(src, w, h, hi - 1, ny, t)
  }

  /** The sum over rows ylo..yhi-1 of the row sums over columns x-r..x+r. */
  function BoxSum(src: seq<byte>, w: nat, h: nat, x: int, r: nat, ylo: int, yhi: int, t: Tally): nat
    requires |src| == w * h * 4 && ValidTally(t)
    decreases yhi - ylo
  {
    if yhi <= ylo then 0
    else BoxSum(src, w, h, x, r, ylo, yhi - 1, t) + RowSum(src, w, h, yhi - 1, x - r, x + r + 1, t)
  }

  /** The full window of radius r around (x, y). */
  function WindowSum(src: seq<byte>, w: nat, h: nat, x: int, y: int, r: nat, t: Tally): nat
    requires |src| == w * h * 4 && ValidTally(t)
  {
    BoxSum(src, w, h, x, r, y - r, y + r + 1, t)
  }

  /** A row sum is at least any one of its terms. */
  lemma {:induction false} RowSumAtLeast(src: seq<byte>, w: nat, h: nat, ny: int, lo: int, hi: int, t: Tally, nx: int)
    requires |src| == w * h * 4 && ValidTally(t)
    requires lo <= nx < hi
    ensures RowSum(src, w, h, ny, lo, hi, t) >= Term(src, w, h, nx, ny, t)
    decreases hi - lo
  {
    if nx < hi - 1 {
      RowSumAtLeast(src, w, h, ny, lo, hi - 1, t, nx);
    }
  }

  /** A box sum is at least any one of its row sums. */
  lemma {:induction false} BoxSumAtLeast(src: seq<byte>, w: nat, h: nat, x: int, r: nat, ylo: int, yhi: int, t: Tally, ny: int)
    requires |src| == w * h * 4 && ValidTally(t)
    requires ylo <= ny < yhi
    ensures BoxSum(src, w, h, x, r, ylo, yhi, t) >= RowSum(src, w, h, ny, x - r, x + r + 1, t)
    decreases yhi - ylo
  {
    if ny < yhi - 1 {
      BoxSumAtLeast(src, w, h, x, r, ylo, yhi - 1, t, ny);
    }
  }

  /** The pixel itself is always in bounds, so a window never counts zero pixels. */
  lemma CountPositive(src: seq<byte>, w: nat, h: nat, x: int, y: int, r: nat)
    requires |src| == w * h * 4 && InBounds(w, h, x, y)
    ensures WindowSum(src, w, h, x, y, r, Count) >= 1
  {
    RowSumAtLeast(src, w, h, y, x - r, x + r + 1, Count, x);
    BoxSumAtLeast(src, w, h, x, r, y - r, y + r + 1, Count, y);
  }

  /** Column and row of the pixel whose bytes start at 4 * (i / 4). */
  function Column(i: nat, w: nat): nat
    requires w > 0
  {
    (i / 4) % w
  }

  function Row(i: nat, w: nat): nat
    requires w > 0
  {
    (i / 4) / w
  }

  /** Pixel p of a w x h image sits at column p % w of row p / w. */
  lemma PixelInBounds(w: nat, h: nat, p: nat)
    requires p < w * h
    ensures w > 0
    ensures InBounds(w, h, p % w, p / w)
  {
  }

  /**
   * Colour channel c of blurred pixel p: the window channel sum divided by
   * the window pixel count, stored through the `Uint8ClampedArray`
   * rounding.
   */
  function BlurChannel(src: seq<byte>, w: nat, h: nat, r: nat, p: nat, c: nat): byte
    requires |src| == w * h * 4 && p < w * h && c < 3
  {
    PixelInBounds(w, h, p);
    var x, y := p % w, p / w;
    CountPositive(src, w, h, x, y, r);
    var total := WindowSum(src, w, h, x, y, r, Channel(c));
    var count := WindowSum(src, w, h, x, y, r, Count);
    ToClamped(total as real / count as real)
  }

  /** Byte i of the blurred buffer: 255 for alpha, the blurred channel otherwise. */
  function BlurValue(src: seq<byte>, w: nat, h: nat, r: nat, i: nat): byte
    requires |src| == w * h * 4 && i < |src|
  {
    if i % 4 == 3 then 255 else BlurChannel(src, w, h, r, i / 4, i % 4)
  }

  /** The four bytes of pixel p of the blurred buffer, read back. */
  lemma BlurValuesAt(src: seq<byte>, w: nat, h: nat, r: nat, p: nat)
    requires |src| == w * h * 4 && p < w * h
    ensures 4 * p + 3 < |src|
    ensures BlurValue(src, w, h, r, 4 * p) == BlurChannel(src, w, h, r, p, 0)
    ensures BlurValue(src, w, h, r, 4 * p + 1) == BlurChannel(src, w, h, r, p, 1)
    ensures BlurValue(src, w, h, r, 4 * p + 2) == BlurChannel(src, w, h, r, p, 2)
    ensures BlurValue(src, w, h, r, 4 * p + 3) == 255
  {
    ByteOfPixel(p, 0);
    ByteOfPixel(p, 1);
    ByteOfPixel(p, 2);
    ByteOfPixel(p, 3);
  }

  /** Byte c of pixel p lies at index 4 * p + c. */
  lemma ByteOfPixel(p: nat, c: nat)
    requires c < 4
    ensures (4 * p + c) / 4 == p && (4 * p + c) % 4 == c
  {
  }

  /** Every in-bounds pixel of the window has channel c within [lo, hi]. */
  ghost predicate WindowWithin(src: seq<byte>, w: nat, h: nat, x: int, y: int, r: nat, c: nat, lo: byte, hi: byte)
    requires |src| == w * h * 4 && c < 3
  {
    forall nx, ny :: x - r <= nx <= x + r && y - r <= ny <= y + r && InBounds(w, h, nx, ny) ==>
      lo <= Px(src, w, h, nx, ny, c) <= hi
  }

  /** Bounds of the form lo * n <= v <= hi * n add up. */
  lemma AddBounds(lo: nat, hi: nat, n: nat, v: nat, n': nat, v': nat)
    requires lo * n <= v <= hi * n && lo * n' <= v' <= hi * n'
    ensures lo * (n + n') <= v + v' <= hi * (n + n')
  {
    assert lo * (n + n') == lo * n + lo * n';
    assert hi * (n + n') == hi * n + hi * n';
  }

  lemma {:induction false} RowSumBounds(src: seq<byte>, w: nat, h: nat, x: int, y: int, r: nat, c: nat, lo: byte, hi: byte,
                                        ny: int, top: int)
    requires |src| == w * h * 4 && c < 3 && WindowWithin(src, w, h, x, y, r, c, lo, hi)
    requires y - r <= ny <= y + r && x - r <= top <= x + r + 1
    ensures lo * RowSum(src, w, h, ny, x - r, top, Count) <= RowSum(src, w, h, ny, x - r, top, Channel(c))
    ensures RowSum(src, w, h, ny, x - r, top, Channel(c)) <= hi * RowSum(src, w, h, ny, x - r, top, Count)
    decreases top - (x - r)
  {
    if top > x - r {
      RowSumBounds(src, w, h, x, y, r, c, lo, hi, ny, top - 1);
      var n := RowSum(src, w, h, ny, x - r, top - 1, Count);
      var v := RowSum(src, w, h, ny, x - r, top - 1, Channel(c));
      var tn := Term(src, w, h, top - 1, ny, Count);
      var tv := Term(src, w, h, top - 1, ny, Channel(c));
      if InBounds(w, h, top - 1, ny) {
        assert tn == 1 && tv == Px(src, w, h, top - 1, ny, c);
      }
      AddBounds(lo, hi, n, v, tn, tv);
    }
  }

  lemma {:induction false} BoxSumBounds(src: seq<byte>, w: nat, h: nat, x: int, y: int, r: nat, c: nat, lo: byte, hi: byte,
                                        top: int)
    requires |src| == w * h * 4 && c < 3 && WindowWithin(src, w, h, x, y, r, c, lo, hi)
    requires y - r <= top <= y + r + 1
    ensures lo * BoxSum(src, w, h, x, r, y - r, top, Count) <= BoxSum(src, w, h, x, r, y - r, top, Channel(c))
    ensures BoxSum(src, w, h, x, r, y - r, top, Channel(c)) <= hi * BoxSum(src, w, h, x, r, y - r, top, Count)
    decreases top - (y - r)
  {
    if top > y - r {
      BoxSumBounds(src, w, h, x, y, r, c, lo, hi, top - 1);
      RowSumBounds(src, w, h, x, y, r, c, lo, hi, top - 1, x + r + 1);
      var n := BoxSum(src, w, h, x, r, y - r, top - 1, Count);
      var rn := RowSum(src, w, h, top - 1, x - r, x + r + 1, Count);
      var v := BoxSum(src, w, h, x, r, y - r, top - 1, Channel(c));
      var rv := RowSum(src, w, h, top - 1, x - r, x + r + 1, Channel(c));
      AddBounds(lo, hi, n, v, rn, rv);
    }
  }

  /** A total of count values within [lo, hi] has its mean within [lo, hi]. */
  lemma MeanBetween(total: nat, count: nat, lo: nat, hi: nat)
    requires count >= 1 && lo * count <= total <= hi * count
    ensures lo as real <= total as real / count as real <= hi as real
  {
    var mean := total as real / count as real;
    assert mean * count as real == total as real;
    assert (lo * count) as real == lo as real * count as real;
    assert (hi * count) as real == hi as real * count as real;
  }

  /**
   * A blurred colour byte lies between any bounds that hold for its channel
   * over the in-bounds part of its window: the mean of values in [lo, hi]
   * stays in [lo, hi], and so does its rounding.
   */
  lemma BlurWithinWindow(src: seq<byte>, w: nat, h: nat, r: nat, i: nat, lo: byte, hi: byte)
    requires |src| == w * h * 4 && i < |src| && i % 4 != 3
    requires w > 0 && WindowWithin(src, w, h, Column(i, w), Row(i, w), r, i % 4, lo, hi)
    ensures lo <= BlurValue(src, w, h, r, i) <= hi
  {
    var x, y := Column(i, w), Row(i, w);
    PixelInBounds(w, h, i / 4);
    CountPositive(src, w, h, x, y, r);
    BoxSumBounds(src, w, h, x, y, r, i % 4, lo, hi, y + r + 1);
    var total := WindowSum(src, w, h, x, y, r, Channel(i % 4));
    var count := WindowSum(src, w, h, x, y, r, Count);
    var mean := total as real / count as real;
    MeanBetween(total, count, lo, hi);
    ToClampedBetween(mean, lo, hi);
  }

  /** A region of one flat colour comes out of the blur unchanged. */
  lemma BlurKeepsFlatColour(src: seq<byte>, w: nat, h: nat, r: nat, i: nat, v: byte)
    requires |src| == w * h * 4 && i < |src| && i % 4 != 3
    requires w > 0 && WindowWithin(src, w, h, Column(i, w), Row(i, w), r, i % 4, v, v)
    ensures BlurValue(src, w, h, r, i) == v
  {
    BlurWithinWindow(src, w, h, r, i, v, v);
  }

  /** The window sums of one pixel, accumulated row by row as the nested dy/dx loops do. */
  method WindowTotals(src: array<byte>, w: nat, h: nat, x: int, y: int, r: nat)
    returns (rSum: nat, gSum: nat, bSum: nat, count: nat)
    requires src.Length == w * h * 4
    ensures rSum == WindowSum(src[..], w, h, x, y, r, Channel(0))
    ensures gSum == WindowSum(src[..], w, h, x, y, r, Channel(1))
    ensures bSum == WindowSum(src[..], w, h, x, y, r, Channel(2))
    ensures count == WindowSum(src[..], w, h, x, y, r, Count)
  {
    ghost var s := src[..];
    rSum, gSum, bSum, count := 0, 0, 0, 0;
    for dy: int := -(r as int) to r + 1
      invariant rSum == BoxSum(s, w, h, x, r, y - r, y + dy, Channel(0))
      invariant gSum == BoxSum(s, w, h, x, r, y - r, y + dy, Channel(1))
      invariant bSum == BoxSum(s, w, h, x, r, y - r, y + dy, Channel(2))
      invariant count == BoxSum(s, w, h, x, r, y - r, y + dy, Count)
    {
      var rRow, gRow, bRow, nRow := RowTotals(src, w, h, x, y + dy, r);
      rSum, gSum, bSum, count := rSum + rRow, gSum + gRow, bSum + bRow, count + nRow;
    }
  }

  /** The inner dx loop: the sums over the in-bounds neighbours of one window row. */
  method RowTotals(src: array<byte>, w: nat, h: nat, x: int, ny: int, r: nat)
    returns (rRow: nat, gRow: nat, bRow: nat, nRow: nat)
    requires src.Length == w * h * 4
    ensures rRow == RowSum(src[..], w, h, ny, x - r, x + r + 1, Channel(0))
    ensures gRow == RowSum(src[..], w, h, ny, x - r, x + r + 1, Channel(1))
    ensures bRow == RowSum(src[..], w, h, ny, x - r, x + r + 1, Channel(2))
    ensures nRow == RowSum(src[..], w, h, ny, x - r, x + r + 1, Count)
  {
    ghost var s := src[..];
    rRow, gRow, bRow, nRow := 0, 0, 0, 0;
    for dx: int := -(r as int) to r + 1
      invariant rRow == RowSum(s, w, h, ny, x - r, x + dx, Channel(0))
      invariant gRow == RowSum(s, w, h, ny, x - r, x + dx, Channel(1))
      invariant bRow == RowSum(s, w, h, ny, x - r, x + dx, Channel(2))
      invariant nRow == RowSum(s, w, h, ny, x - r, x + dx, Count)
    {
      var nx := x + dx;
      if nx >= 0 && nx < w && ny >= 0 && ny < h {
        PixelIndexBound(w, h, nx, ny);
        var idx := (ny * w + nx) * 4;
        rRow := rRow + src[idx];
        gRow := gRow + src[idx + 1];
        bRow := bRow + src[idx + 2];
        nRow := nRow + 1;
      }
    }
  }

  /**
   * applyBoxBlur (line 333): a new buffer of the same length holding the
   * blurred value of every byte.
   */
  method BoxBlur(src: array<byte>, w: nat, h: nat, r: nat) returns (dst: array<byte>)
    requires src.Length == w * h * 4
    ensures fresh(dst) && dst.Length == src.Length
    ensures forall i :: 0 <= i < dst.Length ==> dst[i] == BlurValue(src[..], w, h, r, i)
  {
    dst := new byte[src.Length];
    ghost var s := src[..];
    var i := 0;
    ghost var p: nat := 0;
    while i < src.Length
      invariant i == 4 * p && i <= src.Length
      invariant forall j :: 0 <= j < i ==> dst[j] == BlurValue(s, w, h, r, j)
    {
      assert i / 4 == p && p < w * h;
      BlurPixel(src, dst, w, h, r, i / 4, s);
      BlurValuesAt(s, w, h, r, p);
      i := i + 4;
      p := p + 1;
    }
  }

  /** One turn of the blur loop: the four bytes of pixel p, starting at byte 4 * p. */
  method BlurPixel(src: array<byte>, dst: array<byte>, w: nat, h: nat, r: nat, p: nat, ghost s: seq<byte>)
    requires src.Length == w * h * 4 && dst.Length == src.Length && dst != src && src[..] == s
    requires p < w * h
    modifies dst
    ensures 4 * p + 4 <= dst.Length
    ensures forall j :: 0 <= j < dst.Length && !(4 * p <= j < 4 * p + 4) ==> dst[j] == old(dst[j])
    ensures dst[4 * p] == BlurChannel(s, w, h, r, p, 0) && dst[4 * p + 1] == BlurChannel(s, w, h, r, p, 1)
    ensures dst[4 * p + 2] == BlurChannel(s, w, h, r, p, 2) && dst[4 * p + 3] == 255
  {
    PixelInBounds(w, h, p);
    var x := p % w;
    var y := p / w;
    var rSum, gSum, bSum, count := WindowTotals(src, w, h, x, y, r);
    CountPositive(s, w, h, x, y, r);
    var i := 4 * p;
    dst[i] := ToClamped(rSum as real / count as real);
    dst[i + 1] := ToClamped(gSum as real / count as real);
    dst[i + 2] := ToClamped(bSum as real / count as real);
    dst[i + 3] := 255;
  }
}
