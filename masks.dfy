/**
 * Masks and their coverage (`generateMaskPixelData`, script.js line 321):
 * one byte per pixel saying how strongly a mask's edits apply there.
 */
module Masks {
  import opened Wrappers
  import opened Bytes
  import opened Raster
  import opened EditParams

  /**
   * What a mask covers: an `ai` mask carries the segmentation bytes it was
   * created with, a `radial` mask an ellipse centre and radii; a mask of
   * any other type yields no coverage.
   */
  datatype Shape =
    | Ai(data: seq<byte>)
    | Radial(cx: real, cy: real, rx: real, ry: real)
    | Unknown(kind: string)

  /** A mask of an entry: id, list label, coverage shape and its own slider values. */
  datatype Mask = Mask(id: string, name: string, shape: Shape, edits: Adjustments)

  /** ((x - cx) / rx)^2 + ((y - cy) / ry)^2: below 1 exactly inside the ellipse. */
  function EllipseDistance(cx: real, cy: real, rx: real, ry: real, x: int, y: int): real
    requires rx != 0.0 && ry != 0.0
  {
    var u := (x as real - cx) / rx;
    var v := (y as real - cy) / ry;
    u * u + v * v
  }

  /**
   * Coverage of pixel (x, y) by a radial mask: (1 - sqrt(d)) * 255 stored
   * through the clamped array inside the ellipse, 0 outside. A zero radius
   * divides by zero; the resulting infinity or NaN fails `val < 1`, so the
   * pixel gets 0.
   */
  function RadialAt(sqrt: real -> real, cx: real, cy: real, rx: real, ry: real, x: int, y: int): byte
  {
    if rx == 0.0 || ry == 0.0 then 0
    else
      var d := EllipseDistance(cx, cy, rx, ry, x, y);
      if d < 1.0 then StoredCoverage(sqrt(d)) else 0
  }

  /** `(1 - s) * 255` stored in the clamped coverage array. */
  function StoredCoverage(s: real): byte
  {
    ToClamped((1.0 - s) * 255.0)
  }

  /** A w x h raster whose byte y * w + x is cell(x, y), row after row. */
  function Grid(w: nat, h: nat, cell: (int, int) -> byte): (g: seq<byte>)
    ensures |g| == w * h
  {
    if w == 0 then []
    else seq(w * h, p requires 0 <= p < w * h => cell(p % w, p / w))
  }

  /** The coverage `generateMaskPixelData` yields for a shape on a w x h canvas; None for null. */
  function Coverage(shape: Shape, w: nat, h: nat, sqrt: real -> real): Option<seq<byte>>
  {
    match shape
    case Ai(data) => Some(data)
    case Radial(cx, cy, rx, ry) =>
      Some(Grid(w, h, (x, y) => RadialAt(sqrt, cx, cy, rx, ry, x, y)))
    case Unknown(_) => None
  }

  /** Pixel (x, y) of a grid is its cell (x, y). */
  lemma GridAt(w: nat, h: nat, cell: (int, int) -> byte, x: nat, y: nat)
    requires x < w && y < h
    ensures y * w + x < w * h && Grid(w, h, cell)[y * w + x] == cell(x, y)
  {
    PixelIndexBound(w, h, x, y);
    SplitIndex(w, x, y);
  }

  /** What the model needs of `Math.sqrt` on [0, 1]: it stays in [0, 1] and sqrt(0) = 0. */
  ghost predicate SqrtSpec(sqrt: real -> real)
  {
    && sqrt(0.0) == 0.0
    && forall d :: 0.0 <= d <= 1.0 ==> 0.0 <= sqrt(d) <= 1.0
  }

  /** `Math.sqrt` never decreases on [0, 1]. */
  ghost predicate SqrtMonotone(sqrt: real -> real)
  {
    forall a, b :: 0.0 <= a <= b <= 1.0 ==> sqrt(a) <= sqrt(b)
  }

  /**
   * generateMaskPixelData (line 321): a copy of an `ai` mask's bytes, a
   * freshly filled w x h array for a `radial` mask, null for anything else.
   */
  method GenerateMaskPixelData(mask: Mask, w: nat, h: nat, sqrt: real -> real) returns (cov: array?<byte>)
    ensures cov == null <==> mask.shape.Unknown?
    ensures cov != null ==> fresh(cov) && Coverage(mask.shape, w, h, sqrt) == Some(cov[..])
  {
    match mask.shape {
      case Ai(data) =>
        cov := new byte[|data|](i requires 0 <= i < |data| => data[i]);
        assert cov[..] == data;
      case Radial(cx, cy, rx, ry) =>
        cov := FillGrid(w, h, (x, y) => RadialAt(sqrt, cx, cy, rx, ry, x, y));
      case Unknown(_) =>
        cov := null;
    }
  }

  /**
   * The nested y/x loop of the radial branch, filling a new w x h array row
   * by row with the coverage of each pixel.
   */
  method FillGrid(w: nat, h: nat, cell: (int, int) -> byte) returns (a: array<byte>)
    ensures fresh(a) && a[..] == Grid(w, h, cell)
  {
    a := new byte[w * h];
    for y := 0 to h
      invariant y * w <= w * h
      invariant a[..y * w] == Grid(w, h, cell)[..y * w]
    {
      FillRow(a, w, h, cell, y);
    }
    assert a[..] == a[..h * w];
  }

  /** The inner x loop: row y of the grid, written after the rows above it. */
  method FillRow(a: array<byte>, w: nat, h: nat, cell: (int, int) -> byte, y: nat)
    requires a.Length == w * h && y < h
    requires a[..y * w] == Grid(w, h, cell)[..y * w]
    modifies a
    ensures (y + 1) * w <= w * h
    ensures a[..(y + 1) * w] == Grid(w, h, cell)[..(y + 1) * w]
  {
    ghost var spec := Grid(w, h, cell);
    ghost var rowStart := y * w;
    RowsBound(w, h, y + 1);
    NextRow(w, y);
    for x := 0 to w
      invariant rowStart + x <= w * h
      invariant a[..rowStart + x] == spec[..rowStart + x]
    {
      var index := y * w + x;
      GridAt(w, h, cell, x, y);
      a[index] := cell(x, y);
      assert a[..index + 1] == a[..index] + [spec[index]];
    }
  }

  /** The pixel exactly at the centre of a radial mask is fully covered. */
  lemma RadialCentreFull(sqrt: real -> real, cx: real, cy: real, rx: real, ry: real, x: int, y: int)
    requires SqrtSpec(sqrt) && rx != 0.0 && ry != 0.0
    requires x as real == cx && y as real == cy
    ensures RadialAt(sqrt, cx, cy, rx, ry, x, y) == 255
  {
    assert EllipseDistance(cx, cy, rx, ry, x, y) == 0.0;
  }

  lemma DivAtLeastOne(a: real, b: real)
    requires b > 0.0 && a >= b
    ensures a / b >= 1.0
  {
    assert (a / b) * b == a;
  }

  lemma SquareAtLeastOne(q: real)
    requires Abs(q) >= 1.0
    ensures q * q >= 1.0
  {
    if q >= 0.0 {
      assert q * q >= q * 1.0;
    } else {
      assert q * q == (-q) * (-q);
      assert (-q) * (-q) >= (-q) * 1.0;
    }
  }

  /** |a| >= |b| > 0 gives (a / b)^2 >= 1. */
  lemma SquareOfRatioAtLeastOne(a: real, b: real)
    requires b != 0.0 && Abs(a) >= Abs(b)
    ensures (a / b) * (a / b) >= 1.0
  {
    DivAtLeastOne(Abs(a), Abs(b));
    var q := a / b;
    var m := Abs(a) / Abs(b);
    assert q * b == a;
    assert m * Abs(b) == Abs(a);
    if (a >= 0.0) == (b > 0.0) {
      assert q == m;
    } else {
      assert q == -m;
    }
    SquareAtLeastOne(q);
  }

  /**
   * A pixel at least one radius away from the centre along either axis lies
   * outside the ellipse and gets no coverage.
   */
  lemma RadialOutsideAxis(sqrt: real -> real, cx: real, cy: real, rx: real, ry: real, x: int, y: int)
    requires Dist(x as real, cx) >= Abs(rx) || Dist(y as real, cy) >= Abs(ry)
    ensures RadialAt(sqrt, cx, cy, rx, ry, x, y) == 0
  {
    if rx != 0.0 && ry != 0.0 {
      var u := (x as real - cx) / rx;
      var v := (y as real - cy) / ry;
      if Dist(x as real, cx) >= Abs(rx) {
        SquareOfRatioAtLeastOne(x as real - cx, rx);
        assert u * u >= 1.0 && v * v >= 0.0;
      } else {
        SquareOfRatioAtLeastOne(y as real - cy, ry);
        assert v * v >= 1.0 && u * u >= 0.0;
      }
    }
  }

  function Abs(v: real): real { if v < 0.0 then -v else v }
  function Dist(a: real, b: real): real { Abs(a - b) }

  /**
   * Inside the ellipse the stored coverage is within half a unit of
   * (1 - sqrt(d)) * 255: the value never needs clamping there.
   */
  lemma RadialInsideValue(sqrt: real -> real, cx: real, cy: real, rx: real, ry: real, x: int, y: int)
    requires SqrtSpec(sqrt) && rx != 0.0 && ry != 0.0
    requires EllipseDistance(cx, cy, rx, ry, x, y) < 1.0
    ensures var v := (1.0 - sqrt(EllipseDistance(cx, cy, rx, ry, x, y))) * 255.0;
      -0.5 <= RadialAt(sqrt, cx, cy, rx, ry, x, y) as real - v <= 0.5
  {
    var d := EllipseDistance(cx, cy, rx, ry, x, y);
    assert 0.0 <= d by {
      var u := (x as real - cx) / rx;
      var v := (y as real - cy) / ry;
      assert u * u >= 0.0 && v * v >= 0.0;
    }
    assert 0.0 <= sqrt(d) <= 1.0;
  }

  /**
   * With a monotone square root, coverage falls off from the centre: a pixel
   * at a smaller ellipse distance is covered at least as strongly.
   */
  lemma RadialFallsOff(sqrt: real -> real, cx: real, cy: real, rx: real, ry: real, x1: int, y1: int, x2: int, y2: int)
    requires SqrtMonotone(sqrt) && rx != 0.0 && ry != 0.0
    requires EllipseDistance(cx, cy, rx, ry, x1, y1) <= EllipseDistance(cx, cy, rx, ry, x2, y2)
    ensures RadialAt(sqrt, cx, cy, rx, ry, x1, y1) >= RadialAt(sqrt, cx, cy, rx, ry, x2, y2)
  {
    var d1 := EllipseDistance(cx, cy, rx, ry, x1, y1);
    var d2 := EllipseDistance(cx, cy, rx, ry, x2, y2);
    if d2 < 1.0 {
      assert 0.0 <= d1 by {
        var u := (x1 as real - cx) / rx;
        var v := (y1 as real - cy) / ry;
        assert u * u >= 0.0 && v * v >= 0.0;
      }
      assert sqrt(d1) <= sqrt(d2);
      ToClampedMonotone((1.0 - sqrt(d2)) * 255.0, (1.0 - sqrt(d1)) * 255.0);
    }
  }
}
