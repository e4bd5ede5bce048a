/**
 * The compositor: `applyEditsToData` (script.js lines 268-302) rewrites an
 * RGBA buffer in place, pixel by pixel, and `render` (lines 245-258) runs it
 * once for the global edits with the tone curve and once per mask with the
 * mask's coverage.
 *
 * The per-pixel colour maths is split into the part that is floating-point
 * transcendental work, kept abstract in `ColourMaths` (exposure, contrast,
 * highlights, shadows, dehaze and clarity at lines 280-287, and the HSL
 * round trip at line 294), and the linear part modelled over reals: the
 * luminance, the tonal-zone blend (lines 289-293), temperature and
 * saturation (lines 296-297), and the coverage blend and clamp (lines
 * 299-300).
 */
module Compositor {
  import opened Wrappers
  import opened Bytes
  import opened EditParams
  import opened ToneCurves
  import opened Blur
  import opened Masks

  /** An intermediate colour: JavaScript numbers, here reals. */
  datatype Rgb = Rgb(r: real, g: real, b: real)

  /** The red, green and blue bytes of one pixel. */
  datatype Pixel = Pixel(r: byte, g: byte, b: byte)

  /**
   * The colour maths the model does not spell out:
   * `tone(edits, c, blurred)` is lines 280-287 applied to the curve output
   * c, with the blurred pixel present exactly when clarity is non-zero;
   * `grade(c, hShift, sShift)` is the `rgbToHsl`/`hslToRgb` round trip of
   * line 294.
   */
  datatype ColourMaths = ColourMaths(
    tone: (Adjustments, Rgb, Option<Rgb>) -> Rgb,
    grade: (Rgb, real, real) -> Rgb)

  /**
   * How strongly a pass applies at one pixel: fully (no coverage array),
   * by a coverage byte, or not defined at all because the coverage array
   * is shorter than the image (`maskData[i / 4]` is then `undefined`).
   */
  datatype Weight = Full | Part(c: byte) | Missing

  /** The weight of pixel p under an optional coverage array. */
  function WeightOf(cov: Option<seq<byte>>, p: nat): Weight
  {
    match cov
    case None => Full
    case Some(c) => if p < |c| then Part(c[p]) else Missing
  }

  /** A lookup table, when there is one, has the 256 entries of `generateLUT`. */
  predicate LutOk(lut: Option<seq<byte>>)
  {
    lut.Some? ==> |lut.value| == 256
  }

  /** The tone-curve table `setPoints` would build for optional curve points. */
  function CurveLut(curvePts: Option<seq<Point>>): (lut: Option<seq<byte>>)
    requires curvePts.Some? ==> |curvePts.value| >= 2
    ensures LutOk(lut)
  {
    match curvePts
    case None => None
    case Some(pts) => Some(Lut(SortPts(pts)))
  }

  /** Line 279: the original bytes, looked up in the curve table when there is one. */
  function Curved(px: Pixel, lut: Option<seq<byte>>): Rgb
    requires LutOk(lut)
  {
    match lut
    case None => Rgb(px.r as real, px.g as real, px.b as real)
    case Some(t) => Rgb(t[px.r] as real, t[px.g] as real, t[px.b] as real)
  }

  /** Relative luminance with the ITU-R BT.709 weights (lines 283 and 289). */
  function Luma(c: Rgb): real
  {
    0.2126 * c.r + 0.7152 * c.g + 0.0722 * c.b
  }

  /** The hue and saturation shift of the colour grade. */
  datatype Shift = Shift(hue: real, sat: real)

  /**
   * Lines 290-293: below luminance 85 blend shadows into midtones, above
   * 170 midtones into highlights, and in between use the midtone values.
   */
  function ZoneShift(lum: real, e: Adjustments): Shift
  {
    if lum < 85.0 then
      var t := lum / 85.0;
      Shift(t * e.midtonesHue + (1.0 - t) * e.shadowsHue,
            t * e.midtonesSaturation + (1.0 - t) * e.shadowsSaturation)
    else if lum > 170.0 then
      var t := (lum - 170.0) / 85.0;
      Shift((1.0 - t) * e.midtonesHue + t * e.highlightsHue,
            (1.0 - t) * e.midtonesSaturation + t * e.highlightsSaturation)
    else
      Shift(e.midtonesHue, e.midtonesSaturation)
  }

  /** Line 294: the HSL grade runs only for a strictly positive saturation shift. */
  function Graded(c: Rgb, e: Adjustments, m: ColourMaths): Rgb
  {
    var s := ZoneShift(Luma(c), e);
    if s.sat > 0.0 then m.grade(c, s.hue, s.sat) else c
  }

  /** Line 296: temperature warms red, half-warms green and cools blue. */
  function Warmed(c: Rgb, temperature: real): Rgb
  {
    Rgb(c.r + temperature, c.g + temperature * 0.5, c.b - temperature)
  }

  /** Line 297: every channel is pushed from the channel mean by 1 + saturation / 100. */
  function Saturated(c: Rgb, saturation: real): Rgb
  {
    var factor := 1.0 + saturation / 100.0;
    var avg := (c.r + c.g + c.b) / 3.0;
    Rgb(avg + factor * (c.r - avg), avg + factor * (c.g - avg), avg + factor * (c.b - avg))
  }

  /** The colour lines 279-297 compute for one pixel, before blending. */
  function Transformed(e: Adjustments, px: Pixel, blurred: Option<Rgb>, lut: Option<seq<byte>>, m: ColourMaths): Rgb
    requires LutOk(lut)
  {
    var toned := m.tone(e, Curved(px, lut), blurred);
    Saturated(Warmed(Graded(toned, e, m), e.temperature), e.saturation)
  }

  /**
   * Lines 299-300: `original + (v - original) * maskValue` stored in the
   * clamped array and clamped again. A missing coverage byte makes the
   * value NaN, which the clamped array stores as 0.
   */
  function Blend(orig: byte, v: real, w: Weight): byte
  {
    match w
    case Full => ToClamped(Mix(orig, v, 1.0))
    case Part(c) => ToClamped(Mix(orig, v, c as real / 255.0))
    case Missing => 0
  }

  /** The point a fraction f of the way from a channel's original byte to v. */
  function Mix(orig: byte, v: real, f: real): real
  {
    orig as real + (v - orig as real) * f
  }

  /** The new red, green and blue bytes of a pixel that is not skipped. */
  function Shade(px: Pixel, w: Weight, blurred: Option<Rgb>, lut: Option<seq<byte>>, e: Adjustments, m: ColourMaths): Pixel
    requires LutOk(lut)
  {
    var v := Transformed(e, px, blurred, lut, m);
    Pixel(Blend(px.r, v.r, w), Blend(px.g, v.g, w), Blend(px.b, v.b, w))
  }

  /** The colour bytes of pixel p of an RGBA buffer. */
  function PixelAt(src: seq<byte>, p: nat): Pixel
    requires 4 * p + 3 < |src|
  {
    Pixel(src[4 * p], src[4 * p + 1], src[4 * p + 2])
  }

  /**
   * What a pass paints over a pixel it does not skip, given the pixel's
   * original colour, its weight and its blurred colour.
   */
  type Painter = (Pixel, Weight, Option<Rgb>) -> Pixel

  /** The painter of one `applyEditsToData` call: its edits, curve table and colour maths. */
  function Painting(lut: Option<seq<byte>>, e: Adjustments, m: ColourMaths): Painter
    requires LutOk(lut)
  {
    (px: Pixel, wgt: Weight, blurred: Option<Rgb>) => Shade(px, wgt, blurred, lut, e, m)
  }

  /** The whole buffer blurred with radius 5, as `applyBoxBlur` returns it. */
  function BlurImage(src: seq<byte>, w: nat, h: nat): (r: seq<byte>)
    requires |src| == w * h * 4
    ensures |r| == |src|
  {
    seq<byte>(|src|, j requires 0 <= j < |src| => BlurValue(src, w, h, 5, j))
  }

  /** Line 273: the blurred buffer exists exactly when clarity is non-zero. */
  function Blurring(src: seq<byte>, w: nat, h: nat, e: Adjustments): (b: Option<seq<byte>>)
    requires |src| == w * h * 4
    ensures b.Some? <==> e.clarity != 0.0
    ensures b.Some? ==> |b.value| == |src|
  {
    if e.clarity == 0.0 then None else Some(BlurImage(src, w, h))
  }

  /** The blurred colour of pixel p, when there is a blurred buffer. */
  function BlurredAt(blur: Option<seq<byte>>, p: nat): Option<Rgb>
    requires blur.Some? ==> 4 * p + 2 < |blur.value|
  {
    match blur
    case None => None
    case Some(b) => Some(Rgb(b[4 * p] as real, b[4 * p + 1] as real, b[4 * p + 2] as real))
  }

  /** Pixel p after one pass: unchanged under zero coverage (line 276), painted otherwise. */
  function Outcome(src: seq<byte>, cov: Option<seq<byte>>, blur: Option<seq<byte>>, paint: Painter, p: nat): Pixel
    requires 4 * p + 3 < |src| && (blur.Some? ==> |blur.value| == |src|)
  {
    var px := PixelAt(src, p);
    var wgt := WeightOf(cov, p);
    if wgt == Part(0) then px else paint(px, wgt, BlurredAt(blur, p))
  }

  /** Channel k (0 red, 1 green, 2 blue) of a pixel. */
  function Component(q: Pixel, k: nat): byte
    requires k < 3
  {
    if k == 0 then q.r else if k == 1 then q.g else q.b
  }

  lemma QuadBounds(i: nat, n: nat)
    requires i < 4 * n
    ensures 4 * (i / 4) + 3 < 4 * n
  {
  }

  /**
   * A buffer whose colour bytes at pixel p are replaced by those of f(p);
   * every alpha byte is kept.
   */
  function Rewritten(src: seq<byte>, f: nat -> Pixel): (r: seq<byte>)
    ensures |r| == |src|
  {
    seq(|src|, i requires 0 <= i < |src| => ByteAt(src, f, i))
  }

  /** Byte i of the rewritten buffer: alpha from src, colour from f. */
  function ByteAt(src: seq<byte>, f: nat -> Pixel, i: nat): byte
    requires i < |src|
  {
    if i % 4 == 3 then src[i] else Component(f(i / 4), i % 4)
  }

  /** The outcome of one pass, as a function of the pixel index. */
  function Pass(src: seq<byte>, cov: Option<seq<byte>>, blur: Option<seq<byte>>, paint: Painter): nat -> Pixel
    requires blur.Some? ==> |blur.value| == |src|
  {
    (p: nat) => if 4 * p + 3 < |src| then Outcome(src, cov, blur, paint, p) else Pixel(0, 0, 0)
  }

  /** The buffer one `applyEditsToData` call leaves behind. */
  function Edited(src: seq<byte>, w: nat, h: nat, e: Adjustments, cov: Option<seq<byte>>,
                  lut: Option<seq<byte>>, m: ColourMaths): (r: seq<byte>)
    requires |src| == w * h * 4 && LutOk(lut)
    ensures |r| == |src|
  {
    Rewritten(src, Pass(src, cov, Blurring(src, w, h, e), Painting(lut, e, m)))
  }

  /** Byte i of a rewritten buffer, read back. */
  lemma RewrittenAt(src: seq<byte>, f: nat -> Pixel, i: nat)
    requires i < |src| && |src| % 4 == 0
    ensures i % 4 == 3 ==> Rewritten(src, f)[i] == src[i]
    ensures i % 4 != 3 ==> 4 * (i / 4) + 3 < |src| && Rewritten(src, f)[i] == Component(f(i / 4), i % 4)
  {
  }

  /** Every pixel of `out` below n holds f's colour and its original alpha. */
  ghost predicate PixelsDone(out: seq<byte>, src: seq<byte>, f: nat -> Pixel, n: nat)
    requires |out| == |src| && 4 * n <= |src|
  {
    forall q :: 0 <= q < n ==>
      && out[4 * q] == f(q).r && out[4 * q + 1] == f(q).g && out[4 * q + 2] == f(q).b
      && out[4 * q + 3] == src[4 * q + 3]
  }

  /** Finishing pixel n extends a buffer done up to n. */
  lemma PixelsDoneStep(prev: seq<byte>, next: seq<byte>, src: seq<byte>, f: nat -> Pixel, n: nat)
    requires |prev| == |src| && |next| == |src| && 4 * n + 4 <= |src|
    requires PixelsDone(prev, src, f, n)
    requires forall j :: 0 <= j < 4 * n ==> next[j] == prev[j]
    requires next[4 * n] == f(n).r && next[4 * n + 1] == f(n).g && next[4 * n + 2] == f(n).b
    requires next[4 * n + 3] == src[4 * n + 3]
    ensures PixelsDone(next, src, f, n + 1)
  {
  }

  /** A buffer done pixel by pixel is the rewritten buffer, byte by byte. */
  lemma PixelsToBytes(out: seq<byte>, src: seq<byte>, f: nat -> Pixel, n: nat)
    requires |out| == |src| && 4 * n == |src|
    requires PixelsDone(out, src, f, n)
    ensures out == Rewritten(src, f)
  {
    forall j | 0 <= j < |out|
      ensures out[j] == Rewritten(src, f)[j]
    {
      var q := j / 4;
      assert j == 4 * q + j % 4;
    }
  }

  /** Replacing every pixel by its own colour gives the buffer back. */
  lemma RewrittenIdentity(src: seq<byte>, f: nat -> Pixel)
    requires |src| % 4 == 0
    requires forall p: nat :: 4 * p + 3 < |src| ==> f(p) == PixelAt(src, p)
    ensures Rewritten(src, f) == src
  {
    forall j | 0 <= j < |src|
      ensures Rewritten(src, f)[j] == src[j]
    {
      var q := j / 4;
      assert j == 4 * q + j % 4;
      RewrittenAt(src, f, j);
    }
  }

  /** The contents of an optional array. */
  function Contents(a: array?<byte>): Option<seq<byte>>
    reads a
  {
    if a == null then None else Some(a[..])
  }

  /**
   * applyEditsToData (lines 268-302): builds the curve table with a
   * temporary curve editor when curve points are given, blurs the whole
   * buffer when clarity is non-zero, then rewrites the colour bytes of
   * every pixel in place.
   */
  method ApplyEdits(data: array<byte>, w: nat, h: nat, e: Adjustments, cov: array?<byte>,
                    curvePts: Option<seq<Point>>, m: ColourMaths)
    requires data.Length == w * h * 4 && cov != data
    requires curvePts.Some? ==> |curvePts.value| >= 2
    modifies data
    ensures data[..] == Edited(old(data[..]), w, h, e, Contents(cov), CurveLut(curvePts), m)
  {
    var curve: Option<seq<byte>> := None;
    if curvePts.Some? {
      var temp := new ToneCurve();
      temp.SetPoints(curvePts.value);
      curve := Some(temp.lut[..]);
    }
    var blurred: array?<byte> := null;
    if e.clarity != 0.0 {
      blurred := BoxBlur(data, w, h, 5);
      assert blurred[..] == BlurImage(data[..], w, h);
    }
    EditPixels(data, cov, blurred, Painting(curve, e, m));
  }

  /**
   * The pixel loop of `applyEditsToData` (lines 275-301), given the
   * coverage, the blurred copy and what to paint over a pixel.
   */
  method EditPixels(data: array<byte>, cov: array?<byte>, blurred: array?<byte>, paint: Painter)
    requires data.Length % 4 == 0 && cov != data && blurred != data
    requires blurred != null ==> blurred.Length == data.Length
    modifies data
    ensures data[..] == Rewritten(old(data[..]), Pass(old(data[..]), Contents(cov), Contents(blurred), paint))
  {
    ghost var src := data[..];
    ghost var f := Pass(src, Contents(cov), Contents(blurred), paint);
    var i := 0;
    ghost var p: nat := 0;
    while i < data.Length
      invariant i == 4 * p && i <= data.Length
      invariant PixelsDone(data[..], src, f, p)
      invariant forall j :: i <= j < data.Length ==> data[j] == src[j]
    {
      assert i / 4 == p && i + 4 <= data.Length by {
        QuadBounds(i, data.Length / 4);
      }
      ghost var prev := data[..];
      EditPixel(data, cov, blurred, paint, i, src);
      PixelsDoneStep(prev, data[..], src, f, p);
      i := i + 4;
      p := p + 1;
    }
    PixelsToBytes(data[..], src, f, p);
  }

  /**
   * One turn of the pixel loop (lines 276-300): skip a pixel without
   * coverage, otherwise paint its three colour bytes; alpha is left alone.
   */
  method EditPixel(data: array<byte>, cov: array?<byte>, blurred: array?<byte>, paint: Painter,
                   i: nat, ghost src: seq<byte>)
    requires |src| == data.Length && cov != data && blurred != data
    requires blurred != null ==> blurred.Length == data.Length
    requires i % 4 == 0 && i + 4 <= data.Length
    requires forall j :: i <= j < i + 4 ==> data[j] == src[j]
    modifies data
    ensures forall j :: 0 <= j < data.Length && !(i <= j < i + 4) ==> data[j] == old(data[j])
    ensures var o := Outcome(src, Contents(cov), Contents(blurred), paint, i / 4);
      data[i] == o.r && data[i + 1] == o.g && data[i + 2] == o.b && data[i + 3] == src[i + 3]
  {
    var p := i / 4;
    assert 4 * p == i;
    var wgt := if cov == null then Full else if p < cov.Length then Part(cov[p]) else Missing;
    assert wgt == WeightOf(Contents(cov), p);
    if wgt != Part(0) {
      var px := Pixel(data[i], data[i + 1], data[i + 2]);
      var blurPx := if blurred == null then None
        else Some(Rgb(blurred[i] as real, blurred[i + 1] as real, blurred[i + 2] as real));
      assert px == PixelAt(src, p);
      assert blurPx == BlurredAt(Contents(blurred), p);
      var out := paint(px, wgt, blurPx);
      data[i] := out.r;
      data[i + 1] := out.g;
      data[i + 2] := out.b;
    }
  }

  // ---------------------------------------------------------------------
  // The render pass order (lines 245-258)
  // ---------------------------------------------------------------------

  /**
   * The mask passes of `render` (lines 255-258): each mask in list order,
   * without a curve, skipping a mask whose coverage is null.
   */
  function MaskPasses(img: seq<byte>, w: nat, h: nat, masks: seq<Mask>, sqrt: real -> real, m: ColourMaths): (r: seq<byte>)
    requires |img| == w * h * 4
    ensures |r| == |img|
    decreases |masks|
  {
    if masks == [] then img
    else
      var c := Coverage(masks[0].shape, w, h, sqrt);
      var next := if c.None? then img else Edited(img, w, h, masks[0].edits, c, None, m);
      MaskPasses(next, w, h, masks[1..], sqrt, m)
  }

  /**
   * What `render` draws for an entry: the global pass with the entry's
   * curve points (line 253), then the mask passes.
   */
  function Composite(base: seq<byte>, w: nat, h: nat, global: Adjustments, curve: seq<Point>,
                     masks: seq<Mask>, sqrt: real -> real, m: ColourMaths): (r: seq<byte>)
    requires |base| == w * h * 4 && |curve| >= 2
    ensures |r| == |base|
  {
    MaskPasses(Edited(base, w, h, global, None, CurveLut(Some(curve)), m), w, h, masks, sqrt, m)
  }

  /**
   * The compositing part of `render` (lines 251-258): a working copy of the
   * base image, edited in place by the global pass and then by each mask
   * whose coverage is not null.
   */
  method RenderPasses(base: seq<byte>, w: nat, h: nat, global: Adjustments, curve: seq<Point>,
                      masks: seq<Mask>, sqrt: real -> real, m: ColourMaths) returns (img: array<byte>)
    requires |base| == w * h * 4 && |curve| >= 2
    ensures fresh(img) && img[..] == Composite(base, w, h, global, curve, masks, sqrt, m)
  {
    img := new byte[|base|](i requires 0 <= i < |base| => base[i]);
    assert img[..] == base;
    ApplyEdits(img, w, h, global, null, Some(curve), m);
    for k := 0 to |masks|
      invariant img.Length == w * h * 4
      invariant MaskPasses(img[..], w, h, masks[k..], sqrt, m) == Composite(base, w, h, global, curve, masks, sqrt, m)
    {
      assert masks[k..][1..] == masks[k + 1..];
      var cov := GenerateMaskPixelData(masks[k], w, h, sqrt);
      if cov != null {
        ApplyEdits(img, w, h, masks[k].edits, cov, None, m);
      }
    }
  }

  // ---------------------------------------------------------------------
  // Properties of one pass
  // ---------------------------------------------------------------------

  /** x * f lies between 0 and x when x is not negative and f is a fraction. */
  lemma ScaleByFraction(x: real, f: real)
    requires 0.0 <= f <= 1.0 && 0.0 <= x
    ensures 0.0 <= x * f <= x
  {
    assert x * f <= x * 1.0;
  }

  /** Moving from lo a fraction f of the way towards v stays between lo and v. */
  lemma Between(lo: real, v: real, f: real)
    requires 0.0 <= f <= 1.0
    ensures RMin(lo, v) <= lo + (v - lo) * f <= RMax(lo, v)
  {
    var d := v - lo;
    var p := d * f;
    assert lo + (v - lo) * f == lo + p;
    if d >= 0.0 {
      ScaleByFraction(d, f);
    } else {
      var q := (-d) * f;
      ScaleByFraction(-d, f);
      assert p == -q;
    }
  }

  /** Storing a number between a byte and v gives a byte between that byte and v stored. */
  lemma StoredBetween(lo: byte, u: real, v: real)
    requires lo as real <= u <= v || v <= u <= lo as real
    ensures Min(lo, ToClamped(v)) <= ToClamped(u) <= Max(lo, ToClamped(v))
  {
    ToClampedOfByte(lo);
    if lo as real <= u <= v {
      ToClampedMonotone(lo as real, u);
      ToClampedMonotone(u, v);
    } else {
      ToClampedMonotone(u, lo as real);
      ToClampedMonotone(v, u);
    }
  }

  /** Storing a point a fraction f of the way from a byte towards v. */
  lemma StoredMix(orig: byte, v: real, f: real)
    requires 0.0 <= f <= 1.0
    ensures Min(orig, ToClamped(v)) <= ToClamped(Mix(orig, v, f)) <= Max(orig, ToClamped(v))
  {
    MixBetween(orig, v, f);
    StoredBetween(orig, Mix(orig, v, f), v);
  }

  /** A mix lies between the original byte and v. */
  lemma MixBetween(orig: byte, v: real, f: real)
    requires 0.0 <= f <= 1.0
    ensures orig as real <= Mix(orig, v, f) <= v || v <= Mix(orig, v, f) <= orig as real
  {
    Between(orig as real, v, f);
  }

  /**
   * A partially covered channel lands between its original byte and the
   * byte full coverage would store: the blend never overshoots.
   */
  lemma BlendBetween(orig: byte, v: real, c: byte)
    ensures Min(orig, ToClamped(v)) <= Blend(orig, v, Part(c)) <= Max(orig, ToClamped(v))
  {
    StoredMix(orig, v, c as real / 255.0);
  }

  /** Coverage 255 blends exactly like no coverage array: the edited value is stored. */
  lemma BlendOpaque(orig: byte, v: real)
    ensures Blend(orig, v, Part(255)) == ToClamped(v)
    ensures Blend(orig, v, Full) == ToClamped(v)
  {
    assert 255 as real / 255.0 == 1.0;
    assert Mix(orig, v, 1.0) == v;
  }

  /** Blending a channel towards its own value stores it unchanged, whatever the coverage. */
  lemma BlendUnchanged(orig: byte, w: Weight)
    requires !w.Missing?
    ensures Blend(orig, orig as real, w) == orig
  {
    ToClampedOfByte(orig);
  }

  /**
   * One pass leaves every alpha byte and every pixel whose coverage byte
   * is 0 as it was, and turns the colour bytes of a pixel beyond the end of
   * a short coverage array to 0.
   */
  lemma EditedSkips(src: seq<byte>, w: nat, h: nat, e: Adjustments, cov: Option<seq<byte>>,
                    lut: Option<seq<byte>>, m: ColourMaths, i: nat)
    requires |src| == w * h * 4 && LutOk(lut) && i < |src|
    ensures i % 4 == 3 ==> Edited(src, w, h, e, cov, lut, m)[i] == src[i]
    ensures WeightOf(cov, i / 4) == Part(0) ==> Edited(src, w, h, e, cov, lut, m)[i] == src[i]
    ensures i % 4 != 3 && WeightOf(cov, i / 4) == Missing ==> Edited(src, w, h, e, cov, lut, m)[i] == 0
  {
    var blur := Blurring(src, w, h, e);
    var f := Pass(src, cov, blur, Painting(lut, e, m));
    RewrittenAt(src, f, i);
    if i % 4 != 3 {
      var p := i / 4;
      assert i == 4 * p + i % 4;
      assert f(p) == Outcome(src, cov, blur, Painting(lut, e, m), p);
    }
  }

  /**
   * A painter under which partial coverage never overshoots: each colour
   * channel painted with coverage c lies between the original channel and
   * the channel painted at full strength.
   */
  ghost predicate Damped(paint: Painter)
  {
    forall px: Pixel, c: byte, b: Option<Rgb>, k: nat {:trigger Component(paint(px, Part(c), b), k)} :: k < 3 ==>
      && Min(Component(px, k), Component(paint(px, Full, b), k)) <= Component(paint(px, Part(c), b), k)
      && Component(paint(px, Part(c), b), k) <= Max(Component(px, k), Component(paint(px, Full, b), k))
  }

  /** The painter of `applyEditsToData` never overshoots. */
  lemma PaintingDamped(lut: Option<seq<byte>>, e: Adjustments, m: ColourMaths)
    requires LutOk(lut)
    ensures Damped(Painting(lut, e, m))
  {
    forall px: Pixel, c: byte, b: Option<Rgb>, k: nat | k < 3
      ensures var paint := Painting(lut, e, m);
        && Min(Component(px, k), Component(paint(px, Full, b), k)) <= Component(paint(px, Part(c), b), k)
        && Component(paint(px, Part(c), b), k) <= Max(Component(px, k), Component(paint(px, Full, b), k))
    {
      ShadeBetween(px, c, b, lut, e, m, k);
    }
  }

  /**
   * Under a painter that never overshoots, each byte of a pass with a
   * coverage array lies between the original byte and the byte of the
   * same pass without one.
   */
  lemma PassBetween(src: seq<byte>, cov: seq<byte>, blur: Option<seq<byte>>, paint: Painter, i: nat)
    requires |src| % 4 == 0 && i < |src| && i / 4 < |cov| && (blur.Some? ==> |blur.value| == |src|)
    requires Damped(paint)
    ensures var full := Rewritten(src, Pass(src, None, blur, paint))[i];
      Min(src[i], full) <= Rewritten(src, Pass(src, Some(cov), blur, paint))[i] <= Max(src[i], full)
  {
    var fPart := Pass(src, Some(cov), blur, paint);
    var fFull := Pass(src, None, blur, paint);
    RewrittenAt(src, fPart, i);
    RewrittenAt(src, fFull, i);
    if i % 4 != 3 {
      var p, k := i / 4, i % 4;
      assert i == 4 * p + k;
      var px := PixelAt(src, p);
      assert src[i] == Component(px, k);
      assert fFull(p) == paint(px, Full, BlurredAt(blur, p));
      if cov[p] != 0 {
        assert fPart(p) == paint(px, Part(cov[p]), BlurredAt(blur, p));
      }
    }
  }

  /**
   * A mask pass is the full-strength pass scaled down: each colour byte
   * under coverage c lies between the original byte and the byte the same
   * edits store with no coverage array.
   */
  lemma EditedBetween(src: seq<byte>, w: nat, h: nat, e: Adjustments, cov: seq<byte>,
                      lut: Option<seq<byte>>, m: ColourMaths, i: nat)
    requires |src| == w * h * 4 && LutOk(lut) && i < |src| && i / 4 < |cov|
    ensures var full := Edited(src, w, h, e, None, lut, m)[i];
      Min(src[i], full) <= Edited(src, w, h, e, Some(cov), lut, m)[i] <= Max(src[i], full)
  {
    PaintingDamped(lut, e, m);
    PassBetween(src, cov, Blurring(src, w, h, e), Painting(lut, e, m), i);
  }

  /** One colour channel of a partly covered pixel lies between the original and full coverage. */
  lemma ShadeBetween(px: Pixel, c: byte, blurred: Option<Rgb>, lut: Option<seq<byte>>, e: Adjustments, m: ColourMaths, k: nat)
    requires LutOk(lut) && k < 3
    ensures var paint := Painting(lut, e, m);
      var full := Component(paint(px, Full, blurred), k);
      Min(Component(px, k), full) <= Component(paint(px, Part(c), blurred), k) <= Max(Component(px, k), full)
  {
    var v := Transformed(e, px, blurred, lut, m);
    var vk := if k == 0 then v.r else if k == 1 then v.g else v.b;
    BlendBetween(Component(px, k), vk, c);
    BlendOpaque(Component(px, k), vk);
  }

  /**
   * The tone step is neutral at the default parameters: exposure factor
   * 2^0 = 1 and contrast factor 1 (lines 272, 281-282), and the
   * highlight, shadow, dehaze and clarity terms are switched off by their
   * zero parameters (lines 284-287).
   */
  ghost predicate NeutralTone(m: ColourMaths)
  {
    forall c :: m.tone(Zero, c, None) == c
  }

  /** A table that maps every level to itself, or no table. */
  predicate IdentityLut(lut: Option<seq<byte>>)
  {
    lut.Some? ==> |lut.value| == 256 && forall k :: 0 <= k < 256 ==> lut.value[k] == k
  }

  /** The default parameters transform every colour into itself. */
  lemma ZeroTransformsNothing(px: Pixel, lut: Option<seq<byte>>, m: ColourMaths)
    requires NeutralTone(m) && IdentityLut(lut)
    ensures Transformed(Zero, px, None, lut, m) == Rgb(px.r as real, px.g as real, px.b as real)
  {
    var c := Curved(px, lut);
    assert c == Rgb(px.r as real, px.g as real, px.b as real);
    assert m.tone(Zero, c, None) == c;
    assert ZoneShift(Luma(c), Zero).sat == 0.0;
    assert Graded(c, Zero, m) == c;
  }

  /**
   * A pass with the default parameters (`getEmptyEdits`), a neutral tone
   * step and no curve or the identity curve leaves the buffer unchanged,
   * as long as every pixel has a coverage byte.
   */
  lemma DefaultPassIsIdentity(src: seq<byte>, w: nat, h: nat, cov: Option<seq<byte>>,
                              lut: Option<seq<byte>>, m: ColourMaths)
    requires |src| == w * h * 4 && LutOk(lut)
    requires NeutralTone(m) && IdentityLut(lut)
    requires cov.Some? ==> |cov.value| >= w * h
    ensures Edited(src, w, h, Zero, cov, lut, m) == src
  {
    var f := Pass(src, cov, Blurring(src, w, h, Zero), Painting(lut, Zero, m));
    forall p: nat | 4 * p + 3 < |src|
      ensures f(p) == PixelAt(src, p)
    {
      var px := PixelAt(src, p);
      ZeroTransformsNothing(px, lut, m);
      var wgt := WeightOf(cov, p);
      assert !wgt.Missing?;
      BlendUnchanged(px.r, wgt);
      BlendUnchanged(px.g, wgt);
      BlendUnchanged(px.b, wgt);
    }
    RewrittenIdentity(src, f);
  }

  // ---------------------------------------------------------------------
  // Properties of the linear colour steps
  // ---------------------------------------------------------------------

  /** t * a + (1 - t) * b lies between a and b for t in [0, 1]. */
  lemma Convex(t: real, a: real, b: real)
    requires 0.0 <= t <= 1.0
    ensures RMin(a, b) <= t * a + (1.0 - t) * b <= RMax(a, b)
  {
    assert t * a + (1.0 - t) * b == b + (a - b) * t;
    Between(b, a, t);
  }

  function RMin(a: real, b: real): real { if a <= b then a else b }
  function RMax(a: real, b: real): real { if a <= b then b else a }

  /** lum / 85 is a fraction for a shadow-zone luminance. */
  lemma ShadowFraction(lum: real)
    requires 0.0 <= lum < 85.0
    ensures 0.0 <= lum / 85.0 <= 1.0
  {
    assert (lum / 85.0) * 85.0 == lum;
  }

  /** (lum - 170) / 85 is a fraction for a highlight-zone luminance. */
  lemma HighlightFraction(lum: real)
    requires 170.0 < lum <= 255.0
    ensures 0.0 <= (lum - 170.0) / 85.0 <= 1.0
  {
    assert ((lum - 170.0) / 85.0) * 85.0 == lum - 170.0;
  }

  /**
   * For a luminance within [0, 255] the saturation shift is a blend of the
   * zone values: it never leaves the range of the shadow, midtone and
   * highlight saturations.
   */
  lemma ZoneSatBetween(lum: real, e: Adjustments)
    requires 0.0 <= lum <= 255.0
    ensures var lo := RMin(e.shadowsSaturation, RMin(e.midtonesSaturation, e.highlightsSaturation));
      var hi := RMax(e.shadowsSaturation, RMax(e.midtonesSaturation, e.highlightsSaturation));
      lo <= ZoneShift(lum, e).sat <= hi
  {
    var sh, mid, hl := e.shadowsSaturation, e.midtonesSaturation, e.highlightsSaturation;
    if lum < 85.0 {
      var t := lum / 85.0;
      ShadowFraction(lum);
      Convex(t, mid, sh);
      assert ZoneShift(lum, e).sat == t * mid + (1.0 - t) * sh;
    } else if lum > 170.0 {
      var t := (lum - 170.0) / 85.0;
      HighlightFraction(lum);
      Convex(1.0 - t, mid, hl);
      assert ZoneShift(lum, e).sat == (1.0 - t) * mid + (1.0 - (1.0 - t)) * hl;
    }
  }

  /**
   * With no zone asking for more saturation, a colour whose luminance is
   * within [0, 255] skips the HSL grade entirely.
   */
  lemma NoGradeWithoutSaturation(c: Rgb, e: Adjustments, m: ColourMaths)
    requires 0.0 <= Luma(c) <= 255.0
    requires e.shadowsSaturation <= 0.0 && e.midtonesSaturation <= 0.0 && e.highlightsSaturation <= 0.0
    ensures Graded(c, e, m) == c
  {
    ZoneSatBetween(Luma(c), e);
  }

  /** The saturation step keeps the mean of the three channels. */
  lemma SaturatedKeepsMean(c: Rgb, saturation: real)
    ensures var d := Saturated(c, saturation); d.r + d.g + d.b == c.r + c.g + c.b
  {
    var factor := 1.0 + saturation / 100.0;
    var avg := (c.r + c.g + c.b) / 3.0;
    assert factor * (c.r - avg) + factor * (c.g - avg) + factor * (c.b - avg)
        == factor * ((c.r + c.g + c.b) - 3.0 * avg);
  }

  /** Saturation -100 turns every colour grey; saturation 0 changes nothing. */
  lemma SaturatedExtremes(c: Rgb)
    ensures var d := Saturated(c, -100.0); d.r == d.g == d.b
    ensures Saturated(c, 0.0) == c
  {
  }

  /** The temperature shift adds up: two shifts are one shift by their sum. */
  lemma WarmedAdds(c: Rgb, a: real, b: real)
    ensures Warmed(Warmed(c, a), b) == Warmed(c, a + b)
    ensures Warmed(c, 0.0) == c
  {
  }

  // ---------------------------------------------------------------------
  // Properties of the pass order
  // ---------------------------------------------------------------------

  /** Running the mask passes over a + b is running them over a, then over b. */
  lemma {:induction false} MaskPassesAppend(img: seq<byte>, w: nat, h: nat, a: seq<Mask>, b: seq<Mask>,
                                            sqrt: real -> real, m: ColourMaths)
    requires |img| == w * h * 4
    ensures MaskPasses(img, w, h, a + b, sqrt, m) == MaskPasses(MaskPasses(img, w, h, a, sqrt, m), w, h, b, sqrt, m)
    decreases |a|
  {
    if a != [] {
      assert (a + b)[1..] == a[1..] + b;
      var c := Coverage(a[0].shape, w, h, sqrt);
      var next := if c.None? then img else Edited(img, w, h, a[0].edits, c, None, m);
      MaskPassesAppend(next, w, h, a[1..], b, sqrt, m);
    } else {
      assert a + b == b;
    }
  }

  /** A mask of an unknown type contributes nothing to the render. */
  lemma UnknownMaskIgnored(base: seq<byte>, w: nat, h: nat, global: Adjustments, curve: seq<Point>,
                           masks: seq<Mask>, extra: Mask, sqrt: real -> real, m: ColourMaths)
    requires |base| == w * h * 4 && |curve| >= 2 && extra.shape.Unknown?
    ensures Composite(base, w, h, global, curve, masks + [extra], sqrt, m)
         == Composite(base, w, h, global, curve, masks, sqrt, m)
  {
    var g := Edited(base, w, h, global, None, CurveLut(Some(curve)), m);
    MaskPassesAppend(g, w, h, masks, [extra], sqrt, m);
  }

  /**
   * A freshly committed radial mask, which carries the default parameters
   * (line 241), leaves the render as it was while its sliders are untouched.
   */
  lemma NewRadialMaskInvisible(base: seq<byte>, w: nat, h: nat, global: Adjustments, curve: seq<Point>,
                               masks: seq<Mask>, id: string, name: string, cx: real, cy: real, rx: real, ry: real,
                               sqrt: real -> real, m: ColourMaths)
    requires |base| == w * h * 4 && |curve| >= 2 && NeutralTone(m)
    ensures Composite(base, w, h, global, curve, masks + [Mask(id, name, Radial(cx, cy, rx, ry), Zero)], sqrt, m)
         == Composite(base, w, h, global, curve, masks, sqrt, m)
  {
    var g := Edited(base, w, h, global, None, CurveLut(Some(curve)), m);
    var extra := Mask(id, name, Radial(cx, cy, rx, ry), Zero);
    MaskPassesAppend(g, w, h, masks, [extra], sqrt, m);
    var before := MaskPasses(g, w, h, masks, sqrt, m);
    var c := Coverage(extra.shape, w, h, sqrt);
    DefaultPassIsIdentity(before, w, h, c, None, m);
    assert [extra][1..] == [];
  }

  /** Sorting the default points keeps them as they are. */
  lemma DefaultPointsSorted()
    ensures SortPts(DefaultPoints) == DefaultPoints
  {
    assert DefaultPoints[1..] == [Point(255, 0)];
    assert SortPts([Point(255, 0)]) == [Point(255, 0)] by {
      assert [Point(255, 0)][1..] == [];
    }
  }

  /**
   * A freshly loaded image with default parameters and no masks renders
   * as the image itself: the default curve and the default sliders change
   * nothing.
   */
  lemma DefaultRenderIsBase(base: seq<byte>, w: nat, h: nat, sqrt: real -> real, m: ColourMaths)
    requires |base| == w * h * 4 && NeutralTone(m)
    ensures Composite(base, w, h, Zero, DefaultPoints, [], sqrt, m) == base
  {
    DefaultPointsSorted();
    forall k | 0 <= k < 256 ensures Lut(DefaultPoints)[k] == k {
      DefaultLutIsIdentity(k);
    }
    DefaultPassIsIdentity(base, w, h, None, CurveLut(Some(DefaultPoints)), m);
  }
}
