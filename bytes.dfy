/**
 * Channel bytes as stored in a `Uint8ClampedArray` (the pixel buffers, the
 * tone-curve lookup table, mask coverage and the blurred copy all use one).
 */
module Bytes {

  /** One element of a `Uint8ClampedArray`. */
  type byte = b: int | 0 <= b < 256

  /**
   * The conversion a `Uint8ClampedArray` applies to every number stored in
   * it: values at or below 0 become 0, values at or above 255 become 255,
   * anything in between is rounded to the nearest integer, ties to even.
   */
  function ToClamped(v: real): (r: byte)
    ensures v <= 0.0 ==> r == 0
    ensures v >= 255.0 ==> r == 255
    ensures 0.0 <= v <= 255.0 ==> -0.5 <= r as real - v <= 0.5
  {
    if v <= 0.0 then 0
    else if v >= 255.0 then 255
    else
      var f := v.Floor;
      var frac := v - f as real;
      if frac < 0.5 then f
      else if frac > 0.5 then f + 1
      else if f % 2 == 0 then f else f + 1
  }

  /** Storing a number that already is a byte keeps it. */
  lemma ToClampedOfByte(b: byte)
    ensures ToClamped(b as real) == b
  {
  }

  /**
   * Storing a value that lies between two bytes gives a byte between them:
   * rounding never leaves the interval spanned by integer bounds.
   */
  lemma ToClampedBetween(v: real, lo: byte, hi: byte)
    requires lo as real <= v <= hi as real
    ensures lo <= ToClamped(v) <= hi
  {
    var r := ToClamped(v);
    assert r as real >= v - 0.5 >= lo as real - 0.5;
    assert r as real <= v + 0.5 <= hi as real + 0.5;
  }

  /** Storing preserves order: a larger number never becomes a smaller byte. */
  lemma ToClampedMonotone(u: real, v: real)
    requires u <= v
    ensures ToClamped(u) <= ToClamped(v)
  {
  }
}
