/** Conversion of the detector's normalised coordinates to pixels: Python's
    int() applied to coordinate * dimension. */
module Geometry {

  /** Python's int() on a number: truncation toward zero. */
  function Trunc(x: real): (r: int)
    ensures 0.0 <= x ==> r as real <= x < r as real + 1.0
    ensures x < 0.0 ==> r as real - 1.0 < x <= r as real
  {
    if x >= 0.0 then x.Floor else -((-x).Floor)
  }

  lemma TruncMonotone(a: real, b: real)
    requires a <= b
    ensures Trunc(a) <= Trunc(b)
  {
    if 0.0 <= a {
      assert Trunc(a) as real <= a <= b < Trunc(b) as real + 1.0;
    } else if b < 0.0 {
      assert Trunc(a) as real - 1.0 < a <= b <= Trunc(b) as real;
    }
  }

  /** int(c * d): the pixel of normalised coordinate c along a dimension of d pixels. */
  function ToPixel(c: real, d: nat): (p: int)
    ensures 0.0 <= c <= 1.0 ==> 0 <= p <= d
  {
    if 0.0 <= c <= 1.0 then
      ScaleWithin(c, d as real);
      Trunc(c * d as real)
    else
      Trunc(c * d as real)
  }

  lemma ScaleWithin(c: real, d: real)
    requires 0.0 <= c <= 1.0 && 0.0 <= d
    ensures 0.0 <= c * d <= d
  {
    assert d - c * d == (1.0 - c) * d;
  }

  /** A larger normalised coordinate never lands on an earlier pixel. */
  lemma PixelMonotone(c1: real, c2: real, d: nat)
    requires c1 <= c2
    ensures ToPixel(c1, d) <= ToPixel(c2, d)
  {
    assert c1 * d as real <= c2 * d as real;
    TruncMonotone(c1 * d as real, c2 * d as real);
  }

  /** A pixel coordinate taken to a fraction of the dimension and back is
      recovered exactly. */
  lemma PixelRoundTrip(p: int, d: nat)
    requires 0 < d && 0 <= p <= d
    ensures ToPixel(p as real / d as real, d) == p
  {
    assert (p as real / d as real) * d as real == p as real;
  }

  /** A normalised coordinate taken to a pixel and back drifts down by less
      than one pixel's width. */
  lemma PixelDrift(c: real, d: nat)
    requires 0.0 <= c && 0 < d
    ensures var p := ToPixel(c, d) as real;
      p / d as real <= c < (p + 1.0) / d as real
  {
    var dr := d as real;
    var p := ToPixel(c, d) as real;
    assert p <= c * dr < p + 1.0;
    DivideBoth(p, c * dr, dr);
    DivideBoth(c * dr, p + 1.0, dr);
    assert (c * dr) / dr == c;
    assert c * dr != p + 1.0;
    assert (c * dr) / dr != (p + 1.0) / dr;
  }

  lemma DivideBoth(x: real, y: real, d: real)
    requires x <= y && 0.0 < d
    ensures x / d <= y / d
  {
    var inv := 1.0 / d;
    assert x / d == x * inv && y / d == y * inv;
    assert (y - x) * inv >= 0.0;
  }
}
