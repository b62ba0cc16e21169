/**
 Geometry of one camera frame: landmarks reported by the detector are
 normalised coordinates, and the guard turns them into integer pixel
 coordinates by multiplying with the frame size and truncating, exactly as
 Python's `int(...)` does on a float.
 */
module Geometry {

  /** A detector landmark in normalised image coordinates (nominally [0, 1]). */
  datatype Landmark = Landmark(x: real, y: real)

  /** The landmark lies in the unit square. */
  predicate Normalised(p: Landmark)
  {
    0.0 <= p.x <= 1.0 && 0.0 <= p.y <= 1.0
  }

  /** A point in pixel coordinates. */
  datatype Pixel = Pixel(x: int, y: int)

  /** Truncation toward zero, which is what Python's `int` does to a float
      (not the floor: `int(-2.5) == -2`). */
  function Trunc(r: real): (t: int)
    ensures 0.0 <= r ==> 0 <= t && t as real <= r < t as real + 1.0
    ensures r < 0.0 ==> t <= 0 && t as real - 1.0 < r <= t as real
  {
    if r >= 0.0 then r.Floor else -((-r).Floor)
  }

  function Abs(n: int): nat
  {
    if n < 0 then -n else n
  }

  function RealAbs(r: real): real
  {
    if r < 0.0 then -r else r
  }

  /** `t` is `r` rounded toward zero: it has the sign of `r` (or is zero)
      and is the whole part of its magnitude. */
  predicate TruncatesTo(r: real, t: int)
  {
    && (0.0 <= r ==> 0 <= t)
    && (r <= 0.0 ==> t <= 0)
    && RealAbs(t as real) <= RealAbs(r) < RealAbs(t as real) + 1.0
  }

  /** Rounding toward zero has exactly one result, and `Trunc` computes it. */
  lemma {:induction false} TruncatesToUnique(r: real, t: int)
    ensures TruncatesTo(r, t) <==> t == Trunc(r)
  {
    if TruncatesTo(r, t) {
      var u := Trunc(r);
      if 0.0 <= r {
        assert u as real <= r < t as real + 1.0;
        assert t as real <= r < u as real + 1.0;
      } else {
        assert t as real - 1.0 < r <= u as real;
        assert u as real - 1.0 < r <= t as real;
      }
    }
  }

  /** Truncation commutes with negation; the floor would not. */
  lemma TruncOdd(r: real)
    ensures Trunc(-r) == -Trunc(r)
  {
  }

  /** `px` is landmark `p` scaled to a `w` by `h` frame, each coordinate
      rounded toward zero. */
  predicate ScaledTo(p: Landmark, w: nat, h: nat, px: Pixel)
  {
    TruncatesTo(p.x * w as real, px.x) && TruncatesTo(p.y * h as real, px.y)
  }

  /** The pixel a landmark falls on in a frame of `w` by `h` pixels: each
      coordinate scaled by the frame size and rounded toward zero. */
  function ToPixel(p: Landmark, w: nat, h: nat): (px: Pixel)
    ensures ScaledTo(p, w, h, px)
  {
    Pixel(Trunc(p.x * w as real), Trunc(p.y * h as real))
  }

  lemma ScaleWithin(c: real, n: nat)
    requires 0.0 <= c <= 1.0
    ensures 0.0 <= c * n as real <= n as real
  {
    assert c * n as real <= 1.0 * n as real;
  }

  /** A landmark inside the normalised unit square lands on a pixel inside
      the frame (the far edge included, since `1.0 * w == w`). */
  lemma PixelInFrame(p: Landmark, w: nat, h: nat)
    requires Normalised(p)
    ensures 0 <= ToPixel(p, w, h).x <= w
    ensures 0 <= ToPixel(p, w, h).y <= h
  {
    var px := ToPixel(p, w, h);
    CoordinateInFrame(p.x, w, px.x);
    CoordinateInFrame(p.y, h, px.y);
  }

  /** One coordinate in [0, 1], scaled to `n` pixels and rounded toward zero,
      lands in [0, n]. */
  lemma CoordinateInFrame(c: real, n: nat, t: int)
    requires 0.0 <= c <= 1.0 && TruncatesTo(c * n as real, t)
    ensures 0 <= t <= n
  {
    var r := c * n as real;
    assert 0.0 <= r <= n as real by {
      ScaleWithin(c, n);
    }
    TruncatedWithin(r, t, n);
  }

  lemma TruncatedWithin(r: real, t: int, n: nat)
    requires TruncatesTo(r, t) && 0.0 <= r <= n as real
    ensures 0 <= t <= n
  {
  }

  /** `fw` is the whole number of pixels in the horizontal span between
      `left` and `right`, in a frame `w` pixels wide. */
  predicate SpanWidth(left: Landmark, right: Landmark, w: nat, fw: nat)
  {
    fw as real <= RealAbs((right.x - left.x) * w as real) < fw as real + 1.0
  }

  /** Face width in pixels: the absolute value of the truncated horizontal
      span between the two face-width reference landmarks. It is the whole
      number of pixels the span covers, whichever way round the two
      landmarks are. */
  function FaceWidth(left: Landmark, right: Landmark, w: nat): (fw: nat)
    ensures SpanWidth(left, right, w, fw)
  {
    var span := (right.x - left.x) * w as real;
    TruncMagnitude(span);
    Abs(Trunc(span))
  }

  /** The magnitude of a truncation is the whole part of the magnitude. */
  lemma TruncMagnitude(r: real)
    ensures Abs(Trunc(r)) as real <= RealAbs(r) < Abs(Trunc(r)) as real + 1.0
  {
  }

  /** Swapping the two reference landmarks does not change the face width. */
  lemma FaceWidthSymmetric(left: Landmark, right: Landmark, w: nat)
    ensures FaceWidth(left, right, w) == FaceWidth(right, left, w)
  {
    var span := (right.x - left.x) * w as real;
    assert (left.x - right.x) * w as real == -span;
    TruncOdd(span);
  }

  /** With both reference landmarks inside the unit square, the face is no
      wider than the frame. */
  lemma FaceWidthBounded(left: Landmark, right: Landmark, w: nat)
    requires 0.0 <= left.x <= 1.0 && 0.0 <= right.x <= 1.0
    ensures FaceWidth(left, right, w) <= w
  {
    var d := right.x - left.x;
    var a := RealAbs(d);
    assert 0.0 <= a <= 1.0;
    ScaleWithin(a, w);
    AbsScale(d, w);
    var span := RealAbs(d * w as real);
    assert span <= w as real;
    var fw := FaceWidth(left, right, w);
    assert fw as real <= span;
  }

  lemma AbsScale(d: real, n: nat)
    ensures RealAbs(d * n as real) == RealAbs(d) * n as real
  {
    if d < 0.0 {
      assert d * n as real == -((-d) * n as real);
      assert (-d) * n as real >= 0.0;
    } else {
      assert d * n as real >= 0.0;
    }
  }
}
