/**
 The proximity test of one frame: the fingertip is "too close" when its
 Euclidean distance from the chin is strictly below three quarters of the
 face width. The square root and the float product are removed exactly:
 both sides are non-negative, so comparing them is the same as comparing
 their squares.
 */
module Proximity {
  import opened Geometry

  /** Fraction of the face width within which the fingertip counts as too close. */
  const DistanceThresholdFactor: real := 0.75

  /** Squared Euclidean distance between two pixels. */
  function SquaredDistance(a: Pixel, b: Pixel): (d2: nat)
    ensures d2 == 0 <==> a == b
  {
    var dx := a.x - b.x;
    var dy := a.y - b.y;
    SquareNonNegative(dx);
    SquareNonNegative(dy);
    dx * dx + dy * dy
  }

  lemma SquareNonNegative(n: int)
    ensures n * n >= 0
    ensures n * n == 0 <==> n == 0
  {
    if n < 0 {
      assert n * n == (-n) * (-n);
    }
  }

  /** The threshold distance in pixels for a face of width `fw`. It is never
      negative, is zero only for a zero-width face, and never exceeds the face
      width itself. */
  function Threshold(fw: nat): (t: real)
    ensures 0.0 <= t <= fw as real
    ensures t == 0.0 <==> fw == 0
  {
    fw as real * DistanceThresholdFactor
  }

  /** A non-negative `d` whose square is the squared pixel distance: the
      Euclidean distance `sqrt(dx^2 + dy^2)` between `a` and `b`. */
  ghost predicate IsDistance(d: real, a: Pixel, b: Pixel)
  {
    0.0 <= d && d * d == SquaredDistance(a, b) as real
  }

  /** The fingertip is too close to the chin: distance strictly below the
      threshold, compared as squares. Only a face of positive width can have
      a fingertip too close to it. */
  predicate TooClose(chin: Pixel, tip: Pixel, fw: nat)
    ensures TooClose(chin, tip, fw) ==> 0 < fw
  {
    SquaredDistance(chin, tip) as real < Threshold(fw) * Threshold(fw)
  }

  /** For non-negative reals, `<` agrees with `<` on their squares. */
  lemma SquareMonotone(a: real, b: real)
    requires 0.0 <= a && 0.0 <= b
    ensures a < b <==> a * a < b * b
  {
    if a < b {
      SquareStrict(a, b);
    } else {
      SquareWeak(b, a);
    }
  }

  lemma SquareStrict(a: real, b: real)
    requires 0.0 <= a < b
    ensures a * a < b * b
  {
    var aa, ab, bb := a * a, a * b, b * b;
    assert aa <= ab;
    assert ab < bb;
  }

  lemma SquareWeak(a: real, b: real)
    requires 0.0 <= a <= b
    ensures a * a <= b * b
  {
    var aa, ab, bb := a * a, a * b, b * b;
    assert aa <= ab;
    assert ab <= bb;
  }

  /** The squared test decides exactly what the guard's main loop tests as
      `dist < threshold`, with `dist` the true Euclidean distance. */
  lemma TooCloseIsEuclidean(chin: Pixel, tip: Pixel, fw: nat, d: real)
    requires IsDistance(d, chin, tip)
    ensures TooClose(chin, tip, fw) <==> d < Threshold(fw)
  {
    SquareMonotone(d, Threshold(fw));
  }

  /** The comparison is strict: a fingertip exactly at the threshold
      distance is not too close. */
  lemma AtThresholdNotTooClose(chin: Pixel, tip: Pixel, fw: nat, d: real)
    requires IsDistance(d, chin, tip)
    requires d == Threshold(fw)
    ensures !TooClose(chin, tip, fw)
  {
    TooCloseIsEuclidean(chin, tip, fw, d);
  }

  /** The proximity test in integers, for the factor 0.75:
      `16 * (dx^2 + dy^2) < 9 * fw^2`. */
  predicate WithinThreeQuarters(chin: Pixel, tip: Pixel, fw: nat)
  {
    16 * SquaredDistance(chin, tip) < 9 * fw * fw
  }

  /** The real-valued test and the integer test agree. */
  lemma TooCloseIntegerForm(chin: Pixel, tip: Pixel, fw: nat)
    ensures TooClose(chin, tip, fw) <==> WithinThreeQuarters(chin, tip, fw)
  {
    var d2 := SquaredDistance(chin, tip);
    var f := fw as real;
    assert Threshold(fw) * Threshold(fw) == 9.0 * f * f / 16.0;
    assert (9 * fw * fw) as real == 9.0 * f * f;
    assert (16 * d2) as real == 16.0 * d2 as real;
  }

  /** A zero-width face never has a fingertip too close to it, wherever the
      fingertip is (even on the chin itself). */
  lemma ZeroWidthNeverTooClose(chin: Pixel, tip: Pixel)
    ensures !TooClose(chin, tip, 0)
  {
  }
}
