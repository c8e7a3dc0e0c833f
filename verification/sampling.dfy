/**
 The two pieces of arithmetic the ball spawner applies to the host's uniform
 random source: the range mapping `Game.random(min, max)` and the texture
 number drawn for each ball. The random source itself is not modelled; every
 draw is a parameter of type `Sample`, a real number in [0, 1).
 */
module Sampling {

  /** One value of the host's uniform random source: a real in [0, 1). */
  type Sample = u: real | 0.0 <= u < 1.0

  /** Number of ball textures the index expression is written against. */
  const TextureCount: int := 15

  /** `random(min, max)`: scales a sample onto the interval spanned by the two
      bounds. With the bounds in increasing order the result lies in
      [min, max); with them reversed it lies in (max, min]; equal bounds
      pin it to that bound. */
  function Random(u: Sample, min: real, max: real): (r: real)
    ensures min < max ==> min <= r < max
    ensures max < min ==> max < r <= min
    ensures min == max ==> r == min
  {
    var range := max - min;
    if range < 0.0 then
      ScaleBelowNegative(u, range);
      u * range + min
    else
      ScaleBelow(u, range);
      u * range + min
  }

  /** Scaling by a sample in [0, 1) keeps a value on the same side of zero
      and strictly shorter than the scaled range. */
  lemma ScaleBelow(u: Sample, range: real)
    ensures 0.0 < range ==> 0.0 <= u * range < range
    ensures range < 0.0 ==> range < u * range <= 0.0
  {
    if 0.0 < range {
      assert u * range < 1.0 * range;
    } else if range < 0.0 {
      assert 1.0 * range < u * range;
    }
  }

  /** The reversed-bounds case of `ScaleBelow`, by symmetry. */
  lemma ScaleBelowNegative(u: Sample, range: real)
    requires range < 0.0
    ensures range < u * range <= 0.0
  {
    ScaleBelow(u, -range);
    assert u * range == -(u * -range);
  }

  /** Scaling by a factor of at least one moves a value away from zero. */
  lemma ScaleAbove(f: real, range: real)
    ensures 1.0 <= f && 0.0 < range ==> range <= f * range
    ensures 1.0 <= f && range < 0.0 ==> f * range <= range
    ensures 0.0 <= f && 0.0 < range ==> 0.0 <= f * range
    ensures 0.0 <= f && range < 0.0 ==> f * range <= 0.0
  {
  }

  /** A quotient of two values on the same side of zero, the numerator the
      shorter, lies in [0, 1). */
  lemma QuotientInUnitInterval(a: real, d: real)
    requires (0.0 <= a < d) || (d < a <= 0.0)
    ensures 0.0 <= a / d < 1.0
  {
    var q := a / d;
    assert q * d == a;
    ScaleAbove(q, d);
    ScaleAbove(-q, d);
    if 0.0 < d {
      assert 1.0 <= q ==> d <= q * d;
      assert q < 1.0;
    } else {
      assert 1.0 <= q ==> q * d <= d;
      assert q < 1.0;
    }
  }

  /** The sample that makes `Random` produce `v`: every value of the open
      side of the interval is reached, so the mapping loses nothing. */
  function Unrandom(v: real, min: real, max: real): (u: Sample)
    requires min < max ==> min <= v < max
    requires max < min ==> max < v <= min
    requires min != max
    ensures Random(u, min, max) == v
  {
    var q := (v - min) / (max - min);
    QuotientInUnitInterval(v - min, max - min);
    q
  }

  /** The texture number of one ball, `floor(u * (15 - 1) + 1)`. It is an
      integer from 1 to 14, so the texture numbered 15 is never chosen. */
  function TextureIndex(u: Sample): (k: int)
    ensures 1 <= k <= TextureCount - 1
    ensures k != TextureCount
  {
    var scaled := u * (TextureCount - 1) as real + 1.0;
    assert scaled < TextureCount as real;
    scaled.Floor
  }

  /** Every texture number from 1 to 14 is drawn by some sample, the one at
      the lower edge of its band of width 1/14. */
  lemma TextureIndexCovers(k: int)
    requires 1 <= k <= TextureCount - 1
    ensures TextureIndex(((k - 1) as real) / ((TextureCount - 1) as real)) == k
  {
  }
}
