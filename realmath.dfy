/**
 * Exact real-number stand-ins for the JavaScript `Math` functions the
 * normal-map generator calls. The generator works on IEEE-754 doubles; this
 * model works on Dafny's unbounded `real`s, so it describes the intended
 * arithmetic and makes no bit-exact claim.
 */
module RealMath {

  /** `Math.round`: the nearest integer, with halves rounded up (towards +infinity). */
  function Round(v: real): (n: int)
    ensures v - 0.5 < n as real <= v + 0.5
  {
    (v + 0.5).Floor
  }

  /** True when `v` is exactly halfway between two integers, where `Round` breaks the tie upwards. */
  predicate IsTie(v: real)
  {
    (v + 0.5).Floor as real == v + 0.5
  }

  /**
   * What the generator relies on from `Math.sqrt`: on a non-negative argument
   * it returns the non-negative square root. The square root is a parameter of
   * the model rather than a definition, because Dafny cannot construct it.
   */
  ghost predicate IsSqrt(sqrt: real -> real)
  {
    forall v: real :: 0.0 <= v ==> 0.0 <= sqrt(v) && sqrt(v) * sqrt(v) == v
  }

  /** The square root of anything at least 1 is at least 1; in particular sqrt(1) == 1. */
  lemma SqrtAtLeastOne(sqrt: real -> real, v: real)
    requires IsSqrt(sqrt)
    requires 1.0 <= v
    ensures 1.0 <= sqrt(v)
    ensures v == 1.0 ==> sqrt(v) == 1.0
  {
    var s := sqrt(v);
    assert 0.0 <= s && s * s == v;
    if s < 1.0 {
      assert false;
    }
    assert s <= s * s == v;
  }

  /**
   * Rounding a value reflected about 255 gives the reflected rounding, except
   * at a tie, where rounding half up moves both results up by one.
   */
  lemma {:induction false} RoundReflect(v: real)
    ensures !IsTie(v) ==> Round(255.0 - v) == 255 - Round(v)
    ensures IsTie(v) ==> Round(255.0 - v) == 256 - Round(v)
  {
    var k := Round(v);
    var t := v + 0.5;
    assert k == t.Floor;
    assert (255.0 - v) + 0.5 == 256.0 - t;
    if IsTie(v) {
      assert t == k as real;
      assert (256.0 - t).Floor == 256 - k;
    } else {
      assert k as real < t < k as real + 1.0;
      assert (255 - k) as real < 256.0 - t < (256 - k) as real;
      assert (256.0 - t).Floor == 255 - k;
    }
  }

  /** Multiplying by a non-negative factor keeps an inequality. */
  lemma MulMonotone(k: real, a: real, b: real)
    requires 0.0 <= k && a <= b
    ensures k * a <= k * b
  {
    assert k * b - k * a == k * (b - a);
  }

  /** Squaring is monotone on non-negative values. */
  lemma SquareMonotone(a: real, b: real)
    requires 0.0 <= a <= b
    ensures a * a <= b * b
  {
    MulMonotone(a, a, b);
    MulMonotone(b, a, b);
  }

  /** A square below the square of a non-negative bound puts the value strictly within the bound. */
  lemma SquareBelow(a: real, b: real)
    requires 0.0 <= b && a * a < b * b
    ensures -b < a < b
  {
    if a >= b {
      SquareMonotone(b, a);
      assert false;
    }
    if a <= -b {
      SquareMonotone(b, -a);
      assert false;
    }
  }

  /** A value strictly within a positive bound, divided by the bound, lies strictly within [-1, 1]. */
  lemma QuotientBelowOne(a: real, b: real)
    requires 0.0 < b && -b < a < b
    ensures -1.0 < a / b < 1.0
  {
    var q := a / b;
    assert q * b == a;
    if q >= 1.0 {
      MulMonotone(b, 1.0, q);
      assert false;
    }
    if q <= -1.0 {
      MulMonotone(b, q, -1.0);
      assert false;
    }
  }

  /** A common positive factor cancels from both sides of an equation. */
  lemma CancelPositive(k: real, a: real, b: real)
    requires 0.0 < k && k * a == k * b
    ensures a == b
  {
    assert k * (a - b) == 0.0;
  }
}
