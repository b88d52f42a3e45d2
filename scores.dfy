/** Shared vocabulary of the two legacy detectors: the result record that every
    `detect` returns, an Option for a value a library call may fail to produce,
    and Python's `min`/`max` on floats, modelled exactly on `real`. */
module Scores {

  datatype Option<T> = None | Some(value: T)

  /** A statistic a numeric library computes that is never negative: a standard
      deviation, or a mean of `log(|x| + 1)` magnitudes. */
  type NonNeg = r: real | r >= 0.0

  /** The dictionary `{"ai_probability": ..., "confidence": ..., "analysis": ...}`
      both detectors return; `A` is the detector's own analysis payload. */
  datatype Detection<A> = Detection(aiProbability: real, confidence: real, analysis: A)

  /** Python's `min(a, b)`: the first argument unless the second is smaller. */
  function Min(a: real, b: real): (r: real)
    ensures r <= a && r <= b
    ensures r == a || r == b
  {
    if b < a then b else a
  }

  /** Python's `max(a, b)`: the first argument unless the second is larger. */
  function Max(a: real, b: real): (r: real)
    ensures r >= a && r >= b
    ensures r == a || r == b
  {
    if b > a then b else a
  }

  /** `min(hi, max(lo, x))`, the clamp the text detector writes; the image
      detector writes `max(lo, min(hi, x))`, which agrees with it whenever
      `lo <= hi` (see ClampOrder). */
  function Clamp(x: real, lo: real, hi: real): (r: real)
    requires lo <= hi
    ensures lo <= r <= hi
    ensures lo <= x <= hi ==> r == x
    ensures x < lo ==> r == lo
    ensures hi < x ==> r == hi
  {
    Min(hi, Max(lo, x))
  }

  lemma ClampOrder(x: real, lo: real, hi: real)
    requires lo <= hi
    ensures Max(lo, Min(hi, x)) == Clamp(x, lo, hi)
  {
  }

  /** A part over a positive whole is a fraction, 0 exactly for an empty part
      and 1 exactly for the whole. */
  lemma RatioBounds(part: real, whole: real)
    requires 0.0 <= part <= whole && whole > 0.0
    ensures 0.0 <= part / whole <= 1.0
    ensures part / whole == 0.0 <==> part == 0.0
    ensures part / whole == 1.0 <==> part == whole
  {
    var q := part / whole;
    assert q * whole == part;
  }

  /** A quotient of at least its positive divisor is at least 1. */
  lemma RatioAtLeastOne(part: real, whole: real)
    requires part >= whole > 0.0
    ensures part / whole >= 1.0
  {
    var q := part / whole;
    assert q * whole == part;
  }

  /** Dividing and multiplying back by a non-zero divisor gives the
      numerator again. */
  lemma QuotientTimesDivisor(num: real, den: real)
    requires den != 0.0
    ensures num / den * den == num
  {
  }

  lemma QuotientNonNeg(num: real, den: real)
    requires num >= 0.0 && den > 0.0
    ensures num / den >= 0.0
    ensures num / den == 0.0 <==> num == 0.0
  {
    var q := num / den;
    assert q * den == num;
  }

  /** Averaging `n` copies of `c` gives `c`. */
  lemma MeanOfCopies(n: nat, c: real, total: real)
    requires n > 0 && total == n as real * c
    ensures total / n as real == c
  {
  }

  lemma RealProduct(a: nat, b: nat)
    ensures (a * b) as real == a as real * b as real
  {
  }

  /** A whole-number total of `n` copies of `c`, averaged, gives `c`. */
  lemma MeanOfTotal(total: nat, n: nat, c: nat)
    requires n > 0 && total == n * c
    ensures total as real / n as real == c as real
  {
    RealProduct(n, c);
    MeanOfCopies(n, c as real, total as real);
  }

  lemma DivideByOne(x: real, one: real)
    requires one == 1.0
    ensures x / one == x
  {
  }

  /** A product of non-negative numbers is zero exactly when a factor is. */
  lemma ProductZero(a: real, b: real)
    requires a >= 0.0 && b >= 0.0
    ensures a * b == 0.0 <==> a == 0.0 || b == 0.0
  {
    if a > 0.0 && b > 0.0 {
      assert a * b > 0.0;
    }
  }

  /** The only non-negative square root of zero is zero. */
  lemma SquareZero(x: real)
    requires x >= 0.0
    ensures x * x == 0.0 <==> x == 0.0
  {
    ProductZero(x, x);
  }

  /** A square is never negative and is zero only for zero. */
  lemma SquareNonNeg(d: real)
    ensures d * d >= 0.0
    ensures d * d == 0.0 ==> d == 0.0
  {
    var e := if d >= 0.0 then d else -d;
    assert e * e == d * d;
    ProductZero(e, e);
    ProductNonNeg(e, e);
  }

  lemma ProductNonNeg(a: real, b: real)
    requires a >= 0.0 && b >= 0.0
    ensures a * b >= 0.0
  {
  }

  function Min4(a: real, b: real, c: real, d: real): real
  {
    Min(Min(a, b), Min(c, d))
  }

  function Max4(a: real, b: real, c: real, d: real): real
  {
    Max(Max(a, b), Max(c, d))
  }

  predicate InUnit(x: real)
  {
    0.0 <= x <= 1.0
  }

  /** The number of thresholds of `ts` that `n` reaches. */
  function Crossed(n: nat, ts: seq<nat>): (k: nat)
    ensures k <= |ts|
  {
    if ts == [] then 0 else (if n >= ts[0] then 1 else 0) + Crossed(n, ts[1..])
  }

  /** Reaching more is never crossing fewer thresholds. */
  lemma {:induction false} CrossedMonotone(n: nat, m: nat, ts: seq<nat>)
    requires n <= m
    ensures Crossed(n, ts) <= Crossed(m, ts)
  {
    if ts != [] {
      CrossedMonotone(n, m, ts[1..]);
    }
  }
}
