/**
 The script divides in double precision and takes ceilings. For the amounts that occur, rounding the quotient to
 a nearest double does not change its ceiling.
 */
module Doubles {
  import opened Util
  import opened TokenBucket
  import opened BucketTheory

  /** m / 2^k */
  function Scaled(m: int, k: nat): real
  {
    Power2Positive(k);
    m as real / Power2(k) as real
  }

  /** The doubles of magnitude at most 2^53: a significand of 53 bits, scaled down by at most 2^1074. */
  ghost predicate Double(v: real) { exists m: int, k: nat :: -TWO_53 <= m <= TWO_53 && k <= 1074 && v == Scaled(m, k) }

  function Distance(a: real, b: real): real { if a <= b then b - a else a - b }

  /** v is q rounded to nearest, ties either way. */
  ghost predicate Nearest(q: real, v: real) { Double(v) && forall w :: Double(w) ==> Distance(v, q) <= Distance(w, q) }

  function Ceiling(v: real): int { -((-v).Floor) }

  function Quotient(x: int, y: int): real
    requires y > 0
  {
    x as real / y as real
  }

  lemma IntegersAreDoubles(n: int)
    requires -TWO_53 <= n <= TWO_53
    ensures Double(n as real)
  {
    assert n as real == Scaled(n, 0);
  }

  /** The scale at which n has a significand just below 2^53. */
  lemma {:induction false} ScaleOf(n: nat, k: nat) returns (s: nat)
    requires 1 <= n && n * Power2(k) < TWO_53 && k <= 53
    ensures k <= s <= 53 && n * Power2(s) < TWO_53 <= n * Power2(s + 1)
    decreases 53 - k
  {
    assert n * Power2(k + 1) == 2 * (n * Power2(k));
    if n * Power2(k + 1) >= TWO_53 {
      s := k;
    } else {
      BelowLimit(n, k);
      s := ScaleOf(n, k + 1);
    }
  }

  lemma BelowLimit(n: nat, k: nat)
    requires 1 <= n && n * Power2(k) < TWO_53 && k <= 53
    ensures k < 53
  {
    Multiply(Power2(k), 1, n);
    Power2Of53();
  }

  lemma Power2Of53()
    ensures Power2(53) == TWO_53
  {
    assert Power2(10) == 1024;
    assert Power2(20) == 1024 * 1024;
    assert Power2(30) == 1024 * 1024 * 1024;
    assert Power2(40) == 1024 * 1024 * 1024 * 1024;
    assert Power2(50) == 1024 * 1024 * 1024 * 1024 * 1024;
  }

  /** A scale fine enough to tell n from any fraction with denominator y above it. */
  lemma FineScale(n: nat, x: nat, y: nat) returns (k: nat)
    requires 1 <= y <= TWO_53 && x <= TWO_53 && n * y < x
    ensures k <= 1074 && y < Power2(k + 1) && n * Power2(k) + 1 <= TWO_53
  {
    if n == 0 {
      k := 53;
      Power2Of53();
      assert Power2(k + 1) == 2 * Power2(k);
    } else {
      GrowsByFactor(n, y);
      k := ScaleOf(n, 0);
      Finer(n, Power2(k + 1), y, x);
    }
  }

  lemma Finer(n: nat, t: int, y: int, x: int)
    requires n * y < x <= TWO_53 <= n * t
    ensures y < t
  {
    if y >= t { Multiply(n, t, y); }
  }

  lemma Multiply(n: nat, a: int, b: int)
    requires a <= b
    ensures n * a <= n * b
  {
  }

  lemma Fraction(x: nat, y: nat, n: nat, r: nat)
    requires y > 0 && x == n * y + r
    ensures Quotient(x, y) == n as real + Quotient(r, y)
  {
    assert x as real == n as real * y as real + r as real;
  }

  /** One step of the scale above n is closer to the quotient than n is. */
  lemma StepIsCloser(r: nat, y: nat, k: nat)
    requires 0 < r && 0 < y < Power2(k + 1)
    ensures 0.0 < Scaled(1, k) < 2.0 * Quotient(r, y)
  {
    Power2Positive(k);
    var t := Power2(k) as real;
    assert Power2(k + 1) == 2 * Power2(k);
    assert y as real < 2.0 * t;
    AtLeastOnce(2.0 * t, r as real);
    CrossMultiply(1.0, t, 2.0 * r as real, y as real);
    assert 2.0 * (r as real) / (y as real) == 2.0 * Quotient(r, y);
  }

  lemma AtLeastOnce(a: real, b: real)
    requires a >= 0.0 && b >= 1.0
    ensures a * b >= a
  {
  }

  lemma CrossMultiply(a: real, b: real, c: real, d: real)
    requires b > 0.0 && d > 0.0 && a * d < c * b
    ensures a / b < c / d
  {
    var u, v := a / b, c / d;
    assert u * b == a && v * d == c;
    assert u * (b * d) == a * d && v * (b * d) == c * b;
    assert b * d > 0.0;
  }

  lemma ScaledStep(n: nat, k: nat)
    ensures Scaled(n * Power2(k) + 1, k) == n as real + Scaled(1, k)
  {
    Power2Positive(k);
    var t := Power2(k) as real;
    assert (n * Power2(k) + 1) as real == n as real * t + 1.0;
  }

  /** A rounded quotient that is not whole stays above the integer below it and does not pass the one above. */
  lemma RoundsBetween(x: nat, y: nat, v: real)
    requires x <= TWO_53 && 1 <= y <= TWO_53 && (x / y) * y < x && Nearest(Quotient(x, y), v)
    ensures (x / y) as real < v <= (x / y + 1) as real
  {
    var n, q := x / y, Quotient(x, y);
    var r := x - n * y;
    var k := FineScale(n, x, y);
    Fraction(x, y, n, r);
    StepIsCloser(r, y, k);
    ScaledStep(n, k);
    var w := Scaled(n * Power2(k) + 1, k);
    assert Double(w);
    BelowNext(x, y, n, r);
    IntegersAreDoubles(n + 1);
    assert Distance(v, q) <= Distance(w, q) && Distance(v, q) <= Distance((n + 1) as real, q);
  }

  lemma BelowNext(x: nat, y: nat, n: nat, r: nat)
    requires y > 0 && x <= TWO_53 && x == n * y + r && 0 < r < y
    ensures 0.0 < Quotient(r, y) < 1.0 && n + 1 <= TWO_53
  {
    CrossMultiply(r as real, y as real, 1.0, 1.0);
    CrossMultiply(0.0, 1.0, r as real, y as real);
    assert n <= n * y;
  }

  lemma CeilingBetween(v: real, n: int)
    requires n as real < v <= (n + 1) as real
    ensures Ceiling(v) == n + 1
  {
  }

  /** The ceiling of the correctly rounded quotient is the exact ceiling. */
  lemma CeilingExact(x: nat, y: nat, v: real)
    requires x <= TWO_53 && 1 <= y <= TWO_53 && Nearest(Quotient(x, y), v)
    ensures Ceiling(v) == CeilDiv(x, y)
  {
    var n := x / y;
    QuotientBounds(x, y);
    if n * y == x {
      WholeQuotient(x, y, n, v);
    } else {
      RoundsBetween(x, y, v);
      CeilingBetween(v, n);
      CeilDivLeast(x, y, n);
      CeilDivLeast(x, y, n + 1);
    }
  }

  lemma WholeQuotient(x: nat, y: nat, n: nat, v: real)
    requires x == n * y && 1 <= y && n <= TWO_53 && Nearest(Quotient(x, y), v)
    ensures Ceiling(v) == n == CeilDiv(x, y)
  {
    Fraction(x, y, n, 0);
    RoundsToItself(n, v);
    CeilOfMultiple(n, y);
  }

  lemma RoundsToItself(n: int, v: real)
    requires -TWO_53 <= n <= TWO_53 && Nearest(n as real, v)
    ensures Ceiling(v) == n
  {
    IntegersAreDoubles(n);
    assert Distance(v, n as real) <= Distance(n as real, n as real);
  }

  lemma CeilOfMultiple(n: int, y: int)
    requires y > 0
    ensures CeilDiv(n * y, y) == n
  {
    CeilDivLeast(n * y, y, n);
    CeilDivLeast(n * y, y, n - 1);
    assert (n - 1) * y == n * y - y;
  }

  /**
   For every storable quota and every level in range, the script's two ceilings, computed by rounding the
   quotient to a double, are the exact ones.
   */
  lemma ScriptCeilingsExact(p: Policy, level: int, v: real)
    requires p.Positive() && p.rate <= MAX_INT32 && p.burst <= MAX_INT32 && 0 <= level <= p.Capacity()
    ensures level < COST && Nearest(Quotient(COST - level, p.RefillPerMs()), v) ==> Ceiling(v) == ReplyOf(p, level).retryMs
    ensures Nearest(Quotient(p.Capacity() - ReplyOf(p, level).tokens, p.RefillPerMs()), v) ==> Ceiling(v) == ReplyOf(p, level).fullMs
  {
    if level < COST && Nearest(Quotient(COST - level, p.RefillPerMs()), v) { CeilingExact(COST - level, p.RefillPerMs(), v); }
    var missing := p.Capacity() - ReplyOf(p, level).tokens;
    if Nearest(Quotient(missing, p.RefillPerMs()), v) { CeilingExact(missing, p.RefillPerMs(), v); }
  }

  // ----- Sums and products -----

  /** A rounding of whole numbers to doubles, in any direction: it keeps the order and is exact up to 2^53. */
  ghost predicate Rounding(round: int -> int) {
    && (forall x: int, y: int :: x <= y ==> round(x) <= round(y))
    && (forall x: int :: -TWO_53 <= x <= TWO_53 ==> round(x) == x)
  }

  /** Tokens on hand as the script computes them, rounding every difference, product and sum. */
  function RoundedLevel(round: int -> int, p: Policy, stored: Option<Entry>, now: int): int {
    match stored
    case None => p.Capacity()
    case Some(e) => Min(p.Capacity(), round(e.tokens + round(Max(0, round(now - e.updatedAt)) * p.RefillPerMs())))
  }

  lemma RoundedAbove(round: int -> int, x: int)
    requires Rounding(round)
    ensures x >= TWO_53 ==> round(x) >= TWO_53
    ensures 0 <= x <= TWO_53 ==> round(x) == x
  {
    assert x >= TWO_53 ==> round(TWO_53) <= round(x);
  }

  lemma RoundedElapsed(round: int -> int, ms: int)
    requires Rounding(round)
    ensures Max(0, round(ms)) == Max(0, ms) || (Max(0, round(ms)) >= TWO_53 && ms >= TWO_53)
  {
    RoundedAbove(round, ms);
    if ms < 0 { assert round(ms) <= round(0) == 0; }
  }

  lemma RoundedProduct(round: int -> int, ms: int, f: int)
    requires Rounding(round) && f >= 1
    ensures var exact, rounded := Max(0, ms) * f, round(Max(0, round(ms)) * f);
            rounded == exact >= 0 || (exact >= TWO_53 && rounded >= TWO_53)
  {
    var a, b := Max(0, ms), Max(0, round(ms));
    RoundedElapsed(round, ms);
    GrowsByFactor(a, f);
    GrowsByFactor(b, f);
    RoundedAbove(round, b * f);
  }

  lemma RoundedSum(round: int -> int, cap: int, tokens: int, exact: int, rounded: int)
    requires Rounding(round) && cap <= TWO_53 && 0 <= tokens
    requires rounded == exact >= 0 || (exact >= TWO_53 && rounded >= TWO_53)
    ensures Min(cap, round(tokens + rounded)) == Min(cap, tokens + exact)
  {
    RoundedAbove(round, tokens + rounded);
  }

  /**
   Whatever is stored, however long ago and under whatever quota, and whichever way doubles round, the level is
   exact: a product or sum that rounds is past 2^53, where the cap replaces it by the capacity.
   */
  lemma LevelSurvivesRounding(round: int -> int, p: Policy, stored: Option<Entry>, now: int)
    requires Rounding(round) && p.Positive() && p.burst <= MAX_INT32 && (stored.Some? ==> 0 <= stored.value.tokens)
    ensures RoundedLevel(round, p, stored, now) == Level(p, stored, now)
  {
    if stored.Some? {
      var e := stored.value;
      RoundedProduct(round, now - e.updatedAt, p.RefillPerMs());
      RoundedSum(round, p.Capacity(), e.tokens, Max(0, now - e.updatedAt) * p.RefillPerMs(),
                 round(Max(0, round(now - e.updatedAt)) * p.RefillPerMs()));
    }
  }

  /** Hence every call of every run with storable quotas is decided on the exact level, under any clock. */
  lemma RunsSurviveRounding(round: int -> int, ops: seq<Op>, n: nat)
    requires Rounding(round) && Runs(ops) && n < |ops| && ops[n].Call? && ops[n].policy.burst <= MAX_INT32
    ensures Runs(ops[..n])
    ensures RoundedLevel(round, ops[n].policy, Get(After(ops[..n]), ops[n].key), ops[n].now) == LevelAt(ops, ops[n].key, ops[n].policy, n)
  {
    RunsPrefix(ops, n);
    TokensInRange(ops[..n], ops[n].key);
    LevelSurvivesRounding(round, ops[n].policy, Get(After(ops[..n]), ops[n].key), ops[n].now);
  }
}
