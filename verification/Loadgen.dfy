/** The load generator's time-adjusted token bound, against every correct run of the limiter. */
module Loadgen {
  import opened TokenBucket
  import opened BucketTheory
  import opened WindowTheory
  import opened ClockTheory

  /** Redis TIME gives seconds and microseconds; the script keeps whole milliseconds. */
  function NowMs(seconds: int, micros: int): (ms: int)
    requires 0 <= micros < 1_000_000
    ensures ms == (seconds * 1_000_000 + micros) / 1000
  {
    seconds * 1000 + micros / 1000
  }

  /** burst + floor(rate * seconds + 0.999999) in exact arithmetic, with the duration in nanoseconds. */
  function MaximumAccepted(p: Policy, durationNs: nat): int {
    p.burst + (p.rate * durationNs + 999_999_000) / 1_000_000_000
  }

  /**
   A measured stretch, steps i to j, of some run on the shared Redis: micros[n] is the Redis clock at
   step n, and the measured duration spans all readings of the stretch.
   */
  datatype Measured = Measured(ops: seq<Op>, key: string, policy: Policy, micros: seq<int>, i: nat, j: nat, durationNs: nat)

  ghost predicate Correct(m: Measured) {
    && m.i <= m.j < |m.ops| == |m.micros|
    && Runs(m.ops) && PolicyDuring(m.ops, m.key, m.policy, m.i, m.j)
    && (forall a, b :: 0 <= a <= b < |m.micros| ==> m.micros[a] <= m.micros[b])
    && (forall n :: 0 <= n < |m.ops| ==> m.ops[n].now == m.micros[n] / 1000)
    && (m.micros[m.j] - m.micros[m.i]) * 1000 <= m.durationNs
  }

  lemma CorrectIsMonotone(m: Measured)
    requires Correct(m)
    ensures Monotone(m.ops)
  {
    forall a, b | 0 <= a <= b < |m.ops| ensures m.ops[a].now <= m.ops[b].now {
      assert m.micros[a] <= m.micros[b];
    }
  }

  /** The check passes on the admissions of the stretch. */
  ghost predicate CheckPasses(m: Measured)
    requires Correct(m)
  {
    AdmittedBetween(m.ops, m.key, m.i, m.j) <= MaximumAccepted(m.policy, m.durationNs)
  }

  /** Flooring both stamps can lengthen a window by at most 999 microseconds. */
  lemma FlooredWindow(p: Policy, from: int, to: int, durationNs: nat)
    requires p.Positive() && p.rate <= 1001 && from <= to && (to - from) * 1000 <= durationNs
    ensures WindowLimit(p, to / 1000 - from / 1000) <= MaximumAccepted(p, durationNs)
  {
    var ms := to / 1000 - from / 1000;
    assert ms * 1_000_000 <= durationNs + 999_000;
    ScaleUp(p.rate, ms * 1_000_000, durationNs + 999_000);
    FloorsCompare(p.rate, ms, durationNs);
  }

  lemma ScaleUp(rate: nat, x: int, y: int)
    requires x <= y
    ensures rate * x <= rate * y
  {
  }

  lemma FloorsCompare(rate: nat, ms: nat, durationNs: nat)
    requires rate <= 1001 && rate * (ms * 1_000_000) <= rate * (durationNs + 999_000)
    ensures rate * ms / 1000 <= (rate * durationNs + 999_999_000) / 1_000_000_000
  {
    var x, y := rate * ms, rate * durationNs;
    assert rate * (ms * 1_000_000) == x * 1_000_000;
    assert rate * (durationNs + 999_000) == y + rate * 999_000;
    FloorOfScaled(x, y + 999_999_000);
  }

  lemma FloorOfScaled(x: nat, y: nat)
    requires x * 1_000_000 <= y
    ensures x / 1000 <= y / 1_000_000_000
  {
  }

  lemma PassesAtModestRates(m: Measured)
    requires Correct(m) && m.policy.rate <= 1001
    ensures CheckPasses(m)
  {
    CorrectIsMonotone(m);
    WindowBound(m.ops, m.key, m.policy, m.i, m.j);
    assert m.micros[m.i] <= m.micros[m.j];
    FlooredWindow(m.policy, m.micros[m.i], m.micros[m.j], m.durationNs);
  }

  /** A burst just before a millisecond boundary and another a thousand boundaries later. */
  function TwoBursts(rate: nat): (m: Measured)
    requires rate > 0
    ensures |m.ops| == |m.micros| == 2 * rate && m.policy == Policy(rate, rate) && m.i == 0 && m.j == 2 * rate - 1
    ensures forall n :: 0 <= n < 2 * rate ==> m.micros[n] == if n < rate then 999 else 1_000_000
    ensures forall n :: 0 <= n < 2 * rate ==> m.ops[n] == Call(m.key, m.policy, if n < rate then 0 else 1000)
    ensures m.durationNs == 999_001_000
  {
    var p := Policy(rate, rate);
    Measured(
      CallsAt("bucket", p, seq(2 * rate, n => if n < rate then 0 else 1000)), "bucket", p,
      seq(2 * rate, n => if n < rate then 999 else 1_000_000), 0, 2 * rate - 1, 999_001_000)
  }

  lemma {:induction false} CountAll(d: seq<bool>, i: nat, j: nat)
    requires i <= j <= |d| && forall n :: 0 <= n < |d| ==> d[n]
    ensures Count(d, i, j) == j - i
    decreases j
  {
    if i < j { CountAll(d, i, j - 1); }
  }

  lemma TwoBurstsCorrect(rate: nat)
    requires rate > 0
    ensures Correct(TwoBursts(rate))
  {
    var m := TwoBursts(rate);
    var ts := Times(m.ops);
    CallsAtRuns(m.key, m.policy, ts);
    assert m.ops == CallsAt(m.key, m.policy, ts);
  }

  /** Everything is admitted: accepting both bursts breaks no window, and the bucket is optimal. */
  lemma TwoBurstsAdmitted(rate: nat)
    requires rate > 0
    ensures Correct(TwoBursts(rate))
    ensures AdmittedBetween(TwoBursts(rate).ops, TwoBursts(rate).key, 0, 2 * rate - 1) >= 2 * rate
  {
    var m, all := TwoBursts(rate), seq(2 * rate, n => true);
    TwoBurstsCorrect(rate);
    CorrectIsMonotone(m);
    TwoBurstsWithinWindows(rate, all);
    forall n: nat | n < |m.ops| ensures IsCall(m.ops, m.key, n) { }
    GreedyOptimal(m.ops, m.key, m.policy, all, 2 * rate);
    CountAll(all, 0, 2 * rate);
  }

  lemma TwoBurstsWithinWindows(rate: nat, all: seq<bool>)
    requires rate > 0 && |all| == 2 * rate && forall n :: 0 <= n < |all| ==> all[n]
    ensures WindowsBounded(Policy(rate, rate), Times(TwoBursts(rate).ops), all)
  {
    var p, ts := Policy(rate, rate), Times(TwoBursts(rate).ops);
    forall i: nat, j: nat | i <= j < |all|
      ensures Count(all, i, j + 1) <= WindowLimit(p, Span(ts, i, j))
    {
      CountAll(all, i, j + 1);
      SpanOfMonotone(ts, i, j);
      if i < rate <= j {
        assert WindowLimit(p, 1000) == 2 * rate;
      } else {
        assert WindowLimit(p, 0) == rate;
      }
    }
  }

  /** The check never rejects a correct limiter, whatever the burst, exactly for rates up to 1001 per second. */
  lemma CheckSoundExactly(rate: nat)
    requires rate > 0
    ensures (forall m: Measured :: Correct(m) && m.policy.rate == rate ==> CheckPasses(m)) <==> rate <= 1001
  {
    if rate <= 1001 {
      forall m: Measured | Correct(m) && m.policy.rate == rate ensures CheckPasses(m) { PassesAtModestRates(m); }
    } else {
      TwoBurstsAdmitted(rate);
      var m := TwoBursts(rate);
      assert MaximumAccepted(m.policy, m.durationNs) < 2 * rate;
      assert Correct(m) && !CheckPasses(m);
    }
  }
}
