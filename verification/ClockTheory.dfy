/** Clocks that step backwards: when plain stamp differences still bound what a bucket admits, and when they do not. */
module ClockTheory {
  import opened Util
  import opened TokenBucket
  import opened BucketTheory
  import opened WindowTheory

  /** Calls on one bucket at the given clock readings, none of them forgotten. */
  function CallsAt(k: string, p: Policy, ts: seq<int>): (ops: seq<Op>)
    ensures |ops| == |ts| && forall n :: 0 <= n < |ts| ==> ops[n] == Call(k, p, ts[n])
  {
    seq(|ts|, n requires 0 <= n < |ts| => Call(k, p, ts[n]))
  }

  lemma {:induction false} CallsAtRuns(k: string, p: Policy, ts: seq<int>)
    requires p.Positive()
    ensures Runs(CallsAt(k, p, ts))
    decreases |ts|
  {
    if ts != [] {
      CallsAtRuns(k, p, Front(ts));
      assert Front(CallsAt(k, p, ts)) == CallsAt(k, p, Front(ts));
    }
  }

  lemma ExecCallAnyClock(db: Buckets, k: string, p: Policy, now: int, later: int)
    requires p.Positive()
    ensures Level(p, Get(Exec(db, Call(k, p, now)), k), later)
         == Min(p.Capacity(), Level(p, Get(db, k), now) - Spend(Level(p, Get(db, k), now) >= COST) + Max(0, later - now) * p.RefillPerMs())
  {
  }

  lemma LevelAfterCallAnyClock(ops: seq<Op>, k: string, p: Policy, n: nat)
    requires Runs(ops) && p.Positive() && 0 < n < |ops| && ops[n - 1] == Call(k, p, ops[n - 1].now)
    ensures LevelAt(ops, k, p, n)
         == Min(p.Capacity(), LevelAt(ops, k, p, n - 1) - Spend(Admitted(ops, k, n - 1)) + Max(0, ops[n].now - ops[n - 1].now) * p.RefillPerMs())
  {
    AfterStep(ops, n);
    ExecCallAnyClock(After(ops[..n - 1]), k, p, ops[n - 1].now, ops[n].now);
  }

  lemma IdealStep(p: Policy, ts: seq<int>, d: seq<bool>, n: nat)
    requires 0 < n < |ts| && n <= |d|
    ensures Ideal(p, ts, d, n) == Min(p.Capacity(), Ideal(p, ts, d, n - 1) - Spend(d[n - 1]) + Max(0, ts[n] - ts[n - 1]) * p.RefillPerMs())
  {
  }

  /** Decisions of the script on a run of calls at the readings `ts`. */
  function Decisions(k: string, p: Policy, ts: seq<int>): (d: seq<bool>)
    requires p.Positive()
    ensures |d| == |ts|
  {
    CallsAtRuns(k, p, ts);
    Admissions(CallsAt(k, p, ts), k)
  }

  lemma StepAgrees(ops: seq<Op>, k: string, p: Policy, ts: seq<int>, d: seq<bool>, n: nat)
    requires Runs(ops) && p.Positive() && 0 < n < |ops| == |ts| && |d| == |ts| && ops[n - 1] == Call(k, p, ts[n - 1]) && ops[n].now == ts[n]
    requires d[n - 1] == Admitted(ops, k, n - 1) && LevelAt(ops, k, p, n - 1) == Ideal(p, ts, d, n - 1)
    ensures LevelAt(ops, k, p, n) == Ideal(p, ts, d, n)
  {
    LevelAfterCallAnyClock(ops, k, p, n);
    IdealStep(p, ts, d, n);
  }

  lemma {:induction false} AnyClockIdeal(k: string, p: Policy, ts: seq<int>, n: nat)
    requires p.Positive() && n < |ts| && Runs(CallsAt(k, p, ts))
    ensures LevelAt(CallsAt(k, p, ts), k, p, n) == Ideal(p, ts, Admissions(CallsAt(k, p, ts), k), n)
    decreases n
  {
    var ops := CallsAt(k, p, ts);
    if n == 0 {
      RunsPrefix(ops, n);
      assert ops[..0] == [];
    } else {
      AnyClockIdeal(k, p, ts, n - 1);
      StepAgrees(ops, k, p, ts, Admissions(ops, k), n);
    }
  }

  predicate GreedyAt(p: Policy, ts: seq<int>, d: seq<bool>, n: nat)
    requires n < |ts| == |d|
  {
    d[n] <==> Ideal(p, ts, d, n) >= COST
  }

  /** Every step is accepted exactly when the abstract bucket holds a token. */
  ghost predicate Greedy(p: Policy, ts: seq<int>, d: seq<bool>) {
    |d| == |ts| && forall n: nat :: n < |d| ==> GreedyAt(p, ts, d, n)
  }

  /** Under any clock the script is greedy. */
  lemma DecidesByIdeal(k: string, p: Policy, ts: seq<int>)
    requires p.Positive()
    ensures Greedy(p, ts, Decisions(k, p, ts))
  {
    CallsAtRuns(k, p, ts);
    forall n: nat | n < |ts| ensures GreedyAt(p, ts, Decisions(k, p, ts), n) {
      AnyClockIdeal(k, p, ts, n);
      assert IsCall(CallsAt(k, p, ts), k, n);
    }
  }

  /** The earlier stamp is stored, so a backward step lets the same interval be credited twice. */
  lemma BackwardClockCreditsTwice(k: string)
    ensures var p := Policy(1000, 1); var ts := [10, 0, 10];
            Runs(CallsAt(k, p, ts)) && AdmittedBetween(CallsAt(k, p, ts), k, 0, 2) == 2 > WindowLimit(p, 10 - 10)
  {
    var p, ts := Policy(1000, 1), [10, 0, 10];
    CallsAtRuns(k, p, ts);
    var d := Decisions(k, p, ts);
    DecidesByIdeal(k, p, ts);
    assert GreedyAt(p, ts, d, 0) && GreedyAt(p, ts, d, 1) && GreedyAt(p, ts, d, 2);
    assert d[0];
    assert !d[1];
    assert d[2];
    assert Count(d, 0, 3) == Count(d, 0, 2) + 1 == Count(d, 0, 1) + 1 == 2;
  }

  // ----- Exactly when plain stamp differences bound admissions -----

  /** us are the stamps of calls made along the path of readings ts, any number of them at each reading. */
  predicate Along(us: seq<int>, ts: seq<int>, at: seq<nat>) {
    && |at| == |us|
    && (forall n :: 0 <= n < |us| ==> at[n] < |ts| && us[n] == ts[at[n]])
    && (forall m, n :: 0 <= m <= n < |us| ==> at[m] <= at[n])
  }

  predicate WindowHolds(k: string, p: Policy, us: seq<int>, i: nat, j: nat)
    requires p.Positive() && i <= j < |us| && us[i] <= us[j]
  {
    Count(Decisions(k, p, us), i, j + 1) <= WindowLimit(p, us[j] - us[i])
  }

  /** Whatever the quota and the calls made along ts, windows are bounded by the difference of their stamps. */
  ghost predicate PlainLaw(k: string, ts: seq<int>) {
    forall p: Policy, us: seq<int>, at: seq<nat>, i: nat, j: nat ::
      p.Positive() && Along(us, ts, at) && i <= j < |us| && us[i] <= us[j] ==> WindowHolds(k, p, us, i, j)
  }

  /** No time is credited twice between two readings of which the second is not the earlier. */
  ghost predicate NothingCreditedTwice(ts: seq<int>) {
    forall i: nat, j: nat :: i <= j < |ts| && ts[i] <= ts[j] ==> Span(ts, i, j) == ts[j] - ts[i]
  }

  lemma {:induction false} SpanAtLeastDifference(ts: seq<int>, i: nat, j: nat)
    requires i <= j < |ts|
    ensures Span(ts, i, j) >= ts[j] - ts[i]
    decreases j
  {
    if i < j { SpanAtLeastDifference(ts, i, j - 1); }
  }

  /** Making no call at some readings can only lose credit. */
  lemma {:induction false} SpanAlong(us: seq<int>, ts: seq<int>, at: seq<nat>, i: nat, j: nat)
    requires Along(us, ts, at) && i <= j < |us|
    ensures at[i] <= at[j] < |ts| && Span(us, i, j) <= Span(ts, at[i], at[j])
    decreases j
  {
    if i < j {
      SpanAlong(us, ts, at, i, j - 1);
      assert at[j - 1] <= at[j];
      SpanAtLeastDifference(ts, at[j - 1], at[j]);
      ClockMonotone(ts, at[j - 1], at[j]);
    }
  }

  lemma CallsAtWindow(k: string, p: Policy, us: seq<int>, i: nat, j: nat)
    requires p.Positive() && i <= j < |us|
    ensures Count(Decisions(k, p, us), i, j + 1) <= WindowLimit(p, Span(us, i, j))
  {
    var ops := CallsAt(k, p, us);
    CallsAtRuns(k, p, us);
    assert Times(ops) == us;
    AnyClockBound(ops, k, p, i, j);
  }

  lemma PlainLawHolds(k: string, ts: seq<int>, p: Policy, us: seq<int>, at: seq<nat>, i: nat, j: nat)
    requires NothingCreditedTwice(ts) && p.Positive() && Along(us, ts, at) && i <= j < |us| && us[i] <= us[j]
    ensures WindowHolds(k, p, us, i, j)
  {
    SpanAlong(us, ts, at, i, j);
    assert Span(ts, at[i], at[j]) == ts[at[j]] - ts[at[i]];
    HoldsBySpan(k, p, us, i, j);
  }

  lemma HoldsBySpan(k: string, p: Policy, us: seq<int>, i: nat, j: nat)
    requires p.Positive() && i <= j < |us| && Span(us, i, j) <= us[j] - us[i]
    ensures WindowHolds(k, p, us, i, j)
  {
    CallsAtWindow(k, p, us, i, j);
    LimitMonotone(p, Span(us, i, j), us[j] - us[i]);
  }

  // The converse: drain a large bucket at reading i, call at every reading up to j, drain again at reading j.

  /** Reading visited by call n of the draining run with bursts of b calls at both ends. */
  function Visit(i: nat, j: nat, b: nat, n: nat): nat
    requires i <= j && b > 0
  {
    if n < b then i else if n - b + 1 <= j - i then i + (n - b + 1) else j
  }

  function Visits(i: nat, j: nat, b: nat): (at: seq<nat>)
    requires i <= j && b > 0
    ensures |at| == 2 * b + (j - i) && forall n :: 0 <= n < |at| ==> at[n] == Visit(i, j, b, n)
  {
    seq(2 * b + (j - i), n requires 0 <= n < 2 * b + (j - i) => Visit(i, j, b, n))
  }

  function Draining(ts: seq<int>, i: nat, j: nat, b: nat): (us: seq<int>)
    requires i <= j < |ts| && b > 0
    ensures |us| == 2 * b + (j - i) && forall n: nat :: n < |us| ==> us[n] == ts[Visit(i, j, b, n)]
  {
    seq(2 * b + (j - i), n requires 0 <= n < 2 * b + (j - i) => ts[Visit(i, j, b, n)])
  }

  lemma {:induction false} SpanOfDraining(ts: seq<int>, i: nat, j: nat, b: nat, n: nat)
    requires i <= j < |ts| && b > 0 && n < 2 * b + (j - i)
    ensures Span(Draining(ts, i, j, b), 0, n) == Span(ts, i, Visit(i, j, b, n))
    decreases n
  {
    if n > 0 { SpanOfDraining(ts, i, j, b, n - 1); }
  }

  /** One token per millisecond and room for more than the readings from i to j can ever credit. */
  function Roomy(ts: seq<int>, i: nat, j: nat): (p: Policy)
    requires i <= j < |ts|
    ensures p.Positive() && p.burst > Span(ts, i, j)
  {
    Policy(1000, Span(ts, i, j) + 1)
  }

  /** Before the bucket can fill up again the first burst has emptied it, so no credit is ever lost. */
  lemma {:induction false} DrainingLevel(ts: seq<int>, i: nat, j: nat, p: Policy, us: seq<int>, d: seq<bool>, n: nat)
    requires i <= j < |ts| && p == Roomy(ts, i, j) && us == Draining(ts, i, j, p.burst) && Greedy(p, us, d) && n < |us|
    ensures Ideal(p, us, d, n) == (p.burst + Span(us, 0, n) - Count(d, 0, n)) * COST
    ensures Count(d, 0, n) >= Min(n, p.burst)
    decreases n
  {
    if n > 0 {
      DrainingLevel(ts, i, j, p, us, d, n - 1);
      assert GreedyAt(p, us, d, n - 1);
      SpanOfDraining(ts, i, j, p.burst, n - 1);
      SpanOfDraining(ts, i, j, p.burst, n);
      VisitedSpan(ts, i, j, p.burst, n);
      assert Count(d, 0, n) == Count(d, 0, n - 1) + if d[n - 1] then 1 else 0;
      DrainingStep(ts, i, j, p, us, d, n);
    }
  }

  lemma VisitedSpan(ts: seq<int>, i: nat, j: nat, b: nat, n: nat)
    requires i <= j < |ts| && b > 0
    ensures i <= Visit(i, j, b, n) <= j && Span(ts, i, Visit(i, j, b, n)) <= Span(ts, i, j)
  {
    ClockMonotone(ts, i, Visit(i, j, b, n));
    ClockMonotone(ts, Visit(i, j, b, n), j);
  }

  /** The step from n - 1 to n of the draining run. */
  lemma DrainingStep(ts: seq<int>, i: nat, j: nat, p: Policy, us: seq<int>, d: seq<bool>, n: nat)
    requires i <= j < |ts| && p == Roomy(ts, i, j) && us == Draining(ts, i, j, p.burst) && |d| == |us| && 0 < n < |us|
    requires d[n - 1] <==> Ideal(p, us, d, n - 1) >= COST
    requires Ideal(p, us, d, n - 1) == (p.burst + Span(us, 0, n - 1) - Count(d, 0, n - 1)) * COST
    requires Count(d, 0, n - 1) >= Min(n - 1, p.burst) && Count(d, 0, n) == Count(d, 0, n - 1) + if d[n - 1] then 1 else 0
    requires Span(us, 0, n - 1) == Span(ts, i, Visit(i, j, p.burst, n - 1))
    requires Span(us, 0, n) == Span(ts, i, Visit(i, j, p.burst, n)) <= Span(ts, i, j)
    ensures Ideal(p, us, d, n) == (p.burst + Span(us, 0, n) - Count(d, 0, n)) * COST
    ensures Count(d, 0, n) >= Min(n, p.burst)
  {
    assert Span(us, 0, n) == Span(us, 0, n - 1) + Advance(us, n);
    assert Advance(us, n) * p.RefillPerMs() == Advance(us, n) * COST;
    if n - 1 < p.burst {
      assert Count(d, 0, n - 1) < p.burst || Count(d, 0, n - 1) >= Min(n, p.burst);
    }
  }

  /** While calls at one instant are accepted, the bucket only falls. */
  lemma {:induction false} StillAccepting(p: Policy, us: seq<int>, d: seq<bool>, n: nat, m: nat)
    requires Greedy(p, us, d) && m <= n < |us| && forall x :: n - m <= x <= n ==> us[x] == us[n]
    requires Ideal(p, us, d, n) >= COST
    ensures Ideal(p, us, d, n - m) >= COST + m * COST
    decreases m
  {
    if m > 0 {
      StillAccepting(p, us, d, n, m - 1);
      assert GreedyAt(p, us, d, n - m);
      IdealStep(p, us, d, n - m + 1);
      assert Advance(us, n - m + 1) * p.RefillPerMs() == 0;
    }
  }

  lemma {:induction false} IdealCapped(p: Policy, us: seq<int>, d: seq<bool>, n: nat)
    requires n < |us| && n <= |d|
    ensures Ideal(p, us, d, n) <= p.Capacity()
  {
  }

  /** The draining run admits the whole burst and every credited token. */
  lemma DrainingAdmits(ts: seq<int>, i: nat, j: nat, p: Policy, us: seq<int>, d: seq<bool>)
    requires i <= j < |ts| && p == Roomy(ts, i, j) && us == Draining(ts, i, j, p.burst) && Greedy(p, us, d)
    ensures Count(d, 0, |us|) >= p.burst + Span(ts, i, j)
  {
    var n := |us| - 1;
    DrainingLevel(ts, i, j, p, us, d, n);
    SpanOfDraining(ts, i, j, p.burst, n);
    EndsEmpty(ts, i, j, p, us, d);
    assert p.burst + Span(us, 0, n) - Count(d, 0, n) <= 0;
    assert Count(d, 0, n + 1) >= Count(d, 0, n);
  }

  lemma EndsEmpty(ts: seq<int>, i: nat, j: nat, p: Policy, us: seq<int>, d: seq<bool>)
    requires i <= j < |ts| && p == Roomy(ts, i, j) && us == Draining(ts, i, j, p.burst) && Greedy(p, us, d)
    ensures Ideal(p, us, d, |us| - 1) < COST
  {
    var n := |us| - 1;
    if Ideal(p, us, d, n) >= COST {
      forall x: nat | n - p.burst <= x <= n ensures us[x] == us[n] {
        assert Visit(i, j, p.burst, x) == j;
      }
      IdealCapped(p, us, d, n - p.burst);
      StillAccepting(p, us, d, n, p.burst);
    }
  }

  lemma DrainingAlong(ts: seq<int>, i: nat, j: nat, b: nat)
    requires i <= j < |ts| && b > 0
    ensures Along(Draining(ts, i, j, b), ts, Visits(i, j, b))
  {
  }

  lemma CreditedTwiceBreaks(k: string, ts: seq<int>, i: nat, j: nat)
    requires i <= j < |ts| && ts[i] <= ts[j] && Span(ts, i, j) != ts[j] - ts[i]
    ensures !PlainLaw(k, ts)
  {
    var p := Roomy(ts, i, j);
    var us, at := Draining(ts, i, j, p.burst), Visits(i, j, p.burst);
    SpanAtLeastDifference(ts, i, j);
    DecidesByIdeal(k, p, us);
    DrainingAdmits(ts, i, j, p, us, Decisions(k, p, us));
    DrainingAlong(ts, i, j, p.burst);
    assert us[0] == ts[i] && us[|us| - 1] == ts[j];
    WindowOverfilled(k, p, us, ts[j] - ts[i]);
  }

  lemma WindowOverfilled(k: string, p: Policy, us: seq<int>, ms: nat)
    requires p.Positive() && p.rate == 1000 && us != [] && us[|us| - 1] - us[0] == ms
    requires Count(Decisions(k, p, us), 0, |us|) > p.burst + ms
    ensures !WindowHolds(k, p, us, 0, |us| - 1)
  {
    assert WindowLimit(p, ms) == p.burst + ms;
  }

  /**
   Plain stamp differences bound every window, for every quota and every number of calls at the readings, exactly
   when no two readings in order have a backward step between them that was made up for.
   */
  lemma PlainLawExactly(k: string, ts: seq<int>)
    ensures PlainLaw(k, ts) <==> NothingCreditedTwice(ts)
  {
    if NothingCreditedTwice(ts) {
      forall p: Policy, us: seq<int>, at: seq<nat>, i: nat, j: nat
        | p.Positive() && Along(us, ts, at) && i <= j < |us| && us[i] <= us[j]
        ensures WindowHolds(k, p, us, i, j)
      {
        PlainLawHolds(k, ts, p, us, at, i, j);
      }
    } else {
      var i: nat, j: nat :| i <= j < |ts| && ts[i] <= ts[j] && Span(ts, i, j) != ts[j] - ts[i];
      CreditedTwiceBreaks(k, ts, i, j);
    }
  }
}
