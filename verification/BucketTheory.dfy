/**
 What the token bucket guarantees over whole runs: the exact window law, its
 optimality, exact retry times, and the invisibility of expiry.
 */
module BucketTheory {
  import opened Util
  import opened TokenBucket

  // ----- An abstract bucket driven by any accept/reject decisions -----

  /** Time credited at step n: clock readings that go backwards credit nothing. */
  function Advance(ts: seq<int>, n: nat): nat
    requires 0 < n < |ts|
  {
    Max(0, ts[n] - ts[n - 1])
  }

  /** Total credited time up to step n. */
  function Clock(ts: seq<int>, n: nat): nat
    requires n < |ts|
  {
    if n == 0 then 0 else Clock(ts, n - 1) + Advance(ts, n)
  }

  function Spend(accepted: bool): nat { if accepted then COST else 0 }

  /** Tokens on hand at step n when the earlier steps were decided by `d`. */
  function Ideal(p: Policy, ts: seq<int>, d: seq<bool>, n: nat): int
    requires n < |ts| && n <= |d|
  {
    if n == 0 then p.Capacity()
    else Min(p.Capacity(), Ideal(p, ts, d, n - 1) - Spend(d[n - 1]) + Advance(ts, n) * p.RefillPerMs())
  }

  /** Number of acceptances among steps i to j - 1. */
  function Count(d: seq<bool>, i: nat, j: nat): nat
    requires i <= j <= |d|
  {
    if i == j then 0 else Count(d, i, j - 1) + if d[j - 1] then 1 else 0
  }

  /** The decisions never overdraw the bucket. */
  ghost predicate Feasible(p: Policy, ts: seq<int>, d: seq<bool>)
    requires |d| == |ts|
  {
    forall n: nat :: n < |d| && d[n] ==> Ideal(p, ts, d, n) >= COST
  }

  /** Acceptances that a window of `ms` milliseconds may hold. */
  function WindowLimit(p: Policy, ms: nat): int { p.burst + p.rate * ms / 1000 }

  /** No window of steps holds more acceptances than the burst plus the refill of its length. */
  ghost predicate WindowsBounded(p: Policy, ts: seq<int>, d: seq<bool>)
    requires |d| == |ts|
  {
    forall i: nat, j: nat :: i <= j < |d| ==> Count(d, i, j + 1) <= WindowLimit(p, Span(ts, i, j))
  }

  function Span(ts: seq<int>, i: nat, j: nat): nat
    requires i <= j < |ts|
  {
    ClockMonotone(ts, i, j);
    Clock(ts, j) - Clock(ts, i)
  }

  lemma {:induction false} ClockMonotone(ts: seq<int>, i: nat, j: nat)
    requires i <= j < |ts|
    ensures Clock(ts, i) <= Clock(ts, j)
    decreases j
  {
    if i < j { ClockMonotone(ts, i, j - 1); }
  }

  lemma LimitInMicrotokens(p: Policy, ms: nat, count: int)
    ensures count <= WindowLimit(p, ms) <==> count * COST <= p.Capacity() + ms * p.RefillPerMs()
  {
    var x := p.rate * ms;
    assert ms * p.RefillPerMs() == x * 1000;
  }

  lemma Distribute(a: int, b: int, f: int)
    ensures (a + b) * f == a * f + b * f
  {
  }

  /** Extending a window by one step extends its span and its credit by that step's advance. */
  lemma SpanStep(p: Policy, ts: seq<int>, i: nat, n: nat)
    requires i < n < |ts|
    ensures Span(ts, i, n) * p.RefillPerMs() == Span(ts, i, n - 1) * p.RefillPerMs() + Advance(ts, n) * p.RefillPerMs()
  {
    Distribute(Span(ts, i, n - 1), Advance(ts, n), p.RefillPerMs());
  }

  lemma {:induction false} IdealUpper(p: Policy, ts: seq<int>, d: seq<bool>, i: nat, n: nat)
    requires i <= n < |ts| && n <= |d|
    ensures Ideal(p, ts, d, n) <= p.Capacity() + Span(ts, i, n) * p.RefillPerMs() - Count(d, i, n) * COST
    decreases n
  {
    if i < n {
      IdealUpper(p, ts, d, i, n - 1);
      SpanStep(p, ts, i, n);
    }
  }

  lemma {:induction false} IdealAttained(p: Policy, ts: seq<int>, d: seq<bool>, n: nat) returns (i: nat)
    requires n < |ts| && n <= |d|
    ensures i <= n
    ensures Ideal(p, ts, d, n) == p.Capacity() + Span(ts, i, n) * p.RefillPerMs() - Count(d, i, n) * COST
    decreases n
  {
    if n == 0 || Ideal(p, ts, d, n) == p.Capacity() {
      i := n;
    } else {
      i := IdealAttained(p, ts, d, n - 1);
      SpanStep(p, ts, i, n);
    }
  }

  lemma {:induction false} FeasibleNonNegative(p: Policy, ts: seq<int>, d: seq<bool>, n: nat)
    requires p.Positive() && |d| == |ts| && Feasible(p, ts, d) && n < |d|
    ensures Ideal(p, ts, d, n) >= Spend(d[n])
    decreases n
  {
    if n > 0 {
      FeasibleNonNegative(p, ts, d, n - 1);
      assert Advance(ts, n) * p.RefillPerMs() >= 0;
    }
  }

  lemma FeasibleWindow(p: Policy, ts: seq<int>, d: seq<bool>, i: nat, j: nat)
    requires p.Positive() && |d| == |ts| && Feasible(p, ts, d) && i <= j < |ts|
    ensures Count(d, i, j + 1) <= WindowLimit(p, Span(ts, i, j))
  {
    FeasibleNonNegative(p, ts, d, j);
    IdealUpper(p, ts, d, i, j);
    LimitInMicrotokens(p, Span(ts, i, j), Count(d, i, j + 1));
  }

  /** A decision sequence never overdraws the bucket exactly when it respects every window. */
  lemma FeasibleIffWindowsBounded(p: Policy, ts: seq<int>, d: seq<bool>)
    requires p.Positive() && |d| == |ts|
    ensures Feasible(p, ts, d) <==> WindowsBounded(p, ts, d)
  {
    if Feasible(p, ts, d) {
      forall i: nat, j: nat | i <= j < |d|
        ensures Count(d, i, j + 1) <= WindowLimit(p, Span(ts, i, j))
      {
        FeasibleWindow(p, ts, d, i, j);
      }
    }
    if WindowsBounded(p, ts, d) {
      forall n: nat | n < |d| && d[n]
        ensures Ideal(p, ts, d, n) >= COST
      {
        var i := IdealAttained(p, ts, d, n);
        assert Count(d, i, n + 1) <= WindowLimit(p, Span(ts, i, n));
        LimitInMicrotokens(p, Span(ts, i, n), Count(d, i, n + 1));
      }
    }
  }

  lemma {:induction false} IdealPrefix(p: Policy, ts: seq<int>, d: seq<bool>, ts': seq<int>, d': seq<bool>, n: nat)
    requires n < |ts| && n < |ts'| && n <= |d| && n <= |d'|
    requires ts[..n + 1] == ts'[..n + 1] && d[..n] == d'[..n]
    ensures Ideal(p, ts, d, n) == Ideal(p, ts', d', n)
    decreases n
  {
    if n > 0 {
      assert ts[..n] == ts[..n + 1][..n] == ts'[..n + 1][..n] == ts'[..n];
      assert d[..n - 1] == d[..n][..n - 1] == d'[..n][..n - 1] == d'[..n - 1];
      IdealPrefix(p, ts, d, ts', d', n - 1);
      assert ts[n] == ts[..n + 1][n] == ts'[..n + 1][n] == ts'[n];
      assert ts[n - 1] == ts[..n + 1][n - 1] == ts'[..n + 1][n - 1] == ts'[n - 1];
      assert d[n - 1] == d[..n][n - 1] == d'[..n][n - 1] == d'[n - 1];
    }
  }

  /** With forward-moving readings the span of a window is the plain difference of its stamps. */
  lemma {:induction false} SpanOfMonotone(ts: seq<int>, i: nat, j: nat)
    requires i <= j < |ts|
    requires forall a, b :: 0 <= a <= b < |ts| ==> ts[a] <= ts[b]
    ensures Span(ts, i, j) == ts[j] - ts[i]
    decreases j
  {
    if i < j { SpanOfMonotone(ts, i, j - 1); }
  }

  // ----- The script follows the abstract bucket -----

  predicate InRange(p: Policy, e: Entry, now: int) {
    p.Positive() && 0 <= e.tokens <= p.Capacity() && e.updatedAt <= now && e.expiresAt == e.updatedAt + p.TtlMs()
  }

  lemma QuotientBounds(a: nat, r: int)
    requires r > 0
    ensures 0 <= (a / r) * r <= a < (a / r + 1) * r
    ensures 0 <= a / r <= a
  {
    var q := a / r;
    assert a == q * r + a % r;
    assert (q + 1) * r == q * r + r;
    GrowsByFactor(q, r);
  }

  lemma GrowsByFactor(x: nat, r: int)
    requires r >= 1
    ensures x <= x * r
  {
    assert x * r == x + x * (r - 1);
    assert 0 <= x * (r - 1);
  }

  /** The time to live covers a refill from empty, although it is computed by truncating division. */
  lemma TtlCoversFill(p: Policy, ms: int)
    requires p.Positive() && ms >= p.TtlMs()
    ensures ms * p.RefillPerMs() >= p.Capacity()
  {
    var q := (p.burst * 1000) / p.rate;
    QuotientBounds(p.burst * 1000, p.rate);
    assert ms >= q + 1;
    assert ms * p.rate >= (q + 1) * p.rate;
    assert ms * p.RefillPerMs() == ms * p.rate * 1000;
  }

  lemma RefillInTwoSteps(p: Policy, tokens: int, a: nat, b: nat)
    requires p.Positive()
    ensures Min(p.Capacity(), Min(p.Capacity(), tokens + a * p.RefillPerMs()) + b * p.RefillPerMs())
         == Min(p.Capacity(), tokens + (a + b) * p.RefillPerMs())
  {
    assert (a + b) * p.RefillPerMs() == a * p.RefillPerMs() + b * p.RefillPerMs();
    assert b * p.RefillPerMs() >= 0;
  }

  lemma {:induction false} EntryInRange(ops: seq<Op>, k: string, p: Policy)
    requires Runs(ops) && Monotone(ops) && FixedPolicy(ops, k, p) && ops != []
    ensures k in After(ops) ==> InRange(p, After(ops)[k], Last(ops).now)
    decreases |ops|
  {
    var op, front := Last(ops), Front(ops);
    if front != [] {
      assert FixedPolicy(front, k, p) by {
        forall n: nat | n < |front| && IsCall(front, k, n) ensures front[n].policy == p { assert IsCall(ops, k, n); }
      }
      EntryInRange(front, k, p);
    }
    if op.Call? && op.key == k {
      assert IsCall(ops, k, |ops| - 1);
      var db := After(front);
      if k in db {
        assert (op.now - db[k].updatedAt) * p.RefillPerMs() >= 0;
      }
    }
  }

  lemma FixedPolicyPrefix(ops: seq<Op>, k: string, p: Policy, n: nat)
    requires FixedPolicy(ops, k, p) && n <= |ops|
    ensures FixedPolicy(ops[..n], k, p)
  {
    forall m: nat | m < n && IsCall(ops[..n], k, m) ensures ops[..n][m].policy == p { assert IsCall(ops, k, m); }
  }

  predicate CallOn(op: Op, k: string) { op.Call? && op.key == k }

  lemma ExecCallLevel(db: Buckets, k: string, p: Policy, now: int, later: int)
    requires p.Positive() && now <= later
    ensures Level(p, Get(Exec(db, Call(k, p, now)), k), later)
         == Min(p.Capacity(), Level(p, Get(db, k), now) - Spend(Level(p, Get(db, k), now) >= COST) + (later - now) * p.RefillPerMs())
  {
  }

  lemma ExecOtherLevel(db: Buckets, k: string, p: Policy, op: Op, later: int)
    requires CanExec(db, op) && !CallOn(op, k) && op.now <= later && p.Positive()
    requires k in db ==> InRange(p, db[k], op.now)
    ensures Level(p, Get(Exec(db, op), k), later) == Min(p.Capacity(), Level(p, Get(db, k), op.now) + (later - op.now) * p.RefillPerMs())
  {
    assert (later - op.now) * p.RefillPerMs() >= 0;
    if k in db {
      if op.Evict? && op.key == k {
        ExpiredIsFull(p, db[k], op.now);
      } else {
        KeptLevel(p, db[k], op.now, later);
      }
    }
  }

  lemma ExpiredIsFull(p: Policy, e: Entry, now: int)
    requires InRange(p, e, now) && e.expiresAt <= now
    ensures Level(p, Some(e), now) == p.Capacity()
  {
    TtlCoversFill(p, now - e.updatedAt);
  }

  lemma KeptLevel(p: Policy, e: Entry, now: int, later: int)
    requires InRange(p, e, now) && now <= later
    ensures Level(p, Some(e), later) == Min(p.Capacity(), Level(p, Some(e), now) + (later - now) * p.RefillPerMs())
  {
    RefillInTwoSteps(p, e.tokens, now - e.updatedAt, later - now);
  }

  /** One step of the run moves the bucket as the abstract bucket moves. */
  lemma LevelStep(ops: seq<Op>, k: string, p: Policy, n: nat)
    requires Runs(ops) && Monotone(ops) && FixedPolicy(ops, k, p) && 0 < n < |ops|
    ensures LevelAt(ops, k, p, n)
         == Min(p.Capacity(), LevelAt(ops, k, p, n - 1) - Spend(Admitted(ops, k, n - 1)) + (ops[n].now - ops[n - 1].now) * p.RefillPerMs())
  {
    assert ops[n - 1].now <= ops[n].now;
    if CallOn(ops[n - 1], k) {
      assert IsCall(ops, k, n - 1);
      LevelAfterCall(ops, k, p, n);
    } else {
      StoredInRange(ops, k, p, n - 1);
      LevelAfterOther(ops, k, p, n);
    }
  }

  lemma LevelAfterCall(ops: seq<Op>, k: string, p: Policy, n: nat)
    requires Runs(ops) && p.Positive() && 0 < n < |ops| && ops[n - 1] == Call(k, p, ops[n - 1].now) && ops[n - 1].now <= ops[n].now
    ensures LevelAt(ops, k, p, n)
         == Min(p.Capacity(), LevelAt(ops, k, p, n - 1) - Spend(Admitted(ops, k, n - 1)) + (ops[n].now - ops[n - 1].now) * p.RefillPerMs())
  {
    AfterStep(ops, n);
    ExecCallLevel(After(ops[..n - 1]), k, p, ops[n - 1].now, ops[n].now);
  }

  lemma LevelAfterOther(ops: seq<Op>, k: string, p: Policy, n: nat)
    requires Runs(ops) && p.Positive() && 0 < n < |ops| && !CallOn(ops[n - 1], k) && ops[n - 1].now <= ops[n].now
    requires Runs(ops[..n - 1]) && (k in After(ops[..n - 1]) ==> InRange(p, After(ops[..n - 1])[k], ops[n - 1].now))
    ensures LevelAt(ops, k, p, n)
         == Min(p.Capacity(), LevelAt(ops, k, p, n - 1) + (ops[n].now - ops[n - 1].now) * p.RefillPerMs())
  {
    AfterStep(ops, n);
    ExecOtherLevel(After(ops[..n - 1]), k, p, ops[n - 1], ops[n].now);
  }

  lemma AfterStep(ops: seq<Op>, n: nat)
    requires Runs(ops) && 0 < n <= |ops|
    ensures Runs(ops[..n - 1]) && Runs(ops[..n]) && CanExec(After(ops[..n - 1]), ops[n - 1])
    ensures After(ops[..n]) == Exec(After(ops[..n - 1]), ops[n - 1])
  {
    RunsPrefix(ops, n);
    RunsPrefix(ops, n - 1);
    assert Front(ops[..n]) == ops[..n - 1] && Last(ops[..n]) == ops[n - 1];
  }

  lemma StoredInRange(ops: seq<Op>, k: string, p: Policy, n: nat)
    requires Runs(ops) && Monotone(ops) && FixedPolicy(ops, k, p) && n < |ops|
    ensures Runs(ops[..n]) && (k in After(ops[..n]) ==> InRange(p, After(ops[..n])[k], ops[n].now))
  {
    RunsPrefix(ops, n);
    if n > 0 {
      FixedPolicyPrefix(ops, k, p, n);
      EntryInRange(ops[..n], k, p);
      assert ops[n - 1].now <= ops[n].now;
    }
  }

  /** Whatever else happens on the shared Redis, bucket `k` holds what its own admissions leave. */
  lemma {:induction false} LevelIsIdeal(ops: seq<Op>, k: string, p: Policy, n: nat)
    requires Runs(ops) && Monotone(ops) && FixedPolicy(ops, k, p) && n < |ops|
    ensures LevelAt(ops, k, p, n) == Ideal(p, Times(ops), Admissions(ops, k), n)
    decreases n
  {
    if n == 0 {
      RunsPrefix(ops, 0);
      assert ops[..0] == [];
    } else {
      LevelIsIdeal(ops, k, p, n - 1);
      LevelStep(ops, k, p, n);
      assert ops[n - 1].now <= ops[n].now;
    }
  }

  lemma AdmissionsFeasible(ops: seq<Op>, k: string, p: Policy)
    requires Runs(ops) && Monotone(ops) && FixedPolicy(ops, k, p)
    ensures Feasible(p, Times(ops), Admissions(ops, k))
  {
    var d := Admissions(ops, k);
    forall n: nat | n < |d| && d[n]
      ensures Ideal(p, Times(ops), d, n) >= COST
    {
      LevelIsIdeal(ops, k, p, n);
    }
  }

  // ----- Main results -----

  /** Admissions to bucket `k` in steps i to j, both included. */
  function AdmittedBetween(ops: seq<Op>, k: string, i: nat, j: nat): nat
    requires Runs(ops) && i <= j < |ops|
  {
    Count(Admissions(ops, k), i, j + 1)
  }

  /** Admitting step n would overfill the window that starts at step i. */
  predicate WouldOverfill(ops: seq<Op>, k: string, p: Policy, i: nat, n: nat)
    requires Runs(ops) && i <= n < |ops| && ops[i].now <= ops[n].now
  {
    Count(Admissions(ops, k), i, n) + 1 > WindowLimit(p, ops[n].now - ops[i].now)
  }

  /**
   A call is refused exactly when admitting it would overfill some window that
   starts at a call on the same bucket: the bucket is neither lax nor needlessly strict.
   */
  lemma ExactAdmission(ops: seq<Op>, k: string, p: Policy, n: nat)
    requires Runs(ops) && Monotone(ops) && FixedPolicy(ops, k, p) && n < |ops| && IsCall(ops, k, n)
    ensures !ReplyAt(ops, n).allowed <==>
            exists i: nat :: i <= n && IsCall(ops, k, i) && WouldOverfill(ops, k, p, i, n)
  {
    forall i: nat | i <= n && WouldOverfill(ops, k, p, i, n)
      ensures !ReplyAt(ops, n).allowed
    {
      OverfillRefused(ops, k, p, i, n);
    }
    if !ReplyAt(ops, n).allowed {
      var i := RefusalOverfills(ops, k, p, n);
      var c := TightenToCall(ops, k, p, i, n);
    }
  }

  lemma OverfillRefused(ops: seq<Op>, k: string, p: Policy, i: nat, n: nat)
    requires Runs(ops) && Monotone(ops) && FixedPolicy(ops, k, p) && i <= n < |ops| && IsCall(ops, k, n)
    requires WouldOverfill(ops, k, p, i, n)
    ensures !ReplyAt(ops, n).allowed
  {
    var ts, d := Times(ops), Admissions(ops, k);
    LevelIsIdeal(ops, k, p, n);
    SpanOfMonotone(ts, i, n);
    IdealUpper(p, ts, d, i, n);
    LimitInMicrotokens(p, Span(ts, i, n), Count(d, i, n) + 1);
  }

  lemma RefusalOverfills(ops: seq<Op>, k: string, p: Policy, n: nat) returns (i: nat)
    requires Runs(ops) && Monotone(ops) && FixedPolicy(ops, k, p) && n < |ops| && IsCall(ops, k, n)
    requires !ReplyAt(ops, n).allowed
    ensures i <= n && WouldOverfill(ops, k, p, i, n)
  {
    var ts, d := Times(ops), Admissions(ops, k);
    LevelIsIdeal(ops, k, p, n);
    i := IdealAttained(p, ts, d, n);
    SpanOfMonotone(ts, i, n);
    LimitInMicrotokens(p, Span(ts, i, n), Count(d, i, n) + 1);
  }

  /** A window that overfills still overfills when its start moves on to the bucket's next call. */
  lemma {:induction false} TightenToCall(ops: seq<Op>, k: string, p: Policy, i: nat, n: nat) returns (c: nat)
    requires Runs(ops) && Monotone(ops) && p.Positive() && i <= n < |ops| && IsCall(ops, k, n)
    requires WouldOverfill(ops, k, p, i, n)
    ensures i <= c <= n && IsCall(ops, k, c) && WouldOverfill(ops, k, p, c, n)
    decreases n - i
  {
    if IsCall(ops, k, i) {
      c := i;
    } else {
      CountFromLeft(Admissions(ops, k), i, n);
      assert ops[i].now <= ops[i + 1].now <= ops[n].now;
      LimitMonotone(p, ops[n].now - ops[i + 1].now, ops[n].now - ops[i].now);
      c := TightenToCall(ops, k, p, i + 1, n);
    }
  }

  lemma LimitMonotone(p: Policy, a: nat, b: nat)
    requires p.Positive() && a <= b
    ensures WindowLimit(p, a) <= WindowLimit(p, b)
  {
    assert p.rate * a <= p.rate * b;
  }

  lemma {:induction false} CountFromLeft(d: seq<bool>, i: nat, j: nat)
    requires i < j <= |d|
    ensures Count(d, i, j) == (if d[i] then 1 else 0) + Count(d, i + 1, j)
    decreases j
  {
    if i + 1 < j { CountFromLeft(d, i, j - 1); }
  }

  /**
   Greedy is optimal: the script's choice respects every window, and on every prefix no other choice of
   accepted calls that respects every window of the same quota accepts more.
   */
  lemma {:induction false} GreedyOptimal(ops: seq<Op>, k: string, p: Policy, other: seq<bool>, n: nat)
    requires Runs(ops) && Monotone(ops) && FixedPolicy(ops, k, p)
    requires |other| == |ops| && n <= |ops|
    requires forall m: nat :: m < |ops| && other[m] ==> IsCall(ops, k, m)
    requires WindowsBounded(p, Times(ops), other)
    ensures Count(other, 0, n) <= Count(Admissions(ops, k), 0, n)
    ensures WindowsBounded(p, Times(ops), Admissions(ops, k))
  {
    AdmissionsFeasible(ops, k, p);
    FeasibleIffWindowsBounded(p, Times(ops), Admissions(ops, k));
    FeasibleIffWindowsBounded(p, Times(ops), other);
    if n > 0 { GreedyAhead(ops, k, p, other, n - 1); }
  }

  /** Tokens plus acceptances: the script is never behind, and trails in count only if ahead in tokens. */
  lemma {:induction false} GreedyAhead(ops: seq<Op>, k: string, p: Policy, other: seq<bool>, n: nat)
    requires Runs(ops) && Monotone(ops) && FixedPolicy(ops, k, p)
    requires |other| == |ops| && n < |ops|
    requires forall m: nat :: m < |ops| && other[m] ==> IsCall(ops, k, m)
    requires Feasible(p, Times(ops), other)
    ensures Count(other, 0, n) * COST + Ideal(p, Times(ops), other, n)
         <= Count(Admissions(ops, k), 0, n) * COST + Ideal(p, Times(ops), Admissions(ops, k), n)
    ensures Count(other, 0, n) <= Count(Admissions(ops, k), 0, n)
    ensures Count(other, 0, n + 1) <= Count(Admissions(ops, k), 0, n + 1)
    decreases n
  {
    if n > 0 { GreedyAhead(ops, k, p, other, n - 1); }
    LevelIsIdeal(ops, k, p, n);
  }

  /** An identical run in which Redis never forgets a bucket. */
  function NeverForgetting(ops: seq<Op>): (r: seq<Op>)
    ensures |r| == |ops|
    ensures forall n :: 0 <= n < |ops| ==> r[n] == if ops[n].Evict? then Idle(ops[n].now) else ops[n]
  {
    seq(|ops|, n requires 0 <= n < |ops| => if ops[n].Evict? then Idle(ops[n].now) else ops[n])
  }

  lemma {:induction false} NeverForgettingRuns(ops: seq<Op>)
    requires Runs(ops)
    ensures Runs(NeverForgetting(ops))
    decreases |ops|
  {
    if ops != [] {
      NeverForgettingRuns(Front(ops));
      assert Front(NeverForgetting(ops)) == NeverForgetting(Front(ops));
    }
  }

  /** Expiry is invisible: all four results equal those of a bucket that is never forgotten. */
  lemma {:induction false} ExpiryInvisible(ops: seq<Op>, k: string, p: Policy, n: nat)
    requires Runs(ops) && Monotone(ops) && FixedPolicy(ops, k, p) && n < |ops| && IsCall(ops, k, n)
    ensures Runs(NeverForgetting(ops))
    ensures ReplyAt(ops, n) == ReplyAt(NeverForgetting(ops), n)
    decreases n
  {
    var kept := NeverForgetting(ops);
    NeverForgettingRuns(ops);
    assert FixedPolicy(kept, k, p) by {
      forall m: nat | m < |kept| && IsCall(kept, k, m) ensures kept[m].policy == p { assert IsCall(ops, k, m); }
    }
    forall m: nat | m < n
      ensures Admitted(ops, k, m) == Admitted(kept, k, m)
    {
      if IsCall(ops, k, m) { ExpiryInvisible(ops, k, p, m); }
    }
    SameHistorySameReply(ops, kept, k, p, n);
  }

  /** The answer to a call depends only on the stamps so far and on what the bucket admitted so far. */
  lemma SameHistorySameReply(ops: seq<Op>, ops': seq<Op>, k: string, p: Policy, n: nat)
    requires Runs(ops) && Monotone(ops) && FixedPolicy(ops, k, p) && n < |ops| && IsCall(ops, k, n)
    requires Runs(ops') && Monotone(ops') && FixedPolicy(ops', k, p) && n < |ops'| && IsCall(ops', k, n)
    requires forall i: nat :: i <= n ==> ops[i].now == ops'[i].now
    requires forall i: nat :: i < n ==> Admitted(ops, k, i) == Admitted(ops', k, i)
    ensures ReplyAt(ops, n) == ReplyAt(ops', n)
  {
    LevelIsIdeal(ops, k, p, n);
    LevelIsIdeal(ops', k, p, n);
    assert Times(ops)[..n + 1] == Times(ops')[..n + 1];
    assert Admissions(ops, k)[..n] == Admissions(ops', k)[..n];
    IdealPrefix(p, Times(ops), Admissions(ops, k), Times(ops'), Admissions(ops', k), n);
  }

  /**
   When quotas change, expiry under the old quota stays invisible to the new one for
   every stored amount and every later call exactly when the old time to live covers the new fill time.
   */
  lemma ExpiryAcrossPolicies(p: Policy, q: Policy)
    requires p.Positive() && q.Positive()
    ensures (forall e: Entry, now: int :: 0 <= e.tokens <= p.Capacity() && e.expiresAt == e.updatedAt + p.TtlMs() && now >= e.expiresAt
              ==> Level(q, Some(e), now) == Level(q, None, now))
       <==> p.TtlMs() * q.RefillPerMs() >= q.Capacity()
  {
    if p.TtlMs() * q.RefillPerMs() >= q.Capacity() {
      forall e: Entry, now: int | 0 <= e.tokens <= p.Capacity() && e.expiresAt == e.updatedAt + p.TtlMs() && now >= e.expiresAt
        ensures Level(q, Some(e), now) == Level(q, None, now)
      {
        assert (now - e.updatedAt) * q.RefillPerMs() >= p.TtlMs() * q.RefillPerMs();
      }
    } else {
      var e := Entry(0, 0, p.TtlMs());
      assert Level(q, Some(e), p.TtlMs()) != Level(q, None, p.TtlMs());
    }
  }

  // ----- Retry times -----

  lemma {:induction false} LevelInRange(ops: seq<Op>, k: string, p: Policy, n: nat)
    requires Runs(ops) && n < |ops| && p.Positive()
    ensures 0 <= LevelAt(ops, k, p, n) <= p.Capacity()
  {
    RunsPrefix(ops, n);
    TokensInRange(ops[..n], k);
    var db := After(ops[..n]);
    if k in db {
      assert Max(0, ops[n].now - db[k].updatedAt) * p.RefillPerMs() >= 0;
    }
  }

  lemma RetryArithmetic(p: Policy, before: int, after: int, gap: nat)
    requires p.Positive() && before < COST && after == Min(p.Capacity(), before + gap * p.RefillPerMs())
    ensures ReplyOf(p, after).allowed <==> gap >= ReplyOf(p, before).retryMs
    ensures !ReplyOf(p, after).allowed ==> gap + ReplyOf(p, after).retryMs == ReplyOf(p, before).retryMs
  {
    CeilDivLeast(COST - before, p.RefillPerMs(), gap);
    CeilDivShift(COST - before, p.RefillPerMs(), gap);
  }

  // ----- Denied calls leave no trace -----

  /** The same run without the call at step n. */
  function Without(ops: seq<Op>, n: nat): seq<Op>
    requires n < |ops|
  {
    ops[n := Idle(ops[n].now)]
  }

  /** Equal but for bucket `k`, which may be older and so expire sooner. */
  predicate AgreeExcept(db: Buckets, db': Buckets, k: string) {
    && db.Keys == db'.Keys
    && (forall x :: x in db && x != k ==> db[x] == db'[x])
    && (k in db ==> db'[k].expiresAt <= db[k].expiresAt)
  }

  lemma {:induction false} WithoutDeniedRuns(ops: seq<Op>, k: string, p: Policy, n: nat, j: nat)
    requires Runs(ops) && Monotone(ops) && FixedPolicy(ops, k, p) && n < j <= |ops|
    requires IsCall(ops, k, n) && !ReplyAt(ops, n).allowed
    ensures Runs(ops[..j]) && Runs(Without(ops, n)[..j])
    ensures AgreeExcept(After(ops[..j]), After(Without(ops, n)[..j]), k)
    decreases j
  {
    var rest := Without(ops, n);
    AfterStep(ops, j);
    assert Front(rest[..j]) == rest[..j - 1] && Last(rest[..j]) == rest[j - 1];
    if j == n + 1 {
      assert ops[..n] == rest[..n];
      StoredInRange(ops, k, p, n);
      AgreeAfterCall(After(ops[..n]), k, p, ops[n].now);
    } else {
      WithoutDeniedRuns(ops, k, p, n, j - 1);
      assert rest[j - 1] == ops[j - 1];
      AgreeStep(After(ops[..j - 1]), After(rest[..j - 1]), k, ops[j - 1]);
    }
  }

  lemma AgreeAfterCall(db: Buckets, k: string, p: Policy, now: int)
    requires k in db && InRange(p, db[k], now)
    ensures AgreeExcept(Exec(db, Call(k, p, now)), db, k)
  {
  }

  lemma AgreeStep(db: Buckets, db': Buckets, k: string, op: Op)
    requires AgreeExcept(db, db', k) && CanExec(db, op)
    ensures CanExec(db', op) && AgreeExcept(Exec(db, op), Exec(db', op), k)
  {
  }

  lemma WithoutDeniedIsRun(ops: seq<Op>, k: string, p: Policy, n: nat)
    requires Runs(ops) && Monotone(ops) && FixedPolicy(ops, k, p) && n < |ops|
    requires IsCall(ops, k, n) && !ReplyAt(ops, n).allowed
    ensures Runs(Without(ops, n)) && Monotone(Without(ops, n)) && FixedPolicy(Without(ops, n), k, p)
  {
    var rest := Without(ops, n);
    WithoutDeniedRuns(ops, k, p, n, |ops|);
    assert rest[..|ops|] == rest;
    forall i: nat | i < |rest| && IsCall(rest, k, i) ensures rest[i].policy == p { assert IsCall(ops, k, i); }
  }

  lemma AdmittedByPrefix(ops: seq<Op>, ops': seq<Op>, k: string, i: nat)
    requires Runs(ops) && Runs(ops') && i < |ops| && i < |ops'| && ops[..i] == ops'[..i] && ops[i] == ops'[i]
    ensures Admitted(ops, k, i) == Admitted(ops', k, i)
  {
  }

  lemma OtherBucketReply(ops: seq<Op>, k: string, p: Policy, n: nat, m: nat)
    requires Runs(ops) && Monotone(ops) && FixedPolicy(ops, k, p) && n < m < |ops|
    requires IsCall(ops, k, n) && !ReplyAt(ops, n).allowed && ops[m].Call? && ops[m].key != k
    requires Runs(Without(ops, n))
    ensures ReplyAt(Without(ops, n), m) == ReplyAt(ops, m)
  {
    WithoutDeniedRuns(ops, k, p, n, m);
  }

  /** Dropping one denied call from a run changes no later answer, on any bucket. */
  lemma {:induction false} DenialLeavesNoTrace(ops: seq<Op>, k: string, p: Policy, n: nat, m: nat)
    requires Runs(ops) && Monotone(ops) && FixedPolicy(ops, k, p) && n < m < |ops|
    requires IsCall(ops, k, n) && !ReplyAt(ops, n).allowed && ops[m].Call?
    ensures Runs(Without(ops, n)) && ReplyAt(Without(ops, n), m) == ReplyAt(ops, m)
    decreases m
  {
    var rest := Without(ops, n);
    WithoutDeniedIsRun(ops, k, p, n);
    if ops[m].key != k {
      OtherBucketReply(ops, k, p, n, m);
    } else {
      forall i: nat | i < m
        ensures Admitted(ops, k, i) == Admitted(rest, k, i)
      {
        if i < n {
          AdmittedByPrefix(ops, rest, k, i);
        } else if i > n && IsCall(ops, k, i) {
          DenialLeavesNoTrace(ops, k, p, n, i);
        }
      }
      SameHistorySameReply(ops, rest, k, p, m);
    }
  }

  lemma ReplyByPrefix(ops: seq<Op>, ops': seq<Op>, i: nat)
    requires Runs(ops) && Runs(ops') && i < |ops| && i < |ops'| && ops[..i] == ops'[..i] && ops[i] == ops'[i] && ops[i].Call?
    ensures ReplyAt(ops, i) == ReplyAt(ops', i)
  {
  }

  /** The same run without the calls at the steps in `gone`. */
  function Removed(ops: seq<Op>, gone: set<nat>): (rest: seq<Op>)
    ensures |rest| == |ops| && forall n :: 0 <= n < |ops| ==> rest[n] == if n in gone then Idle(ops[n].now) else ops[n]
  {
    seq(|ops|, n requires 0 <= n < |ops| => if n in gone then Idle(ops[n].now) else ops[n])
  }

  /** Denied calls, each on a bucket whose callers all present one quota. */
  ghost predicate AllDenied(ops: seq<Op>, gone: set<nat>)
    requires Runs(ops)
  {
    forall n :: n in gone ==> n < |ops| && ops[n].Call? && !ReplyAt(ops, n).allowed && FixedPolicy(ops, ops[n].key, ops[n].policy)
  }

  /** Every call outside `gone` is answered alike in both runs. */
  ghost predicate SameReplies(ops: seq<Op>, rest: seq<Op>, gone: set<nat>)
    requires Runs(ops) && Runs(rest) && |rest| == |ops|
  {
    forall m: nat :: m < |ops| && m !in gone && ops[m].Call? ==> rest[m].Call? && ReplyAt(rest, m) == ReplyAt(ops, m)
  }

  lemma SameRepliesTrans(ops: seq<Op>, mid: seq<Op>, rest: seq<Op>, n: nat, gone: set<nat>)
    requires Runs(ops) && Runs(mid) && Runs(rest) && |ops| == |mid| == |rest| && n in gone
    requires SameReplies(ops, mid, {n}) && SameReplies(mid, rest, gone - {n})
    ensures SameReplies(ops, rest, gone)
  {
  }

  lemma RemoveOne(ops: seq<Op>, gone: set<nat>, n: nat)
    requires Runs(ops) && Monotone(ops) && AllDenied(ops, gone) && n in gone
    ensures var rest := Without(ops, n);
            Runs(rest) && Monotone(rest) && AllDenied(rest, gone - {n}) && SameReplies(ops, rest, {n})
  {
    var rest, k, p := Without(ops, n), ops[n].key, ops[n].policy;
    WithoutDeniedIsRun(ops, k, p, n);
    forall m: nat | m < |ops| && m != n && ops[m].Call? ensures ReplyAt(rest, m) == ReplyAt(ops, m) {
      if m < n { ReplyByPrefix(ops, rest, m); } else { DenialLeavesNoTrace(ops, k, p, n, m); }
    }
    forall x | x in gone - {n} ensures FixedPolicy(rest, rest[x].key, rest[x].policy) {
      forall i: nat | i < |rest| && IsCall(rest, ops[x].key, i) ensures rest[i].policy == ops[x].policy { assert IsCall(ops, ops[x].key, i); }
    }
  }

  /** Dropping any set of denied calls from a run leaves a run in which every other answer, on any bucket, is unchanged. */
  lemma {:induction false} DenialsLeaveNoTrace(ops: seq<Op>, gone: set<nat>)
    requires Runs(ops) && Monotone(ops) && AllDenied(ops, gone)
    ensures Runs(Removed(ops, gone)) && SameReplies(ops, Removed(ops, gone), gone)
    decreases |gone|
  {
    if gone == {} {
      NothingRemoved(ops);
    } else {
      var n :| n in gone;
      RemoveOne(ops, gone, n);
      var mid, less := Without(ops, n), gone - {n};
      DenialsLeaveNoTrace(mid, less);
      RemovedRest(ops, gone, n);
      SameRepliesTrans(ops, mid, Removed(mid, less), n, gone);
    }
  }

  lemma NothingRemoved(ops: seq<Op>)
    requires Runs(ops)
    ensures Removed(ops, {}) == ops && SameReplies(ops, ops, {})
  {
    assert Removed(ops, {}) == ops;
  }

  lemma RemovedRest(ops: seq<Op>, gone: set<nat>, n: nat)
    requires n in gone && n < |ops|
    ensures Removed(Without(ops, n), gone - {n}) == Removed(ops, gone)
  {
  }

  /** A retry is due within one second. */
  lemma RetryWithinSecond(p: Policy, level: int)
    requires p.Positive() && 0 <= level < COST
    ensures 1 <= ReplyOf(p, level).retryMs <= 1000
  {
    assert 1000 * p.RefillPerMs() >= COST;
    CeilDivLeast(COST - level, p.RefillPerMs(), 1000);
    CeilDivLeast(COST - level, p.RefillPerMs(), 0);
  }

  /** A bucket is full again at the latest after the time a refill from empty takes. */
  lemma FullTimeBound(p: Policy, level: int)
    requires p.Positive() && 0 <= level <= p.Capacity()
    ensures 0 <= ReplyOf(p, level).fullMs <= p.burst * 1000
  {
    var missing, f := p.Capacity() - ReplyOf(p, level).tokens, p.RefillPerMs();
    CeilDivLeast(missing, f, -1);
    CeilDivLeast(missing, f, p.burst * 1000);
    assert p.burst * 1000 * f == p.Capacity() * p.rate;
    GrowsByFactor(p.Capacity(), p.rate);
  }

  // ----- Arithmetic headroom -----

  const MAX_INT32: int := 0x7FFF_FFFF
  const TWO_53: int := 0x20_0000_0000_0000
  const MAX_INT64: int := 0x7FFF_FFFF_FFFF_FFFF

  /**
   For every quota that the INTEGER columns admit and every entry not yet past its expiry, the amounts the
   script computes are exact in a double, and the gateway's products fit in 64 bits.
   */
  lemma Headroom(p: Policy, e: Entry, now: int)
    requires p.Positive() && p.rate <= MAX_INT32 && p.burst <= MAX_INT32
    requires InRange(p, e, now) && now <= e.expiresAt
    ensures 0 <= (now - e.updatedAt) * p.RefillPerMs() <= (2 * p.burst + p.rate) * 1_000_000
    ensures e.tokens + (now - e.updatedAt) * p.RefillPerMs() <= (3 * p.burst + p.rate) * 1_000_000 < TWO_53
    ensures p.Capacity() < MAX_INT64 && p.RefillPerMs() < MAX_INT64 && p.burst * 1000 < MAX_INT64 && 0 < p.TtlMs() < MAX_INT64
    ensures ReplyOf(p, Level(p, Some(e), now)).fullMs * 1_000_000 < MAX_INT64
  {
    CreditWithinTtl(p, now - e.updatedAt);
    TtlTimesRate(p);
    FullTimeBound(p, Level(p, Some(e), now));
  }

  lemma CreditWithinTtl(p: Policy, elapsed: int)
    requires p.Positive() && 0 <= elapsed <= p.TtlMs()
    ensures 0 <= elapsed * p.RefillPerMs() <= (2 * p.burst + p.rate) * 1_000_000
  {
    TtlTimesRate(p);
    assert 0 <= elapsed * p.rate <= p.TtlMs() * p.rate;
    assert elapsed * p.RefillPerMs() == elapsed * p.rate * 1000;
  }

  lemma TtlTimesRate(p: Policy)
    requires p.Positive()
    ensures p.TtlMs() * p.rate <= 2000 * p.burst + 1000 * p.rate
    ensures 0 < p.TtlMs() <= 2000 * p.burst + 1000
  {
    var q := (p.burst * 1000) / p.rate;
    QuotientBounds(p.burst * 1000, p.rate);
    assert p.TtlMs() * p.rate == 2 * (q * p.rate) + 1000 * p.rate;
  }
}
