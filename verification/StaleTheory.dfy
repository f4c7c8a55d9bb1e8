/**
 Calls that still present another quota than the one in force: exactly which quotas they may present without putting
 the bucket ahead.
 */
module StaleTheory {
  import opened Util
  import opened TokenBucket
  import opened BucketTheory
  import opened WindowTheory

  /** Every caller of bucket `k` in steps c to m presents p or q. */
  predicate EitherDuring(ops: seq<Op>, k: string, q: Policy, p: Policy, c: nat, m: nat)
    requires m < |ops|
  {
    forall n: nat :: c <= n <= m && IsCall(ops, k, n) ==> ops[n].policy == p || ops[n].policy == q
  }

  /** No mixture of calls that present p or q ever puts a bucket ahead of p. */
  ghost predicate NeverAhead(q: Policy, p: Policy) {
    forall ops: seq<Op>, k: string, c: nat, m: nat ::
      Runs(ops) && c <= m < |ops| && IsCall(ops, k, c) && MonotoneDuring(ops, c, m) && EitherDuring(ops, k, q, p, c, m)
      ==> NotAhead(ops, k, p, c, m)
  }

  lemma HarmlessNeverAhead(q: Policy, p: Policy)
    requires Harmless(q, p)
    ensures NeverAhead(q, p)
  {
    forall ops: seq<Op>, k: string, c: nat, m: nat
      | Runs(ops) && c <= m < |ops| && IsCall(ops, k, c) && MonotoneDuring(ops, c, m) && EitherDuring(ops, k, q, p, c, m)
      ensures NotAhead(ops, k, p, c, m)
    {
      HarmlessToItself(p);
      LevelUpper(ops, k, p, c, m);
    }
  }

  // ----- A bucket drained by its own quota -----

  function Drain(k: string, p: Policy, n: nat): (ops: seq<Op>)
    ensures |ops| == n && forall i :: 0 <= i < n ==> ops[i] == Call(k, p, 0)
  {
    seq(n, i => Call(k, p, 0))
  }

  lemma {:induction false} DrainAfter(k: string, p: Policy, n: nat)
    requires p.Positive() && n <= p.burst
    ensures Runs(Drain(k, p, n))
    ensures After(Drain(k, p, n)) == if n == 0 then map[] else map[k := Entry((p.burst - n) * COST, 0, p.TtlMs())]
    decreases n
  {
    if n > 0 {
      DrainAfter(k, p, n - 1);
      assert Front(Drain(k, p, n)) == Drain(k, p, n - 1);
      assert Last(Drain(k, p, n)) == Call(k, p, 0);
    }
  }

  /** Whatever follows, the draining calls are all admitted. */
  lemma {:induction false} DrainAdmitted(k: string, p: Policy, ops: seq<Op>, n: nat)
    requires p.Positive() && n <= p.burst && n <= |ops| && Runs(ops) && ops[..n] == Drain(k, p, n)
    ensures Count(Admissions(ops, k), 0, n) == n
    decreases n
  {
    if n > 0 {
      assert ops[..n - 1] == ops[..n][..n - 1] == Drain(k, p, n - 1);
      DrainAdmitted(k, p, ops, n - 1);
      assert ops[n - 1] == ops[..n][n - 1] == Call(k, p, 0);
      DrainAfter(k, p, n - 1);
      NextDrained(k, p, ops, n - 1);
    }
  }

  lemma NextDrained(k: string, p: Policy, ops: seq<Op>, n: nat)
    requires p.Positive() && n < p.burst && n < |ops| && Runs(ops) && Runs(ops[..n]) && ops[n] == Call(k, p, 0)
    requires After(ops[..n]) == if n == 0 then map[] else map[k := Entry((p.burst - n) * COST, 0, p.TtlMs())]
    ensures Admitted(ops, k, n)
  {
    assert LevelAt(ops, k, p, n) == (p.burst - n) * COST;
    ReplyByLevel(ops, k, p, n);
  }

  // ----- Three ways of getting ahead -----

  /** A larger burst: one call under q, then one under p, and the bucket is still full. */
  lemma LargerBurstAhead(q: Policy, p: Policy)
    requires p.Positive() && q.Positive() && q.burst > p.burst
    ensures !NeverAhead(q, p)
  {
    var k := "";
    var ops := [Call(k, q, 0), Call(k, p, 0)];
    RunsOfTwo(k, q, p);
    assert IsCall(ops, k, 0) && Admitted(ops, k, 0);
    assert Count(Admissions(ops, k), 0, 1) == 1;
    assert Span(Times(ops), 0, 1) == 0;
    assert !NotAhead(ops, k, p, 0, 1);
  }

  lemma RunsOfTwo(k: string, q: Policy, p: Policy)
    requires p.Positive() && q.Positive() && q.burst > p.burst
    ensures var ops := [Call(k, q, 0), Call(k, p, 0)];
            Runs(ops) && LevelAt(ops, k, q, 0) == q.Capacity() && LevelAt(ops, k, p, 1) == p.Capacity()
  {
    var ops := [Call(k, q, 0), Call(k, p, 0)];
    assert ops[..0] == [] && ops[..1] == [Call(k, q, 0)];
    assert Front(ops) == ops[..1] && Front(ops[..1]) == [];
    assert After(ops[..1]) == map[k := Entry(q.Capacity() - COST, 0, q.TtlMs())];
  }

  /** What the stale call finds one millisecond after the bucket was drained. */
  function Gain(q: Policy): int { Min(q.Capacity(), q.RefillPerMs()) }

  /** The drained bucket, one stale call a millisecond later, and the next call under p at that instant. */
  function Faster(k: string, q: Policy, p: Policy): seq<Op>
    requires p.Positive()
  {
    Drain(k, p, p.burst) + [Call(k, q, 1), Call(k, p, 1)]
  }

  lemma FasterRuns(k: string, q: Policy, p: Policy)
    requires p.Positive() && q.Positive() && q.burst <= p.burst
    ensures var ops, b := Faster(k, q, p), p.burst;
            && Runs(ops) && LevelAt(ops, k, q, b) == Gain(q)
            && LevelAt(ops, k, p, b + 1) == Gain(q) - Spend(Gain(q) >= COST)
            && Count(Admissions(ops, k), 0, b + 1) == b + (if Gain(q) >= COST then 1 else 0)
  {
    var ops, b, full := Faster(k, q, p), p.burst, Drain(k, p, p.burst);
    DrainAfter(k, p, b);
    var db := After(full);
    assert RunsFrom(db, []);
    RunsFromSnoc(db, [], Call(k, q, 1));
    assert [] + [Call(k, q, 1)] == [Call(k, q, 1)];
    RunsFromSnoc(db, [Call(k, q, 1)], Call(k, p, 1));
    assert [Call(k, q, 1)] + [Call(k, p, 1)] == [Call(k, q, 1), Call(k, p, 1)];
    RunsOn(full, [Call(k, q, 1), Call(k, p, 1)]);
    assert ops[..b] == full;
    RunsOn(full, [Call(k, q, 1)]);
    assert ops[..b + 1] == full + [Call(k, q, 1)];
    assert LevelAt(ops, k, q, b) == Gain(q);
    DrainAdmitted(k, p, ops, b);
    AdmittedByLevel(ops, k, b);
  }

  /** A faster refill that p's own millisecond does not make up for. */
  lemma FasterAhead(q: Policy, p: Policy)
    requires p.Positive() && q.Positive() && q.burst <= p.burst && q.rate > p.rate && 1000 * q.burst > p.rate
    ensures !NeverAhead(q, p)
  {
    var k := "";
    var ops, b := Faster(k, q, p), p.burst;
    FasterRuns(k, q, p);
    assert Times(ops)[0] == 0 && Times(ops)[b + 1] == 1;
    assert MonotoneDuring(ops, 0, b + 1);
    SpanForward(ops, 0, b + 1);
    assert IsCall(ops, k, 0) && EitherDuring(ops, k, q, p, 0, b + 1);
    assert 1 * p.RefillPerMs() == p.RefillPerMs();
    assert !NotAhead(ops, k, p, 0, b + 1);
  }

  /** The drained bucket, one stale call that only resets the expiry, removal then, and the next call under p. */
  function Forgotten(k: string, q: Policy, p: Policy): seq<Op>
    requires p.Positive() && q.Positive()
  {
    Drain(k, p, p.burst) + [Call(k, q, 0), Evict(k, q.TtlMs()), Call(k, p, q.TtlMs())]
  }

  lemma ForgottenRuns(k: string, q: Policy, p: Policy)
    requires p.Positive() && q.Positive()
    ensures var ops, b := Forgotten(k, q, p), p.burst;
            && Runs(ops) && LevelAt(ops, k, p, b + 2) == p.Capacity() && Count(Admissions(ops, k), 0, b + 2) == b
  {
    var ops, b, full := Forgotten(k, q, p), p.burst, Drain(k, p, p.burst);
    DrainAfter(k, p, b);
    var db, t := After(full), q.TtlMs();
    assert RunsFrom(db, []);
    RunsFromSnoc(db, [], Call(k, q, 0));
    assert [] + [Call(k, q, 0)] == [Call(k, q, 0)];
    RunsFromSnoc(db, [Call(k, q, 0)], Evict(k, t));
    assert [Call(k, q, 0)] + [Evict(k, t)] == [Call(k, q, 0), Evict(k, t)];
    RunsFromSnoc(db, [Call(k, q, 0), Evict(k, t)], Call(k, p, t));
    assert [Call(k, q, 0), Evict(k, t)] + [Call(k, p, t)] == [Call(k, q, 0), Evict(k, t), Call(k, p, t)];
    RunsOn(full, [Call(k, q, 0), Evict(k, t), Call(k, p, t)]);
    RunsOn(full, [Call(k, q, 0), Evict(k, t)]);
    assert ops[..b] == full;
    assert ops[..b + 2] == full + [Call(k, q, 0), Evict(k, t)];
    DrainAdmitted(k, p, ops, b);
    AdmittedByLevel(ops, k, b);
    assert LevelAt(ops, k, q, b) == 0;
    assert !Admitted(ops, k, b) && !Admitted(ops, k, b + 1);
  }

  /** A time to live too short for p to fill the bucket. */
  lemma ForgottenAhead(q: Policy, p: Policy)
    requires p.Positive() && q.Positive() && q.TtlMs() * p.RefillPerMs() < p.Capacity()
    ensures !NeverAhead(q, p)
  {
    var k := "";
    var ops, b := Forgotten(k, q, p), p.burst;
    TtlTimesRate(q);
    ForgottenRuns(k, q, p);
    assert MonotoneDuring(ops, 0, b + 2);
    SpanForward(ops, 0, b + 2);
    assert IsCall(ops, k, 0) && EitherDuring(ops, k, q, p, 0, b + 2);
    assert !NotAhead(ops, k, p, 0, b + 2);
  }

  /**
   Calls that present q keep every bucket from getting ahead of p, over all runs, exactly when q is harmless to p, which is
   a comparison of the two pairs of numbers.
   */
  lemma HarmlessExactly(q: Policy, p: Policy)
    requires p.Positive() && q.Positive()
    ensures NeverAhead(q, p) <==> Harmless(q, p)
  {
    if Harmless(q, p) {
      HarmlessNeverAhead(q, p);
    } else if q.burst > p.burst {
      LargerBurstAhead(q, p);
    } else if q.TtlMs() * p.RefillPerMs() < p.Capacity() {
      ForgottenAhead(q, p);
    } else {
      FasterAhead(q, p);
    }
  }
}
