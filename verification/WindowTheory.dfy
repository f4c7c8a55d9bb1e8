/**
 The window law on any stretch of any run: whatever quota, clock or traffic came before, what a bucket admits
 during the stretch is bounded by the quota its callers present there.
 */
module WindowTheory {
  import opened Util
  import opened TokenBucket
  import opened BucketTheory

  /** Every caller of bucket `k` in steps i to j presents quota `p`. */
  predicate PolicyDuring(ops: seq<Op>, k: string, p: Policy, i: nat, j: nat)
    requires j < |ops|
  {
    p.Positive() && forall n: nat :: i <= n <= j && IsCall(ops, k, n) ==> ops[n].policy == p
  }

  /** The clock does not step back in steps i to j. */
  predicate MonotoneDuring(ops: seq<Op>, i: nat, j: nat)
    requires j < |ops|
  {
    forall a, b :: i <= a <= b <= j ==> ops[a].now <= ops[b].now
  }

  predicate Evicts(op: Op, k: string) { op.Evict? && op.key == k }

  /** Bucket `k` is not forgotten in steps i to j. */
  predicate KeptDuring(ops: seq<Op>, k: string, i: nat, j: nat)
    requires j < |ops|
  {
    forall n: nat :: i <= n <= j ==> !Evicts(ops[n], k)
  }

  // ----- One step -----

  /** After a call under `p`, or any other step on an entry of `p`, the entry is one of `p`. */
  lemma ExecInRange(db: Buckets, k: string, p: Policy, op: Op)
    requires CanExec(db, op) && p.Positive()
    requires k in db ==> 0 <= db[k].tokens
    requires if CallOn(op, k) then op.policy == p else k in db ==> InRange(p, db[k], op.now)
    ensures k in Exec(db, op) ==> InRange(p, Exec(db, op)[k], op.now)
  {
    if CallOn(op, k) && k in db {
      assert Max(0, op.now - db[k].updatedAt) * p.RefillPerMs() >= 0;
    }
  }

  lemma KeptLevelUpper(p: Policy, e: Entry, now: int, later: int)
    requires p.Positive()
    ensures Level(p, Some(e), later) <= Level(p, Some(e), now) + Max(0, later - now) * p.RefillPerMs()
  {
    var f, a, b, c := p.RefillPerMs(), Max(0, now - e.updatedAt), Max(0, later - now), Max(0, later - e.updatedAt);
    Scale(c, a + b, f);
    Scale(0, b, f);
    Distribute(a, b, f);
    CappedSum(p.Capacity(), e.tokens, c * f, a * f, b * f);
  }

  lemma Scale(x: int, y: int, f: int)
    requires x <= y && f >= 0
    ensures x * f <= y * f
  {
  }

  lemma CappedSum(cap: int, t: int, x: int, y: int, z: int)
    requires x <= y + z && z >= 0
    ensures Min(cap, t + x) <= Min(cap, t + y) + z
  {
  }

  // ----- Quotas that do no harm -----

  /**
   Calls that present q cannot put a bucket ahead of quota p: q has no larger burst, refills no faster or fills up
   within a millisecond of p's refill, and lives long enough for p to fill the bucket.
   */
  predicate Harmless(q: Policy, p: Policy) {
    && q.Positive() && p.Positive() && q.burst <= p.burst
    && (q.rate <= p.rate || 1000 * q.burst <= p.rate)
    && q.TtlMs() * p.RefillPerMs() >= p.Capacity()
  }

  lemma HarmlessToItself(p: Policy)
    requires p.Positive()
    ensures Harmless(p, p)
  {
    TtlCoversFill(p, p.TtlMs());
  }

  /** Every caller of bucket `k` in steps i to j presents a quota that does p no harm. */
  predicate HarmlessDuring(ops: seq<Op>, k: string, p: Policy, i: nat, j: nat)
    requires j < |ops|
  {
    p.Positive() && forall n: nat :: i <= n <= j && IsCall(ops, k, n) ==> Harmless(ops[n].policy, p)
  }

  lemma OneQuotaIsHarmless(ops: seq<Op>, k: string, p: Policy, i: nat, j: nat)
    requires j < |ops| && PolicyDuring(ops, k, p, i, j)
    ensures HarmlessDuring(ops, k, p, i, j)
  {
    HarmlessToItself(p);
  }

  /** A harmless quota never sees more tokens. */
  lemma PoorerLevel(q: Policy, p: Policy, stored: Option<Entry>, now: int)
    requires Harmless(q, p) && (stored.Some? ==> 0 <= stored.value.tokens)
    ensures Level(q, stored, now) <= Level(p, stored, now)
  {
    if stored.Some? {
      var elapsed := Max(0, now - stored.value.updatedAt);
      Scale(0, elapsed, p.RefillPerMs());
      if q.rate <= p.rate {
        Scale(q.RefillPerMs(), p.RefillPerMs(), elapsed);
      } else if elapsed > 0 {
        Scale(1, elapsed, p.RefillPerMs());
      }
    }
  }

  /** The entry outlives the time that p needs to fill the bucket. */
  predicate Covers(p: Policy, e: Entry, now: int) {
    0 <= e.tokens && e.updatedAt <= now && (e.expiresAt - e.updatedAt) * p.RefillPerMs() >= p.Capacity()
  }

  lemma ExecCovers(db: Buckets, k: string, p: Policy, op: Op)
    requires CanExec(db, op) && p.Positive()
    requires k in db ==> 0 <= db[k].tokens
    requires if CallOn(op, k) then Harmless(op.policy, p) else k in db ==> Covers(p, db[k], op.now)
    ensures k in Exec(db, op) ==> Covers(p, Exec(db, op)[k], op.now)
  {
    if CallOn(op, k) && k in db { Scale(0, Max(0, op.now - db[k].updatedAt), op.policy.RefillPerMs()); }
  }

  lemma ExpiredCoverIsFull(p: Policy, e: Entry, now: int)
    requires p.Positive() && Covers(p, e, now) && e.expiresAt <= now
    ensures Level(p, Some(e), now) == p.Capacity()
  {
    Scale(e.expiresAt - e.updatedAt, now - e.updatedAt, p.RefillPerMs());
  }

  function Credit(p: Policy, ms: int): int { ms * p.RefillPerMs() }

  /** From before to after, a step spends what it accepts and gains at most the credit. */
  predicate StepBounded(before: int, accepted: bool, credit: int, after: int) { after <= before - Spend(accepted) + credit }

  /** Under any clock, a step adds at most the credited time and takes what it spends. */
  lemma ExecLevelUpper(db: Buckets, k: string, p: Policy, op: Op, later: int)
    requires CanExec(db, op) && p.Positive() && (CallOn(op, k) ==> Harmless(op.policy, p)) && (k in db ==> 0 <= db[k].tokens)
    requires Evicts(op, k) ==> Level(p, Some(db[k]), op.now) == p.Capacity()
    ensures StepBounded(Level(p, Get(db, k), op.now), CallOn(op, k) && Level(op.policy, Get(db, k), op.now) >= COST,
                        Credit(p, Max(0, later - op.now)), Level(p, Get(Exec(db, op), k), later))
  {
    Scale(0, Max(0, later - op.now), p.RefillPerMs());
    if CallOn(op, k) {
      PoorerLevel(op.policy, p, Get(db, k), op.now);
    } else if !Evicts(op, k) && k in db {
      KeptLevelUpper(p, db[k], op.now, later);
    }
  }

  // ----- Stretches that begin with a call on the bucket -----

  lemma {:induction false} StoredInWindow(ops: seq<Op>, k: string, p: Policy, c: nat, m: nat)
    requires Runs(ops) && c < m < |ops| && IsCall(ops, k, c)
    requires PolicyDuring(ops, k, p, c, m) && MonotoneDuring(ops, c, m)
    ensures Runs(ops[..m]) && (k in After(ops[..m]) ==> InRange(p, After(ops[..m])[k], ops[m].now))
    decreases m
  {
    AfterStep(ops, m);
    TokensInRange(ops[..m - 1], k);
    if m - 1 > c {
      StoredInWindow(ops, k, p, c, m - 1);
    }
    assert CallOn(ops[m - 1], k) ==> IsCall(ops, k, m - 1);
    ExecInRange(After(ops[..m - 1]), k, p, ops[m - 1]);
    assert ops[m - 1].now <= ops[m].now;
  }

  lemma {:induction false} StoredCovers(ops: seq<Op>, k: string, p: Policy, c: nat, m: nat)
    requires Runs(ops) && c < m < |ops| && IsCall(ops, k, c)
    requires HarmlessDuring(ops, k, p, c, m) && MonotoneDuring(ops, c, m)
    ensures Runs(ops[..m]) && (k in After(ops[..m]) ==> Covers(p, After(ops[..m])[k], ops[m].now))
    decreases m
  {
    AfterStep(ops, m);
    TokensInRange(ops[..m - 1], k);
    if m - 1 > c {
      StoredCovers(ops, k, p, c, m - 1);
    }
    assert CallOn(ops[m - 1], k) ==> IsCall(ops, k, m - 1);
    ExecCovers(After(ops[..m - 1]), k, p, ops[m - 1]);
    assert ops[m - 1].now <= ops[m].now;
  }

  /** A bucket that is removed within such a stretch was full. */
  lemma RemovedWasFull(ops: seq<Op>, k: string, p: Policy, c: nat, m: nat)
    requires Runs(ops) && c <= m < |ops| && IsCall(ops, k, c) && Evicts(ops[m], k)
    requires HarmlessDuring(ops, k, p, c, m) && MonotoneDuring(ops, c, m)
    ensures Runs(ops[..m]) && k in After(ops[..m]) && Level(p, Some(After(ops[..m])[k]), ops[m].now) == p.Capacity()
  {
    RunsPrefix(ops, m);
    StoredCovers(ops, k, p, c, m);
    ExpiredCoverIsFull(p, After(ops[..m])[k], ops[m].now);
  }

  lemma LevelStepUpper(ops: seq<Op>, k: string, p: Policy, n: nat)
    requires Runs(ops) && 0 < n < |ops| && p.Positive() && (CallOn(ops[n - 1], k) ==> Harmless(ops[n - 1].policy, p))
    requires Runs(ops[..n - 1])
    requires Evicts(ops[n - 1], k) ==>
               k in After(ops[..n - 1]) && Level(p, Some(After(ops[..n - 1])[k]), ops[n - 1].now) == p.Capacity()
    ensures StepBounded(LevelAt(ops, k, p, n - 1), Admitted(ops, k, n - 1), Credit(p, Advance(Times(ops), n)), LevelAt(ops, k, p, n))
  {
    LevelsOfStep(ops, k, p, n);
    TokensInRange(ops[..n - 1], k);
    AdmittedByLevel(ops, k, n - 1);
    ExecLevelUpper(After(ops[..n - 1]), k, p, ops[n - 1], ops[n].now);
    assert Advance(Times(ops), n) == Max(0, ops[n].now - ops[n - 1].now);
  }

  lemma LevelsOfStep(ops: seq<Op>, k: string, p: Policy, n: nat)
    requires Runs(ops) && 0 < n < |ops|
    ensures Runs(ops[..n - 1]) && CanExec(After(ops[..n - 1]), ops[n - 1])
    ensures LevelAt(ops, k, p, n - 1) == Level(p, Get(After(ops[..n - 1]), k), ops[n - 1].now)
    ensures LevelAt(ops, k, p, n) == Level(p, Get(Exec(After(ops[..n - 1]), ops[n - 1]), k), ops[n].now)
  {
    AfterStep(ops, n);
  }

  lemma AdmittedByLevel(ops: seq<Op>, k: string, n: nat)
    requires Runs(ops) && n < |ops|
    ensures Admitted(ops, k, n) <==> CallOn(ops[n], k) && LevelAt(ops, k, ops[n].policy, n) >= COST
  {
    RunsPrefix(ops, n);
  }

  ghost predicate Orderly(ops: seq<Op>, k: string, i: nat, j: nat)
    requires j < |ops|
  {
    MonotoneDuring(ops, i, j) || KeptDuring(ops, k, i, j)
  }

  /**
   The bucket is not ahead of quota p at step m: what it holds and what it admitted since step c is at most a
   full bucket and the refill since then.
   */
  predicate NotAhead(ops: seq<Op>, k: string, p: Policy, c: nat, m: nat)
    requires Runs(ops) && c <= m < |ops|
  {
    LevelAt(ops, k, p, m) <= p.Capacity() + Span(Times(ops), c, m) * p.RefillPerMs() - Count(Admissions(ops, k), c, m) * COST
  }

  lemma {:induction false} LevelUpper(ops: seq<Op>, k: string, p: Policy, c: nat, m: nat)
    requires Runs(ops) && c <= m < |ops| && IsCall(ops, k, c)
    requires HarmlessDuring(ops, k, p, c, m) && Orderly(ops, k, c, m)
    ensures NotAhead(ops, k, p, c, m)
    decreases m
  {
    if c == m {
      LevelInRange(ops, k, p, m);
    } else {
      LevelUpper(ops, k, p, c, m - 1);
      RunsPrefix(ops, m - 1);
      if Evicts(ops[m - 1], k) {
        assert MonotoneDuring(ops, c, m - 1);
        RemovedWasFull(ops, k, p, c, m - 1);
      }
      assert CallOn(ops[m - 1], k) ==> IsCall(ops, k, m - 1);
      LevelStepUpper(ops, k, p, m);
      StaysNotAhead(ops, k, p, c, m);
    }
  }

  lemma StaysNotAhead(ops: seq<Op>, k: string, p: Policy, c: nat, m: nat)
    requires Runs(ops) && c < m < |ops| && NotAhead(ops, k, p, c, m - 1)
    requires StepBounded(LevelAt(ops, k, p, m - 1), Admitted(ops, k, m - 1), Credit(p, Advance(Times(ops), m)), LevelAt(ops, k, p, m))
    ensures NotAhead(ops, k, p, c, m)
  {
    SpanStep(p, Times(ops), c, m);
    AddStep(LevelAt(ops, k, p, m), LevelAt(ops, k, p, m - 1), p.Capacity(), Span(Times(ops), c, m) * p.RefillPerMs(),
            Span(Times(ops), c, m - 1) * p.RefillPerMs(), Advance(Times(ops), m) * p.RefillPerMs(),
            Count(Admissions(ops, k), c, m - 1), Admitted(ops, k, m - 1));
  }

  lemma AddStep(level: int, before: int, cap: int, credit: int, creditBefore: int, gain: int, count: nat, accepted: bool)
    requires before <= cap + creditBefore - count * COST && level <= before - Spend(accepted) + gain && credit == creditBefore + gain
    ensures level <= cap + credit - (count + if accepted then 1 else 0) * COST
  {
  }

  /** An admitted call leaves a token's worth in the eyes of p. */
  lemma SpendCovered(ops: seq<Op>, k: string, p: Policy, n: nat)
    requires Runs(ops) && n < |ops| && p.Positive() && (IsCall(ops, k, n) ==> Harmless(ops[n].policy, p))
    ensures LevelAt(ops, k, p, n) >= Spend(Admitted(ops, k, n))
  {
    LevelInRange(ops, k, p, n);
    if Admitted(ops, k, n) {
      RunsPrefix(ops, n);
      TokensInRange(ops[..n], k);
      PoorerLevel(ops[n].policy, p, Get(After(ops[..n]), k), ops[n].now);
    }
  }

  lemma BoundFromCall(ops: seq<Op>, k: string, p: Policy, c: nat, j: nat)
    requires Runs(ops) && c <= j < |ops| && IsCall(ops, k, c)
    requires HarmlessDuring(ops, k, p, c, j) && Orderly(ops, k, c, j)
    ensures AdmittedBetween(ops, k, c, j) <= WindowLimit(p, Span(Times(ops), c, j))
  {
    LevelUpper(ops, k, p, c, j);
    SpendCovered(ops, k, p, j);
    LimitInMicrotokens(p, Span(Times(ops), c, j), AdmittedBetween(ops, k, c, j));
  }

  // ----- The law -----

  /** On any stretch, under any clock, the law holds in credited time. */
  lemma {:induction false} CreditedBound(ops: seq<Op>, k: string, p: Policy, i: nat, j: nat)
    requires Runs(ops) && i <= j < |ops| && HarmlessDuring(ops, k, p, i, j) && Orderly(ops, k, i, j)
    ensures AdmittedBetween(ops, k, i, j) <= WindowLimit(p, Span(Times(ops), i, j))
    decreases j - i
  {
    if IsCall(ops, k, i) {
      BoundFromCall(ops, k, p, i, j);
    } else {
      CountFromLeft(Admissions(ops, k), i, j + 1);
      if i < j {
        CreditedBound(ops, k, p, i + 1, j);
        ClockMonotone(Times(ops), i, i + 1);
        LimitMonotone(p, Span(Times(ops), i + 1, j), Span(Times(ops), i, j));
      } else {
        LimitMonotone(p, 0, Span(Times(ops), i, j));
      }
    }
  }

  /**
   Under any clock at all, as long as the bucket is not forgotten in the window, admissions obey the window law
   in the sum of forward clock advances, whatever other steps the run contains.
   */
  lemma AnyClockBound(ops: seq<Op>, k: string, p: Policy, i: nat, j: nat)
    requires Runs(ops) && i <= j < |ops| && PolicyDuring(ops, k, p, i, j) && KeptDuring(ops, k, i, j)
    ensures AdmittedBetween(ops, k, i, j) <= WindowLimit(p, Span(Times(ops), i, j))
  {
    OneQuotaIsHarmless(ops, k, p, i, j);
    CreditedBound(ops, k, p, i, j);
  }

  lemma {:induction false} SpanForward(ops: seq<Op>, i: nat, j: nat)
    requires i <= j < |ops| && MonotoneDuring(ops, i, j)
    ensures Span(Times(ops), i, j) == ops[j].now - ops[i].now
    decreases j
  {
    if i < j { SpanForward(ops, i, j - 1); }
  }

  /**
   No window admits more than the burst plus the refill over its stamps, as long as the quotas presented in the
   window do no harm to p; the bucket may come from any quota and any past.
   */
  lemma HarmlessWindowBound(ops: seq<Op>, k: string, p: Policy, i: nat, j: nat)
    requires Runs(ops) && i <= j < |ops| && HarmlessDuring(ops, k, p, i, j) && MonotoneDuring(ops, i, j)
    ensures ops[i].now <= ops[j].now
    ensures AdmittedBetween(ops, k, i, j) <= WindowLimit(p, ops[j].now - ops[i].now)
  {
    CreditedBound(ops, k, p, i, j);
    SpanForward(ops, i, j);
  }

  /** In particular the window itself needs one quota and a forward clock, and nothing more. */
  lemma WindowBound(ops: seq<Op>, k: string, p: Policy, i: nat, j: nat)
    requires Runs(ops) && i <= j < |ops| && PolicyDuring(ops, k, p, i, j) && MonotoneDuring(ops, i, j)
    ensures ops[i].now <= ops[j].now
    ensures AdmittedBetween(ops, k, i, j) <= WindowLimit(p, ops[j].now - ops[i].now)
  {
    OneQuotaIsHarmless(ops, k, p, i, j);
    HarmlessWindowBound(ops, k, p, i, j);
  }

  // ----- A bucket left alone -----

  predicate LeftAlone(ops: seq<Op>, k: string, n: nat, m: nat)
    requires m <= |ops|
  {
    forall i: nat :: n < i < m ==> !IsCall(ops, k, i)
  }

  lemma {:induction false} LevelLeftAlone(ops: seq<Op>, k: string, p: Policy, n: nat, m: nat)
    requires Runs(ops) && n < m < |ops| && ops[n] == Call(k, p, ops[n].now)
    requires LeftAlone(ops, k, n, m) && MonotoneDuring(ops, n, m)
    ensures LevelAt(ops, k, p, m) == Min(p.Capacity(), ReplyAt(ops, n).tokens + (ops[m].now - ops[n].now) * p.RefillPerMs())
    decreases m
  {
    RunsPrefix(ops, n);
    assert ops[m - 1].now <= ops[m].now;
    if m == n + 1 {
      LevelAfterCall(ops, k, p, m);
    } else {
      LevelLeftAlone(ops, k, p, n, m - 1);
      assert !IsCall(ops, k, m - 1);
      StoredAlone(ops, k, p, n, m - 1);
      LevelAfterOther(ops, k, p, m);
      RefillInTwoSteps(p, ReplyAt(ops, n).tokens, ops[m - 1].now - ops[n].now, ops[m].now - ops[m - 1].now);
    }
  }

  lemma StoredAlone(ops: seq<Op>, k: string, p: Policy, n: nat, m: nat)
    requires Runs(ops) && n < m < |ops| && ops[n] == Call(k, p, ops[n].now) && p.Positive()
    requires LeftAlone(ops, k, n, m + 1) && MonotoneDuring(ops, n, m)
    ensures Runs(ops[..m]) && (k in After(ops[..m]) ==> InRange(p, After(ops[..m])[k], ops[m].now))
  {
    StoredInWindow(ops, k, p, n, m);
  }

  /**
   The reported time to full is exact in every run: if nobody calls on the bucket after step n, it is full
   from the reported time on and not before, whether or not Redis forgets it meanwhile.
   */
  lemma FullExact(ops: seq<Op>, k: string, n: nat, m: nat)
    requires Runs(ops) && n < m < |ops| && IsCall(ops, k, n)
    requires LeftAlone(ops, k, n, m) && MonotoneDuring(ops, n, m)
    ensures LevelAt(ops, k, ops[n].policy, m) == ops[n].policy.Capacity() <==> ops[m].now >= ops[n].now + ReplyAt(ops, n).fullMs
  {
    var p := ops[n].policy;
    RunsPrefix(ops, n);
    LevelLeftAlone(ops, k, p, n, m);
    CeilDivLeast(p.Capacity() - ReplyAt(ops, n).tokens, p.RefillPerMs(), ops[m].now - ops[n].now);
  }

  // ----- Retry times -----

  /** A level after ms more milliseconds. */
  function Refill(p: Policy, level: int, ms: int): int { Min(p.Capacity(), level + ms * p.RefillPerMs()) }

  lemma RefillTwice(p: Policy, level: int, a: nat, b: nat)
    requires p.Positive()
    ensures Refill(p, Refill(p, level, a), b) == Refill(p, level, a + b)
  {
    RefillInTwoSteps(p, level, a, b);
  }

  /** Calls from n on that are all denied let the bucket refill as if nobody had called. */
  lemma {:induction false} LevelWhileDenied(ops: seq<Op>, k: string, p: Policy, n: nat, m: nat)
    requires Runs(ops) && n <= m < |ops| && IsCall(ops, k, n) && PolicyDuring(ops, k, p, n, m) && MonotoneDuring(ops, n, m)
    requires forall i: nat :: n <= i < m ==> !Admitted(ops, k, i)
    ensures LevelAt(ops, k, p, m) == Refill(p, LevelAt(ops, k, p, n), ops[m].now - ops[n].now)
    decreases m
  {
    if n == m {
      LevelInRange(ops, k, p, n);
    } else {
      LevelWhileDenied(ops, k, p, n, m - 1);
      assert ops[m - 1].now <= ops[m].now;
      StepWhileDenied(ops, k, p, n, m);
      RefillTwice(p, LevelAt(ops, k, p, n), ops[m - 1].now - ops[n].now, ops[m].now - ops[m - 1].now);
    }
  }

  lemma StepWhileDenied(ops: seq<Op>, k: string, p: Policy, n: nat, m: nat)
    requires Runs(ops) && n < m < |ops| && IsCall(ops, k, n) && PolicyDuring(ops, k, p, n, m) && MonotoneDuring(ops, n, m)
    requires !Admitted(ops, k, m - 1)
    ensures LevelAt(ops, k, p, m) == Refill(p, LevelAt(ops, k, p, m - 1), ops[m].now - ops[m - 1].now)
  {
    assert ops[m - 1].now <= ops[m].now;
    if CallOn(ops[m - 1], k) {
      assert IsCall(ops, k, m - 1);
      LevelAfterCall(ops, k, p, m);
    } else {
      StoredInWindow(ops, k, p, n, m - 1);
      LevelAfterOther(ops, k, p, m);
    }
  }

  /** Between two calls with no admission, the reported retry time is exact. */
  lemma RetryBetween(ops: seq<Op>, k: string, p: Policy, n: nat, m: nat)
    requires Runs(ops) && n < m < |ops| && PolicyDuring(ops, k, p, n, m) && MonotoneDuring(ops, n, m)
    requires IsCall(ops, k, n) && IsCall(ops, k, m) && !ReplyAt(ops, n).allowed
    requires forall i: nat :: n < i < m ==> !Admitted(ops, k, i)
    ensures ReplyAt(ops, m).allowed <==> ops[m].now >= ops[n].now + ReplyAt(ops, n).retryMs
    ensures !ReplyAt(ops, m).allowed ==> ops[m].now + ReplyAt(ops, m).retryMs == ops[n].now + ReplyAt(ops, n).retryMs
  {
    LevelWhileDenied(ops, k, p, n, m);
    ReplyByLevel(ops, k, p, n);
    ReplyByLevel(ops, k, p, m);
    DueAfter(p, LevelAt(ops, k, p, n), LevelAt(ops, k, p, m), ops[m].now - ops[n].now);
  }

  lemma DueAfter(p: Policy, before: int, after: int, gap: int)
    requires p.Positive() && before < COST && gap >= 0 && after == Refill(p, before, gap)
    ensures ReplyOf(p, after).allowed <==> gap >= ReplyOf(p, before).retryMs
    ensures !ReplyOf(p, after).allowed ==> gap + ReplyOf(p, after).retryMs == ReplyOf(p, before).retryMs
  {
    RetryArithmetic(p, before, after, gap);
  }

  lemma ReplyByLevel(ops: seq<Op>, k: string, p: Policy, n: nat)
    requires Runs(ops) && n < |ops| && p.Positive() && IsCall(ops, k, n) && ops[n].policy == p
    ensures ReplyAt(ops, n) == ReplyOf(p, LevelAt(ops, k, p, n))
    ensures ReplyAt(ops, n).allowed <==> LevelAt(ops, k, p, n) >= COST
  {
  }

  /**
   After a denial that reports retry r, every call before that time is denied and names the same absolute time, and
   the first call at or after it is admitted; only this stretch needs one quota and a forward clock.
   */
  lemma {:induction false} RetryExact(ops: seq<Op>, k: string, p: Policy, n: nat, m: nat)
    requires Runs(ops) && n < m < |ops| && PolicyDuring(ops, k, p, n, m) && MonotoneDuring(ops, n, m)
    requires IsCall(ops, k, n) && IsCall(ops, k, m) && !ReplyAt(ops, n).allowed
    ensures ops[m].now < ops[n].now + ReplyAt(ops, n).retryMs ==>
              !ReplyAt(ops, m).allowed
              && ops[m].now + ReplyAt(ops, m).retryMs == ops[n].now + ReplyAt(ops, n).retryMs
    ensures ops[m].now >= ops[n].now + ReplyAt(ops, n).retryMs
            && (forall i: nat :: n < i < m && IsCall(ops, k, i) ==> ops[i].now < ops[n].now + ReplyAt(ops, n).retryMs)
            ==> ReplyAt(ops, m).allowed
    decreases m
  {
    var due := ops[n].now + ReplyAt(ops, n).retryMs;
    if forall i: nat :: n < i < m && IsCall(ops, k, i) ==> ops[i].now < due {
      forall i: nat | n < i < m ensures !Admitted(ops, k, i) {
        if IsCall(ops, k, i) { RetryExact(ops, k, p, n, i); }
      }
      RetryBetween(ops, k, p, n, m);
    } else {
      var i: nat :| n < i < m && IsCall(ops, k, i) && ops[i].now >= due;
      assert ops[i].now <= ops[m].now;
    }
  }

  // ----- Remaining tokens -----

  /** Steps n to n + j are calls on the bucket under one quota at one instant. */
  predicate AtOnce(ops: seq<Op>, k: string, p: Policy, n: nat, j: nat)
    requires n + j < |ops|
  {
    p.Positive() && forall i: nat :: n <= i <= n + j ==> ops[i] == Call(k, p, ops[n].now)
  }

  lemma {:induction false} LevelAtOnce(ops: seq<Op>, k: string, p: Policy, n: nat, j: nat)
    requires Runs(ops) && 0 < j && n + j < |ops| && AtOnce(ops, k, p, n, j)
    ensures var left := ReplyAt(ops, n).tokens; LevelAt(ops, k, p, n + j) == left - Min(j - 1, left / 1_000_000) * 1_000_000
    decreases j
  {
    var left, x := ReplyAt(ops, n).tokens, n + j - 1;
    assert ops[x] == Call(k, p, ops[n].now) && ops[n + j] == Call(k, p, ops[n].now);
    StepAtOnce(ops, k, p, x);
    if j > 1 { LevelAtOnce(ops, k, p, n, j - 1); }
  }

  lemma StepAtOnce(ops: seq<Op>, k: string, p: Policy, n: nat)
    requires Runs(ops) && n + 1 < |ops| && p.Positive() && ops[n] == ops[n + 1] == Call(k, p, ops[n].now)
    ensures LevelAt(ops, k, p, n + 1) == ReplyAt(ops, n).tokens
    ensures ReplyAt(ops, n).tokens == LevelAt(ops, k, p, n) - Spend(LevelAt(ops, k, p, n) >= COST) >= 0
  {
    LevelInRange(ops, k, p, n);
    AdmittedByLevel(ops, k, n);
    LevelAfterCall(ops, k, p, n + 1);
    TokensLeft(ops, k, p, n);
    Unchanged(p, ops[n + 1].now - ops[n].now);
  }

  lemma TokensLeft(ops: seq<Op>, k: string, p: Policy, n: nat)
    requires Runs(ops) && n < |ops| && p.Positive() && ops[n] == Call(k, p, ops[n].now)
    ensures ReplyAt(ops, n).tokens == LevelAt(ops, k, p, n) - Spend(LevelAt(ops, k, p, n) >= COST)
  {
  }

  lemma Unchanged(p: Policy, ms: int)
    requires ms == 0
    ensures ms * p.RefillPerMs() == 0
  {
  }

  /**
   The reported remainder is exact, whatever came before: of the calls that follow at the same instant, exactly as many
   are admitted as whole tokens were left.
   */
  lemma RemainingExact(ops: seq<Op>, k: string, p: Policy, n: nat, j: nat)
    requires Runs(ops) && 0 < j && n + j < |ops| && AtOnce(ops, k, p, n, j)
    ensures Admitted(ops, k, n + j) <==> j <= ReplyAt(ops, n).tokens / 1_000_000
  {
    assert ops[n + j] == Call(k, p, ops[n].now) && ops[n] == Call(k, p, ops[n].now);
    LevelInRange(ops, k, p, n);
    TokensLeft(ops, k, p, n);
    LevelAtOnce(ops, k, p, n, j);
    ReplyByLevel(ops, k, p, n + j);
  }
}
