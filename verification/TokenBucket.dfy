/**
 The distributed token bucket: the script that Redis runs atomically, the
 arguments the gateway derives for it, and runs of many gateways against one Redis.
 Token amounts are in millionths of a token, times in milliseconds.
 */
module TokenBucket {
  import opened Util

  const COST: int := 1_000_000

  /** A quota: refill rate in tokens per second and bucket size in tokens. */
  datatype Policy = Policy(rate: int, burst: int) {
    predicate Positive() { rate > 0 && burst > 0 }

    function Capacity(): int { burst * 1_000_000 }

    function RefillPerMs(): int { rate * 1000 }

    function TtlMs(): int
      requires rate > 0
    {
      ((burst * 1000) / rate) * 2 + 1000
    }
  }

  /** The stored hash of one bucket, with the time at which Redis may forget it. */
  datatype Entry = Entry(tokens: int, updatedAt: int, expiresAt: int)

  datatype Reply = Reply(allowed: bool, tokens: int, retryMs: int, fullMs: int)

  type Buckets = map<string, Entry>

  /** Tokens on hand once the time since the last update has been credited. */
  function Available(capacity: int, refill: int, stored: Option<Entry>, now: int): int {
    match stored
    case None => capacity
    case Some(e) => Min(capacity, e.tokens + Max(0, now - e.updatedAt) * refill)
  }

  /** The answer to a call that finds `level` tokens on hand. */
  function Answer(capacity: int, refill: int, cost: int, level: int): Reply
    requires refill > 0
  {
    var left := if level >= cost then level - cost else level;
    Reply(level >= cost, left,
          if level >= cost then 0 else CeilDiv(cost - left, refill),
          CeilDiv(capacity - left, refill))
  }

  class Redis {
    var buckets: Buckets

    constructor ()
      ensures buckets == map[]
    {
      buckets := map[];
    }

    /** One atomic run of the script at Redis time `now`. */
    method TokenBucketScript(key: string, now: int, capacity: int, refillPerMs: int, cost: int, ttlMs: int)
      returns (reply: Reply)
      requires refillPerMs > 0
      modifies this
      ensures reply == Answer(capacity, refillPerMs, cost, Available(capacity, refillPerMs, old(Get(buckets, key)), now))
      ensures buckets == old(buckets)[key := Entry(reply.tokens, now, now + ttlMs)]
    {
      var tokens, updatedAt;
      if key !in buckets {
        tokens := capacity;
        updatedAt := now;
      } else {
        var elapsed := Max(0, now - buckets[key].updatedAt);
        tokens := Min(capacity, buckets[key].tokens + elapsed * refillPerMs);
        updatedAt := now;
      }
      var allowed := false;
      if tokens >= cost {
        allowed := true;
        tokens := tokens - cost;
      }
      var retryMs := 0;
      if !allowed {
        retryMs := CeilDiv(cost - tokens, refillPerMs);
      }
      var fullMs := CeilDiv(capacity - tokens, refillPerMs);
      buckets := buckets[key := Entry(tokens, updatedAt, now + ttlMs)];
      reply := Reply(allowed, tokens, retryMs, fullMs);
    }
  }

  // ----- Runs: any number of gateways, their calls serialised by Redis -----

  /** One step seen by Redis: a script call, the removal of an expired key, or nothing. */
  datatype Op =
    | Call(key: string, policy: Policy, now: int)
    | Evict(key: string, now: int)
    | Idle(now: int)

  function Level(p: Policy, stored: Option<Entry>, now: int): int {
    Available(p.Capacity(), p.RefillPerMs(), stored, now)
  }

  function ReplyOf(p: Policy, level: int): Reply
    requires p.Positive()
  {
    Answer(p.Capacity(), p.RefillPerMs(), COST, level)
  }

  /** An expired key may disappear at any moment at or after its expiry, never before. */
  predicate CanExec(db: Buckets, op: Op) {
    match op
    case Call(_, p, _) => p.Positive()
    case Evict(k, now) => k in db && db[k].expiresAt <= now
    case Idle(_) => true
  }

  function Exec(db: Buckets, op: Op): Buckets
    requires CanExec(db, op)
  {
    match op
    case Call(k, p, now) =>
      db[k := Entry(ReplyOf(p, Level(p, Get(db, k), now)).tokens, now, now + p.TtlMs())]
    case Evict(k, _) => db - {k}
    case Idle(_) => db
  }

  /** Every operation of `ops` can be executed, starting from an empty Redis. */
  predicate Runs(ops: seq<Op>)
    decreases |ops|, 0
  {
    ops == [] || (Runs(Front(ops)) && CanExec(After(Front(ops)), Last(ops)))
  }

  function After(ops: seq<Op>): Buckets
    requires Runs(ops)
    decreases |ops|, 1
  {
    if ops == [] then map[] else Exec(After(Front(ops)), Last(ops))
  }

  /** Every operation of `ops` can be executed, starting from `db`. */
  predicate RunsFrom(db: Buckets, ops: seq<Op>)
    decreases |ops|, 0
  {
    ops == [] || (RunsFrom(db, Front(ops)) && CanExec(AfterFrom(db, Front(ops)), Last(ops)))
  }

  function AfterFrom(db: Buckets, ops: seq<Op>): Buckets
    requires RunsFrom(db, ops)
    decreases |ops|, 1
  {
    if ops == [] then db else Exec(AfterFrom(db, Front(ops)), Last(ops))
  }

  /** What can be executed where a run ends continues the run. */
  lemma {:induction false} RunsOn(ops: seq<Op>, more: seq<Op>)
    requires Runs(ops) && RunsFrom(After(ops), more)
    ensures Runs(ops + more) && After(ops + more) == AfterFrom(After(ops), more)
    decreases |more|
  {
    if more == [] {
      assert ops + more == ops;
    } else {
      RunsOn(ops, Front(more));
      assert Front(ops + more) == ops + Front(more) && Last(ops + more) == Last(more);
    }
  }

  lemma RunSnoc(ops: seq<Op>, op: Op)
    requires Runs(ops) && CanExec(After(ops), op)
    ensures Runs(ops + [op]) && After(ops + [op]) == Exec(After(ops), op)
  {
    assert Front(ops + [op]) == ops && Last(ops + [op]) == op;
  }

  lemma RunsFromSnoc(db: Buckets, ops: seq<Op>, op: Op)
    requires RunsFrom(db, ops) && CanExec(AfterFrom(db, ops), op)
    ensures RunsFrom(db, ops + [op]) && AfterFrom(db, ops + [op]) == Exec(AfterFrom(db, ops), op)
  {
    assert Front(ops + [op]) == ops && Last(ops + [op]) == op;
  }

  predicate Monotone(ops: seq<Op>) {
    forall i, j :: 0 <= i <= j < |ops| ==> ops[i].now <= ops[j].now
  }

  predicate IsCall(ops: seq<Op>, k: string, n: nat)
    requires n < |ops|
  {
    ops[n].Call? && ops[n].key == k
  }

  /** Every caller of bucket `k` presents the same quota. */
  predicate FixedPolicy(ops: seq<Op>, k: string, p: Policy) {
    p.Positive() && forall n: nat :: n < |ops| && IsCall(ops, k, n) ==> ops[n].policy == p
  }

  lemma {:induction false} RunsPrefix(ops: seq<Op>, n: nat)
    requires Runs(ops) && n <= |ops|
    ensures Runs(ops[..n])
    ensures n < |ops| ==> CanExec(After(ops[..n]), ops[n])
    decreases |ops|
  {
    if n == |ops| {
      assert ops[..n] == ops;
    } else {
      RunsPrefix(Front(ops), n);
      assert Front(ops)[..n] == ops[..n];
      if n + 1 == |ops| {
        assert Front(ops) == ops[..n];
      } else {
        assert Front(ops)[n] == ops[n];
      }
    }
  }

  /** What Redis answers to the call at position n of the run. */
  function ReplyAt(ops: seq<Op>, n: nat): Reply
    requires Runs(ops) && n < |ops| && ops[n].Call?
  {
    RunsPrefix(ops, n);
    ReplyOf(ops[n].policy, LevelAt(ops, ops[n].key, ops[n].policy, n))
  }

  /** Tokens that bucket `k` would offer under quota `p` at the time of step n. */
  function LevelAt(ops: seq<Op>, k: string, p: Policy, n: nat): int
    requires Runs(ops) && n < |ops|
  {
    RunsPrefix(ops, n);
    Level(p, Get(After(ops[..n]), k), ops[n].now)
  }

  predicate Admitted(ops: seq<Op>, k: string, n: nat)
    requires Runs(ops) && n < |ops|
  {
    IsCall(ops, k, n) && ReplyAt(ops, n).allowed
  }

  function Times(ops: seq<Op>): (ts: seq<int>)
    ensures |ts| == |ops| && forall i :: 0 <= i < |ops| ==> ts[i] == ops[i].now
  {
    seq(|ops|, i requires 0 <= i < |ops| => ops[i].now)
  }

  function Admissions(ops: seq<Op>, k: string): (d: seq<bool>)
    requires Runs(ops)
    ensures |d| == |ops| && forall n: nat :: n < |ops| ==> d[n] == Admitted(ops, k, n)
  {
    seq(|ops|, n requires 0 <= n < |ops| => Admitted(ops, k, n))
  }

  /** Stored amounts stay in range whatever the clock does and however the quota changes. */
  lemma {:induction false} TokensInRange(ops: seq<Op>, k: string)
    requires Runs(ops)
    ensures k in After(ops) ==> 0 <= After(ops)[k].tokens
    ensures ops != [] && IsCall(ops, k, |ops| - 1) ==> After(ops)[k].tokens <= Last(ops).policy.Capacity()
    decreases |ops|
  {
    if ops != [] {
      TokensInRange(Front(ops), k);
      var op, db := Last(ops), After(Front(ops));
      if op.Call? && op.key == k && k in db {
        var elapsed := Max(0, op.now - db[k].updatedAt);
        assert elapsed * op.policy.RefillPerMs() >= 0;
      }
    }
  }
}
