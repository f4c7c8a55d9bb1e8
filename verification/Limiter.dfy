/** The gateway's side of the token bucket: checking the request, naming the bucket, decoding the answer. */
module Limiter {
  import opened Util
  import opened TokenBucket

  /** Fate of one script call; a lost reply means that the script ran and the caller saw an error. */
  datatype Net = Delivered | ReplyLost | NotDelivered

  datatype LimitRequest = LimitRequest(identity: string, route: string, policy: Policy)

  datatype Decision = Decision(allowed: bool, limit: int, remaining: int, resetInMs: int, retryAfterMs: int)

  datatype LimitError = NilClient | MissingIdentityOrRoute | PolicyNotPositive | ScriptFailed

  datatype Outcome = Ok(decision: Decision) | Err(error: LimitError)

  predicate WellFormed(r: LimitRequest) {
    r.identity != "" && r.route != "" && r.policy.Positive()
  }

  /** Identity and route, separated by NUL. */
  function Encode(identity: string, route: string): string { identity + "\0" + route }

  /** The digest stands for the truncated SHA-256 in hexadecimal. */
  function BucketKey(prefix: string, digest: string -> string, identity: string, route: string): string {
    prefix + ":" + digest(Encode(identity, route))
  }

  /** What one limiter call makes Redis do. */
  function CallOp(prefix: string, digest: string -> string, r: LimitRequest, now: int, net: Net): Op {
    if WellFormed(r) && !net.NotDelivered?
    then Call(BucketKey(prefix, digest, r.identity, r.route), r.policy, now)
    else Idle(now)
  }

  function Decode(r: LimitRequest, reply: Reply): Decision {
    Decision(reply.allowed, r.policy.burst, reply.tokens / 1_000_000, reply.fullMs, reply.retryMs)
  }

  /** What one limiter call returns when Redis holds `db`. */
  function AllowResult(prefix: string, digest: string -> string, db: Buckets, r: LimitRequest, now: int, net: Net): Outcome {
    if r.identity == "" || r.route == "" then Err(MissingIdentityOrRoute)
    else if !r.policy.Positive() then Err(PolicyNotPositive)
    else if !net.Delivered? then Err(ScriptFailed)
    else
      Ok(Decode(r, ReplyOf(r.policy, Level(r.policy, Get(db, BucketKey(prefix, digest, r.identity, r.route)), now))))
  }

  /** Tries that the client library repeated after the script had run and the reply was lost. */
  function LostTries(prefix: string, digest: string -> string, r: LimitRequest, lost: seq<int>): (ops: seq<Op>)
    ensures |ops| == |lost| && forall n :: 0 <= n < |lost| ==> ops[n] == CallOp(prefix, digest, r, lost[n], ReplyLost)
  {
    seq(|lost|, n requires 0 <= n < |lost| => CallOp(prefix, digest, r, lost[n], ReplyLost))
  }

  lemma {:induction false} LostTriesRun(db: Buckets, prefix: string, digest: string -> string, r: LimitRequest, lost: seq<int>)
    ensures RunsFrom(db, LostTries(prefix, digest, r, lost))
    ensures !WellFormed(r) ==> AfterFrom(db, LostTries(prefix, digest, r, lost)) == db
    decreases |lost|
  {
    if lost != [] {
      LostTriesRun(db, prefix, digest, r, Front(lost));
      assert Front(LostTries(prefix, digest, r, lost)) == LostTries(prefix, digest, r, Front(lost));
    }
  }

  /** What a limiter call answers and makes Redis do, case by case and in the order of the checks. */
  lemma AllowCases(prefix: string, digest: string -> string, db: Buckets, r: LimitRequest, now: int, net: Net)
    ensures var out, op := AllowResult(prefix, digest, db, r, now, net), CallOp(prefix, digest, r, now, net);
            if r.identity == "" || r.route == "" then out == Err(MissingIdentityOrRoute) && op == Idle(now)
            else if r.policy.rate <= 0 || r.policy.burst <= 0 then out == Err(PolicyNotPositive) && op == Idle(now)
            else if net == NotDelivered then out == Err(ScriptFailed) && op == Idle(now)
            else
              && op == Call(BucketKey(prefix, digest, r.identity, r.route), r.policy, now)
              && (net == ReplyLost ==> out == Err(ScriptFailed))
              && (net == Delivered ==> out.Ok? && out.decision.limit == r.policy.burst)
  {
  }

  /**
   The decision of a delivered call is the script's: allowed alike, as many remaining as whole tokens are left, and the
   script's own delays.
   */
  lemma DecisionIsReply(prefix: string, digest: string -> string, ops: seq<Op>, r: LimitRequest, n: nat)
    requires Runs(ops) && n < |ops| && WellFormed(r) && ops[n] == CallOp(prefix, digest, r, ops[n].now, Delivered)
    ensures Runs(ops[..n]) && ops[n].Call?
    ensures var out, reply := AllowResult(prefix, digest, After(ops[..n]), r, ops[n].now, Delivered), ReplyAt(ops, n);
            && out.Ok? && out.decision.allowed == reply.allowed && out.decision.limit == r.policy.burst
            && out.decision.remaining * 1_000_000 <= reply.tokens < (out.decision.remaining + 1) * 1_000_000
            && out.decision.resetInMs == reply.fullMs && out.decision.retryAfterMs == reply.retryMs
  {
    RunsPrefix(ops, n);
  }

  class RedisLimiter {
    const client: Redis?
    const prefix: string
    const digest: string -> string

    constructor (client: Redis?, prefix: string, digest: string -> string)
      ensures this.client == client && this.prefix == prefix && this.digest == digest
    {
      this.client := client;
      this.prefix := prefix;
      this.digest := digest;
    }

    /**
     Redis moves by the lost tries, one step of a run each, and by one more step for the try that counts; a refused
     request or a call that never arrived is an idle step.
     */
    method Allow(request: LimitRequest, lost: seq<int>, now: int, net: Net) returns (r: Outcome)
      modifies client
      ensures client == null ==> r == Err(NilClient)
      ensures client != null ==>
        var before := LostTries(prefix, digest, request, lost);
        && RunsFrom(old(client.buckets), before)
        && CanExec(AfterFrom(old(client.buckets), before), CallOp(prefix, digest, request, now, net))
        && client.buckets == Exec(AfterFrom(old(client.buckets), before), CallOp(prefix, digest, request, now, net))
        && r == AllowResult(prefix, digest, AfterFrom(old(client.buckets), before), request, now, net)
    {
      if client == null {
        return Err(NilClient);
      }
      LostTriesRun(client.buckets, prefix, digest, request, lost);
      if request.identity == "" || request.route == "" {
        return Err(MissingIdentityOrRoute);
      }
      if request.policy.rate <= 0 || request.policy.burst <= 0 {
        return Err(PolicyNotPositive);
      }
      var key := BucketKey(prefix, digest, request.identity, request.route);
      var capacity := request.policy.burst * 1_000_000;
      var refillPerMs := request.policy.rate * (1_000_000 / 1000);
      var ttlMs := ((request.policy.burst * 1000) / request.policy.rate) * 2 + 1000;
      RepeatLost(request, lost);
      if net.NotDelivered? {
        return Err(ScriptFailed);
      }
      var reply := client.TokenBucketScript(key, now, capacity, refillPerMs, COST, ttlMs);
      if net.ReplyLost? {
        return Err(ScriptFailed);
      }
      r := Ok(Decision(reply.allowed, request.policy.burst, reply.tokens / 1_000_000, reply.fullMs, reply.retryMs));
    }

    /** The library repeats the same command until a reply gets through. */
    method RepeatLost(request: LimitRequest, lost: seq<int>)
      requires client != null && WellFormed(request)
      modifies client
      ensures RunsFrom(old(client.buckets), LostTries(prefix, digest, request, lost))
      ensures client.buckets == AfterFrom(old(client.buckets), LostTries(prefix, digest, request, lost))
    {
      ghost var tries := LostTries(prefix, digest, request, lost);
      var key, p := BucketKey(prefix, digest, request.identity, request.route), request.policy;
      for i := 0 to |lost|
        invariant RunsFrom(old(client.buckets), tries[..i]) && client.buckets == AfterFrom(old(client.buckets), tries[..i])
      {
        RunsFromSnoc(old(client.buckets), tries[..i], tries[i]);
        assert tries[..i] + [tries[i]] == tries[..i + 1];
        var _ := client.TokenBucketScript(key, lost[i], p.Capacity(), p.RefillPerMs(), COST, p.TtlMs());
      }
      assert tries[..|lost|] == tries;
    }
  }

  predicate NulFree(s: string) { '\0' !in s }

  /** The NUL separator makes the pair recoverable from the encoding. */
  lemma SeparatorInjective(a: string, b: string, a': string, b': string)
    requires NulFree(a) && NulFree(a') && Encode(a, b) == Encode(a', b')
    ensures a == a' && b == b'
  {
    var s, s' := Encode(a, b), Encode(a', b');
    assert s[|a|] == '\0' && s'[|a'|] == '\0';
    assert |a| == |a'|;
    assert a == s[..|a|] && a' == s'[..|a'|];
    assert b == s[|a| + 1..] && b' == s'[|a'| + 1..];
  }

  predicate Collide(digest: string -> string, x: string, y: string) { digest(x) == digest(y) && x != y }

  /** Two clients or routes share a bucket only if they are the same client and route. */
  lemma BucketKeyInjective(prefix: string, digest: string -> string, a: string, b: string, a': string, b': string)
    requires !Collide(digest, Encode(a, b), Encode(a', b')) && NulFree(a) && NulFree(a')
    requires BucketKey(prefix, digest, a, b) == BucketKey(prefix, digest, a', b')
    ensures a == a' && b == b'
  {
    var head, x, x' := prefix + ":", digest(Encode(a, b)), digest(Encode(a', b'));
    assert x == (head + x)[|head|..] && x' == (head + x')[|head|..];
    SeparatorInjective(a, b, a', b');
  }

  /** Deployments with different prefixes never share a bucket, since all digests have one length. */
  lemma PrefixSeparates(prefix: string, prefix': string, digest: string -> string, a: string, b: string, a': string, b': string)
    requires |digest(Encode(a, b))| == |digest(Encode(a', b'))|
    requires BucketKey(prefix, digest, a, b) == BucketKey(prefix', digest, a', b')
    ensures prefix == prefix' && digest(Encode(a, b)) == digest(Encode(a', b'))
  {
    var x, x' := digest(Encode(a, b)), digest(Encode(a', b'));
    var k, k' := BucketKey(prefix, digest, a, b), BucketKey(prefix', digest, a', b');
    assert |k| == |prefix| + 1 + |x| && |k'| == |prefix'| + 1 + |x'|;
    assert prefix == k[..|prefix|] && prefix' == k'[..|prefix'|];
    assert x == k[|prefix| + 1..] && x' == k'[|prefix'| + 1..];
  }
}
