/** The protected request path: authentication, rate limiting and routing, and the quota it enforces end to end. */
module Gateway {
  import opened Util
  import opened TokenBucket
  import opened BucketTheory
  import opened WindowTheory
  import opened Limiter

  datatype Upstream = Users | Orders {
    /** The route under which requests for this upstream are counted. */
    function Key(): string {
      match this
      case Users => "/api/users"
      case Orders => "/api/orders"
    }
  }

  function RouteKey(path: string): string {
    if path == "/api/users" || "/api/users/" <= path then "/api/users"
    else if path == "/api/orders" || "/api/orders/" <= path then "/api/orders"
    else "/api/unknown"
  }

  function Route(path: string): Option<Upstream> {
    if path == "/api/users" || "/api/users/" <= path then Some(Users)
    else if path == "/api/orders" || "/api/orders/" <= path then Some(Orders)
    else None
  }

  /** The limiter and the router classify every path alike. */
  lemma RoutesAgree(path: string, u: Upstream)
    ensures Route(path) == Some(u) <==> RouteKey(path) == u.Key()
  {
    assert "/api/users"[5] == 'u' && "/api/orders"[5] == 'o' && "/api/unknown"[6] == 'n' && "/api/users"[6] == 's';
  }

  /** What authentication yields: a key with the quota for the route, or a refusal. */
  datatype AuthResult = Authenticated(keyId: string, policy: Policy) | InvalidKey | AuthUnavailable

  datatype Request = Request(auth: AuthResult, path: string, now: int, net: Net)

  datatype QuotaHeaders = QuotaHeaders(limit: int, remaining: int, resetInMs: int, policy: Policy)

  datatype Response =
    | Forwarded(upstream: Upstream, quota: Option<QuotaHeaders>)
    | NotFound(quota: Option<QuotaHeaders>)
    | TooManyRequests(exhausted: QuotaHeaders, retryAfterSeconds: int)
    | Unauthorized
    | Unavailable

  /** Milliseconds to whole seconds, computed in nanoseconds and never below one. */
  function RetryAfterSeconds(ms: int): int {
    Max(1, (ms * 1_000_000 + 1_000_000_000 - 1) / 1_000_000_000)
  }

  function RouteResponse(path: string, quota: Option<QuotaHeaders>): Response {
    match Route(path)
    case Some(u) => Forwarded(u, quota)
    case None => NotFound(quota)
  }

  datatype Settings = Settings(prefix: string, digest: string -> string, failOpen: bool)

  function LimitRequestOf(r: Request): LimitRequest
    requires r.auth.Authenticated?
  {
    LimitRequest(r.auth.keyId, RouteKey(r.path), r.auth.policy)
  }

  /** The response to a request when Redis holds `db`. */
  function Serve(cfg: Settings, db: Buckets, r: Request): Response {
    match r.auth
    case InvalidKey => Unauthorized
    case AuthUnavailable => Unavailable
    case Authenticated(_, policy) =>
      match AllowResult(cfg.prefix, cfg.digest, db, LimitRequestOf(r), r.now, r.net)
      case Err(_) => if cfg.failOpen then RouteResponse(r.path, None) else Unavailable
      case Ok(d) =>
        var quota := QuotaHeaders(d.limit, d.remaining, d.resetInMs, policy);
        if d.allowed then RouteResponse(r.path, Some(quota))
        else TooManyRequests(quota, RetryAfterSeconds(d.retryAfterMs))
  }

  function ServeOp(cfg: Settings, r: Request): Op {
    if r.auth.Authenticated? then CallOp(cfg.prefix, cfg.digest, LimitRequestOf(r), r.now, r.net) else Idle(r.now)
  }

  /** The lost tries of a request that was authenticated. */
  function LostServes(cfg: Settings, r: Request, lost: seq<int>): seq<Op> {
    if r.auth.Authenticated? then LostTries(cfg.prefix, cfg.digest, LimitRequestOf(r), lost) else []
  }

  class Handler {
    const limiter: RedisLimiter?
    const failOpen: bool

    constructor (limiter: RedisLimiter?, failOpen: bool)
      ensures this.limiter == limiter && this.failOpen == failOpen
    {
      this.limiter := limiter;
      this.failOpen := failOpen;
    }

    /** Authentication, then the limiter, then the router, as one request passes through them. */
    method ServeApi(r: Request, lost: seq<int>) returns (response: Response)
      modifies if limiter == null then {} else {limiter.client}
      ensures r.auth.InvalidKey? ==> response == Unauthorized
      ensures r.auth.AuthUnavailable? || (limiter == null && r.auth.Authenticated?) ==> response == Unavailable
      ensures limiter != null && limiter.client == null && r.auth.Authenticated? ==>
                response == if failOpen then RouteResponse(r.path, None) else Unavailable
      ensures limiter != null && limiter.client != null ==>
        var cfg := Settings(limiter.prefix, limiter.digest, failOpen);
        && RunsFrom(old(limiter.client.buckets), LostServes(cfg, r, lost))
        && CanExec(AfterFrom(old(limiter.client.buckets), LostServes(cfg, r, lost)), ServeOp(cfg, r))
        && limiter.client.buckets == Exec(AfterFrom(old(limiter.client.buckets), LostServes(cfg, r, lost)), ServeOp(cfg, r))
        && response == Serve(cfg, AfterFrom(old(limiter.client.buckets), LostServes(cfg, r, lost)), r)
    {
      if r.auth.InvalidKey? {
        return Unauthorized;
      }
      if r.auth.AuthUnavailable? || limiter == null {
        return Unavailable;
      }
      var outcome := limiter.Allow(LimitRequestOf(r), lost, r.now, r.net);
      if outcome.Err? {
        if failOpen {
          return RouteResponse(r.path, None);
        }
        return Unavailable;
      }
      var d := outcome.decision;
      var quota := QuotaHeaders(d.limit, d.remaining, d.resetInMs, r.auth.policy);
      if !d.allowed {
        var seconds := (d.retryAfterMs * 1_000_000 + 1_000_000_000 - 1) / 1_000_000_000;
        if seconds < 1 {
          seconds := 1;
        }
        return TooManyRequests(quota, seconds);
      }
      response := RouteResponse(r.path, Some(quota));
    }
  }

  // ----- Traffic: requests through any number of gateways, and keys that Redis expires -----

  /** A lost try runs the script for a request without an answer reaching the gateway. */
  datatype Event = Arrives(request: Request) | LostTry(request: Request) | Expires(key: string, at: int) | Elsewhere(at: int)

  function OpOf(cfg: Settings, e: Event): Op {
    match e
    case Arrives(r) => ServeOp(cfg, r)
    case LostTry(r) => ServeOp(cfg, r.(net := ReplyLost))
    case Expires(k, at) => Evict(k, at)
    case Elsewhere(at) => Idle(at)
  }

  function Ops(cfg: Settings, traffic: seq<Event>): (ops: seq<Op>)
    ensures |ops| == |traffic| && forall n :: 0 <= n < |traffic| ==> ops[n] == OpOf(cfg, traffic[n])
  {
    seq(|traffic|, n requires 0 <= n < |traffic| => OpOf(cfg, traffic[n]))
  }

  /** The request at step n, made with key `keyId`, is passed on to upstream `u`. */
  predicate ForwardedTo(cfg: Settings, traffic: seq<Event>, keyId: string, u: Upstream, n: nat)
    requires Runs(Ops(cfg, traffic)) && n < |traffic|
  {
    && traffic[n].Arrives? && IsAuthenticated(traffic[n])
    && traffic[n].request.auth.keyId == keyId
    && ResponseAt(cfg, traffic, n).Forwarded? && ResponseAt(cfg, traffic, n).upstream == u
  }

  function Forwards(cfg: Settings, traffic: seq<Event>, keyId: string, u: Upstream): (d: seq<bool>)
    requires Runs(Ops(cfg, traffic))
    ensures |d| == |traffic| && forall n: nat :: n < |d| ==> d[n] == ForwardedTo(cfg, traffic, keyId, u, n)
  {
    seq(|traffic|, n requires 0 <= n < |traffic| => ForwardedTo(cfg, traffic, keyId, u, n))
  }

  predicate IsAuthenticated(e: Event) { (e.Arrives? || e.LostTry?) && e.request.auth.Authenticated? }

  /** In steps i to j the quotas that this key presents for this upstream do p no harm, and key ids hold no NUL. */
  ghost predicate Steady(traffic: seq<Event>, keyId: string, u: Upstream, p: Policy, i: nat, j: nat)
    requires j < |traffic|
  {
    p.Positive() && NulFree(keyId) &&
    forall n :: i <= n <= j && IsAuthenticated(traffic[n]) ==>
      var r := traffic[n].request;
      NulFree(r.auth.keyId) && (r.auth.keyId == keyId && RouteKey(r.path) == u.Key() && r.auth.policy.Positive() ==> Harmless(r.auth.policy, p))
  }

  /** No other client or route in steps i to j has the digest of this key on this upstream. */
  ghost predicate NoCollisions(cfg: Settings, traffic: seq<Event>, keyId: string, u: Upstream, i: nat, j: nat)
    requires j < |traffic|
  {
    forall n :: i <= n <= j && IsAuthenticated(traffic[n]) ==>
      var r := traffic[n].request;
      !Collide(cfg.digest, Encode(r.auth.keyId, RouteKey(r.path)), Encode(keyId, u.Key()))
  }

  lemma SteadyIsHarmless(cfg: Settings, traffic: seq<Event>, keyId: string, u: Upstream, p: Policy, i: nat, j: nat)
    requires j < |traffic| && NoCollisions(cfg, traffic, keyId, u, i, j) && Steady(traffic, keyId, u, p, i, j)
    ensures HarmlessDuring(Ops(cfg, traffic), BucketKey(cfg.prefix, cfg.digest, keyId, u.Key()), p, i, j)
  {
    var ops, k := Ops(cfg, traffic), BucketKey(cfg.prefix, cfg.digest, keyId, u.Key());
    forall n: nat | i <= n <= j && IsCall(ops, k, n)
      ensures Harmless(ops[n].policy, p)
    {
      var r := traffic[n].request;
      BucketKeyInjective(cfg.prefix, cfg.digest, r.auth.keyId, RouteKey(r.path), keyId, u.Key());
    }
  }

  lemma ForwardedWasAdmitted(cfg: Settings, traffic: seq<Event>, keyId: string, u: Upstream, n: nat)
    requires Runs(Ops(cfg, traffic)) && n < |traffic| && !cfg.failOpen
    requires ForwardedTo(cfg, traffic, keyId, u, n)
    ensures Admitted(Ops(cfg, traffic), BucketKey(cfg.prefix, cfg.digest, keyId, u.Key()), n)
  {
    RoutesAgree(traffic[n].request.path, u);
  }

  lemma {:induction false} CountImplied(d: seq<bool>, e: seq<bool>, i: nat, j: nat)
    requires |d| == |e| && i <= j <= |d| && forall n: nat :: n < |d| && d[n] ==> e[n]
    ensures Count(d, i, j) <= Count(e, i, j)
    decreases j
  {
    if i < j { CountImplied(d, e, i, j - 1); }
  }

  /** What one key gets through to one upstream in steps i to j is at most the burst plus the refill over the stamps. */
  ghost predicate WithinQuota(cfg: Settings, traffic: seq<Event>, keyId: string, u: Upstream, p: Policy, i: nat, j: nat)
    requires i <= j < |traffic| && Runs(Ops(cfg, traffic))
  {
    var ops := Ops(cfg, traffic);
    ops[i].now <= ops[j].now && Count(Forwards(cfg, traffic, keyId, u), i, j + 1) <= WindowLimit(p, ops[j].now - ops[i].now)
  }

  /**
   With fail-open off, what one key gets through to one upstream in any window stays within p's burst plus
   refill if the quotas presented for it there do p no harm, whatever paths it uses, whichever gateway serves it, whatever
   other clients do, even when Redis replies are lost, and whatever quota or clock the bucket saw before the window.
   */
  lemma EndToEndQuota(cfg: Settings, traffic: seq<Event>, keyId: string, u: Upstream, p: Policy, i: nat, j: nat)
    requires i <= j < |traffic| && !cfg.failOpen && NoCollisions(cfg, traffic, keyId, u, i, j) && Steady(traffic, keyId, u, p, i, j)
    requires Runs(Ops(cfg, traffic)) && MonotoneDuring(Ops(cfg, traffic), i, j)
    ensures WithinQuota(cfg, traffic, keyId, u, p, i, j)
  {
    SteadyIsHarmless(cfg, traffic, keyId, u, p, i, j);
    QuotaOfBucket(cfg, traffic, keyId, u, p, i, j);
  }

  lemma QuotaOfBucket(cfg: Settings, traffic: seq<Event>, keyId: string, u: Upstream, p: Policy, i: nat, j: nat)
    requires i <= j < |traffic| && !cfg.failOpen && HarmlessDuring(Ops(cfg, traffic), BucketKey(cfg.prefix, cfg.digest, keyId, u.Key()), p, i, j)
    requires Runs(Ops(cfg, traffic)) && MonotoneDuring(Ops(cfg, traffic), i, j)
    ensures WithinQuota(cfg, traffic, keyId, u, p, i, j)
  {
    HarmlessWindowBound(Ops(cfg, traffic), BucketKey(cfg.prefix, cfg.digest, keyId, u.Key()), p, i, j);
    ForwardsWithinAdmissions(cfg, traffic, keyId, u, i, j);
  }

  lemma ForwardsWithinAdmissions(cfg: Settings, traffic: seq<Event>, keyId: string, u: Upstream, i: nat, j: nat)
    requires !cfg.failOpen && Runs(Ops(cfg, traffic)) && i <= j < |traffic|
    ensures Count(Forwards(cfg, traffic, keyId, u), i, j + 1)
         <= AdmittedBetween(Ops(cfg, traffic), BucketKey(cfg.prefix, cfg.digest, keyId, u.Key()), i, j)
  {
    var k := BucketKey(cfg.prefix, cfg.digest, keyId, u.Key());
    var d, e := Forwards(cfg, traffic, keyId, u), Admissions(Ops(cfg, traffic), k);
    ForwardsAreAdmissions(cfg, traffic, keyId, u);
    CountImplied(d, e, i, j + 1);
  }

  lemma ForwardsAreAdmissions(cfg: Settings, traffic: seq<Event>, keyId: string, u: Upstream)
    requires !cfg.failOpen && Runs(Ops(cfg, traffic))
    ensures var d, e := Forwards(cfg, traffic, keyId, u), Admissions(Ops(cfg, traffic), BucketKey(cfg.prefix, cfg.digest, keyId, u.Key()));
            |d| == |e| && forall n: nat :: n < |d| && d[n] ==> e[n]
  {
    forall n: nat | n < |traffic| && ForwardedTo(cfg, traffic, keyId, u, n)
      ensures Admitted(Ops(cfg, traffic), BucketKey(cfg.prefix, cfg.digest, keyId, u.Key()), n)
    {
      ForwardedWasAdmitted(cfg, traffic, keyId, u, n);
    }
  }

  // ----- What every request is answered -----

  /** The request at step n passed authentication with a key and a quota that the limiter accepts. */
  predicate Limitable(traffic: seq<Event>, n: nat)
    requires n < |traffic|
  {
    traffic[n].Arrives? && traffic[n].request.auth.Authenticated?
    && traffic[n].request.auth.keyId != "" && traffic[n].request.auth.policy.rate > 0 && traffic[n].request.auth.policy.burst > 0
  }

  /** It is charged to the bucket of its key and of the upstream that its path names. */
  lemma ChargedTo(cfg: Settings, traffic: seq<Event>, n: nat)
    requires n < |traffic| && Limitable(traffic, n) && !traffic[n].request.net.NotDelivered?
    ensures var r := traffic[n].request;
            var route := if r.path == "/api/users" || "/api/users/" <= r.path then "/api/users"
                         else if r.path == "/api/orders" || "/api/orders/" <= r.path then "/api/orders" else "/api/unknown";
            Ops(cfg, traffic)[n] == Call(BucketKey(cfg.prefix, cfg.digest, r.auth.keyId, route), r.auth.policy, r.now)
  {
  }

  /** The headers say the burst, the whole tokens left, the time to full, and the quota presented. */
  predicate HeadersOf(h: QuotaHeaders, p: Policy, reply: Reply) {
    && h.limit == p.burst && h.policy == p && h.resetInMs == reply.fullMs
    && h.remaining * 1_000_000 <= reply.tokens < (h.remaining + 1) * 1_000_000
  }

  /**
   A delivered request is answered by the script's decision: if it is admitted, it reaches exactly the upstream that its path names, or
   none if it names none; if not, it gets a 429. Both carry the headers of the reply.
   */
  lemma AnsweredExactly(cfg: Settings, traffic: seq<Event>, n: nat)
    requires Runs(Ops(cfg, traffic)) && n < |traffic| && Limitable(traffic, n) && traffic[n].request.net.Delivered?
    ensures Ops(cfg, traffic)[n].Call?
    ensures var path, response, admitted := traffic[n].request.path, ResponseAt(cfg, traffic, n), ReplyAt(Ops(cfg, traffic), n).allowed;
            && (response.Forwarded? && response.upstream == Users <==> admitted && (path == "/api/users" || "/api/users/" <= path))
            && (response.Forwarded? && response.upstream == Orders <==> admitted && (path == "/api/orders" || "/api/orders/" <= path))
            && (response.NotFound? <==> admitted && path != "/api/users" && !("/api/users/" <= path) && path != "/api/orders" && !("/api/orders/" <= path))
            && (response.TooManyRequests? <==> !admitted)
  {
    RunsPrefix(Ops(cfg, traffic), n);
    UpstreamsDiffer(traffic[n].request.path);
  }

  lemma UpstreamsDiffer(path: string)
    ensures !((path == "/api/users" || "/api/users/" <= path) && (path == "/api/orders" || "/api/orders/" <= path))
  {
    assert "/api/users"[5] == 'u' && "/api/orders"[5] == 'o' && "/api/users/"[5] == 'u' && "/api/orders/"[5] == 'o';
  }

  lemma HeadersExactly(cfg: Settings, traffic: seq<Event>, n: nat)
    requires Runs(Ops(cfg, traffic)) && n < |traffic| && Limitable(traffic, n) && traffic[n].request.net.Delivered?
    ensures Ops(cfg, traffic)[n].Call?
    ensures var p, response, reply := traffic[n].request.auth.policy, ResponseAt(cfg, traffic, n), ReplyAt(Ops(cfg, traffic), n);
            match response
            case Forwarded(_, quota) => quota.Some? && HeadersOf(quota.value, p, reply)
            case NotFound(quota) => quota.Some? && HeadersOf(quota.value, p, reply)
            case TooManyRequests(quota, _) => HeadersOf(quota, p, reply)
            case _ => false
  {
    RunsPrefix(Ops(cfg, traffic), n);
  }

  /** The remaining header counts exactly the further calls on this bucket that would be admitted at the same instant. */
  lemma RemainingHeaderExact(cfg: Settings, traffic: seq<Event>, n: nat, j: nat, h: QuotaHeaders)
    requires Runs(Ops(cfg, traffic)) && 0 < j && n + j < |traffic| && Limitable(traffic, n) && Ops(cfg, traffic)[n].Call?
    requires HeadersOf(h, traffic[n].request.auth.policy, ReplyAt(Ops(cfg, traffic), n))
    requires AtOnce(Ops(cfg, traffic), Ops(cfg, traffic)[n].key, traffic[n].request.auth.policy, n, j)
    ensures Admitted(Ops(cfg, traffic), Ops(cfg, traffic)[n].key, n + j) <==> j <= h.remaining
  {
    RemainingExact(Ops(cfg, traffic), Ops(cfg, traffic)[n].key, traffic[n].request.auth.policy, n, j);
  }

  /** The reset header names exactly the time from which the bucket, left alone, is full. */
  lemma ResetHeaderExact(cfg: Settings, traffic: seq<Event>, n: nat, m: nat, h: QuotaHeaders)
    requires Runs(Ops(cfg, traffic)) && n < m < |traffic| && Limitable(traffic, n) && Ops(cfg, traffic)[n].Call?
    requires HeadersOf(h, traffic[n].request.auth.policy, ReplyAt(Ops(cfg, traffic), n))
    requires LeftAlone(Ops(cfg, traffic), Ops(cfg, traffic)[n].key, n, m) && MonotoneDuring(Ops(cfg, traffic), n, m)
    ensures var ops, p := Ops(cfg, traffic), traffic[n].request.auth.policy;
            LevelAt(ops, ops[n].key, p, m) == p.burst * 1_000_000 <==> ops[m].now >= ops[n].now + h.resetInMs
  {
    FullExact(Ops(cfg, traffic), Ops(cfg, traffic)[n].key, n, m);
  }

  /**
   A request whose script call failed, or that the limiter refuses to handle, is answered 503, or, with fail-open on, routed by its path
   without headers; an invalid key gets 401 and an unanswered lookup 503.
   */
  lemma FailedExactly(cfg: Settings, traffic: seq<Event>, n: nat)
    requires Runs(Ops(cfg, traffic)) && n < |traffic| && traffic[n].Arrives?
    requires Limitable(traffic, n) ==> !traffic[n].request.net.Delivered?
    ensures var r, response := traffic[n].request, ResponseAt(cfg, traffic, n);
            match r.auth
            case InvalidKey => response == Unauthorized
            case AuthUnavailable => response == Unavailable
            case Authenticated(_, _) =>
              if !cfg.failOpen then response == Unavailable
              else if r.path == "/api/users" || "/api/users/" <= r.path then response == Forwarded(Users, None)
              else if r.path == "/api/orders" || "/api/orders/" <= r.path then response == Forwarded(Orders, None)
              else response == NotFound(None)
  {
    RunsPrefix(Ops(cfg, traffic), n);
  }

  // ----- Retry-After -----

  /** The advertised delay is never shorter than the true one. */
  lemma RetryAfterLongEnough(ms: int)
    ensures RetryAfterSeconds(ms) * 1000 >= ms
  {
  }

  /** Every refusal in every run, even with changing quotas and clocks, is due within a second. */
  lemma RefusalDue(ops: seq<Op>, n: nat)
    requires Runs(ops) && n < |ops| && ops[n].Call? && !ReplyAt(ops, n).allowed
    ensures 1 <= ReplyAt(ops, n).retryMs <= 1000
  {
    RunsPrefix(ops, n);
    LevelInRange(ops, ops[n].key, ops[n].policy, n);
    RetryWithinSecond(ops[n].policy, LevelAt(ops, ops[n].key, ops[n].policy, n));
  }

  /** What the handler answers to the request at step n. */
  function ResponseAt(cfg: Settings, traffic: seq<Event>, n: nat): Response
    requires Runs(Ops(cfg, traffic)) && n < |traffic| && traffic[n].Arrives?
  {
    RunsPrefix(Ops(cfg, traffic), n);
    Serve(cfg, After(Ops(cfg, traffic)[..n]), traffic[n].request)
  }

  /** A refusal answers a script call that was refused, and its delay is that call's, in seconds. */
  lemma RefusalIsScripts(cfg: Settings, traffic: seq<Event>, n: nat)
    requires Runs(Ops(cfg, traffic)) && n < |traffic| && traffic[n].Arrives? && ResponseAt(cfg, traffic, n).TooManyRequests?
    ensures Ops(cfg, traffic)[n].Call? && !ReplyAt(Ops(cfg, traffic), n).allowed
    ensures ResponseAt(cfg, traffic, n).retryAfterSeconds == RetryAfterSeconds(ReplyAt(Ops(cfg, traffic), n).retryMs)
  {
    RunsPrefix(Ops(cfg, traffic), n);
  }

  /**
   Every 429 that the handler ever sends, under any traffic, clock and quotas, carries a Retry-After of exactly one second,
   and the script's own delay is never longer.
   */
  lemma RetryAfterIsOne(cfg: Settings, traffic: seq<Event>, n: nat)
    requires Runs(Ops(cfg, traffic)) && n < |traffic| && traffic[n].Arrives? && ResponseAt(cfg, traffic, n).TooManyRequests?
    ensures ResponseAt(cfg, traffic, n).retryAfterSeconds == 1
    ensures Ops(cfg, traffic)[n].Call? && 1 <= ReplyAt(Ops(cfg, traffic), n).retryMs <= 1000
  {
    RefusalIsScripts(cfg, traffic, n);
    RefusalDue(Ops(cfg, traffic), n);
  }
}
