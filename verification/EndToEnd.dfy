/** From the policy tables to the upstream: the quota that the stored rows promise is the quota that holds. */
module EndToEnd {
  import opened Util
  import opened TokenBucket
  import opened WindowTheory
  import opened Limiter
  import opened Gateway
  import P = PolicyLookup
  import Store = UsageStore

  // ----- Authentication -----

  function AuthOf(answer: Option<P.Principal>): AuthResult {
    match answer
    case None => InvalidKey
    case Some(principal) => Authenticated(principal.keyId, principal.policy)
  }

  /** `auth` is a result of looking up `digest` for the route of `path`, or the database did not answer. */
  ghost predicate AnsweredBy(db: P.Db, digest: P.Digest, path: string, auth: AuthResult) {
    auth.AuthUnavailable? || exists answer :: P.MayAnswer(db, digest, RouteKey(path), answer) && auth == AuthOf(answer)
  }

  /** The authentication service in front of the handler. */
  class ApiGateway {
    const store: P.PolicyStore?
    const digest: string -> P.Digest   // the peppered HMAC
    const handler: Handler

    constructor (store: P.PolicyStore?, digest: string -> P.Digest, handler: Handler)
      ensures this.store == store && this.digest == digest && this.handler == handler
    {
      this.store := store;
      this.digest := digest;
      this.handler := handler;
    }

    /** A missing key is invalid without a lookup; otherwise the stored rows decide, unless the database fails. */
    method Authenticate(candidate: string, path: string, databaseFails: bool) returns (auth: AuthResult)
      ensures store == null || databaseFails ==> auth == if store != null && Store.Blank(candidate) then InvalidKey else AuthUnavailable
      ensures Store.Blank(candidate) && store != null ==> auth == InvalidKey
      ensures !Store.Blank(candidate) && store != null ==> AnsweredBy(store.View(), digest(candidate), path, auth)
      ensures !Store.Blank(candidate) && store != null && !databaseFails ==>
                (auth.InvalidKey? <==> !P.Usable(store.View(), digest(candidate))) && (auth.Authenticated? <==> P.Usable(store.View(), digest(candidate)))
    {
      if store == null {
        return AuthUnavailable;
      }
      if Store.Blank(candidate) {
        return InvalidKey;
      }
      if databaseFails {
        return AuthUnavailable;
      }
      var answer := store.LookupActiveKey(digest(candidate), RouteKey(path));
      auth := AuthOf(answer);
    }

    /** Anything that other gateways and administrators do meanwhile. */
    method Interfere() returns (ghost between: seq<Op>)
      modifies store, if handler.limiter == null then {} else {handler.limiter.client}
      ensures handler.limiter != null && handler.limiter.client != null ==>
        RunsFrom(old(handler.limiter.client.buckets), between)
        && handler.limiter.client.buckets == AfterFrom(old(handler.limiter.client.buckets), between)
    {
      if store != null {
        var statements: seq<P.Op> := *;
        for i := 0 to |statements|
          invariant handler.limiter != null && handler.limiter.client != null ==> handler.limiter.client.buckets == old(handler.limiter.client.buckets)
        {
          store.Statement(statements[i]);
        }
      }
      between := [];
      if handler.limiter != null && handler.limiter.client != null {
        between := Others(handler.limiter.client);
      }
    }

    static method Others(redis: Redis) returns (ghost between: seq<Op>)
      modifies redis
      ensures RunsFrom(old(redis.buckets), between) && redis.buckets == AfterFrom(old(redis.buckets), between)
    {
      var ops: seq<Op> := *;
      between := [];
      for i := 0 to |ops|
        invariant RunsFrom(old(redis.buckets), between) && redis.buckets == AfterFrom(old(redis.buckets), between)
      {
        if CanExec(redis.buckets, ops[i]) {
          RunsFromSnoc(old(redis.buckets), between, ops[i]);
          redis.buckets := Exec(redis.buckets, ops[i]);
          between := between + [ops[i]];
        }
      }
    }

    /**
     The whole path of one request: a lookup in the tables of that moment decides who calls, then, after whatever others did
     to the tables and to Redis meanwhile, the handler serves that request.
     */
    method ServeHttp(candidate: string, path: string, lost: seq<int>, now: int, net: Net, databaseFails: bool)
      returns (response: Response, auth: AuthResult, ghost between: seq<Op>)
      modifies store, if handler.limiter == null then {} else {handler.limiter.client}
      ensures store == null ==> response == Unavailable
      ensures handler.limiter == null ==> response == Unauthorized || response == Unavailable
      ensures store != null && Store.Blank(candidate) ==> response == Unauthorized
      ensures store != null && !Store.Blank(candidate) ==> AnsweredBy(old(store.View()), digest(candidate), path, auth)
      ensures handler.limiter != null && handler.limiter.client != null ==>
        ServedAfter(old(handler.limiter.client.buckets), between, Settings(handler.limiter.prefix, handler.limiter.digest, handler.failOpen),
                    Request(auth, path, now, net), lost, handler.limiter.client.buckets, response)
    {
      auth := Authenticate(candidate, path, databaseFails);
      between := Interfere();
      response := handler.ServeApi(Request(auth, path, now, net), lost);
    }
  }

  /** From db, the steps of others, then the lost tries, then the request itself lead to db', and it is answered accordingly. */
  ghost predicate ServedAfter(db: Buckets, between: seq<Op>, cfg: Settings, r: Request, lost: seq<int>, db': Buckets, response: Response) {
    && RunsFrom(db, between)
    && RunsFrom(AfterFrom(db, between), LostServes(cfg, r, lost))
    && var mid := AfterFrom(AfterFrom(db, between), LostServes(cfg, r, lost));
    CanExec(mid, ServeOp(cfg, r)) && db' == Exec(mid, ServeOp(cfg, r)) && response == Serve(cfg, mid, r)
  }

  // ----- Requests, administration and expiry, interleaved -----

  /**
   One step of the system. A request was looked up at step `lookup` and runs the script at its own step;
   `answered` tells whether the reply reached the gateway or the try was lost and repeated.
   */
  datatype Happening =
    | Http(digest: P.Digest, lookup: nat, request: Request, answered: bool)
    | Admin(op: P.Op, at: int)
    | Expiry(key: string, at: int)

  function AsTraffic(h: Happening): Event {
    match h
    case Http(_, _, request, answered) => if answered then Arrives(request) else LostTry(request)
    case Admin(_, at) => Elsewhere(at)
    case Expiry(key, at) => Expires(key, at)
  }

  function Traffic(hs: seq<Happening>): (traffic: seq<Event>)
    ensures |traffic| == |hs| && forall n :: 0 <= n < |hs| ==> traffic[n] == AsTraffic(hs[n])
  {
    seq(|hs|, n requires 0 <= n < |hs| => AsTraffic(hs[n]))
  }

  /** The administrative statements among the first n happenings. */
  function AdminOps(hs: seq<Happening>, n: nat): seq<P.Op>
    requires n <= |hs|
  {
    if n == 0 then [] else AdminOps(hs, n - 1) + if hs[n - 1].Admin? then [hs[n - 1].op] else []
  }

  /** The policy tables as the happening at step n finds them. */
  function TablesAt(hs: seq<Happening>, n: nat): P.Db
    requires n <= |hs|
  {
    P.After(AdminOps(hs, n))
  }

  lemma TablesStep(hs: seq<Happening>, n: nat)
    requires 0 < n <= |hs|
    ensures TablesAt(hs, n) == if hs[n - 1].Admin? then P.Apply(TablesAt(hs, n - 1), hs[n - 1].op) else TablesAt(hs, n - 1)
  {
    var before := AdminOps(hs, n - 1);
    if hs[n - 1].Admin? {
      assert (before + [hs[n - 1].op])[..|before|] == before;
    } else {
      assert before + [] == before;
    }
  }

  /** Each request was authenticated against the tables of the step of its lookup. */
  ghost predicate Authentic(hs: seq<Happening>) {
    forall n :: 0 <= n < |hs| && hs[n].Http? ==>
      hs[n].lookup <= n && AnsweredBy(TablesAt(hs, hs[n].lookup), hs[n].digest, hs[n].request.path, hs[n].request.auth)
  }

  ghost predicate NulFreeIds(db: P.Db) { forall d :: d in db.keys ==> NulFree(db.keys[d].id) }

  lemma ApplyKeepsKey(db: P.Db, op: P.Op, d: P.Digest)
    requires d in db.keys
    ensures d in P.Apply(db, op).keys && P.Apply(db, op).keys[d].(revoked := db.keys[d].revoked) == db.keys[d]
  {
  }

  /** Administration never removes a key or gives it another id or owner. */
  lemma {:induction false} KeysPersist(hs: seq<Happening>, n: nat, m: nat, d: P.Digest)
    requires n <= m <= |hs| && d in TablesAt(hs, n).keys
    ensures d in TablesAt(hs, m).keys
    ensures TablesAt(hs, m).keys[d].id == TablesAt(hs, n).keys[d].id && TablesAt(hs, m).keys[d].client == TablesAt(hs, n).keys[d].client
    decreases m
  {
    if n < m {
      KeysPersist(hs, n, m - 1, d);
      TablesStep(hs, m);
      if hs[m - 1].Admin? { ApplyKeepsKey(TablesAt(hs, m - 1), hs[m - 1].op, d); }
    }
  }

  /** In steps i to j, whatever the lookup may answer for this key on this upstream carries quota p. */
  ghost predicate QuotaDuring(hs: seq<Happening>, key: P.Digest, u: Upstream, p: Policy, i: nat, j: nat)
    requires j < |hs|
  {
    forall n: nat, principal :: i <= n <= j && P.MayAnswer(TablesAt(hs, n), key, u.Key(), Some(principal)) ==> principal.policy == p
  }

  /** Keys that ever have the same id are the same key. */
  lemma SameIdSameKey(hs: seq<Happening>, a: P.Digest, m: nat, b: P.Digest, n: nat)
    requires m <= |hs| && n <= |hs| && a in TablesAt(hs, m).keys && b in TablesAt(hs, n).keys
    requires TablesAt(hs, m).keys[a].id == TablesAt(hs, n).keys[b].id
    ensures a == b
  {
    KeysPersist(hs, m, |hs|, a);
    KeysPersist(hs, n, |hs|, b);
    P.HistorySound(AdminOps(hs, |hs|));
  }

  lemma AuthenticatedAs(hs: seq<Happening>, n: nat) returns (principal: P.Principal)
    requires Authentic(hs) && n < |hs| && hs[n].Http? && hs[n].request.auth.Authenticated?
    ensures hs[n].lookup <= n && P.MayAnswer(TablesAt(hs, hs[n].lookup), hs[n].digest, RouteKey(hs[n].request.path), Some(principal))
    ensures hs[n].request.auth == Authenticated(principal.keyId, principal.policy)
    ensures hs[n].digest in TablesAt(hs, hs[n].lookup).keys && TablesAt(hs, hs[n].lookup).keys[hs[n].digest].id == principal.keyId
  {
    var r, db := hs[n].request, TablesAt(hs, hs[n].lookup);
    var answer :| P.MayAnswer(db, hs[n].digest, RouteKey(r.path), answer) && r.auth == AuthOf(answer);
    principal := answer.value;
  }

  /** Step n serves a request of this key that its lookup may have answered so. */
  ghost predicate MayCarry(hs: seq<Happening>, key: P.Digest, u: Upstream, n: nat, principal: P.Principal)
    requires n < |hs|
  {
    && hs[n].Http? && hs[n].digest == key && hs[n].lookup <= n
    && P.MayAnswer(TablesAt(hs, hs[n].lookup), key, u.Key(), Some(principal))
  }

  /** Whatever the lookups of this key's requests in steps i to j may have answered does p no harm. */
  ghost predicate HarmlessLookups(hs: seq<Happening>, key: P.Digest, u: Upstream, p: Policy, i: nat, j: nat)
    requires j < |hs|
  {
    forall n, principal :: i <= n <= j && MayCarry(hs, key, u, n, principal) ==> Harmless(principal.policy, p)
  }

  lemma LookupsMakeSteady(hs: seq<Happening>, key: P.Digest, u: Upstream, keyId: string, p: Policy, i: nat, j: nat)
    requires i <= j < |hs| && Authentic(hs) && HarmlessLookups(hs, key, u, p, i, j) && p.Positive()
    requires key in TablesAt(hs, j).keys && TablesAt(hs, j).keys[key].id == keyId && NulFreeIds(TablesAt(hs, j))
    ensures Steady(Traffic(hs), keyId, u, p, i, j)
  {
    forall n | i <= n <= j && IsAuthenticated(Traffic(hs)[n])
      ensures var r := Traffic(hs)[n].request;
              NulFree(r.auth.keyId) && (r.auth.keyId == keyId && RouteKey(r.path) == u.Key() ==> Harmless(r.auth.policy, p))
    {
      var principal := AuthenticatedAs(hs, n);
      KeysPersist(hs, hs[n].lookup, j, hs[n].digest);
      if principal.keyId == keyId && RouteKey(hs[n].request.path) == u.Key() {
        SameIdSameKey(hs, hs[n].digest, hs[n].lookup, key, j);
        assert MayCarry(hs, key, u, n, principal);
      }
    }
  }

  /**
   Requests, administrative statements and expiries interleave in any way, and a request may be looked up long before it
   runs the script. What a key gets through in a window obeys every quota p to which the quotas that its requests
   of the window were answered at their lookups do no harm, whatever came before.
   */
  lemma PresentedQuotaHolds(hs: seq<Happening>, cfg: Settings, key: P.Digest, u: Upstream, keyId: string, p: Policy, i: nat, j: nat)
    requires i <= j < |hs| && Authentic(hs) && NulFreeIds(TablesAt(hs, j)) && p.Positive()
    requires key in TablesAt(hs, j).keys && TablesAt(hs, j).keys[key].id == keyId && HarmlessLookups(hs, key, u, p, i, j)
    requires !cfg.failOpen && NoCollisions(cfg, Traffic(hs), keyId, u, i, j)
    requires Runs(Ops(cfg, Traffic(hs))) && MonotoneDuring(Ops(cfg, Traffic(hs)), i, j)
    ensures WithinQuota(cfg, Traffic(hs), keyId, u, p, i, j)
  {
    LookupsMakeSteady(hs, key, u, keyId, p, i, j);
    EndToEndQuota(cfg, Traffic(hs), keyId, u, p, i, j);
  }

  /** The requests of this key that run the script in steps i to j were looked up at step w or later. */
  ghost predicate LookedUpSince(hs: seq<Happening>, key: P.Digest, w: nat, i: nat, j: nat)
    requires j < |hs|
  {
    forall n :: i <= n <= j && hs[n].Http? && hs[n].digest == key ==> hs[n].lookup >= w
  }

  lemma RecentIsHarmless(hs: seq<Happening>, key: P.Digest, u: Upstream, p: Policy, w: nat, i: nat, j: nat)
    requires w <= i <= j < |hs| && p.Positive() && QuotaDuring(hs, key, u, p, w, j) && LookedUpSince(hs, key, w, i, j)
    ensures HarmlessLookups(hs, key, u, p, i, j)
  {
    HarmlessToItself(p);
  }

  lemma AnsweredKeyStays(hs: seq<Happening>, key: P.Digest, u: Upstream, principal: P.Principal, w: nat, j: nat)
    requires w <= j < |hs| && P.MayAnswer(TablesAt(hs, w), key, u.Key(), Some(principal))
    ensures principal.policy.Positive() && key in TablesAt(hs, j).keys && TablesAt(hs, j).keys[key].id == principal.keyId
  {
    P.AnsweredPolicyUsable(AdminOps(hs, w), key, u.Key(), principal);
    KeysPersist(hs, w, j, key);
  }

  /**
   The stored quota holds: if a key's quota for an upstream does not change from step w on, every window whose requests
   were looked up since then obeys it, whatever quota, revocation or bucket contents came before.
   */
  lemma StoredQuotaHolds(hs: seq<Happening>, cfg: Settings, key: P.Digest, u: Upstream, principal: P.Principal, w: nat, i: nat, j: nat)
    requires w <= i <= j < |hs| && Authentic(hs) && NulFreeIds(TablesAt(hs, j))
    requires P.MayAnswer(TablesAt(hs, w), key, u.Key(), Some(principal)) && QuotaDuring(hs, key, u, principal.policy, w, j)
    requires LookedUpSince(hs, key, w, i, j)
    requires !cfg.failOpen && NoCollisions(cfg, Traffic(hs), principal.keyId, u, i, j)
    requires Runs(Ops(cfg, Traffic(hs))) && MonotoneDuring(Ops(cfg, Traffic(hs)), i, j)
    ensures WithinQuota(cfg, Traffic(hs), principal.keyId, u, principal.policy, i, j)
  {
    AnsweredKeyStays(hs, key, u, principal, w, j);
    RecentIsHarmless(hs, key, u, principal.policy, w, i, j);
    PresentedQuotaHolds(hs, cfg, key, u, principal.keyId, principal.policy, i, j);
  }

  // ----- Which administration leaves a quota alone -----

  /** The statement neither sets an override of the client nor redefines its plan. */
  predicate LeavesQuota(op: P.Op, client: string, plan: string) {
    (op.SetRouteQuota? ==> op.client != client) && (op.UpsertPlan? ==> op.slug != plan)
  }

  /** The client's part of the quota tables. */
  ghost predicate SameQuotas(db: P.Db, db': P.Db, client: string) {
    && client in db.clients && client in db'.clients && db.clients[client] == db'.clients[client]
    && Get(db.plans, db.clients[client].plan) == Get(db'.plans, db.clients[client].plan)
    && forall prefix :: Get(db.quotas, (client, prefix)) == Get(db'.quotas, (client, prefix))
  }

  lemma {:induction false} UnrelatedAdmin(hs: seq<Happening>, client: string, i: nat, m: nat)
    requires i <= m <= |hs| && client in TablesAt(hs, i).clients
    requires forall n :: i <= n < m && hs[n].Admin? ==> LeavesQuota(hs[n].op, client, TablesAt(hs, i).clients[client].plan)
    ensures SameQuotas(TablesAt(hs, i), TablesAt(hs, m), client)
    decreases m
  {
    if i < m {
      UnrelatedAdmin(hs, client, i, m - 1);
      TablesStep(hs, m);
      P.HistorySound(AdminOps(hs, i));
      if hs[m - 1].Admin? { ApplyLeavesQuotas(TablesAt(hs, m - 1), hs[m - 1].op, client); }
    }
  }

  lemma ApplyLeavesQuotas(db: P.Db, op: P.Op, client: string)
    requires client in db.clients && LeavesQuota(op, client, db.clients[client].plan)
    ensures SameQuotas(db, P.Apply(db, op), client)
  {
  }

  lemma SameQuotasSamePolicy(db: P.Db, db': P.Db, client: string, route: string, p: Policy)
    requires SameQuotas(db, db', client) && db.clients[client].plan in db.plans
    ensures db'.clients[client].plan in db'.plans
    ensures P.PolicyFrom(db', client, route, p) <==> P.PolicyFrom(db, client, route, p)
  {
    assert Get(db.plans, db.clients[client].plan).Some?;
    forall prefix ensures P.Matches(db', client, route, prefix) <==> P.Matches(db, client, route, prefix)
                  ensures P.Matches(db, client, route, prefix) ==> db'.quotas[(client, prefix)] == db.quotas[(client, prefix)] {
      assert Get(db.quotas, (client, prefix)) == Get(db'.quotas, (client, prefix));
    }
    assert forall prefix :: P.IsLongest(db', client, route, prefix) <==> P.IsLongest(db, client, route, prefix);
  }

  /**
   A quota that is unambiguous stands still as long as nobody sets an override of the client or redefines its plan: keys may be created,
   revoked and ensured, other clients reconfigured, and the quota stays the one answered at the start.
   */
  lemma QuotaStands(hs: seq<Happening>, key: P.Digest, u: Upstream, principal: P.Principal, i: nat, j: nat)
    requires i <= j < |hs| && P.OneAnswer(TablesAt(hs, i), key, u.Key()) && P.MayAnswer(TablesAt(hs, i), key, u.Key(), Some(principal))
    requires forall n :: i <= n < j && hs[n].Admin? ==> LeavesQuota(hs[n].op, principal.clientId, principal.plan)
    ensures QuotaDuring(hs, key, u, principal.policy, i, j)
  {
    forall n: nat, other | i <= n <= j && P.MayAnswer(TablesAt(hs, n), key, u.Key(), Some(other)) ensures other.policy == principal.policy {
      QuotaStandsAt(hs, key, u, principal, i, n, other);
    }
  }

  lemma QuotaStandsAt(hs: seq<Happening>, key: P.Digest, u: Upstream, principal: P.Principal, i: nat, n: nat, other: P.Principal)
    requires i <= n < |hs| && P.OneAnswer(TablesAt(hs, i), key, u.Key()) && P.MayAnswer(TablesAt(hs, i), key, u.Key(), Some(principal))
    requires forall m :: i <= m < n && hs[m].Admin? ==> LeavesQuota(hs[m].op, principal.clientId, principal.plan)
    requires P.MayAnswer(TablesAt(hs, n), key, u.Key(), Some(other))
    ensures other.policy == principal.policy
  {
    var db, client := TablesAt(hs, i), principal.clientId;
    KeysPersist(hs, i, n, key);
    UnrelatedAdmin(hs, client, i, n);
    SameQuotasSamePolicy(db, TablesAt(hs, n), client, u.Key(), other.policy);
    assert P.MayAnswer(db, key, u.Key(), Some(principal.(policy := other.policy)));
  }
}
