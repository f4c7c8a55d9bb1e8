/** Why a stored quota binds only requests that were looked up under it: a history in which one was not. */
module StaleLookup {
  import opened TokenBucket
  import opened BucketTheory
  import opened WindowTheory
  import opened Limiter
  import opened Gateway
  import opened EndToEnd
  import opened Util
  import P = PolicyLookup

  /**
   A plan of 1000 tokens a second is cut to one. A request looked up after the cut runs the script at 0 ms; one looked up before
   it, still carrying the old quota, runs it at 1 ms.
   */
  function StaleHistory(d: P.Digest): seq<Happening> {
    [Admin(P.UpsertPlan("free", "Free", 1000, 1000), 0), Admin(P.CreateClient("c", "c", "free"), 0),
     Admin(P.EnsureKey(P.ApiKey("k", "c", "k", "k", false), d), 0), Admin(P.UpsertPlan("free", "Free", 1, 1), 0),
     Http(d, 4, Request(Authenticated("k", Policy(1, 1)), "/api/users", 0, Delivered), true),
     Http(d, 3, Request(Authenticated("k", Policy(1000, 1000)), "/api/users", 1, Delivered), true)]
  }

  function StaleTables(d: P.Digest, rate: int): P.Db {
    P.Db(map["free" := P.Plan("Free", rate, rate)], map["c" := P.Client("c", "free", true)],
         map[d := P.ApiKey("k", "c", "k", "k", false)], map[])
  }

  lemma StaleTablesAt(d: P.Digest)
    requires |d| == 32
    ensures var hs := StaleHistory(d);
            TablesAt(hs, 3) == StaleTables(d, 1000) && forall n :: 4 <= n <= 6 ==> TablesAt(hs, n) == StaleTables(d, 1)
  {
    var hs := StaleHistory(d);
    StaleStart(d);
    StaleAfterCut(d);
    TablesStep(hs, 5);
    TablesStep(hs, 6);
  }

  lemma StaleAfterCut(d: P.Digest)
    requires |d| == 32
    ensures TablesAt(StaleHistory(d), 4) == StaleTables(d, 1)
  {
    StaleStart(d);
    StaleCut(d);
    TablesStep(StaleHistory(d), 4);
  }

  lemma StaleStart(d: P.Digest)
    requires |d| == 32
    ensures TablesAt(StaleHistory(d), 3) == StaleTables(d, 1000)
  {
    var hs := StaleHistory(d);
    StaleSetup(d);
    TablesStep(hs, 1);
    TablesStep(hs, 2);
    TablesStep(hs, 3);
  }

  lemma StaleSetup(d: P.Digest)
    requires |d| == 32
    ensures var db := P.Apply(P.Apply(P.EMPTY, P.UpsertPlan("free", "Free", 1000, 1000)), P.CreateClient("c", "c", "free"));
            P.Apply(db, P.EnsureKey(P.ApiKey("k", "c", "k", "k", false), d)) == StaleTables(d, 1000)
  {
    assert P.ValidSlug("free");
    assert P.Apply(P.EMPTY, P.UpsertPlan("free", "Free", 1000, 1000)) == P.EMPTY.(plans := map["free" := P.Plan("Free", 1000, 1000)]);
    var db := P.Apply(P.Apply(P.EMPTY, P.UpsertPlan("free", "Free", 1000, 1000)), P.CreateClient("c", "c", "free"));
    assert db.clients == map["c" := P.Client("c", "free", true)] && db.keys == map[];
    assert P.Insertable(db, P.ApiKey("k", "c", "k", "k", false), d);
  }

  lemma StaleCut(d: P.Digest)
    ensures P.Apply(StaleTables(d, 1000), P.UpsertPlan("free", "Free", 1, 1)) == StaleTables(d, 1)
  {
    assert P.ValidSlug("free");
  }

  lemma StaleAnswer(d: P.Digest, rate: int, route: string, principal: P.Principal)
    ensures P.MayAnswer(StaleTables(d, rate), d, route, Some(principal)) <==> principal == P.Principal("k", "c", "c", "free", Policy(rate, rate))
  {
    assert forall prefix :: !P.Matches(StaleTables(d, rate), "c", route, prefix);
  }

  lemma StaleIsAuthentic(d: P.Digest)
    requires |d| == 32
    ensures Authentic(StaleHistory(d)) && NulFreeIds(TablesAt(StaleHistory(d), 5))
    ensures P.MayAnswer(TablesAt(StaleHistory(d), 4), d, Users.Key(), Some(P.Principal("k", "c", "c", "free", Policy(1, 1))))
    ensures QuotaDuring(StaleHistory(d), d, Users, Policy(1, 1), 4, 5)
  {
    var hs := StaleHistory(d);
    StaleTablesAt(d);
    forall rate: int ensures AnsweredBy(StaleTables(d, rate), d, "/api/users", Authenticated("k", Policy(rate, rate))) {
      StaleAnswer(d, rate, RouteKey("/api/users"), P.Principal("k", "c", "c", "free", Policy(rate, rate)));
    }
    assert AnsweredBy(StaleTables(d, 1), d, "/api/users", Authenticated("k", Policy(1, 1)));
    assert AnsweredBy(StaleTables(d, 1000), d, "/api/users", Authenticated("k", Policy(1000, 1000)));
    forall principal ensures P.MayAnswer(StaleTables(d, 1), d, Users.Key(), Some(principal)) <==> principal == P.Principal("k", "c", "c", "free", Policy(1, 1)) {
      StaleAnswer(d, 1, Users.Key(), principal);
    }
  }

  /** The script runs of the history: nothing, nothing, nothing, nothing, the fresh call, the stale call. */
  lemma StaleOps(d: P.Digest, cfg: Settings)
    ensures var ops, k := Ops(cfg, Traffic(StaleHistory(d))), BucketKey(cfg.prefix, cfg.digest, "k", Users.Key());
            ops == [Idle(0), Idle(0), Idle(0), Idle(0), Call(k, Policy(1, 1), 0), Call(k, Policy(1000, 1000), 1)]
  {
  }

  lemma StaleRun(k: string)
    ensures var ops := [Idle(0), Idle(0), Idle(0), Idle(0), Call(k, Policy(1, 1), 0), Call(k, Policy(1000, 1000), 1)];
            Runs(ops) && Runs(ops[..4]) && After(ops[..4]) == map[] && Runs(ops[..5]) && After(ops[..5]) == map[k := Entry(0, 0, 3000)]
  {
    var ops := [Idle(0), Idle(0), Idle(0), Idle(0), Call(k, Policy(1, 1), 0), Call(k, Policy(1000, 1000), 1)];
    var idle := [Idle(0), Idle(0), Idle(0), Idle(0)];
    IdleRun(4);
    assert ops[..4] == idle && idle == seq(4, n => Idle(0));
    assert ops[..5] == idle + [ops[4]] && ops == ops[..5] + [ops[5]];
    RunSnoc(idle, ops[4]);
    assert Policy(1, 1).TtlMs() == 3000;
    RunSnoc(ops[..5], ops[5]);
  }

  lemma {:induction false} IdleRun(n: nat)
    ensures Runs(seq(n, i => Idle(0))) && After(seq(n, i => Idle(0))) == map[]
    decreases n
  {
    if n > 0 {
      IdleRun(n - 1);
      RunSnoc(seq(n - 1, i => Idle(0)), Idle(0));
      assert seq(n, i => Idle(0)) == seq(n - 1, i => Idle(0)) + [Idle(0)];
    }
  }

  /**
   A quota that no longer changes is not enough: here it is (1, 1) from step 4 on, and two requests are
   forwarded within one millisecond, because one of them was looked up before the cut.
   */
  lemma StaleLookupBreaksQuota(d: P.Digest, cfg: Settings)
    requires |d| == 32 && !cfg.failOpen
    ensures Authentic(StaleHistory(d)) && QuotaDuring(StaleHistory(d), d, Users, Policy(1, 1), 4, 5)
    ensures Runs(Ops(cfg, Traffic(StaleHistory(d)))) && MonotoneDuring(Ops(cfg, Traffic(StaleHistory(d))), 4, 5)
    ensures !WithinQuota(cfg, Traffic(StaleHistory(d)), "k", Users, Policy(1, 1), 4, 5)
  {
    StaleIsAuthentic(d);
    StaleForwarded(d, cfg);
    var f := Forwards(cfg, Traffic(StaleHistory(d)), "k", Users);
    assert Count(f, 4, 6) == Count(f, 4, 5) + 1 == 2;
  }

  lemma StaleForwarded(d: P.Digest, cfg: Settings)
    requires !cfg.failOpen
    ensures var traffic := Traffic(StaleHistory(d));
            && Runs(Ops(cfg, traffic)) && MonotoneDuring(Ops(cfg, traffic), 4, 5)
            && Ops(cfg, traffic)[4].now == 0 && Ops(cfg, traffic)[5].now == 1
            && ForwardedTo(cfg, traffic, "k", Users, 4) && ForwardedTo(cfg, traffic, "k", Users, 5)
  {
    StaleOps(d, cfg);
    StaleRun(BucketKey(cfg.prefix, cfg.digest, "k", Users.Key()));
  }
}
