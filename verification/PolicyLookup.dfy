/** API keys, plans and route quotas, and the query that turns a key digest and a route into a quota. */
module PolicyLookup {
  import opened Util
  import opened TokenBucket
  import BucketTheory

  datatype Plan = Plan(name: string, rate: int, burst: int)

  datatype Client = Client(name: string, plan: string, active: bool)

  datatype ApiKey = ApiKey(id: string, client: string, name: string, prefix: string, revoked: bool)

  datatype Quota = Quota(rate: int, burst: int)

  type Digest = seq<bv8>

  /** plans by slug, clients by id, keys by digest, quotas by client and route prefix. */
  datatype Db = Db(
    plans: map<string, Plan>, clients: map<string, Client>, keys: map<Digest, ApiKey>, quotas: map<(string, string), Quota>)

  const EMPTY: Db := Db(map[], map[], map[], map[])

  // ----- Pattern matching -----

  /** SQL LIKE with its two wildcards and backslash escapes. */
  predicate Like(s: string, pattern: string)
    decreases |pattern|, |s|
  {
    if pattern == "" then s == ""
    else if pattern[0] == '%' then Like(s, pattern[1..]) || (s != "" && Like(s[1..], pattern))
    else if pattern[0] == '\\' then |pattern| > 1 && s != "" && s[0] == pattern[1] && Like(s[1..], pattern[2..])
    else s != "" && (pattern[0] == '_' || s[0] == pattern[0]) && Like(s[1..], pattern[1..])
  }

  /** A percent sign stands for any stretch of characters, the empty one included. */
  lemma {:induction false} LikePercent(s: string, pattern: string)
    ensures Like(s, "%" + pattern) <==> exists n :: 0 <= n <= |s| && Like(s[n..], pattern)
    decreases |s|
  {
    assert ("%" + pattern)[1..] == pattern;
    if s != "" {
      LikePercent(s[1..], pattern);
      if n :| 0 <= n <= |s[1..]| && Like(s[1..][n..], pattern) { assert s[1..][n..] == s[n + 1..]; }
      if n :| 0 <= n <= |s| && Like(s[n..], pattern) {
        if n == 0 { assert s[0..] == s; } else { assert s[1..][n - 1..] == s[n..]; }
      }
      if Like(s, pattern) { assert s[0..] == s; }
    } else {
      assert s[0..] == s;
    }
  }

  /** A backslash makes the next character stand for itself. */
  lemma LikeEscape(s: string, c: char, pattern: string)
    ensures Like(s, ['\\', c] + pattern) <==> s != "" && s[0] == c && Like(s[1..], pattern)
  {
    assert (['\\', c] + pattern)[2..] == pattern;
  }

  predicate Plain(s: string) { forall c :: c in s ==> c != '%' && c != '_' && c != '\\' }

  lemma {:induction false} LikeAnything(s: string)
    ensures Like(s, "%")
    decreases |s|
  {
    if s != "" { LikeAnything(s[1..]); }
  }

  /** No multi-character wildcard and no escape; single-character wildcards may occur. */
  predicate Simple(s: string) { forall c :: c in s ==> c != '%' && c != '\\' }

  /** s begins with the pattern, position by position, up to single-character wildcards. */
  predicate Fits(s: string, pattern: string) {
    |pattern| <= |s| && forall i :: 0 <= i < |pattern| ==> pattern[i] == '_' || pattern[i] == s[i]
  }

  lemma {:induction false} LikeIsFits(s: string, prefix: string)
    requires Simple(prefix)
    ensures Like(s, prefix + "%") <==> Fits(s, prefix)
    decreases |prefix|
  {
    if prefix == "" {
      assert prefix + "%" == "%";
      LikeAnything(s);
    } else {
      assert (prefix + "%")[1..] == prefix[1..] + "%";
      assert prefix[0] in prefix && forall c :: c in prefix[1..] ==> c in prefix;
      if s != "" {
        LikeIsFits(s[1..], prefix[1..]);
        FitsTail(s, prefix);
      }
    }
  }

  lemma FitsTail(s: string, pattern: string)
    requires s != "" && pattern != ""
    ensures Fits(s, pattern) <==> (pattern[0] == '_' || pattern[0] == s[0]) && Fits(s[1..], pattern[1..])
  {
    if Fits(s[1..], pattern[1..]) && (pattern[0] == '_' || pattern[0] == s[0]) {
      forall i | 0 <= i < |pattern| ensures pattern[i] == '_' || pattern[i] == s[i] {
        if i > 0 { assert pattern[1..][i - 1] == '_' || pattern[1..][i - 1] == s[1..][i - 1]; }
      }
    }
  }

  /** Without wildcards the pattern test is the prefix test. */
  lemma LikeIsPrefix(s: string, prefix: string)
    requires Plain(prefix)
    ensures Like(s, prefix + "%") <==> prefix <= s
  {
    LikeIsFits(s, prefix);
    if Fits(s, prefix) {
      forall i | 0 <= i < |prefix| ensures prefix[i] == s[i] { assert prefix[i] in prefix; }
    }
  }

  // ----- The lookup -----

  datatype Principal = Principal(keyId: string, clientId: string, clientName: string, plan: string, policy: Policy)

  predicate Matches(db: Db, client: string, route: string, prefix: string) {
    (client, prefix) in db.quotas && Like(route, prefix + "%")
  }

  /** A row that ordering the matching overrides by length may put first. */
  ghost predicate IsLongest(db: Db, client: string, route: string, prefix: string) {
    Matches(db, client, route, prefix) && forall other :: Matches(db, client, route, other) ==> |other| <= |prefix|
  }

  predicate Usable(db: Db, digest: Digest) {
    digest in db.keys && !db.keys[digest].revoked && db.keys[digest].client in db.clients
    && db.clients[db.keys[digest].client].active && db.clients[db.keys[digest].client].plan in db.plans
  }

  /** The quota comes whole from one row: a longest matching override, or the plan if none matches. */
  ghost predicate PolicyFrom(db: Db, client: string, route: string, p: Policy)
    requires client in db.clients && db.clients[client].plan in db.plans
  {
    if exists prefix :: Matches(db, client, route, prefix)
    then exists prefix :: IsLongest(db, client, route, prefix) && p == Policy(db.quotas[(client, prefix)].rate, db.quotas[(client, prefix)].burst)
    else p == Policy(db.plans[db.clients[client].plan].rate, db.plans[db.clients[client].plan].burst)
  }

  /** `answer` is a result the query may return; None stands for the invalid-key error. */
  ghost predicate MayAnswer(db: Db, digest: Digest, route: string, answer: Option<Principal>) {
    if !Usable(db, digest) then answer == None
    else
      var k := db.keys[digest];
      answer.Some?
      && answer.value == Principal(k.id, k.client, db.clients[k.client].name, db.clients[k.client].plan, answer.value.policy)
      && PolicyFrom(db, k.client, route, answer.value.policy)
  }

  ghost predicate PlainPrefixes(db: Db) { forall k :: k in db.quotas ==> Plain(k.1) }

  lemma LongestUnique(db: Db, client: string, route: string, a: string, b: string)
    requires PlainPrefixes(db) && IsLongest(db, client, route, a) && IsLongest(db, client, route, b)
    ensures a == b && a <= route
  {
    assert (client, a) in db.quotas && (client, b) in db.quotas;
    LikeIsPrefix(route, a);
    LikeIsPrefix(route, b);
    assert a == route[..|a|] && b == route[..|b|];
  }

  /** With wildcard-free prefixes the answer does not depend on the order in which rows are found. */
  lemma LookupDeterministic(db: Db, digest: Digest, route: string, a: Option<Principal>, b: Option<Principal>)
    requires PlainPrefixes(db) && MayAnswer(db, digest, route, a) && MayAnswer(db, digest, route, b)
    ensures a == b
  {
    if Usable(db, digest) {
      var client := db.keys[digest].client;
      if exists prefix :: Matches(db, client, route, prefix) {
        var x :| IsLongest(db, client, route, x) && a.value.policy == Policy(db.quotas[(client, x)].rate, db.quotas[(client, x)].burst);
        var y :| IsLongest(db, client, route, y) && b.value.policy == Policy(db.quotas[(client, y)].rate, db.quotas[(client, y)].burst);
        LongestUnique(db, client, route, x, y);
      }
    }
  }

  lemma {:induction false} LongestExists(db: Db, client: string, route: string, prefix: string, candidates: set<string>) returns (best: string)
    requires Matches(db, client, route, prefix)
    requires forall other :: Matches(db, client, route, other) && |other| > |prefix| ==> other in candidates
    ensures IsLongest(db, client, route, best) && |best| >= |prefix|
    decreases |candidates|
  {
    if longer :| Matches(db, client, route, longer) && |longer| > |prefix| {
      best := LongestExists(db, client, route, longer, candidates - {longer});
    } else {
      best := prefix;
    }
  }

  /** The query always has an answer, with wildcards or without. */
  lemma LookupTotal(db: Db, digest: Digest, route: string) returns (answer: Option<Principal>)
    ensures MayAnswer(db, digest, route, answer)
  {
    if !Usable(db, digest) {
      return None;
    }
    var k := db.keys[digest];
    var c := db.clients[k.client];
    var policy := Policy(db.plans[c.plan].rate, db.plans[c.plan].burst);
    if prefix :| Matches(db, k.client, route, prefix) {
      var candidates := set q | q in db.quotas :: q.1;
      forall other | Matches(db, k.client, route, other) ensures other in candidates { assert (k.client, other).1 == other; }
      var best := LongestExists(db, k.client, route, prefix, candidates);
      policy := Policy(db.quotas[(k.client, best)].rate, db.quotas[(k.client, best)].burst);
    }
    answer := Some(Principal(k.id, k.client, c.name, c.plan, policy));
  }

  // ----- Exactly when the answer does not depend on row order -----

  /** Some route fits both patterns. */
  predicate Compatible(a: string, b: string) {
    |a| == |b| && forall i :: 0 <= i < |a| ==> a[i] == '_' || b[i] == '_' || a[i] == b[i]
  }

  /** A route that fits both patterns and is no longer than they are. */
  function Merge(a: string, b: string): (route: string)
    requires Compatible(a, b)
    ensures |route| == |a| && Fits(route, a) && Fits(route, b)
  {
    seq(|a|, i requires 0 <= i < |a| => if a[i] == '_' then b[i] else a[i])
  }

  ghost predicate SimplePrefixes(db: Db, client: string) { forall k :: k in db.quotas && k.0 == client ==> Simple(k.1) }

  /** Two overrides of the client that some route fits alike, and that grant different quotas. */
  ghost predicate Conflict(db: Db, client: string, x: string, y: string) {
    (client, x) in db.quotas && (client, y) in db.quotas && Compatible(x, y) && db.quotas[(client, x)] != db.quotas[(client, y)]
  }

  ghost predicate OneAnswer(db: Db, digest: Digest, route: string) {
    forall a, b :: MayAnswer(db, digest, route, a) && MayAnswer(db, digest, route, b) ==> a == b
  }

  lemma LongestMayAnswer(db: Db, digest: Digest, route: string, prefix: string)
    requires Usable(db, digest) && IsLongest(db, db.keys[digest].client, route, prefix)
    ensures var k, q := db.keys[digest], db.quotas[(db.keys[digest].client, prefix)];
            MayAnswer(db, digest, route, Some(Principal(k.id, k.client, db.clients[k.client].name, db.clients[k.client].plan, Policy(q.rate, q.burst))))
  {
    assert Matches(db, db.keys[digest].client, route, prefix);
  }

  /** If all overrides that compete for first place grant the same quota, the answer is unique. */
  lemma AgreementSuffices(db: Db, digest: Digest, route: string)
    requires Usable(db, digest)
    requires forall x, y :: IsLongest(db, db.keys[digest].client, route, x) && IsLongest(db, db.keys[digest].client, route, y) ==>
               db.quotas[(db.keys[digest].client, x)] == db.quotas[(db.keys[digest].client, y)]
    ensures OneAnswer(db, digest, route)
  {
    var client := db.keys[digest].client;
    forall a, b | MayAnswer(db, digest, route, a) && MayAnswer(db, digest, route, b) ensures a == b {
      if exists prefix :: Matches(db, client, route, prefix) {
        var x :| IsLongest(db, client, route, x) && a.value.policy == Policy(db.quotas[(client, x)].rate, db.quotas[(client, x)].burst);
        var y :| IsLongest(db, client, route, y) && b.value.policy == Policy(db.quotas[(client, y)].rate, db.quotas[(client, y)].burst);
      }
    }
  }

  /** Competing overrides without multi-character wildcards are compatible. */
  lemma CompetitorsCompatible(db: Db, client: string, route: string, x: string, y: string)
    requires SimplePrefixes(db, client) && IsLongest(db, client, route, x) && IsLongest(db, client, route, y)
    ensures Compatible(x, y)
  {
    assert (client, x) in db.quotas && (client, y) in db.quotas && (client, x).1 == x && (client, y).1 == y;
    LikeIsFits(route, x);
    LikeIsFits(route, y);
    forall i | 0 <= i < |x| ensures x[i] == '_' || y[i] == '_' || x[i] == y[i] {
      assert (x[i] == '_' || x[i] == route[i]) && (y[i] == '_' || y[i] == route[i]);
    }
  }

  /** On the merge of two compatible overrides both compete for first place: it is too short for any longer one. */
  lemma MergeCompetes(db: Db, client: string, x: string, y: string)
    requires SimplePrefixes(db, client) && Conflict(db, client, x, y)
    ensures IsLongest(db, client, Merge(x, y), x) && IsLongest(db, client, Merge(x, y), y)
  {
    assert (client, x).1 == x && (client, y).1 == y;
    LikeIsFits(Merge(x, y), x);
    LikeIsFits(Merge(x, y), y);
    forall other | Matches(db, client, Merge(x, y), other) ensures |other| <= |x| {
      assert (client, other).1 == other;
      LikeIsFits(Merge(x, y), other);
    }
  }

  lemma ConflictIsAmbiguous(db: Db, digest: Digest, x: string, y: string)
    requires Usable(db, digest) && SimplePrefixes(db, db.keys[digest].client) && Conflict(db, db.keys[digest].client, x, y)
    ensures !OneAnswer(db, digest, Merge(x, y))
  {
    MergeCompetes(db, db.keys[digest].client, x, y);
    LongestMayAnswer(db, digest, Merge(x, y), x);
    LongestMayAnswer(db, digest, Merge(x, y), y);
  }

  /**
   For a client whose prefixes hold no `%` and no backslash, the answer is independent of row order on every route
   exactly when no two overrides of one length that agree up to `_` grant different quotas.
   */
  lemma LookupUniqueExactly(db: Db, digest: Digest)
    requires Usable(db, digest) && SimplePrefixes(db, db.keys[digest].client)
    ensures (forall route :: OneAnswer(db, digest, route)) <==> !exists x, y :: Conflict(db, db.keys[digest].client, x, y)
  {
    var client := db.keys[digest].client;
    if x, y :| Conflict(db, client, x, y) {
      ConflictIsAmbiguous(db, digest, x, y);
    } else {
      forall route ensures OneAnswer(db, digest, route) {
        forall x, y | IsLongest(db, client, route, x) && IsLongest(db, client, route, y)
          ensures db.quotas[(client, x)] == db.quotas[(client, y)]
        {
          CompetitorsCompatible(db, client, route, x, y);
          assert !Conflict(db, client, x, y);
        }
        AgreementSuffices(db, digest, route);
      }
    }
  }

  /** With any patterns at all, it is enough that overrides of one length grant one quota. */
  lemma LookupUniqueByLength(db: Db, digest: Digest, route: string)
    requires Usable(db, digest)
    requires forall x, y :: (db.keys[digest].client, x) in db.quotas && (db.keys[digest].client, y) in db.quotas && |x| == |y| ==>
               db.quotas[(db.keys[digest].client, x)] == db.quotas[(db.keys[digest].client, y)]
    ensures OneAnswer(db, digest, route)
  {
    AgreementSuffices(db, digest, route);
  }

  // ----- Administration -----

  /** What the INTEGER columns and their checks accept. */
  predicate Storable(rate: int, burst: int) { 0 < rate <= BucketTheory.MAX_INT32 && 0 < burst <= BucketTheory.MAX_INT32 }

  predicate SlugChar(c: char) { 'a' <= c <= 'z' || '0' <= c <= '9' }

  predicate ValidSlug(s: string) {
    && 2 <= |s| <= 32 && SlugChar(s[0])
    && forall i :: 1 <= i < |s| ==> SlugChar(s[i]) || s[i] == '_' || s[i] == '-'
  }

  datatype Op =
    | UpsertPlan(slug: string, planName: string, rate: int, burst: int)
    | CreateClient(clientId: string, clientName: string, planSlug: string)
    | CreateKey(key: ApiKey, digest: Digest)
    | EnsureKey(key: ApiKey, digest: Digest)
    | SetRouteQuota(client: string, route: string, rate: int, burst: int)
    | RevokeKey(prefix: string)

  /** A row with the same display prefix or the same id exists. */
  predicate Taken(db: Db, k: ApiKey) { exists d :: d in db.keys && (db.keys[d].prefix == k.prefix || db.keys[d].id == k.id) }

  predicate Insertable(db: Db, k: ApiKey, digest: Digest) {
    |digest| == 32 && k.client in db.clients && digest !in db.keys && !Taken(db, k)
  }

  predicate Revokes(k: ApiKey, prefix: string) { k.prefix == prefix && !k.revoked }

  /** Effect of one administrative statement; a statement that violates a constraint changes nothing. */
  function Apply(db: Db, op: Op): Db {
    match op
    case UpsertPlan(slug, name, rate, burst) =>
      if ValidSlug(slug) && Storable(rate, burst) then db.(plans := db.plans[slug := Plan(name, rate, burst)]) else db
    case CreateClient(id, name, slug) =>
      if slug in db.plans && id !in db.clients then db.(clients := db.clients[id := Client(name, slug, true)]) else db
    case CreateKey(k, digest) =>
      if Insertable(db, k, digest) then db.(keys := db.keys[digest := k.(revoked := false)]) else db
    case EnsureKey(k, digest) =>
      if digest in db.keys then db.(keys := db.keys[digest := db.keys[digest].(revoked := false)])
      else if Insertable(db, k, digest) then db.(keys := db.keys[digest := k.(revoked := false)])
      else db
    case SetRouteQuota(client, route, rate, burst) =>
      if client in db.clients && "/" <= route && Storable(rate, burst)
      then db.(quotas := db.quotas[(client, route) := Quota(rate, burst)]) else db
    case RevokeKey(prefix) =>
      db.(keys := map d | d in db.keys :: if Revokes(db.keys[d], prefix) then db.keys[d].(revoked := true) else db.keys[d])
  }

  function After(ops: seq<Op>): Db {
    if ops == [] then EMPTY else Apply(After(ops[..|ops| - 1]), ops[|ops| - 1])
  }

  /** References resolve, quotas are storable, and a display prefix or an id names one key. */
  predicate Sound(db: Db) {
    && (forall p :: p in db.plans ==> Storable(db.plans[p].rate, db.plans[p].burst))
    && (forall c :: c in db.clients ==> db.clients[c].plan in db.plans)
    && (forall d :: d in db.keys ==> db.keys[d].client in db.clients)
    && (forall q :: q in db.quotas ==> q.0 in db.clients && "/" <= q.1 && Storable(db.quotas[q].rate, db.quotas[q].burst))
    && (forall d, e :: d in db.keys && e in db.keys && (db.keys[d].prefix == db.keys[e].prefix || db.keys[d].id == db.keys[e].id) ==> d == e)
  }

  lemma PlanKeepsSound(db: Db, slug: string, plan: Plan)
    requires Sound(db) && Storable(plan.rate, plan.burst)
    ensures Sound(db.(plans := db.plans[slug := plan]))
  {
  }

  lemma ClientKeepsSound(db: Db, id: string, client: Client)
    requires Sound(db) && client.plan in db.plans
    ensures Sound(db.(clients := db.clients[id := client]))
  {
  }

  lemma QuotaKeepsSound(db: Db, client: string, route: string, q: Quota)
    requires Sound(db) && client in db.clients && "/" <= route && Storable(q.rate, q.burst)
    ensures Sound(db.(quotas := db.quotas[(client, route) := q]))
  {
  }

  lemma NewKeyKeepsSound(db: Db, k: ApiKey, digest: Digest)
    requires Sound(db) && Insertable(db, k, digest)
    ensures Sound(db.(keys := db.keys[digest := k.(revoked := false)]))
  {
    assert forall d :: d in db.keys ==> db.keys[d].prefix != k.prefix && db.keys[d].id != k.id;
  }

  lemma FlagKeepsSound(db: Db, keys: map<Digest, ApiKey>)
    requires Sound(db) && keys.Keys == db.keys.Keys
    requires forall d :: d in keys ==> keys[d] == db.keys[d].(revoked := keys[d].revoked)
    ensures Sound(db.(keys := keys))
  {
  }

  lemma ApplySound(db: Db, op: Op)
    requires Sound(db)
    ensures Sound(Apply(db, op))
  {
    match op
    case UpsertPlan(slug, name, rate, burst) =>
      if ValidSlug(slug) && Storable(rate, burst) { PlanKeepsSound(db, slug, Plan(name, rate, burst)); }
    case CreateClient(id, name, slug) =>
      if slug in db.plans && id !in db.clients { ClientKeepsSound(db, id, Client(name, slug, true)); }
    case SetRouteQuota(client, route, rate, burst) =>
      if client in db.clients && "/" <= route && Storable(rate, burst) { QuotaKeepsSound(db, client, route, Quota(rate, burst)); }
    case CreateKey(k, digest) => if Insertable(db, k, digest) { NewKeyKeepsSound(db, k, digest); }
    case EnsureKey(k, digest) =>
      if digest in db.keys {
        FlagKeepsSound(db, Apply(db, op).keys);
      } else if Insertable(db, k, digest) {
        NewKeyKeepsSound(db, k, digest);
      }
    case RevokeKey(_) => FlagKeepsSound(db, Apply(db, op).keys);
  }

  lemma {:induction false} HistorySound(ops: seq<Op>)
    ensures Sound(After(ops))
    decreases |ops|
  {
    if ops != [] {
      HistorySound(ops[..|ops| - 1]);
      ApplySound(After(ops[..|ops| - 1]), ops[|ops| - 1]);
    }
  }

  /**
   After any history of administration, every answered quota is positive and within the
   range for which the limiter's arithmetic is exact, so the limiter never refuses it.
   */
  lemma AnsweredPolicyUsable(ops: seq<Op>, digest: Digest, route: string, principal: Principal)
    requires MayAnswer(After(ops), digest, route, Some(principal))
    ensures principal.policy.Positive()
    ensures principal.policy.rate <= BucketTheory.MAX_INT32 && principal.policy.burst <= BucketTheory.MAX_INT32
  {
    HistorySound(ops);
    var db := After(ops);
    var client := db.keys[digest].client;
    if exists prefix :: Matches(db, client, route, prefix) {
      var prefix :| IsLongest(db, client, route, prefix) && principal.policy == Policy(db.quotas[(client, prefix)].rate, db.quotas[(client, prefix)].burst);
      assert (client, prefix) in db.quotas;
    }
  }

  predicate Revoked(db: Db, digest: Digest) { digest in db.keys && db.keys[digest].revoked }

  predicate Reinstates(op: Op, digest: Digest) { op.EnsureKey? && op.digest == digest }

  lemma {:induction false} StaysRevoked(ops: seq<Op>, more: seq<Op>, digest: Digest)
    requires Revoked(After(ops), digest) && forall op :: op in more ==> !Reinstates(op, digest)
    ensures Revoked(After(ops + more), digest)
    decreases |more|
  {
    if more == [] {
      assert ops + more == ops;
    } else {
      var before := more[..|more| - 1];
      StaysRevoked(ops, before, digest);
      assert (ops + more)[..|ops + more| - 1] == ops + before;
      assert !Reinstates(more[|more| - 1], digest);
    }
  }

  /** Revoking by display prefix rejects the key from then on, until its digest is ensured again. */
  lemma RevokedStaysRejected(ops: seq<Op>, prefix: string, more: seq<Op>, digest: Digest, route: string, answer: Option<Principal>)
    requires digest in After(ops).keys && After(ops).keys[digest].prefix == prefix
    requires forall op :: op in more ==> !Reinstates(op, digest)
    requires MayAnswer(After(ops + [RevokeKey(prefix)] + more), digest, route, answer)
    ensures answer == None
  {
    assert (ops + [RevokeKey(prefix)])[..|ops|] == ops;
    StaysRevoked(ops + [RevokeKey(prefix)], more, digest);
  }

  /**
   Ensuring a revoked digest again, whoever is named as its owner, makes the next lookup answer the key as the same key of
   the owner it had before, if that client is active; and no other key is answered differently.
   */
  lemma EnsureReinstates(ops: seq<Op>, k: ApiKey, digest: Digest, route: string, answer: Option<Principal>)
    requires Revoked(After(ops), digest)
    requires MayAnswer(After(ops + [EnsureKey(k, digest)]), digest, route, answer)
    ensures var row := After(ops).keys[digest];
            && row.client in After(ops).clients
            && (answer.Some? <==> After(ops).clients[row.client].active)
            && (answer.Some? ==> answer.value.keyId == row.id && answer.value.clientId == row.client)
    ensures forall d, a :: d != digest ==> (MayAnswer(After(ops + [EnsureKey(k, digest)]), d, route, a) <==> MayAnswer(After(ops), d, route, a))
  {
    assert (ops + [EnsureKey(k, digest)])[..|ops|] == ops;
    HistorySound(ops);
    var db, db' := After(ops), After(ops + [EnsureKey(k, digest)]);
    assert db' == db.(keys := db.keys[digest := db.keys[digest].(revoked := false)]);
    forall d, a | d != digest ensures MayAnswer(db', d, route, a) <==> MayAnswer(db, d, route, a) {
      SameRowsSameAnswer(db, db', d, route, a);
    }
  }

  /** The answer depends on the key's own row and on the other three tables only. */
  lemma SameRowsSameAnswer(db: Db, db': Db, digest: Digest, route: string, answer: Option<Principal>)
    requires db'.plans == db.plans && db'.clients == db.clients && db'.quotas == db.quotas
    requires Get(db'.keys, digest) == Get(db.keys, digest)
    ensures MayAnswer(db', digest, route, answer) <==> MayAnswer(db, digest, route, answer)
  {
    assert forall client, prefix :: Matches(db', client, route, prefix) <==> Matches(db, client, route, prefix);
    if Usable(db, digest) && answer.Some? { SamePolicyFrom(db, db', db.keys[digest].client, route, answer.value.policy); }
  }

  lemma SamePolicyFrom(db: Db, db': Db, client: string, route: string, p: Policy)
    requires db'.plans == db.plans && db'.clients == db.clients && db'.quotas == db.quotas
    requires client in db.clients && db.clients[client].plan in db.plans
    ensures PolicyFrom(db', client, route, p) <==> PolicyFrom(db, client, route, p)
  {
    assert forall prefix :: Matches(db', client, route, prefix) <==> Matches(db, client, route, prefix);
    assert forall prefix :: IsLongest(db', client, route, prefix) <==> IsLongest(db, client, route, prefix);
  }

  /** Every other override of the client that matches the route is shorter. */
  ghost predicate Dominates(db: Db, client: string, route: string, prefix: string) {
    Matches(db, client, route, prefix) && forall other :: Matches(db, client, route, other) && other != prefix ==> |other| < |prefix|
  }

  /** Whatever the query returns for usable keys of this client, on routes where this override is longest, grants q. */
  ghost predicate Granted(db: Db, client: string, prefix: string, q: Quota) {
    forall digest, route, answer ::
      Usable(db, digest) && db.keys[digest].client == client && Dominates(db, client, route, prefix) && MayAnswer(db, digest, route, answer)
      ==> answer.Some? && answer.value.policy == Policy(q.rate, q.burst)
  }

  lemma StoredIsGranted(db: Db, client: string, prefix: string)
    requires (client, prefix) in db.quotas
    ensures Granted(db, client, prefix, db.quotas[(client, prefix)])
  {
    forall digest, route, answer |
      Usable(db, digest) && db.keys[digest].client == client && Dominates(db, client, route, prefix) && MayAnswer(db, digest, route, answer)
      ensures answer.Some? && answer.value.policy == Policy(db.quotas[(client, prefix)].rate, db.quotas[(client, prefix)].burst)
    {
      var x :| IsLongest(db, client, route, x) && answer.value.policy == Policy(db.quotas[(client, x)].rate, db.quotas[(client, x)].burst);
      assert x == prefix;
    }
  }

  /** Among plain prefixes an override dominates on every route that extends it and that no longer override is a prefix of. */
  lemma PlainDominates(db: Db, client: string, route: string, prefix: string)
    requires PlainPrefixes(db) && (client, prefix) in db.quotas && prefix <= route
    requires forall other :: (client, other) in db.quotas && other <= route ==> |other| <= |prefix|
    ensures Dominates(db, client, route, prefix)
  {
    LikeIsPrefix(route, prefix);
    forall other | Matches(db, client, route, other) && other != prefix ensures |other| < |prefix| {
      assert (client, other) in db.quotas && Plain((client, other).1);
      LikeIsPrefix(route, other);
      assert other == route[..|other|] && prefix == route[..|prefix|];
    }
  }

  /**
   Setting a quota takes effect: after any history, every usable key of the client is granted exactly
   the new rate and burst on routes that extend the prefix and no longer override; on routes that the prefix does not match, and for the
   keys of every other client, the answers stay as they were; and a row that the table forbids changes nothing.
   */
  lemma QuotaTakesEffect(ops: seq<Op>, client: string, prefix: string, rate: int, burst: int, digest: Digest, route: string, answer: Option<Principal>)
    requires MayAnswer(After(ops + [SetRouteQuota(client, prefix, rate, burst)]), digest, route, answer)
    ensures var db := After(ops + [SetRouteQuota(client, prefix, rate, burst)]);
            var allowed := client in After(ops).clients && "/" <= prefix && 0 < rate <= 0x7FFF_FFFF && 0 < burst <= 0x7FFF_FFFF;
            && (!allowed ==> db == After(ops))
            && (allowed && Usable(db, digest) && db.keys[digest].client == client && PlainPrefixes(db) && prefix <= route
                && (forall other :: (client, other) in db.quotas && other <= route ==> |other| <= |prefix|)
                ==> answer.Some? && answer.value.policy.rate == rate && answer.value.policy.burst == burst)
            && (digest in After(ops).keys && (After(ops).keys[digest].client != client || !Like(route, prefix + "%")) ==> MayAnswer(After(ops), digest, route, answer))
  {
    var op := SetRouteQuota(client, prefix, rate, burst);
    assert (ops + [op])[..|ops|] == ops;
    var before, db := After(ops), After(ops + [op]);
    if client in before.clients && "/" <= prefix && 0 < rate <= 0x7FFF_FFFF && 0 < burst <= 0x7FFF_FFFF {
      assert db == before.(quotas := before.quotas[(client, prefix) := Quota(rate, burst)]);
      StoredIsGranted(db, client, prefix);
      if Usable(db, digest) && db.keys[digest].client == client && PlainPrefixes(db) && prefix <= route
         && (forall other :: (client, other) in db.quotas && other <= route ==> |other| <= |prefix|) {
        PlainDominates(db, client, route, prefix);
      }
      if digest in before.keys && (before.keys[digest].client != client || !Like(route, prefix + "%")) {
        OtherQuotaSameAnswer(before, db, digest, route, answer);
      }
    }
  }

  /** The answer for a key on a route depends on the overrides of its own client that match the route only. */
  lemma OtherQuotaSameAnswer(db: Db, db': Db, digest: Digest, route: string, answer: Option<Principal>)
    requires digest in db.keys && db' == db.(quotas := db'.quotas)
    requires forall prefix :: Like(route, prefix + "%") ==> Get(db'.quotas, (db.keys[digest].client, prefix)) == Get(db.quotas, (db.keys[digest].client, prefix))
    ensures MayAnswer(db', digest, route, answer) <==> MayAnswer(db, digest, route, answer)
  {
    var client := db.keys[digest].client;
    forall prefix ensures Matches(db', client, route, prefix) <==> Matches(db, client, route, prefix)
                  ensures Matches(db, client, route, prefix) ==> db'.quotas[(client, prefix)] == db.quotas[(client, prefix)] {
      if Like(route, prefix + "%") { assert Get(db'.quotas, (client, prefix)) == Get(db.quotas, (client, prefix)); }
    }
    assert forall prefix :: IsLongest(db', client, route, prefix) <==> IsLongest(db, client, route, prefix);
  }

  /**
   Defining a plan takes effect: after any history, every usable key whose client is on it is answered exactly the new rate and burst on
   routes that no override matches; with an override, and for clients on other plans, the answers stay as they were; and a plan
   that the table forbids changes nothing.
   */
  lemma PlanTakesEffect(ops: seq<Op>, slug: string, name: string, rate: int, burst: int, digest: Digest, route: string, answer: Option<Principal>)
    requires MayAnswer(After(ops + [UpsertPlan(slug, name, rate, burst)]), digest, route, answer)
    ensures var before, db := After(ops), After(ops + [UpsertPlan(slug, name, rate, burst)]);
            var allowed := SlugWritten(slug) && 0 < rate <= 0x7FFF_FFFF && 0 < burst <= 0x7FFF_FFFF;
            && (!allowed ==> db == before)
            && (allowed && Usable(db, digest) && db.clients[db.keys[digest].client].plan == slug && !Overridden(db, db.keys[digest].client, route)
                ==> answer.Some? && answer.value.policy.rate == rate && answer.value.policy.burst == burst && answer.value.plan == slug)
            && (Usable(before, digest) && (before.clients[before.keys[digest].client].plan != slug || Overridden(before, before.keys[digest].client, route))
                ==> MayAnswer(before, digest, route, answer))
  {
    var op := UpsertPlan(slug, name, rate, burst);
    assert (ops + [op])[..|ops|] == ops;
    HistorySound(ops);
    var before, db := After(ops), After(ops + [op]);
    if SlugWritten(slug) && 0 < rate <= 0x7FFF_FFFF && 0 < burst <= 0x7FFF_FFFF {
      assert db == before.(plans := before.plans[slug := Plan(name, rate, burst)]);
      assert forall client, prefix :: Matches(db, client, route, prefix) <==> Matches(before, client, route, prefix);
      assert forall client, prefix :: IsLongest(db, client, route, prefix) <==> IsLongest(before, client, route, prefix);
    }
  }

  ghost predicate Overridden(db: Db, client: string, route: string) { exists prefix :: Matches(db, client, route, prefix) }

  /** Two to 32 lower-case letters, digits, underscores and hyphens, of which the first is a letter or a digit. */
  predicate SlugWritten(slug: string) {
    2 <= |slug| <= 32
    && forall i :: 0 <= i < |slug| ==> 'a' <= slug[i] <= 'z' || '0' <= slug[i] <= '9' || (i > 0 && (slug[i] == '_' || slug[i] == '-'))
  }

  /** The table accepts the row: a 32-byte digest of an existing client, with a digest, prefix and id of its own. */
  predicate RowAllowed(db: Db, k: ApiKey, digest: Digest) {
    |digest| == 32 && k.client in db.clients && digest !in db.keys
    && forall d :: d in db.keys ==> db.keys[d].prefix != k.prefix && db.keys[d].id != k.id
  }

  /**
   Creating or ensuring a new key takes effect: the next lookup answers it as that key of its client, with the client's name and plan, if the
   client is active; no other key is answered differently; and a row that the table forbids changes nothing.
   */
  lemma KeyTakesEffect(ops: seq<Op>, op: Op, route: string, answer: Option<Principal>)
    requires (op.CreateKey? || op.EnsureKey?) && op.digest !in After(ops).keys
    requires MayAnswer(After(ops + [op]), op.digest, route, answer)
    ensures var before, db, k := After(ops), After(ops + [op]), op.key;
            && (!RowAllowed(before, k, op.digest) ==> db == before && answer == None)
            && (RowAllowed(before, k, op.digest) ==>
                  && (answer.Some? <==> before.clients[k.client].active)
                  && (answer.Some? ==> answer.value.keyId == k.id && answer.value.clientId == k.client
                                       && answer.value.clientName == before.clients[k.client].name && answer.value.plan == before.clients[k.client].plan))
    ensures forall d, a :: d != op.digest ==> (MayAnswer(After(ops + [op]), d, route, a) <==> MayAnswer(After(ops), d, route, a))
  {
    assert (ops + [op])[..|ops|] == ops;
    HistorySound(ops);
    var before, db := After(ops), After(ops + [op]);
    if RowAllowed(before, op.key, op.digest) {
      assert !Taken(before, op.key);
      assert db == before.(keys := before.keys[op.digest := op.key.(revoked := false)]);
    } else {
      assert !Insertable(before, op.key, op.digest);
    }
    forall d, a | d != op.digest ensures MayAnswer(db, d, route, a) <==> MayAnswer(before, d, route, a) {
      SameRowsSameAnswer(before, db, d, route, a);
    }
  }

  /** Creating a client takes effect: its first key is answered with the client's name and the plan it was created on. */
  lemma ClientTakesEffect(ops: seq<Op>, id: string, name: string, slug: string, k: ApiKey, digest: Digest, route: string, answer: Option<Principal>)
    requires slug in After(ops).plans && id !in After(ops).clients && k.client == id
    requires RowAllowed(After(ops + [CreateClient(id, name, slug)]), k, digest)
    requires MayAnswer(After(ops + [CreateClient(id, name, slug)] + [CreateKey(k, digest)]), digest, route, answer)
    ensures answer.Some? && answer.value.keyId == k.id && answer.value.clientId == id && answer.value.clientName == name && answer.value.plan == slug
  {
    var op := CreateClient(id, name, slug);
    assert (ops + [op])[..|ops|] == ops;
    KeyTakesEffect(ops + [op], CreateKey(k, digest), route, answer);
  }

  /** A client on a plan that does not exist, or under a taken id, is not created. */
  lemma ClientRefused(ops: seq<Op>, id: string, name: string, slug: string)
    requires slug !in After(ops).plans || id in After(ops).clients
    ensures After(ops + [CreateClient(id, name, slug)]) == After(ops)
  {
    assert (ops + [CreateClient(id, name, slug)])[..|ops|] == ops;
  }

  /** Revoking by display prefix changes the answer for no key with another prefix. */
  lemma RevokeLeavesOthers(ops: seq<Op>, prefix: string, digest: Digest, route: string, answer: Option<Principal>)
    requires digest in After(ops).keys ==> After(ops).keys[digest].prefix != prefix
    ensures MayAnswer(After(ops + [RevokeKey(prefix)]), digest, route, answer) <==> MayAnswer(After(ops), digest, route, answer)
  {
    assert (ops + [RevokeKey(prefix)])[..|ops|] == ops;
    var before, db := After(ops), After(ops + [RevokeKey(prefix)]);
    assert Get(db.keys, digest) == Get(before.keys, digest);
    SameRowsSameAnswer(before, db, digest, route, answer);
  }

  // ----- A history in which row order decides -----

  /** A plan, a client on it, a key of the client, and two overrides of one length that both match "/api/users". */
  function AmbiguousHistory(digest: Digest): seq<Op> {
    [UpsertPlan("free", "Free", 1, 1), CreateClient("c", "c", "free"), EnsureKey(ApiKey("k", "c", "k", "k", false), digest),
     SetRouteQuota("c", "/a", 1, 1), SetRouteQuota("c", "/_", 2, 2)]
  }

  lemma AfterAmbiguousHistory(digest: Digest)
    requires |digest| == 32
    ensures After(AmbiguousHistory(digest))
         == Db(map["free" := Plan("Free", 1, 1)], map["c" := Client("c", "free", true)], map[digest := ApiKey("k", "c", "k", "k", false)],
               map[("c", "/a") := Quota(1, 1), ("c", "/_") := Quota(2, 2)])
  {
    var ops := AmbiguousHistory(digest);
    assert ops[..5] == ops && ops[..4][..3] == ops[..3] && ops[..3][..2] == ops[..2] && ops[..2][..1] == ops[..1] && ops[..1][..0] == ops[..0] == [];
    assert ops[..5][..4] == ops[..4];
    assert ValidSlug("free");
    assert After(ops[..1]) == EMPTY.(plans := map["free" := Plan("Free", 1, 1)]);
    assert After(ops[..2]).clients == map["c" := Client("c", "free", true)];
    assert After(ops[..3]).keys == map[digest := ApiKey("k", "c", "k", "k", false)];
    assert After(ops[..4]).quotas == map[("c", "/a") := Quota(1, 1)];
    assert After(ops[..5]).quotas == map[("c", "/a") := Quota(1, 1), ("c", "/_") := Quota(2, 2)];
  }

  lemma BothLongest(db: Db, route: string)
    requires db.quotas == map[("c", "/a") := Quota(1, 1), ("c", "/_") := Quota(2, 2)] && route == "/api/users"
    ensures IsLongest(db, "c", route, "/a") && IsLongest(db, "c", route, "/_")
  {
    LikeIsFits(route, "/a");
    LikeIsFits(route, "/_");
    assert ("c", "/a") in db.quotas && ("c", "/_") in db.quotas;
    forall other | Matches(db, "c", route, other) ensures |other| == 2 {
      assert ("c", other) == ("c", "/a") || ("c", other) == ("c", "/_");
    }
  }

  /** Wildcards can break it: after this history the query may return either quota on "/api/users". */
  lemma WildcardsAreAmbiguous(digest: Digest)
    requires |digest| == 32
    ensures MayAnswer(After(AmbiguousHistory(digest)), digest, "/api/users", Some(Principal("k", "c", "c", "free", Policy(1, 1))))
    ensures MayAnswer(After(AmbiguousHistory(digest)), digest, "/api/users", Some(Principal("k", "c", "c", "free", Policy(2, 2))))
  {
    AfterAmbiguousHistory(digest);
    var db := After(AmbiguousHistory(digest));
    BothLongest(db, "/api/users");
    LongestMayAnswer(db, digest, "/api/users", "/a");
    LongestMayAnswer(db, digest, "/api/users", "/_");
  }

  // ----- The statements as they change the tables -----

  lemma RevokesOne(db: Db, prefix: string, d: Digest)
    requires Sound(db) && d in db.keys && Revokes(db.keys[d], prefix)
    ensures Apply(db, RevokeKey(prefix)) == db.(keys := db.keys[d := db.keys[d].(revoked := true)])
  {
    assert forall x :: x in db.keys && Revokes(db.keys[x], prefix) ==> x == d;
    assert Apply(db, RevokeKey(prefix)).keys == db.keys[d := db.keys[d].(revoked := true)];
  }

  class PolicyStore {
    var plans: map<string, Plan>
    var clients: map<string, Client>
    var keys: map<Digest, ApiKey>
    var quotas: map<(string, string), Quota>

    function View(): Db
      reads this
    {
      Db(plans, clients, keys, quotas)
    }

    constructor ()
      ensures View() == EMPTY
    {
      plans, clients, keys, quotas := map[], map[], map[], map[];
    }

    /** Any one administrative statement, by anybody. */
    method Statement(op: Op)
      modifies this
      ensures View() == Apply(old(View()), op)
    {
      var db := Apply(View(), op);
      plans, clients, keys, quotas := db.plans, db.clients, db.keys, db.quotas;
    }

    /** On conflict only the revocation is lifted; the stored row keeps its owner. Returns the id of the row. */
    method EnsureAPIKey(k: ApiKey, digest: Digest) returns (id: Option<string>)
      modifies `keys
      ensures View() == Apply(old(View()), EnsureKey(k, digest))
      ensures digest in old(keys) ==> keys == old(keys)[digest := old(keys)[digest].(revoked := false)]
      ensures id == if digest in keys then Some(keys[digest].id) else None
    {
      if digest in keys {
        keys := keys[digest := keys[digest].(revoked := false)];
        return Some(keys[digest].id);
      }
      if Insertable(View(), k, digest) {
        keys := keys[digest := k.(revoked := false)];
        return Some(k.id);
      }
      id := None;
    }

    /** Refuses exactly the rows that the constraints forbid; an accepted quota is what lookups then grant. */
    method SetQuota(client: string, route: string, rate: int, burst: int) returns (ok: bool)
      modifies `quotas
      ensures View() == Apply(old(View()), SetRouteQuota(client, route, rate, burst))
      ensures old(Sound(View())) ==> (ok <==> Sound(old(View()).(quotas := old(quotas)[(client, route) := Quota(rate, burst)])))
      ensures ok ==> Granted(View(), client, route, Quota(rate, burst))
    {
      ok := client in clients && "/" <= route && Storable(rate, burst);
      if !ok {
        assert (client, route) in quotas[(client, route) := Quota(rate, burst)];
      }
      if ok {
        if Sound(View()) { QuotaKeepsSound(View(), client, route, Quota(rate, burst)); }
        quotas := quotas[(client, route) := Quota(rate, burst)];
        StoredIsGranted(View(), client, route);
      }
    }

    /** The joins, then the longest matching override, found in whatever order the rows come. */
    method LookupActiveKey(digest: Digest, route: string) returns (answer: Option<Principal>)
      ensures MayAnswer(View(), digest, route, answer)
    {
      if !Usable(View(), digest) {
        return None;
      }
      var k := keys[digest];
      var override := LongestOverride(k.client, route);
      var plan := plans[clients[k.client].plan];
      var policy := if override.Some? then Policy(quotas[(k.client, override.value)].rate, quotas[(k.client, override.value)].burst)
                    else Policy(plan.rate, plan.burst);
      if override.Some? { assert Matches(View(), k.client, route, override.value); }
      answer := Some(Principal(k.id, k.client, clients[k.client].name, clients[k.client].plan, policy));
    }

    /** ORDER BY length DESC LIMIT 1 over the matching overrides. */
    method LongestOverride(client: string, route: string) returns (best: Option<string>)
      ensures best.Some? ==> IsLongest(View(), client, route, best.value)
      ensures best.None? ==> forall prefix :: !Matches(View(), client, route, prefix)
    {
      best := None;
      var pending := quotas.Keys;
      while pending != {}
        invariant pending <= quotas.Keys
        invariant best.Some? ==> Matches(View(), client, route, best.value)
        invariant forall prefix :: Matches(View(), client, route, prefix) && (client, prefix) !in pending ==>
                    best.Some? && |prefix| <= |best.value|
        decreases |pending|
      {
        var q :| q in pending;
        if q.0 == client && Like(route, q.1 + "%") && (best.None? || |q.1| > |best.value|) {
          assert Matches(View(), client, route, q.1);
          best := Some(q.1);
        }
        pending := pending - {q};
      }
    }

    /** Marks the active key with this display prefix; in a sound store there is at most one. */
    method Revoke(prefix: string) returns (affected: nat)
      requires Sound(View())
      modifies `keys
      ensures View() == Apply(old(View()), RevokeKey(prefix)) && Sound(View())
      ensures affected == if exists d :: d in old(keys) && Revokes(old(keys)[d], prefix) then 1 else 0
    {
      ApplySound(View(), RevokeKey(prefix));
      affected := 0;
      var rows := set d | d in keys && Revokes(keys[d], prefix);
      if rows != {} {
        var d :| d in rows;
        RevokesOne(View(), prefix, d);
        keys := keys[d := keys[d].(revoked := true)];
        affected := 1;
      } else {
        assert forall x :: x in keys && Revokes(keys[x], prefix) ==> x in rows;
        assert keys == Apply(View(), RevokeKey(prefix)).keys;
      }
    }
  }
}
