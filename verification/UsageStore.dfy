/**
 The usage tables: raw events keyed by event id, hourly aggregates maintained
 incrementally beside them, and dead letters.
 */
module UsageStore {
  import opened Util

  datatype Event = Event(
    id: string, requestId: string, apiKeyId: string, clientId: string, route: string, verb: string,
    status: int, durationMicros: int, responseBytes: int, occurredAt: int)

  /** The zero time of the source language, in microseconds since the Unix epoch. */
  const ZERO_TIME: int := -62_135_596_800_000_000

  predicate IsSpace(c: char) {
    || '\t' <= c <= '\r' || c == ' ' || c == '\U{85}' || c == '\U{A0}' || c == '\U{1680}'
    || '\U{2000}' <= c <= '\U{200A}' || c in "\U{2028}\U{2029}\U{202F}\U{205F}\U{3000}"
  }

  predicate Blank(s: string) { forall c :: c in s ==> IsSpace(c) }

  predicate ValidEvent(e: Event) {
    && !Blank(e.id) && !Blank(e.apiKeyId) && !Blank(e.clientId)
    && "/" <= e.route && !Blank(e.verb)
    && 100 <= e.status <= 599
    && e.durationMicros >= 0 && e.responseBytes >= 0
    && e.occurredAt != ZERO_TIME
  }

  predicate AllValid(batch: seq<Event>) { forall e :: e in batch ==> ValidEvent(e) }

  // ----- Hourly aggregates -----

  datatype HourKey = HourKey(bucketStart: int, clientId: string, route: string, status: int)

  datatype Totals = Totals(requests: int, durationMicros: int, responseBytes: int, rateLimited: int) {
    function Plus(o: Totals): Totals {
      Totals(requests + o.requests, durationMicros + o.durationMicros, responseBytes + o.responseBytes, rateLimited + o.rateLimited)
    }
  }

  const ZERO: Totals := Totals(0, 0, 0, 0)

  function TruncateToHour(micros: int): int { micros - micros % 3_600_000_000 }

  function KeyOf(e: Event): HourKey { HourKey(TruncateToHour(e.occurredAt), e.clientId, e.route, e.status) }

  function One(e: Event): Totals { Totals(1, e.durationMicros, e.responseBytes, if e.status == 429 then 1 else 0) }

  type Hourly = map<HourKey, Totals>

  function At(h: Hourly, k: HourKey): Totals { if k in h then h[k] else ZERO }

  function Bump(h: Hourly, e: Event): Hourly { h[KeyOf(e) := At(h, KeyOf(e)).Plus(One(e))] }

  // ----- The statements -----

  type Events = map<string, Event>

  /** The event table after inserting a batch; a row whose id is taken is skipped. */
  function Rows(events: Events, batch: seq<Event>): Events {
    if batch == [] then events
    else
      var before := Rows(events, Front(batch));
      if Last(batch).id in before then before else before[Last(batch).id := Last(batch)]
  }

  /** The rows a batch newly inserts, in order. */
  function Fresh(events: Events, batch: seq<Event>): seq<Event> {
    if batch == [] then []
    else if Last(batch).id in Rows(events, Front(batch)) then Fresh(events, Front(batch))
    else Fresh(events, Front(batch)) + [Last(batch)]
  }

  /** The aggregates of a list of rows, one per group. */
  function Groups(rows: seq<Event>): Hourly {
    if rows == [] then map[] else Bump(Groups(Front(rows)), Last(rows))
  }

  /** Adds each group to the stored aggregate of the same key, or inserts it. */
  function Upsert(h: Hourly, groups: Hourly): Hourly {
    map k | k in h.Keys + groups.Keys :: if k in groups then At(h, k).Plus(groups[k]) else h[k]
  }

  lemma UpsertOne(h: Hourly, done: Hourly, k: HourKey, t: Totals)
    requires k !in done
    ensures Upsert(h, done[k := t]) == Upsert(h, done)[k := At(Upsert(h, done), k).Plus(t)]
  {
  }

  datatype DeadLetter = DeadLetter(payload: Event, lastError: string, attempts: int)

  function DeadRows(dead: map<string, DeadLetter>, batch: seq<Event>, error: string, attempts: int): map<string, DeadLetter> {
    if batch == [] then dead
    else DeadRows(dead, Front(batch), error, attempts)[Last(batch).id := DeadLetter(Last(batch), error, attempts)]
  }

  /** An upsert statement may not touch one row twice, so repeated ids make it fail. */
  predicate DistinctIds(batch: seq<Event>) {
    forall i, j :: 0 <= i < j < |batch| ==> batch[i].id != batch[j].id
  }

  datatype Tables = Tables(events: Events, hourly: Hourly, dead: map<string, DeadLetter>)

  const EMPTY: Tables := Tables(map[], map[], map[])

  function PersistBatch(t: Tables, batch: seq<Event>): Tables {
    t.(events := Rows(t.events, batch), hourly := Upsert(t.hourly, Groups(Fresh(t.events, batch))))
  }

  /** How a statement ends; after an unconfirmed one the caller cannot tell whether it committed. */
  datatype Fate = Confirmed | Unconfirmed(committed: bool) {
    predicate Commits() { Confirmed? || committed }
  }

  datatype Write =
    | Persist(batch: seq<Event>, fate: Fate)
    | DeadLetters(batch: seq<Event>, error: string, attempts: int, fate: Fate)

  /** The table contents after one store call. */
  function Apply(t: Tables, w: Write): Tables {
    match w
    case Persist(batch, fate) => if AllValid(batch) && fate.Commits() then PersistBatch(t, batch) else t
    case DeadLetters(batch, error, attempts, fate) =>
      if DistinctIds(batch) && fate.Commits() then t.(dead := DeadRows(t.dead, batch, error, attempts)) else t
  }

  /** The caller is told of success. */
  predicate Succeeds(w: Write) {
    match w
    case Persist(batch, fate) => batch == [] || (AllValid(batch) && fate.Confirmed?)
    case DeadLetters(batch, _, _, fate) => batch == [] || (DistinctIds(batch) && fate.Confirmed?)
  }

  class Postgres {
    var events: Events
    var hourly: Hourly
    var dead: map<string, DeadLetter>

    function View(): Tables
      reads this
    {
      Tables(events, hourly, dead)
    }

    constructor ()
      ensures View() == EMPTY
    {
      events, hourly, dead := map[], map[], map[];
    }

    method PersistUsage(batch: seq<Event>, fate: Fate) returns (ok: bool)
      modifies this
      ensures View() == Apply(old(View()), Persist(batch, fate))
      ensures ok == Succeeds(Persist(batch, fate))
    {
      if batch == [] {
        assert Upsert(hourly, map[]) == hourly;
        return true;
      }
      var valid := ValidateAll(batch);
      if !valid || !fate.Commits() {
        return false;
      }
      var inserted := InsertRows(batch);
      var groups := GroupRows(inserted);
      UpsertGroups(groups);
      ok := fate.Confirmed?;
    }

    static method ValidateAll(batch: seq<Event>) returns (ok: bool)
      ensures ok == AllValid(batch)
    {
      for i := 0 to |batch|
        invariant forall n :: 0 <= n < i ==> ValidEvent(batch[n])
      {
        if !ValidEvent(batch[i]) {
          return false;
        }
      }
      ok := true;
    }

    /** INSERT ... ON CONFLICT DO NOTHING RETURNING. */
    method InsertRows(batch: seq<Event>) returns (inserted: seq<Event>)
      modifies this`events
      ensures events == Rows(old(events), batch)
      ensures inserted == Fresh(old(events), batch)
    {
      inserted := [];
      for i := 0 to |batch|
        invariant events == Rows(old(events), batch[..i])
        invariant inserted == Fresh(old(events), batch[..i])
      {
        assert Front(batch[..i + 1]) == batch[..i] && Last(batch[..i + 1]) == batch[i];
        if batch[i].id !in events {
          events := events[batch[i].id := batch[i]];
          inserted := inserted + [batch[i]];
        }
      }
      assert batch[..|batch|] == batch;
    }

    /** GROUP BY over the returned rows. */
    static method GroupRows(rows: seq<Event>) returns (groups: Hourly)
      ensures groups == Groups(rows)
    {
      groups := map[];
      for i := 0 to |rows|
        invariant groups == Groups(rows[..i])
      {
        assert Front(rows[..i + 1]) == rows[..i] && Last(rows[..i + 1]) == rows[i];
        groups := Bump(groups, rows[i]);
      }
      assert rows[..|rows|] == rows;
    }

    /** INSERT ... ON CONFLICT DO UPDATE, once per group. */
    method UpsertGroups(groups: Hourly)
      modifies this`hourly
      ensures hourly == Upsert(old(hourly), groups)
    {
      var pending, done: Hourly := groups.Keys, map[];
      assert Upsert(hourly, done) == hourly;
      while pending != {}
        invariant done.Keys == groups.Keys - pending && pending <= groups.Keys
        invariant forall k :: k in done ==> done[k] == groups[k]
        invariant hourly == Upsert(old(hourly), done)
        decreases |pending|
      {
        var k :| k in pending;
        UpsertOne(old(hourly), done, k, groups[k]);
        hourly := hourly[k := At(hourly, k).Plus(groups[k])];
        done := done[k := groups[k]];
        pending := pending - {k};
      }
      assert done == groups;
    }

    method PersistUsageDeadLetters(batch: seq<Event>, error: string, attempts: int, fate: Fate) returns (ok: bool)
      modifies this
      ensures View() == Apply(old(View()), DeadLetters(batch, error, attempts, fate))
      ensures ok == Succeeds(DeadLetters(batch, error, attempts, fate))
    {
      if batch == [] {
        return true;
      }
      if !DistinctIds(batch) || !fate.Commits() {
        return false;
      }
      for i := 0 to |batch|
        invariant dead == DeadRows(old(dead), batch[..i], error, attempts)
        invariant events == old(events) && hourly == old(hourly)
      {
        assert Front(batch[..i + 1]) == batch[..i] && Last(batch[..i + 1]) == batch[i];
        dead := dead[batch[i].id := DeadLetter(batch[i], error, attempts)];
      }
      assert batch[..|batch|] == batch;
      ok := fate.Confirmed?;
    }
  }

  // ----- Recomputation from the raw rows -----

  /** Sum over a set of stored rows. */
  ghost function SumOf(events: Events, ids: set<string>): Totals
    requires ids <= events.Keys
  {
    if ids == {} then ZERO
    else
      var id :| id in ids;
      SumOf(events, ids - {id}).Plus(One(events[id]))
  }

  ghost function IdsOf(events: Events, k: HourKey): set<string> {
    set id | id in events && KeyOf(events[id]) == k
  }

  /** The group-by over the whole event table. */
  ghost function Recompute(events: Events): Hourly {
    map k | k in KeysOf(events) :: SumOf(events, IdsOf(events, k))
  }

  /** The order in which rows are summed does not matter. */
  lemma {:induction false} SumAny(events: Events, ids: set<string>, x: string)
    requires ids <= events.Keys && x in ids
    ensures SumOf(events, ids) == SumOf(events, ids - {x}).Plus(One(events[x]))
    decreases |ids|
  {
    var id :| id in ids && SumOf(events, ids) == SumOf(events, ids - {id}).Plus(One(events[id]));
    if id != x {
      var rest := ids - {id} - {x};
      assert rest == ids - {x} - {id};
      SumAny(events, ids - {id}, x);
      SumAny(events, ids - {x}, id);
      assert SumOf(events, ids) == SumOf(events, rest).Plus(One(events[x])).Plus(One(events[id]));
      assert SumOf(events, ids - {x}) == SumOf(events, rest).Plus(One(events[id]));
    }
  }

  lemma {:induction false} SumFrame(events: Events, events': Events, ids: set<string>)
    requires ids <= events.Keys && ids <= events'.Keys && forall id :: id in ids ==> events[id] == events'[id]
    ensures SumOf(events, ids) == SumOf(events', ids)
    decreases |ids|
  {
    if ids != {} {
      var x :| x in ids;
      SumAny(events, ids, x);
      SumAny(events', ids, x);
      SumFrame(events, events', ids - {x});
    }
  }

  ghost function KeysOf(events: Events): set<HourKey> { set id | id in events :: KeyOf(events[id]) }

  lemma KeysInsert(events: Events, e: Event)
    requires e.id !in events
    ensures KeysOf(events[e.id := e]) == KeysOf(events) + {KeyOf(e)}
  {
    var events' := events[e.id := e];
    assert events'[e.id] == e;
    forall id | id in events ensures KeyOf(events[id]) in KeysOf(events') {
      assert events'[id] == events[id];
    }
  }

  lemma SumInsert(events: Events, e: Event, k: HourKey)
    requires e.id !in events
    ensures SumOf(events[e.id := e], IdsOf(events[e.id := e], k))
         == if k == KeyOf(e) then SumOf(events, IdsOf(events, k)).Plus(One(e)) else SumOf(events, IdsOf(events, k))
  {
    var events' := events[e.id := e];
    SumFrame(events, events', IdsOf(events, k));
    if k == KeyOf(e) {
      assert IdsOf(events', k) - {e.id} == IdsOf(events, k);
      SumAny(events', IdsOf(events', k), e.id);
    } else {
      assert IdsOf(events', k) == IdsOf(events, k);
    }
  }

  lemma EmptyGroup(events: Events, k: HourKey)
    requires k !in KeysOf(events)
    ensures IdsOf(events, k) == {}
  {
    forall id | id in events ensures KeyOf(events[id]) != k {
      assert KeyOf(events[id]) in KeysOf(events);
    }
  }

  /** Adding one row to the table adds it to exactly one recomputed aggregate. */
  lemma RecomputeInsert(events: Events, e: Event)
    requires e.id !in events
    ensures Recompute(events[e.id := e]) == Bump(Recompute(events), e)
  {
    var events' := events[e.id := e];
    KeysInsert(events, e);
    if KeyOf(e) !in KeysOf(events) { EmptyGroup(events, KeyOf(e)); }
    assert Recompute(events').Keys == Bump(Recompute(events), e).Keys;
    forall k | k in Recompute(events')
      ensures Recompute(events')[k] == Bump(Recompute(events), e)[k]
    {
      SumInsert(events, e, k);
    }
  }

  // ----- Incremental maintenance -----

  lemma UpsertBump(h: Hourly, g: Hourly, e: Event)
    ensures Upsert(h, Bump(g, e)) == Bump(Upsert(h, g), e)
  {
  }

  function BumpAll(h: Hourly, rows: seq<Event>): Hourly {
    if rows == [] then h else Bump(BumpAll(h, Front(rows)), Last(rows))
  }

  /** Grouping first and adding the groups equals adding the rows one by one. */
  lemma {:induction false} UpsertGroupsIsBumpAll(h: Hourly, rows: seq<Event>)
    ensures Upsert(h, Groups(rows)) == BumpAll(h, rows)
    decreases |rows|
  {
    if rows != [] {
      UpsertGroupsIsBumpAll(h, Front(rows));
      UpsertBump(h, Groups(Front(rows)), Last(rows));
    }
  }

  lemma {:induction false} FreshKeepsView(events: Events, h: Hourly, batch: seq<Event>)
    requires h == Recompute(events)
    ensures BumpAll(h, Fresh(events, batch)) == Recompute(Rows(events, batch))
    decreases |batch|
  {
    if batch != [] {
      FreshKeepsView(events, h, Front(batch));
      if Last(batch).id !in Rows(events, Front(batch)) {
        RecomputeInsert(Rows(events, Front(batch)), Last(batch));
        assert Front(Fresh(events, batch)) == Fresh(events, Front(batch));
      }
    }
  }

  /** The aggregates are exactly what grouping the raw table would give, and rows sit under their own id. */
  ghost predicate Consistent(t: Tables) {
    && t.hourly == Recompute(t.events)
    && (forall id :: id in t.events ==> t.events[id].id == id && ValidEvent(t.events[id]))
  }

  lemma {:induction false} RowsProperties(events: Events, batch: seq<Event>)
    ensures forall id :: id in Rows(events, batch) <==> id in events || exists e :: e in batch && e.id == id
    ensures forall id :: id in events ==> Rows(events, batch)[id] == events[id]
    ensures forall id :: id in Rows(events, batch) && id !in events ==> Rows(events, batch)[id] in batch && Rows(events, batch)[id].id == id
    decreases |batch|
  {
    if batch != [] {
      RowsProperties(events, Front(batch));
      var last := Last(batch);
      assert forall e :: e in batch <==> e in Front(batch) || e == last;
    }
  }

  /** One store call, whatever its fate, keeps the aggregates equal to recomputation. */
  lemma ApplyKeepsConsistent(t: Tables, w: Write)
    requires Consistent(t)
    ensures Consistent(Apply(t, w))
  {
    match w
    case Persist(batch, fate) =>
      if AllValid(batch) && fate.Commits() {
        FreshKeepsView(t.events, t.hourly, batch);
        UpsertGroupsIsBumpAll(t.hourly, Fresh(t.events, batch));
        RowsProperties(t.events, batch);
      }
    case DeadLetters(_, _, _, _) =>
  }

  // ----- Histories of store calls by any number of gateways -----

  function After(ws: seq<Write>): Tables {
    if ws == [] then EMPTY else Apply(After(Front(ws)), Last(ws))
  }

  /** Overlapping batches, repeated ids, retries and hidden commits never disturb the aggregates. */
  lemma {:induction false} ViewEqualsRecomputation(ws: seq<Write>)
    ensures Consistent(After(ws))
    decreases |ws|
  {
    if ws == [] {
      assert Recompute(map[]) == map[];
    } else {
      ViewEqualsRecomputation(Front(ws));
      ApplyKeepsConsistent(After(Front(ws)), Last(ws));
    }
  }

  /** Events that some committed call carried. */
  function Applied(ws: seq<Write>): set<Event> {
    if ws == [] then {} else Applied(Front(ws)) + Carried(Last(ws))
  }

  function Carried(w: Write): set<Event> {
    if w.Persist? && AllValid(w.batch) && w.fate.Commits() then set e | e in w.batch else {}
  }

  predicate AgreeOnIds(s: set<Event>) { forall a, b :: a in s && b in s && a.id == b.id ==> a == b }

  lemma {:induction false} RowsAreApplied(ws: seq<Write>)
    ensures forall id :: id in After(ws).events <==> exists e :: e in Applied(ws) && e.id == id
    ensures forall id :: id in After(ws).events ==> After(ws).events[id] in Applied(ws) && After(ws).events[id].id == id
    decreases |ws|
  {
    if ws != [] {
      RowsAreApplied(Front(ws));
      var w := Last(ws);
      if w.Persist? { RowsProperties(After(Front(ws)).events, w.batch); }
      assert forall e :: e in Applied(ws) <==> e in Applied(Front(ws)) || e in Carried(w);
    }
  }

  /** The stored rows are exactly the applied events, each once. */
  lemma EventsTableIsApplied(ws: seq<Write>)
    requires AgreeOnIds(Applied(ws))
    ensures forall e :: e in Applied(ws) <==> e.id in After(ws).events && After(ws).events[e.id] == e
  {
    RowsAreApplied(ws);
    forall e | e in Applied(ws) ensures e.id in After(ws).events && After(ws).events[e.id] == e {
      assert After(ws).events[e.id] in Applied(ws);
    }
  }

  /**
   Convergence: if equal ids carry equal events, both tables depend only on the set of events ever
   applied, not on batching, order, repetition, or which gateway wrote them.
   */
  lemma Convergence(ws: seq<Write>, ws': seq<Write>)
    requires Applied(ws) == Applied(ws') && AgreeOnIds(Applied(ws))
    ensures After(ws).events == After(ws').events && After(ws).hourly == After(ws').hourly
  {
    RowsAreApplied(ws);
    RowsAreApplied(ws');
    var a, b := After(ws).events, After(ws').events;
    assert a.Keys == b.Keys;
    forall id | id in a ensures a[id] == b[id] {
      assert a[id] in Applied(ws) && b[id] in Applied(ws');
    }
    assert a == b;
    ViewEqualsRecomputation(ws);
    ViewEqualsRecomputation(ws');
  }

  /** Each event of the batch has one dead letter with its payload, error and attempt count; other rows stay. */
  lemma {:induction false} DeadRowsExact(dead: map<string, DeadLetter>, batch: seq<Event>, error: string, attempts: int)
    requires DistinctIds(batch)
    ensures forall e :: e in batch ==>
              e.id in DeadRows(dead, batch, error, attempts) && DeadRows(dead, batch, error, attempts)[e.id] == DeadLetter(e, error, attempts)
    ensures forall id :: id in dead && (forall e :: e in batch ==> e.id != id) ==>
              id in DeadRows(dead, batch, error, attempts) && DeadRows(dead, batch, error, attempts)[id] == dead[id]
    decreases |batch|
  {
    if batch != [] {
      DeadRowsExact(dead, Front(batch), error, attempts);
      assert forall e :: e in batch <==> e in Front(batch) || e == Last(batch);
      forall e | e in Front(batch) ensures e.id != Last(batch).id { }
    }
  }

  lemma {:induction false} DeadRowsProperties(dead: map<string, DeadLetter>, batch: seq<Event>, error: string, attempts: int)
    ensures forall e :: e in batch ==> e.id in DeadRows(dead, batch, error, attempts)
    ensures forall id :: id in dead ==> id in DeadRows(dead, batch, error, attempts)
    decreases |batch|
  {
    if batch != [] {
      DeadRowsProperties(dead, Front(batch), error, attempts);
      assert forall e :: e in batch <==> e in Front(batch) || e == Last(batch);
    }
  }

  // ----- What an hourly row means -----

  /** The stored events of one hour, client, route and status. */
  function InHour(events: Events, k: HourKey): set<string> {
    set id | id in events && k.bucketStart <= events[id].occurredAt < k.bucketStart + 3_600_000_000
             && events[id].clientId == k.clientId && events[id].route == k.route && events[id].status == k.status
  }

  ghost function DurationSum(events: Events, ids: set<string>): int
    requires ids <= events.Keys
  {
    if ids == {} then 0 else var id :| id in ids; events[id].durationMicros + DurationSum(events, ids - {id})
  }

  ghost function ByteSum(events: Events, ids: set<string>): int
    requires ids <= events.Keys
  {
    if ids == {} then 0 else var id :| id in ids; events[id].responseBytes + ByteSum(events, ids - {id})
  }

  function LimitedIn(events: Events, ids: set<string>): set<string>
    requires ids <= events.Keys
  {
    set id | id in ids && events[id].status == 429
  }

  /** The row of key k says how many events the hour has, their total time, their total bytes and how many were limited. */
  ghost predicate RowMeans(events: Events, k: HourKey, row: Totals) {
    var ids := InHour(events, k);
    && row.requests == |ids| && row.durationMicros == DurationSum(events, ids)
    && row.responseBytes == ByteSum(events, ids) && row.rateLimited == |LimitedIn(events, ids)|
  }

  lemma HourOf(e: Event, k: HourKey)
    ensures KeyOf(e) == k <==>
            && k.bucketStart % 3_600_000_000 == 0 && k.bucketStart <= e.occurredAt < k.bucketStart + 3_600_000_000
            && e.clientId == k.clientId && e.route == k.route && e.status == k.status
  {
  }

  lemma GroupIsHour(events: Events, k: HourKey)
    ensures IdsOf(events, k) == if k.bucketStart % 3_600_000_000 == 0 then InHour(events, k) else {}
  {
    forall id | id in events ensures id in IdsOf(events, k) <==> k.bucketStart % 3_600_000_000 == 0 && id in InHour(events, k) {
      HourOf(events[id], k);
    }
  }

  lemma {:induction false} SumMeans(events: Events, ids: set<string>)
    requires ids <= events.Keys
    ensures var row := SumOf(events, ids);
            && row.requests == |ids| && row.durationMicros == DurationSum(events, ids)
            && row.responseBytes == ByteSum(events, ids) && row.rateLimited == |LimitedIn(events, ids)|
    decreases |ids|
  {
    if ids == {} {
      assert LimitedIn(events, ids) == {};
    } else {
      var id :| id in ids && DurationSum(events, ids) == events[id].durationMicros + DurationSum(events, ids - {id});
      var x :| x in ids && ByteSum(events, ids) == events[x].responseBytes + ByteSum(events, ids - {x});
      SumMeans(events, ids - {id});
      SumMeans(events, ids - {x});
      SumAny(events, ids, id);
      SumAny(events, ids, x);
      LimitedWithout(events, ids, id);
    }
  }

  lemma LimitedWithout(events: Events, ids: set<string>, id: string)
    requires ids <= events.Keys && id in ids
    ensures |LimitedIn(events, ids)| == |LimitedIn(events, ids - {id})| + if events[id].status == 429 then 1 else 0
  {
    if events[id].status == 429 {
      assert LimitedIn(events, ids) == LimitedIn(events, ids - {id}) + {id};
    } else {
      assert LimitedIn(events, ids) == LimitedIn(events, ids - {id});
    }
  }

  /**
   After every sequence of calls there is a row for an hour, client, route and status exactly when the hour starts on
   the hour and some stored event falls into it, and the row's four figures are the number of those events, the
   sum of their durations, the sum of their bytes, and how many have status 429.
   */
  lemma HourlyMeans(ws: seq<Write>, k: HourKey)
    ensures k in After(ws).hourly <==> k.bucketStart % 3_600_000_000 == 0 && InHour(After(ws).events, k) != {}
    ensures k in After(ws).hourly ==> RowMeans(After(ws).events, k, After(ws).hourly[k])
  {
    ViewEqualsRecomputation(ws);
    ConsistentMeans(After(ws), k);
  }

  lemma ConsistentMeans(t: Tables, k: HourKey)
    requires Consistent(t)
    ensures k in t.hourly <==> k.bucketStart % 3_600_000_000 == 0 && InHour(t.events, k) != {}
    ensures k in t.hourly ==> RowMeans(t.events, k, t.hourly[k])
  {
    GroupIsHour(t.events, k);
    if k !in KeysOf(t.events) {
      EmptyGroup(t.events, k);
    } else {
      var id :| id in t.events && KeyOf(t.events[id]) == k;
      assert id in IdsOf(t.events, k);
      SumMeans(t.events, IdsOf(t.events, k));
    }
  }

  // ----- When a call takes effect, and what the caller is told -----

  /**
   A batch is stored exactly when every event is valid and the statement commits, whether or not the caller learns of it; the
   caller is told of success exactly when it is stored and confirmed, or there was nothing to store; and an unstored
   batch leaves no trace.
   */
  lemma PersistTakesEffect(t: Tables, batch: seq<Event>, fate: Fate)
    ensures var t' := Apply(t, Persist(batch, fate));
            var stores := (forall e :: e in batch ==> ValidEvent(e)) && (fate == Confirmed || fate == Unconfirmed(true));
            && (stores ==> forall i :: 0 <= i < |batch| ==> batch[i].id in t'.events)
            && (stores ==> forall i :: 0 <= i < |batch| && IsFirst(batch, i) && batch[i].id !in t.events ==> t'.events[batch[i].id] == batch[i])
            && (forall id :: id in t.events ==> id in t'.events && t'.events[id] == t.events[id])
            && (forall id :: id in t'.events && id !in t.events ==> exists e :: e in batch && e.id == id)
            && (!stores ==> t' == t) && t'.dead == t.dead
    ensures Succeeds(Persist(batch, fate)) <==> batch == [] || ((forall e :: e in batch ==> ValidEvent(e)) && fate == Confirmed)
  {
    RowsProperties(t.events, batch);
    forall i | 0 <= i < |batch| && IsFirst(batch, i) && batch[i].id !in t.events ensures Rows(t.events, batch)[batch[i].id] == batch[i] {
      FirstRowWins(t.events, batch, i);
    }
  }

  /** No earlier event of the batch has the id of the one at i. */
  predicate IsFirst(batch: seq<Event>, i: nat)
    requires i < |batch|
  {
    forall j :: 0 <= j < i ==> batch[j].id != batch[i].id
  }

  lemma {:induction false} FirstRowWins(events: Events, batch: seq<Event>, i: nat)
    requires i < |batch| && IsFirst(batch, i) && batch[i].id !in events
    ensures batch[i].id in Rows(events, batch) && Rows(events, batch)[batch[i].id] == batch[i]
    decreases |batch|
  {
    if i == |batch| - 1 {
      RowsProperties(events, Front(batch));
    } else {
      FirstRowWins(events, Front(batch), i);
    }
  }

  /** The same for dead letters, where repeated ids make the statement fail. */
  lemma DeadLettersTakeEffect(t: Tables, batch: seq<Event>, error: string, attempts: int, fate: Fate)
    ensures var t' := Apply(t, DeadLetters(batch, error, attempts, fate));
            var stores := (forall i, j :: 0 <= i < j < |batch| ==> batch[i].id != batch[j].id) && (fate == Confirmed || fate == Unconfirmed(true));
            && (stores ==> forall e :: e in batch ==> e.id in t'.dead && t'.dead[e.id] == DeadLetter(e, error, attempts))
            && (stores ==> forall id :: id in t.dead && (forall e :: e in batch ==> e.id != id) ==> id in t'.dead && t'.dead[id] == t.dead[id])
            && (!stores ==> t' == t) && t'.events == t.events && t'.hourly == t.hourly
    ensures Succeeds(DeadLetters(batch, error, attempts, fate)) <==>
            batch == [] || ((forall i, j :: 0 <= i < j < |batch| ==> batch[i].id != batch[j].id) && fate == Confirmed)
  {
    if DistinctIds(batch) { DeadRowsExact(t.dead, batch, error, attempts); }
  }

  // ----- Validity -----

  function TrimLeft(s: string): string {
    if s != "" && IsSpace(s[0]) then TrimLeft(s[1..]) else s
  }

  function TrimRight(s: string): string {
    if s != "" && IsSpace(Last(s)) then TrimRight(Front(s)) else s
  }

  function TrimSpace(s: string): string { TrimRight(TrimLeft(s)) }

  lemma {:induction false} TrimLeftStops(s: string)
    ensures TrimLeft(s) == "" <==> Blank(s)
    ensures TrimLeft(s) != "" ==> !IsSpace(TrimLeft(s)[0])
    decreases |s|
  {
    if s != "" {
      TrimLeftStops(s[1..]);
      assert s == [s[0]] + s[1..];
    }
  }

  lemma {:induction false} TrimRightKeeps(s: string)
    requires s != "" && !IsSpace(s[0])
    ensures TrimRight(s) != ""
    decreases |s|
  {
    if IsSpace(Last(s)) { TrimRightKeeps(Front(s)); }
  }

  /** White space by code point: the ASCII and Latin-1 ones and the wide, line and paragraph separators. */
  lemma SpacesExactly(c: char)
    ensures IsSpace(c) <==> (c as int) in {9, 10, 11, 12, 13, 32, 0x85, 0xA0, 0x1680, 0x2028, 0x2029, 0x202F, 0x205F, 0x3000} || 0x2000 <= c as int <= 0x200A
  {
    assert c in "\U{2028}\U{2029}\U{202F}\U{205F}\U{3000}" <==> c == '\U{2028}' || c == '\U{2029}' || c == '\U{202F}' || c == '\U{205F}' || c == '\U{3000}';
  }

  /** A field is blank exactly when nothing is left after trimming white space. */
  lemma BlankIsTrimmedAway(s: string)
    ensures Blank(s) <==> TrimSpace(s) == ""
  {
    TrimLeftStops(s);
    if TrimLeft(s) != "" { TrimRightKeeps(TrimLeft(s)); }
  }

  /** The CHECK constraints of the event table. */
  predicate MeetsChecks(e: Event) {
    |e.route| > 0 && e.route[0] == '/' && 100 <= e.status <= 599 && e.durationMicros >= 0 && e.responseBytes >= 0
  }

  /**
   Exactly the events that meet the table's own constraints, have an id, a key, a client and a verb that are not
   blank, and have an occurrence time are valid: validation neither lets a row through that the table
   refuses nor refuses one for another reason.
   */
  lemma ValidExactly(e: Event)
    ensures ValidEvent(e) <==>
            && MeetsChecks(e) && e.occurredAt != -62_135_596_800_000_000
            && TrimSpace(e.id) != "" && TrimSpace(e.apiKeyId) != "" && TrimSpace(e.clientId) != "" && TrimSpace(e.verb) != ""
  {
    BlankIsTrimmedAway(e.id);
    BlankIsTrimmedAway(e.apiKeyId);
    BlankIsTrimmedAway(e.clientId);
    BlankIsTrimmedAway(e.verb);
    assert "/" <= e.route <==> |e.route| > 0 && e.route[0] == '/';
  }
}
