/** The pipeline's promises over every interleaving: safety of shutdown, conservation, order, accounting, bounded work. */
module PipelineTheorems {
  import opened Util
  import opened Pipeline
  import opened PipelineProofs
  import Store = UsageStore

  // ----- Shutdown safety -----

  /** No send or second close hits the closed channel, and the drop count taken at cancellation is exact. */
  lemma ShutdownSafe(cfg: Config, tables: Store.Tables, s: State)
    requires cfg.Valid() && Store.Consistent(tables) && Reachable(cfg, tables, s)
    ensures !s.sh.intake.panicked
    ensures s.sh.cancelled ==> s.sh.intake.closed && s.sh.intake.chanClosed
    ensures s.worker.Dropping? ==> s.worker.count == |Pending(s)|
    ensures |s.sh.queue| <= cfg.queueCapacity && |s.batch| <= cfg.batchSize
  {
    ReachableInv(cfg, tables, s);
    ReachableBatch(cfg, tables, s);
  }

  /** The batch never outgrows its buffer, even after the worker has stopped using it. */
  lemma {:induction false} ReachableBatch(cfg: Config, tables: Store.Tables, s: State)
    requires cfg.Valid() && Store.Consistent(tables) && Reachable(cfg, tables, s)
    ensures |s.batch| <= cfg.batchSize
  {
    var steps :| Legal(cfg, Init(tables), steps) && s == Run(cfg, Init(tables), steps);
    RunBatch(cfg, tables, steps);
  }

  lemma {:induction false} RunBatch(cfg: Config, tables: Store.Tables, steps: seq<Step>)
    requires cfg.Valid() && Store.Consistent(tables) && Legal(cfg, Init(tables), steps)
    ensures |Run(cfg, Init(tables), steps).batch| <= cfg.batchSize
    decreases |steps|
  {
    if steps != [] {
      var before := steps[..|steps| - 1];
      RunBatch(cfg, tables, before);
      InvFromInit(cfg, tables, before);
      StepBatch(cfg, Run(cfg, Init(tables), before), steps[|steps| - 1]);
    }
  }

  lemma StepBatch(cfg: Config, s: State, step: Step)
    requires cfg.Valid() && Sizes(cfg, s) && |s.batch| <= cfg.batchSize && Enabled(s, step)
    ensures |Next(cfg, s, step).batch| <= cfg.batchSize
  {
  }

  lemma EnvAfterClose(cfg: Config, sh: Shared, e: EnvStep)
    requires Gate(sh.intake) && sh.intake.closed && EnvEnabled(sh, e)
    ensures var i, sh' := sh.intake, EnvNext(cfg, sh, e);
            sh'.intake.closed && sh'.intake.admitted == i.admitted && sh'.queue == sh.queue
            && (i.chanClosed ==> sh'.intake.chanClosed)
  {
    if !IsThreadStep(e) { CloserStepFrame(cfg, sh, e); }
  }

  lemma StepAfterClose(cfg: Config, s: State, step: Step)
    requires Gate(s.sh.intake) && s.sh.intake.closed && Enabled(s, step)
    ensures Next(cfg, s, step).sh.intake.closed
    ensures Next(cfg, s, step).sh.intake.admitted == s.sh.intake.admitted
    ensures s.sh.intake.chanClosed ==> Next(cfg, s, step).sh.intake.chanClosed
  {
    match step
    case Env(e) => EnvAfterClose(cfg, s.sh, e);
    case Work(w) => WorkFrame(cfg, s, w);
  }

  /** Once the closed flag is up, no continuation admits anything. */
  lemma {:induction false} NothingAdmittedAfterClose(cfg: Config, s: State, steps: seq<Step>)
    requires Inv(cfg, s) && s.sh.intake.closed && Legal(cfg, s, steps)
    ensures Run(cfg, s, steps).sh.intake.closed
    ensures Run(cfg, s, steps).sh.intake.admitted == s.sh.intake.admitted
    decreases |steps|
  {
    if steps != [] {
      var before := steps[..|steps| - 1];
      NothingAdmittedAfterClose(cfg, s, before);
      RunInv(cfg, s, before);
      StepAfterClose(cfg, Run(cfg, s, before), steps[|steps| - 1]);
    }
  }

  predicate HasReturned(i: Intake, c: nat) { c in i.closers && i.closers[c].Returned? }

  lemma EnvKeepsReturned(cfg: Config, sh: Shared, e: EnvStep, c: nat)
    requires EnvEnabled(sh, e) && HasReturned(sh.intake, c)
    ensures HasReturned(EnvNext(cfg, sh, e).intake, c)
  {
  }

  /** Once any Close has returned, the depth gauge reads zero in every later state. */
  lemma {:induction false} GaugeStaysZero(cfg: Config, s: State, c: nat, steps: seq<Step>)
    requires Inv(cfg, s) && HasReturned(s.sh.intake, c) && Legal(cfg, s, steps)
    ensures HasReturned(Run(cfg, s, steps).sh.intake, c)
    ensures Run(cfg, s, steps).sh.metrics.depth == 0 && Run(cfg, s, steps).worker.Exited?
    decreases |steps|
  {
    RunInv(cfg, s, steps);
    if steps != [] {
      var before := steps[..|steps| - 1];
      GaugeStaysZero(cfg, s, c, before);
      match steps[|steps| - 1]
      case Env(e) => EnvKeepsReturned(cfg, Run(cfg, s, before).sh, e, c);
      case Work(w) => WorkFrame(cfg, Run(cfg, s, before), w);
    }
  }

  // ----- Conservation and order -----

  /**
   In every reachable state each admitted event is in exactly one place, and the published
   counters say how many are where.
   */
  lemma Conservation(cfg: Config, tables: Store.Tables, s: State)
    requires cfg.Valid() && Store.Consistent(tables) && Reachable(cfg, tables, s)
    ensures multiset(s.sh.intake.admitted)
         == multiset(Pending(s)) + multiset(s.ledger.persisted) + multiset(s.ledger.deadLettered) + multiset(s.ledger.dropped)
    ensures |s.sh.intake.admitted| + s.sh.intake.rejected
         == |Pending(s)| + s.sh.metrics.persisted + s.sh.metrics.deadLettered + s.sh.metrics.dropped
    ensures s.sh.intake.offered
         == |s.sh.intake.admitted| + s.sh.intake.rejected + Num(s.sh.intake.enqueuers, Undecided)
    ensures s.sh.intake.enqueued + Num(s.sh.intake.enqueuers, SentUncounted) == |s.sh.intake.admitted|
  {
    ReachableInv(cfg, tables, s);
    var flat, l := Flat(s.ledger.settled), s.ledger;
    assert |flat| == |multiset(flat)| == |l.persisted| + |l.deadLettered| + |l.dropped|;
  }

  /**
   Batches leave in admission order: the settled batches, the current one and the queue, put end to
   end, are the admission sequence, and every attempt at a batch carries the same 1 to BatchSize events.
   */
  lemma OrderPreserved(cfg: Config, tables: Store.Tables, s: State)
    requires cfg.Valid() && Store.Consistent(tables) && Reachable(cfg, tables, s)
    ensures s.sh.intake.admitted == Flat(s.ledger.settled) + Pending(s)
    ensures forall c :: c in s.ledger.calls ==>
      && 1 <= |c.write.batch| <= cfg.batchSize
      && c.flush <= |s.ledger.settled|
      && c.write.batch == if c.flush < |s.ledger.settled| then s.ledger.settled[c.flush].events else s.batch
  {
    ReachableInv(cfg, tables, s);
    forall c | c in s.ledger.calls ensures CallOk(cfg, s, c) { }
  }

  // ----- Where every admitted event ends up -----

  /**
   In every reachable state, whatever is counted persisted has a row, whatever is counted dead-lettered has a
   dead letter, and each row is aggregated exactly once, without any assumption on event ids.
   */
  lemma CountedIsStored(cfg: Config, tables: Store.Tables, s: State)
    requires cfg.Valid() && Store.Consistent(tables) && Reachable(cfg, tables, s)
    ensures s.sh.metrics.persisted == |s.ledger.persisted| && forall e :: e in s.ledger.persisted ==> e.id in s.sh.tables.events
    ensures s.sh.metrics.deadLettered == |s.ledger.deadLettered| && forall e :: e in s.ledger.deadLettered ==> e.id in s.sh.tables.dead
    ensures s.sh.tables.hourly == Store.Recompute(s.sh.tables.events)
  {
    ReachableInv(cfg, tables, s);
  }

  /** `content` tells which event an id stands for. */
  predicate Honest(content: string -> Event, events: seq<Event>) { forall e :: e in events ==> content(e.id) == e }

  predicate HonestTables(content: string -> Event, t: Store.Tables) {
    && (forall id :: id in t.events ==> t.events[id] == content(id))
    && (forall id :: id in t.dead ==> t.dead[id].payload == content(id))
  }

  predicate HonestStep(content: string -> Event, step: Step) {
    step.Env? ==> match step.env
                  case Offer(_, e) => content(e.id) == e
                  case OtherReplica(w) => Honest(content, w.batch)
                  case _ => true
  }

  predicate HonestThread(content: string -> Event, pc: Enqueuer) {
    IsUndecided(pc) ==> content(pc.event.id) == pc.event
  }

  predicate HonestIntake(content: string -> Event, i: Intake) {
    Honest(content, i.admitted) && forall t :: t in i.enqueuers ==> HonestThread(content, i.enqueuers[t])
  }

  lemma {:induction false} HonestDeadRows(content: string -> Event, dead: map<string, Store.DeadLetter>, batch: seq<Event>, error: string, attempts: int)
    requires forall id :: id in dead ==> dead[id].payload == content(id)
    requires Honest(content, batch)
    ensures forall id :: id in Store.DeadRows(dead, batch, error, attempts) ==> Store.DeadRows(dead, batch, error, attempts)[id].payload == content(id)
    decreases |batch|
  {
    if batch != [] { HonestDeadRows(content, dead, Front(batch), error, attempts); }
  }

  lemma HonestApply(content: string -> Event, t: Store.Tables, w: Store.Write)
    requires HonestTables(content, t) && Honest(content, w.batch)
    ensures HonestTables(content, Store.Apply(t, w))
  {
    match w
    case Persist(batch, _) => Store.RowsProperties(t.events, batch);
    case DeadLetters(batch, error, attempts, _) => HonestDeadRows(content, t.dead, batch, error, attempts);
  }

  lemma HonestEnv(content: string -> Event, cfg: Config, sh: Shared, e: EnvStep)
    requires HonestIntake(content, sh.intake) && HonestTables(content, sh.tables) && EnvEnabled(sh, e) && HonestStep(content, Env(e))
    ensures HonestIntake(content, EnvNext(cfg, sh, e).intake) && HonestTables(content, EnvNext(cfg, sh, e).tables)
  {
    HonestEnvIntake(content, cfg, sh, e);
    if e.OtherReplica? { HonestApply(content, sh.tables, e.write); }
  }

  lemma HonestEnvIntake(content: string -> Event, cfg: Config, sh: Shared, e: EnvStep)
    requires HonestIntake(content, sh.intake) && EnvEnabled(sh, e) && HonestStep(content, Env(e))
    ensures HonestIntake(content, EnvNext(cfg, sh, e).intake)
  {
    HonestEnvAdmitted(content, cfg, sh, e);
    forall t | t in EnvNext(cfg, sh, e).intake.enqueuers ensures HonestThread(content, EnvNext(cfg, sh, e).intake.enqueuers[t]) {
      HonestEnvThread(content, cfg, sh, e, t);
    }
  }

  lemma HonestEnvThread(content: string -> Event, cfg: Config, sh: Shared, e: EnvStep, t: nat)
    requires t in sh.intake.enqueuers ==> HonestThread(content, sh.intake.enqueuers[t])
    requires EnvEnabled(sh, e) && HonestStep(content, Env(e)) && t in EnvNext(cfg, sh, e).intake.enqueuers
    ensures HonestThread(content, EnvNext(cfg, sh, e).intake.enqueuers[t])
  {
    if e.Offer? && e.t == t {
      assert EnvNext(cfg, sh, e).intake.enqueuers[t] == Checking(e.event);
    } else if IsUndecided(EnvNext(cfg, sh, e).intake.enqueuers[t]) {
      ThreadKeepsEvent(cfg, sh, e, t);
    }
  }

  /** A thread that still carries an event carries the one it came with. */
  lemma ThreadKeepsEvent(cfg: Config, sh: Shared, e: EnvStep, t: nat)
    requires EnvEnabled(sh, e) && t in EnvNext(cfg, sh, e).intake.enqueuers && !(e.Offer? && e.t == t)
    requires IsUndecided(EnvNext(cfg, sh, e).intake.enqueuers[t])
    ensures t in sh.intake.enqueuers && IsUndecided(sh.intake.enqueuers[t])
    ensures EnvNext(cfg, sh, e).intake.enqueuers[t].event == sh.intake.enqueuers[t].event
  {
    if !OwnedByThread(e, t) {
      EnvLeavesThread(cfg, sh, e, t);
      assert Place(EnvNext(cfg, sh, e).intake, t) == Some(EnvNext(cfg, sh, e).intake.enqueuers[t]);
    } else {
      assert e.CheckClosed? || e.Send?;
    }
  }

  lemma HonestEnvAdmitted(content: string -> Event, cfg: Config, sh: Shared, e: EnvStep)
    requires HonestIntake(content, sh.intake) && EnvEnabled(sh, e)
    ensures Honest(content, EnvNext(cfg, sh, e).intake.admitted)
  {
    if e.Send? { assert HonestThread(content, sh.intake.enqueuers[e.t]); }
  }

  lemma HonestWork(content: string -> Event, cfg: Config, s: State, w: WorkStep)
    requires Inv(cfg, s) && HonestIntake(content, s.sh.intake) && HonestTables(content, s.sh.tables) && WorkEnabled(s, w)
    ensures HonestTables(content, WorkNext(cfg, s, w).sh.tables)
  {
    if w.CallPersist? {
      HonestCall(content, cfg, s, Store.Persist(s.batch, w.fate));
    } else if w.CallDeadLetters? {
      HonestCall(content, cfg, s, Store.DeadLetters(s.batch, w.error, cfg.maxAttempts, w.deadFate));
    } else {
      WorkKeepsTables(cfg, s, w);
    }
  }

  lemma HonestCall(content: string -> Event, cfg: Config, s: State, w: Store.Write)
    requires Inv(cfg, s) && Flushing(s.worker) && HonestIntake(content, s.sh.intake) && HonestTables(content, s.sh.tables) && w.batch == s.batch
    ensures HonestTables(content, Store.Apply(s.sh.tables, w))
  {
    BatchWasAdmitted(cfg, s);
    HonestApply(content, s.sh.tables, w);
  }

  lemma WorkKeepsTables(cfg: Config, s: State, w: WorkStep)
    requires WorkEnabled(s, w) && !w.CallPersist? && !w.CallDeadLetters?
    ensures WorkNext(cfg, s, w).sh.tables == s.sh.tables
  {
  }

  lemma BatchWasAdmitted(cfg: Config, s: State)
    requires Inv(cfg, s) && Flushing(s.worker)
    ensures forall e :: e in s.batch ==> e in s.sh.intake.admitted
  {
    forall e | e in s.batch ensures e in s.sh.intake.admitted {
      assert e in Pending(s);
    }
  }

  lemma {:induction false} HonestRun(content: string -> Event, cfg: Config, tables: Store.Tables, steps: seq<Step>)
    requires cfg.Valid() && Store.Consistent(tables) && HonestTables(content, tables)
    requires Legal(cfg, Init(tables), steps) && forall step :: step in steps ==> HonestStep(content, step)
    ensures HonestIntake(content, Run(cfg, Init(tables), steps).sh.intake)
    ensures HonestTables(content, Run(cfg, Init(tables), steps).sh.tables)
    decreases |steps|
  {
    if steps != [] {
      var before, step := steps[..|steps| - 1], steps[|steps| - 1];
      HonestRun(content, cfg, tables, before);
      InitInv(cfg, tables);
      RunInv(cfg, Init(tables), before);
      var s := Run(cfg, Init(tables), before);
      match step
      case Env(e) => HonestEnv(content, cfg, s.sh, e);
      case Work(w) =>
        HonestWork(content, cfg, s, w);
        WorkFrame(cfg, s, w);
    }
  }

  /** Stored once and counted persisted, or in the dead letters and counted there, or counted dropped. */
  predicate Accounted(s: State, e: Event) {
    var t := s.sh.tables;
    || (e in s.ledger.persisted && e.id in t.events && t.events[e.id] == e)
    || (e in s.ledger.deadLettered && e.id in t.dead && t.dead[e.id].payload == e)
    || e in s.ledger.dropped
  }

  /** The counters report the sizes of the three destinations, and the aggregates match the raw rows. */
  ghost predicate Reported(s: State) {
    && s.sh.metrics.persisted == |s.ledger.persisted|
    && s.sh.metrics.deadLettered == |s.ledger.deadLettered|
    && s.sh.metrics.dropped == |s.ledger.dropped| + s.sh.intake.rejected
    && s.sh.metrics.deadLetterFailures == |s.ledger.unlettered|
    && s.sh.tables.hourly == Store.Recompute(s.sh.tables.events)
  }

  /**
   When the worker has ended, every admitted event is accounted for, although failed store calls may
   have committed, and the published counts and aggregates say so.
   */
  lemma EveryEventAccounted(content: string -> Event, cfg: Config, tables: Store.Tables, steps: seq<Step>, e: Event)
    requires cfg.Valid() && Store.Consistent(tables) && HonestTables(content, tables)
    requires Legal(cfg, Init(tables), steps) && forall step :: step in steps ==> HonestStep(content, step)
    requires Run(cfg, Init(tables), steps).worker.Exited? && e in Run(cfg, Init(tables), steps).sh.intake.admitted
    ensures Accounted(Run(cfg, Init(tables), steps), e)
    ensures Reported(Run(cfg, Init(tables), steps))
  {
    var s := Run(cfg, Init(tables), steps);
    FinalState(content, cfg, tables, steps, s);
    AccountedAtExit(content, cfg, s, e);
  }

  lemma FinalState(content: string -> Event, cfg: Config, tables: Store.Tables, steps: seq<Step>, s: State)
    requires cfg.Valid() && Store.Consistent(tables) && HonestTables(content, tables)
    requires Legal(cfg, Init(tables), steps) && forall step :: step in steps ==> HonestStep(content, step)
    requires s == Run(cfg, Init(tables), steps)
    ensures Inv(cfg, s) && HonestIntake(content, s.sh.intake) && HonestTables(content, s.sh.tables)
  {
    InvFromInit(cfg, tables, steps);
    HonestRun(content, cfg, tables, steps);
  }

  lemma InvFromInit(cfg: Config, tables: Store.Tables, steps: seq<Step>)
    requires cfg.Valid() && Store.Consistent(tables) && Legal(cfg, Init(tables), steps)
    ensures Inv(cfg, Run(cfg, Init(tables), steps))
  {
    InitInv(cfg, tables);
    RunInv(cfg, Init(tables), steps);
  }

  lemma AccountedAtExit(content: string -> Event, cfg: Config, s: State, e: Event)
    requires Inv(cfg, s) && s.worker.Exited? && e in s.sh.intake.admitted
    requires HonestIntake(content, s.sh.intake) && HonestTables(content, s.sh.tables)
    ensures Accounted(s, e) && Reported(s)
  {
    var flat := Flat(s.ledger.settled);
    assert flat == s.sh.intake.admitted;
    assert e in multiset(flat);
    assert e in s.ledger.persisted || e in s.ledger.deadLettered || e in s.ledger.dropped;
    assert content(e.id) == e;
  }

  // ----- Bounded work after closing -----

  /** n times k, by repeated addition. */
  function Times(n: nat, k: nat): nat { if n == 0 then 0 else k + Times(n - 1, k) }

  lemma {:induction false} TimesIsProduct(n: nat, k: nat)
    ensures Times(n, k) == n * k
    decreases n
  {
    if n > 0 {
      TimesIsProduct(n - 1, k);
      assert n * k == (n - 1) * k + k;
    }
  }

  lemma {:induction false} TimesLess(n: nat, b: nat, k: nat)
    requires b >= 1
    ensures Times(n, k) + k <= Times(n + b, k)
    decreases b
  {
    if b > 1 { TimesLess(n, b - 1, k); }
  }

  /** Store calls the worker can still make once the channel is closed. */
  function CallsLeft(cfg: Config, s: State): int
    requires cfg.Valid()
  {
    var k := cfg.maxAttempts + 1;
    match s.worker
    case Persisting(attempt, _) => cfg.maxAttempts - attempt + 2 + Times(|s.sh.queue|, k)
    case Backoff(attempt, _) => cfg.maxAttempts - attempt + 1 + Times(|s.sh.queue|, k)
    case DeadLettering(_) => 1 + Times(|s.sh.queue|, k)
    case Settling(_, _) => Times(|s.sh.queue|, k)
    case _ => Times(|Pending(s)|, k)
  }

  /** Channel receives the worker can still complete once the channel is closed. */
  function ReceivesLeft(s: State): nat {
    if Gone(s.worker) || s.worker.Dropping? || LastFlush(s.worker) then 0 else |s.sh.queue| + 1
  }

  predicate IsReceive(step: Step) { step.Work? && (step.work.Receive? || step.work.ReceiveClosed?) }

  predicate IsStoreCall(step: Step) { step.Work? && (step.work.CallPersist? || step.work.CallDeadLetters?) }

  function CountReceives(steps: seq<Step>): nat {
    if steps == [] then 0 else CountReceives(steps[..|steps| - 1]) + Bit(IsReceive(steps[|steps| - 1]))
  }

  function CountCalls(steps: seq<Step>): nat {
    if steps == [] then 0 else CountCalls(steps[..|steps| - 1]) + Bit(IsStoreCall(steps[|steps| - 1]))
  }

  lemma WorkReceives(cfg: Config, s: State, w: WorkStep)
    requires Sizes(cfg, s) && WorkEnabled(s, w)
    ensures ReceivesLeft(WorkNext(cfg, s, w)) + Bit(IsReceive(Work(w))) <= ReceivesLeft(s)
  {
  }

  lemma ReceiveUses(cfg: Config, s: State, step: Step)
    requires Gate(s.sh.intake) && Sizes(cfg, s) && s.sh.intake.chanClosed && Enabled(s, step)
    ensures ReceivesLeft(Next(cfg, s, step)) + Bit(IsReceive(step)) <= ReceivesLeft(s)
  {
    match step
    case Env(e) => EnvAfterClose(cfg, s.sh, e);
    case Work(w) => WorkReceives(cfg, s, w);
  }

  /** Starting a flush of a non-empty batch spends at most what its events allowed. */
  lemma FlushUses(cfg: Config, s: State, s': State)
    requires cfg.Valid() && !Flushing(s.worker) && Pending(s') == Pending(s)
    requires s'.worker.Persisting? && s'.worker.attempt == 1 && s'.batch != []
    ensures CallsLeft(cfg, s') <= CallsLeft(cfg, s)
  {
    TimesLess(|s'.sh.queue|, |s'.batch|, cfg.maxAttempts + 1);
  }

  lemma WorkUses(cfg: Config, s: State, w: WorkStep)
    requires cfg.Valid() && Sizes(cfg, s) && WorkEnabled(s, w)
    ensures CallsLeft(cfg, WorkNext(cfg, s, w)) + Bit(IsStoreCall(Work(w))) <= CallsLeft(cfg, s)
  {
    if !w.Settle? && !w.RecordDrop? {
      WorkKeepsPending(cfg, s, w);
      if (w.Append? || w.Tick? || w.ReceiveClosed?) && WorkNext(cfg, s, w).worker.Persisting? {
        FlushUses(cfg, s, WorkNext(cfg, s, w));
      }
    }
  }

  lemma CallUses(cfg: Config, s: State, step: Step)
    requires cfg.Valid() && Gate(s.sh.intake) && Sizes(cfg, s) && s.sh.intake.chanClosed && Enabled(s, step)
    ensures CallsLeft(cfg, Next(cfg, s, step)) + Bit(IsStoreCall(step)) <= CallsLeft(cfg, s)
  {
    match step
    case Env(e) => EnvAfterClose(cfg, s.sh, e);
    case Work(w) => WorkUses(cfg, s, w);
  }

  lemma CallsLeftBounds(cfg: Config, s: State)
    requires cfg.Valid() && Sizes(cfg, s)
    ensures 0 <= CallsLeft(cfg, s) <= Times(|Pending(s)|, cfg.maxAttempts + 1)
  {
    if Flushing(s.worker) { TimesLess(|s.sh.queue|, |s.batch|, cfg.maxAttempts + 1); }
  }

  lemma {:induction false} UsesOverRun(cfg: Config, s: State, steps: seq<Step>)
    requires Inv(cfg, s) && s.sh.intake.chanClosed && Legal(cfg, s, steps)
    ensures Run(cfg, s, steps).sh.intake.chanClosed
    ensures ReceivesLeft(Run(cfg, s, steps)) + CountReceives(steps) <= ReceivesLeft(s)
    ensures CallsLeft(cfg, Run(cfg, s, steps)) + CountCalls(steps) <= CallsLeft(cfg, s)
    decreases |steps|
  {
    if steps != [] {
      var before := steps[..|steps| - 1];
      UsesOverRun(cfg, s, before);
      RunInv(cfg, s, before);
      StepAfterClose(cfg, Run(cfg, s, before), steps[|steps| - 1]);
      ReceiveUses(cfg, Run(cfg, s, before), steps[|steps| - 1]);
      CallUses(cfg, Run(cfg, s, before), steps[|steps| - 1]);
    }
  }

  /**
   After the channel is closed with n events still pending, of which q queued, every continuation completes
   at most q + 1 receives and makes at most n * (MaxAttempts + 1) store calls.
   */
  lemma BoundedShutdown(cfg: Config, tables: Store.Tables, s: State, steps: seq<Step>)
    requires cfg.Valid() && Store.Consistent(tables) && Reachable(cfg, tables, s)
    requires s.sh.intake.chanClosed && Legal(cfg, s, steps)
    ensures CountReceives(steps) <= |s.sh.queue| + 1
    ensures CountCalls(steps) <= |Pending(s)| * (cfg.maxAttempts + 1)
  {
    ReachableInv(cfg, tables, s);
    UsesOverRun(cfg, s, steps);
    RunInv(cfg, s, steps);
    CallsLeftBounds(cfg, s);
    CallsLeftBounds(cfg, Run(cfg, s, steps));
    TimesIsProduct(|Pending(s)|, cfg.maxAttempts + 1);
  }
}
