/** What holds in every state that some interleaving of the usage pipeline reaches. */
module PipelineProofs {
  import opened Util
  import opened Pipeline
  import Store = UsageStore

  predicate Flushing(w: Worker) { w.Persisting? || w.Backoff? || w.DeadLettering? || w.Settling? }

  predicate LastFlush(w: Worker) { Flushing(w) && w.last }

  predicate Gone(w: Worker) { w.Ending? || w.Exiting? || w.Exited? }

  // ----- Locks and shutdown -----

  /** The flag and the channel change together under the write lock, and only once. */
  predicate Gate(i: Intake) {
    && (i.closed <==> i.once.FlagSet? || i.once.Shut? || i.once.Done?)
    && (i.chanClosed <==> i.once.Shut? || i.once.Done?)
    && (i.once.WriteLocked() ==> i.enqueuers == map[])
    && (i.closed ==> forall t :: t in i.enqueuers ==> i.enqueuers[t].Checking? || i.enqueuers[t].Leaving?)
    && !i.panicked
  }

  /** Cancellation and the end of the worker come only after the channel is closed. */
  predicate Shutdown(s: State) {
    var sh, i := s.sh, s.sh.intake;
    && (sh.cancelled ==> i.chanClosed)
    && (Gone(s.worker) || s.worker.Dropping? || LastFlush(s.worker) ==> i.chanClosed)
    && (forall c :: c in i.closers && !i.closers[c].InOnce? ==> i.once.Done?)
    && (forall c :: c in i.closers && i.closers[c].Returned? ==> sh.done)
    && (sh.done <==> s.worker.Exited?)
    && (s.worker.Exiting? || s.worker.Exited? ==> sh.metrics.depth == 0)
  }

  predicate Locks(s: State) { Gate(s.sh.intake) && Shutdown(s) }

  lemma EnvKeepsGate(cfg: Config, sh: Shared, e: EnvStep)
    requires Gate(sh.intake) && EnvEnabled(sh, e)
    ensures Gate(EnvNext(cfg, sh, e).intake)
  {
    if IsThreadStep(e) { ThreadStepFrame(cfg, sh, e); } else { CloserStepFrame(cfg, sh, e); }
  }

  lemma EnvKeepsShutdown(cfg: Config, s: State, e: EnvStep)
    requires Locks(s) && EnvEnabled(s.sh, e)
    ensures Shutdown(s.(sh := EnvNext(cfg, s.sh, e)))
  {
  }

  lemma EnvKeepsLocks(cfg: Config, s: State, e: EnvStep)
    requires Locks(s) && EnvEnabled(s.sh, e)
    ensures Locks(s.(sh := EnvNext(cfg, s.sh, e)))
  {
    EnvKeepsGate(cfg, s.sh, e);
    EnvKeepsShutdown(cfg, s, e);
  }

  predicate IsThreadStep(e: EnvStep) {
    e.Offer? || e.CheckClosed? || e.Send? || e.CountEnqueued? || e.ReadLength? || e.SetGauge? || e.Unlock?
  }

  predicate OwnedByThread(e: EnvStep, t: nat) { IsThreadStep(e) && e.t == t }

  /** Where thread t stands. */
  function Place(i: Intake, t: nat): Option<Enqueuer> { Get(i.enqueuers, t) }

  lemma EnvLeavesThread(cfg: Config, sh: Shared, e: EnvStep, t: nat)
    requires EnvEnabled(sh, e) && !OwnedByThread(e, t)
    ensures Place(EnvNext(cfg, sh, e).intake, t) == Place(sh.intake, t)
  {
    if !IsThreadStep(e) {
      CloserStepFrame(cfg, sh, e);
    } else {
      OtherThreadStep(cfg, sh, e, t);
    }
  }

  lemma OtherThreadStep(cfg: Config, sh: Shared, e: EnvStep, t: nat)
    requires EnvEnabled(sh, e) && IsThreadStep(e) && e.t != t
    ensures Place(EnvNext(cfg, sh, e).intake, t) == Place(sh.intake, t)
  {
  }

  /** An enqueuing thread never touches the closing side. */
  lemma ThreadStepFrame(cfg: Config, sh: Shared, e: EnvStep)
    requires EnvEnabled(sh, e) && IsThreadStep(e)
    ensures var i, j := sh.intake, EnvNext(cfg, sh, e).intake;
            j.closed == i.closed && j.chanClosed == i.chanClosed && j.once == i.once && j.closers == i.closers
    ensures EnvNext(cfg, sh, e).done == sh.done
  {
    match e
    case Offer(t, event) => assert OfferEvent(sh, t, event).intake.closers == sh.intake.closers;
    case CheckClosed(t) => assert CheckFlag(sh, t, sh.intake.enqueuers[t].event).intake.closers == sh.intake.closers;
    case Send(t) => assert TrySend(cfg, sh, t, sh.intake.enqueuers[t].event).intake.closers == sh.intake.closers;
    case _ =>
  }

  /** A closing thread, or another replica, never touches the enqueuing side. */
  lemma CloserStepFrame(cfg: Config, sh: Shared, e: EnvStep)
    requires EnvEnabled(sh, e) && !IsThreadStep(e)
    ensures var i, j := sh.intake, EnvNext(cfg, sh, e).intake;
            j.enqueuers == i.enqueuers && j.admitted == i.admitted && j.rejected == i.rejected && j.offered == i.offered && j.enqueued == i.enqueued
    ensures EnvNext(cfg, sh, e).queue == sh.queue && EnvNext(cfg, sh, e).done == sh.done
  {
    match e
    case CallClose(_) =>
    case OtherReplica(_) =>
    case _ =>
  }

  /** The worker never touches the admission side. */
  lemma WorkFrame(cfg: Config, s: State, w: WorkStep)
    requires WorkEnabled(s, w)
    ensures WorkNext(cfg, s, w).sh.intake == s.sh.intake
  {
  }

  lemma WorkKeepsShutdown(cfg: Config, s: State, w: WorkStep)
    requires Locks(s) && WorkEnabled(s, w)
    ensures Shutdown(WorkNext(cfg, s, w))
  {
  }

  lemma WorkKeepsLocks(cfg: Config, s: State, w: WorkStep)
    requires Locks(s) && WorkEnabled(s, w)
    ensures Locks(WorkNext(cfg, s, w))
  {
    WorkFrame(cfg, s, w);
    WorkKeepsShutdown(cfg, s, w);
  }

  // ----- Bounds -----

  predicate Sizes(cfg: Config, s: State) {
    var w := s.worker;
    && |s.sh.queue| <= cfg.queueCapacity
    && (w.Selecting? || w.Received? || w.Measured? ==> |s.batch| < cfg.batchSize)
    && (Flushing(w) ==> 1 <= |s.batch| <= cfg.batchSize)
    && (w.Persisting? ==> 1 <= w.attempt <= cfg.maxAttempts)
    && (w.Backoff? ==> 1 <= w.attempt < cfg.maxAttempts)
    && (w.Dropping? ==> w.count == |s.batch| + |s.sh.queue|)
    && (LastFlush(w) ==> s.sh.queue == [])
  }

  lemma EnvKeepsSizes(cfg: Config, s: State, e: EnvStep)
    requires Locks(s) && Sizes(cfg, s) && EnvEnabled(s.sh, e)
    ensures Sizes(cfg, s.(sh := EnvNext(cfg, s.sh, e)))
  {
  }

  lemma WorkKeepsSizes(cfg: Config, s: State, w: WorkStep)
    requires cfg.Valid() && Sizes(cfg, s) && WorkEnabled(s, w)
    ensures Sizes(cfg, WorkNext(cfg, s, w))
  {
  }

  // ----- Order -----

  function Flat(settled: seq<Settled>): seq<Event> {
    if settled == [] then [] else Flat(settled[..|settled| - 1]) + settled[|settled| - 1].events
  }

  lemma FlatSnoc(settled: seq<Settled>, x: Settled)
    ensures Flat(settled + [x]) == Flat(settled) + x.events
  {
    assert (settled + [x])[..|settled|] == settled;
  }

  /** Admitted events whose fate is still open, oldest first. */
  function Pending(s: State): seq<Event> {
    if Gone(s.worker) then []
    else if s.worker.Received? || s.worker.Measured? then s.batch + [s.worker.event] + s.sh.queue
    else s.batch + s.sh.queue
  }

  predicate Flow(s: State) { s.sh.intake.admitted == Flat(s.ledger.settled) + Pending(s) }

  lemma EnvKeepsFlow(cfg: Config, s: State, e: EnvStep)
    requires Locks(s) && Flow(s) && EnvEnabled(s.sh, e)
    ensures Flow(s.(sh := EnvNext(cfg, s.sh, e)))
  {
    var s' := s.(sh := EnvNext(cfg, s.sh, e));
    if e.Send? && s'.sh.queue != s.sh.queue {
      assert !s.sh.intake.closed && !Gone(s.worker);
      assert Pending(s') == Pending(s) + [s.sh.intake.enqueuers[e.t].event];
    }
  }

  lemma FlowFrame(s: State, s': State)
    requires Flow(s) && s'.sh.intake.admitted == s.sh.intake.admitted && s'.ledger.settled == s.ledger.settled && Pending(s') == Pending(s)
    ensures Flow(s')
  {
  }

  lemma FlowAfter(s: State, s': State, x: Settled)
    requires Flow(s) && s'.sh.intake.admitted == s.sh.intake.admitted
    requires s'.ledger.settled == s.ledger.settled + [x] && Pending(s) == x.events + Pending(s')
    ensures Flow(s')
  {
    FlatSnoc(s.ledger.settled, x);
    assert Flat(s.ledger.settled) + (x.events + Pending(s')) == Flat(s.ledger.settled) + x.events + Pending(s');
  }

  lemma WorkKeepsFlow(cfg: Config, s: State, w: WorkStep)
    requires Sizes(cfg, s) && Locks(s) && Flow(s) && WorkEnabled(s, w)
    ensures Flow(WorkNext(cfg, s, w))
  {
    if w.RecordDrop? {
      FlowAfter(s, DropRest(s), Settled(s.batch + s.sh.queue, Dropped(false)));
    } else if w.Settle? {
      assert s.worker.last ==> s.sh.queue == [];
      FlowAfter(s, SettleBatch(s), Settled(s.batch, s.worker.outcome));
    } else {
      WorkKeepsPending(cfg, s, w);
      FlowFrame(s, WorkNext(cfg, s, w));
    }
  }

  lemma WorkKeepsPending(cfg: Config, s: State, w: WorkStep)
    requires WorkEnabled(s, w) && !w.RecordDrop? && !w.Settle?
    ensures Pending(WorkNext(cfg, s, w)) == Pending(s)
    ensures WorkNext(cfg, s, w).ledger.settled == s.ledger.settled
    ensures WorkNext(cfg, s, w).sh.intake == s.sh.intake
  {
  }

  // ----- Counters -----

  datatype Stage = SentUncounted | Undecided

  predicate InStage(g: Stage, pc: Enqueuer) {
    match g
    case SentUncounted => pc.Sent?
    case Undecided => pc.Checking? || pc.Sending?
  }

  function Who(m: map<nat, Enqueuer>, g: Stage): set<nat> { set t | t in m && InStage(g, m[t]) }

  function Num(m: map<nat, Enqueuer>, g: Stage): nat { |Who(m, g)| }

  function Bit(b: bool): nat { if b then 1 else 0 }

  lemma WhoPut(m: map<nat, Enqueuer>, t: nat, pc: Enqueuer, g: Stage)
    ensures Who(m[t := pc], g) == if InStage(g, pc) then Who(m, g) - {t} + {t} else Who(m, g) - {t}
    ensures t in Who(m, g) <==> t in m && InStage(g, m[t])
  {
  }

  lemma NumPut(m: map<nat, Enqueuer>, t: nat, pc: Enqueuer, g: Stage)
    ensures Num(m[t := pc], g) + Bit(t in m && InStage(g, m[t])) == Num(m, g) + Bit(InStage(g, pc))
  {
    WhoPut(m, t, pc, g);
    SwapOne(Who(m, g), t);
  }

  lemma SwapOne(s: set<nat>, t: nat)
    ensures |s - {t} + {t}| == |s - {t}| + 1
    ensures |s| == |s - {t}| + Bit(t in s)
  {
    if t in s { assert s == s - {t} + {t}; } else { assert s == s - {t}; }
  }

  lemma NumRemove(m: map<nat, Enqueuer>, t: nat, g: Stage)
    requires t in m && !InStage(g, m[t])
    ensures Num(m - {t}, g) == Num(m, g)
  {
    assert Who(m - {t}, g) == Who(m, g);
  }

  /** The published counters agree with the history. */
  predicate Tallies(s: State) {
    var m, l := s.sh.metrics, s.ledger;
    && m.persisted == |l.persisted|
    && m.deadLettered == |l.deadLettered|
    && m.dropped == s.sh.intake.rejected + |l.dropped|
    && m.deadLetterFailures == |l.unlettered|
  }

  /** Every settled event went to exactly one of the three destinations. */
  ghost predicate Sorted(l: Ledger) {
    && multiset(Flat(l.settled)) == multiset(l.persisted) + multiset(l.deadLettered) + multiset(l.dropped)
    && multiset(l.unlettered) <= multiset(l.dropped)
  }

  lemma SortedAfter(l: Ledger, events: seq<Event>, outcome: Outcome)
    requires Sorted(l)
    ensures Sorted(Conclude(l, events, outcome))
  {
    FlatSnoc(l.settled, Settled(events, outcome));
  }

  /** Every offer is admitted, refused, or still being decided. */
  predicate Admission(i: Intake) {
    && i.enqueued + Num(i.enqueuers, SentUncounted) == |i.admitted|
    && i.offered == |i.admitted| + i.rejected + Num(i.enqueuers, Undecided)
  }

  lemma EnvKeepsTallies(cfg: Config, s: State, e: EnvStep)
    requires Tallies(s) && EnvEnabled(s.sh, e)
    ensures Tallies(s.(sh := EnvNext(cfg, s.sh, e)))
  {
  }

  predicate IsUndecided(pc: Enqueuer) { pc.Checking? || pc.Sending? }

  /** Thread t moves to position pc and the counters move with it. */
  predicate Moves(i: Intake, j: Intake, t: nat, pc: Enqueuer) {
    && j.enqueuers == i.enqueuers[t := pc]
    && j.enqueued + Bit(pc.Sent?) + |i.admitted| == i.enqueued + Bit(t in i.enqueuers && i.enqueuers[t].Sent?) + |j.admitted|
    && j.offered + |i.admitted| + i.rejected + Bit(t in i.enqueuers && IsUndecided(i.enqueuers[t]))
       == i.offered + |j.admitted| + j.rejected + Bit(IsUndecided(pc))
  }

  /** No thread moves but possibly out of the lock, and the counters stay in balance. */
  ghost predicate Rests(i: Intake, j: Intake) {
    && (j.enqueuers == i.enqueuers || exists t :: i.Has(t, Leaving) && j.enqueuers == i.enqueuers - {t})
    && j.enqueued == i.enqueued && j.admitted == i.admitted && j.offered + i.rejected == i.offered + j.rejected
  }

  ghost predicate Balanced(i: Intake, j: Intake) {
    Rests(i, j) || exists t :: t in j.enqueuers && Moves(i, j, t, j.enqueuers[t])
  }

  lemma SendBalanced(cfg: Config, sh: Shared, t: nat)
    requires EnvEnabled(sh, Send(t)) && !sh.intake.chanClosed
    ensures Balanced(sh.intake, EnvNext(cfg, sh, Send(t)).intake)
  {
    var i := sh.intake;
    if |sh.queue| < cfg.queueCapacity {
      var j := i.Put(t, Sent).(admitted := i.admitted + [i.enqueuers[t].event]);
      assert Moves(i, j, t, j.enqueuers[t]);
    } else {
      var j := i.Put(t, Leaving).(rejected := i.rejected + 1);
      assert Moves(i, j, t, j.enqueuers[t]);
    }
  }

  lemma EnvBalanced(cfg: Config, sh: Shared, e: EnvStep)
    requires EnvEnabled(sh, e) && !EnvNext(cfg, sh, e).intake.panicked
    ensures Balanced(sh.intake, EnvNext(cfg, sh, e).intake)
  {
    var i, j := sh.intake, EnvNext(cfg, sh, e).intake;
    if e.Send? {
      SendBalanced(cfg, sh, e.t);
    } else if e.Offer? || e.CheckClosed? || e.CountEnqueued? || e.ReadLength? || e.SetGauge? {
      assert Rests(i, j) || Moves(i, j, e.t, j.enqueuers[e.t]);
    } else if e.Unlock? {
      assert i.Has(e.t, Leaving) && j.enqueuers == i.enqueuers - {e.t};
    }
  }

  lemma BalancedKeepsAdmission(i: Intake, j: Intake)
    requires Admission(i) && Balanced(i, j)
    ensures Admission(j)
  {
    if !Rests(i, j) {
      var t :| t in j.enqueuers && Moves(i, j, t, j.enqueuers[t]);
      NumPut(i.enqueuers, t, j.enqueuers[t], SentUncounted);
      NumPut(i.enqueuers, t, j.enqueuers[t], Undecided);
    } else if j.enqueuers != i.enqueuers {
      var t :| i.Has(t, Leaving) && j.enqueuers == i.enqueuers - {t};
      NumRemove(i.enqueuers, t, SentUncounted);
      NumRemove(i.enqueuers, t, Undecided);
    }
  }

  lemma EnvKeepsAdmission(cfg: Config, sh: Shared, e: EnvStep)
    requires Admission(sh.intake) && EnvEnabled(sh, e) && !EnvNext(cfg, sh, e).intake.panicked
    ensures Admission(EnvNext(cfg, sh, e).intake)
  {
    EnvBalanced(cfg, sh, e);
    BalancedKeepsAdmission(sh.intake, EnvNext(cfg, sh, e).intake);
  }

  lemma WorkKeepsTallies(cfg: Config, s: State, w: WorkStep)
    requires Sizes(cfg, s) && Tallies(s) && WorkEnabled(s, w)
    ensures Tallies(WorkNext(cfg, s, w))
  {
    if w.Settle? { SettleKeepsTallies(s); }
  }

  lemma SettleKeepsTallies(s: State)
    requires Tallies(s) && s.worker.Settling?
    ensures Tallies(SettleBatch(s))
  {
  }

  lemma WorkKeepsSorted(cfg: Config, s: State, w: WorkStep)
    requires Sorted(s.ledger) && WorkEnabled(s, w)
    ensures Sorted(WorkNext(cfg, s, w).ledger)
  {
    if w.Settle? {
      SortedAfter(s.ledger, s.batch, s.worker.outcome);
    } else if w.RecordDrop? {
      SortedAfter(s.ledger, s.batch + s.sh.queue, Dropped(false));
    } else {
      WorkKeepsLedger(cfg, s, w);
      SortedFrame(s.ledger, WorkNext(cfg, s, w).ledger);
    }
  }

  lemma WorkKeepsLedger(cfg: Config, s: State, w: WorkStep)
    requires WorkEnabled(s, w) && !w.Settle? && !w.RecordDrop?
    ensures WorkNext(cfg, s, w).ledger.(calls := s.ledger.calls) == s.ledger
  {
  }

  lemma SortedFrame(l: Ledger, l': Ledger)
    requires Sorted(l) && l'.(calls := l.calls) == l
    ensures Sorted(l')
  {
  }

  // ----- Store calls -----

  /** Each call carried the whole batch of its flush, unchanged from attempt to attempt. */
  predicate CallOk(cfg: Config, s: State, c: StoreCall) {
    var settled := s.ledger.settled;
    && c.flush <= |settled|
    && (c.flush == |settled| ==> Flushing(s.worker))
    && c.write.batch == (if c.flush < |settled| then settled[c.flush].events else s.batch)
    && 1 <= |c.write.batch| <= cfg.batchSize
  }

  predicate CallsOk(cfg: Config, s: State) { forall c :: c in s.ledger.calls ==> CallOk(cfg, s, c) }

  lemma EnvKeepsCalls(cfg: Config, s: State, e: EnvStep)
    requires CallsOk(cfg, s) && EnvEnabled(s.sh, e)
    ensures CallsOk(cfg, s.(sh := EnvNext(cfg, s.sh, e)))
  {
    var s' := s.(sh := EnvNext(cfg, s.sh, e));
    forall c | c in s'.ledger.calls ensures CallOk(cfg, s', c) { assert CallOk(cfg, s, c); }
  }

  lemma WorkKeepsCalls(cfg: Config, s: State, w: WorkStep)
    requires Sizes(cfg, s) && CallsOk(cfg, s) && WorkEnabled(s, w)
    ensures CallsOk(cfg, WorkNext(cfg, s, w))
  {
    var s' := WorkNext(cfg, s, w);
    forall c | c in s'.ledger.calls
      ensures CallOk(cfg, s', c)
    {
      if c in s.ledger.calls { assert CallOk(cfg, s, c); }
    }
  }

  // ----- Contents of the tables -----

  predicate HasRows(t: Store.Tables, events: seq<Event>) { forall e :: e in events ==> e.id in t.events }

  predicate HasDead(t: Store.Tables, events: seq<Event>) { forall e :: e in events ==> e.id in t.dead }

  /** Whatever is counted as stored is in the table it is said to be in. */
  ghost predicate Stored(s: State) {
    var t := s.sh.tables;
    && Store.Consistent(t)
    && HasRows(t, s.ledger.persisted) && HasDead(t, s.ledger.deadLettered)
    && (s.worker.Settling? && s.worker.outcome.Persisted? ==> HasRows(t, s.batch))
    && (s.worker.Settling? && s.worker.outcome.DeadLettered? ==> HasDead(t, s.batch))
  }

  lemma ApplyOnlyAdds(t: Store.Tables, w: Store.Write)
    ensures t.events.Keys <= Store.Apply(t, w).events.Keys
    ensures t.dead.Keys <= Store.Apply(t, w).dead.Keys
    ensures w.Persist? && Store.Succeeds(w) ==> HasRows(Store.Apply(t, w), w.batch)
    ensures w.DeadLetters? && Store.Succeeds(w) ==> HasDead(Store.Apply(t, w), w.batch)
  {
    if w.Persist? {
      Store.RowsProperties(t.events, w.batch);
    } else {
      Store.DeadRowsProperties(t.dead, w.batch, w.error, w.attempts);
    }
  }

  lemma EnvKeepsStored(cfg: Config, s: State, e: EnvStep)
    requires Stored(s) && EnvEnabled(s.sh, e)
    ensures Stored(s.(sh := EnvNext(cfg, s.sh, e)))
  {
    if e.OtherReplica? {
      Store.ApplyKeepsConsistent(s.sh.tables, e.write);
      ApplyOnlyAdds(s.sh.tables, e.write);
    }
  }

  lemma PersistKeepsStored(cfg: Config, s: State, fate: Store.Fate)
    requires Stored(s) && s.worker.Persisting?
    ensures Stored(TryPersist(cfg, s, fate))
  {
    CallKeepsTables(s, Store.Persist(s.batch, fate));
  }

  /** One store call adds rows only, keeps the aggregates right, and delivers what it confirms. */
  lemma CallKeepsTables(s: State, w: Store.Write)
    requires Stored(s)
    ensures var t := Store.Apply(s.sh.tables, w);
            && Store.Consistent(t) && HasRows(t, s.ledger.persisted) && HasDead(t, s.ledger.deadLettered)
            && (Store.Succeeds(w) ==> if w.Persist? then HasRows(t, w.batch) else HasDead(t, w.batch))
  {
    Store.ApplyKeepsConsistent(s.sh.tables, w);
    ApplyOnlyAdds(s.sh.tables, w);
  }

  lemma DeadLettersKeepStored(cfg: Config, s: State, error: string, fate: Store.Fate)
    requires Stored(s) && s.worker.DeadLettering?
    ensures Stored(TryDeadLetters(cfg, s, error, fate))
  {
    CallKeepsTables(s, Store.DeadLetters(s.batch, error, cfg.maxAttempts, fate));
  }

  lemma SettleKeepsStored(s: State)
    requires Stored(s) && s.worker.Settling?
    ensures Stored(SettleBatch(s))
  {
  }

  lemma WorkKeepsStored(cfg: Config, s: State, w: WorkStep)
    requires Stored(s) && WorkEnabled(s, w)
    ensures Stored(WorkNext(cfg, s, w))
  {
    match w
    case CallPersist(fate) => PersistKeepsStored(cfg, s, fate);
    case CallDeadLetters(error, fate) => DeadLettersKeepStored(cfg, s, error, fate);
    case Settle => SettleKeepsStored(s);
    case _ => OtherKeepsStored(cfg, s, w);
  }

  lemma OtherKeepsStored(cfg: Config, s: State, w: WorkStep)
    requires Stored(s) && WorkEnabled(s, w) && !w.CallPersist? && !w.CallDeadLetters? && !w.Settle?
    ensures Stored(WorkNext(cfg, s, w))
  {
  }

  // ----- The invariant of every run -----

  ghost predicate Inv(cfg: Config, s: State) {
    cfg.Valid() && Locks(s) && Sizes(cfg, s) && Flow(s) && Tallies(s) && Sorted(s.ledger) && Admission(s.sh.intake)
    && CallsOk(cfg, s) && Stored(s)
  }

  lemma InitInv(cfg: Config, tables: Store.Tables)
    requires cfg.Valid() && Store.Consistent(tables)
    ensures Inv(cfg, Init(tables))
  {
  }

  lemma StepInv(cfg: Config, s: State, step: Step)
    requires Inv(cfg, s) && Enabled(s, step)
    ensures Inv(cfg, Next(cfg, s, step))
  {
    match step
    case Env(e) =>
      EnvKeepsLocks(cfg, s, e);
      EnvKeepsSizes(cfg, s, e);
      EnvKeepsFlow(cfg, s, e);
      EnvKeepsTallies(cfg, s, e);
      EnvKeepsAdmission(cfg, s.sh, e);
      EnvKeepsCalls(cfg, s, e);
      EnvKeepsStored(cfg, s, e);
    case Work(w) =>
      WorkKeepsLocks(cfg, s, w);
      WorkKeepsSizes(cfg, s, w);
      WorkKeepsFlow(cfg, s, w);
      WorkKeepsTallies(cfg, s, w);
      WorkKeepsSorted(cfg, s, w);
      WorkFrame(cfg, s, w);
      WorkKeepsCalls(cfg, s, w);
      WorkKeepsStored(cfg, s, w);
  }

  lemma {:induction false} RunInv(cfg: Config, s: State, steps: seq<Step>)
    requires Inv(cfg, s) && Legal(cfg, s, steps)
    ensures Inv(cfg, Run(cfg, s, steps))
    decreases |steps|
  {
    if steps != [] {
      RunInv(cfg, s, steps[..|steps| - 1]);
      StepInv(cfg, Run(cfg, s, steps[..|steps| - 1]), steps[|steps| - 1]);
    }
  }

  lemma ReachableInv(cfg: Config, tables: Store.Tables, s: State)
    requires cfg.Valid() && Store.Consistent(tables) && Reachable(cfg, tables, s)
    ensures Inv(cfg, s)
  {
    var steps :| Legal(cfg, Init(tables), steps) && s == Run(cfg, Init(tables), steps);
    InitInv(cfg, tables);
    RunInv(cfg, Init(tables), steps);
  }
}
