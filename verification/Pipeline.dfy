/**
 The asynchronous usage pipeline as interleaved atomic steps: any number of
 enqueuing threads, any number of closing threads, one worker, and a store
 whose failed calls may have committed.
 */
module Pipeline {
  import Store = UsageStore

  type Event = Store.Event

  datatype Config = Config(queueCapacity: int, batchSize: int, flushInterval: int, maxAttempts: int, retryBaseDelay: int) {
    predicate Valid() {
      && queueCapacity > 0
      && 0 < batchSize <= queueCapacity
      && flushInterval > 0 && maxAttempts > 0 && retryBaseDelay > 0
    }
  }

  /** Where an enqueuing thread stands; a thread is listed exactly while it holds the read lock. */
  datatype Enqueuer =
    | Checking(event: Event)   // about to look at the closed flag
    | Sending(event: Event)    // saw the flag down, about to try the channel send
    | Sent                     // sent, not yet counted
    | Counted                  // counted, about to read the queue length
    | Gauging(length: nat)     // about to publish the length it read
    | Leaving                  // about to release the read lock

  /** The one-time part of closing, with the thread that executes it. */
  datatype Once = Fresh | Locking(closer: nat) | Holding(closer: nat) | FlagSet(closer: nat) | Shut(closer: nat) | Done {
    predicate WriteLocked() { Holding? || FlagSet? || Shut? }
  }

  datatype Closer = InOnce | Waiting | Aborting | Returned(timedOut: bool)

  /** How a batch ends. */
  datatype Outcome = Persisted | DeadLettered | Dropped(deadLetterFailed: bool)

  /** Where the worker stands; `last` marks the flush that follows the drained channel. */
  datatype Worker =
    | Selecting
    | Received(event: Event)
    | Measured(event: Event, length: nat)
    | Persisting(attempt: nat, last: bool)
    | Backoff(attempt: nat, last: bool)
    | DeadLettering(last: bool)
    | Settling(outcome: Outcome, last: bool)
    | Dropping(count: nat)
    | Ending
    | Exiting
    | Exited

  /** Published counters; `Intake` holds the one that only enqueuers touch. */
  datatype Metrics = Metrics(
    depth: nat, dropped: nat, retries: nat, batches: nat, persisted: nat, deadLettered: nat, deadLetterFailures: nat)

  datatype Settled = Settled(events: seq<Event>, outcome: Outcome)

  /** A store call made for the flush that follows `flush` settled ones. */
  datatype StoreCall = StoreCall(flush: nat, write: Store.Write)

  /** The admission side: flag, channel state, lock holders, closing threads, and the admission history. */
  datatype Intake = Intake(
    closed: bool, chanClosed: bool, panicked: bool, once: Once, enqueuers: map<nat, Enqueuer>, closers: map<nat, Closer>,
    offered: nat, rejected: nat, admitted: seq<Event>, enqueued: nat) {

    function Put(t: nat, pc: Enqueuer): Intake { this.(enqueuers := enqueuers[t := pc]) }

    function PutCloser(c: nat, pc: Closer): Intake { this.(closers := closers[c := pc]) }

    predicate Has(t: nat, pc: Enqueuer) { t in enqueuers && enqueuers[t] == pc }

    predicate HasCloser(c: nat, pc: Closer) { c in closers && closers[c] == pc }
  }

  /** Everything the threads share. */
  datatype Shared = Shared(
    intake: Intake, queue: seq<Event>, cancelled: bool, done: bool, tables: Store.Tables, metrics: Metrics)

  /** What became of the batches, kept for reasoning only. */
  datatype Ledger = Ledger(
    settled: seq<Settled>, calls: seq<StoreCall>,
    persisted: seq<Event>, deadLettered: seq<Event>, dropped: seq<Event>, unlettered: seq<Event>)

  datatype State = State(sh: Shared, worker: Worker, batch: seq<Event>, ledger: Ledger)

  function Init(tables: Store.Tables): State {
    State(
      Shared(Intake(false, false, false, Fresh, map[], map[], 0, 0, [], 0), [], false, false, tables, Metrics(0, 0, 0, 0, 0, 0, 0)),
      Selecting, [], Ledger([], [], [], [], [], []))
  }

  datatype EnvStep =
    | Offer(t: nat, event: Event)
    | CheckClosed(t: nat)
    | Send(t: nat)
    | CountEnqueued(t: nat)
    | ReadLength(t: nat)
    | SetGauge(t: nat)
    | Unlock(t: nat)
    | CallClose(c: nat)
    | TakeLock(c: nat)
    | SetFlag(c: nat)
    | CloseChannel(c: nat)
    | Release(c: nat)
    | LeaveOnce(c: nat)
    | Deadline(c: nat)
    | Return(c: nat)
    | OtherReplica(write: Store.Write)

  datatype WorkStep =
    | SeeCancel | RecordDrop
    | Receive | ReceiveClosed | MeasureQueue | Append | Tick
    | CallPersist(fate: Store.Fate)
    | Retry | AbortWait
    | CallDeadLetters(error: string, deadFate: Store.Fate)
    | Settle
    | ZeroGauge | Exit

  datatype Step = Env(env: EnvStep) | Work(work: WorkStep)

  /** The event is refused and counted as dropped. */
  function Reject(sh: Shared, i: Intake): Shared {
    sh.(intake := i.(rejected := i.rejected + 1), metrics := sh.metrics.(dropped := sh.metrics.dropped + 1))
  }

  predicate EnvEnabled(sh: Shared, step: EnvStep) {
    var i := sh.intake;
    match step
    case Offer(t, e) => t !in i.enqueuers && (Store.ValidEvent(e) ==> !i.once.WriteLocked())
    case CheckClosed(t) => t in i.enqueuers && i.enqueuers[t].Checking?
    case Send(t) => t in i.enqueuers && i.enqueuers[t].Sending?
    case CountEnqueued(t) => i.Has(t, Sent)
    case ReadLength(t) => i.Has(t, Counted)
    case SetGauge(t) => t in i.enqueuers && i.enqueuers[t].Gauging?
    case Unlock(t) => i.Has(t, Leaving)
    case CallClose(c) => c !in i.closers
    case TakeLock(c) => i.once == Locking(c) && i.enqueuers == map[]
    case SetFlag(c) => i.once == Holding(c)
    case CloseChannel(c) => i.once == FlagSet(c)
    case Release(c) => i.once == Shut(c)
    case LeaveOnce(c) => i.HasCloser(c, InOnce) && i.once.Done?
    case Deadline(c) => i.HasCloser(c, Waiting)
    case Return(c) => sh.done && (i.HasCloser(c, Waiting) || i.HasCloser(c, Aborting))
    case OtherReplica(_) => true
  }

  /** Validates the event and takes the read lock. */
  function OfferEvent(sh: Shared, t: nat, e: Event): Shared {
    var i := sh.intake.(offered := sh.intake.offered + 1);
    if Store.ValidEvent(e) then sh.(intake := i.Put(t, Checking(e))) else Reject(sh, i)
  }

  function CheckFlag(sh: Shared, t: nat, e: Event): Shared {
    if sh.intake.closed then Reject(sh, sh.intake.Put(t, Leaving)) else sh.(intake := sh.intake.Put(t, Sending(e)))
  }

  /** A send on a closed channel panics; on a full one the event is refused. */
  function TrySend(cfg: Config, sh: Shared, t: nat, e: Event): Shared {
    var i := sh.intake;
    if i.chanClosed then sh.(intake := i.(panicked := true))
    else if |sh.queue| < cfg.queueCapacity then
      sh.(intake := i.Put(t, Sent).(admitted := i.admitted + [e]), queue := sh.queue + [e])
    else Reject(sh, i.Put(t, Leaving))
  }

  function EnvNext(cfg: Config, sh: Shared, step: EnvStep): Shared
    requires EnvEnabled(sh, step)
  {
    var i := sh.intake;
    match step
    case Offer(t, e) => OfferEvent(sh, t, e)
    case CheckClosed(t) => CheckFlag(sh, t, i.enqueuers[t].event)
    case Send(t) => TrySend(cfg, sh, t, i.enqueuers[t].event)
    case CountEnqueued(t) => sh.(intake := i.Put(t, Counted).(enqueued := i.enqueued + 1))
    case ReadLength(t) => sh.(intake := i.Put(t, Gauging(|sh.queue|)))
    case SetGauge(t) => sh.(intake := i.Put(t, Leaving), metrics := sh.metrics.(depth := i.enqueuers[t].length))
    case Unlock(t) => sh.(intake := i.(enqueuers := i.enqueuers - {t}))
    case CallClose(c) => sh.(intake := i.PutCloser(c, InOnce).(once := if i.once.Fresh? then Locking(c) else i.once))
    case TakeLock(c) => sh.(intake := i.(once := Holding(c)))
    case SetFlag(c) => sh.(intake := i.(once := FlagSet(c), closed := true))
    case CloseChannel(c) => sh.(intake := i.(once := Shut(c), panicked := i.panicked || i.chanClosed, chanClosed := true))
    case Release(c) => sh.(intake := i.(once := Done))
    case LeaveOnce(c) => sh.(intake := i.PutCloser(c, Waiting))
    case Deadline(c) => sh.(intake := i.PutCloser(c, Aborting), cancelled := true)
    case Return(c) => sh.(intake := i.PutCloser(c, Returned(i.closers[c].Aborting?)))
    case OtherReplica(w) => sh.(tables := Store.Apply(sh.tables, w))
  }

  predicate WorkEnabled(s: State, step: WorkStep) {
    match step
    case SeeCancel => s.worker.Selecting? && s.sh.cancelled
    case RecordDrop => s.worker.Dropping?
    case Receive => s.worker.Selecting? && s.sh.queue != []
    case ReceiveClosed => s.worker.Selecting? && s.sh.queue == [] && s.sh.intake.chanClosed
    case MeasureQueue => s.worker.Received?
    case Append => s.worker.Measured?
    case Tick => s.worker.Selecting?
    case CallPersist(_) => s.worker.Persisting?
    case Retry => s.worker.Backoff?
    case AbortWait => s.worker.Backoff? && s.sh.cancelled
    case CallDeadLetters(_, _) => s.worker.DeadLettering?
    case Settle => s.worker.Settling?
    case ZeroGauge => s.worker.Ending?
    case Exit => s.worker.Exiting?
  }

  /** Starts a flush, or skips it when there is nothing to flush. */
  function Flush(s: State, last: bool): State {
    s.(worker := if s.batch != [] then Persisting(1, last) else if last then Ending else Selecting)
  }

  function AddOutcome(m: Metrics, size: nat, outcome: Outcome): Metrics {
    match outcome
    case Persisted => m.(batches := m.batches + 1, persisted := m.persisted + size)
    case DeadLettered => m.(deadLettered := m.deadLettered + size)
    case Dropped(failed) =>
      m.(dropped := m.dropped + size, deadLetterFailures := m.deadLetterFailures + if failed then size else 0)
  }

  function Conclude(l: Ledger, events: seq<Event>, outcome: Outcome): Ledger {
    Ledger(l.settled + [Settled(events, outcome)], l.calls,
           if outcome.Persisted? then l.persisted + events else l.persisted,
           if outcome.DeadLettered? then l.deadLettered + events else l.deadLettered,
           if outcome.Dropped? then l.dropped + events else l.dropped,
           if outcome == Dropped(true) then l.unlettered + events else l.unlettered)
  }

  function Record(l: Ledger, w: Store.Write): Ledger { l.(calls := l.calls + [StoreCall(|l.settled|, w)]) }

  /** The events left in the batch and in the closed channel, which nobody will read again, are counted as lost. */
  function DropRest(s: State): State
    requires s.worker.Dropping?
  {
    State(s.sh.(metrics := AddOutcome(s.sh.metrics, s.worker.count, Dropped(false))), Ending, s.batch,
          Conclude(s.ledger, s.batch + s.sh.queue, Dropped(false)))
  }

  function AppendEvent(cfg: Config, s: State): State
    requires s.worker.Measured?
  {
    var batch := s.batch + [s.worker.event];
    State(s.sh.(metrics := s.sh.metrics.(depth := s.worker.length)),
          if |batch| >= cfg.batchSize then Persisting(1, false) else Selecting, batch, s.ledger)
  }

  function TryPersist(cfg: Config, s: State, fate: Store.Fate): State
    requires s.worker.Persisting?
  {
    var w := Store.Persist(s.batch, fate);
    var attempt, last, tables := s.worker.attempt, s.worker.last, Store.Apply(s.sh.tables, w);
    if Store.Succeeds(w) then State(s.sh.(tables := tables), Settling(Persisted, last), s.batch, Record(s.ledger, w))
    else if attempt == cfg.maxAttempts then State(s.sh.(tables := tables), DeadLettering(last), s.batch, Record(s.ledger, w))
    else State(s.sh.(tables := tables, metrics := s.sh.metrics.(retries := s.sh.metrics.retries + 1)),
               Backoff(attempt, last), s.batch, Record(s.ledger, w))
  }

  function TryDeadLetters(cfg: Config, s: State, error: string, fate: Store.Fate): State
    requires s.worker.DeadLettering?
  {
    var w := Store.DeadLetters(s.batch, error, cfg.maxAttempts, fate);
    State(s.sh.(tables := Store.Apply(s.sh.tables, w)),
          Settling(if Store.Succeeds(w) then DeadLettered else Dropped(true), s.worker.last), s.batch, Record(s.ledger, w))
  }

  function SettleBatch(s: State): State
    requires s.worker.Settling?
  {
    State(s.sh.(metrics := AddOutcome(s.sh.metrics, |s.batch|, s.worker.outcome)),
          if s.worker.last then Ending else Selecting, [], Conclude(s.ledger, s.batch, s.worker.outcome))
  }

  function WorkNext(cfg: Config, s: State, step: WorkStep): State
    requires WorkEnabled(s, step)
  {
    match step
    case SeeCancel => s.(worker := Dropping(|s.batch| + |s.sh.queue|))
    case RecordDrop => DropRest(s)
    case Receive => s.(sh := s.sh.(queue := s.sh.queue[1..]), worker := Received(s.sh.queue[0]))
    case ReceiveClosed => Flush(s, true)
    case MeasureQueue => s.(worker := Measured(s.worker.event, |s.sh.queue|))
    case Append => AppendEvent(cfg, s)
    case Tick => Flush(s, false)
    case CallPersist(fate) => TryPersist(cfg, s, fate)
    case Retry => s.(worker := Persisting(s.worker.attempt + 1, s.worker.last))
    case AbortWait => s.(worker := Settling(Dropped(false), s.worker.last))
    case CallDeadLetters(error, fate) => TryDeadLetters(cfg, s, error, fate)
    case Settle => SettleBatch(s)
    case ZeroGauge => s.(sh := s.sh.(metrics := s.sh.metrics.(depth := 0)), worker := Exiting)
    case Exit => s.(sh := s.sh.(cancelled := true, done := true), worker := Exited)
  }

  predicate Enabled(s: State, step: Step) {
    match step
    case Env(e) => EnvEnabled(s.sh, e)
    case Work(w) => WorkEnabled(s, w)
  }

  function Next(cfg: Config, s: State, step: Step): State
    requires Enabled(s, step)
  {
    match step
    case Env(e) => s.(sh := EnvNext(cfg, s.sh, e))
    case Work(w) => WorkNext(cfg, s, w)
  }

  // ----- Runs -----

  predicate Legal(cfg: Config, s: State, steps: seq<Step>)
    decreases |steps|, 0
  {
    steps == [] || (Legal(cfg, s, steps[..|steps| - 1]) && Enabled(Run(cfg, s, steps[..|steps| - 1]), steps[|steps| - 1]))
  }

  function Run(cfg: Config, s: State, steps: seq<Step>): State
    requires Legal(cfg, s, steps)
    decreases |steps|, 1
  {
    if steps == [] then s else Next(cfg, Run(cfg, s, steps[..|steps| - 1]), steps[|steps| - 1])
  }

  lemma {:induction false} Extend(cfg: Config, s: State, steps: seq<Step>, step: Step)
    requires Legal(cfg, s, steps) && Enabled(Run(cfg, s, steps), step)
    ensures Legal(cfg, s, steps + [step]) && Run(cfg, s, steps + [step]) == Next(cfg, Run(cfg, s, steps), step)
  {
    assert (steps + [step])[..|steps + [step]| - 1] == steps;
  }

  /** The states that some interleaving reaches. */
  ghost predicate Reachable(cfg: Config, tables: Store.Tables, s: State) {
    exists steps :: Legal(cfg, Init(tables), steps) && s == Run(cfg, Init(tables), steps)
  }
}
