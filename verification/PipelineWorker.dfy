/**
 The worker goroutine as sequential code over a reused batch buffer. Every call it makes, with any
 interference from other threads in between, is a run of the step machine, so everything
 proved about runs holds for it.
 */
module PipelineWorker {
  import opened Util
  import opened Pipeline
  import opened PipelineProofs
  import opened PipelineTheorems
  import Store = UsageStore

  // ----- Backoff -----

  const MAXIMUM_DELAY: int := 30_000_000_000

  lemma {:induction false} Power2Monotone(j: nat, k: nat)
    requires j <= k
    ensures Power2(j) <= Power2(k)
    decreases k
  {
    if j < k { Power2Monotone(j, k - 1); }
  }

  /** Doubling reaches the ceiling early: later doublings cannot bring it back below. */
  lemma PastCeiling(base: int, j: nat, k: nat)
    requires base > 0 && j <= k && base * Power2(j) >= MAXIMUM_DELAY
    ensures base * Power2(k) >= MAXIMUM_DELAY
  {
    Power2Monotone(j, k);
    assert base * Power2(k) >= base * Power2(j);
  }

  /** The delay after the k-th failed attempt: min(30 s, base * 2^(k-1)). */
  function BackoffDelay(base: int, k: int): int { Min(MAXIMUM_DELAY, base * Power2(if k >= 1 then k - 1 else 0)) }

  /** The loop computes the capped doubling, and no doubling ever exceeds 30 s, so none overflows. */
  method RetryDelay(base: int, failedAttempt: int) returns (delay: int)
    requires base > 0
    ensures delay == BackoffDelay(base, failedAttempt)
    ensures 0 < delay <= MAXIMUM_DELAY
  {
    var k: nat := if failedAttempt >= 1 then failedAttempt - 1 else 0;
    delay := base;
    var i := 1;
    while i < failedAttempt && delay < MAXIMUM_DELAY
      invariant 1 <= i && i - 1 <= k
      invariant 0 < delay && (i > 1 ==> delay <= MAXIMUM_DELAY)
      invariant delay == base * Power2(i - 1)
      decreases failedAttempt - i
    {
      assert base * Power2(i) == 2 * (base * Power2(i - 1));
      if delay > MAXIMUM_DELAY / 2 {
        PastCeiling(base, i, k);
        return MAXIMUM_DELAY;
      }
      delay := delay * 2;
      i := i + 1;
    }
    if delay >= MAXIMUM_DELAY {
      PastCeiling(base, i - 1, k);
      delay := MAXIMUM_DELAY;
    }
  }

  // ----- The worker -----

  lemma RoomForOne(cfg: Config, tables: Store.Tables, steps: seq<Step>)
    requires cfg.Valid() && Store.Consistent(tables) && Legal(cfg, Init(tables), steps)
    requires Run(cfg, Init(tables), steps).worker.Measured?
    ensures |Run(cfg, Init(tables), steps).batch| < cfg.batchSize
  {
    InvFromInit(cfg, tables, steps);
  }

  class PipelineWorker {
    const cfg: Config
    var sh: Shared
    const batch: array<Event>   // allocated once, reused for every batch
    var n: nat                  // events currently in it
    ghost const tables: Store.Tables
    ghost var pc: Worker
    ghost var ledger: Ledger
    ghost var trace: seq<Step>

    ghost function View(): State
      reads this, batch
      requires n <= batch.Length
    {
      State(sh, pc, batch[..n], ledger)
    }

    /** The object's past is a run of the step machine that ends in its present state. */
    ghost predicate Valid()
      reads this, batch
    {
      && cfg.Valid() && Store.Consistent(tables)
      && batch.Length == cfg.batchSize && n <= batch.Length
      && Legal(cfg, Init(tables), trace)
      && View() == Run(cfg, Init(tables), trace)
    }

    constructor (cfg: Config, tables: Store.Tables)
      requires cfg.Valid() && Store.Consistent(tables)
      ensures Valid() && fresh(batch) && this.cfg == cfg && this.tables == tables
      ensures trace == [] && View() == Init(tables)
    {
      this.cfg := cfg;
      this.tables := tables;
      sh := Init(tables).sh;
      batch := new Event[cfg.batchSize];
      n := 0;
      pc, ledger, trace := Selecting, Init(tables).ledger, [];
    }

    /** Anything the other threads, and other replicas on the same store, may do meanwhile. */
    method Interfere()
      requires Valid()
      modifies `sh, `trace
      ensures Valid()
      ensures sh.cancelled || !old(sh.cancelled)
    {
      var steps: seq<EnvStep> := *;
      for i := 0 to |steps|
        invariant Valid()
        invariant sh.cancelled || !old(sh.cancelled)
      {
        if EnvEnabled(sh, steps[i]) {
          Extend(cfg, Init(tables), trace, Env(steps[i]));
          sh := EnvNext(cfg, sh, steps[i]);
          trace := trace + [Env(steps[i])];
        }
      }
    }

    method Receive() returns (e: Event)
      requires Valid() && pc.Selecting? && sh.queue != []
      modifies `sh, `pc, `trace
      ensures Valid() && View() == WorkNext(cfg, old(View()), WorkStep.Receive) && pc == Received(e)
      ensures old(sh.queue) == [e] + sh.queue
    {
      Extend(cfg, Init(tables), trace, Work(WorkStep.Receive));
      e := sh.queue[0];
      sh := sh.(queue := sh.queue[1..]);
      pc, trace := Received(e), trace + [Work(WorkStep.Receive)];
    }

    method QueueLength(e: Event) returns (length: nat)
      requires Valid() && pc == Received(e)
      modifies `pc, `trace
      ensures Valid() && View() == WorkNext(cfg, old(View()), MeasureQueue) && pc == Measured(e, length)
      ensures length == |sh.queue|
    {
      Extend(cfg, Init(tables), trace, Work(MeasureQueue));
      length := |sh.queue|;
      pc, trace := Measured(e, length), trace + [Work(MeasureQueue)];
    }

    /** Publishes the depth, then writes the next slot of the buffer. */
    method Append(e: Event, length: nat)
      requires Valid() && pc == Measured(e, length)
      modifies `sh, `n, `pc, `trace, batch
      ensures Valid() && View() == WorkNext(cfg, old(View()), WorkStep.Append)
      ensures n == old(n) + 1 && pc == if n >= cfg.batchSize then Persisting(1, false) else Selecting
      ensures batch[..n] == old(batch[..n]) + [e] && sh.metrics.depth == length
      ensures ledger == old(ledger)
    {
      RoomForOne(cfg, tables, trace);
      Extend(cfg, Init(tables), trace, Work(WorkStep.Append));
      sh := sh.(metrics := sh.metrics.(depth := length));
      batch[n] := e;
      n := n + 1;
      pc := if n >= cfg.batchSize then Persisting(1, false) else Selecting;
      trace := trace + [Work(WorkStep.Append)];
    }

    /** Enters `flush`; an empty batch is skipped. */
    method BeginFlush(step: WorkStep) returns (nonEmpty: bool)
      requires Valid() && (step.Tick? || step.ReceiveClosed?) && WorkEnabled(View(), step)
      modifies `pc, `trace
      ensures Valid() && View() == WorkNext(cfg, old(View()), step)
      ensures nonEmpty == (n > 0) && (nonEmpty ==> pc == Persisting(1, step.ReceiveClosed?))
    {
      Extend(cfg, Init(tables), trace, Work(step));
      nonEmpty := n > 0;
      pc, trace := Flush(View(), step.ReceiveClosed?).worker, trace + [Work(step)];
    }

    /** One store call with the buffer's current contents; the outcome is the database's choice. */
    method CallPersist(attempt: nat, last: bool) returns (ok: bool, error: string)
      requires Valid() && pc == Persisting(attempt, last)
      modifies `sh, `pc, `ledger, `trace
      ensures Valid()
      ensures pc == if ok then Settling(Persisted, last) else if attempt == cfg.maxAttempts then DeadLettering(last) else Backoff(attempt, last)
      ensures ledger.settled == old(ledger.settled) && Called(old(ledger.calls), ledger.calls, old(batch[..n]))
    {
      var fate: Store.Fate := *;
      error := *;
      Extend(cfg, Init(tables), trace, Work(WorkStep.CallPersist(fate)));
      ghost var next := TryPersist(cfg, View(), fate);
      var w := Store.Persist(batch[..n], fate);
      ok := Store.Succeeds(w);
      sh := sh.(tables := Store.Apply(sh.tables, w));
      if !ok && attempt != cfg.maxAttempts {
        sh := sh.(metrics := sh.metrics.(retries := sh.metrics.retries + 1));
      }
      pc, ledger, trace := next.worker, next.ledger, trace + [Work(WorkStep.CallPersist(fate))];
    }

    method CallDeadLetters(error: string, last: bool) returns (ok: bool)
      requires Valid() && pc == DeadLettering(last)
      modifies `sh, `pc, `ledger, `trace
      ensures Valid() && pc == Settling(if ok then DeadLettered else Dropped(true), last)
      ensures ledger.settled == old(ledger.settled) && Called(old(ledger.calls), ledger.calls, old(batch[..n]))
    {
      var fate: Store.Fate := *;
      Extend(cfg, Init(tables), trace, Work(WorkStep.CallDeadLetters(error, fate)));
      ghost var next := TryDeadLetters(cfg, View(), error, fate);
      var w := Store.DeadLetters(batch[..n], error, cfg.maxAttempts, fate);
      ok := Store.Succeeds(w);
      sh := sh.(tables := Store.Apply(sh.tables, w));
      pc, ledger, trace := next.worker, next.ledger, trace + [Work(WorkStep.CallDeadLetters(error, fate))];
    }

    /** Waits out the backoff before the next attempt; false only if cancelled meanwhile. */
    method Wait(delay: int, attempt: nat, last: bool) returns (elapsed: bool)
      requires Valid() && pc == Backoff(attempt, last) && delay == BackoffDelay(cfg.retryBaseDelay, attempt)
      modifies `sh, `pc, `trace
      ensures Valid() && pc == if elapsed then Persisting(attempt + 1, last) else Settling(Dropped(false), last)
      ensures !elapsed ==> sh.cancelled
    {
      Interfere();
      var abort: bool := *;
      elapsed := !(abort && sh.cancelled);
      LeaveWait(elapsed, attempt, last);
    }

    method LeaveWait(elapsed: bool, attempt: nat, last: bool)
      requires Valid() && pc == Backoff(attempt, last) && (elapsed || sh.cancelled)
      modifies `pc, `trace
      ensures Valid() && pc == if elapsed then Persisting(attempt + 1, last) else Settling(Dropped(false), last)
    {
      ghost var step := if elapsed then Retry else AbortWait;
      Extend(cfg, Init(tables), trace, Work(step));
      pc := if elapsed then Persisting(attempt + 1, last) else Settling(Dropped(false), last);
      trace := trace + [Work(step)];
    }

    /** Counts the outcome and empties the buffer by resetting its length. */
    method Settle(outcome: Outcome, last: bool)
      requires Valid() && pc == Settling(outcome, last)
      modifies `sh, `n, `pc, `ledger, `trace
      ensures Valid() && n == 0 && pc == if last then Ending else Selecting
      ensures ledger.settled == old(ledger.settled) + [Settled(old(batch[..n]), outcome)] && ledger.calls == old(ledger.calls)
    {
      Extend(cfg, Init(tables), trace, Work(WorkStep.Settle));
      ghost var next := SettleBatch(View());
      sh := sh.(metrics := AddOutcome(sh.metrics, n, outcome));
      n := 0;
      pc, ledger, trace := next.worker, next.ledger, trace + [Work(WorkStep.Settle)];
    }

    /** One attempt, and the wait before the next one. None means that another attempt, or the dead letters, is due. */
    method Attempt(attempt: nat, last: bool) returns (outcome: Option<Outcome>, error: string)
      requires Valid() && pc == Persisting(attempt, last)
      modifies `sh, `pc, `ledger, `trace
      ensures Valid() && ledger.settled == old(ledger.settled) && Called(old(ledger.calls), ledger.calls, old(batch[..n]))
      ensures pc == if outcome.Some? then Settling(outcome.value, last)
                    else if attempt == cfg.maxAttempts then DeadLettering(last) else Persisting(attempt + 1, last)
    {
      Interfere();
      var ok;
      ok, error := CallPersist(attempt, last);
      if ok {
        return Some(Persisted), "";
      }
      if attempt == cfg.maxAttempts {
        return None, error;
      }
      var delay := RetryDelay(cfg.retryBaseDelay, attempt);
      var elapsed := Wait(delay, attempt, last);
      outcome := if elapsed then None else Some(Dropped(false));
    }

    method Attempts(last: bool) returns (outcome: Option<Outcome>, lastError: string)
      requires Valid() && pc == Persisting(1, last)
      modifies `sh, `pc, `ledger, `trace
      ensures Valid() && ledger.settled == old(ledger.settled)
      ensures pc == if outcome.Some? then Settling(outcome.value, last) else DeadLettering(last)
      ensures CallsWith(old(ledger.calls), ledger.calls, old(batch[..n]), cfg.maxAttempts)
    {
      lastError := "";
      for attempt := 1 to cfg.maxAttempts + 1
        invariant Valid() && ledger.settled == old(ledger.settled)
        invariant pc == if attempt <= cfg.maxAttempts then Persisting(attempt, last) else DeadLettering(last)
        invariant CallsWith(old(ledger.calls), ledger.calls, old(batch[..n]), attempt - 1)
      {
        ghost var calls := ledger.calls;
        outcome, lastError := Attempt(attempt, last);
        OneMoreCall(old(ledger.calls), calls, ledger.calls, batch[..n], attempt - 1);
        if outcome.Some? {
          return;
        }
      }
      outcome := None;
    }

    /**
     Retries the batch with backoff, then falls back to the dead letters. It settles exactly the
     events it was given, once, making at most MaxAttempts + 1 store calls, all with those events,
     and never writes to the buffer.
     */
    method Persist(last: bool)
      requires Valid() && pc == Persisting(1, last)
      modifies `sh, `n, `pc, `ledger, `trace
      ensures Valid() && n == 0 && pc == if last then Ending else Selecting
      ensures exists outcome :: ledger.settled == old(ledger.settled) + [Settled(old(batch[..n]), outcome)]
      ensures CallsWith(old(ledger.calls), ledger.calls, old(batch[..n]), cfg.maxAttempts + 1)
    {
      var outcome, lastError := Attempts(last);
      ghost var calls := ledger.calls;
      Interfere();
      if outcome.None? {
        var ok := CallDeadLetters(lastError, last);
        OneMoreCall(old(ledger.calls), calls, ledger.calls, batch[..n], cfg.maxAttempts);
        Interfere();
        Settle(if ok then DeadLettered else Dropped(true), last);
      } else {
        Settle(outcome.value, last);
      }
    }

    method SeeCancellation() returns (dropped: nat)
      requires Valid() && pc.Selecting? && sh.cancelled
      modifies `pc, `trace
      ensures Valid() && pc == Dropping(dropped)
    {
      Extend(cfg, Init(tables), trace, Work(SeeCancel));
      dropped := n + |sh.queue|;
      pc, trace := Dropping(dropped), trace + [Work(SeeCancel)];
    }

    /** The count taken earlier is still exact: nothing can have been admitted meanwhile. */
    method CountDropped(dropped: nat)
      requires Valid() && pc == Dropping(dropped)
      modifies `sh, `pc, `ledger, `trace
      ensures Valid() && pc == Ending
      ensures dropped == n + |old(sh.queue)|
      ensures ledger.settled == old(ledger.settled) + [Settled(batch[..n] + old(sh.queue), Dropped(false))]
    {
      InvFromInit(cfg, tables, trace);
      Extend(cfg, Init(tables), trace, Work(RecordDrop));
      ghost var next := DropRest(View());
      sh := sh.(metrics := AddOutcome(sh.metrics, dropped, Dropped(false)));
      pc, ledger, trace := next.worker, next.ledger, trace + [Work(RecordDrop)];
    }

    /** Zeroes the gauge, cancels the context, and signals the end. */
    method End()
      requires Valid() && pc == Ending
      modifies `sh, `pc, `trace
      ensures Valid() && pc == Exited && sh.done && sh.cancelled && sh.metrics.depth == 0
    {
      Interfere();
      Extend(cfg, Init(tables), trace, Work(ZeroGauge));
      sh := sh.(metrics := sh.metrics.(depth := 0));
      pc, trace := Exiting, trace + [Work(ZeroGauge)];
      Interfere();
      Extend(cfg, Init(tables), trace, Work(WorkStep.Exit));
      sh := sh.(cancelled := true, done := true);
      pc, trace := Exited, trace + [Work(WorkStep.Exit)];
      InvFromInit(cfg, tables, trace);
    }

    /** The first `iterations` turns of the worker's loop, with every choice the select may make. */
    method RunLoop(iterations: nat) returns (ended: bool)
      requires Valid() && pc.Selecting?
      modifies this, batch
      ensures Valid() && (if ended then pc == Exited && sh.metrics.depth == 0 else pc.Selecting?)
      ensures ended ==> sh.intake.admitted == Flat(ledger.settled)
    {
      ended := false;
      for i := 0 to iterations
        invariant Valid() && pc.Selecting?
      {
        Interfere();
        var pick: nat := *;
        if pick == 0 && sh.cancelled {
          var dropped := SeeCancellation();
          Interfere();
          CountDropped(dropped);
          End();
          InvFromInit(cfg, tables, trace);
          return true;
        } else if pick == 1 && sh.queue != [] {
          var e := Receive();
          Interfere();
          var length := QueueLength(e);
          Interfere();
          Append(e, length);
          if n >= cfg.batchSize {
            Persist(false);
          }
        } else if pick == 1 && sh.intake.chanClosed {
          var nonEmpty := BeginFlush(ReceiveClosed);
          if nonEmpty {
            Persist(true);
          }
          End();
          InvFromInit(cfg, tables, trace);
          return true;
        } else if pick == 2 {
          var nonEmpty := BeginFlush(Tick);
          if nonEmpty {
            Persist(false);
          }
        }
      }
    }
  }

  /** One more store call, carrying `events`. */
  predicate Called(before: seq<StoreCall>, after: seq<StoreCall>, events: seq<Event>) {
    |after| == |before| + 1 && after[..|before|] == before && after[|before|].write.batch == events
  }

  /** At most `limit` more store calls, all carrying `events`. */
  predicate CallsWith(before: seq<StoreCall>, after: seq<StoreCall>, events: seq<Event>, limit: nat) {
    && |before| <= |after| <= |before| + limit
    && after[..|before|] == before
    && (forall i :: |before| <= i < |after| ==> after[i].write.batch == events)
  }

  lemma OneMoreCall(before: seq<StoreCall>, mid: seq<StoreCall>, after: seq<StoreCall>, events: seq<Event>, limit: nat)
    requires CallsWith(before, mid, events, limit) && Called(mid, after, events)
    ensures CallsWith(before, after, events, limit + 1)
  {
    assert after[..|before|] == after[..|mid|][..|before|];
    forall i | |before| <= i < |after| ensures after[i].write.batch == events {
      if i < |mid| { assert after[i] == after[..|mid|][i]; }
    }
  }
}
