/** Enqueue and Close as sequential code of one thread, with every other thread free to act between its steps. */
module PipelineCalls {
  import opened Util
  import opened Pipeline
  import opened PipelineProofs
  import opened PipelineTheorems
  import opened PipelineHistory
  import Store = UsageStore

  datatype EnqueueResult = Accepted | Refused | AwaitingLock

  /** What no step ever takes back. */
  predicate Grows(s: State, s': State) {
    && s.sh.intake.admitted <= s'.sh.intake.admitted
    && s.sh.intake.rejected <= s'.sh.intake.rejected
    && (s.sh.intake.closed ==> s'.sh.intake.closed)
    && (s.sh.intake.once.Done? ==> s'.sh.intake.once.Done?)
    && (s.sh.done ==> s'.sh.done)
  }

  /** e joined the admission sequence between the two states. */
  predicate Admits(s: State, s': State, e: Event) {
    exists k :: |s.sh.intake.admitted| <= k < |s'.sh.intake.admitted| && s'.sh.intake.admitted[k] == e
  }

  /** Closer c cannot go on: the worker has not ended, or the one-time part is held up. */
  predicate Blocked(s: State, c: nat) {
    if s.sh.intake.once.Done? then !s.sh.done else !(s.sh.intake.once == Locking(c) && s.sh.intake.enqueuers == map[])
  }

  /** Closer c has returned, and whether it reported a timeout. */
  predicate ReturnedWith(s: State, c: nat, timedOut: bool) { Get(s.sh.intake.closers, c) == Some(Returned(timedOut)) }

  /** Some state between the end of `before` and the end of `after` had a full queue. */
  ghost predicate WasFull(cfg: Config, tables: Store.Tables, before: seq<Step>, after: seq<Step>) {
    exists n :: |before| <= n <= |after| && FullAt(cfg, tables, after, n)
  }

  predicate FullAt(cfg: Config, tables: Store.Tables, steps: seq<Step>, n: nat)
    requires n <= |steps|
  {
    Legal(cfg, Init(tables), steps[..n]) && |Run(cfg, Init(tables), steps[..n]).sh.queue| == cfg.queueCapacity
  }

  lemma FullStays(cfg: Config, tables: Store.Tables, before: seq<Step>, mid: seq<Step>, after: seq<Step>)
    requires mid <= after && WasFull(cfg, tables, before, mid)
    ensures WasFull(cfg, tables, before, after)
  {
    var n :| |before| <= n <= |mid| && FullAt(cfg, tables, mid, n);
    assert after[..n] == mid[..n];
    assert FullAt(cfg, tables, after, n);
  }

  lemma FullFrom(cfg: Config, tables: Store.Tables, before: seq<Step>, mid: seq<Step>, after: seq<Step>)
    requires before <= mid && WasFull(cfg, tables, mid, after)
    ensures WasFull(cfg, tables, before, after)
  {
  }

  lemma EnvGrows(cfg: Config, s: State, e: EnvStep)
    requires EnvEnabled(s.sh, e)
    ensures Grows(s, s.(sh := EnvNext(cfg, s.sh, e)))
  {
    if IsThreadStep(e) { ThreadStepFrame(cfg, s.sh, e); } else { CloserStepFrame(cfg, s.sh, e); }
  }

  lemma WorkGrows(cfg: Config, s: State, w: WorkStep)
    requires WorkEnabled(s, w)
    ensures Grows(s, WorkNext(cfg, s, w))
  {
    WorkFrame(cfg, s, w);
  }

  predicate OwnedByCloser(e: EnvStep, c: nat) {
    match e
    case CallClose(x) => x == c
    case TakeLock(x) => x == c
    case SetFlag(x) => x == c
    case CloseChannel(x) => x == c
    case Release(x) => x == c
    case LeaveOnce(x) => x == c
    case Deadline(x) => x == c
    case Return(x) => x == c
    case _ => false
  }

  /** Closer c is the one that runs the one-time part. */
  predicate RunsOnce(i: Intake, c: nat) { !i.once.Fresh? && !i.once.Done? && i.once.closer == c }

  lemma EnvLeavesOnce(cfg: Config, sh: Shared, e: EnvStep, c: nat)
    requires EnvEnabled(sh, e) && !OwnedByCloser(e, c) && RunsOnce(sh.intake, c)
    ensures EnvNext(cfg, sh, e).intake.once == sh.intake.once
  {
    if IsThreadStep(e) { ThreadStepFrame(cfg, sh, e); }
  }

  lemma EnvLeavesCloser(cfg: Config, sh: Shared, e: EnvStep, c: nat)
    requires EnvEnabled(sh, e) && !OwnedByCloser(e, c)
    ensures Get(EnvNext(cfg, sh, e).intake.closers, c) == Get(sh.intake.closers, c)
  {
    if IsThreadStep(e) { ThreadStepFrame(cfg, sh, e); }
  }

  /** A step of the worker or of another thread moves neither thread t nor closer c. */
  lemma LeavesAlone(cfg: Config, s: State, step: Step, t: nat, c: nat)
    requires Enabled(s, step) && (step.Env? ==> !OwnedByThread(step.env, t) && !OwnedByCloser(step.env, c))
    ensures var i, j := s.sh.intake, Next(cfg, s, step).sh.intake;
            Place(j, t) == Place(i, t) && Get(j.closers, c) == Get(i.closers, c) && (RunsOnce(i, c) ==> j.once == i.once)
  {
    match step
    case Env(e) =>
      EnvLeavesThread(cfg, s.sh, e, t);
      EnvLeavesCloser(cfg, s.sh, e, c);
      if RunsOnce(s.sh.intake, c) { EnvLeavesOnce(cfg, s.sh, e, c); }
    case Work(w) => WorkFrame(cfg, s, w);
  }

  class PipelineHandle {
    const cfg: Config
    ghost const tables: Store.Tables
    var s: State
    ghost var trace: seq<Step>

    ghost predicate Valid()
      reads this
    {
      && cfg.Valid() && Store.Consistent(tables)
      && Legal(cfg, Init(tables), trace) && s == Run(cfg, Init(tables), trace)
    }

    /** Refuses a missing store and a configuration that the source refuses. */
    static method NewPipeline(store: Option<Store.Tables>, cfg: Config) returns (p: PipelineHandle?)
      requires store.Some? ==> Store.Consistent(store.value)
      ensures p != null <==>
              store.Some? && cfg.queueCapacity > 0 && 1 <= cfg.batchSize <= cfg.queueCapacity
              && cfg.flushInterval > 0 && cfg.maxAttempts > 0 && cfg.retryBaseDelay > 0
      ensures p != null ==> p.Valid() && fresh(p) && p.s == Init(store.value) && p.cfg == cfg
    {
      if store.None? {
        return null;
      }
      if cfg.queueCapacity <= 0 {
        return null;
      }
      if cfg.batchSize <= 0 || cfg.batchSize > cfg.queueCapacity {
        return null;
      }
      if cfg.flushInterval <= 0 || cfg.maxAttempts <= 0 || cfg.retryBaseDelay <= 0 {
        return null;
      }
      p := new PipelineHandle(cfg, store.value);
    }

    constructor (cfg: Config, tables: Store.Tables)
      requires cfg.Valid() && Store.Consistent(tables)
      ensures Valid() && s == Init(tables) && this.cfg == cfg
    {
      this.cfg := cfg;
      this.tables := tables;
      s := Init(tables);
      trace := [];
    }

    method Do(step: Step)
      requires Valid() && Enabled(s, step)
      modifies this
      ensures Valid() && s == Next(cfg, old(s), step) && Grows(old(s), s) && trace == old(trace) + [step]
    {
      Extend(cfg, Init(tables), trace, step);
      if step.Env? { EnvGrows(cfg, s, step.env); } else { WorkGrows(cfg, s, step.work); }
      s := Next(cfg, s, step);
      trace := trace + [step];
    }

    /** Any steps of the worker and of threads other than enqueuer t and closer c. */
    method Yield(t: nat, c: nat)
      requires Valid()
      modifies this
      ensures Valid() && Grows(old(s), s) && old(trace) <= trace
      ensures Place(s.sh.intake, t) == old(Place(s.sh.intake, t)) && Get(s.sh.intake.closers, c) == old(Get(s.sh.intake.closers, c))
      ensures RunsOnce(old(s).sh.intake, c) ==> s.sh.intake.once == old(s).sh.intake.once
    {
      var steps: seq<Step> := *;
      for i := 0 to |steps|
        invariant Valid() && Grows(old(s), s) && old(trace) <= trace
        invariant Place(s.sh.intake, t) == old(Place(s.sh.intake, t)) && Get(s.sh.intake.closers, c) == old(Get(s.sh.intake.closers, c))
        invariant RunsOnce(old(s).sh.intake, c) ==> s.sh.intake.once == old(s).sh.intake.once
      {
        if Enabled(s, steps[i]) && (steps[i].Env? ==> !OwnedByThread(steps[i].env, t) && !OwnedByCloser(steps[i].env, c)) {
          LeavesAlone(cfg, s, steps[i], t, c);
          Do(steps[i]);
        }
      }
    }

    /**
     Non-blocking but for the lock. An accepted event joins the admission sequence, a refused one is
     counted, and after closing every offer is refused.
     */
    method Enqueue(t: nat, c: nat, e: Event) returns (r: EnqueueResult)
      requires Valid() && t !in s.sh.intake.enqueuers
      modifies this
      ensures Valid() && t !in s.sh.intake.enqueuers && Grows(old(s), s) && old(trace) <= trace
      ensures r.Accepted? ==> Admits(old(s), s, e)
      ensures r.Accepted? ==> !old(s).sh.intake.closed && Store.ValidEvent(e)
      ensures r.Refused? ==> s.sh.intake.rejected > old(s).sh.intake.rejected
      ensures r.Refused? ==> !Store.ValidEvent(e) || s.sh.intake.closed || WasFull(cfg, tables, old(trace), trace)
      ensures r.AwaitingLock? ==> Store.ValidEvent(e) && !s.sh.intake.once.Fresh? && !s.sh.intake.once.Done?
    {
      Yield(t, c);
      if !Store.ValidEvent(e) {
        Do(Env(Offer(t, e)));
        return Refused;
      }
      var behindWriter: bool := *;
      if s.sh.intake.once.WriteLocked() || (behindWriter && s.sh.intake.once.Locking?) {
        return AwaitingLock;
      }
      ghost var mid := trace;
      r := TakeReadLock(t, c, e);
      if WasFull(cfg, tables, mid, trace) { FullFrom(cfg, tables, old(trace), mid, trace); }
    }

    method TakeReadLock(t: nat, c: nat, e: Event) returns (r: EnqueueResult)
      requires Valid() && t !in s.sh.intake.enqueuers && Store.ValidEvent(e) && !s.sh.intake.once.WriteLocked()
      modifies this
      ensures Valid() && t !in s.sh.intake.enqueuers && Grows(old(s), s) && !r.AwaitingLock? && old(trace) <= trace
      ensures r.Accepted? ==> Admits(old(s), s, e) && !old(s).sh.intake.closed
      ensures r.Refused? ==> s.sh.intake.rejected > old(s).sh.intake.rejected
      ensures r.Refused? ==> s.sh.intake.closed || WasFull(cfg, tables, old(trace), trace)
    {
      Do(Env(Offer(t, e)));
      Yield(t, c);
      ghost var mid := trace;
      r := UnderReadLock(t, c, e);
      if WasFull(cfg, tables, mid, trace) { FullFrom(cfg, tables, old(trace), mid, trace); }
    }

    method UnderReadLock(t: nat, c: nat, e: Event) returns (r: EnqueueResult)
      requires Valid() && Place(s.sh.intake, t) == Some(Checking(e))
      modifies this
      ensures Valid() && t !in s.sh.intake.enqueuers && Grows(old(s), s) && !r.AwaitingLock? && old(trace) <= trace
      ensures r.Accepted? ==> Admits(old(s), s, e) && !old(s).sh.intake.closed
      ensures r.Refused? ==> s.sh.intake.rejected > old(s).sh.intake.rejected
      ensures r.Refused? ==> s.sh.intake.closed || WasFull(cfg, tables, old(trace), trace)
    {
      if s.sh.intake.closed {
        Do(Env(CheckClosed(t)));
        Yield(t, c);
        Do(Env(Unlock(t)));
        return Refused;
      }
      Do(Env(CheckClosed(t)));
      Yield(t, c);
      ghost var mid := trace;
      r := SendAndLeave(t, c, e);
      if r.Refused? { FullFrom(cfg, tables, old(trace), mid, trace); }
    }

    /** The select: a send if there is room, otherwise a counted drop. */
    method SendAndLeave(t: nat, c: nat, e: Event) returns (r: EnqueueResult)
      requires Valid() && Place(s.sh.intake, t) == Some(Sending(e))
      modifies this
      ensures Valid() && t !in s.sh.intake.enqueuers && Grows(old(s), s) && !r.AwaitingLock? && old(trace) <= trace
      ensures r.Accepted? ==> Admits(old(s), s, e)
      ensures r.Refused? ==> s.sh.intake.rejected > old(s).sh.intake.rejected
      ensures r.Accepted? <==> |old(s).sh.queue| < cfg.queueCapacity
      ensures r.Refused? ==> WasFull(cfg, tables, old(trace), trace)
    {
      NeverSendsClosed(cfg, tables, trace, t);
      if |s.sh.queue| < cfg.queueCapacity {
        Do(Env(Send(t)));
        ghost var k := |s.sh.intake.admitted| - 1;
        assert s.sh.intake.admitted[k] == e;
        Publish(t, c);
        return Accepted;
      }
      ghost var full := trace;
      FullNow(cfg, tables, trace);
      Do(Env(Send(t)));
      Yield(t, c);
      Do(Env(Unlock(t)));
      FullStays(cfg, tables, full, full, trace);
      return Refused;
    }

    /** Counts the admission, then reads and publishes the queue length. */
    method Publish(t: nat, c: nat)
      requires Valid() && Place(s.sh.intake, t) == Some(Sent)
      modifies this
      ensures Valid() && t !in s.sh.intake.enqueuers && Grows(old(s), s) && old(trace) <= trace
    {
      Yield(t, c);
      Do(Env(CountEnqueued(t)));
      Yield(t, c);
      Do(Env(ReadLength(t)));
      SetGaugeAndLeave(t, c, s.sh.intake.enqueuers[t].length);
    }

    method SetGaugeAndLeave(t: nat, c: nat, length: nat)
      requires Valid() && Place(s.sh.intake, t) == Some(Gauging(length))
      modifies this
      ensures Valid() && t !in s.sh.intake.enqueuers && Grows(old(s), s) && old(trace) <= trace
    {
      Yield(t, c);
      Do(Env(SetGauge(t)));
      Yield(t, c);
      Do(Env(Unlock(t)));
    }

    /** Runs the one-time part if no other closer has; None means that the caller is still waiting. */
    method Close(c: nat, t: nat) returns (timedOut: Option<bool>)
      requires Valid() && c !in s.sh.intake.closers
      modifies this
      ensures Valid() && Grows(old(s), s)
      ensures timedOut.Some? ==> s.worker.Exited? && s.sh.intake.closed && s.sh.metrics.depth == 0
      ensures if timedOut.Some? then ReturnedWith(s, c, timedOut.value) else Blocked(s, c)
      ensures timedOut.Some? ==> (timedOut.value <==> Env(Deadline(c)) in trace)
    {
      var through := EnterOnce(c, t);
      if !through {
        return None;
      }
      Do(Env(LeaveOnce(c)));
      timedOut := AwaitDone(c, t);
    }

    /** Runs the one-time part, or waits for the closer that does; false if still held up. */
    method EnterOnce(c: nat, t: nat) returns (through: bool)
      requires Valid() && c !in s.sh.intake.closers
      modifies this
      ensures Valid() && Grows(old(s), s) && Get(s.sh.intake.closers, c) == Some(InOnce)
      ensures if through then s.sh.intake.once.Done? else Blocked(s, c) && !s.sh.intake.once.Done?
    {
      Do(Env(CallClose(c)));
      Yield(t, c);
      if s.sh.intake.once == Locking(c) && s.sh.intake.enqueuers == map[] {
        StopAdmission(c, t);
        Yield(t, c);
      }
      through := s.sh.intake.once.Done?;
    }

    /** Under the write lock: raise the flag, close the channel, while other threads go on. */
    method StopAdmission(c: nat, t: nat)
      requires Valid() && s.sh.intake.once == Locking(c) && s.sh.intake.enqueuers == map[] && c in s.sh.intake.closers
      modifies this
      ensures Valid() && Grows(old(s), s) && s.sh.intake.once.Done?
      ensures Get(s.sh.intake.closers, c) == old(Get(s.sh.intake.closers, c))
    {
      Do(Env(TakeLock(c)));
      Yield(t, c);
      Do(Env(SetFlag(c)));
      CloseAndRelease(c, t);
    }

    method CloseAndRelease(c: nat, t: nat)
      requires Valid() && s.sh.intake.once == FlagSet(c)
      modifies this
      ensures Valid() && Grows(old(s), s) && s.sh.intake.once.Done?
      ensures Get(s.sh.intake.closers, c) == old(Get(s.sh.intake.closers, c))
    {
      Yield(t, c);
      Do(Env(CloseChannel(c)));
      Yield(t, c);
      Do(Env(Release(c)));
    }

    method AwaitDone(c: nat, t: nat) returns (timedOut: Option<bool>)
      requires Valid() && Get(s.sh.intake.closers, c) == Some(Waiting) && s.sh.intake.once.Done?
      modifies this
      ensures Valid() && Grows(old(s), s)
      ensures timedOut.Some? ==> s.worker.Exited? && s.sh.intake.closed && s.sh.metrics.depth == 0
      ensures if timedOut.Some? then ReturnedWith(s, c, timedOut.value) else Blocked(s, c)
      ensures timedOut.Some? ==> (timedOut.value <==> Env(Deadline(c)) in trace)
    {
      Yield(t, c);
      var deadline: bool := *;
      if deadline {
        Do(Env(Deadline(c)));
        Yield(t, c);
      }
      if !s.sh.done {
        return None;
      }
      Do(Env(Return(c)));
      ExitedIsQuiet(cfg, tables, trace);
      TimeoutExactly(cfg, tables, trace, c);
      return Some(deadline);
    }
  }

  lemma FullNow(cfg: Config, tables: Store.Tables, steps: seq<Step>)
    requires cfg.Valid() && Store.Consistent(tables) && Legal(cfg, Init(tables), steps)
    requires |Run(cfg, Init(tables), steps).sh.queue| >= cfg.queueCapacity
    ensures WasFull(cfg, tables, steps, steps)
  {
    InvFromInit(cfg, tables, steps);
    assert steps[..|steps|] == steps;
    assert FullAt(cfg, tables, steps, |steps|);
  }

  lemma NeverSendsClosed(cfg: Config, tables: Store.Tables, steps: seq<Step>, t: nat)
    requires cfg.Valid() && Store.Consistent(tables) && Legal(cfg, Init(tables), steps)
    requires Place(Run(cfg, Init(tables), steps).sh.intake, t).Some? && Place(Run(cfg, Init(tables), steps).sh.intake, t).value.Sending?
    ensures !Run(cfg, Init(tables), steps).sh.intake.closed && !Run(cfg, Init(tables), steps).sh.intake.chanClosed
  {
    InvFromInit(cfg, tables, steps);
  }

  lemma ExitedIsQuiet(cfg: Config, tables: Store.Tables, steps: seq<Step>)
    requires cfg.Valid() && Store.Consistent(tables) && Legal(cfg, Init(tables), steps)
    requires Run(cfg, Init(tables), steps).sh.done
    ensures var s := Run(cfg, Init(tables), steps); s.worker.Exited? && s.sh.intake.closed && s.sh.metrics.depth == 0
  {
    InvFromInit(cfg, tables, steps);
  }
}
