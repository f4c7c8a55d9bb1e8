/**
 What the pipeline must do, not only what it must not: which offers are accepted, what a returning Close reports, which
 store calls precede each outcome, and that a healthy store loses nothing.
 */
module PipelineHistory {
  import opened Util
  import opened Pipeline
  import opened PipelineProofs
  import opened PipelineTheorems
  import Store = UsageStore

  // ----- Which offers are accepted -----

  /** A send is admitted exactly when the queue has room, and refused and counted exactly when it is full. */
  lemma SendExactly(cfg: Config, tables: Store.Tables, s: State, t: nat)
    requires cfg.Valid() && Store.Consistent(tables) && Reachable(cfg, tables, s) && EnvEnabled(s.sh, Send(t))
    ensures var i, n, sh' := s.sh.intake, |s.sh.queue|, EnvNext(cfg, s.sh, Send(t));
            && n <= cfg.queueCapacity
            && sh'.intake.admitted == (if n < cfg.queueCapacity then i.admitted + [i.enqueuers[t].event] else i.admitted)
            && sh'.queue == (if n < cfg.queueCapacity then s.sh.queue + [i.enqueuers[t].event] else s.sh.queue)
            && sh'.intake.rejected == (if n == cfg.queueCapacity then i.rejected + 1 else i.rejected)
            && sh'.metrics.dropped == (if n == cfg.queueCapacity then s.sh.metrics.dropped + 1 else s.sh.metrics.dropped)
  {
    ReachableInv(cfg, tables, s);
  }

  /** The steps of one Enqueue that nobody disturbs. */
  function EnqueueSteps(cfg: Config, sh: Shared, t: nat, e: Event): seq<Step> {
    if !Store.ValidEvent(e) then [Env(Offer(t, e))]
    else if sh.intake.closed then [Env(Offer(t, e)), Env(CheckClosed(t)), Env(Unlock(t))]
    else if |sh.queue| >= cfg.queueCapacity then [Env(Offer(t, e)), Env(CheckClosed(t)), Env(Send(t)), Env(Unlock(t))]
    else [Env(Offer(t, e)), Env(CheckClosed(t)), Env(Send(t)), Env(CountEnqueued(t)), Env(ReadLength(t)), Env(SetGauge(t)), Env(Unlock(t))]
  }

  /** Where it leads: one offer more, and either an admitted and counted event with the gauge up to date, or one rejection more. */
  function AfterEnqueue(cfg: Config, sh: Shared, e: Event): Shared {
    var i := sh.intake;
    if Store.ValidEvent(e) && !i.closed && |sh.queue| < cfg.queueCapacity then
      sh.(intake := i.(offered := i.offered + 1, admitted := i.admitted + [e], enqueued := i.enqueued + 1),
          queue := sh.queue + [e], metrics := sh.metrics.(depth := |sh.queue| + 1))
    else
      sh.(intake := i.(offered := i.offered + 1, rejected := i.rejected + 1), metrics := sh.metrics.(dropped := sh.metrics.dropped + 1))
  }

  ghost predicate Leads(cfg: Config, s: State, steps: seq<Step>, s': State) { Legal(cfg, s, steps) && Run(cfg, s, steps) == s' }

  /** One step more of a thread. */
  lemma {:induction false} Follow(cfg: Config, s: State, steps: seq<Step>, x: State, e: EnvStep, sh: Shared)
    requires Leads(cfg, s, steps, x) && EnvEnabled(x.sh, e) && EnvNext(cfg, x.sh, e) == sh
    ensures Leads(cfg, s, steps + [Env(e)], x.(sh := sh))
  {
    Extend(cfg, s, steps, Env(e));
  }

  /** sh with admission side i and thread t at pc. */
  function With(sh: Shared, i: Intake, t: nat, pc: Enqueuer): Shared { sh.(intake := i.Put(t, pc)) }

  lemma OfferStep(cfg: Config, s: State, t: nat, e: Event)
    requires t !in s.sh.intake.enqueuers && !s.sh.intake.once.WriteLocked() && Store.ValidEvent(e)
    ensures Leads(cfg, s, [Env(Offer(t, e))], s.(sh := With(s.sh, s.sh.intake.(offered := s.sh.intake.offered + 1), t, Checking(e))))
  {
    Follow(cfg, s, [], s, Offer(t, e), With(s.sh, s.sh.intake.(offered := s.sh.intake.offered + 1), t, Checking(e)));
    assert [] + [Env(Offer(t, e))] == [Env(Offer(t, e))];
  }

  lemma PutTwice(i: Intake, t: nat, a: Enqueuer, b: Enqueuer)
    ensures i.Put(t, a).Put(t, b) == i.Put(t, b)
  {
    assert i.enqueuers[t := a][t := b] == i.enqueuers[t := b];
  }

  lemma CheckStep(cfg: Config, s: State, steps: seq<Step>, x: State, i: Intake, t: nat, e: Event)
    requires Leads(cfg, s, steps, x) && x.sh.intake == i.Put(t, Checking(e)) && !i.closed
    ensures Leads(cfg, s, steps + [Env(CheckClosed(t))], x.(sh := With(x.sh, i, t, Sending(e))))
  {
    PutTwice(i, t, Checking(e), Sending(e));
    Follow(cfg, s, steps, x, CheckClosed(t), With(x.sh, i, t, Sending(e)));
  }

  lemma CheckRefuses(cfg: Config, s: State, steps: seq<Step>, x: State, i: Intake, t: nat, e: Event)
    requires Leads(cfg, s, steps, x) && x.sh.intake == i.Put(t, Checking(e)) && i.closed
    ensures Leads(cfg, s, steps + [Env(CheckClosed(t))], x.(sh := Reject(x.sh, i.Put(t, Leaving))))
  {
    PutTwice(i, t, Checking(e), Leaving);
    Follow(cfg, s, steps, x, CheckClosed(t), Reject(x.sh, i.Put(t, Leaving)));
  }

  lemma SendStep(cfg: Config, s: State, steps: seq<Step>, x: State, i: Intake, t: nat, e: Event)
    requires Leads(cfg, s, steps, x) && x.sh.intake == i.Put(t, Sending(e)) && !i.chanClosed && |x.sh.queue| < cfg.queueCapacity
    ensures Leads(cfg, s, steps + [Env(Send(t))],
                  x.(sh := With(x.sh, i.(admitted := i.admitted + [e]), t, Sent).(queue := x.sh.queue + [e])))
  {
    PutTwice(i, t, Sending(e), Sent);
    Follow(cfg, s, steps, x, Send(t), With(x.sh, i.(admitted := i.admitted + [e]), t, Sent).(queue := x.sh.queue + [e]));
  }

  lemma SendRefuses(cfg: Config, s: State, steps: seq<Step>, x: State, i: Intake, t: nat, e: Event)
    requires Leads(cfg, s, steps, x) && x.sh.intake == i.Put(t, Sending(e)) && !i.chanClosed && |x.sh.queue| >= cfg.queueCapacity
    ensures Leads(cfg, s, steps + [Env(Send(t))], x.(sh := Reject(x.sh, i.Put(t, Leaving))))
  {
    PutTwice(i, t, Sending(e), Leaving);
    Follow(cfg, s, steps, x, Send(t), Reject(x.sh, i.Put(t, Leaving)));
  }

  lemma CountStep(cfg: Config, s: State, steps: seq<Step>, x: State, i: Intake, t: nat)
    requires Leads(cfg, s, steps, x) && x.sh.intake == i.Put(t, Sent)
    ensures Leads(cfg, s, steps + [Env(CountEnqueued(t))], x.(sh := With(x.sh, i.(enqueued := i.enqueued + 1), t, Counted)))
  {
    PutTwice(i, t, Sent, Counted);
    Follow(cfg, s, steps, x, CountEnqueued(t), With(x.sh, i.(enqueued := i.enqueued + 1), t, Counted));
  }

  lemma ReadStep(cfg: Config, s: State, steps: seq<Step>, x: State, i: Intake, t: nat)
    requires Leads(cfg, s, steps, x) && x.sh.intake == i.Put(t, Counted)
    ensures Leads(cfg, s, steps + [Env(ReadLength(t))], x.(sh := With(x.sh, i, t, Gauging(|x.sh.queue|))))
  {
    PutTwice(i, t, Counted, Gauging(|x.sh.queue|));
    Follow(cfg, s, steps, x, ReadLength(t), With(x.sh, i, t, Gauging(|x.sh.queue|)));
  }

  lemma GaugeStep(cfg: Config, s: State, steps: seq<Step>, x: State, i: Intake, t: nat, n: nat)
    requires Leads(cfg, s, steps, x) && x.sh.intake == i.Put(t, Gauging(n))
    ensures Leads(cfg, s, steps + [Env(SetGauge(t))], x.(sh := With(x.sh, i, t, Leaving).(metrics := x.sh.metrics.(depth := n))))
  {
    PutTwice(i, t, Gauging(n), Leaving);
    Follow(cfg, s, steps, x, SetGauge(t), With(x.sh, i, t, Leaving).(metrics := x.sh.metrics.(depth := n)));
  }

  lemma LeaveStep(cfg: Config, s: State, steps: seq<Step>, x: State, i: Intake, t: nat)
    requires Leads(cfg, s, steps, x) && t !in i.enqueuers && x.sh.intake == i.Put(t, Leaving)
    ensures Leads(cfg, s, steps + [Env(Unlock(t))], x.(sh := x.sh.(intake := i)))
  {
    assert x.sh.intake.enqueuers - {t} == i.enqueuers;
    Follow(cfg, s, steps, x, Unlock(t), x.sh.(intake := i));
  }

  lemma RefusedInvalid(cfg: Config, s: State, t: nat, e: Event)
    requires t !in s.sh.intake.enqueuers && !Store.ValidEvent(e)
    ensures Leads(cfg, s, EnqueueSteps(cfg, s.sh, t, e), s.(sh := AfterEnqueue(cfg, s.sh, e)))
  {
    Follow(cfg, s, [], s, Offer(t, e), AfterEnqueue(cfg, s.sh, e));
    assert [] + [Env(Offer(t, e))] == EnqueueSteps(cfg, s.sh, t, e);
  }

  lemma RefusedClosed(cfg: Config, s: State, t: nat, e: Event)
    requires t !in s.sh.intake.enqueuers && !s.sh.intake.once.WriteLocked() && Store.ValidEvent(e) && s.sh.intake.closed
    ensures Leads(cfg, s, EnqueueSteps(cfg, s.sh, t, e), s.(sh := AfterEnqueue(cfg, s.sh, e)))
  {
    var i := s.sh.intake.(offered := s.sh.intake.offered + 1);
    OfferStep(cfg, s, t, e);
    var s1 := s.(sh := With(s.sh, i, t, Checking(e)));
    CheckRefuses(cfg, s, [Env(Offer(t, e))], s1, i, t, e);
    var s2 := s1.(sh := Reject(s1.sh, i.Put(t, Leaving)));
    LeaveStep(cfg, s, [Env(Offer(t, e))] + [Env(CheckClosed(t))], s2, i.(rejected := i.rejected + 1), t);
    assert [Env(Offer(t, e))] + [Env(CheckClosed(t))] + [Env(Unlock(t))] == EnqueueSteps(cfg, s.sh, t, e);
  }

  lemma RefusedFull(cfg: Config, s: State, t: nat, e: Event)
    requires t !in s.sh.intake.enqueuers && !s.sh.intake.once.WriteLocked() && Store.ValidEvent(e) && !s.sh.intake.closed
    requires !s.sh.intake.chanClosed && |s.sh.queue| >= cfg.queueCapacity
    ensures Leads(cfg, s, EnqueueSteps(cfg, s.sh, t, e), s.(sh := AfterEnqueue(cfg, s.sh, e)))
  {
    var i, a := s.sh.intake.(offered := s.sh.intake.offered + 1), [Env(Offer(t, e))];
    OfferStep(cfg, s, t, e);
    CheckStep(cfg, s, a, s.(sh := With(s.sh, i, t, Checking(e))), i, t, e);
    var s2 := s.(sh := With(s.sh, i, t, Sending(e)));
    SendRefuses(cfg, s, a + [Env(CheckClosed(t))], s2, i, t, e);
    var s3 := s2.(sh := Reject(s2.sh, i.Put(t, Leaving)));
    LeaveStep(cfg, s, a + [Env(CheckClosed(t))] + [Env(Send(t))], s3, i.(rejected := i.rejected + 1), t);
    assert a + [Env(CheckClosed(t))] + [Env(Send(t))] + [Env(Unlock(t))] == EnqueueSteps(cfg, s.sh, t, e);
  }

  /** The state after the send, before anything is counted. */
  function AfterSend(s: State, t: nat, e: Event): State {
    var i := s.sh.intake;
    s.(sh := With(s.sh, i.(offered := i.offered + 1, admitted := i.admitted + [e]), t, Sent).(queue := s.sh.queue + [e]))
  }

  lemma ReachesSent(cfg: Config, s: State, t: nat, e: Event)
    requires t !in s.sh.intake.enqueuers && !s.sh.intake.once.WriteLocked() && Store.ValidEvent(e) && !s.sh.intake.closed
    requires !s.sh.intake.chanClosed && |s.sh.queue| < cfg.queueCapacity
    ensures Leads(cfg, s, [Env(Offer(t, e)), Env(CheckClosed(t)), Env(Send(t))], AfterSend(s, t, e))
  {
    var i, a := s.sh.intake.(offered := s.sh.intake.offered + 1), [Env(Offer(t, e))];
    OfferStep(cfg, s, t, e);
    CheckStep(cfg, s, a, s.(sh := With(s.sh, i, t, Checking(e))), i, t, e);
    SendStep(cfg, s, a + [Env(CheckClosed(t))], s.(sh := With(s.sh, i, t, Sending(e))), i, t, e);
    assert a + [Env(CheckClosed(t))] + [Env(Send(t))] == [Env(Offer(t, e)), Env(CheckClosed(t)), Env(Send(t))];
  }

  lemma AcceptedWithRoom(cfg: Config, s: State, t: nat, e: Event)
    requires t !in s.sh.intake.enqueuers && !s.sh.intake.once.WriteLocked() && Store.ValidEvent(e) && !s.sh.intake.closed
    requires !s.sh.intake.chanClosed && |s.sh.queue| < cfg.queueCapacity
    ensures Leads(cfg, s, EnqueueSteps(cfg, s.sh, t, e), s.(sh := AfterEnqueue(cfg, s.sh, e)))
  {
    var three, s3 := [Env(Offer(t, e)), Env(CheckClosed(t)), Env(Send(t))], AfterSend(s, t, e);
    var i := s.sh.intake.(offered := s.sh.intake.offered + 1, admitted := s.sh.intake.admitted + [e]);
    var j := i.(enqueued := i.enqueued + 1);
    ReachesSent(cfg, s, t, e);
    CountStep(cfg, s, three, s3, i, t);
    var s4 := s3.(sh := With(s3.sh, j, t, Counted));
    ReadStep(cfg, s, three + [Env(CountEnqueued(t))], s4, j, t);
    var n := |s.sh.queue| + 1;
    var s5 := s4.(sh := With(s4.sh, j, t, Gauging(n)));
    GaugeStep(cfg, s, three + [Env(CountEnqueued(t))] + [Env(ReadLength(t))], s5, j, t, n);
    var s6 := s5.(sh := With(s5.sh, j, t, Leaving).(metrics := s.sh.metrics.(depth := n)));
    LeaveStep(cfg, s, three + [Env(CountEnqueued(t))] + [Env(ReadLength(t))] + [Env(SetGauge(t))], s6, j, t);
    assert three + [Env(CountEnqueued(t))] + [Env(ReadLength(t))] + [Env(SetGauge(t))] + [Env(Unlock(t))] == EnqueueSteps(cfg, s.sh, t, e);
  }

  /**
   From every reachable state in which nobody is closing the pipeline, an Enqueue that nobody disturbs admits the event exactly when
   it is valid, the pipeline is open and the queue has room; it counts it, publishes the true queue length, and touches nothing else.
   */
  lemma EnqueueExactly(cfg: Config, tables: Store.Tables, s: State, t: nat, e: Event)
    requires cfg.Valid() && Store.Consistent(tables) && Reachable(cfg, tables, s)
    requires t !in s.sh.intake.enqueuers && !s.sh.intake.once.WriteLocked()
    ensures Leads(cfg, s, EnqueueSteps(cfg, s.sh, t, e), s.(sh := AfterEnqueue(cfg, s.sh, e)))
  {
    ReachableInv(cfg, tables, s);
    if !Store.ValidEvent(e) {
      RefusedInvalid(cfg, s, t, e);
    } else if s.sh.intake.closed {
      RefusedClosed(cfg, s, t, e);
    } else if |s.sh.queue| >= cfg.queueCapacity {
      RefusedFull(cfg, s, t, e);
    } else {
      AcceptedWithRoom(cfg, s, t, e);
    }
  }

  // ----- What a returning Close reports -----

  /** What closer c's position says about whether its deadline has passed. */
  predicate DeadlineKnown(s: State, c: nat, passed: bool) {
    && (passed ==> s.sh.cancelled)
    && if c !in s.sh.intake.closers then !passed
       else match s.sh.intake.closers[c]
            case InOnce => !passed
            case Waiting => !passed
            case Aborting => passed
            case Returned(timedOut) => timedOut <==> passed
  }

  lemma StepDeadline(cfg: Config, s: State, step: Step, c: nat, passed: bool)
    requires Enabled(s, step) && DeadlineKnown(s, c, passed)
    ensures DeadlineKnown(Next(cfg, s, step), c, passed || step == Env(Deadline(c)))
  {
    match step
    case Env(e) => EnvDeadline(cfg, s, e, c, passed);
    case Work(w) =>
      WorkFrame(cfg, s, w);
      WorkKeepsCancelled(cfg, s, w);
  }

  lemma WorkKeepsCancelled(cfg: Config, s: State, w: WorkStep)
    requires WorkEnabled(s, w)
    ensures s.sh.cancelled ==> WorkNext(cfg, s, w).sh.cancelled
  {
  }

  lemma EnvDeadline(cfg: Config, s: State, e: EnvStep, c: nat, passed: bool)
    requires EnvEnabled(s.sh, e) && DeadlineKnown(s, c, passed)
    ensures DeadlineKnown(s.(sh := EnvNext(cfg, s.sh, e)), c, passed || e == Deadline(c))
  {
    if IsThreadStep(e) {
      ThreadStepFrame(cfg, s.sh, e);
      ThreadKeepsCancelled(cfg, s.sh, e);
    }
  }

  lemma ThreadKeepsCancelled(cfg: Config, sh: Shared, e: EnvStep)
    requires EnvEnabled(sh, e) && IsThreadStep(e)
    ensures EnvNext(cfg, sh, e).cancelled == sh.cancelled
  {
  }

  /**
   In every run, a Close that has returned reports a timeout exactly when its deadline passed, and
   a passed deadline has cancelled the worker's context.
   */
  lemma {:induction false} TimeoutExactly(cfg: Config, tables: Store.Tables, steps: seq<Step>, c: nat)
    requires Legal(cfg, Init(tables), steps)
    ensures DeadlineKnown(Run(cfg, Init(tables), steps), c, Env(Deadline(c)) in steps)
    decreases |steps|
  {
    if steps != [] {
      var before, step := Front(steps), Last(steps);
      TimeoutExactly(cfg, tables, before, c);
      StepDeadline(cfg, Run(cfg, Init(tables), before), step, c, Env(Deadline(c)) in before);
      assert steps == before + [step];
    }
  }

  /** The context is cancelled only by a deadline that passed, or by the worker when it ends. */
  lemma {:induction false} CancelledBecause(cfg: Config, tables: Store.Tables, steps: seq<Step>)
    requires Legal(cfg, Init(tables), steps)
    ensures var s := Run(cfg, Init(tables), steps); s.sh.cancelled && !s.worker.Exited? ==> exists c :: Env(Deadline(c)) in steps
    decreases |steps|
  {
    if steps != [] {
      var before, step := Front(steps), Last(steps);
      CancelledBecause(cfg, tables, before);
      assert steps == before + [step];
      CancelStep(cfg, Run(cfg, Init(tables), before), step);
    }
  }

  lemma CancelStep(cfg: Config, s: State, step: Step)
    requires Enabled(s, step)
    ensures var s' := Next(cfg, s, step);
            s'.sh.cancelled && !s'.worker.Exited? ==> (s.sh.cancelled && !s.worker.Exited?) || (step.Env? && step.env.Deadline?)
  {
    if step.Env? && IsThreadStep(step.env) { ThreadKeepsCancelled(cfg, s.sh, step.env); }
  }

  // ----- Which store calls precede an outcome -----

  /** The store calls made for flush f, in order. */
  function CallsOf(calls: seq<StoreCall>, f: nat): seq<Store.Write> {
    if calls == [] then []
    else if Last(calls).flush == f then CallsOf(Front(calls), f) + [Last(calls).write] else CallsOf(Front(calls), f)
  }

  predicate AllFailed(cs: seq<Store.Write>) { forall i :: 0 <= i < |cs| ==> cs[i].Persist? && !Store.Succeeds(cs[i]) }

  /** The calls that lead to an outcome: failed attempts, then the call that decides. */
  predicate Decides(max: int, cs: seq<Store.Write>, outcome: Outcome) {
    match outcome
    case Persisted => 1 <= |cs| <= max && AllFailed(Front(cs)) && Last(cs).Persist? && Store.Succeeds(Last(cs))
    case DeadLettered => cs != [] && |cs| == max + 1 && LetteredLast(max, cs) && Store.Succeeds(Last(cs))
    case Dropped(failed) =>
      if failed then cs != [] && |cs| == max + 1 && LetteredLast(max, cs) && !Store.Succeeds(Last(cs)) else |cs| < max && AllFailed(cs)
  }

  predicate LetteredLast(max: int, cs: seq<Store.Write>)
    requires cs != []
  {
    AllFailed(Front(cs)) && Last(cs).DeadLetters? && Last(cs).attempts == max
  }

  /** The calls made so far for the flush in progress. */
  predicate Underway(max: int, cs: seq<Store.Write>, w: Worker) {
    match w
    case Persisting(attempt, _) => |cs| == attempt - 1 && AllFailed(cs)
    case Backoff(attempt, _) => |cs| == attempt && AllFailed(cs)
    case DeadLettering(_) => |cs| == max && AllFailed(cs)
    case Settling(outcome, _) => Decides(max, cs, outcome)
    case _ => cs == []
  }

  predicate Explained(max: int, l: Ledger, f: nat)
    requires f < |l.settled|
  {
    Decides(max, CallsOf(l.calls, f), l.settled[f].outcome)
  }

  ghost predicate Recorded(cfg: Config, s: State) {
    var l := s.ledger;
    && (forall f: nat :: f < |l.settled| ==> Explained(cfg.maxAttempts, l, f))
    && Underway(cfg.maxAttempts, CallsOf(l.calls, |l.settled|), s.worker)
    && (forall c :: c in l.calls ==> c.flush <= |l.settled|)
  }

  lemma {:induction false} NoneBeyond(calls: seq<StoreCall>, f: nat)
    requires forall c :: c in calls ==> c.flush < f
    ensures CallsOf(calls, f) == []
    decreases |calls|
  {
    if calls != [] {
      assert Last(calls) in calls && forall c :: c in Front(calls) ==> c in calls;
      NoneBeyond(Front(calls), f);
    }
  }

  lemma OneCallMore(calls: seq<StoreCall>, c: StoreCall, f: nat)
    ensures CallsOf(calls + [c], f) == if c.flush == f then CallsOf(calls, f) + [c.write] else CallsOf(calls, f)
  {
    assert Front(calls + [c]) == calls && Last(calls + [c]) == c;
  }

  /** A store call adds to the flush in progress and to no other. */
  lemma CallKeepsRecorded(cfg: Config, s: State, s': State, w: Store.Write)
    requires Recorded(cfg, s) && s'.ledger == Record(s.ledger, w)
    requires Underway(cfg.maxAttempts, CallsOf(s.ledger.calls, |s.ledger.settled|) + [w], s'.worker)
    ensures Recorded(cfg, s')
  {
    var l, c := s.ledger, StoreCall(|s.ledger.settled|, w);
    OneCallMore(l.calls, c, |l.settled|);
    forall f: nat | f < |l.settled| ensures Explained(cfg.maxAttempts, s'.ledger, f) {
      assert Explained(cfg.maxAttempts, l, f);
      OneCallMore(l.calls, c, f);
    }
  }

  lemma SettleKeepsRecorded(cfg: Config, s: State, s': State, events: seq<Event>, outcome: Outcome)
    requires Recorded(cfg, s) && s'.ledger == Conclude(s.ledger, events, outcome)
    requires Decides(cfg.maxAttempts, CallsOf(s.ledger.calls, |s.ledger.settled|), outcome)
    requires !Flushing(s'.worker)
    ensures Recorded(cfg, s')
  {
    var l, l' := s.ledger, s'.ledger;
    forall f: nat | f < |l'.settled| ensures Explained(cfg.maxAttempts, l', f) {
      if f < |l.settled| { assert Explained(cfg.maxAttempts, l, f); }
    }
    NoneBeyond(l.calls, |l'.settled|);
  }

  lemma AttemptLeads(cfg: Config, s: State, cs: seq<Store.Write>, fate: Store.Fate)
    requires Sizes(cfg, s) && s.worker.Persisting? && Underway(cfg.maxAttempts, cs, s.worker)
    ensures Underway(cfg.maxAttempts, cs + [Store.Persist(s.batch, fate)], TryPersist(cfg, s, fate).worker)
  {
    OneMoreAttempt(cs, Store.Persist(s.batch, fate));
  }

  lemma OneMoreAttempt(cs: seq<Store.Write>, w: Store.Write)
    requires AllFailed(cs)
    ensures |cs + [w]| == |cs| + 1 && Front(cs + [w]) == cs && Last(cs + [w]) == w
    ensures w.Persist? && !Store.Succeeds(w) ==> AllFailed(cs + [w])
  {
  }

  lemma LettersLead(cfg: Config, s: State, cs: seq<Store.Write>, error: string, fate: Store.Fate)
    requires s.worker.DeadLettering? && Underway(cfg.maxAttempts, cs, s.worker)
    ensures Underway(cfg.maxAttempts, cs + [Store.DeadLetters(s.batch, error, cfg.maxAttempts, fate)], TryDeadLetters(cfg, s, error, fate).worker)
  {
    OneMoreAttempt(cs, Store.DeadLetters(s.batch, error, cfg.maxAttempts, fate));
  }

  lemma WorkKeepsRecorded(cfg: Config, s: State, w: WorkStep)
    requires cfg.Valid() && Sizes(cfg, s) && Recorded(cfg, s) && WorkEnabled(s, w)
    ensures Recorded(cfg, WorkNext(cfg, s, w))
  {
    match w
    case CallPersist(fate) =>
      AttemptLeads(cfg, s, CallsOf(s.ledger.calls, |s.ledger.settled|), fate);
      CallKeepsRecorded(cfg, s, TryPersist(cfg, s, fate), Store.Persist(s.batch, fate));
    case CallDeadLetters(error, fate) =>
      LettersLead(cfg, s, CallsOf(s.ledger.calls, |s.ledger.settled|), error, fate);
      CallKeepsRecorded(cfg, s, TryDeadLetters(cfg, s, error, fate), Store.DeadLetters(s.batch, error, cfg.maxAttempts, fate));
    case Settle => SettleKeepsRecorded(cfg, s, SettleBatch(s), s.batch, s.worker.outcome);
    case RecordDrop => SettleKeepsRecorded(cfg, s, DropRest(s), s.batch + s.sh.queue, Dropped(false));
    case _ => QuietKeepsRecorded(cfg, s, w);
  }

  lemma QuietKeepsRecorded(cfg: Config, s: State, w: WorkStep)
    requires cfg.Valid() && Sizes(cfg, s) && Recorded(cfg, s) && WorkEnabled(s, w)
    requires !w.CallPersist? && !w.CallDeadLetters? && !w.Settle? && !w.RecordDrop?
    ensures Recorded(cfg, WorkNext(cfg, s, w))
  {
    assert WorkNext(cfg, s, w).ledger == s.ledger;
    assert Underway(cfg.maxAttempts, CallsOf(s.ledger.calls, |s.ledger.settled|), WorkNext(cfg, s, w).worker);
    forall f: nat | f < |s.ledger.settled| ensures Explained(cfg.maxAttempts, WorkNext(cfg, s, w).ledger, f) {
      assert Explained(cfg.maxAttempts, s.ledger, f);
    }
  }

  /**
   In every run each outcome has its calls: a persisted batch follows failed attempts and one confirmed one; a batch goes to the dead
   letters, confirmed or not, after exactly MaxAttempts failed attempts and with that count; and a batch dropped otherwise had
   fewer than MaxAttempts attempts, all failed.
   */
  lemma {:induction false} OutcomesExplained(cfg: Config, tables: Store.Tables, steps: seq<Step>)
    requires cfg.Valid() && Store.Consistent(tables) && Legal(cfg, Init(tables), steps)
    ensures Recorded(cfg, Run(cfg, Init(tables), steps))
    decreases |steps|
  {
    if steps != [] {
      var before, step := Front(steps), Last(steps);
      OutcomesExplained(cfg, tables, before);
      InvFromInit(cfg, tables, before);
      var s := Run(cfg, Init(tables), before);
      match step
      case Env(e) => EnvKeepsRecorded(cfg, s, e);
      case Work(w) => WorkKeepsRecorded(cfg, s, w);
    }
  }

  lemma EnvKeepsRecorded(cfg: Config, s: State, e: EnvStep)
    requires Recorded(cfg, s) && EnvEnabled(s.sh, e)
    ensures Recorded(cfg, s.(sh := EnvNext(cfg, s.sh, e)))
  {
    forall f: nat | f < |s.ledger.settled| ensures Explained(cfg.maxAttempts, s.ledger, f) { }
  }

  // ----- Counters of retries and batches -----

  function FailedAttempts(calls: seq<StoreCall>): nat {
    if calls == [] then 0 else FailedAttempts(Front(calls)) + Bit(Last(calls).write.Persist? && !Store.Succeeds(Last(calls).write))
  }

  function LetterCalls(calls: seq<StoreCall>): nat {
    if calls == [] then 0 else LetterCalls(Front(calls)) + Bit(Last(calls).write.DeadLetters?)
  }

  function PersistedBatches(settled: seq<Settled>): nat {
    if settled == [] then 0 else PersistedBatches(Front(settled)) + Bit(Last(settled).outcome.Persisted?)
  }

  /** A retry is counted for each failed attempt but the last one of a batch, a batch for each one persisted. */
  predicate Counts(s: State) {
    && s.sh.metrics.retries + LetterCalls(s.ledger.calls) + Bit(s.worker.DeadLettering?) == FailedAttempts(s.ledger.calls)
    && s.sh.metrics.batches == PersistedBatches(s.ledger.settled)
  }

  lemma CountCall(l: Ledger, w: Store.Write)
    ensures FailedAttempts(Record(l, w).calls) == FailedAttempts(l.calls) + Bit(w.Persist? && !Store.Succeeds(w))
    ensures LetterCalls(Record(l, w).calls) == LetterCalls(l.calls) + Bit(w.DeadLetters?)
  {
    var c := StoreCall(|l.settled|, w);
    assert Front(l.calls + [c]) == l.calls && Last(l.calls + [c]) == c;
  }

  lemma CountSettled(l: Ledger, events: seq<Event>, outcome: Outcome)
    ensures PersistedBatches(Conclude(l, events, outcome).settled) == PersistedBatches(l.settled) + Bit(outcome.Persisted?)
  {
    var x := Settled(events, outcome);
    assert Front(l.settled + [x]) == l.settled && Last(l.settled + [x]) == x;
  }

  lemma WorkKeepsCounts(cfg: Config, s: State, w: WorkStep)
    requires Counts(s) && WorkEnabled(s, w)
    ensures Counts(WorkNext(cfg, s, w))
  {
    match w
    case CallPersist(fate) => AttemptCounts(cfg, s, fate);
    case CallDeadLetters(error, fate) => LettersCount(cfg, s, error, fate);
    case Settle => SettleCounts(s);
    case RecordDrop => CountSettled(s.ledger, s.batch + s.sh.queue, Dropped(false));
    case _ => QuietCounts(cfg, s, w);
  }

  lemma AttemptCounts(cfg: Config, s: State, fate: Store.Fate)
    requires Counts(s) && s.worker.Persisting?
    ensures Counts(TryPersist(cfg, s, fate))
  {
    CountCall(s.ledger, Store.Persist(s.batch, fate));
  }

  lemma LettersCount(cfg: Config, s: State, error: string, fate: Store.Fate)
    requires Counts(s) && s.worker.DeadLettering?
    ensures Counts(TryDeadLetters(cfg, s, error, fate))
  {
    CountCall(s.ledger, Store.DeadLetters(s.batch, error, cfg.maxAttempts, fate));
  }

  lemma SettleCounts(s: State)
    requires Counts(s) && s.worker.Settling?
    ensures Counts(SettleBatch(s))
  {
    CountSettled(s.ledger, s.batch, s.worker.outcome);
  }

  lemma QuietCounts(cfg: Config, s: State, w: WorkStep)
    requires Counts(s) && WorkEnabled(s, w) && !w.CallPersist? && !w.CallDeadLetters? && !w.Settle? && !w.RecordDrop?
    ensures Counts(WorkNext(cfg, s, w))
  {
    assert WorkNext(cfg, s, w).ledger == s.ledger && WorkNext(cfg, s, w).sh.metrics.retries == s.sh.metrics.retries;
  }

  lemma EnvKeepsCounts(cfg: Config, s: State, e: EnvStep)
    requires Counts(s) && EnvEnabled(s.sh, e)
    ensures Counts(s.(sh := EnvNext(cfg, s.sh, e)))
  {
  }

  lemma {:induction false} CountsExactly(cfg: Config, tables: Store.Tables, steps: seq<Step>)
    requires Legal(cfg, Init(tables), steps)
    ensures Counts(Run(cfg, Init(tables), steps))
    decreases |steps|
  {
    if steps != [] {
      CountsExactly(cfg, tables, Front(steps));
      match Last(steps)
      case Env(e) => EnvKeepsCounts(cfg, Run(cfg, Init(tables), Front(steps)), e);
      case Work(w) => WorkKeepsCounts(cfg, Run(cfg, Init(tables), Front(steps)), w);
    }
  }

  // ----- A healthy store loses nothing -----

  predicate AllValid(i: Intake) {
    && (forall e :: e in i.admitted ==> Store.ValidEvent(e))
    && (forall t :: t in i.enqueuers && IsUndecided(i.enqueuers[t]) ==> Store.ValidEvent(i.enqueuers[t].event))
  }

  lemma ValidAfter(cfg: Config, sh: Shared, e: EnvStep)
    requires AllValid(sh.intake) && EnvEnabled(sh, e)
    ensures AllValid(EnvNext(cfg, sh, e).intake)
  {
    var i, j := sh.intake, EnvNext(cfg, sh, e).intake;
    if IsThreadStep(e) {
      forall t | t in j.enqueuers && IsUndecided(j.enqueuers[t]) ensures Store.ValidEvent(j.enqueuers[t].event) {
        if e == Offer(t, j.enqueuers[t].event) {
          assert Store.ValidEvent(j.enqueuers[t].event);
        } else {
          ThreadKeepsEvent(cfg, sh, e, t);
        }
      }
      AdmittedValid(cfg, sh, e);
    } else {
      CloserStepFrame(cfg, sh, e);
    }
  }

  lemma AdmittedValid(cfg: Config, sh: Shared, e: EnvStep)
    requires AllValid(sh.intake) && EnvEnabled(sh, e) && IsThreadStep(e)
    ensures forall x :: x in EnvNext(cfg, sh, e).intake.admitted ==> Store.ValidEvent(x)
  {
    if e.Send? { assert IsUndecided(sh.intake.enqueuers[e.t]); }
  }

  /** No deadline passes, and the store confirms every batch. */
  predicate HealthyStep(step: Step) {
    match step
    case Env(e) => !e.Deadline?
    case Work(w) => w.CallPersist? ==> w.fate == Store.Confirmed
  }

  ghost predicate Healthy(s: State) {
    && AllValid(s.sh.intake)
    && (s.sh.cancelled ==> s.worker.Exited?)
    && s.ledger.dropped == [] && s.ledger.deadLettered == []
    && !s.worker.Backoff? && !s.worker.DeadLettering? && !s.worker.Dropping?
    && (s.worker.Settling? ==> s.worker.outcome.Persisted?)
  }

  lemma HealthyEnv(cfg: Config, s: State, e: EnvStep)
    requires Healthy(s) && EnvEnabled(s.sh, e) && !e.Deadline?
    ensures Healthy(s.(sh := EnvNext(cfg, s.sh, e)))
  {
    ValidAfter(cfg, s.sh, e);
    if IsThreadStep(e) { ThreadKeepsCancelled(cfg, s.sh, e); }
  }

  lemma HealthyWork(cfg: Config, s: State, w: WorkStep)
    requires Inv(cfg, s) && Healthy(s) && WorkEnabled(s, w) && HealthyStep(Work(w))
    ensures Healthy(WorkNext(cfg, s, w))
  {
    WorkFrame(cfg, s, w);
    if w.CallPersist? {
      BatchWasAdmitted(cfg, s);
      assert Store.Succeeds(Store.Persist(s.batch, w.fate));
    }
  }

  lemma {:induction false} StaysHealthy(cfg: Config, tables: Store.Tables, steps: seq<Step>)
    requires cfg.Valid() && Store.Consistent(tables) && Legal(cfg, Init(tables), steps)
    requires forall step :: step in steps ==> HealthyStep(step)
    ensures Healthy(Run(cfg, Init(tables), steps))
    decreases |steps|
  {
    if steps != [] {
      var before, step := Front(steps), Last(steps);
      assert step in steps && forall x :: x in before ==> x in steps;
      StaysHealthy(cfg, tables, before);
      InvFromInit(cfg, tables, before);
      match step
      case Env(e) => HealthyEnv(cfg, Run(cfg, Init(tables), before), e);
      case Work(w) => HealthyWork(cfg, Run(cfg, Init(tables), before), w);
    }
  }

  /**
   If the store confirms every batch and no deadline passes, nothing that was admitted is ever dropped or dead-lettered, and once the
   worker has ended every admitted event is persisted, once, and has its row.
   */
  lemma HealthyStoreLosesNothing(cfg: Config, tables: Store.Tables, steps: seq<Step>)
    requires cfg.Valid() && Store.Consistent(tables) && Legal(cfg, Init(tables), steps)
    requires forall step :: step in steps ==> HealthyStep(step)
    ensures var s := Run(cfg, Init(tables), steps);
            && s.ledger.dropped == [] && s.ledger.deadLettered == []
            && (s.worker.Exited? ==> multiset(s.ledger.persisted) == multiset(s.sh.intake.admitted) && HasRows(s.sh.tables, s.sh.intake.admitted))
  {
    StaysHealthy(cfg, tables, steps);
    InvFromInit(cfg, tables, steps);
    if Run(cfg, Init(tables), steps).worker.Exited? { AllPersisted(cfg, Run(cfg, Init(tables), steps)); }
  }

  lemma AllPersisted(cfg: Config, s: State)
    requires Flow(s) && Sorted(s.ledger) && HasRows(s.sh.tables, s.ledger.persisted) && s.worker.Exited?
    requires s.ledger.dropped == [] && s.ledger.deadLettered == []
    ensures multiset(s.ledger.persisted) == multiset(s.sh.intake.admitted) && HasRows(s.sh.tables, s.sh.intake.admitted)
  {
    var flat, stored := Flat(s.ledger.settled), s.ledger.persisted;
    assert s.sh.intake.admitted == flat;
    assert multiset(flat) == multiset(stored) + multiset([]) + multiset([]) == multiset(stored);
    forall e | e in s.sh.intake.admitted ensures e.id in s.sh.tables.events {
      assert e in multiset(flat);
      assert e in multiset(stored);
    }
  }
}
