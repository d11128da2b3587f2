/** No lost wakeup: a parked drain loop that has something to do is still owed a wake.  */
module ServeWakeSafety {
  import opened Common
  import opened ServeWake

  /** The loop has installed its waker and has not exited. */
  predicate Active(pc: LoopPc) {
    pc.InstallPeek? || pc.InstallDecide? || pc.PollGet? || pc.PollShutdown? || pc.PollLock?
    || pc.PollReceive? || pc.PollUnlock? || pc.Parking? || pc.Parked? || pc.Resumed?
  }

  /** The thread will still wake the loop of the current cycle. */
  predicate OwesWake(s: State, pc: Pc) {
    (pc.Waking? && pc.g == s.bound) || (pc.Posting? && pc.token == s.token) || (pc.CloseSet? && pc.g == s.bound)
  }

  ghost predicate Owed(s: State) {
    s.signal.pending || s.token in s.posted
    || exists t: nat :: t < |s.threads| && OwesWake(s, s.threads[t])
  }

  /** The bound queue, as the loop sees it. */
  predicate Stopping(s: State) {
    s.registry.None? || (s.bound < |s.queues| && s.queues[s.bound].shutdown)
  }

  predicate HasRequest(s: State) {
    s.bound < |s.queues| && s.queues[s.bound].items != []
  }

  predicate Base(s: State) {
    && (s.registry.Some? ==> s.registry.value == |s.queues| - 1)
    && LoopInRange(s, s.loop)
    && (forall t | 0 <= t < |s.threads| :: InRange(s, s.threads[t]))
    && (s.loop.InstallSet? ==> s.loop.g == |s.queues| - 1)
    && (Active(s.loop) ==>
          && |s.queues| > 0 && s.bound == |s.queues| - 1
          && s.queues[s.bound].waker == Some(s.token)
          && (LoopGeneration(s.loop) ==> s.loop.g == s.bound))
  }

  predicate LoopGeneration(pc: LoopPc) {
    pc.InstallPeek? || pc.InstallDecide? || pc.PollShutdown? || pc.PollLock? || pc.PollReceive? || pc.PollUnlock?
  }

  /** What is already owed at each point of the loop: each check the loop has passed
      may have become true behind its back only together with a wake.  */
  ghost predicate LoopOk(s: State) {
    && s.signal.parked == s.loop.Parked?
    && (s.loop.PollShutdown? ==> s.registry.None? ==> Owed(s))
    && (s.loop.PollLock? || s.loop.PollReceive? || s.loop.PollUnlock? || s.loop.Parking? || s.loop.Parked? ==>
          Stopping(s) ==> Owed(s))
    && ((s.loop.PollUnlock? && s.loop.result == NoRequest)
        || (s.loop.Parking? && !s.loop.contended) || (s.loop.Parked? && !s.loop.contended) ==>
          HasRequest(s) ==> Owed(s))
    && (s.loop.Parked? ==> !s.signal.pending)
  }

  ghost predicate Inv(s: State) {
    Base(s) && LoopOk(s)
  }

  // ── Native threads ──────────────────────────────────────────────────────────

  /** What no native action touches. */
  ghost predicate ThreadFrame(s: State, s': State, t: nat) {
    && |s'.threads| == |s.threads| && |s'.queues| == |s.queues|
    && s'.loop == s.loop && s'.bound == s.bound && s'.token == s.token && s'.signal == s.signal
    && (s'.registry == s.registry || s'.registry.None?)
    && (forall u | 0 <= u < |s.threads| && u != t :: s'.threads[u] == s.threads[u])
    && (forall g | 0 <= g < |s.queues| :: s'.queues[g].waker == s.queues[g].waker)
    && (forall g | 0 <= g < |s.queues| :: s.queues[g].shutdown ==> s'.queues[g].shutdown)
  }

  /** Actions that leave every queue alone. */
  predicate Neutral(pc: Pc) {
    !(pc.DeliverSend? || pc.StopSet? || pc.StopLock? || pc.StopDrain? || pc.StopUnlock? || pc.CloseSet?)
  }

  lemma NeutralStepFrames(s: State, t: nat)
    requires t < |s.threads| && InRange(s, s.threads[t]) && (s.registry.Some? ==> s.registry.value < |s.queues|)
    requires Neutral(s.threads[t])
    ensures ThreadFrame(s, ThreadStep(s, t), t) && ThreadStep(s, t).queues == s.queues
    ensures InRange(ThreadStep(s, t), ThreadStep(s, t).threads[t])
  {
    var s' := ThreadStep(s, t);
    assert s'.queues == s.queues && |s'.threads| == |s.threads|;
  }

  lemma QueueStepFrames(s: State, t: nat)
    requires t < |s.threads| && InRange(s, s.threads[t]) && !Neutral(s.threads[t])
    ensures ThreadFrame(s, ThreadStep(s, t), t)
    ensures InRange(ThreadStep(s, t), ThreadStep(s, t).threads[t])
  {
    var s' := ThreadStep(s, t);
    var g := s.threads[t].g;
    assert forall h | 0 <= h < |s.queues| && h != g :: s'.queues[h] == s.queues[h];
  }

  lemma ThreadStepFrames(s: State, t: nat)
    requires t < |s.threads| && InRange(s, s.threads[t]) && (s.registry.Some? ==> s.registry.value < |s.queues|)
    ensures ThreadFrame(s, ThreadStep(s, t), t)
    ensures InRange(ThreadStep(s, t), ThreadStep(s, t).threads[t])
  {
    if Neutral(s.threads[t]) { NeutralStepFrames(s, t); } else { QueueStepFrames(s, t); }
  }

  lemma FrameKeepsBase(s: State, s': State, t: nat)
    requires Base(s) && t < |s.threads| && ThreadFrame(s, s', t) && InRange(s', s'.threads[t])
    ensures Base(s')
  {
    forall u | 0 <= u < |s'.threads| ensures InRange(s', s'.threads[u]) {
      if u != t { assert InRange(s, s.threads[u]); }
    }
  }

  lemma ThreadKeepsBase(s: State, t: nat)
    requires Base(s) && t < |s.threads|
    ensures Base(ThreadStep(s, t))
  {
    ThreadStepFrames(s, t);
    FrameKeepsBase(s, ThreadStep(s, t), t);
  }

  lemma ThreadKeepsOwed(s: State, t: nat)
    requires Base(s) && t < |s.threads| && Active(s.loop) && Owed(s)
    ensures Owed(ThreadStep(s, t))
  {
    var s' := ThreadStep(s, t);
    if !(s.signal.pending || s.token in s.posted) {
      var u: nat :| u < |s.threads| && OwesWake(s, s.threads[u]);
      assert OwesWake(s', s'.threads[u]) || s.token in s'.posted;
    }
  }

  /** Whatever gives the loop something to do puts the acting thread before its wake. */
  lemma ThreadNewsIsOwed(s: State, t: nat)
    requires Base(s) && t < |s.threads| && Active(s.loop)
    ensures ThreadStep(s, t).registry.None? ==> s.registry.None? || Owed(ThreadStep(s, t))
    ensures Stopping(ThreadStep(s, t)) ==> Stopping(s) || Owed(ThreadStep(s, t))
    ensures HasRequest(ThreadStep(s, t)) ==> HasRequest(s) || Owed(ThreadStep(s, t))
  {
    var s' := ThreadStep(s, t);
    if (s.threads[t].DeliverSend? && s'.threads[t].Waking?) || s.threads[t].StopSet? || s.threads[t].CloseSet? || s.threads[t].CloseRemove? {
      if s.threads[t].CloseRemove? {
        assert s.registry.Some? ==> OwesWake(s', s'.threads[t]);
      } else if s.threads[t].g == s.bound {
        assert OwesWake(s', s'.threads[t]);
      }
    }
  }

  lemma ThreadKeepsInv(s: State, t: nat)
    requires Inv(s) && t < |s.threads|
    ensures Inv(ThreadStep(s, t))
  {
    ThreadKeepsBase(s, t);
    var s' := ThreadStep(s, t);
    assert s'.loop == s.loop && s'.signal == s.signal;
    if Active(s.loop) {
      ThreadNewsIsOwed(s, t);
      if Owed(s) { ThreadKeepsOwed(s, t); }
    }
  }

  // ── The loop, the event loop and the cycle ──────────────────────────────────

  lemma SameOwed(s: State, s': State)
    requires Owed(s)
    requires s'.threads == s.threads && s'.bound == s.bound && s'.token == s.token
    requires s.token in s.posted ==> s'.token in s'.posted
    requires s.signal.pending ==> s'.signal.pending
    ensures Owed(s')
  {
    if !(s.signal.pending || s.token in s.posted) {
      var u: nat :| u < |s.threads| && OwesWake(s, s.threads[u]);
      assert OwesWake(s', s'.threads[u]);
    }
  }

  lemma LoopKeepsBase(s: State, fit: PollResult)
    requires Base(s)
    ensures Base(LoopStep(s, fit))
  {
    var s' := LoopStep(s, fit);
    assert s'.threads == s.threads && |s'.queues| == |s.queues| && s'.registry == s.registry;
    forall u | 0 <= u < |s'.threads| ensures InRange(s', s'.threads[u]) {
      assert InRange(s, s.threads[u]);
    }
  }

  lemma PollingKeepsOk(s: State, fit: PollResult)
    requires Inv(s)
    requires s.loop.PollGet? || s.loop.PollShutdown? || s.loop.PollLock? || s.loop.PollReceive? || s.loop.PollUnlock?
    ensures LoopOk(LoopStep(s, fit))
  {
    var s' := LoopStep(s, fit);
    assert s'.threads == s.threads && s'.token == s.token && s'.registry == s.registry;
    if Owed(s) { SameOwed(s, s'); }
  }

  lemma WaitingKeepsOk(s: State, fit: PollResult)
    requires Inv(s)
    requires !(s.loop.PollGet? || s.loop.PollShutdown? || s.loop.PollLock? || s.loop.PollReceive? || s.loop.PollUnlock?)
    ensures LoopOk(LoopStep(s, fit))
  {
    var s' := LoopStep(s, fit);
    assert s'.threads == s.threads && s'.token == s.token && s'.registry == s.registry;
    if Active(s.loop) && Owed(s) && !(s.loop.Parking? && s.signal.pending) { SameOwed(s, s'); }
  }

  lemma LoopKeepsInv(s: State, fit: PollResult)
    requires Inv(s)
    ensures Inv(LoopStep(s, fit))
  {
    LoopKeepsBase(s, fit);
    if s.loop.PollGet? || s.loop.PollShutdown? || s.loop.PollLock? || s.loop.PollReceive? || s.loop.PollUnlock? {
      PollingKeepsOk(s, fit);
    } else {
      WaitingKeepsOk(s, fit);
    }
  }

  lemma SpawnKeepsInv(s: State, pc: Pc)
    requires Inv(s) && (pc.DeliverGet? || pc.StopGet? || pc.CloseRemove?)
    ensures Inv(s.(threads := s.threads + [pc]))
  {
    var s' := s.(threads := s.threads + [pc]);
    if Owed(s) && !(s.signal.pending || s.token in s.posted) {
      var u: nat :| u < |s.threads| && OwesWake(s, s.threads[u]);
      assert OwesWake(s', s'.threads[u]);
    }
  }

  lemma CallbackKeepsInv(s: State, token: nat)
    requires Inv(s)
    ensures Inv(Step(s, RunCallback(token)))
  {
    var s' := Step(s, RunCallback(token));
    if s.loop.Parked? && token != s.token && Owed(s) { SameOwed(s, s'); }
  }

  lemma StepKeepsInv(s: State, l: Label)
    requires Inv(s)
    ensures Inv(Step(s, l))
  {
    match l
    case SpawnDeliver => SpawnKeepsInv(s, DeliverGet);
    case SpawnStop => SpawnKeepsInv(s, StopGet);
    case SpawnClose => SpawnKeepsInv(s, CloseRemove);
    case Tick(t) => if t < |s.threads| { ThreadKeepsInv(s, t); }
    case LoopTick(fit) => LoopKeepsInv(s, fit);
    case RunCallback(token) => CallbackKeepsInv(s, token);
    case NativeRegister =>
      var s' := Step(s, l);
      assert forall t | 0 <= t < |s'.threads| :: InRange(s', s'.threads[t]);
    case _ =>
  }

  lemma {:induction false} RunKeepsInv(s: State, labels: seq<Label>)
    requires Inv(s)
    ensures Inv(Run(s, labels))
    decreases |labels|
  {
    if labels != [] {
      StepKeepsInv(s, labels[0]);
      RunKeepsInv(Step(s, labels[0]), labels[1..]);
    }
  }

  // ── No stop between its lookups when a queue is registered ──────────────────

  /** `stop_serve` looks its queue up twice: to shut it down, and to drain it. */
  predicate BetweenLookups(pc: Pc) {
    pc.StopSet? || pc.StopReget? || ((pc.Waking? || pc.Posting?) && pc.job == StopJob)
  }

  predicate NoStopBetween(s: State) {
    forall t | 0 <= t < |s.threads| :: !BetweenLookups(s.threads[t])
  }

  /** No stop stood between its two lookups when the run last registered a queue; `was` says so
      for the registration before the run.  */
  predicate LastRegisterClear(s: State, labels: seq<Label>, was: bool)
    decreases |labels|
  {
    if labels == [] then was
    else LastRegisterClear(Step(s, labels[0]), labels[1..], if Registers(s, labels[0]) then NoStopBetween(s) else was)
  }

  predicate Registers(s: State, l: Label) {
    l.NativeRegister? && s.loop.Starting?
  }

  predicate HoldsRx(pc: Pc) {
    pc.StopDrain? || pc.StopUnlock?
  }

  predicate IsStop(pc: Pc) {
    pc.StopLock? || HoldsRx(pc) || BetweenLookups(pc)
  }

  /** A stop drains the newest queue only if that is shut down. */
  predicate StopClean(s: State, pc: Pc) {
    IsStop(pc) ==>
      && (pc.StopLock? || HoldsRx(pc) ==> pc.g + 1 == |s.queues| ==> s.queues[pc.g].shutdown)
      && (pc.StopSet? ==> pc.g == |s.queues| - 1)
      && (pc.Waking? || pc.Posting? || pc.StopReget? ==> s.registry.Some? ==>
            s.registry.value < |s.queues| && s.queues[s.registry.value].shutdown)
  }

  predicate RxOk(s: State, g: nat)
    requires g < |s.queues|
  {
    && (s.queues[g].rx == Some(Loop) ==> (s.loop.PollReceive? || s.loop.PollUnlock?) && s.loop.g == g)
    && (s.queues[g].rx.Some? && s.queues[g].rx.value.Thread? ==>
          var t := s.queues[g].rx.value.id;
          t < |s.threads| && HoldsRx(s.threads[t]) && s.threads[t].g == g)
  }

  ghost predicate RxInv(s: State) {
    forall g: nat | g < |s.queues| :: RxOk(s, g)
  }

  ghost predicate Clean(s: State) {
    && (forall t | 0 <= t < |s.threads| :: StopClean(s, s.threads[t]))
    && !(s.loop.Parking? && s.loop.contended) && !(s.loop.Parked? && s.loop.contended)
  }

  lemma SameRxKeepsRx(s: State, s': State, t: nat)
    requires RxInv(s) && t < |s.threads| && ThreadFrame(s, s', t)
    requires forall g: nat | g < |s.queues| :: s'.queues[g].rx == s.queues[g].rx
    requires HoldsRx(s.threads[t]) ==> HoldsRx(s'.threads[t]) && s'.threads[t].g == s.threads[t].g
    ensures RxInv(s')
  {
    forall g: nat | g < |s'.queues| ensures RxOk(s', g) {
      assert RxOk(s, g);
    }
  }

  lemma ThreadKeepsRx(s: State, t: nat)
    requires Inv(s) && RxInv(s) && t < |s.threads|
    ensures RxInv(ThreadStep(s, t))
  {
    ThreadStepFrames(s, t);
    var s' := ThreadStep(s, t);
    if s.threads[t].StopLock? || s.threads[t].StopUnlock? {
      forall g: nat | g < |s.queues| ensures RxOk(s', g) {
        assert RxOk(s, g);
      }
    } else {
      SameRxKeepsRx(s, s', t);
    }
  }

  lemma FrameKeepsStopClean(s: State, s': State, t: nat, u: nat)
    requires t < |s.threads| && u < |s.threads| && u != t && ThreadFrame(s, s', t) && StopClean(s, s.threads[u])
    ensures StopClean(s', s'.threads[u])
  {
  }

  lemma SeekingKeepsOwnStop(s: State, t: nat)
    requires t < |s.threads| && InRange(s, s.threads[t]) && (s.registry.Some? ==> s.registry.value == |s.queues| - 1)
    requires s.threads[t].StopGet? || s.threads[t].StopSet? || s.threads[t].StopReget? || s.threads[t].Waking? || s.threads[t].Posting?
    requires StopClean(s, s.threads[t])
    ensures StopClean(ThreadStep(s, t), ThreadStep(s, t).threads[t])
  {
  }

  lemma ThreadKeepsOwnStop(s: State, t: nat)
    requires t < |s.threads| && InRange(s, s.threads[t]) && (s.registry.Some? ==> s.registry.value == |s.queues| - 1)
    requires StopClean(s, s.threads[t])
    ensures StopClean(ThreadStep(s, t), ThreadStep(s, t).threads[t])
  {
    var pc := s.threads[t];
    if pc.StopGet? || pc.StopSet? || pc.StopReget? || pc.Waking? || pc.Posting? {
      SeekingKeepsOwnStop(s, t);
    }
  }

  lemma ThreadKeepsClean(s: State, t: nat)
    requires Inv(s) && Clean(s) && t < |s.threads|
    ensures Clean(ThreadStep(s, t))
  {
    ThreadStepFrames(s, t);
    ThreadKeepsOwnStop(s, t);
    var s' := ThreadStep(s, t);
    forall u: nat | u < |s'.threads| ensures StopClean(s', s'.threads[u]) {
      if u != t { FrameKeepsStopClean(s, s', t, u); }
    }
  }

  /** Only a draining stop can hold the receiver against the loop, and its queue is
      shut down.  */
  lemma RefusedLockIsShutDown(s: State)
    requires Inv(s) && RxInv(s) && Clean(s) && s.loop.PollLock? && s.queues[s.loop.g].rx.Some?
    ensures s.queues[s.loop.g].shutdown
  {
    assert RxOk(s, s.loop.g);
    assert StopClean(s, s.threads[s.queues[s.loop.g].rx.value.id]);
  }

  /** What the loop's own actions never touch. */
  ghost predicate LoopFrame(s: State, s': State) {
    && s'.threads == s.threads && s'.registry == s.registry && |s'.queues| == |s.queues|
    && (forall g | 0 <= g < |s.queues| :: s'.queues[g].shutdown == s.queues[g].shutdown)
  }

  lemma LoopStepFrames(s: State, fit: PollResult)
    requires LoopInRange(s, s.loop)
    ensures LoopFrame(s, LoopStep(s, fit))
  {
  }

  lemma LoopFrameKeepsStopClean(s: State, s': State)
    requires LoopFrame(s, s') && forall u | 0 <= u < |s.threads| :: StopClean(s, s.threads[u])
    ensures forall u | 0 <= u < |s'.threads| :: StopClean(s', s'.threads[u])
  {
  }

  lemma LoopKeepsClean(s: State, fit: PollResult)
    requires Inv(s) && RxInv(s) && Clean(s)
    ensures Clean(LoopStep(s, fit))
  {
    LoopStepFrames(s, fit);
    LoopFrameKeepsStopClean(s, LoopStep(s, fit));
    if s.loop.PollLock? && s.queues[s.loop.g].rx.Some? { RefusedLockIsShutDown(s); }
  }

  lemma LoopKeepsRx(s: State, fit: PollResult)
    requires Inv(s) && RxInv(s)
    ensures RxInv(LoopStep(s, fit))
  {
    forall g: nat | g < |s.queues| ensures RxOk(LoopStep(s, fit), g) {
      assert RxOk(s, g);
    }
  }

  lemma OtherStepKeepsRx(s: State, l: Label)
    requires RxInv(s) && !l.Tick? && !l.LoopTick?
    ensures RxInv(Step(s, l))
  {
    var s' := Step(s, l);
    forall g: nat | g < |s'.queues| ensures RxOk(s', g) {
      if g < |s.queues| { assert RxOk(s, g); }
    }
  }

  lemma StepKeepsRx(s: State, l: Label)
    requires Inv(s) && RxInv(s)
    ensures RxInv(Step(s, l))
  {
    if l.Tick? {
      if l.thread < |s.threads| { ThreadKeepsRx(s, l.thread); }
    } else if l.LoopTick? {
      LoopKeepsRx(s, l.fit);
    } else {
      OtherStepKeepsRx(s, l);
    }
  }

  /** A registration with no stop between its lookups starts a clean generation, whatever the
      earlier ones went through.  */
  lemma RegisterIsClean(s: State)
    requires Inv(s) && s.loop.Starting? && NoStopBetween(s)
    ensures Clean(Step(s, NativeRegister))
  {
    var s' := Step(s, NativeRegister);
    forall u | 0 <= u < |s'.threads| ensures StopClean(s', s'.threads[u]) {
      assert !BetweenLookups(s.threads[u]) && InRange(s, s.threads[u]);
    }
  }

  lemma OtherStepKeepsClean(s: State, l: Label)
    requires Inv(s) && Clean(s) && !l.Tick? && !l.LoopTick? && !Registers(s, l)
    ensures Clean(Step(s, l))
  {
    var s' := Step(s, l);
    forall u | 0 <= u < |s'.threads| ensures StopClean(s', s'.threads[u]) {
      if u < |s.threads| { assert StopClean(s, s.threads[u]); }
    }
  }

  lemma StepKeepsClean(s: State, l: Label)
    requires Inv(s) && RxInv(s) && Clean(s) && !Registers(s, l)
    ensures Clean(Step(s, l))
  {
    if l.Tick? {
      if l.thread < |s.threads| { ThreadKeepsClean(s, l.thread); }
    } else if l.LoopTick? {
      LoopKeepsClean(s, l.fit);
    } else {
      OtherStepKeepsClean(s, l);
    }
  }

  lemma {:induction false} RunKeepsClean(s: State, labels: seq<Label>, was: bool)
    requires Inv(s) && RxInv(s) && (was ==> Clean(s))
    ensures LastRegisterClear(s, labels, was) ==> Clean(Run(s, labels))
    decreases |labels|
  {
    if labels != [] {
      var l := labels[0];
      var now := if Registers(s, l) then NoStopBetween(s) else was;
      StepKeepsInv(s, l);
      StepKeepsRx(s, l);
      if Registers(s, l) {
        if now { RegisterIsClean(s); }
      } else if was {
        StepKeepsClean(s, l);
      }
      RunKeepsClean(Step(s, l), labels[1..], now);
    }
  }

  /** A callback of this cycle is posted, or a thread is about to post one. */
  ghost predicate WakeIsComing(s: State) {
    s.token in s.posted || exists t: nat :: t < |s.threads| && OwesWake(s, s.threads[t])
  }

  /** No lost wakeup.  A loop parked in `wait()` whose queue was shut down or removed always
      has a wake coming.  So has one whose queue holds a request, if no stop stood between its
      two lookups when that queue was registered.  */
  lemma NoLostWakeup(labels: seq<Label>)
    requires Run(Init(), labels).loop.Parked?
    ensures Stopping(Run(Init(), labels)) ==> WakeIsComing(Run(Init(), labels))
    ensures HasRequest(Run(Init(), labels)) && LastRegisterClear(Init(), labels, true) ==> WakeIsComing(Run(Init(), labels))
  {
    RunKeepsInv(Init(), labels);
    RunKeepsClean(Init(), labels, true);
  }

  // ── Cycles that await their stops ───────────────────────────────────────────

  predicate StopInFlight(pc: Pc) {
    pc.StopGet? || IsStop(pc)
  }

  predicate NoStopInFlight(s: State) {
    forall t | 0 <= t < |s.threads| :: !StopInFlight(s.threads[t])
  }

  /** Every stop is issued while its cycle runs, and the cycle finishes only after its stops. */
  predicate AwaitsStops(s: State, labels: seq<Label>)
    decreases |labels|
  {
    labels != [] ==>
    && (labels[0].FinishCycle? && s.loop.Exited? ==> NoStopInFlight(s))
    && (labels[0].SpawnStop? ==> !s.loop.Idle?)
    && AwaitsStops(Step(s, labels[0]), labels[1..])
  }

  /** A thread that is no stop does not become one. */
  lemma TickKeepsStopsAway(s: State, t: nat)
    requires Base(s) && t < |s.threads| && NoStopInFlight(s)
    ensures NoStopInFlight(ThreadStep(s, t))
  {
    ThreadStepFrames(s, t);
    assert !StopInFlight(s.threads[t]);
    forall u | 0 <= u < |s.threads| ensures !StopInFlight(ThreadStep(s, t).threads[u]) {
      if u != t { assert !StopInFlight(s.threads[u]); }
    }
  }

  lemma LoopNeverRestarts(s: State, fit: PollResult)
    requires LoopInRange(s, s.loop) && !s.loop.Idle? && !s.loop.Starting?
    ensures !LoopStep(s, fit).loop.Idle? && !LoopStep(s, fit).loop.Starting?
  {
  }

  predicate BeforeCycle(pc: LoopPc) {
    pc.Idle? || pc.Starting?
  }

  lemma StepKeepsStopsAway(s: State, l: Label)
    requires Inv(s) && (BeforeCycle(s.loop) ==> NoStopInFlight(s))
    requires l.FinishCycle? && s.loop.Exited? ==> NoStopInFlight(s)
    requires l.SpawnStop? ==> !s.loop.Idle?
    ensures BeforeCycle(Step(s, l).loop) ==> NoStopInFlight(Step(s, l))
  {
    if l.Tick? {
      if l.thread < |s.threads| && BeforeCycle(s.loop) { TickKeepsStopsAway(s, l.thread); }
    } else if l.LoopTick? {
      if !BeforeCycle(s.loop) { LoopNeverRestarts(s, l.fit); }
    } else if BeforeCycle(Step(s, l).loop) {
      var s' := Step(s, l);
      assert s'.threads == s.threads || s'.threads == s.threads + [DeliverGet] || s'.threads == s.threads + [CloseRemove];
    }
  }

  lemma {:induction false} AwaitedStopsAreClear(s: State, labels: seq<Label>)
    requires Inv(s) && (BeforeCycle(s.loop) ==> NoStopInFlight(s)) && AwaitsStops(s, labels)
    ensures LastRegisterClear(s, labels, true)
    decreases |labels|
  {
    if labels != [] {
      StepKeepsInv(s, labels[0]);
      StepKeepsStopsAway(s, labels[0]);
      AwaitedStopsAreClear(Step(s, labels[0]), labels[1..]);
    }
  }

  /** When every cycle awaits its stops, no wakeup is ever lost. */
  lemma NoLostWakeupWithinCycles(labels: seq<Label>)
    requires AwaitsStops(Init(), labels) && Run(Init(), labels).loop.Parked?
    requires Stopping(Run(Init(), labels)) || HasRequest(Run(Init(), labels))
    ensures WakeIsComing(Run(Init(), labels))
  {
    AwaitedStopsAreClear(Init(), labels);
    NoLostWakeup(labels);
  }

  /** An owed wake is delivered by at most four actions of the threads that owe it. */
  lemma OwedWakeArrives(s: State) returns (labels: seq<Label>)
    requires Inv(s) && s.loop.Parked? && Owed(s)
    ensures |labels| <= 4 && (forall l | l in labels :: l.Tick? || l.RunCallback?)
    ensures Run(s, labels).loop.Resumed?
  {
    if s.token in s.posted {
      labels := [RunCallback(s.token)];
      assert Run(s, labels) == Run(Step(s, labels[0]), []);
    } else {
      var t: nat :| t < |s.threads| && OwesWake(s, s.threads[t]);
      labels := DeliverFrom(s, t);
    }
  }

  lemma DeliverFrom(s: State, t: nat) returns (labels: seq<Label>)
    requires Inv(s) && s.loop.Parked? && t < |s.threads| && OwesWake(s, s.threads[t])
    ensures |labels| <= 4 && (forall l | l in labels :: l.Tick? || l.RunCallback?)
    ensures |labels| <= if s.threads[t].Posting? then 2 else if s.threads[t].Waking? then 3 else 4
    ensures Run(s, labels).loop.Resumed?
    decreases if s.threads[t].Posting? then 0 else if s.threads[t].Waking? then 1 else 2
  {
    var s' := Step(s, Tick(t));
    StepKeepsInv(s, Tick(t));
    if s.threads[t].Posting? {
      labels := [Tick(t), RunCallback(s.token)];
      assert labels[1..] == [RunCallback(s.token)];
      assert [RunCallback(s.token)][1..] == [];
      assert Run(s, labels) == Run(Step(s', RunCallback(s.token)), []);
    } else {
      var rest := DeliverFrom(s', t);
      labels := [Tick(t)] + rest;
      assert labels[1..] == rest;
    }
  }
}
