/** What a stop that stands between its two lookups at a registration can do: from every
    such state the loop can come to park beside a request nobody will announce.  */
module ServeWakeLoss {
  import opened Common
  import opened ServeSignal
  import opened ServeWake
  import opened ServeWakeSafety

  // ── Tokens are fresh ────────────────────────────────────────────────────────

  predicate PcTokenBelow(pc: Pc, n: nat) {
    pc.Posting? ==> pc.token < n
  }

  predicate WakerBelow(q: Generation, n: nat) {
    q.waker.Some? ==> q.waker.value < n
  }

  predicate TokensBelow(s: State, n: nat) {
    && (forall token | token in s.posted :: token < n)
    && (forall g | 0 <= g < |s.queues| :: WakerBelow(s.queues[g], n))
    && (forall t | 0 <= t < |s.threads| :: PcTokenBelow(s.threads[t], n))
  }

  /** Until its loop installs the waker, nothing carries the token of a new cycle. */
  predicate TokensOk(s: State) {
    TokensBelow(s, if s.loop.Starting? then s.token else s.token + 1)
  }

  lemma ThreadKeepsTokens(s: State, t: nat, n: nat)
    requires Base(s) && t < |s.threads| && TokensBelow(s, n)
    ensures TokensBelow(ThreadStep(s, t), n)
  {
    var s' := ThreadStep(s, t);
    ThreadStepFrames(s, t);
    forall g | 0 <= g < |s'.queues| ensures WakerBelow(s'.queues[g], n) {
      assert WakerBelow(s.queues[g], n);
    }
    forall u | 0 <= u < |s'.threads| ensures PcTokenBelow(s'.threads[u], n) {
      assert PcTokenBelow(s.threads[u], n);
      if u == t && s.threads[t].Waking? { assert WakerBelow(s.queues[s.threads[t].g], n); }
    }
  }

  lemma LoopKeepsTokens(s: State, fit: PollResult)
    requires Base(s) && TokensOk(s)
    ensures TokensOk(LoopStep(s, fit))
  {
    var s' := LoopStep(s, fit);
    LoopStepFrames(s, fit);
    forall g | 0 <= g < |s'.queues| ensures WakerBelow(s'.queues[g], s.token + 1) {
      assert WakerBelow(s.queues[g], s.token + 1);
    }
  }

  lemma StepKeepsTokens(s: State, l: Label)
    requires Inv(s) && TokensOk(s)
    ensures TokensOk(Step(s, l))
  {
    if l.Tick? {
      if l.thread < |s.threads| { ThreadKeepsTokens(s, l.thread, if s.loop.Starting? then s.token else s.token + 1); }
    } else if l.LoopTick? {
      LoopKeepsTokens(s, l.fit);
    } else {
      OtherKeepsTokens(s, l);
    }
  }

  lemma SpawnKeepsTokens(s: State, s': State, n: nat)
    requires TokensBelow(s, n) && s'.posted == s.posted && s'.queues == s.queues && s.threads <= s'.threads
    requires forall u | |s.threads| <= u < |s'.threads| :: !s'.threads[u].Posting?
    ensures TokensBelow(s', n)
  {
    forall u | 0 <= u < |s'.threads| ensures PcTokenBelow(s'.threads[u], n) {
      if u < |s.threads| { assert PcTokenBelow(s.threads[u], n); }
    }
  }

  lemma OtherKeepsTokens(s: State, l: Label)
    requires TokensOk(s) && !l.Tick? && !l.LoopTick?
    ensures TokensOk(Step(s, l))
  {
    var s', n := Step(s, l), if s.loop.Starting? then s.token else s.token + 1;
    if l.SpawnDeliver? || l.SpawnStop? || l.SpawnClose? {
      SpawnKeepsTokens(s, s', n);
    } else if l.NativeRegister? {
      forall g | 0 <= g < |s'.queues| ensures WakerBelow(s'.queues[g], s.token + 1) {
        if g < |s.queues| { assert WakerBelow(s.queues[g], n); }
      }
    } else {
      assert s'.threads == s.threads && s'.queues == s.queues && s'.posted <= s.posted;
    }
  }

  lemma {:induction false} RunKeepsTokens(s: State, labels: seq<Label>)
    requires Inv(s) && TokensOk(s)
    ensures Inv(Run(s, labels)) && TokensOk(Run(s, labels))
    decreases |labels|
  {
    if labels != [] {
      StepKeepsInv(s, labels[0]);
      StepKeepsTokens(s, labels[0]);
      RunKeepsTokens(Step(s, labels[0]), labels[1..]);
    }
  }

  // ── Reaching ────────────────────────────────────────────────────────────────

  ghost predicate Reaches(a: State, b: State) {
    exists labels :: Run(a, labels) == b
  }

  lemma {:induction false} RunSplits(s: State, first: seq<Label>, second: seq<Label>)
    ensures Run(s, first + second) == Run(Run(s, first), second)
    decreases |first|
  {
    if first == [] {
      assert first + second == second;
    } else {
      assert (first + second)[0] == first[0] && (first + second)[1..] == first[1..] + second;
      RunSplits(Step(s, first[0]), first[1..], second);
    }
  }

  /** One more action. */
  lemma Then(a: State, s: State, l: Label, s': State)
    requires Reaches(a, s) && Step(s, l) == s'
    ensures Reaches(a, s')
  {
    var labels :| Run(a, labels) == s;
    RunSplits(a, labels, [l]);
    assert [l][1..] == [];
    assert Run(s, [l]) == Run(Step(s, l), []);
    assert Run(a, labels + [l]) == s';
  }

  // ── The losing continuation ─────────────────────────────────────────────────

  const Turn := LoopTick(GotRequest)

  /** The cycle of `s` with its queue `q` registered and bound to the loop. */
  function Scene(s: State, q: Generation, posted: multiset<nat>, threads: seq<Pc>, loop: LoopPc, signal: Signal): State {
    State(Some(|s.queues|), s.queues + [q], posted, threads, loop, |s.queues|, s.token, signal)
  }

  function Holding(s: State, items: seq<nat>, rx: Option<Owner>): Generation {
    Generation(items, false, Some(s.token), rx, items, [])
  }

  /** A new cycle whose registration finds a stop between its lookups. */
  ghost predicate Caught(s: State, t: nat) {
    && Inv(s) && TokensOk(s) && s.loop.Starting? && t < |s.threads| && s.threads[t].StopReget?
  }

  lemma QueueIsRegistered(s: State, t: nat)
    requires Caught(s, t)
    ensures Reaches(s, Scene(s, Holding(s, [], None), s.posted, s.threads, PollGet(false), s.signal))
  {
    var n := |s.queues|;
    var s0 := s.(loop := Started, registry := Some(n), queues := s.queues + [Generation([], false, None, None, [], [])]);
    assert Run(s, []) == s;
    Then(s, s, NativeRegister, s0);
    Then(s, s0, Turn, s0.(loop := InstallGet));
    Then(s, s0.(loop := InstallGet), Turn, s0.(loop := InstallSet(n)));
    var s1 := Scene(s, Holding(s, [], None), s.posted, s.threads, InstallPeek(n), s.signal);
    assert s0.queues[n := Holding(s, [], None)] == s1.queues;
    Then(s, s0.(loop := InstallSet(n)), Turn, s1);
    Then(s, s1, Turn, s1.(loop := InstallDecide(n, false)));
    Then(s, s1.(loop := InstallDecide(n, false)), Turn, s1.(loop := PollGet(false)));
  }

  /** The stop finds the new queue and holds its receiver, without having shut it down. */
  lemma StopHoldsReceiver(s: State, t: nat)
    requires Caught(s, t)
    ensures Reaches(s, Scene(s, Holding(s, [], Some(Thread(t))), s.posted, s.threads[t := StopUnlock(|s.queues|)], PollGet(false), s.signal))
  {
    var n := |s.queues|;
    QueueIsRegistered(s, t);
    var s0 := Scene(s, Holding(s, [], None), s.posted, s.threads, PollGet(false), s.signal);
    var s1 := s0.(threads := s.threads[t := StopLock(n)]);
    Then(s, s0, Tick(t), s1);
    var s2 := Scene(s, Holding(s, [], Some(Thread(t))), s.posted, s.threads[t := StopDrain(n)], PollGet(false), s.signal);
    assert s1.queues[n := Holding(s, [], Some(Thread(t)))] == s2.queues && s1.threads[t := StopDrain(n)] == s2.threads;
    Then(s, s1, Tick(t), s2);
    assert s2.threads[t := StopUnlock(n)] == s.threads[t := StopUnlock(n)];
    Then(s, s2, Tick(t), s2.(threads := s.threads[t := StopUnlock(n)]));
  }

  /** The stop holds the receiver, and request `d` is queued behind it. */
  function Blocked(s: State, t: nat, posted: multiset<nat>, loop: LoopPc, signal: Signal): State
    requires t < |s.threads|
  {
    var n, d := |s.queues|, |s.threads|;
    Scene(s, Holding(s, [d], Some(Thread(t))), posted, s.threads[t := StopUnlock(n)] + [Accepted(n)], loop, signal)
  }

  lemma RequestLooksUp(s: State, t: nat)
    requires Caught(s, t)
    ensures var n := |s.queues|;
            Reaches(s, Scene(s, Holding(s, [], Some(Thread(t))), s.posted,
                             s.threads[t := StopUnlock(n)] + [DeliverSend(n)], PollGet(false), s.signal))
  {
    var n, d := |s.queues|, |s.threads|;
    StopHoldsReceiver(s, t);
    var threads := s.threads[t := StopUnlock(n)];
    var s0 := Scene(s, Holding(s, [], Some(Thread(t))), s.posted, threads, PollGet(false), s.signal);
    Then(s, s0, SpawnDeliver, s0.(threads := threads + [DeliverGet]));
    assert (threads + [DeliverGet])[d := DeliverCheck(n)] == threads + [DeliverCheck(n)];
    Then(s, s0.(threads := threads + [DeliverGet]), Tick(d), s0.(threads := threads + [DeliverCheck(n)]));
    assert (threads + [DeliverCheck(n)])[d := DeliverSend(n)] == threads + [DeliverSend(n)];
    Then(s, s0.(threads := threads + [DeliverCheck(n)]), Tick(d), s0.(threads := threads + [DeliverSend(n)]));
  }

  lemma RequestArrives(s: State, t: nat)
    requires Caught(s, t)
    ensures Reaches(s, Blocked(s, t, s.posted + multiset{s.token}, PollGet(false), s.signal))
  {
    var n, d := |s.queues|, |s.threads|;
    RequestLooksUp(s, t);
    var threads := s.threads[t := StopUnlock(n)];
    var s0 := Scene(s, Holding(s, [], Some(Thread(t))), s.posted, threads + [DeliverSend(n)], PollGet(false), s.signal);
    var s1 := Scene(s, Holding(s, [d], Some(Thread(t))), s.posted, threads + [Waking(n, DeliverJob)], PollGet(false), s.signal);
    assert [] + [d] == [d];
    assert s0.queues[n := Holding(s, [d], Some(Thread(t)))] == s1.queues && s0.threads[d := Waking(n, DeliverJob)] == s1.threads;
    Then(s, s0, Tick(d), s1);
    var s2 := s1.(threads := threads + [Posting(n, s.token, DeliverJob)]);
    assert s1.threads[d := Posting(n, s.token, DeliverJob)] == s2.threads;
    Then(s, s1, Tick(d), s2);
    var s3 := Blocked(s, t, s.posted + multiset{s.token}, PollGet(false), s.signal);
    assert s2.threads[d := Accepted(n)] == s3.threads;
    Then(s, s2, Tick(d), s3);
  }

  /** The loop polls, is refused the receiver, and is about to park. */
  lemma PollIsRefused(s: State, t: nat, posted: multiset<nat>, signal: Signal)
    requires Caught(s, t) && Reaches(s, Blocked(s, t, posted, PollGet(false), signal))
    ensures Reaches(s, Blocked(s, t, posted, Parking(true), signal))
  {
    var n := |s.queues|;
    var s0 := Blocked(s, t, posted, PollGet(false), signal);
    Then(s, s0, Turn, s0.(loop := PollShutdown(n, false)));
    Then(s, s0.(loop := PollShutdown(n, false)), Turn, s0.(loop := PollLock(n, false)));
    Then(s, s0.(loop := PollLock(n, false)), Turn, s0.(loop := Parking(true)));
  }

  /** A wake that is still pending is spent on one more poll. */
  lemma LoopParks(s: State, t: nat, posted: multiset<nat>, signal: Signal)
    requires Caught(s, t) && !signal.parked && Reaches(s, Blocked(s, t, posted, PollGet(false), signal))
    ensures Reaches(s, Blocked(s, t, posted, Parked(true), Signal(false, true)))
  {
    PollIsRefused(s, t, posted, signal);
    var quiet := Signal(false, false);
    if signal.pending {
      Then(s, Blocked(s, t, posted, Parking(true), signal), Turn, Blocked(s, t, posted, Resumed, quiet));
      Then(s, Blocked(s, t, posted, Resumed, quiet), Turn, Blocked(s, t, posted, PollGet(false), quiet));
      PollIsRefused(s, t, posted, quiet);
    }
    Then(s, Blocked(s, t, posted, Parking(true), quiet), Turn, Blocked(s, t, posted, Parked(true), Signal(false, true)));
  }

  /** The request's callback wakes the loop too early, and it parks again. */
  lemma WakeIsSpent(s: State, t: nat)
    requires Caught(s, t)
    ensures Reaches(s, Blocked(s, t, s.posted, Parked(true), Signal(false, true)))
  {
    var more, quiet := s.posted + multiset{s.token}, Signal(false, false);
    RequestArrives(s, t);
    LoopParks(s, t, more, s.signal);
    assert more - multiset{s.token} == s.posted;
    var s0, s1 := Blocked(s, t, more, Parked(true), Signal(false, true)), Blocked(s, t, s.posted, Resumed, quiet);
    Then(s, s0, RunCallback(s.token), s1);
    Then(s, s1, Turn, Blocked(s, t, s.posted, PollGet(false), quiet));
    LoopParks(s, t, s.posted, quiet);
  }

  /** Parked for good beside a request: the queue is not shut down and nobody owes a wake. */
  ghost predicate Lost(s: State) {
    s.loop.Parked? && HasRequest(s) && !Stopping(s) && !Owed(s)
  }

  function Unlocked(s: State, t: nat): State
    requires t < |s.threads|
  {
    var n, d := |s.queues|, |s.threads|;
    Scene(s, Holding(s, [d], None), s.posted, s.threads[t := Finished] + [Accepted(n)], Parked(true), Signal(false, true))
  }

  lemma NobodyOwes(s: State, t: nat)
    requires Caught(s, t)
    ensures Lost(Unlocked(s, t))
  {
    var s' := Unlocked(s, t);
    forall u: nat | u < |s'.threads| ensures !OwesWake(s', s'.threads[u]) {
      if u < |s.threads| && u != t { assert InRange(s, s.threads[u]) && PcTokenBelow(s.threads[u], s.token); }
    }
  }

  lemma CaughtLoses(s: State, t: nat)
    requires Caught(s, t)
    ensures Reaches(s, Unlocked(s, t)) && Lost(Unlocked(s, t))
  {
    WakeIsSpent(s, t);
    var s0, s1 := Blocked(s, t, s.posted, Parked(true), Signal(false, true)), Unlocked(s, t);
    assert s0.queues[|s.queues| := Holding(s, [|s.threads|], None)] == s1.queues;
    assert s0.threads[t := Finished] == s1.threads;
    Then(s, s0, Tick(t), s1);
    NobodyOwes(s, t);
  }

  /** A stop between its lookups comes to its second one in at most three actions. */
  lemma ComesToReget(s: State, t: nat) returns (s': State)
    requires Inv(s) && TokensOk(s) && s.loop.Starting? && t < |s.threads| && BetweenLookups(s.threads[t])
    ensures Reaches(s, s') && Caught(s', t)
    decreases if s.threads[t].StopSet? then 3 else if s.threads[t].Waking? then 2 else if s.threads[t].Posting? then 1 else 0
  {
    assert Run(s, []) == s;
    if s.threads[t].StopReget? {
      s' := s;
    } else {
      var s1 := Step(s, Tick(t));
      StepKeepsInv(s, Tick(t));
      StepKeepsTokens(s, Tick(t));
      ThreadStepFrames(s, t);
      Then(s, s, Tick(t), s1);
      s' := ComesToReget(s1, t);
      Chain(s, s1, s');
    }
  }

  lemma Chain(a: State, b: State, c: State)
    requires Reaches(a, b) && Reaches(b, c)
    ensures Reaches(a, c)
  {
    var first :| Run(a, first) == b;
    var second :| Run(b, second) == c;
    RunSplits(a, first, second);
    assert Run(a, first + second) == c;
  }

  /** The condition of `NoLostWakeup` is needed: from every reachable state in which a new cycle
      is about to register its queue while a stop stands between its lookups, some continuation
      loses a wakeup.  */
  lemma StopBetweenLosesWakeup(before: seq<Label>) returns (after: seq<Label>)
    requires Run(Init(), before).loop.Starting? && !NoStopBetween(Run(Init(), before))
    ensures Lost(Run(Init(), before + after))
  {
    RunKeepsTokens(Init(), before);
    var s := Run(Init(), before);
    var t: nat :| t < |s.threads| && BetweenLookups(s.threads[t]);
    var s1 := ComesToReget(s, t);
    CaughtLoses(s1, t);
    Chain(s, s1, Unlocked(s1, t));
    after :| Run(s, after) == Unlocked(s1, t);
    RunSplits(Init(), before, after);
  }

  /** A cycle fails to start. */
  lemma CycleFails(s: State)
    requires s.loop.Idle?
    ensures Reaches(s, s.(token := s.token + 1, signal := Signal(false, false)))
  {
    var s1 := s.(loop := Starting, token := s.token + 1, signal := Signal(false, false));
    assert Run(s, []) == s;
    Then(s, s, StartCycle, s1);
    Then(s, s1, StartFails, s1.(loop := Exited));
    Then(s, s1.(loop := Exited), FinishCycle, s1.(loop := Idle));
  }

  /** Its handle is closed afterwards: the stop finds no queue, and has its second lookup still
      to do when the next cycle begins.  */
  lemma LateStop(s: State)
    requires s.loop.Idle? && s.token >= 1 && s.registry.None?
    ensures Reaches(s, s.(threads := s.threads + [StopReget], loop := Starting, token := s.token + 1, signal := Signal(false, false)))
  {
    var s1, s2 := s.(threads := s.threads + [StopGet]), s.(threads := s.threads + [StopReget]);
    assert Run(s, []) == s;
    Then(s, s, SpawnStop, s1);
    assert s1.threads[|s.threads| := StopReget] == s2.threads;
    Then(s, s1, Tick(|s.threads|), s2);
    Then(s, s2, StartCycle, s2.(loop := Starting, token := s.token + 1, signal := Signal(false, false)));
  }

  /** A run into such a state. */
  lemma StopCanStandBetween() returns (before: seq<Label>)
    ensures Run(Init(), before).loop.Starting? && !NoStopBetween(Run(Init(), before))
  {
    var s1 := Init().(token := 1);
    CycleFails(Init());
    LateStop(s1);
    var s2 := s1.(threads := s1.threads + [StopReget], loop := Starting, token := 2, signal := Signal(false, false));
    Chain(Init(), s1, s2);
    before :| Run(Init(), before) == s2;
    assert BetweenLookups(s2.threads[0]);
  }
}
