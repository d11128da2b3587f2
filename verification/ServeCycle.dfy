/** `serve()` on one node with the Deno adapter: the run guard, the request loop with its
    handler tasks, the response-body pipes, and the `finished` promise.  A label is one
    synchronous JavaScript stretch; one that is not enabled changes nothing.  */
module ServeCycle {

  datatype LoopPc =
    | Starting                       // `serveStart` is under way
    | StartFailed(gone: bool)        // ... and failed; the stop op is awaited
    | Looping
    | Draining(snapshot: set<nat>)   // `Promise.allSettled([...pending])`
    | AwaitStop                      // `finally`, after a regular end
    | Crashing                       // `finally`, after an exception in the loop: allocating a larger buffer,
                                     // parsing the request or reading its handles threw; none of these is
                                     // the endpoint-gone error that the last `catch` swallows
    | LoopDone | LoopRejected

  datatype TaskPc = Handling | ErrorPiping | Responding | Settled

  /** `pipes[id]`: whether the response body of request `id` has been piped to its end. */
  datatype Work = Work(requests: nat, tasks: map<nat, TaskPc>, pending: set<nat>, pipes: map<nat, bool>, activePipes: set<nat>)

  datatype Finish = AwaitLoop | AwaitPipes(snapshot: set<nat>) | Fulfilled | Rejected

  /** `stops` counts the native stops this cycle's handle has issued, `foreignStops` those that
      handles of earlier cycles issued while this one ran: a stop names only the endpoint.  */
  datatype Cycle = Cycle(loop: LoopPc, work: Work, finished: Finish, guardReset: bool, stopRequested: bool,
                         stops: nat, foreignStops: nat)

  datatype State = State(serveRunning: bool, cycles: seq<Cycle>)

  const INIT: State := State(false, [])

  datatype Label =
    | Serve(hasHandler: bool, aborted: bool)
    | StartOk | StartFails(isGone: bool) | Request | LoopBreaks | LoopCrashes | TasksDrained | StopOpDone
    | HandlerOk(id: nat) | HandlerFails(id: nat) | CallbackThrows(id: nat) | ErrorPipeDone(id: nat) | Responds(id: nat)
    | PipeDone(id: nat) | UntrackTask(id: nat) | UntrackPipe(id: nat)
    | LoopSettles | PipesSettle | ResetGuard
    | DoStop

  predicate TaskIs(w: Work, id: nat, pc: TaskPc) {
    id in w.tasks && w.tasks[id] == pc
  }

  function SetTask(c: Cycle, id: nat, pc: TaskPc): Cycle {
    c.(work := c.work.(tasks := c.work.tasks[id := pc]))
  }

  predicate TasksSettled(w: Work, ids: set<nat>) {
    forall id | id in ids && id in w.tasks :: w.tasks[id].Settled?
  }

  predicate PipesEnded(w: Work, ids: set<nat>) {
    forall id | id in ids && id in w.pipes :: w.pipes[id]
  }

  function NewCycle(aborted: bool): Cycle {
    Cycle(Starting, Work(0, map[], {}, map[], {}), AwaitLoop, false, aborted, if aborted then 1 else 0, 0)
  }

  /** The adapter's request loop. */
  function LoopStep(c: Cycle, l: Label): Cycle
    requires l.StartOk? || l.StartFails? || l.Request? || l.LoopBreaks? || l.LoopCrashes? || l.TasksDrained? || l.StopOpDone?
  {
    match l
    case StartOk => if c.loop.Starting? then c.(loop := Looping) else c
    case StartFails(isGone) => if c.loop.Starting? then c.(loop := StartFailed(isGone)) else c
    case Request =>
      if c.loop.Looping? then
        var id := c.work.requests;
        c.(work := c.work.(requests := id + 1, tasks := c.work.tasks[id := Handling], pending := c.work.pending + {id}))
      else c
    case LoopBreaks => if c.loop.Looping? then c.(loop := Draining(c.work.pending)) else c
    case LoopCrashes => if c.loop.Looping? then c.(loop := Crashing) else c
    case TasksDrained => if c.loop.Draining? && TasksSettled(c.work, c.loop.snapshot) then c.(loop := AwaitStop) else c
    case StopOpDone =>
      if c.loop.AwaitStop? then c.(loop := LoopDone)
      else if c.loop.Crashing? then c.(loop := LoopRejected)
      else if c.loop.StartFailed? then c.(loop := if c.loop.gone then LoopDone else LoopRejected)
      else c
  }

  /** The handler tasks and their pipes. */
  function TaskStep(c: Cycle, l: Label): Cycle
    requires l.HandlerOk? || l.HandlerFails? || l.CallbackThrows? || l.ErrorPipeDone? || l.Responds?
          || l.PipeDone? || l.UntrackTask? || l.UntrackPipe?
  {
    var w := c.work;
    match l
    case HandlerOk(id) =>
      if TaskIs(w, id, Handling) then
        SetTask(c, id, Responding).(work := w.(tasks := w.tasks[id := Responding], pipes := w.pipes[id := false],
                                               activePipes := w.activePipes + {id}))
      else c
    case HandlerFails(id) => if TaskIs(w, id, Handling) then SetTask(c, id, ErrorPiping) else c
    case CallbackThrows(id) => if TaskIs(w, id, Handling) then SetTask(c, id, Responding) else c
    case ErrorPipeDone(id) => if TaskIs(w, id, ErrorPiping) then SetTask(c, id, Responding) else c
    case Responds(id) => if TaskIs(w, id, Responding) then SetTask(c, id, Settled) else c
    case PipeDone(id) => if id in w.pipes then c.(work := w.(pipes := w.pipes[id := true])) else c
    case UntrackTask(id) => if TaskIs(w, id, Settled) then c.(work := w.(pending := w.pending - {id})) else c
    case UntrackPipe(id) => if id in w.pipes && w.pipes[id] then c.(work := w.(activePipes := w.activePipes - {id})) else c
  }

  /** The promise chain behind `finished`, and the stop path. */
  function FinishStep(c: Cycle, l: Label): Cycle
    requires l.LoopSettles? || l.PipesSettle? || l.ResetGuard? || l.DoStop?
  {
    match l
    case LoopSettles =>
      if !c.finished.AwaitLoop? then c
      else if c.loop.LoopDone? then c.(finished := AwaitPipes(c.work.activePipes))
      else if c.loop.LoopRejected? then c.(finished := Rejected)
      else c
    case PipesSettle =>
      if c.finished.AwaitPipes? && PipesEnded(c.work, c.finished.snapshot) then c.(finished := Fulfilled) else c
    case ResetGuard => if IsSettled(c) then c.(guardReset := true) else c
    case DoStop => if c.stopRequested then c else c.(stopRequested := true, stops := c.stops + 1)
  }

  predicate IsSettled(c: Cycle) {
    c.finished.Fulfilled? || c.finished.Rejected?
  }

  function CycleStep(c: Cycle, l: Label): Cycle
    requires !l.Serve?
  {
    if l.LoopSettles? || l.PipesSettle? || l.ResetGuard? || l.DoStop? then FinishStep(c, l)
    else if l.StartOk? || l.StartFails? || l.Request? || l.LoopBreaks? || l.LoopCrashes? || l.TasksDrained? || l.StopOpDone?
    then LoopStep(c, l)
    else TaskStep(c, l)
  }

  /** `Serve` starts a cycle; every other label belongs to cycle `i`. */
  function Step(s: State, i: nat, l: Label): State {
    if l.Serve? then
      if s.serveRunning then s
      else if !l.hasHandler then s.(serveRunning := true)
      else State(true, s.cycles + [NewCycle(l.aborted)])
    else if i >= |s.cycles| then s
    else
      var c := s.cycles[i];
      var cycles := s.cycles[i := CycleStep(c, l)];
      State(s.serveRunning && !(l.ResetGuard? && IsSettled(c) && !c.guardReset),
            if l.DoStop? && !c.stopRequested then Hit(cycles, i) else cycles)
  }

  /** A stop issued through the handle of cycle `i` reaches whichever cycle is running. */
  function Hit(cycles: seq<Cycle>, i: nat): (r: seq<Cycle>)
    requires i < |cycles|
    ensures |r| == |cycles|
  {
    var j := |cycles| - 1;
    if i < j && !IsSettled(cycles[j]) then cycles[j := cycles[j].(foreignStops := cycles[j].foreignStops + 1)] else cycles
  }

  datatype Event = Event(cycle: nat, what: Label)

  function Run(s: State, events: seq<Event>): State
    decreases |events|
  {
    if events == [] then s else Run(Step(s, events[0].cycle, events[0].what), events[1..])
  }

  // ── Invariant of one cycle ──────────────────────────────────────────────────

  predicate AllTasksSettled(w: Work) {
    forall id | id in w.tasks :: w.tasks[id].Settled?
  }

  predicate AllPipesEnded(w: Work) {
    forall id | id in w.pipes :: w.pipes[id]
  }

  /** What is still going on is tracked. */
  predicate Tracked(w: Work, tasks: set<nat>, pipes: set<nat>) {
    && (forall id | id in w.tasks && !w.tasks[id].Settled? :: id in tasks)
    && (forall id | id in w.pipes && !w.pipes[id] :: id in pipes)
  }

  predicate LoopOk(c: Cycle) {
    && (c.loop.Starting? || c.loop.StartFailed? ==> c.work.tasks == map[] && c.work.pipes == map[])
    && (c.loop.Draining? ==> Tracked(c.work, c.loop.snapshot, c.work.activePipes))
    && (c.loop.AwaitStop? || c.loop.LoopDone? ==> AllTasksSettled(c.work))
  }

  predicate FinishOk(c: Cycle) {
    && (c.finished.AwaitPipes? ==> c.loop.LoopDone? && Tracked(c.work, {}, c.finished.snapshot))
    && (c.finished.Fulfilled? ==> c.loop.LoopDone? && AllPipesEnded(c.work))
    && (c.finished.Rejected? ==> c.loop.LoopRejected?)
    && (c.guardReset ==> IsSettled(c))
    && c.stops == (if c.stopRequested then 1 else 0)
  }

  /** Every request taken has its task. */
  ghost predicate Counted(w: Work) {
    forall id: nat :: id in w.tasks <==> id < w.requests
  }

  ghost predicate CycleOk(c: Cycle) {
    Counted(c.work) && Tracked(c.work, c.work.pending, c.work.activePipes) && LoopOk(c) && FinishOk(c)
  }

  lemma LoopKeepsOk(c: Cycle, l: Label)
    requires CycleOk(c)
    requires l.StartOk? || l.StartFails? || l.Request? || l.LoopBreaks? || l.LoopCrashes? || l.TasksDrained? || l.StopOpDone?
    ensures CycleOk(LoopStep(c, l))
  {
  }

  lemma TaskKeepsOk(c: Cycle, l: Label)
    requires CycleOk(c)
    requires l.HandlerOk? || l.HandlerFails? || l.CallbackThrows? || l.ErrorPipeDone? || l.Responds?
          || l.PipeDone? || l.UntrackTask? || l.UntrackPipe?
    ensures CycleOk(TaskStep(c, l))
  {
  }

  lemma FinishKeepsOk(c: Cycle, l: Label)
    requires CycleOk(c) && (l.LoopSettles? || l.PipesSettle? || l.ResetGuard? || l.DoStop?)
    ensures CycleOk(FinishStep(c, l))
  {
  }

  lemma CycleStepKeepsOk(c: Cycle, l: Label)
    requires CycleOk(c) && !l.Serve?
    ensures CycleOk(CycleStep(c, l))
  {
    if l.LoopSettles? || l.PipesSettle? || l.ResetGuard? || l.DoStop? {
      FinishKeepsOk(c, l);
    } else if l.StartOk? || l.StartFails? || l.Request? || l.LoopBreaks? || l.LoopCrashes? || l.TasksDrained? || l.StopOpDone? {
      LoopKeepsOk(c, l);
    } else {
      TaskKeepsOk(c, l);
    }
  }

  // ── Invariant of all cycles ─────────────────────────────────────────────────

  ghost predicate Inv(s: State) {
    && (forall i | 0 <= i < |s.cycles| :: CycleOk(s.cycles[i]))
    && (forall i | 0 <= i < |s.cycles| :: !s.cycles[i].guardReset ==> s.serveRunning && i == |s.cycles| - 1)
  }

  /** A cycle's own steps neither settle `finished` twice nor undo the reset. */
  lemma ResetIsFinal(c: Cycle, l: Label)
    requires !l.Serve?
    ensures CycleStep(c, l).guardReset <==> c.guardReset || (l.ResetGuard? && IsSettled(c))
  {
  }

  lemma StepKeepsInv(s: State, i: nat, l: Label)
    requires Inv(s)
    ensures Inv(Step(s, i, l))
  {
    if !l.Serve? && i < |s.cycles| {
      CycleStepKeepsOk(s.cycles[i], l);
      ResetIsFinal(s.cycles[i], l);
      var cycles, s' := s.cycles[i := CycleStep(s.cycles[i], l)], Step(s, i, l);
      forall k | 0 <= k < |s'.cycles|
        ensures CycleOk(s'.cycles[k]) && s'.cycles[k].guardReset == cycles[k].guardReset
      {
        assert CycleOk(cycles[k]);
        assert s'.cycles[k] == cycles[k] || s'.cycles[k] == cycles[k].(foreignStops := cycles[k].foreignStops + 1);
      }
    }
  }

  lemma {:induction false} RunKeepsInv(s: State, events: seq<Event>)
    requires Inv(s)
    ensures Inv(Run(s, events))
    decreases |events|
  {
    if events != [] {
      StepKeepsInv(s, events[0].cycle, events[0].what);
      RunKeepsInv(Step(s, events[0].cycle, events[0].what), events[1..]);
    }
  }

  // ── Theorems ────────────────────────────────────────────────────────────────

  /** When `finished` is fulfilled, every handler task and every response-body pipe of the
      cycle has settled.  */
  lemma FinishedMeansAllDone(events: seq<Event>, i: nat)
    requires i < |Run(INIT, events).cycles| && Run(INIT, events).cycles[i].finished.Fulfilled?
    ensures var w := Run(INIT, events).cycles[i].work;
            (forall id | 0 <= id < w.requests :: TaskIs(w, id, Settled)) && AllPipesEnded(w)
  {
    RunKeepsInv(INIT, events);
    assert CycleOk(Run(INIT, events).cycles[i]);
  }

  /** A cycle runs until its `finished` settles. */
  predicate IsRunning(c: Cycle) {
    !IsSettled(c)
  }

  /** At most one cycle runs at a time, and none while the guard is down. */
  lemma OneCycleAtATime(events: seq<Event>, i: nat, j: nat)
    requires i < |Run(INIT, events).cycles| && j < |Run(INIT, events).cycles|
    requires IsRunning(Run(INIT, events).cycles[i]) && IsRunning(Run(INIT, events).cycles[j])
    ensures i == j && Run(INIT, events).serveRunning
  {
    RunKeepsInv(INIT, events);
    var s := Run(INIT, events);
    assert CycleOk(s.cycles[i]) && CycleOk(s.cycles[j]);
  }

  /** Once `finished` has settled the request loop is over. */
  lemma SettledMeansLoopOver(events: seq<Event>, i: nat)
    requires i < |Run(INIT, events).cycles| && !IsRunning(Run(INIT, events).cycles[i])
    ensures var c := Run(INIT, events).cycles[i]; c.loop.LoopDone? || c.loop.LoopRejected?
  {
    RunKeepsInv(INIT, events);
    assert CycleOk(Run(INIT, events).cycles[i]);
  }

  /** However often `close()`, disposal and the signal fire, a handle issues one native stop. */
  lemma StopIssuedAtMostOnce(events: seq<Event>, i: nat)
    requires i < |Run(INIT, events).cycles|
    ensures Run(INIT, events).cycles[i].stops <= 1
  {
    RunKeepsInv(INIT, events);
    assert CycleOk(Run(INIT, events).cycles[i]);
  }

  // ── What the guarantees do not cover ────────────────────────────────────────

  /** Without an exception in its loop, a rejected cycle never took a request. */
  predicate CrashFree(c: Cycle) {
    !c.loop.Crashing? && (c.loop.LoopRejected? ==> c.work.tasks == map[] && c.work.pipes == map[])
  }

  lemma StepKeepsCrashFree(s: State, i: nat, l: Label, k: nat)
    requires Inv(s) && k < |s.cycles| && CrashFree(s.cycles[k]) && !(i == k && l.LoopCrashes?)
    ensures k < |Step(s, i, l).cycles| && CrashFree(Step(s, i, l).cycles[k])
  {
    assert CycleOk(s.cycles[k]);
  }

  lemma {:induction false} RunKeepsCrashFree(s: State, events: seq<Event>, k: nat)
    requires Inv(s) && (k < |s.cycles| ==> CrashFree(s.cycles[k])) && Event(k, LoopCrashes) !in events
    ensures k < |Run(s, events).cycles| ==> CrashFree(Run(s, events).cycles[k])
    decreases |events|
  {
    if events != [] {
      var e := events[0];
      StepKeepsInv(s, e.cycle, e.what);
      if k < |s.cycles| {
        assert e == Event(e.cycle, e.what);
        StepKeepsCrashFree(s, e.cycle, e.what, k);
      }
      RunKeepsCrashFree(Step(s, e.cycle, e.what), events[1..], k);
    }
  }

  /** Unless its loop throws, a cycle whose `finished` has settled, either way, has no task and
      no pipe left over.  */
  lemma NothingLeftOverWithoutCrash(events: seq<Event>, i: nat)
    requires i < |Run(INIT, events).cycles| && !IsRunning(Run(INIT, events).cycles[i])
    requires Event(i, LoopCrashes) !in events
    ensures var w := Run(INIT, events).cycles[i].work; AllTasksSettled(w) && AllPipesEnded(w)
  {
    RunKeepsInv(INIT, events);
    RunKeepsCrashFree(INIT, events, i);
    assert CycleOk(Run(INIT, events).cycles[i]);
  }

  /** Conversely, whatever is going on when the loop of a cycle throws can be left over: three
      stretches later `finished` is rejected, with the same tasks and pipes.  */
  lemma CrashLeavesWork(events: seq<Event>, i: nat)
    requires i < |Run(INIT, events).cycles| && Run(INIT, events).cycles[i].loop.Looping?
    ensures var s := Run(INIT, events);
            var s' := Run(s, [Event(i, LoopCrashes), Event(i, StopOpDone), Event(i, LoopSettles)]);
            i < |s'.cycles| && s'.cycles[i].finished.Rejected? && s'.cycles[i].work == s.cycles[i].work
  {
    RunKeepsInv(INIT, events);
    assert CycleOk(Run(INIT, events).cycles[i]);
    Crashes(Run(INIT, events), i);
  }

  lemma Crashes(s: State, i: nat)
    requires i < |s.cycles| && s.cycles[i].loop.Looping? && s.cycles[i].finished.AwaitLoop?
    ensures var s' := Run(s, [Event(i, LoopCrashes), Event(i, StopOpDone), Event(i, LoopSettles)]);
            i < |s'.cycles| && s'.cycles[i].finished.Rejected? && s'.cycles[i].work == s.cycles[i].work
  {
    var s1 := Step(s, i, LoopCrashes);
    var s2 := Step(s1, i, StopOpDone);
    var events := [Event(i, LoopCrashes), Event(i, StopOpDone), Event(i, LoopSettles)];
    assert events[1..] == [Event(i, StopOpDone), Event(i, LoopSettles)];
    assert events[1..][1..] == [Event(i, LoopSettles)] && events[1..][1..][1..] == [];
    assert s1.cycles[i] == s.cycles[i].(loop := Crashing) && s2.cycles[i] == s.cycles[i].(loop := LoopRejected);
    assert Run(s, events) == Run(s1, events[1..]);
    assert Run(s1, events[1..]) == Run(s2, [Event(i, LoopSettles)]);
    assert Run(s2, [Event(i, LoopSettles)]) == Step(s2, i, LoopSettles);
  }

  lemma {:induction false} RunSnoc(s: State, events: seq<Event>, e: Event)
    ensures Run(s, events + [e]) == Step(Run(s, events), e.cycle, e.what)
    decreases |events|
  {
    if events == [] {
      assert [] + [e] == [e] && [e][1..] == [];
    } else {
      assert (events + [e])[0] == events[0] && (events + [e])[1..] == events[1..] + [e];
      RunSnoc(Step(s, events[0].cycle, events[0].what), events[1..], e);
    }
  }

  /** One more event of the only cycle. */
  lemma Then(events: seq<Event>, running: bool, c: Cycle, l: Label) returns (more: seq<Event>)
    requires Run(INIT, events) == State(running, [c]) && !l.Serve? && !l.ResetGuard? && !l.DoStop?
    ensures Run(INIT, more) == State(running, [CycleStep(c, l)])
  {
    more := events + [Event(0, l)];
    RunSnoc(INIT, events, Event(0, l));
  }

  /** Such a run: the loop fails on its second request while the first is being handled. */
  lemma CrashLeavesTasks() returns (events: seq<Event>)
    ensures var s := Run(INIT, events);
            |s.cycles| == 1 && s.cycles[0].finished.Rejected? && TaskIs(s.cycles[0].work, 0, Handling)
  {
    var c := NewCycle(false);
    RunSnoc(INIT, [], Event(0, Serve(true, false)));
    events := [] + [Event(0, Serve(true, false))];
    events := Then(events, true, c, StartOk);
    c := c.(loop := Looping);
    events := Then(events, true, c, Request);
    c := CycleStep(c, Request);
    assert TaskIs(c.work, 0, Handling) && c.loop.Looping?;
    events := Then(events, true, c, LoopCrashes);
    c := c.(loop := Crashing);
    events := Then(events, true, c, StopOpDone);
    c := c.(loop := LoopRejected);
    events := Then(events, true, c, LoopSettles);
  }

  /** The guard is up with no cycle to take it down. */
  ghost predicate Wedged(s: State) {
    s.serveRunning && forall i | 0 <= i < |s.cycles| :: s.cycles[i].guardReset
  }

  lemma {:induction false} StaysWedged(s: State, events: seq<Event>)
    requires Wedged(s)
    ensures Wedged(Run(s, events)) && |Run(s, events).cycles| == |s.cycles|
    decreases |events|
  {
    if events != [] {
      var i, l := events[0].cycle, events[0].what;
      if !l.Serve? && i < |s.cycles| { ResetIsFinal(s.cycles[i], l); }
      StaysWedged(Step(s, i, l), events[1..]);
    }
  }

  /** `serve()` without a handler throws after it has raised the guard: if no cycle was
      running, no later call on this node can start one.  */
  lemma MissingHandlerBlocksServe(events: seq<Event>, aborted: bool, more: seq<Event>)
    requires !Run(INIT, events).serveRunning
    ensures var s := Step(Run(INIT, events), 0, Serve(false, aborted));
            |Run(s, more).cycles| == |s.cycles| && Run(s, more).serveRunning
  {
    RunKeepsInv(INIT, events);
    StaysWedged(Step(Run(INIT, events), 0, Serve(false, aborted)), more);
  }

  /** A `serve()` call without a handler while the guard is down, at position `k` of the run. */
  ghost predicate MissesHandler(events: seq<Event>, k: nat) {
    k < |events| && events[k].what.Serve? && !events[k].what.hasHandler && !Run(INIT, events[..k]).serveRunning
  }

  lemma {:induction false} RunSplits(s: State, a: seq<Event>, b: seq<Event>)
    ensures Run(s, a + b) == Run(Run(s, a), b)
    decreases |a|
  {
    if a == [] {
      assert a + b == b;
    } else {
      assert (a + b)[0] == a[0] && (a + b)[1..] == a[1..] + b;
      RunSplits(Step(s, a[0].cycle, a[0].what), a[1..], b);
    }
  }

  /** One step wedges the node only by a call without a handler. */
  lemma OtherStepsDoNotWedge(s: State, i: nat, l: Label)
    requires Inv(s) && !Wedged(s) && !(l.Serve? && !l.hasHandler && !s.serveRunning)
    ensures !Wedged(Step(s, i, l))
  {
    var s' := Step(s, i, l);
    if l.Serve? && !s.serveRunning {
      assert !s'.cycles[|s.cycles|].guardReset;
    } else if !l.Serve? && i < |s.cycles| && s'.serveRunning {
      ResetIsFinal(s.cycles[i], l);
      var k :| 0 <= k < |s.cycles| && !s.cycles[k].guardReset;
      assert !s'.cycles[k].guardReset;
    }
  }

  lemma {:induction false} WedgedHasCause(events: seq<Event>)
    requires Wedged(Run(INIT, events))
    ensures exists k: nat :: MissesHandler(events, k)
    decreases |events|
  {
    var n := |events| - 1;
    var front, e := events[..n], events[n];
    assert events == front + [e];
    RunSnoc(INIT, front, e);
    if Wedged(Run(INIT, front)) {
      WedgedHasCause(front);
      var k: nat :| MissesHandler(front, k);
      assert events[..k] == front[..k];
      assert MissesHandler(events, k);
    } else {
      RunKeepsInv(INIT, front);
      if !MissesHandler(events, n) { OtherStepsDoNotWedge(Run(INIT, front), e.cycle, e.what); }
    }
  }

  /** The guard is left raised for good exactly by a call without a handler that found it down. */
  lemma WedgedIff(events: seq<Event>)
    ensures Wedged(Run(INIT, events)) <==> exists k: nat :: MissesHandler(events, k)
  {
    if Wedged(Run(INIT, events)) { WedgedHasCause(events); }
    if k: nat :| MissesHandler(events, k) {
      assert events == events[..k] + ([events[k]] + events[k + 1..]);
      RunSplits(INIT, events[..k], [events[k]] + events[k + 1..]);
      assert ([events[k]] + events[k + 1..])[1..] == events[k + 1..];
      RunKeepsInv(INIT, events[..k]);
      StaysWedged(Step(Run(INIT, events[..k]), events[k].cycle, events[k].what), events[k + 1..]);
    }
  }

  // ── Stops from earlier handles ──────────────────────────────────────────────

  /** Every handle before cycle `j` has issued its stop. */
  predicate EarlierStopped(s: State, j: nat) {
    forall i | 0 <= i < j && i < |s.cycles| :: s.cycles[i].stopRequested
  }

  lemma StepHitsNothing(s: State, i: nat, l: Label, j: nat)
    requires j < |s.cycles| && EarlierStopped(s, j)
    ensures var s' := Step(s, i, l);
            j < |s'.cycles| && EarlierStopped(s', j) && s'.cycles[j].foreignStops == s.cycles[j].foreignStops
  {
  }

  lemma {:induction false} RunHitsNothing(s: State, events: seq<Event>, j: nat)
    requires j < |s.cycles| && EarlierStopped(s, j)
    ensures j < |Run(s, events).cycles| && Run(s, events).cycles[j].foreignStops == s.cycles[j].foreignStops
    decreases |events|
  {
    if events != [] {
      StepHitsNothing(s, events[0].cycle, events[0].what, j);
      RunHitsNothing(Step(s, events[0].cycle, events[0].what), events[1..], j);
    }
  }

  /** No stop through an earlier handle reaches the running cycle any more. */
  ghost predicate SafeFromEarlier(s: State, j: nat)
    requires j < |s.cycles|
  {
    forall events: seq<Event> ::
      j < |Run(s, events).cycles| ==> Run(s, events).cycles[j].foreignStops == s.cycles[j].foreignStops
  }

  /** A running cycle is safe from the handles of earlier cycles exactly when each of them has
      issued its one stop before.  */
  lemma SafeFromEarlierIff(s: State, j: nat)
    requires j + 1 == |s.cycles| && IsRunning(s.cycles[j])
    ensures SafeFromEarlier(s, j) <==> EarlierStopped(s, j)
  {
    if EarlierStopped(s, j) {
      forall events: seq<Event> | j < |Run(s, events).cycles|
        ensures Run(s, events).cycles[j].foreignStops == s.cycles[j].foreignStops
      {
        RunHitsNothing(s, events, j);
      }
    } else {
      var i :| 0 <= i < j && !s.cycles[i].stopRequested;
      var events := [Event(i, DoStop)];
      assert events[1..] == [];
      assert Run(s, events) == Step(s, i, DoStop);
      assert Run(s, events).cycles[j].foreignStops == s.cycles[j].foreignStops + 1;
    }
  }

  /** The unsafe case arises: a first cycle is refused its options, a second one runs, and then
      the first handle is closed.  */
  lemma EarlierHandleStopsLaterCycle() returns (events: seq<Event>)
    ensures var s := Run(INIT, events);
            && |s.cycles| == 2 && s.cycles[1].loop.Looping? && IsRunning(s.cycles[1])
            && !s.cycles[1].stopRequested && s.cycles[1].foreignStops == 1
  {
    var c := NewCycle(false);
    RunSnoc(INIT, [], Event(0, Serve(true, false)));
    events := [] + [Event(0, Serve(true, false))];
    events := Then(events, true, c, StartFails(false));
    events := Then(events, true, c.(loop := StartFailed(false)), StopOpDone);
    events := Then(events, true, c.(loop := LoopRejected), LoopSettles);
    c := c.(loop := LoopRejected, finished := Rejected);
    RunSnoc(INIT, events, Event(0, ResetGuard));
    events := events + [Event(0, ResetGuard)];
    c := c.(guardReset := true);
    assert Run(INIT, events) == State(false, [c]);
    RunSnoc(INIT, events, Event(0, Serve(true, false)));
    events := events + [Event(0, Serve(true, false))];
    assert Run(INIT, events) == State(true, [c, NewCycle(false)]);
    RunSnoc(INIT, events, Event(1, StartOk));
    events := events + [Event(1, StartOk)];
    assert Run(INIT, events) == State(true, [c, NewCycle(false).(loop := Looping)]);
    RunSnoc(INIT, events, Event(0, DoStop));
    events := events + [Event(0, DoStop)];
  }
}
