/** `createDiscoveryIterator`: one linearised browse around an asynchronous native
    start / poll / close lifecycle.

    JavaScript runs one synchronous stretch at a time, so every label is one such stretch:
    a call, a continuation after an `await`, or the settling of a native promise.  Which
    enabled stretch runs next is left open.  A label that is not enabled changes nothing.  */
module DiscoveryIterator {

  datatype Result = Value | Ended | Threw(closeFailure: bool)

  /** `nextValue()`, from queueing behind the previous call to settling. */
  datatype NextPc =
    | Queued
    | WaitStart
    | GotHandle
    | GotNull
    | Polling
    | AwaitFinish(afterNull: bool, onClose: bool)
    | Catch(closeFailure: bool)
    | AwaitCatch(closeFailure: bool, onClose: bool)
    | Settled(result: Result)

  datatype ReturnPc = Called | AwaitReturn(onClose: bool) | Returned(result: Result)

  /** `Promise.resolve().then(start)`; `Fulfilled` until the reaction that stores or
      retires the handle has run, `Observed` afterwards.  */
  datatype StartPc = NotStarted | StartQueued | StartInvoked | Fulfilled | Observed | Rejected

  /** One `cleanup(close, handle)`: the native close runs a microtask after it is asked for. */
  datatype ClosePc = NotAsked | Asked | Invoked | Closed | CloseFailed

  datatype PollOutcome = Mapped | Unmapped | NullValue | MapThrows | PollRejects

  datatype PollPc = NoPoll | PollPending | PollReady(outcome: PollOutcome)

  datatype Signal = Signal(present: bool, aborted: bool, listening: bool)

  /** The handle slot, the iterator's own close promise, and a late start's detached one. */
  datatype Resource = Resource(held: bool, main: ClosePc, late: ClosePc)

  /** The outstanding poll and its caller; `invoked` and `overlaps` are history. */
  datatype Polls = Polls(pc: PollPc, owner: nat, invoked: nat, overlaps: nat)

  datatype Start = Start(pc: StartPc, invoked: nat)

  datatype State = State(
    finished: bool,
    consumed: bool,
    signal: Signal,
    start: Start,
    res: Resource,
    polls: Polls,
    nexts: seq<NextPc>,
    exits: seq<ReturnPc>)

  datatype Label =
    | CallNext | CallReturn | Abort
    | Begin(k: nat)
    | InvokeStart | StartSettles(ok: bool) | StartReaction
    | ResumeStart(k: nat, byFinish: bool)
    | Continue(k: nat)
    | PollSettles(outcome: PollOutcome)
    | ResumePoll(k: nat, byFinish: bool)
    | ResumeAwait(k: nat)
    | BeginReturn(r: nat) | ResumeReturn(r: nat)
    | InvokeClose | CloseSettles(ok: bool) | InvokeLateClose

  function Init(hasSignal: bool, aborted: bool): State {
    State(false, false, Signal(hasSignal, hasSignal && aborted, false), Start(NotStarted, 0),
          Resource(false, NotAsked, NotAsked), Polls(NoPoll, 0, 0, 0), [], [])
  }

  // ── Synchronous helpers ─────────────────────────────────────────────────────

  /** `finish()`: terminate, and ask for the close of a held handle.  It returns the close
      promise if there is one.  */
  function Finish(s: State): State {
    s.(finished := true,
       signal := s.signal.(listening := s.finished && s.signal.listening),
       res := if s.res.held && s.res.main.NotAsked? then Resource(false, Asked, s.res.late) else s.res)
  }

  predicate FinishReturnsClose(s: State) {
    !Finish(s).res.main.NotAsked?
  }

  function NextAt(s: State, k: nat, pc: NextPc): State
    requires k < |s.nexts|
  {
    s.(nexts := s.nexts[k := pc])
  }

  /** `poll(activeHandle)`. */
  function InvokePoll(s: State, k: nat): State
    requires k < |s.nexts|
  {
    NextAt(s.(polls := Polls(PollPending, k, s.polls.invoked + 1, s.polls.overlaps + if s.polls.pc.NoPoll? then 0 else 1)), k, Polling)
  }

  /** `while (!finished) poll …; return done()`. */
  function LoopOrEnd(s: State, k: nat): State
    requires k < |s.nexts|
  {
    if s.finished then NextAt(s, k, Settled(Ended)) else InvokePoll(s, k)
  }

  // ── Stretches ───────────────────────────────────────────────────────────────

  /** The start of `nextValue()` up to its first await. */
  function BeginNext(s: State, k: nat): State
    requires k < |s.nexts|
  {
    if s.finished then NextAt(s, k, GotNull)
    else if s.signal.present && s.signal.aborted then NextAt(Finish(s), k, GotNull)
    else
      var s1 := s.(signal := s.signal.(listening := s.signal.present));
      if s1.res.held then NextAt(s1, k, GotHandle)
      else if s1.start.pc.NotStarted? then NextAt(s1.(start := s1.start.(pc := StartQueued)), k, WaitStart)
      else NextAt(s1, k, WaitStart)
  }

  /** After `Promise.race([startPromise, finishedSignal])`. */
  function AfterStart(s: State, k: nat, byFinish: bool): State
    requires k < |s.nexts|
  {
    if byFinish then (if s.finished then NextAt(s, k, GotNull) else s)
    else if s.start.pc.Rejected? then NextAt(s, k, Catch(false))
    else if !s.start.pc.Observed? then s
    else if s.finished then NextAt(s, k, GotNull)
    else NextAt(s.(res := s.res.(held := true)), k, GotHandle)
  }

  function ContinueNext(s: State, k: nat): State
    requires k < |s.nexts|
  {
    match s.nexts[k]
    case GotHandle => LoopOrEnd(s, k)
    case GotNull => NextAt(Finish(s), k, AwaitFinish(true, FinishReturnsClose(s)))
    case Catch(closeFailure) => NextAt(Finish(s), k, AwaitCatch(closeFailure, FinishReturnsClose(s)))
    case _ => s
  }

  /** After `Promise.race([poll(handle), finishedSignal])`. */
  function AfterPoll(s: State, k: nat, byFinish: bool): State
    requires k < |s.nexts|
  {
    if byFinish then
      if s.finished then NextAt(Finish(s), k, AwaitFinish(false, FinishReturnsClose(s))) else s
    else if !s.polls.pc.PollReady? || s.polls.owner != k then s
    else
      var s1 := s.(polls := s.polls.(pc := NoPoll));
      if s.polls.pc.outcome == PollRejects then NextAt(s1, k, Catch(false))
      else if s.finished then NextAt(Finish(s1), k, AwaitFinish(false, FinishReturnsClose(s1)))
      else match s.polls.pc.outcome
        case NullValue => NextAt(Finish(s1), k, AwaitFinish(false, FinishReturnsClose(s1)))
        case MapThrows => NextAt(s1, k, Catch(false))
        case Mapped => NextAt(s1, k, Settled(Value))
        case _ => LoopOrEnd(s1, k)
  }

  /** The promise a `finish()` returned has settled. */
  predicate FinishSettled(s: State, onClose: bool) {
    !onClose || s.res.main.Closed? || s.res.main.CloseFailed?
  }

  predicate FinishFailed(s: State, onClose: bool) {
    onClose && s.res.main.CloseFailed?
  }

  function AfterAwait(s: State, k: nat): State
    requires k < |s.nexts|
  {
    match s.nexts[k]
    case AwaitFinish(afterNull, onClose) =>
      if !FinishSettled(s, onClose) then s
      else if FinishFailed(s, onClose) && !(afterNull && s.consumed) then NextAt(s, k, Catch(true))
      else NextAt(s, k, Settled(Ended))
    case AwaitCatch(closeFailure, onClose) =>
      if !FinishSettled(s, onClose) then s
      else NextAt(s.(consumed := s.consumed || FinishFailed(s, onClose)), k, Settled(Threw(closeFailure)))
    case _ => s
  }

  function ReturnStep(s: State, r: nat): State
    requires r < |s.exits|
  {
    match s.exits[r]
    case Called => Finish(s).(exits := s.exits[r := AwaitReturn(FinishReturnsClose(s))])
    case AwaitReturn(onClose) =>
      if !FinishSettled(s, onClose) then s
      else if FinishFailed(s, onClose) && !s.consumed
      then s.(consumed := true, exits := s.exits[r := Returned(Threw(true))])
      else s.(exits := s.exits[r := Returned(Ended)])
    case Returned(_) => s
  }

  /** `sequence` lets a call begin when the previous one has settled. */
  predicate MayBegin(s: State, k: nat) {
    k < |s.nexts| && s.nexts[k].Queued? && (k == 0 || s.nexts[k - 1].Settled?)
  }

  function Step(s: State, l: Label): State {
    match l
    case CallNext => s.(nexts := s.nexts + [Queued])
    case CallReturn => s.(exits := s.exits + [Called])
    case Abort =>
      if !s.signal.present || s.signal.aborted then s
      else
        var s1 := s.(signal := s.signal.(aborted := true));
        if s1.signal.listening then Finish(s1.(signal := s1.signal.(listening := false))) else s1
    case Begin(k) => if MayBegin(s, k) then BeginNext(s, k) else s
    case InvokeStart => if s.start.pc.StartQueued? then s.(start := Start(StartInvoked, s.start.invoked + 1)) else s
    case StartSettles(ok) => if s.start.pc.StartInvoked? then s.(start := s.start.(pc := if ok then Fulfilled else Rejected)) else s
    case StartReaction =>
      if !s.start.pc.Fulfilled? then s
      else if s.finished then s.(start := s.start.(pc := Observed), res := s.res.(late := Asked))
      else s.(start := s.start.(pc := Observed), res := s.res.(held := true))
    case ResumeStart(k, byFinish) => if k < |s.nexts| && s.nexts[k].WaitStart? then AfterStart(s, k, byFinish) else s
    case Continue(k) => if k < |s.nexts| then ContinueNext(s, k) else s
    case PollSettles(outcome) => if s.polls.pc.PollPending? then s.(polls := s.polls.(pc := PollReady(outcome))) else s
    case ResumePoll(k, byFinish) => if k < |s.nexts| && s.nexts[k].Polling? then AfterPoll(s, k, byFinish) else s
    case ResumeAwait(k) => if k < |s.nexts| then AfterAwait(s, k) else s
    case BeginReturn(r) => if r < |s.exits| && s.exits[r].Called? then ReturnStep(s, r) else s
    case ResumeReturn(r) => if r < |s.exits| && s.exits[r].AwaitReturn? then ReturnStep(s, r) else s
    case InvokeClose => if s.res.main.Asked? then s.(res := s.res.(main := Invoked)) else s
    case CloseSettles(ok) => if s.res.main.Invoked? then s.(res := s.res.(main := if ok then Closed else CloseFailed)) else s
    case InvokeLateClose => if s.res.late.Asked? then s.(res := s.res.(late := Invoked)) else s
  }

  function Run(s: State, labels: seq<Label>): State
    decreases |labels|
  {
    if labels == [] then s else Run(Step(s, labels[0]), labels[1..])
  }

  // ── Invariant ───────────────────────────────────────────────────────────────

  /** Close requests made for the one handle a browse can obtain. */
  function CloseRequests(s: State): nat {
    (if s.res.main.NotAsked? then 0 else 1) + (if s.res.late.NotAsked? then 0 else 1)
  }

  predicate ResourceOk(s: State) {
    && (s.res.held <==> s.start.pc.Observed? && !s.finished)
    && (!s.finished ==> CloseRequests(s) == 0)
    && (!s.start.pc.Observed? ==> CloseRequests(s) == 0)
    && (s.finished && s.start.pc.Observed? ==> CloseRequests(s) == 1)
  }

  predicate StartOk(s: State) {
    s.start.invoked == if s.start.pc.NotStarted? || s.start.pc.StartQueued? then 0 else 1
  }

  predicate Running(pc: NextPc) {
    pc.WaitStart? || pc.GotHandle? || pc.GotNull? || pc.Polling? || pc.AwaitFinish? || pc.Catch? || pc.AwaitCatch?
  }

  /** Calls settle in order: behind a running or queued call everything is queued. */
  ghost predicate InOrder(nexts: seq<NextPc>) {
    forall j, k | 0 <= j < k < |nexts| && !nexts[j].Settled? :: nexts[k].Queued?
  }

  predicate PollsOk(s: State) {
    && s.polls.overlaps == 0
    && (!s.finished && !s.polls.pc.NoPoll? ==> s.polls.owner < |s.nexts| && s.nexts[s.polls.owner].Polling?)
  }

  ghost predicate Inv(s: State) {
    ResourceOk(s) && StartOk(s) && InOrder(s.nexts) && PollsOk(s)
  }

  /** `finish()` keeps the books: it closes a held handle and nothing else. */
  lemma FinishKeepsResource(s: State)
    requires ResourceOk(s)
    ensures ResourceOk(Finish(s)) && Finish(s).finished
  {
  }

  lemma OrderAllows(nexts: seq<NextPc>, k: nat, pc: NextPc)
    requires InOrder(nexts) && k < |nexts|
    requires Running(nexts[k]) || (nexts[k].Queued? && (k == 0 || nexts[k - 1].Settled?))
    ensures InOrder(nexts[k := pc])
  {
    if nexts[k].Queued? && k > 0 {
      forall j | 0 <= j < k ensures nexts[j].Settled? {
      }
    }
  }

  /** Two different calls never run at the same time. */
  lemma OneRunning(nexts: seq<NextPc>, j: nat, k: nat)
    requires InOrder(nexts) && j < |nexts| && k < |nexts| && Running(nexts[j]) && Running(nexts[k])
    ensures j == k
  {
  }

  predicate IsCallStretch(l: Label) {
    l.Begin? || l.ResumeStart? || l.Continue? || l.ResumePoll? || l.ResumeAwait?
  }

  /** A stretch of call `k` leaves every other call where it was. */
  lemma CallStretchKeepsOrder(s: State, l: Label)
    requires InOrder(s.nexts) && IsCallStretch(l)
    ensures InOrder(Step(s, l).nexts)
    ensures l.k < |s.nexts| ==> Step(s, l).nexts == s.nexts[l.k := Step(s, l).nexts[l.k]]
  {
    var k, s' := l.k, Step(s, l);
    if k < |s.nexts| && s'.nexts != s.nexts { OrderAllows(s.nexts, k, s'.nexts[k]); }
  }

  lemma BeginningKeepsInv(s: State, l: Label)
    requires Inv(s) && (l.Begin? || l.ResumeStart? || l.ResumeAwait?)
    ensures Inv(Step(s, l))
  {
    CallStretchKeepsOrder(s, l);
    FinishKeepsResource(s);
    if l.k < |s.nexts| && !s.finished && !s.polls.pc.NoPoll? && Running(s.nexts[l.k]) { OneRunning(s.nexts, s.polls.owner, l.k); }
  }

  lemma PollingKeepsInv(s: State, l: Label)
    requires Inv(s) && (l.Continue? || l.ResumePoll?)
    ensures Inv(Step(s, l))
  {
    CallStretchKeepsOrder(s, l);
    FinishKeepsResource(s);
    if l.k < |s.nexts| && !s.finished && !s.polls.pc.NoPoll? && Running(s.nexts[l.k]) { OneRunning(s.nexts, s.polls.owner, l.k); }
  }

  lemma OtherStretchKeepsInv(s: State, l: Label)
    requires Inv(s) && !IsCallStretch(l)
    ensures Inv(Step(s, l))
  {
    FinishKeepsResource(s);
  }

  lemma StepKeepsInv(s: State, l: Label)
    requires Inv(s)
    ensures Inv(Step(s, l))
  {
    if l.Begin? || l.ResumeStart? || l.ResumeAwait? {
      BeginningKeepsInv(s, l);
    } else if l.Continue? || l.ResumePoll? {
      PollingKeepsInv(s, l);
    } else {
      OtherStretchKeepsInv(s, l);
    }
  }

  lemma {:induction false} RunKeepsInv(s: State, labels: seq<Label>)
    requires Inv(s)
    ensures Inv(Run(s, labels))
    decreases |labels|
  {
    if labels != [] {
      StepKeepsInv(s, labels[0]);
      RunKeepsInv(Step(s, labels[0]), labels[1..]);
    }
  }

  lemma {:induction false} RunSplits(s: State, first: seq<Label>, second: seq<Label>)
    ensures Run(s, first + second) == Run(Run(s, first), second)
    decreases |first|
  {
    if first == [] {
      assert first + second == second;
    } else {
      assert (first + second)[0] == first[0] && (first + second)[1..] == first[1..] + second;
      RunSplits(Step(s, first[0]), first[1..], second);
    }
  }

  // ── Linearisation of the native lifecycle ───────────────────────────────────

  /** `start` is invoked at most once and no two polls are ever outstanding together,
      however many calls to `next()` are made.  */
  lemma OneStartOnePoll(hasSignal: bool, aborted: bool, labels: seq<Label>)
    ensures Run(Init(hasSignal, aborted), labels).start.invoked <= 1
    ensures Run(Init(hasSignal, aborted), labels).polls.overlaps == 0
  {
    RunKeepsInv(Init(hasSignal, aborted), labels);
  }

  lemma StepAfterFinish(s: State, l: Label)
    requires s.finished
    ensures Step(s, l).finished && Step(s, l).polls.invoked == s.polls.invoked
    ensures s.consumed ==> Step(s, l).consumed
  {
  }

  lemma {:induction false} RunAfterFinish(s: State, labels: seq<Label>)
    requires s.finished
    ensures Run(s, labels).finished && Run(s, labels).polls.invoked == s.polls.invoked
    decreases |labels|
  {
    if labels != [] {
      StepAfterFinish(s, labels[0]);
      RunAfterFinish(Step(s, labels[0]), labels[1..]);
    }
  }

  /** Termination is permanent, and no poll is invoked after it. */
  lemma NoPollAfterTermination(hasSignal: bool, aborted: bool, before: seq<Label>, after: seq<Label>)
    requires Run(Init(hasSignal, aborted), before).finished
    ensures Run(Init(hasSignal, aborted), before + after).finished
    ensures Run(Init(hasSignal, aborted), before + after).polls.invoked == Run(Init(hasSignal, aborted), before).polls.invoked
  {
    RunSplits(Init(hasSignal, aborted), before, after);
    RunAfterFinish(Run(Init(hasSignal, aborted), before), after);
  }

  /** The handle `start` resolved with, early or late, gets exactly one close if the
      iterator has terminated, and none while it runs.  */
  lemma HandleClosedExactlyOnce(hasSignal: bool, aborted: bool, labels: seq<Label>)
    ensures var s := Run(Init(hasSignal, aborted), labels);
            && CloseRequests(s) == (if s.finished && s.start.pc.Observed? then 1 else 0)
            && (s.res.held ==> !s.finished)
  {
    RunKeepsInv(Init(hasSignal, aborted), labels);
  }

  /** Native closes invoked so far. */
  function CloseInvocations(s: State): nat {
    (if s.res.main.NotAsked? || s.res.main.Asked? then 0 else 1) + (if s.res.late.NotAsked? || s.res.late.Asked? then 0 else 1)
  }

  /** From any state in which the iterator has terminated and `start` has resolved, at most
      two more microtasks invoke the native close; it never happens twice.  */
  lemma CloseGetsInvoked(hasSignal: bool, aborted: bool, before: seq<Label>) returns (after: seq<Label>)
    requires var s := Run(Init(hasSignal, aborted), before); s.finished && (s.start.pc.Fulfilled? || s.start.pc.Observed?)
    ensures |after| <= 2 && CloseInvocations(Run(Init(hasSignal, aborted), before + after)) == 1
  {
    var s := Run(Init(hasSignal, aborted), before);
    RunKeepsInv(Init(hasSignal, aborted), before);
    if s.start.pc.Fulfilled? {
      after := [StartReaction, InvokeLateClose];
      assert after[1..] == [InvokeLateClose] && [InvokeLateClose][1..] == [];
      assert Run(s, after) == Run(Step(Step(s, StartReaction), InvokeLateClose), []);
    } else if s.res.main.Asked? {
      after := [InvokeClose];
      assert Run(s, after) == Run(Step(s, InvokeClose), []);
    } else if s.res.late.Asked? {
      after := [InvokeLateClose];
      assert Run(s, after) == Run(Step(s, InvokeLateClose), []);
    } else {
      after := [];
    }
    RunSplits(Init(hasSignal, aborted), before, after);
  }

  // ── Termination unblocks every call ─────────────────────────────────────────

  /** A call that waits for the close promise does so after the close was asked for. */
  predicate AwaitsAsked(s: State, k: nat)
    requires k < |s.nexts|
  {
    (s.nexts[k].AwaitFinish? || s.nexts[k].AwaitCatch?) && s.nexts[k].onClose ==> !s.res.main.NotAsked?
  }

  lemma MainStaysAsked(s: State, l: Label)
    ensures !s.res.main.NotAsked? ==> !Step(s, l).res.main.NotAsked?
  {
  }

  lemma StretchAwaitsAsked(s: State, l: Label)
    requires IsCallStretch(l) && l.k < |s.nexts| && AwaitsAsked(s, l.k)
    ensures l.k < |Step(s, l).nexts| && AwaitsAsked(Step(s, l), l.k)
  {
  }

  lemma StepAwaitsAsked(s: State, l: Label, k: nat)
    requires Inv(s) && k < |Step(s, l).nexts| && (k < |s.nexts| ==> AwaitsAsked(s, k))
    ensures AwaitsAsked(Step(s, l), k)
  {
    MainStaysAsked(s, l);
    if IsCallStretch(l) {
      CallStretchKeepsOrder(s, l);
      if l.k < |s.nexts| && k == l.k { StretchAwaitsAsked(s, l); }
    }
  }

  ghost predicate AllAsked(s: State) {
    forall k: nat | k < |s.nexts| :: AwaitsAsked(s, k)
  }

  lemma {:induction false} RunAwaitsAsked(s: State, labels: seq<Label>)
    requires Inv(s) && AllAsked(s)
    ensures Inv(Run(s, labels)) && AllAsked(Run(s, labels))
    decreases |labels|
  {
    if labels != [] {
      var s' := Step(s, labels[0]);
      StepKeepsInv(s, labels[0]);
      forall k: nat | k < |s'.nexts| ensures AwaitsAsked(s', k) { StepAwaitsAsked(s, labels[0], k); }
      RunAwaitsAsked(s', labels[1..]);
    }
  }

  /** A stretch of one of the first `k + 1` calls, or of the native close, which settles with `ok`. */
  predicate Helps(l: Label, k: nat, ok: bool) {
    || (l.Begin? && l.k <= k) || (l.Continue? && l.k <= k) || (l.ResumeAwait? && l.k <= k)
    || (l.ResumeStart? && l.k <= k && l.byFinish) || (l.ResumePoll? && l.k <= k && l.byFinish)
    || l.InvokeClose? || l == CloseSettles(ok)
  }

  /** How many stretches a running call is away from settling. */
  function Distance(s: State, k: nat): nat
    requires k < |s.nexts|
  {
    (match s.nexts[k]
     case WaitStart => 5 case GotNull => 4 case Polling => 4 case AwaitFinish(_, _) => 3
     case Catch(_) => 2 case AwaitCatch(_, _) => 1 case GotHandle => 1 case _ => 0)
    + (if s.res.main.Asked? then 2 else if s.res.main.Invoked? then 1 else 0)
  }

  /** The stretch that brings a running call on. */
  function NextStretch(s: State, k: nat, ok: bool): Label
    requires k < |s.nexts|
  {
    match s.nexts[k]
    case WaitStart => ResumeStart(k, true)
    case Polling => ResumePoll(k, true)
    case AwaitFinish(_, onClose) => AwaitStretch(s, k, onClose, ok)
    case AwaitCatch(_, onClose) => AwaitStretch(s, k, onClose, ok)
    case _ => Continue(k)
  }

  function AwaitStretch(s: State, k: nat, onClose: bool, ok: bool): Label {
    if FinishSettled(s, onClose) then ResumeAwait(k) else if s.res.main.Asked? then InvokeClose else CloseSettles(ok)
  }

  /** Once finished, each such stretch brings the call nearer, whatever the native promises do. */
  lemma NextStretchHelps(s: State, k: nat, ok: bool)
    requires Inv(s) && s.finished && k < |s.nexts| && Running(s.nexts[k]) && AwaitsAsked(s, k)
    ensures var s' := Step(s, NextStretch(s, k, ok));
            && s'.finished && k < |s'.nexts| && (Running(s'.nexts[k]) || s'.nexts[k].Settled?)
            && Distance(s', k) < Distance(s, k) && Helps(NextStretch(s, k, ok), k, ok)
  {
    assert !s.res.held;
  }

  lemma {:induction false} RunningCallSettles(s: State, k: nat, ok: bool) returns (labels: seq<Label>)
    requires Inv(s) && AllAsked(s) && s.finished && k < |s.nexts| && Running(s.nexts[k])
    ensures |labels| <= 7 && forall l | l in labels :: Helps(l, k, ok)
    ensures |labels| <= Distance(s, k)
    ensures var s' := Run(s, labels); s'.finished && k < |s'.nexts| && s'.nexts[k].Settled?
    decreases Distance(s, k)
  {
    var l := NextStretch(s, k, ok);
    var s' := Step(s, l);
    NextStretchHelps(s, k, ok);
    RunAwaitsAsked(s, [l]);
    assert [l][1..] == [] && Run(s, [l]) == Run(s', []);
    if s'.nexts[k].Settled? {
      labels := [l];
    } else {
      var rest := RunningCallSettles(s', k, ok);
      labels := [l] + rest;
      assert labels[1..] == rest;
    }
  }

  lemma HelpsMonotone(labels: seq<Label>, j: nat, k: nat, ok: bool)
    requires j <= k && forall l | l in labels :: Helps(l, j, ok)
    ensures forall l | l in labels :: Helps(l, k, ok)
  {
  }

  lemma NextsStay(s: State, l: Label)
    ensures |Step(s, l).nexts| >= |s.nexts|
  {
  }

  lemma {:induction false} RunNextsStay(s: State, labels: seq<Label>)
    ensures |Run(s, labels).nexts| >= |s.nexts|
    decreases |labels|
  {
    if labels != [] {
      NextsStay(s, labels[0]);
      RunNextsStay(Step(s, labels[0]), labels[1..]);
    }
  }

  /** A call whose turn has come settles within eight stretches. */
  lemma CallSettles(s: State, k: nat, ok: bool) returns (labels: seq<Label>)
    requires Inv(s) && AllAsked(s) && s.finished && k < |s.nexts| && (k == 0 || s.nexts[k - 1].Settled?)
    ensures |labels| <= 8 && forall l | l in labels :: Helps(l, k, ok)
    ensures var s' := Run(s, labels); s'.finished && k < |s'.nexts| && s'.nexts[k].Settled?
  {
    if s.nexts[k].Settled? {
      labels := [];
    } else if s.nexts[k].Queued? {
      var s' := Step(s, Begin(k));
      RunAwaitsAsked(s, [Begin(k)]);
      assert [Begin(k)][1..] == [] && Run(s, [Begin(k)]) == Run(s', []);
      assert s'.nexts[k].GotNull?;
      var rest := RunningCallSettles(s', k, ok);
      labels := [Begin(k)] + rest;
      assert labels[1..] == rest;
    } else {
      labels := RunningCallSettles(s, k, ok);
    }
  }

  lemma {:induction false} AllSettleUpTo(s: State, k: nat, ok: bool) returns (labels: seq<Label>)
    requires Inv(s) && AllAsked(s) && s.finished && k < |s.nexts|
    ensures |labels| <= 8 * (k + 1) && forall l | l in labels :: Helps(l, k, ok)
    ensures var s' := Run(s, labels); s'.finished && k < |s'.nexts| && s'.nexts[k].Settled?
    decreases k
  {
    if k == 0 {
      labels := CallSettles(s, k, ok);
    } else {
      var first := AllSettleUpTo(s, k - 1, ok);
      HelpsMonotone(first, k - 1, k, ok);
      RunAwaitsAsked(s, first);
      RunNextsStay(s, first);
      var second := CallSettles(Run(s, first), k, ok);
      RunSplits(s, first, second);
      labels := first + second;
    }
  }

  /** Termination unblocks every call: from every reachable finished state, and whether the native
      close succeeds or fails, the `k`-th call of `next()` settles within `8 * (k + 1)` stretches of
      the calls up to it and of the close, without anything more from the native start or poll.  */
  lemma FinishUnblocks(hasSignal: bool, aborted: bool, before: seq<Label>, k: nat, ok: bool) returns (after: seq<Label>)
    requires var s := Run(Init(hasSignal, aborted), before); s.finished && k < |s.nexts|
    ensures |after| <= 8 * (k + 1) && forall l | l in after :: Helps(l, k, ok)
    ensures var s' := Run(Init(hasSignal, aborted), before + after); k < |s'.nexts| && s'.nexts[k].Settled?
  {
    RunAwaitsAsked(Init(hasSignal, aborted), before);
    after := AllSettleUpTo(Run(Init(hasSignal, aborted), before), k, ok);
    RunSplits(Init(hasSignal, aborted), before, after);
  }

  // ── Sticky termination ──────────────────────────────────────────────────────

  /** Where a call that begins after termination can be. */
  predicate LateCall(pc: NextPc) {
    pc.Queued? || pc.GotNull? || (pc.AwaitFinish? && pc.afterNull) || (pc.Catch? && pc.closeFailure)
    || (pc.AwaitCatch? && pc.closeFailure) || (pc.Settled? && (pc.result == Ended || pc.result == Threw(true)))
  }

  /** The same, when the close failure has been consumed already. */
  predicate SilentCall(pc: NextPc) {
    pc.Queued? || pc.GotNull? || (pc.AwaitFinish? && pc.afterNull) || pc == Settled(Ended)
  }

  lemma StepKeepsLateCall(s: State, l: Label, k: nat)
    requires s.finished && k < |s.nexts|
    ensures k < |Step(s, l).nexts|
    ensures LateCall(s.nexts[k]) ==> LateCall(Step(s, l).nexts[k])
    ensures s.consumed && SilentCall(s.nexts[k]) ==> SilentCall(Step(s, l).nexts[k])
  {
  }

  lemma {:induction false} LateCallsStayLate(s: State, labels: seq<Label>, k: nat)
    requires s.finished && k < |s.nexts|
    ensures k < |Run(s, labels).nexts|
    ensures LateCall(s.nexts[k]) ==> LateCall(Run(s, labels).nexts[k])
    ensures s.consumed && SilentCall(s.nexts[k]) ==> SilentCall(Run(s, labels).nexts[k])
    decreases |labels|
  {
    if labels != [] {
      StepAfterFinish(s, labels[0]);
      StepKeepsLateCall(s, labels[0], k);
      LateCallsStayLate(Step(s, labels[0]), labels[1..], k);
    }
  }

  /** A call to `next()` that had not begun when the iterator finished never yields a value
      or another error: it ends, or throws the close failure; and once that failure was
      consumed it can only end.  */
  lemma LaterNextIsSticky(hasSignal: bool, aborted: bool, before: seq<Label>, after: seq<Label>, k: nat)
    requires var s := Run(Init(hasSignal, aborted), before); s.finished && k < |s.nexts| && s.nexts[k].Queued?
    ensures var s := Run(Init(hasSignal, aborted), before);
            var s' := Run(Init(hasSignal, aborted), before + after);
            && k < |s'.nexts|
            && (s'.nexts[k].Settled? ==> s'.nexts[k].result == Ended || s'.nexts[k].result == Threw(true))
            && (s'.nexts[k].Settled? && s.consumed ==> s'.nexts[k].result == Ended)
  {
    RunSplits(Init(hasSignal, aborted), before, after);
    LateCallsStayLate(Run(Init(hasSignal, aborted), before), after, k);
  }

  predicate SilentReturn(pc: ReturnPc) {
    pc.Called? || pc.AwaitReturn? || pc == Returned(Ended)
  }

  lemma StepKeepsSilentReturn(s: State, l: Label, r: nat)
    requires s.consumed && r < |s.exits| && SilentReturn(s.exits[r])
    ensures Step(s, l).consumed && r < |Step(s, l).exits| && SilentReturn(Step(s, l).exits[r])
  {
  }

  lemma {:induction false} SilentReturnsStaySilent(s: State, labels: seq<Label>, r: nat)
    requires s.consumed && r < |s.exits| && SilentReturn(s.exits[r])
    ensures r < |Run(s, labels).exits| && SilentReturn(Run(s, labels).exits[r])
    decreases |labels|
  {
    if labels != [] {
      StepKeepsSilentReturn(s, labels[0], r);
      SilentReturnsStaySilent(Step(s, labels[0]), labels[1..], r);
    }
  }

  /** A `return()` that has not settled when the failure is marked consumed ends quietly. */
  lemma LaterReturnIsSticky(hasSignal: bool, aborted: bool, before: seq<Label>, after: seq<Label>, r: nat)
    requires var s := Run(Init(hasSignal, aborted), before); s.consumed && r < |s.exits| && !s.exits[r].Returned?
    ensures var s' := Run(Init(hasSignal, aborted), before + after);
            r < |s'.exits| && (s'.exits[r].Returned? ==> s'.exits[r].result == Ended)
  {
    RunSplits(Init(hasSignal, aborted), before, after);
    SilentReturnsStaySilent(Run(Init(hasSignal, aborted), before), after, r);
  }
}
