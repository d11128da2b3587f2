/** `runDiscoveryAdvertisement`: start one native advertisement and keep it until the
    signal aborts.  Labels are synchronous JavaScript stretches; a label that is not
    enabled changes nothing.  */
module DiscoveryAdvertisement {

  datatype Pc = Entry | AwaitBare | WaitRace | WaitAbort | AwaitClose | Settled(threw: bool)

  datatype StartPc = NotStarted | StartQueued | StartInvoked | Fulfilled | Rejected

  datatype ClosePc = NotAsked | Asked | Invoked | Closed | CloseFailed

  /** `lateHook`: cancellation won the race, and a handle that still arrives is retired. */
  datatype Close = Close(pc: ClosePc, lateHook: bool, requests: nat)

  datatype State = State(hasSignal: bool, aborted: bool, start: StartPc, starts: nat, call: Pc, close: Close)

  datatype Label =
    | Begin | Abort
    | InvokeStart | StartSettles(ok: bool)
    | ResumeBare | ResumeRace(byAbort: bool) | ResumeAbort | LateReaction
    | InvokeClose | CloseSettles(ok: bool) | ResumeClose

  function Init(hasSignal: bool, aborted: bool): State {
    State(hasSignal, hasSignal && aborted, NotStarted, 0, Entry, Close(NotAsked, false, 0))
  }

  /** `cleanup(close, handle)`. */
  function AskClose(c: Close): Close {
    c.(pc := Asked, requests := c.requests + 1)
  }

  function Step(s: State, l: Label): State {
    match l
    case Begin =>
      if !s.call.Entry? then s
      else if !s.hasSignal then s.(call := AwaitBare, start := StartInvoked, starts := s.starts + 1)
      else if s.aborted then s.(call := Settled(false))
      else s.(call := WaitRace, start := StartQueued)
    case Abort => if s.hasSignal then s.(aborted := true) else s
    case InvokeStart => if s.start.StartQueued? then s.(start := StartInvoked, starts := s.starts + 1) else s
    case StartSettles(ok) => if s.start.StartInvoked? then s.(start := if ok then Fulfilled else Rejected) else s
    case ResumeBare =>
      if s.call.AwaitBare? && (s.start.Fulfilled? || s.start.Rejected?) then s.(call := Settled(s.start.Rejected?)) else s
    case ResumeRace(byAbort) =>
      if !s.call.WaitRace? then s
      else if byAbort then (if s.aborted then s.(call := Settled(false), close := s.close.(lateHook := true)) else s)
      else if s.start.Rejected? then s.(call := Settled(true))
      else if s.start.Fulfilled? then s.(call := WaitAbort)
      else s
    case ResumeAbort => if s.call.WaitAbort? && s.aborted then s.(call := AwaitClose, close := AskClose(s.close)) else s
    case LateReaction =>
      if s.close.lateHook && (s.start.Fulfilled? || s.start.Rejected?)
      then s.(close := if s.start.Fulfilled? then AskClose(s.close.(lateHook := false)) else s.close.(lateHook := false))
      else s
    case InvokeClose => if s.close.pc.Asked? then s.(close := s.close.(pc := Invoked)) else s
    case CloseSettles(ok) => if s.close.pc.Invoked? then s.(close := s.close.(pc := if ok then Closed else CloseFailed)) else s
    case ResumeClose =>
      if s.call.AwaitClose? && (s.close.pc.Closed? || s.close.pc.CloseFailed?)
      then s.(call := Settled(s.close.pc.CloseFailed?)) else s
  }

  function Run(s: State, labels: seq<Label>): State
    decreases |labels|
  {
    if labels == [] then s else Run(Step(s, labels[0]), labels[1..])
  }

  predicate Inv(s: State) {
    && (s.aborted ==> s.hasSignal)
    && s.starts == (if s.start.NotStarted? || s.start.StartQueued? then 0 else 1)
    && (s.call.Entry? ==> s.start.NotStarted?)
    && (s.call.AwaitBare? ==> !s.hasSignal)
    && (s.call.WaitRace? || s.call.WaitAbort? || s.call.AwaitClose? ==> s.hasSignal && !s.start.NotStarted?)
    && (s.call.WaitAbort? || s.call.AwaitClose? ==> s.start.Fulfilled?)
    && (s.close.lateHook ==> s.call == Settled(false) && s.aborted && !s.start.NotStarted?)
    && (s.call.Settled? && s.hasSignal && !s.close.lateHook ==> s.start.NotStarted? || s.start.Fulfilled? || s.start.Rejected?)
    && (s.close.requests == 0 <==> s.close.pc.NotAsked?)
    && (s.close.requests > 0 ==> s.aborted && s.start.Fulfilled?)
    && s.close.requests == (if s.hasSignal && s.start.Fulfilled? && !s.close.lateHook && (s.call.AwaitClose? || s.call.Settled?) then 1 else 0)
  }

  lemma StepKeepsInv(s: State, l: Label)
    requires Inv(s)
    ensures Inv(Step(s, l))
  {
  }

  lemma {:induction false} RunKeepsInv(s: State, labels: seq<Label>)
    requires Inv(s)
    ensures Inv(Run(s, labels))
    decreases |labels|
  {
    if labels != [] {
      StepKeepsInv(s, labels[0]);
      RunKeepsInv(Step(s, labels[0]), labels[1..]);
    }
  }

  /** The handle is closed at most once, only after an abort, and, when the operation has
      settled and no late reaction is outstanding, exactly when a signalled start produced
      one.  `start` is invoked at most once.  */
  lemma ClosedOnceIffAborted(hasSignal: bool, aborted: bool, labels: seq<Label>)
    ensures var s := Run(Init(hasSignal, aborted), labels);
            && s.starts <= 1 && s.close.requests <= 1
            && (s.close.requests == 1 ==> s.aborted && s.start.Fulfilled?)
            && (s.call.Settled? && !s.close.lateHook ==> (s.close.requests == 1 <==> hasSignal && s.start.Fulfilled?))
  {
    RunKeepsInv(Init(hasSignal, aborted), labels);
    SignalIsFixed(Init(hasSignal, aborted), labels);
  }

  lemma {:induction false} SignalIsFixed(s: State, labels: seq<Label>)
    ensures Run(s, labels).hasSignal == s.hasSignal
    decreases |labels|
  {
    if labels != [] { SignalIsFixed(Step(s, labels[0]), labels[1..]); }
  }

  /** A signal that was aborted before the call means no native start at all. */
  lemma {:induction false} AbortedBeforeNeverStarts(labels: seq<Label>)
    ensures var s := Run(Init(true, true), labels);
            s.starts == 0 && s.close.requests == 0
  {
    NeverStarts(Init(true, true), labels);
  }

  lemma {:induction false} NeverStarts(s: State, labels: seq<Label>)
    requires s.hasSignal && s.aborted && s.start.NotStarted? && s.starts == 0 && s.close == Close(NotAsked, false, 0)
    requires s.call.Entry? || s.call.Settled?
    ensures Run(s, labels).starts == 0 && Run(s, labels).close.requests == 0
    decreases |labels|
  {
    if labels != [] { NeverStarts(Step(s, labels[0]), labels[1..]); }
  }

  lemma AbortAsksForClose(s: State)
    requires Inv(s) && s.aborted && s.start.Fulfilled?
    ensures var s1 := Step(Step(Step(s, ResumeRace(false)), ResumeAbort), LateReaction);
            Inv(s1) && s1.close.requests == 1 && !s1.close.lateHook && (s1.call.Settled? || s1.call.AwaitClose?)
  {
    StepKeepsInv(s, ResumeRace(false));
    StepKeepsInv(Step(s, ResumeRace(false)), ResumeAbort);
    StepKeepsInv(Step(Step(s, ResumeRace(false)), ResumeAbort), LateReaction);
  }

  lemma CloseWindsUp(s: State)
    requires Inv(s) && s.close.requests == 1 && !s.close.lateHook && (s.call.Settled? || s.call.AwaitClose?)
    ensures var s1 := Step(Step(Step(s, InvokeClose), CloseSettles(true)), ResumeClose);
            s1.call.Settled? && !s1.close.lateHook && s1.close.requests == 1 && !s1.close.pc.Asked?
  {
    assert !Step(s, InvokeClose).close.pc.Asked?;
    assert Step(Step(s, InvokeClose), CloseSettles(true)).close.pc.Closed? || Step(Step(s, InvokeClose), CloseSettles(true)).close.pc.CloseFailed?;
  }

  /** After an abort the operation always winds up: at most six stretches settle the call
      and invoke the close of a handle that was obtained.  */
  lemma AbortCanComplete(hasSignal: bool, aborted: bool, before: seq<Label>) returns (after: seq<Label>)
    requires var s := Run(Init(hasSignal, aborted), before); s.aborted && s.start.Fulfilled?
    ensures |after| <= 6
    ensures var s := Run(Run(Init(hasSignal, aborted), before), after);
            s.call.Settled? && !s.close.lateHook && s.close.requests == 1 && !s.close.pc.Asked?
  {
    var s := Run(Init(hasSignal, aborted), before);
    RunKeepsInv(Init(hasSignal, aborted), before);
    var s1 := Step(Step(Step(s, ResumeRace(false)), ResumeAbort), LateReaction);
    AbortAsksForClose(s);
    CloseWindsUp(s1);
    after := [ResumeRace(false), ResumeAbort, LateReaction] + [InvokeClose, CloseSettles(true), ResumeClose];
    RunOfThree(s, ResumeRace(false), ResumeAbort, LateReaction, [InvokeClose, CloseSettles(true), ResumeClose]);
    RunOfThree(s1, InvokeClose, CloseSettles(true), ResumeClose, []);
    assert [InvokeClose, CloseSettles(true), ResumeClose] + [] == [InvokeClose, CloseSettles(true), ResumeClose];
  }

  lemma RunOfThree(s: State, a: Label, b: Label, c: Label, rest: seq<Label>)
    ensures Run(s, [a, b, c] + rest) == Run(Step(Step(Step(s, a), b), c), rest)
  {
    assert ([a, b, c] + rest)[1..] == [b, c] + rest && ([b, c] + rest)[1..] == [c] + rest && ([c] + rest)[1..] == rest;
    assert Run(s, [a, b, c] + rest) == Run(Step(s, a), [b, c] + rest);
    assert Run(Step(s, a), [b, c] + rest) == Run(Step(Step(s, a), b), [c] + rest);
  }
}
