/** How often a failed native close is reported to the callers of a discovery iterator. */
module DiscoveryReports {
  import opened DiscoveryIterator

  const REPORT := Threw(true)

  predicate NextReported(s: State, k: nat) {
    k < |s.nexts| && s.nexts[k] == Settled(REPORT)
  }

  predicate ReturnReported(s: State, r: nat) {
    r < |s.exits| && s.exits[r] == Returned(REPORT)
  }

  // ── Invariant ───────────────────────────────────────────────────────────────

  predicate CallOk(s: State, k: nat)
    requires k < |s.nexts|
  {
    && (s.nexts[k] == Catch(true) ==> s.res.main.CloseFailed?)
    && (s.nexts[k].AwaitCatch? && s.nexts[k].closeFailure ==> s.nexts[k].onClose && s.res.main.CloseFailed?)
    && (s.nexts[k] == Settled(REPORT) ==> s.consumed && forall j | k < j < |s.nexts| :: SilentCall(s.nexts[j]))
  }

  ghost predicate ReportInv(s: State) {
    && (s.consumed ==> s.res.main.CloseFailed?)
    && (forall k: nat | k < |s.nexts| :: CallOk(s, k))
    && (forall r: nat | ReturnReported(s, r) :: s.consumed)
    && (forall q: nat, r: nat | ReturnReported(s, q) && ReturnReported(s, r) :: q == r)
  }

  lemma FailureStays(s: State, l: Label)
    ensures s.res.main.CloseFailed? ==> Step(s, l).res.main.CloseFailed?
    ensures s.consumed ==> Step(s, l).consumed
  {
  }

  lemma FailedIsFinished(s: State)
    requires Inv(s) && s.res.main.CloseFailed?
    ensures s.finished
  {
  }

  /** A stretch of call `k` itself. */
  lemma StretchKeepsCallOk(s: State, l: Label)
    requires Inv(s) && IsCallStretch(l) && l.k < |s.nexts| && CallOk(s, l.k)
    ensures l.k < |Step(s, l).nexts|
    ensures Step(s, l).nexts[l.k] == Catch(true) ==> Step(s, l).res.main.CloseFailed?
    ensures var pc := Step(s, l).nexts[l.k]; pc.AwaitCatch? && pc.closeFailure ==> pc.onClose && Step(s, l).res.main.CloseFailed?
    ensures Step(s, l).nexts[l.k] == Settled(REPORT) ==> Step(s, l).consumed
    ensures Step(s, l).nexts[l.k] == Settled(REPORT) && s.nexts[l.k] != Settled(REPORT) ==> !s.nexts[l.k].Settled?
  {
  }

  lemma StretchKeepsReports(s: State, l: Label)
    requires Inv(s) && ReportInv(s) && IsCallStretch(l) && l.k < |s.nexts|
    ensures forall k: nat | k < |Step(s, l).nexts| :: CallOk(Step(s, l), k)
  {
    var s' := Step(s, l);
    CallStretchKeepsOrder(s, l);
    StretchKeepsCallOk(s, l);
    FailureStays(s, l);
    forall k: nat | k < |s'.nexts| ensures CallOk(s', k) {
      assert CallOk(s, k);
      if s'.nexts[k] == Settled(REPORT) {
        forall j | k < j < |s'.nexts| ensures SilentCall(s'.nexts[j]) {
          if s.nexts[k] == Settled(REPORT) {
            FailedIsFinished(s);
            StepKeepsLateCall(s, l, j);
          }
        }
      }
    }
  }

  lemma OtherKeepsCalls(s: State, l: Label)
    requires Inv(s) && ReportInv(s) && (!IsCallStretch(l) || l.k >= |s.nexts|)
    ensures forall k: nat | k < |Step(s, l).nexts| :: CallOk(Step(s, l), k)
  {
    var s' := Step(s, l);
    FailureStays(s, l);
    assert s'.nexts == s.nexts || s'.nexts == s.nexts + [Queued];
    forall k: nat | k < |s'.nexts| ensures CallOk(s', k) {
      if k < |s.nexts| { assert CallOk(s, k); }
    }
  }

  lemma StepKeepsReturns(s: State, l: Label)
    requires ReportInv(s)
    ensures Step(s, l).consumed ==> Step(s, l).res.main.CloseFailed?
    ensures forall r: nat | ReturnReported(Step(s, l), r) :: Step(s, l).consumed
    ensures forall q: nat, r: nat | ReturnReported(Step(s, l), q) && ReturnReported(Step(s, l), r) :: q == r
  {
    var s' := Step(s, l);
    FailureStays(s, l);
    if l.ResumeReturn? && s'.exits != s.exits {
      forall q: nat | ReturnReported(s', q) && q != l.r ensures ReturnReported(s, q) {}
    } else {
      forall q: nat | ReturnReported(s', q) ensures ReturnReported(s, q) {}
    }
  }

  lemma StepKeepsReportInv(s: State, l: Label)
    requires Inv(s) && ReportInv(s)
    ensures ReportInv(Step(s, l))
  {
    StepKeepsReturns(s, l);
    if IsCallStretch(l) && l.k < |s.nexts| { StretchKeepsReports(s, l); } else { OtherKeepsCalls(s, l); }
  }

  lemma {:induction false} RunKeepsReportInv(s: State, labels: seq<Label>)
    requires Inv(s) && ReportInv(s)
    ensures Inv(Run(s, labels)) && ReportInv(Run(s, labels))
    decreases |labels|
  {
    if labels != [] {
      StepKeepsInv(s, labels[0]);
      StepKeepsReportInv(s, labels[0]);
      RunKeepsReportInv(Step(s, labels[0]), labels[1..]);
    }
  }

  // ── Theorems ────────────────────────────────────────────────────────────────

  /** Over every run at most one call of `next()` and at most one of `return()` report the failed
      close.  */
  lemma ReportedOnceEachWay(hasSignal: bool, aborted: bool, labels: seq<Label>)
    ensures var s := Run(Init(hasSignal, aborted), labels);
            && (forall j: nat, k: nat | NextReported(s, j) && NextReported(s, k) :: j == k)
            && (forall q: nat, r: nat | ReturnReported(s, q) && ReturnReported(s, r) :: q == r)
  {
    var s := Run(Init(hasSignal, aborted), labels);
    RunKeepsReportInv(Init(hasSignal, aborted), labels);
    forall j: nat, k: nat | NextReported(s, j) && NextReported(s, k)
      ensures j == k
    {
      assert CallOk(s, j) && CallOk(s, k);
    }
  }

  /** A call that can still report the failure: it polls, or waits for the close after a poll, or
      has already seen the failure.  */
  predicate MayReport(pc: NextPc) {
    || pc.Polling? || (pc.AwaitFinish? && !pc.afterNull && pc.onClose)
    || pc == Catch(true) || (pc.AwaitCatch? && pc.closeFailure)
  }

  ghost predicate NoneMayReport(s: State) {
    forall k: nat | k < |s.nexts| :: !MayReport(s.nexts[k]) && !NextReported(s, k)
  }

  /** Once the failure is consumed, a call that cannot report it any more stays so. */
  lemma StretchKeepsSilent(s: State, l: Label)
    requires s.finished && s.consumed && IsCallStretch(l) && l.k < |s.nexts|
    requires !MayReport(s.nexts[l.k]) && !NextReported(s, l.k)
    ensures l.k < |Step(s, l).nexts| && !MayReport(Step(s, l).nexts[l.k]) && !NextReported(Step(s, l), l.k)
  {
  }

  lemma StepKeepsSilent(s: State, l: Label)
    requires Inv(s) && s.finished && s.consumed && NoneMayReport(s)
    ensures NoneMayReport(Step(s, l))
  {
    var s' := Step(s, l);
    if IsCallStretch(l) && l.k < |s.nexts| {
      CallStretchKeepsOrder(s, l);
      assert !MayReport(s.nexts[l.k]) && !NextReported(s, l.k);
      StretchKeepsSilent(s, l);
    } else {
      assert s'.nexts == s.nexts || s'.nexts == s.nexts + [Queued];
    }
    forall k: nat | k < |s'.nexts| ensures !MayReport(s'.nexts[k]) && !NextReported(s', k) {
      if k < |s.nexts| { assert !MayReport(s.nexts[k]) && !NextReported(s, k); }
    }
  }

  lemma {:induction false} RunKeepsSilent(s: State, labels: seq<Label>)
    requires Inv(s) && ReportInv(s) && s.consumed && NoneMayReport(s)
    ensures NoneMayReport(Run(s, labels))
    decreases |labels|
  {
    if labels != [] {
      FailedIsFinished(s);
      StepKeepsInv(s, labels[0]);
      StepKeepsReportInv(s, labels[0]);
      FailureStays(s, labels[0]);
      StepKeepsSilent(s, labels[0]);
      RunKeepsSilent(Step(s, labels[0]), labels[1..]);
    }
  }

  /** A call that can still report the failure does so after at most four of its own stretches. */
  lemma {:induction false} CallReports(s: State, k: nat) returns (labels: seq<Label>)
    requires Inv(s) && ReportInv(s) && s.consumed && k < |s.nexts| && MayReport(s.nexts[k])
    ensures |labels| <= 4 && NextReported(Run(s, labels), k)
    ensures |labels| <= Left(s.nexts[k])
    decreases Left(s.nexts[k])
  {
    FailedIsFinished(s);
    assert CallOk(s, k);
    var l := if s.nexts[k].Polling? then ResumePoll(k, true) else if s.nexts[k].Catch? then Continue(k) else ResumeAwait(k);
    var s' := Step(s, l);
    StepKeepsInv(s, l);
    StepKeepsReportInv(s, l);
    FailureStays(s, l);
    if s.nexts[k].AwaitCatch? {
      labels := [l];
      assert labels[1..] == [] && Run(s, labels) == Run(s', []);
    } else {
      var rest := CallReports(s', k);
      labels := [l] + rest;
      assert labels[1..] == rest;
    }
  }

  function Left(pc: NextPc): nat {
    if pc.Polling? then 4 else if pc.AwaitFinish? then 3 else if pc.Catch? then 2 else 1
  }

  /** Call `k` has reported the failure after these further stretches. */
  predicate ReportsBy(s: State, after: seq<Label>, k: nat) {
    NextReported(Run(s, after), k)
  }

  /** After a `return()` has reported the failure, no call of `next()` ever reports it as well
      exactly if none could at that point.  */
  lemma ReportedOnlyOnceIff(hasSignal: bool, aborted: bool, before: seq<Label>, r: nat)
    requires ReturnReported(Run(Init(hasSignal, aborted), before), r)
    ensures var s := Run(Init(hasSignal, aborted), before);
            (forall after: seq<Label>, k: nat :: !ReportsBy(s, after, k)) <==> NoneMayReport(s)
  {
    var s := Run(Init(hasSignal, aborted), before);
    RunKeepsReportInv(Init(hasSignal, aborted), before);
    if NoneMayReport(s) {
      forall after: seq<Label>, k: nat ensures !ReportsBy(s, after, k) { RunKeepsSilent(s, after); }
    } else {
      var k: nat :| k < |s.nexts| && (MayReport(s.nexts[k]) || NextReported(s, k));
      if NextReported(s, k) {
        assert ReportsBy(s, [], k);
      } else {
        var after := CallReports(s, k);
        assert ReportsBy(s, after, k);
      }
    }
  }

  /** After a `next()` has reported it, no `return()` that had not does. */
  lemma NextReportIsLast(hasSignal: bool, aborted: bool, before: seq<Label>, after: seq<Label>, k: nat, r: nat)
    requires NextReported(Run(Init(hasSignal, aborted), before), k)
    requires !ReturnReported(Run(Init(hasSignal, aborted), before), r)
    ensures !ReturnReported(Run(Init(hasSignal, aborted), before + after), r)
  {
    RunKeepsReportInv(Init(hasSignal, aborted), before);
    RunSplits(Init(hasSignal, aborted), before, after);
    ReturnsStaySilent(Run(Init(hasSignal, aborted), before), after, k, r);
  }

  lemma {:induction false} ReturnsStaySilent(s: State, after: seq<Label>, k: nat, r: nat)
    requires Inv(s) && ReportInv(s) && NextReported(s, k) && !ReturnReported(s, r)
    ensures !ReturnReported(Run(s, after), r)
    decreases |after|
  {
    if after != [] {
      assert CallOk(s, k);
      var s' := Step(s, after[0]);
      StepKeepsInv(s, after[0]);
      StepKeepsReportInv(s, after[0]);
      FailedIsFinished(s);
      ReportStays(s, after[0], k, r);
      ReturnsStaySilent(s', after[1..], k, r);
    }
  }

  lemma ReportStays(s: State, l: Label, k: nat, r: nat)
    requires s.consumed && NextReported(s, k) && !ReturnReported(s, r)
    ensures NextReported(Step(s, l), k) && !ReturnReported(Step(s, l), r)
  {
  }

  // ── Both ways at once ───────────────────────────────────────────────────────

  /** `return()` is called while call `k` polls, and the close it asks for fails. */
  function ReturnWhilePolling(s: State): seq<Label> {
    var r := |s.exits|;
    [CallReturn, BeginReturn(r), InvokeClose, CloseSettles(false), ResumeReturn(r)]
  }

  lemma FiveSteps(s: State, a: Label, b: Label, c: Label, d: Label, e: Label)
    ensures Run(s, [a, b, c, d, e]) == Step(Step(Step(Step(Step(s, a), b), c), d), e)
  {
    var s1, s2 := Step(s, a), Step(Step(s, a), b);
    var s3, s4 := Step(s2, c), Step(Step(s2, c), d);
    assert [a, b, c, d, e][1..] == [b, c, d, e] && [b, c, d, e][1..] == [c, d, e];
    assert [c, d, e][1..] == [d, e] && [d, e][1..] == [e] && [e][1..] == [];
    assert Run(s1, [b, c, d, e]) == Run(s2, [c, d, e]);
    assert Run(s2, [c, d, e]) == Run(s3, [d, e]) && Run(s3, [d, e]) == Run(s4, [e]);
    assert Run(s4, [e]) == Run(Step(s4, e), []);
  }

  lemma ReturnReportsWhilePolling(s: State, k: nat)
    requires Inv(s) && ReportInv(s) && !s.finished && s.res.held && k < |s.nexts| && s.nexts[k].Polling?
    ensures var s' := Run(s, ReturnWhilePolling(s));
            ReturnReported(s', |s.exits|) && s'.consumed && k < |s'.nexts| && s'.nexts[k].Polling?
  {
    var r := |s.exits|;
    var s2 := Step(Step(s, CallReturn), BeginReturn(r));
    ReturnAsks(s, k);
    CloseFails(s2, r);
    FiveSteps(s, CallReturn, BeginReturn(r), InvokeClose, CloseSettles(false), ResumeReturn(r));
  }

  lemma ReturnAsks(s: State, k: nat)
    requires Inv(s) && ReportInv(s) && !s.finished && s.res.held && k < |s.nexts| && s.nexts[k].Polling?
    ensures var r := |s.exits|;
            var s' := Step(Step(s, CallReturn), BeginReturn(r));
            && |s'.exits| == r + 1 && s'.exits[r] == AwaitReturn(true) && s'.res.main.Asked? && !s'.consumed
            && s'.nexts == s.nexts
  {
  }

  lemma CloseFails(s: State, r: nat)
    requires r < |s.exits| && s.exits[r] == AwaitReturn(true) && s.res.main.Asked? && !s.consumed
    ensures var s' := Step(Step(Step(s, InvokeClose), CloseSettles(false)), ResumeReturn(r));
            ReturnReported(s', r) && s'.consumed && s'.nexts == s.nexts
  {
  }

  lemma BothReport(s: State, k: nat) returns (after: seq<Label>)
    requires Inv(s) && ReportInv(s) && !s.finished && s.res.held && k < |s.nexts| && s.nexts[k].Polling?
    ensures var s' := Run(s, after); ReturnReported(s', |s.exits|) && NextReported(s', k)
  {
    var first := ReturnWhilePolling(s);
    ReturnReportsWhilePolling(s, k);
    RunKeepsReportInv(s, first);
    var second := CallReports(Run(s, first), k);
    RunSplits(s, first, second);
    ReportsStay(Run(s, first), second, |s.exits|);
    after := first + second;
  }

  /** A call polls only a handle that was obtained. */
  ghost predicate PollsHandle(s: State) {
    forall k: nat | k < |s.nexts| && (s.nexts[k].GotHandle? || s.nexts[k].Polling?) :: s.start.pc.Observed?
  }

  lemma ObservedStays(s: State, l: Label)
    ensures s.start.pc.Observed? ==> Step(s, l).start.pc.Observed?
  {
  }

  lemma StretchPollsHandle(s: State, l: Label)
    requires Inv(s) && IsCallStretch(l) && l.k < |s.nexts|
    requires s.nexts[l.k].GotHandle? || s.nexts[l.k].Polling? ==> s.start.pc.Observed?
    ensures l.k < |Step(s, l).nexts|
    ensures Step(s, l).nexts[l.k].GotHandle? || Step(s, l).nexts[l.k].Polling? ==> Step(s, l).start.pc.Observed?
  {
  }

  lemma StepPollsHandle(s: State, l: Label)
    requires Inv(s) && PollsHandle(s)
    ensures PollsHandle(Step(s, l))
  {
    var s' := Step(s, l);
    ObservedStays(s, l);
    if IsCallStretch(l) && l.k < |s.nexts| {
      CallStretchKeepsOrder(s, l);
      StretchPollsHandle(s, l);
    } else {
      assert s'.nexts == s.nexts || s'.nexts == s.nexts + [Queued];
    }
  }

  lemma {:induction false} RunPollsHandle(s: State, labels: seq<Label>)
    requires Inv(s) && PollsHandle(s)
    ensures PollsHandle(Run(s, labels))
    decreases |labels|
  {
    if labels != [] {
      StepKeepsInv(s, labels[0]);
      StepPollsHandle(s, labels[0]);
      RunPollsHandle(Step(s, labels[0]), labels[1..]);
    }
  }

  /** From every reachable state in which the iterator runs and a call polls, a `return()` and that
      call can both report the one failed close.  */
  lemma BothCanReport(hasSignal: bool, aborted: bool, before: seq<Label>, k: nat) returns (after: seq<Label>)
    requires var s := Run(Init(hasSignal, aborted), before); !s.finished && k < |s.nexts| && s.nexts[k].Polling?
    ensures var r := |Run(Init(hasSignal, aborted), before).exits|;
            var s' := Run(Init(hasSignal, aborted), before + after);
            ReturnReported(s', r) && NextReported(s', k)
  {
    RunKeepsReportInv(Init(hasSignal, aborted), before);
    RunPollsHandle(Init(hasSignal, aborted), before);
    after := BothReport(Run(Init(hasSignal, aborted), before), k);
    RunSplits(Init(hasSignal, aborted), before, after);
  }

  /** A first call starts the browse, and the handle arrives. */
  lemma HandleArrives() returns (labels: seq<Label>)
    ensures var s := Run(Init(false, false), labels); !s.finished && s.nexts == [WaitStart] && s.start.pc.Observed?
  {
    labels := [CallNext, Begin(0), InvokeStart, StartSettles(true), StartReaction];
    var s2 := Step(Step(Init(false, false), CallNext), Begin(0));
    assert s2.nexts == [WaitStart] && s2.start.pc.StartQueued? && !s2.finished;
    FiveSteps(Init(false, false), CallNext, Begin(0), InvokeStart, StartSettles(true), StartReaction);
  }

  lemma HandleIsPolled(s: State)
    requires !s.finished && s.nexts == [WaitStart] && s.start.pc.Observed?
    ensures var s' := Run(s, [ResumeStart(0, false), Continue(0)]); !s'.finished && |s'.nexts| == 1 && s'.nexts[0].Polling?
  {
    var s1 := Step(s, ResumeStart(0, false));
    assert s1.nexts == [GotHandle] && !s1.finished;
    assert [ResumeStart(0, false), Continue(0)][1..] == [Continue(0)] && [Continue(0)][1..] == [];
    assert Run(s1, [Continue(0)]) == Run(Step(s1, Continue(0)), []);
  }

  /** A run into such a state. */
  lemma PollingArises() returns (labels: seq<Label>)
    ensures var s := Run(Init(false, false), labels); !s.finished && |s.nexts| == 1 && s.nexts[0].Polling?
  {
    var first := HandleArrives();
    HandleIsPolled(Run(Init(false, false), first));
    RunSplits(Init(false, false), first, [ResumeStart(0, false), Continue(0)]);
    labels := first + [ResumeStart(0, false), Continue(0)];
  }

  lemma StepKeepsReturned(s: State, l: Label, r: nat)
    requires ReturnReported(s, r)
    ensures ReturnReported(Step(s, l), r)
  {
  }

  lemma {:induction false} ReportsStay(s: State, labels: seq<Label>, r: nat)
    requires ReturnReported(s, r)
    ensures ReturnReported(Run(s, labels), r)
    decreases |labels|
  {
    if labels != [] {
      StepKeepsReturned(s, labels[0], r);
      ReportsStay(Step(s, labels[0]), labels[1..], r);
    }
  }
}
