/** Waiting for an advertisement to be closed: `closed()`, which awaits a `Notify`, and
    `wait_closed_blocking()`, which sleeps on a condition variable.  Any number of waiters run
    beside the update and close threads of `MdnsAdvertisement`.  */
module MdnsWaiters {
  import opened Common
  import A = MdnsAdvertisement

  datatype Waiter =
    // closed()
    | Subscribe                    // about to create the `notified` future
    | Check(late: bool)            // `late`: the future was created after `notify_waiters`
    | Await(late: bool)
    // wait_closed_blocking()
    | Lock
    | Asleep
    | Returned(ok: bool)

  /** How far the cleanup has come with its result: it notifies under the state lock. */
  datatype Phase = NoResult | ResultSet | SleepersTold | AllTold

  datatype State = State(ad: A.State, phase: Phase, waiters: seq<Waiter>)

  datatype Label =
    | Ad(action: A.Label)                   // an action of the advertisement machine
    | NotifyAll | NotifyWaiters             // `closed_blocking.notify_all`, `closed.notify_waiters`
    | CallClosed | CallBlocking
    | Go(waiter: nat) | Spurious(waiter: nat)

  function Init(): State {
    State(A.Init(), NoResult, [])
  }

  predicate Notifying(phase: Phase) {
    phase.ResultSet? || phase.SleepersTold?
  }

  /** The cleanup holds the state lock from its check to its last notification. */
  predicate StateHeld(s: State) {
    Notifying(s.phase) || exists t | 0 <= t < |s.ad.threads| :: A.CleanupBody(s.ad.threads[t])
  }

  /** The cleanup has its notifications to make before it releases the operation mutex. */
  predicate Delayed(s: State, l: A.Label) {
    Notifying(s.phase) && l.Tick? && l.thread < |s.ad.threads| && s.ad.threads[l.thread].CleanupRelease?
  }

  function AdStep(s: State, l: A.Label): State {
    if Delayed(s, l) then s
    else
      var ad := A.Step(s.ad, l);
      s.(ad := ad, phase := if s.phase.NoResult? && ad.closeReport.Some? then ResultSet else s.phase)
  }

  /** What a waiter finds under the state lock. */
  function Look(s: State, otherwise: Waiter): Waiter {
    var result := A.CloseResult(s.ad);
    if result.Some? then Returned(result.value) else otherwise
  }

  function WaiterStep(s: State, w: Waiter): Waiter {
    match w
    case Subscribe => Check(s.phase.AllTold?)
    case Check(late) => if StateHeld(s) then w else Look(s, Await(late))
    case Await(late) => if s.phase.AllTold? && !late then Subscribe else w
    case Lock => if StateHeld(s) then w else Look(s, Asleep)
    case Asleep => w
    case Returned(_) => w
  }

  function Awoken(w: Waiter): Waiter {
    if w.Asleep? then Lock else w
  }

  function AllAwoken(waiters: seq<Waiter>): (r: seq<Waiter>)
    ensures |r| == |waiters| && forall i | 0 <= i < |r| :: r[i] == Awoken(waiters[i])
  {
    seq(|waiters|, i requires 0 <= i < |waiters| => Awoken(waiters[i]))
  }

  function Step(s: State, l: Label): State {
    match l
    case Ad(action) => AdStep(s, action)
    case NotifyAll => if s.phase.ResultSet? then s.(phase := SleepersTold, waiters := AllAwoken(s.waiters)) else s
    case NotifyWaiters => if s.phase.SleepersTold? then s.(phase := AllTold) else s
    case CallClosed => s.(waiters := s.waiters + [Subscribe])
    case CallBlocking => s.(waiters := s.waiters + [Lock])
    case Go(i) => if i < |s.waiters| then s.(waiters := s.waiters[i := WaiterStep(s, s.waiters[i])]) else s
    case Spurious(i) => if i < |s.waiters| then s.(waiters := s.waiters[i := Awoken(s.waiters[i])]) else s
  }

  function Run(s: State, labels: seq<Label>): State
    decreases |labels|
  {
    if labels == [] then s else Run(Step(s, labels[0]), labels[1..])
  }

  // ── Invariant ───────────────────────────────────────────────────────────────

  /** Nobody waits for a notification that has already been made. */
  predicate WaiterOk(s: State, w: Waiter) {
    && (w.Asleep? ==> s.phase.NoResult? || s.phase.ResultSet?)
    && ((w.Check? || w.Await?) && w.late ==> s.phase.AllTold?)
    && (w.Await? ==> !w.late)
    && (w.Returned? ==> A.CloseResult(s.ad) == Some(w.ok))
  }

  ghost predicate Inv(s: State) {
    && A.Inv(s.ad)
    && (s.phase.NoResult? <==> s.ad.closeReport.None?)
    && (forall i | 0 <= i < |s.waiters| :: WaiterOk(s, s.waiters[i]))
  }

  lemma AdKeepsInv(s: State, l: A.Label)
    requires Inv(s)
    ensures Inv(AdStep(s, l))
  {
    var s' := AdStep(s, l);
    A.StepKeepsInv(s.ad, l);
    if s.ad.closeReport.Some? { A.ClosedStepRegistersNothing(s.ad, l); }
    forall i | 0 <= i < |s'.waiters| ensures WaiterOk(s', s'.waiters[i]) {
      assert WaiterOk(s, s.waiters[i]);
    }
  }

  lemma StepKeepsInv(s: State, l: Label)
    requires Inv(s)
    ensures Inv(Step(s, l))
  {
    if l.Ad? {
      AdKeepsInv(s, l.action);
    } else {
      var s' := Step(s, l);
      forall i | 0 <= i < |s'.waiters| ensures WaiterOk(s', s'.waiters[i]) {
        if i < |s.waiters| { assert WaiterOk(s, s.waiters[i]); }
      }
    }
  }

  lemma {:induction false} RunKeepsInv(s: State, labels: seq<Label>)
    requires Inv(s)
    ensures Inv(Run(s, labels))
    decreases |labels|
  {
    if labels != [] {
      StepKeepsInv(s, labels[0]);
      RunKeepsInv(Step(s, labels[0]), labels[1..]);
    }
  }

  lemma {:induction false} RunSplits(s: State, first: seq<Label>, second: seq<Label>)
    ensures Run(s, first + second) == Run(Run(s, first), second)
    decreases |first|
  {
    if first == [] {
      assert first + second == second;
    } else {
      assert (first + second)[0] == first[0] && (first + second)[1..] == first[1..] + second;
      RunSplits(Step(s, first[0]), first[1..], second);
    }
  }

  // ── Theorems ────────────────────────────────────────────────────────────────

  /** Once the cleanup has notified, no waiter sleeps, and every one that awaits its future was
      reached by the notification; whoever returned got the one result.  */
  lemma NoWaiterIsMissed(labels: seq<Label>, i: nat)
    requires i < |Run(Init(), labels).waiters|
    ensures var s := Run(Init(), labels);
            && (s.phase.AllTold? ==> !s.waiters[i].Asleep? && s.waiters[i] != Await(true))
            && (s.waiters[i].Returned? ==> A.CloseResult(s.ad) == Some(s.waiters[i].ok))
  {
    RunKeepsInv(Init(), labels);
    var s := Run(Init(), labels);
    assert WaiterOk(s, s.waiters[i]);
  }

  /** Nobody returns before there is a result. */
  lemma NobodyReturnsEarly(labels: seq<Label>, i: nat)
    requires A.CloseResult(Run(Init(), labels).ad).None? && i < |Run(Init(), labels).waiters|
    ensures !Run(Init(), labels).waiters[i].Returned?
  {
    NoWaiterIsMissed(labels, i);
  }

  // ── Every waiter is released ────────────────────────────────────────────────

  /** How many of its own actions a waiter is away from returning, once all are told. */
  function Distance(w: Waiter): nat {
    match w case Await(_) => 3 case Subscribe => 2 case Check(_) => 1 case Lock => 1 case Asleep => 0 case Returned(_) => 0
  }

  lemma NobodyHoldsState(s: State)
    requires Inv(s) && s.phase.AllTold?
    ensures !StateHeld(s)
  {
    forall t: nat | t < |s.ad.threads| ensures !A.CleanupBody(s.ad.threads[t]) {
      assert A.ThreadOk(s.ad, t, s.ad.threads[t]);
    }
  }

  lemma {:induction false} ToldWaiterReturns(s: State, i: nat) returns (labels: seq<Label>)
    requires Inv(s) && s.phase.AllTold? && i < |s.waiters|
    ensures |labels| <= 3 && |labels| <= Distance(s.waiters[i]) && forall l | l in labels :: l == Go(i)
    ensures i < |Run(s, labels).waiters| && Run(s, labels).waiters[i].Returned?
    decreases Distance(s.waiters[i])
  {
    assert WaiterOk(s, s.waiters[i]);
    if s.waiters[i].Returned? {
      labels := [];
    } else {
      NobodyHoldsState(s);
      StepKeepsInv(s, Go(i));
      var rest := ToldWaiterReturns(Step(s, Go(i)), i);
      labels := [Go(i)] + rest;
      assert labels[1..] == rest;
    }
  }

  /** The notifications the cleanup still has to make. */
  function Notices(phase: Phase): seq<Label> {
    if phase.ResultSet? then [NotifyAll, NotifyWaiters] else if phase.SleepersTold? then [NotifyWaiters] else []
  }

  lemma NoticesTellAll(s: State)
    requires !s.phase.NoResult?
    ensures var s' := Run(s, Notices(s.phase)); s'.phase.AllTold? && |s'.waiters| == |s.waiters|
  {
    assert [NotifyWaiters][1..] == [] && [NotifyAll, NotifyWaiters][1..] == [NotifyWaiters];
    if s.phase.ResultSet? {
      var s1 := Step(s, NotifyAll);
      assert Run(s, [NotifyAll, NotifyWaiters]) == Run(s1, [NotifyWaiters]);
      assert Run(s1, [NotifyWaiters]) == Run(Step(s1, NotifyWaiters), []);
    } else if s.phase.SleepersTold? {
      assert Run(s, [NotifyWaiters]) == Run(Step(s, NotifyWaiters), []);
    }
  }

  /** With a result set, the cleanup's notifications and three actions of its own release a waiter. */
  lemma WaiterReturns(s: State, i: nat) returns (labels: seq<Label>)
    requires Inv(s) && !s.phase.NoResult? && i < |s.waiters|
    ensures |labels| <= 5
    ensures i < |Run(s, labels).waiters| && Run(s, labels).waiters[i].Returned?
  {
    var first := Notices(s.phase);
    NoticesTellAll(s);
    RunKeepsInv(s, first);
    var second := ToldWaiterReturns(Run(s, first), i);
    RunSplits(s, first, second);
    labels := first + second;
  }

  function Lifted(labels: seq<A.Label>): (r: seq<Label>)
    ensures |r| == |labels| && forall i | 0 <= i < |r| :: r[i] == Ad(labels[i])
  {
    seq(|labels|, i requires 0 <= i < |labels| => Ad(labels[i]))
  }

  lemma {:induction false} AdRunKeepsResult(s: State, labels: seq<A.Label>)
    requires Inv(s) && s.ad.closeReport.Some?
    ensures Run(s, Lifted(labels)).ad.closeReport.Some? && Run(s, Lifted(labels)).waiters == s.waiters
    decreases |labels|
  {
    if labels != [] {
      A.ClosedStepRegistersNothing(s.ad, labels[0]);
      AdKeepsInv(s, labels[0]);
      assert Lifted(labels)[1..] == Lifted(labels[1..]);
      AdRunKeepsResult(AdStep(s, labels[0]), labels[1..]);
    }
  }

  /** A run of the advertisement machine that sets a result sets one here as well. */
  lemma {:induction false} AdRunSetsResult(s: State, labels: seq<A.Label>)
    requires Inv(s) && A.Run(s.ad, labels).closeReport.Some?
    ensures Run(s, Lifted(labels)).ad.closeReport.Some? && Run(s, Lifted(labels)).waiters == s.waiters
    decreases |labels|
  {
    if s.ad.closeReport.Some? {
      AdRunKeepsResult(s, labels);
    } else if labels != [] {
      AdKeepsInv(s, labels[0]);
      assert Lifted(labels)[1..] == Lifted(labels[1..]);
      AdRunSetsResult(AdStep(s, labels[0]), labels[1..]);
    }
  }

  /** The advertisement part of every run is a run of the advertisement machine. */
  lemma {:induction false} AdRun(s: State, labels: seq<Label>) returns (actions: seq<A.Label>)
    ensures Run(s, labels).ad == A.Run(s.ad, actions)
    decreases |labels|
  {
    if labels == [] {
      actions := [];
    } else {
      var rest := AdRun(Step(s, labels[0]), labels[1..]);
      if labels[0].Ad? && !Delayed(s, labels[0].action) {
        actions := [labels[0].action] + rest;
        assert actions[1..] == rest;
      } else {
        actions := rest;
      }
    }
  }

  /** From every reachable state in which a close was requested, at most sixteen actions release a
      waiter with the close result: whenever it began to wait, and however it raced the cleanup.  */
  lemma EveryWaiterCanReturn(before: seq<Label>, i: nat) returns (after: seq<Label>)
    requires Run(Init(), before).ad.closing && i < |Run(Init(), before).waiters|
    ensures |after| <= 16
    ensures var s := Run(Init(), before + after);
            i < |s.waiters| && s.waiters[i].Returned? && A.CloseResult(s.ad) == Some(s.waiters[i].ok)
  {
    var s := Run(Init(), before);
    RunKeepsInv(Init(), before);
    var actions := AdRun(Init(), before);
    var close := A.RequestedCloseCanComplete(actions);
    A.RunSplits(A.Init(), actions, close);
    AdRunSetsResult(s, close);
    RunKeepsInv(s, Lifted(close));
    var rest := WaiterReturns(Run(s, Lifted(close)), i);
    after := Lifted(close) + rest;
    RunSplits(s, Lifted(close), rest);
    RunSplits(Init(), before, after);
    NoWaiterIsMissed(before + after, i);
  }
}
