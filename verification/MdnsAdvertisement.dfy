/** `MdnsAdvertisement` of `dns_sd.rs`: any number of `update()` and
    `request_close()` calls racing on one advertisement.

    A thread's program counter advances by one shared-memory action per `Tick`.
    The operation mutex, the `closing` flag, `close_result` and the daemon channel
    are the shared state.  A label that is not enabled changes nothing, so every
    finite sequence of labels is a run.  */
module MdnsAdvertisement {
  import opened Common
  import opened MdnsDaemon

  datatype Pc =
    // update()
    | UpdateEnter
    | UpdateAcquire
    | UpdateRecheck
    | UpdateUnregister(retries: nat)
    | UpdateReceive
    | UpdatePause
    | UpdateLastCheck
    | UpdateRegister(retries: nat)
    | UpdateRelease
    // request_close() and the cleanup it starts
    | CloseSwap
    | CleanupAcquire
    | CleanupCheck
    | CleanupUnregister(retries: nat)
    | CleanupShutdown(retries: nat, unregistered: Reply)
    | CleanupPublish(unregistered: Reply, stopped: Reply)
    | CleanupRelease
    | Finished

  datatype State = State(
    closing: bool,
    holder: Option<nat>,
    closeReport: Option<(Reply, Reply)>,
    daemon: Daemon,
    threads: seq<Pc>,
    // History, read by no step.
    closer: Option<nat>,
    registerOffers: nat,
    cleanups: nat)

  datatype Label =
    | SpawnUpdate
    | SpawnClose
    | Tick(thread: nat, wish: Wish, choice: bool)
    | DaemonProcess
    | DaemonDies

  /** `close_result`: absent, or whether the cleanup succeeded. */
  function CloseResult(s: State): Option<bool> {
    if s.closeReport.None? then None
    else Some(CloseSucceeds(s.closeReport.value.0, s.closeReport.value.1))
  }

  /** The state in which `advertise_inner` returns: registered, nobody closing. */
  function Init(): State {
    State(false, None, None, Daemon(true, false, [Register]), [], None, 0, 0)
  }

  function At(s: State, t: nat, pc: Pc): State
    requires t < |s.threads|
  {
    s.(threads := s.threads[t := pc])
  }

  function Step(s: State, l: Label): State {
    match l
    case SpawnUpdate => s.(threads := s.threads + [UpdateEnter])
    case SpawnClose => s.(threads := s.threads + [CloseSwap])
    case DaemonProcess => s.(daemon := Process(s.daemon))
    case DaemonDies => s.(daemon := Stopped())
    case Tick(t, wish, choice) =>
      if t >= |s.threads| then s
      else if UpdateSide(s.threads[t]) then UpdateStep(s, t, wish, choice)
      else if CloseSide(s.threads[t]) then CloseStep(s, t, wish)
      else s
  }

  predicate UpdateSide(pc: Pc) {
    pc.UpdateEnter? || pc.UpdateAcquire? || pc.UpdateRecheck? || pc.UpdateUnregister? || pc.UpdateReceive?
    || pc.UpdatePause? || pc.UpdateLastCheck? || pc.UpdateRegister? || pc.UpdateRelease?
  }

  predicate CloseSide(pc: Pc) {
    pc.CloseSwap? || pc.CleanupAcquire? || pc.CleanupCheck? || pc.CleanupUnregister? || pc.CleanupShutdown?
    || pc.CleanupPublish? || pc.CleanupRelease?
  }

  /** One action of `update()`.  `choice` stands for the parts outside the model:
      whether the new record keeps the identity, whether the goodbye receipt
      arrives, and whether the reannounce delay has elapsed.  */
  function UpdateStep(s: State, t: nat, wish: Wish, choice: bool): State
    requires t < |s.threads| && UpdateSide(s.threads[t])
  {
    match s.threads[t]
    case UpdateEnter => At(s, t, if s.closing || !choice then Finished else UpdateAcquire)
    case UpdateAcquire => if s.holder.None? then At(s.(holder := Some(t)), t, UpdateRecheck) else s
    case UpdateRecheck => At(s, t, if s.closing then UpdateRelease else UpdateUnregister(DAEMON_COMMAND_RETRIES))
    case UpdateUnregister(retries) =>
      var reply := ReplyTo(s.daemon, wish);
      var next := if reply == Sent then UpdateReceive
                  else if reply == Again && retries != 0 then UpdateUnregister(retries - 1)
                  else UpdateRelease;
      At(s.(daemon := Offer(s.daemon, Unregister, wish)), t, next)
    case UpdateReceive => At(s, t, if choice then UpdatePause else UpdateRelease)
    case UpdatePause => if s.closing || choice then At(s, t, UpdateLastCheck) else s
    case UpdateLastCheck => At(s, t, if s.closing then UpdateRelease else UpdateRegister(DAEMON_COMMAND_RETRIES))
    case UpdateRegister(retries) =>
      var reply := ReplyTo(s.daemon, wish);
      var next := if reply == Again && retries != 0 then UpdateRegister(retries - 1) else UpdateRelease;
      At(s.(daemon := Offer(s.daemon, Register, wish), registerOffers := s.registerOffers + 1), t, next)
    case UpdateRelease => At(s.(holder := None), t, Finished)
  }

  /** One action of `request_close()` or of the cleanup worker it starts. */
  function CloseStep(s: State, t: nat, wish: Wish): State
    requires t < |s.threads| && CloseSide(s.threads[t])
  {
    match s.threads[t]
    case CloseSwap =>
      if s.closing then At(s, t, Finished)
      else At(s.(closing := true, closer := Some(t)), t, CleanupAcquire)
    case CleanupAcquire => if s.holder.None? then At(s.(holder := Some(t)), t, CleanupCheck) else s
    case CleanupCheck =>
      if s.closeReport.Some? then At(s, t, CleanupRelease)
      else At(s.(cleanups := s.cleanups + 1), t, CleanupUnregister(DAEMON_COMMAND_RETRIES))
    case CleanupUnregister(retries) =>
      var reply := ReplyTo(s.daemon, wish);
      var next := if reply == Again && retries != 0 then CleanupUnregister(retries - 1)
                  else if reply == Shutdown then CleanupPublish(Shutdown, Shutdown)
                  else CleanupShutdown(DAEMON_COMMAND_RETRIES, reply);
      At(s.(daemon := Offer(s.daemon, Unregister, wish)), t, next)
    case CleanupShutdown(retries, unregistered) =>
      var reply := ReplyTo(s.daemon, wish);
      var next := if reply == Again && retries != 0 then CleanupShutdown(retries - 1, unregistered)
                  else CleanupPublish(unregistered, reply);
      At(s.(daemon := Offer(s.daemon, Exit, wish)), t, next)
    case CleanupPublish(unregistered, stopped) =>
      At(s.(closeReport := Some((unregistered, stopped))), t, CleanupRelease)
    case CleanupRelease => At(s.(holder := None), t, Finished)
  }

  function Run(s: State, labels: seq<Label>): State
    decreases |labels|
  {
    if labels == [] then s else Run(Step(s, labels[0]), labels[1..])
  }

  // ── Invariant ───────────────────────────────────────────────────────────────

  /** Inside the operation mutex. */
  predicate Locked(pc: Pc) {
    pc.UpdateRecheck? || Replacing(pc) || pc.UpdateRelease? || pc.CleanupCheck? || CleanupBody(pc) || pc.CleanupRelease?
  }

  /** Past the check made under the mutex, with a register still possible. */
  predicate Replacing(pc: Pc) {
    pc.UpdateUnregister? || pc.UpdateReceive? || pc.UpdatePause? || pc.UpdateLastCheck? || pc.UpdateRegister?
  }

  /** The thread that won the swap of `closing`, until its cleanup returns. */
  predicate Cleaning(pc: Pc) {
    pc.CleanupAcquire? || pc.CleanupCheck? || CleanupBody(pc) || pc.CleanupRelease?
  }

  /** Between the first daemon command of the cleanup and its published result. */
  predicate CleanupBody(pc: Pc) {
    pc.CleanupUnregister? || pc.CleanupShutdown? || pc.CleanupPublish?
  }

  /** What the cleaner has already achieved when it stands at `pc`. */
  predicate CleanerKnows(s: State, pc: Pc) {
    && ((pc.CleanupAcquire? || pc.CleanupCheck?) ==> s.closeReport.None? && s.cleanups == 0)
    && (CleanupBody(pc) ==> s.closeReport.None? && s.cleanups == 1)
    && (pc.CleanupRelease? ==> s.closeReport.Some?)
    && (pc.CleanupShutdown? ==> pc.unregistered != Shutdown && (pc.unregistered == Sent ==> !Survives(s.daemon)))
    && (pc.CleanupPublish? ==> Silenced(pc.unregistered, pc.stopped, s.daemon))
  }

  /** The daemon keeps announcing only if it refused both commands. */
  predicate Silenced(unregistered: Reply, stopped: Reply, d: Daemon) {
    Survives(d) ==> Refused(unregistered) && Refused(stopped)
  }

  predicate ThreadOk(s: State, t: nat, pc: Pc) {
    && (Locked(pc) <==> s.holder == Some(t))
    && (Cleaning(pc) ==> s.closer == Some(t))
    && (Replacing(pc) ==> s.closeReport.None?)
    && CleanerKnows(s, pc)
  }

  predicate SharedOk(s: State) {
    && (s.holder.Some? ==> s.holder.value < |s.threads|)
    && (s.closing <==> s.closer.Some?)
    && (s.closer.Some? ==>
          && s.closer.value < |s.threads|
          && (s.closeReport.None? ==> Cleaning(s.threads[s.closer.value])))
    && (!s.closing ==> s.cleanups == 0 && s.closeReport.None?)
    && (s.closeReport.Some? ==>
          && s.cleanups == 1
          && Silenced(s.closeReport.value.0, s.closeReport.value.1, s.daemon))
  }

  ghost predicate Inv(s: State) {
    && SharedOk(s)
    && (forall t: nat | t < |s.threads| :: ThreadOk(s, t, s.threads[t]))
  }

  lemma DaemonStepKeepsInv(s: State, d: Daemon)
    requires Inv(s) && (Survives(d) ==> Survives(s.daemon))
    ensures Inv(s.(daemon := d))
  {
    forall t: nat | t < |s.threads| ensures ThreadOk(s.(daemon := d), t, s.threads[t]) {
      assert ThreadOk(s, t, s.threads[t]);
    }
  }

  lemma SpawnKeepsInv(s: State, pc: Pc)
    requires Inv(s) && (pc.UpdateEnter? || pc.CloseSwap?)
    ensures Inv(s.(threads := s.threads + [pc]))
  {
    var s' := s.(threads := s.threads + [pc]);
    forall t: nat | t < |s'.threads| ensures ThreadOk(s', t, s'.threads[t]) {
      if t < |s.threads| { assert ThreadOk(s, t, s.threads[t]); }
    }
  }

  /** While one thread replaces the registration, the mutex keeps every other thread
      out of the cleanup body.  */
  lemma UpdateKeepsOthers(s: State, t: nat, wish: Wish, choice: bool, u: nat)
    requires Inv(s) && t < |s.threads| && UpdateSide(s.threads[t])
    requires u < |s.threads| && u != t
    ensures ThreadOk(UpdateStep(s, t, wish, choice), u, s.threads[u])
  {
    assert ThreadOk(s, t, s.threads[t]) && ThreadOk(s, u, s.threads[u]);
  }

  lemma UpdateKeepsOwn(s: State, t: nat, wish: Wish, choice: bool)
    requires Inv(s) && t < |s.threads| && UpdateSide(s.threads[t])
    ensures ThreadOk(UpdateStep(s, t, wish, choice), t, UpdateStep(s, t, wish, choice).threads[t])
    ensures SharedOk(UpdateStep(s, t, wish, choice))
  {
    assert ThreadOk(s, t, s.threads[t]);
  }

  lemma UpdateKeepsInv(s: State, t: nat, wish: Wish, choice: bool)
    requires Inv(s) && t < |s.threads| && UpdateSide(s.threads[t])
    ensures Inv(UpdateStep(s, t, wish, choice))
  {
    var s' := UpdateStep(s, t, wish, choice);
    UpdateKeepsOwn(s, t, wish, choice);
    forall u: nat | u < |s'.threads| ensures ThreadOk(s', u, s'.threads[u]) {
      if u != t {
        UpdateKeepsOthers(s, t, wish, choice, u);
        assert s'.threads[u] == s.threads[u];
      }
    }
  }

  lemma CloseKeepsInv(s: State, t: nat, wish: Wish)
    requires Inv(s) && t < |s.threads| && CloseSide(s.threads[t])
    ensures Inv(CloseStep(s, t, wish))
  {
    var s' := CloseStep(s, t, wish);
    assert ThreadOk(s, t, s.threads[t]);
    CleanerLearns(s, t, wish);
    forall u: nat | u < |s'.threads| ensures ThreadOk(s', u, s'.threads[u]) {
      assert ThreadOk(s, u, s.threads[u]);
    }
  }

  /** The acting thread's own facts about the daemon after one cleanup action. */
  lemma CleanerLearns(s: State, t: nat, wish: Wish)
    requires Inv(s) && t < |s.threads| && CloseSide(s.threads[t])
    ensures CleanerKnows(CloseStep(s, t, wish), CloseStep(s, t, wish).threads[t])
    ensures Survives(CloseStep(s, t, wish).daemon) ==> Survives(s.daemon)
  {
    assert ThreadOk(s, t, s.threads[t]);
    match s.threads[t]
    case CleanupUnregister(_) =>
      if !Survives(s.daemon) { StopKeepsSilence(s.daemon, Unregister, wish); }
      if !Refused(ReplyTo(s.daemon, wish)) { OfferedStopSilences(s.daemon, Unregister, wish); }
    case CleanupShutdown(_, _) =>
      if !Survives(s.daemon) { StopKeepsSilence(s.daemon, Exit, wish); }
      if !Refused(ReplyTo(s.daemon, wish)) { OfferedStopSilences(s.daemon, Exit, wish); }
    case _ =>
  }

  lemma StepKeepsInv(s: State, l: Label)
    requires Inv(s)
    ensures Inv(Step(s, l))
  {
    match l
    case SpawnUpdate => SpawnKeepsInv(s, UpdateEnter);
    case SpawnClose => SpawnKeepsInv(s, CloseSwap);
    case DaemonProcess => DaemonStepKeepsInv(s, Process(s.daemon));
    case DaemonDies => DaemonStepKeepsInv(s, Stopped());
    case Tick(t, wish, choice) =>
      if t < |s.threads| {
        if UpdateSide(s.threads[t]) { UpdateKeepsInv(s, t, wish, choice); }
        else if CloseSide(s.threads[t]) { CloseKeepsInv(s, t, wish); }
      }
  }

  lemma {:induction false} RunKeepsInv(s: State, labels: seq<Label>)
    requires Inv(s)
    ensures Inv(Run(s, labels))
    decreases |labels|
  {
    if labels != [] {
      StepKeepsInv(s, labels[0]);
      RunKeepsInv(Step(s, labels[0]), labels[1..]);
    }
  }

  lemma {:induction false} RunSplits(s: State, first: seq<Label>, second: seq<Label>)
    ensures Run(s, first + second) == Run(Run(s, first), second)
    decreases |first|
  {
    if first == [] {
      assert first + second == second;
    } else {
      assert (first + second)[0] == first[0] && (first + second)[1..] == first[1..] + second;
      RunSplits(Step(s, first[0]), first[1..], second);
    }
  }

  // ── Theorems ────────────────────────────────────────────────────────────────

  lemma ClosedStepRegistersNothing(s: State, l: Label)
    requires Inv(s) && s.closeReport.Some?
    ensures Step(s, l).closeReport == s.closeReport && Step(s, l).registerOffers == s.registerOffers
  {
    if l.Tick? && l.thread < |s.threads| { assert ThreadOk(s, l.thread, s.threads[l.thread]); }
  }

  lemma {:induction false} ClosedRunRegistersNothing(s: State, labels: seq<Label>)
    requires Inv(s) && s.closeReport.Some?
    ensures Run(s, labels).closeReport == s.closeReport && Run(s, labels).registerOffers == s.registerOffers
    decreases |labels|
  {
    if labels != [] {
      ClosedStepRegistersNothing(s, labels[0]);
      StepKeepsInv(s, labels[0]);
      ClosedRunRegistersNothing(Step(s, labels[0]), labels[1..]);
    }
  }

  /** Once `close_result` is set it never changes and no register is ever offered to
      the daemon again, whatever the other threads do.  */
  lemma NoRegisterAfterClose(before: seq<Label>, after: seq<Label>)
    requires CloseResult(Run(Init(), before)).Some?
    ensures CloseResult(Run(Init(), before + after)) == CloseResult(Run(Init(), before))
    ensures Run(Init(), before + after).registerOffers == Run(Init(), before).registerOffers
  {
    RunSplits(Init(), before, after);
    RunKeepsInv(Init(), before);
    ClosedRunRegistersNothing(Run(Init(), before), after);
  }

  /** A successful close means the service is withdrawn for good.  A failed close can
      leave it announced only when the daemon refused both the unregister and the
      shutdown.  */
  lemma CloseWithdraws(before: seq<Label>, after: seq<Label>)
    requires CloseResult(Run(Init(), before)).Some?
    ensures CloseResult(Run(Init(), before)) == Some(true) ==> !Survives(Run(Init(), before + after).daemon)
    ensures Survives(Run(Init(), before + after).daemon) ==>
              && Refused(Run(Init(), before).closeReport.value.0)
              && Refused(Run(Init(), before).closeReport.value.1)
  {
    NoRegisterAfterClose(before, after);
    RunSplits(Init(), before, after);
    RunKeepsInv(Init(), before);
    ClosedRunRegistersNothing(Run(Init(), before), after);
    RunKeepsInv(Init(), before + after);
  }

  ghost predicate NobodyRegistering(s: State) {
    forall t: nat | t < |s.threads| :: !s.threads[t].UpdateRegister?
  }

  /** `closing` alone already stops every update that has not passed its last check:
      unless some thread stands right before its register, none is ever offered again,
      even before the cleanup gets the mutex.  */
  lemma {:induction false} ClosingStopsLaterUpdates(s: State, labels: seq<Label>)
    requires s.closing && NobodyRegistering(s)
    ensures Run(s, labels).registerOffers == s.registerOffers && NobodyRegistering(Run(s, labels))
    decreases |labels|
  {
    if labels != [] {
      var s' := Step(s, labels[0]);
      forall t: nat | t < |s'.threads| ensures !s'.threads[t].UpdateRegister? {
        if t < |s.threads| { assert !s.threads[t].UpdateRegister?; }
      }
      ClosingStopsLaterUpdates(s', labels[1..]);
    }
  }

  /** The cleanup body runs at most once, and exactly once by the time a result exists. */
  lemma CleanupRunsOnce(labels: seq<Label>)
    ensures Run(Init(), labels).cleanups <= 1
    ensures CloseResult(Run(Init(), labels)).Some? ==> Run(Init(), labels).cleanups == 1
  {
    RunKeepsInv(Init(), labels);
    var s := Run(Init(), labels);
    if s.closing && s.closeReport.None? {
      assert ThreadOk(s, s.closer.value, s.threads[s.closer.value]);
    }
  }

  /** The race the operation mutex exists for: `closing` rises after the last check,
      the register is still issued, and the close that waited behind it succeeds.  */
  lemma RegisterCanOvertakeClosing() returns (before: seq<Label>, after: seq<Label>)
    ensures Run(Init(), before).closing && Run(Init(), before).registerOffers == 0
    ensures Run(Init(), before + after).registerOffers == 1
    ensures CloseResult(Run(Init(), before + after)) == Some(true)
  {
    var s;
    before, s := ClosingAfterLastCheck();
    after := CloseBehindRegister(s);
    RunSplits(Init(), before, after);
  }

  lemma ClosingAfterLastCheck() returns (labels: seq<Label>, s: State)
    ensures s == Run(Init(), labels)
    ensures s.closing && s.closeReport.None? && s.registerOffers == 0 && s.daemon.running
    ensures s.holder == Some(0) && s.threads == [UpdateRegister(DAEMON_COMMAND_RETRIES), CleanupAcquire]
  {
    var go := Tick(0, Accept, true);
    var first := [SpawnUpdate, SpawnClose, go, go, go];
    var second := [go, go, go, go, Tick(1, Accept, true)];
    RunOfFive(Init(), SpawnUpdate, SpawnClose, go, go, go);
    var middle := Run(Init(), first);
    assert middle.threads == [UpdateUnregister(DAEMON_COMMAND_RETRIES), CloseSwap];
    RunOfFive(middle, go, go, go, go, Tick(1, Accept, true));
    labels, s := first + second, Run(middle, second);
    RunSplits(Init(), first, second);
  }

  lemma CloseBehindRegister(s: State) returns (labels: seq<Label>)
    requires s.closing && s.closeReport.None? && s.registerOffers == 0 && s.daemon.running
    requires s.holder == Some(0) && s.threads == [UpdateRegister(DAEMON_COMMAND_RETRIES), CleanupAcquire]
    ensures Run(s, labels).registerOffers == 1 && CloseResult(Run(s, labels)) == Some(true)
  {
    var go := Tick(0, Accept, true);
    var close := Tick(1, Accept, true);
    var first := [go, go, close, close, close];
    var second := [close, close, close, DaemonProcess, DaemonProcess];
    RunOfFive(s, go, go, close, close, close);
    var middle := Run(s, first);
    assert middle.threads == [Finished, CleanupShutdown(DAEMON_COMMAND_RETRIES, Sent)];
    RunOfFive(middle, close, close, close, DaemonProcess, DaemonProcess);
    labels := first + second;
    RunSplits(s, first, second);
  }

  lemma RunOfFive(s: State, a: Label, b: Label, c: Label, d: Label, e: Label)
    ensures Run(s, [a, b, c, d, e]) == Step(Step(Step(Step(Step(s, a), b), c), d), e)
  {
    var run := [a, b, c, d, e];
    assert run[1..] == [b, c, d, e] && [b, c, d, e][1..] == [c, d, e];
    assert [c, d, e][1..] == [d, e] && [d, e][1..] == [e] && [e][1..] == [];
    assert Run(s, run) == Run(Step(Step(s, a), b), [c, d, e]);
    assert Run(Step(Step(s, a), b), [c, d, e]) == Run(Step(Step(Step(Step(s, a), b), c), d), [e]);
  }

  // ── A requested close can always complete ───────────────────────────────────

  /** Actions left until the thread leaves the mutex, on the shortest path. */
  function Rank(pc: Pc): nat {
    match pc
    case UpdateRelease => 1
    case UpdateRecheck => 2
    case UpdateRegister(_) => 2
    case UpdateLastCheck => 3
    case UpdatePause => 4
    case UpdateReceive => 5
    case UpdateUnregister(_) => 6
    case CleanupPublish(_, _) => 1
    case CleanupShutdown(_, _) => 2
    case CleanupUnregister(_) => 3
    case CleanupCheck => 4
    case CleanupAcquire => 5
    case _ => 0
  }

  function Work(s: State, cleaner: nat): nat
    requires cleaner < |s.threads|
  {
    Rank(s.threads[cleaner]) +
    if s.holder.Some? && s.holder.value != cleaner && s.holder.value < |s.threads| then Rank(s.threads[s.holder.value]) else 0
  }

  /** From every reachable state in which a close was requested, letting the mutex
      holder and then the cleaner run sets `close_result` within eleven actions:
      no interleaving wedges the advertisement half closed.  */
  lemma CloseCanComplete(s: State, cleaner: nat) returns (labels: seq<Label>)
    requires Inv(s) && s.closing && s.closeReport.None?
    requires cleaner < |s.threads| && Cleaning(s.threads[cleaner])
    ensures |labels| <= Work(s, cleaner) <= 11
    ensures forall l | l in labels :: l.Tick? && l.wish == Accept
    ensures CloseResult(Run(s, labels)).Some?
    decreases Work(s, cleaner)
  {
    var t := if s.holder.Some? then s.holder.value else cleaner;
    assert ThreadOk(s, t, s.threads[t]) && ThreadOk(s, cleaner, s.threads[cleaner]);
    assert CleanerKnows(s, s.threads[cleaner]);
    var l := Tick(t, Accept, true);
    var s' := Step(s, l);
    StepKeepsInv(s, l);
    if s'.closeReport.Some? {
      labels := [l];
      assert labels[1..] == [];
    } else {
      assert Cleaning(s'.threads[cleaner]);
      var rest := CloseCanComplete(s', cleaner);
      labels := [l] + rest;
      assert labels[1..] == rest;
    }
  }

  lemma RequestedCloseCanComplete(before: seq<Label>) returns (labels: seq<Label>)
    requires Run(Init(), before).closing
    ensures |labels| <= 11
    ensures CloseResult(Run(Init(), before + labels)).Some?
  {
    RunKeepsInv(Init(), before);
    var s := Run(Init(), before);
    if s.closeReport.Some? {
      labels := [];
      assert before + labels == before;
    } else {
      labels := CloseCanComplete(s, s.closer.value);
      RunSplits(Init(), before, labels);
    }
  }
}
