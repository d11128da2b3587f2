/** `PeerBrowseShared` and `BrowseSession::next_event`: closing a peer browse while polls
    and the endpoint-task installation are in flight.

    Each label is one shared-memory action; a label that is not enabled changes nothing.
    Any number of `next_event()` and `close()` calls run, and one
    `install_endpoint_task()`.  Peer events are numbered.  */
module PeerBrowse {
  import opened Common

  /** What one record becomes: nothing usable, an event, or a replaced peer and an event. */
  datatype Events = NoEvent | OneEvent(first: int) | TwoEvents(first: int, second: int)

  datatype PollPc =
    | Gate | Check | Pop | Recheck(event: int) | Receive
    | LockPending(events: Events) | Decide(events: Events) | Extend(events: Events)
    | Leave(result: Option<int>) | Done(result: Option<int>)

  datatype ClosePc = Swap | Clear | Take | Returned(won: bool)

  datatype InstallPc = NotInstalling | Locking | Checking | Storing | Installed

  /** The endpoint task: its slot, whether it was aborted, and its installation. */
  datatype Task = Task(filled: bool, aborted: bool, install: InstallPc)

  /** The close that won the swap, and how far it came. */
  datatype Progress = Progress(winner: Option<nat>, cleared: bool, taken: bool)

  datatype State = State(
    closed: bool,
    pending: seq<int>,
    pendingLock: Option<nat>,
    gate: Option<nat>,
    task: Task,
    polls: seq<PollPc>,
    closes: seq<ClosePc>,
    // History, read by no step.
    won: Progress)

  datatype Label =
    | SpawnPoll | SpawnClose
    | PollTick(poll: nat, received: Events)       // `received`: the next record, if it comes to that
    | StreamEnds(poll: nat)
    | CloseTick(close: nat)
    | InstallTick

  function Init(): State {
    State(false, [], None, None, Task(false, false, NotInstalling), [], [], Progress(None, false, false))
  }

  function PollAt(s: State, p: nat, pc: PollPc): State
    requires p < |s.polls|
  {
    s.(polls := s.polls[p := pc])
  }

  function Later(events: Events): seq<int> {
    if events.TwoEvents? then [events.second] else []
  }

  function PollStep(s: State, p: nat, received: Events): State
    requires p < |s.polls|
  {
    match s.polls[p]
    case Gate => if s.gate.None? then PollAt(s.(gate := Some(p)), p, Check) else s
    case Check => PollAt(s, p, if s.closed then Leave(None) else Pop)
    case Pop =>
      if s.pendingLock.Some? then s
      // The lock guard lives through the second check of `closed`.
      else if s.pending != [] then PollAt(s.(pending := s.pending[1..], pendingLock := Some(p)), p, Recheck(s.pending[0]))
      else PollAt(s, p, Receive)
    case Recheck(event) => PollAt(s.(pendingLock := None), p, Leave(if s.closed then None else Some(event)))
    // A record without a usable node id yields no event and the poll goes round.
    case Receive => PollAt(s, p, if received.NoEvent? then Check else LockPending(received))
    case LockPending(events) =>
      if s.pendingLock.None? then PollAt(s.(pendingLock := Some(p)), p, Decide(events)) else s
    case Decide(events) =>
      if s.closed then PollAt(s.(pendingLock := None), p, Leave(None)) else PollAt(s, p, Extend(events))
    case Extend(events) =>
      if events.NoEvent? then s
      else PollAt(s.(pending := s.pending + Later(events), pendingLock := None), p, Leave(Some(events.first)))
    case Leave(result) => PollAt(s.(gate := None), p, Done(result))
    case Done(_) => s
  }

  predicate SlotLocked(s: State) {
    s.task.install.Checking? || s.task.install.Storing?
  }

  function CloseStep(s: State, c: nat): State
    requires c < |s.closes|
  {
    match s.closes[c]
    case Swap =>
      if s.closed then s.(closes := s.closes[c := Returned(false)])
      else s.(closed := true, won := s.won.(winner := Some(c)), closes := s.closes[c := Clear])
    case Clear =>
      if s.pendingLock.Some? then s else s.(pending := [], won := s.won.(cleared := true), closes := s.closes[c := Take])
    case Take =>
      if SlotLocked(s) then s
      else s.(task := s.task.(aborted := s.task.aborted || s.task.filled, filled := false), won := s.won.(taken := true),
              closes := s.closes[c := Returned(true)])
    case Returned(_) => s
  }

  function InstallStep(closed: bool, task: Task): Task {
    match task.install
    case NotInstalling => task.(install := Locking)
    case Locking => task.(install := Checking)
    case Checking => if closed then task.(aborted := true, install := Installed) else task.(install := Storing)
    case Storing => task.(filled := true, install := Installed)
    case Installed => task
  }

  function Step(s: State, l: Label): State {
    match l
    case SpawnPoll => s.(polls := s.polls + [Gate])
    case SpawnClose => s.(closes := s.closes + [Swap])
    case PollTick(p, received) => if p < |s.polls| then PollStep(s, p, received) else s
    case StreamEnds(p) =>
      // The poll closes the session and returns None; its close runs as any other.
      if p < |s.polls| && s.polls[p].Receive? then PollAt(s.(closes := s.closes + [Swap]), p, Leave(None)) else s
    case CloseTick(c) => if c < |s.closes| then CloseStep(s, c) else s
    case InstallTick => s.(task := InstallStep(s.closed, s.task))
  }

  function Run(s: State, labels: seq<Label>): State
    decreases |labels|
  {
    if labels == [] then s else Run(Step(s, labels[0]), labels[1..])
  }

  // ── Invariant ───────────────────────────────────────────────────────────────

  predicate PollOk(s: State, p: nat, pc: PollPc) {
    && ((pc.Recheck? || pc.Decide? || pc.Extend?) ==> s.pendingLock == Some(p))
    && (pc.Extend? ==> !s.won.cleared)
  }

  predicate CloseOk(s: State, c: nat, pc: ClosePc) {
    && ((pc.Clear? || pc.Take?) ==> s.won.winner == Some(c))
    && (pc.Clear? ==> !s.won.cleared && !s.won.taken)
    && (pc.Take? ==> s.won.cleared && !s.won.taken)
    && (pc.Returned? ==> s.closed && (pc.won ==> s.won.taken))
  }

  predicate SharedOk(s: State) {
    && (s.won.taken ==> s.won.cleared && !s.task.filled && !s.task.install.Storing?)
    && (s.won.cleared ==> s.closed && s.pending == [])
    && (s.closed <==> s.won.winner.Some?)
    && (s.closed && !s.won.cleared ==> s.won.winner.value < |s.closes| && s.closes[s.won.winner.value].Clear?)
    && (s.task.install.Installed? ==> s.task.aborted || s.task.filled)
  }

  ghost predicate Inv(s: State) {
    && SharedOk(s)
    && (forall p: nat | p < |s.polls| :: PollOk(s, p, s.polls[p]))
    && (forall c: nat | c < |s.closes| :: CloseOk(s, c, s.closes[c]))
  }

  lemma PollKeepsInv(s: State, p: nat, received: Events)
    requires Inv(s) && p < |s.polls|
    ensures Inv(PollStep(s, p, received))
  {
    var s' := PollStep(s, p, received);
    assert PollOk(s, p, s.polls[p]);
    assert s'.closes == s.closes;
    forall q: nat | q < |s'.polls| ensures PollOk(s', q, s'.polls[q]) {
      assert PollOk(s, q, s.polls[q]);
    }
    forall c: nat | c < |s'.closes| ensures CloseOk(s', c, s'.closes[c]) {
      assert CloseOk(s, c, s.closes[c]);
    }
  }

  lemma CloseKeepsInv(s: State, c: nat)
    requires Inv(s) && c < |s.closes|
    ensures Inv(CloseStep(s, c))
  {
    var s' := CloseStep(s, c);
    assert CloseOk(s, c, s.closes[c]);
    forall q: nat | q < |s'.polls| ensures PollOk(s', q, s'.polls[q]) {
      assert PollOk(s, q, s.polls[q]);
    }
    forall d: nat | d < |s'.closes| ensures CloseOk(s', d, s'.closes[d]) {
      assert CloseOk(s, d, s.closes[d]);
    }
  }

  lemma OtherKeepsInv(s: State, l: Label)
    requires Inv(s) && !l.PollTick? && !l.CloseTick?
    ensures Inv(Step(s, l))
  {
    var s' := Step(s, l);
    forall q: nat | q < |s'.polls| ensures PollOk(s', q, s'.polls[q]) {
      if q < |s.polls| { assert PollOk(s, q, s.polls[q]); }
    }
    forall d: nat | d < |s'.closes| ensures CloseOk(s', d, s'.closes[d]) {
      if d < |s.closes| { assert CloseOk(s, d, s.closes[d]); }
    }
  }

  lemma StepKeepsInv(s: State, l: Label)
    requires Inv(s)
    ensures Inv(Step(s, l))
  {
    if l.PollTick? {
      if l.poll < |s.polls| { PollKeepsInv(s, l.poll, l.received); }
    } else if l.CloseTick? {
      if l.close < |s.closes| { CloseKeepsInv(s, l.close); }
    } else {
      OtherKeepsInv(s, l);
    }
  }

  lemma {:induction false} RunKeepsInv(s: State, labels: seq<Label>)
    requires Inv(s)
    ensures Inv(Run(s, labels))
    decreases |labels|
  {
    if labels != [] {
      StepKeepsInv(s, labels[0]);
      RunKeepsInv(Step(s, labels[0]), labels[1..]);
    }
  }

  lemma {:induction false} RunSplits(s: State, first: seq<Label>, second: seq<Label>)
    ensures Run(s, first + second) == Run(Run(s, first), second)
    decreases |first|
  {
    if first == [] {
      assert first + second == second;
    } else {
      assert (first + second)[0] == first[0] && (first + second)[1..] == first[1..] + second;
      RunSplits(Step(s, first[0]), first[1..], second);
    }
  }

  lemma StepProgress(s: State, l: Label)
    ensures (s.closed ==> Step(s, l).closed) && (s.won.taken ==> Step(s, l).won.taken)
  {
  }

  lemma {:induction false} ProgressIsStable(s: State, labels: seq<Label>)
    ensures (s.closed ==> Run(s, labels).closed) && (s.won.taken ==> Run(s, labels).won.taken)
    decreases |labels|
  {
    if labels != [] {
      StepProgress(s, labels[0]);
      ProgressIsStable(Step(s, labels[0]), labels[1..]);
    }
  }

  // ── Theorems ────────────────────────────────────────────────────────────────

  /** Once the close that won the swap has returned, `pending` and the slot of the endpoint task are empty
      for ever, and the endpoint task is aborted as soon as its installation has returned,
      however the two raced.  */
  lemma ClosedForGood(before: seq<Label>, after: seq<Label>, c: nat)
    requires c < |Run(Init(), before).closes| && Run(Init(), before).closes[c] == Returned(true)
    ensures var s := Run(Init(), before + after);
            s.pending == [] && !s.task.filled && (s.task.install.Installed? ==> s.task.aborted)
  {
    RunKeepsInv(Init(), before);
    assert CloseOk(Run(Init(), before), c, Run(Init(), before).closes[c]);
    RunSplits(Init(), before, after);
    ProgressIsStable(Run(Init(), before), after);
    RunKeepsInv(Init(), before + after);
  }

  /** Where a call that began after the close may be. */
  predicate LatePoll(pc: PollPc) {
    pc.Gate? || pc.Check? || pc == Leave(None) || pc == Done(None)
  }

  lemma StepKeepsLateness(s: State, l: Label, p: nat)
    requires s.closed && p < |s.polls| && LatePoll(s.polls[p])
    ensures p < |Step(s, l).polls| && LatePoll(Step(s, l).polls[p])
  {
  }

  lemma {:induction false} LatenessIsStable(s: State, labels: seq<Label>, p: nat)
    requires s.closed && p < |s.polls| && LatePoll(s.polls[p])
    ensures p < |Run(s, labels).polls| && LatePoll(Run(s, labels).polls[p])
    decreases |labels|
  {
    if labels != [] {
      StepProgress(s, labels[0]);
      StepKeepsLateness(s, labels[0], p);
      LatenessIsStable(Step(s, labels[0]), labels[1..], p);
    }
  }

  /** A `next_event()` begun after any `close()` returned, winning or losing, yields None
      if it returns.  */
  lemma LaterPollsYieldNone(before: seq<Label>, after: seq<Label>, c: nat)
    requires c < |Run(Init(), before).closes| && Run(Init(), before).closes[c].Returned?
    ensures var p := |Run(Init(), before).polls|;
            var s := Run(Init(), before + [SpawnPoll] + after);
            p < |s.polls| && (s.polls[p].Done? ==> s.polls[p].result == None)
  {
    RunKeepsInv(Init(), before);
    var s0 := Run(Init(), before);
    assert CloseOk(s0, c, s0.closes[c]);
    RunSplits(Init(), before, [SpawnPoll]);
    RunSplits(Init(), before + [SpawnPoll], after);
    assert [SpawnPoll][1..] == [];
    assert Run(s0, [SpawnPoll]) == Run(Step(s0, SpawnPoll), []);
    LatenessIsStable(Step(s0, SpawnPoll), after, |s0.polls|);
  }

  /** With the session closed, `pending` holds events only while the winning close is standing
      before its clear.  */
  lemma PendingOutlivesOnlyTheSwap(labels: seq<Label>)
    requires Run(Init(), labels).closed && Run(Init(), labels).pending != []
    ensures var s := Run(Init(), labels);
            s.won.winner.Some? && s.won.winner.value < |s.closes| && s.closes[s.won.winner.value].Clear?
  {
    RunKeepsInv(Init(), labels);
  }

  /** A poll that passed its check before the session was closed and is about to queue a second
      event.  */
  predicate WillQueue(pc: PollPc) {
    pc.Extend? && pc.events.TwoEvents?
  }

  /** Nothing is pending, and no poll is about to queue anything. */
  predicate Quiet(s: State) {
    s.pending == [] && forall p | 0 <= p < |s.polls| :: !WillQueue(s.polls[p])
  }

  lemma StepKeepsQuiet(s: State, l: Label)
    requires s.closed && Quiet(s)
    ensures Step(s, l).closed && Quiet(Step(s, l))
  {
    var s' := Step(s, l);
    forall p | 0 <= p < |s'.polls| ensures !WillQueue(s'.polls[p]) {
      if p < |s.polls| { assert !WillQueue(s.polls[p]); }
    }
    if l.PollTick? && l.poll < |s.polls| { assert !WillQueue(s.polls[l.poll]); }
  }

  lemma {:induction false} QuietIsStable(s: State, labels: seq<Label>)
    requires s.closed && Quiet(s)
    ensures Run(s, labels).pending == []
    decreases |labels|
  {
    if labels != [] {
      StepKeepsQuiet(s, labels[0]);
      QuietIsStable(Step(s, labels[0]), labels[1..]);
    }
  }

  ghost predicate EmptyForGood(s: State) {
    forall labels :: Run(s, labels).pending == []
  }

  lemma ClearedIsQuiet(s: State)
    requires Inv(s) && s.won.cleared
    ensures s.closed && Quiet(s)
  {
    forall p: nat | p < |s.polls| ensures !WillQueue(s.polls[p]) { assert PollOk(s, p, s.polls[p]); }
  }

  /** When a returned `close()`, winning or losing, leaves `pending` empty for good: exactly if the
      winner has cleared it, or it is empty with no poll about to queue an event.  */
  lemma EmptyForGoodIff(before: seq<Label>, c: nat)
    requires c < |Run(Init(), before).closes| && Run(Init(), before).closes[c].Returned?
    ensures var s := Run(Init(), before); EmptyForGood(s) <==> s.won.cleared || Quiet(s)
  {
    var s := Run(Init(), before);
    RunKeepsInv(Init(), before);
    assert CloseOk(s, c, s.closes[c]);
    if s.won.cleared || Quiet(s) {
      if s.won.cleared { ClearedIsQuiet(s); }
      forall labels ensures Run(s, labels).pending == [] { QuietIsStable(s, labels); }
    } else if s.pending != [] {
      assert Run(s, []).pending != [];
    } else {
      var p :| 0 <= p < |s.polls| && WillQueue(s.polls[p]);
      var l := PollTick(p, NoEvent);
      assert [l][1..] == [] && Run(s, [l]) == Run(Step(s, l), []);
      assert Run(s, [l]).pending == [s.polls[p].events.second];
    }
  }

  lemma Then(labels: seq<Label>, s: State, l: Label, s': State) returns (more: seq<Label>)
    requires Run(Init(), labels) == s && Step(s, l) == s'
    ensures Run(Init(), more) == s'
  {
    more := labels + [l];
    RunSplits(Init(), labels, [l]);
    assert [l][1..] == [];
    assert Run(s, [l]) == Run(Step(s, l), []);
  }

  /** A poll receives a record that yields two events and queues the second. */
  lemma SecondEventIsPending() returns (labels: seq<Label>)
    ensures Run(Init(), labels) == Init().(polls := [Leave(Some(7))], gate := Some(0), pending := [8])
  {
    var poll := PollTick(0, TwoEvents(7, 8));
    var s0 := Init().(polls := [Gate]);
    labels := Then([], Init(), SpawnPoll, s0);
    var s1 := s0.(polls := [Check], gate := Some(0));
    labels := Then(labels, s0, poll, s1);
    labels := Then(labels, s1, poll, s1.(polls := [Pop]));
    labels := Then(labels, s1.(polls := [Pop]), poll, s1.(polls := [Receive]));
    labels := Then(labels, s1.(polls := [Receive]), poll, s1.(polls := [LockPending(TwoEvents(7, 8))]));
    var s2 := s1.(polls := [Decide(TwoEvents(7, 8))], pendingLock := Some(0));
    labels := Then(labels, s1.(polls := [LockPending(TwoEvents(7, 8))]), poll, s2);
    labels := Then(labels, s2, poll, s2.(polls := [Extend(TwoEvents(7, 8))]));
    labels := Then(labels, s2.(polls := [Extend(TwoEvents(7, 8))]), poll, s1.(polls := [Leave(Some(7))], pending := [8]));
  }

  /** A losing `close()` really can return in that window. */
  lemma LosingCloseCanReturnEarly() returns (labels: seq<Label>)
    ensures Run(Init(), labels).pending != [] && Run(Init(), labels).closes == [Clear, Returned(false)]
  {
    labels := SecondEventIsPending();
    var s0 := Init().(polls := [Leave(Some(7))], gate := Some(0), pending := [8]);
    labels := Then(labels, s0, SpawnClose, s0.(closes := [Swap]));
    labels := Then(labels, s0.(closes := [Swap]), SpawnClose, s0.(closes := [Swap, Swap]));
    var s1 := s0.(closes := [Clear, Swap], closed := true, won := Progress(Some(0), false, false));
    labels := Then(labels, s0.(closes := [Swap, Swap]), CloseTick(0), s1);
    labels := Then(labels, s1, CloseTick(1), s1.(closes := [Clear, Returned(false)]));
  }
}
