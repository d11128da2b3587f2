/** Split fetch: `start_fetch` and `start_fetch_cb` spawn a task and hand out a token, and
    `poll_fetch` asks for its result.  Two tables, each under its own lock, are shared by the
    callers and the tasks; a label is one lock section.  */
module SplitFetch {

  type Bytes = seq<int>

  datatype Task = Running | Finished(bytes: Bytes) | Panicked

  /** Where a call stands between its lock sections. */
  datatype Pc =
    | Idle
    | Registering(token: nat)                        // spawned, handle not yet in the registry
    | Looking(token: nat, cap: nat)                  // not among the results, registry comes next
    | Holding(token: nat, bytes: Bytes, cap: nat)    // took the finished task out of the registry

  /** What a poll answers; `Unknown` is -1. */
  datatype Answer = Got(bytes: Bytes) | StillPending | Unknown | TooSmall(needed: nat)

  /** Where a token's result is or will come from.  `Working` is a task that will publish its
      result itself; `Delivered(i)` is the i-th delivery of the run.  */
  datatype Place = Starting(owner: nat) | Working | Registered | InResults | Held(owner: nat) | Delivered(index: nat) | Failed

  datatype Delivery = Delivery(token: nat, bytes: Bytes)

  datatype History = History(place: map<nat, Place>, delivered: seq<Delivery>, published: set<nat>,
                             signalled: set<nat>, answers: map<nat, Answer>)

  datatype State = State(counter: nat, tasks: map<nat, Task>, registry: set<nat>, results: map<nat, Bytes>,
                         threads: map<nat, Pc>, past: History)

  const INIT: State := State(1, map[], {}, map[], map[], History(map[], [], {}, {}, map[]))

  datatype Label =
    | Start(t: nat) | Register(t: nat) | StartCb(t: nat)
    | Complete(token: nat, bytes: Bytes) | Panic(token: nat)
    | Publish(token: nat) | Signal(token: nat)
    | PollResults(t: nat, token: nat, cap: nat) | PollRegistry(t: nat) | PollFinish(t: nat)

  function PcOf(s: State, t: nat): Pc {
    if t in s.threads then s.threads[t] else Idle
  }

  predicate TaskIs(s: State, k: nat, task: Task) {
    k in s.tasks && s.tasks[k] == task
  }

  function Moves(s: State, t: nat, pc: Pc): State {
    s.(threads := s.threads[t := pc])
  }

  function Goes(s: State, k: nat, p: Place): State {
    s.(past := s.past.(place := s.past.place[k := p]))
  }

  function Answers(s: State, t: nat, a: Answer): State {
    s.(threads := s.threads[t := Idle], past := s.past.(answers := s.past.answers[t := a]))
  }

  /** Copies the bytes out. */
  function Delivers(s: State, t: nat, k: nat, bytes: Bytes): State {
    var s' := Answers(Goes(s, k, Delivered(|s.past.delivered|)), t, Got(bytes));
    s'.(past := s'.past.(delivered := s'.past.delivered + [Delivery(k, bytes)]))
  }

  function Spawns(s: State, p: Place): State {
    Goes(s, s.counter, p).(counter := s.counter + 1, tasks := s.tasks[s.counter := Running])
  }

  function StartStep(s: State, l: Label): State
    requires l.Start? || l.Register? || l.StartCb?
  {
    var pc := PcOf(s, l.t);
    match l
    case Start(t) => if pc.Idle? then Moves(Spawns(s, Starting(t)), t, Registering(s.counter)) else s
    case Register(t) =>
      if pc.Registering? then Moves(Goes(s, pc.token, Registered), t, Idle).(registry := s.registry + {pc.token}) else s
    case StartCb(t) => if pc.Idle? then Spawns(s, Working) else s
  }

  function TaskStep(s: State, l: Label): State
    requires l.Complete? || l.Panic? || l.Publish? || l.Signal?
  {
    match l
    case Complete(k, bytes) => if TaskIs(s, k, Running) then s.(tasks := s.tasks[k := Finished(bytes)]) else s
    case Panic(k) => if TaskIs(s, k, Running) then s.(tasks := s.tasks[k := Panicked]) else s
    case Publish(k) =>
      if k in s.past.place && s.past.place[k] == Working && k in s.tasks && s.tasks[k].Finished? then
        var s' := Goes(s, k, InResults);
        s'.(results := s.results[k := s.tasks[k].bytes], past := s'.past.(published := s.past.published + {k}))
      else s
    case Signal(k) =>
      if k in s.past.published then s.(past := s.past.(signalled := s.past.signalled + {k})) else s
  }

  function PollStep(s: State, l: Label): State
    requires l.PollResults? || l.PollRegistry? || l.PollFinish?
  {
    var pc := PcOf(s, l.t);
    match l
    case PollResults(t, k, cap) =>
      if !pc.Idle? then s
      else if k !in s.results then Moves(s, t, Looking(k, cap))
      else if |s.results[k]| > cap then Answers(s, t, TooSmall(|s.results[k]|))
      else Delivers(s, t, k, s.results[k]).(results := s.results - {k})
    case PollRegistry(t) =>
      if !pc.Looking? then s
      else if pc.token !in s.registry || pc.token !in s.tasks then Answers(s, t, Unknown)
      else (
        match s.tasks[pc.token]
        case Running => Answers(s, t, StillPending)
        case Finished(bytes) =>
          Moves(Goes(s, pc.token, Held(t)), t, Holding(pc.token, bytes, pc.cap)).(registry := s.registry - {pc.token})
        case Panicked => Answers(Goes(s, pc.token, Failed), t, Unknown).(registry := s.registry - {pc.token})
      )
    case PollFinish(t) =>
      if !pc.Holding? then s
      else if |pc.bytes| > pc.cap then
        Answers(Goes(s, pc.token, InResults), t, TooSmall(|pc.bytes|)).(results := s.results[pc.token := pc.bytes])
      else Delivers(s, t, pc.token, pc.bytes)
  }

  function Step(s: State, l: Label): State {
    if l.Start? || l.Register? || l.StartCb? then StartStep(s, l)
    else if l.Complete? || l.Panic? || l.Publish? || l.Signal? then TaskStep(s, l)
    else PollStep(s, l)
  }

  function Run(s: State, labels: seq<Label>): State
    decreases |labels|
  {
    if labels == [] then s else Run(Step(s, labels[0]), labels[1..])
  }

  // ── Invariant: the history tells where everything is ────────────────────────

  ghost predicate At(s: State, k: nat, p: Place) {
    k in s.past.place && s.past.place[k] == p
  }

  ghost predicate TokensOk(s: State) {
    && s.tasks.Keys == s.past.place.Keys
    && forall k | k in s.past.place :: k < s.counter
  }

  ghost predicate TableOk(s: State, k: nat) {
    && (k in s.registry <==> At(s, k, Registered))
    && (k in s.results <==> At(s, k, InResults))
    && (k in s.results ==> TaskIs(s, k, Finished(s.results[k])))
    && (k in s.past.signalled ==> k in s.past.published)
    && (k in s.past.published ==> k in s.past.place && (s.past.place[k].InResults? || s.past.place[k].Delivered?))
  }

  ghost predicate ThreadOk(s: State, t: nat) {
    var pc := PcOf(s, t);
    && (pc.Registering? ==> At(s, pc.token, Starting(t)))
    && (pc.Holding? ==> At(s, pc.token, Held(t)) && TaskIs(s, pc.token, Finished(pc.bytes)))
  }

  ghost predicate PlaceOk(s: State, k: nat) {
    k in s.past.place ==>
      var p := s.past.place[k];
      && (p.Starting? ==> PcOf(s, p.owner) == Registering(k))
      && (p.Held? ==> PcOf(s, p.owner).Holding? && PcOf(s, p.owner).token == k)
      && (p.Delivered? ==> p.index < |s.past.delivered| && s.past.delivered[p.index].token == k)
      && (p.Failed? ==> TaskIs(s, k, Panicked))
  }

  ghost predicate DeliveryOk(s: State, i: nat) {
    i < |s.past.delivered| ==>
      var d := s.past.delivered[i];
      At(s, d.token, Delivered(i)) && TaskIs(s, d.token, Finished(d.bytes))
  }

  ghost predicate Inv(s: State) {
    && TokensOk(s)
    && (forall k :: TableOk(s, k))
    && (forall t :: ThreadOk(s, t))
    && (forall k :: PlaceOk(s, k))
    && (forall i :: DeliveryOk(s, i))
  }

  lemma SpawnKeepsInv(s: State, t: nat, cb: bool)
    requires Inv(s)
    ensures Inv(StartStep(s, if cb then StartCb(t) else Start(t)))
  {
    var s' := StartStep(s, if cb then StartCb(t) else Start(t));
    forall k ensures TableOk(s', k) { assert TableOk(s, k); }
    forall u ensures ThreadOk(s', u) { assert ThreadOk(s, u); }
    forall k ensures PlaceOk(s', k) { assert PlaceOk(s, k); }
    forall i ensures DeliveryOk(s', i) { assert DeliveryOk(s, i); }
  }

  lemma RegisterKeepsInv(s: State, t: nat)
    requires Inv(s)
    ensures Inv(StartStep(s, Register(t)))
  {
    var s' := StartStep(s, Register(t));
    assert ThreadOk(s, t);
    forall k ensures TableOk(s', k) { assert TableOk(s, k); }
    forall u ensures ThreadOk(s', u) { assert ThreadOk(s, u); }
    forall k ensures PlaceOk(s', k) { assert PlaceOk(s, k); }
    forall i ensures DeliveryOk(s', i) { assert DeliveryOk(s, i); }
  }

  lemma TaskKeepsInv(s: State, l: Label)
    requires Inv(s) && (l.Complete? || l.Panic? || l.Publish? || l.Signal?)
    ensures Inv(TaskStep(s, l))
  {
    var s' := TaskStep(s, l);
    forall k ensures TableOk(s', k) { assert TableOk(s, k); }
    forall u ensures ThreadOk(s', u) { assert ThreadOk(s, u); }
    forall k ensures PlaceOk(s', k) { assert PlaceOk(s, k); }
    forall i ensures DeliveryOk(s', i) { assert DeliveryOk(s, i); }
  }

  /** The call owns no token. */
  predicate Free(s: State, t: nat) {
    PcOf(s, t).Idle? || PcOf(s, t).Looking?
  }

  lemma MoveKeepsInv(s: State, t: nat, k: nat, cap: nat)
    requires Inv(s) && Free(s, t)
    ensures Inv(Moves(s, t, Looking(k, cap)))
  {
    var s' := Moves(s, t, Looking(k, cap));
    forall i ensures TableOk(s', i) { assert TableOk(s, i); }
    forall u ensures ThreadOk(s', u) { assert ThreadOk(s, u); }
    forall i ensures PlaceOk(s', i) { assert PlaceOk(s, i); }
    forall i ensures DeliveryOk(s', i) { assert DeliveryOk(s, i); }
  }

  lemma AnswerKeepsInv(s: State, t: nat, a: Answer)
    requires Inv(s) && Free(s, t)
    ensures Inv(Answers(s, t, a))
  {
    var s' := Answers(s, t, a);
    forall i ensures TableOk(s', i) { assert TableOk(s, i); }
    forall u ensures ThreadOk(s', u) { assert ThreadOk(s, u); }
    forall i ensures PlaceOk(s', i) { assert PlaceOk(s, i); }
    forall i ensures DeliveryOk(s', i) { assert DeliveryOk(s, i); }
  }

  /** From the results, or from the hands of the call that took the spawned work out. */
  lemma DeliverKeepsInv(s: State, t: nat, k: nat, bytes: Bytes)
    requires Inv(s) && TaskIs(s, k, Finished(bytes))
    requires (Free(s, t) && At(s, k, InResults)) || (At(s, k, Held(t)) && PcOf(s, t).Holding? && PcOf(s, t).token == k)
    ensures Inv(Delivers(s, t, k, bytes).(results := s.results - {k}))
  {
    var s' := Delivers(s, t, k, bytes).(results := s.results - {k});
    assert s'.past.place.Keys == s.past.place.Keys;
    forall i ensures TableOk(s', i) { assert TableOk(s, i); }
    forall u ensures ThreadOk(s', u) { assert ThreadOk(s, u); }
    forall i ensures PlaceOk(s', i) { assert PlaceOk(s, i); }
    forall i ensures DeliveryOk(s', i) { assert DeliveryOk(s, i); }
  }

  lemma TakeOutKeepsInv(s: State, t: nat, k: nat, bytes: Bytes, cap: nat)
    requires Inv(s) && Free(s, t) && At(s, k, Registered) && TaskIs(s, k, Finished(bytes))
    ensures Inv(Moves(Goes(s, k, Held(t)), t, Holding(k, bytes, cap)).(registry := s.registry - {k}))
  {
    var s' := Moves(Goes(s, k, Held(t)), t, Holding(k, bytes, cap)).(registry := s.registry - {k});
    assert s'.past.place.Keys == s.past.place.Keys;
    forall i ensures TableOk(s', i) { assert TableOk(s, i); }
    forall u ensures ThreadOk(s', u) { assert ThreadOk(s, u); }
    forall i ensures PlaceOk(s', i) { assert PlaceOk(s, i); }
    forall i ensures DeliveryOk(s', i) { assert DeliveryOk(s, i); }
  }

  lemma FailKeepsInv(s: State, t: nat, k: nat)
    requires Inv(s) && Free(s, t) && At(s, k, Registered) && TaskIs(s, k, Panicked)
    ensures Inv(Answers(Goes(s, k, Failed), t, Unknown).(registry := s.registry - {k}))
  {
    var s' := Answers(Goes(s, k, Failed), t, Unknown).(registry := s.registry - {k});
    assert s'.past.place.Keys == s.past.place.Keys;
    forall i ensures TableOk(s', i) { assert TableOk(s, i); }
    forall u ensures ThreadOk(s', u) { assert ThreadOk(s, u); }
    forall i ensures PlaceOk(s', i) { assert PlaceOk(s, i); }
    forall i ensures DeliveryOk(s', i) { assert DeliveryOk(s, i); }
  }

  lemma PutBackKeepsInv(s: State, t: nat, k: nat, bytes: Bytes, a: Answer)
    requires Inv(s) && At(s, k, Held(t)) && PcOf(s, t).Holding? && PcOf(s, t).token == k && TaskIs(s, k, Finished(bytes))
    ensures Inv(Answers(Goes(s, k, InResults), t, a).(results := s.results[k := bytes]))
  {
    var s' := Answers(Goes(s, k, InResults), t, a).(results := s.results[k := bytes]);
    assert s'.past.place.Keys == s.past.place.Keys;
    forall i ensures TableOk(s', i) { assert TableOk(s, i); }
    forall u ensures ThreadOk(s', u) { assert ThreadOk(s, u); }
    forall i ensures PlaceOk(s', i) { assert PlaceOk(s, i); }
    forall i ensures DeliveryOk(s', i) { assert DeliveryOk(s, i); }
  }

  lemma PollResultsKeepsInv(s: State, t: nat, k: nat, cap: nat)
    requires Inv(s)
    ensures Inv(PollStep(s, PollResults(t, k, cap)))
  {
    assert TableOk(s, k);
    if PcOf(s, t).Idle? {
      if k !in s.results {
        MoveKeepsInv(s, t, k, cap);
      } else if |s.results[k]| > cap {
        AnswerKeepsInv(s, t, TooSmall(|s.results[k]|));
      } else {
        DeliverKeepsInv(s, t, k, s.results[k]);
      }
    }
  }

  lemma PollRegistryKeepsInv(s: State, t: nat)
    requires Inv(s)
    ensures Inv(PollStep(s, PollRegistry(t)))
  {
    var pc := PcOf(s, t);
    if pc.Looking? {
      var k := pc.token;
      assert TableOk(s, k);
      if k !in s.registry || k !in s.tasks {
        AnswerKeepsInv(s, t, Unknown);
      } else if s.tasks[k].Running? {
        AnswerKeepsInv(s, t, StillPending);
      } else if s.tasks[k].Finished? {
        TakeOutKeepsInv(s, t, k, s.tasks[k].bytes, pc.cap);
      } else {
        FailKeepsInv(s, t, k);
      }
    }
  }

  lemma PollFinishKeepsInv(s: State, t: nat)
    requires Inv(s)
    ensures Inv(PollStep(s, PollFinish(t)))
  {
    var pc := PcOf(s, t);
    if pc.Holding? {
      var k := pc.token;
      assert ThreadOk(s, t) && TableOk(s, k);
      if |pc.bytes| > pc.cap {
        PutBackKeepsInv(s, t, k, pc.bytes, TooSmall(|pc.bytes|));
      } else {
        DeliverKeepsInv(s, t, k, pc.bytes);
        assert s.results - {k} == s.results;
      }
    }
  }

  lemma StepKeepsInv(s: State, l: Label)
    requires Inv(s)
    ensures Inv(Step(s, l))
  {
    match l
    case Start(t) => SpawnKeepsInv(s, t, false);
    case Register(t) => RegisterKeepsInv(s, t);
    case StartCb(t) => SpawnKeepsInv(s, t, true);
    case Complete(_, _) => TaskKeepsInv(s, l);
    case Panic(_) => TaskKeepsInv(s, l);
    case Publish(_) => TaskKeepsInv(s, l);
    case Signal(_) => TaskKeepsInv(s, l);
    case PollResults(t, k, cap) => PollResultsKeepsInv(s, t, k, cap);
    case PollRegistry(t) => PollRegistryKeepsInv(s, t);
    case PollFinish(t) => PollFinishKeepsInv(s, t);
  }

  lemma {:induction false} RunKeepsInv(s: State, labels: seq<Label>)
    requires Inv(s)
    ensures Inv(Run(s, labels))
    decreases |labels|
  {
    if labels != [] {
      StepKeepsInv(s, labels[0]);
      RunKeepsInv(Step(s, labels[0]), labels[1..]);
    }
  }

  // ── Theorems over whole runs ────────────────────────────────────────────────

  /** No token's result is delivered twice, and what is delivered is what its task computed. */
  lemma DeliveredAtMostOnce(labels: seq<Label>)
    ensures var s := Run(INIT, labels);
            && (forall i | 0 <= i < |s.past.delivered| ::
                  TaskIs(s, s.past.delivered[i].token, Finished(s.past.delivered[i].bytes)))
            && (forall i, j | 0 <= i < j < |s.past.delivered| ::
                  s.past.delivered[i].token != s.past.delivered[j].token)
  {
    RunKeepsInv(INIT, labels);
    var s := Run(INIT, labels);
    forall i | 0 <= i < |s.past.delivered|
      ensures At(s, s.past.delivered[i].token, Delivered(i))
      ensures TaskIs(s, s.past.delivered[i].token, Finished(s.past.delivered[i].bytes))
    {
      assert DeliveryOk(s, i);
    }
  }

  /** When a callback has been made for a token, its result is there to be polled, with the
      bytes its fetch computed, or a poll has already had it.  */
  lemma SignalledIsRetrievable(labels: seq<Label>, k: nat)
    requires k in Run(INIT, labels).past.signalled
    ensures var s := Run(INIT, labels);
            || (k in s.results && TaskIs(s, k, Finished(s.results[k])))
            || (exists i :: 0 <= i < |s.past.delivered| && s.past.delivered[i].token == k)
  {
    RunKeepsInv(INIT, labels);
    var s := Run(INIT, labels);
    assert TableOk(s, k) && PlaceOk(s, k);
    if s.past.place[k].Delivered? {
      assert s.past.delivered[s.past.place[k].index].token == k;
    }
  }

  lemma StepKeepsGone(s: State, l: Label, k: nat)
    requires Inv(s) && k in s.past.place && (s.past.place[k].Delivered? || s.past.place[k].Failed?)
    ensures At(Step(s, l), k, s.past.place[k])
  {
    assert TableOk(s, k) && PlaceOk(s, k);
    if l.Register? || l.PollFinish? { assert ThreadOk(s, l.t); }
    if l.PollRegistry? && PcOf(s, l.t).Looking? { assert TableOk(s, PcOf(s, l.t).token); }
  }

  /** Once delivered, or once a panic was reported, nothing brings a token back. */
  lemma {:induction false} GoneForGood(s: State, labels: seq<Label>, k: nat)
    requires Inv(s) && k in s.past.place && (s.past.place[k].Delivered? || s.past.place[k].Failed?)
    ensures At(Run(s, labels), k, s.past.place[k])
    decreases |labels|
  {
    if labels != [] {
      StepKeepsInv(s, labels[0]);
      StepKeepsGone(s, labels[0], k);
      GoneForGood(Step(s, labels[0]), labels[1..], k);
    }
  }

  // ── Polls with too small a buffer ───────────────────────────────────────────

  /** A call that is polling for `k` with room for it. */
  predicate HasRoom(pc: Pc, k: nat, bytes: Bytes) {
    (pc.Looking? || pc.Holding?) && pc.token == k && |bytes| <= pc.cap
  }

  /** The fetch is done and its result has been neither delivered nor given up. */
  ghost predicate Retrievable(s: State, k: nat, bytes: Bytes) {
    && TaskIs(s, k, Finished(bytes)) && k in s.past.place
    && !s.past.place[k].Delivered? && !s.past.place[k].Failed?
    && forall t :: !HasRoom(PcOf(s, t), k, bytes)
  }

  predicate TooSmallFor(l: Label, k: nat, bytes: Bytes) {
    l.PollResults? && l.token == k ==> l.cap < |bytes|
  }

  lemma StartKeepsRetrievable(s: State, l: Label, k: nat, bytes: Bytes)
    requires Inv(s) && Retrievable(s, k, bytes) && (l.Start? || l.Register? || l.StartCb?)
    ensures Retrievable(StartStep(s, l), k, bytes)
  {
    var s' := StartStep(s, l);
    forall t ensures !HasRoom(PcOf(s', t), k, bytes) { assert !HasRoom(PcOf(s, t), k, bytes); }
  }

  lemma TaskKeepsRetrievable(s: State, l: Label, k: nat, bytes: Bytes)
    requires Inv(s) && Retrievable(s, k, bytes) && (l.Complete? || l.Panic? || l.Publish? || l.Signal?)
    ensures Retrievable(TaskStep(s, l), k, bytes)
  {
    var s' := TaskStep(s, l);
    forall t ensures !HasRoom(PcOf(s', t), k, bytes) { assert !HasRoom(PcOf(s, t), k, bytes); }
  }

  lemma PollKeepsRetrievable(s: State, l: Label, k: nat, bytes: Bytes)
    requires Inv(s) && Retrievable(s, k, bytes) && TooSmallFor(l, k, bytes)
    requires l.PollResults? || l.PollRegistry? || l.PollFinish?
    ensures Retrievable(PollStep(s, l), k, bytes)
  {
    var s' := PollStep(s, l);
    assert TableOk(s, k) && ThreadOk(s, l.t) && !HasRoom(PcOf(s, l.t), k, bytes);
    forall t ensures !HasRoom(PcOf(s', t), k, bytes) { assert !HasRoom(PcOf(s, t), k, bytes); }
  }

  lemma StepKeepsRetrievable(s: State, l: Label, k: nat, bytes: Bytes)
    requires Inv(s) && Retrievable(s, k, bytes) && TooSmallFor(l, k, bytes)
    ensures Retrievable(Step(s, l), k, bytes)
  {
    if l.Start? || l.Register? || l.StartCb? {
      StartKeepsRetrievable(s, l, k, bytes);
    } else if l.Complete? || l.Panic? || l.Publish? || l.Signal? {
      TaskKeepsRetrievable(s, l, k, bytes);
    } else {
      PollKeepsRetrievable(s, l, k, bytes);
    }
  }

  /** However the polls interleave, a result that never met a large enough buffer is not lost. */
  lemma {:induction false} TooSmallPollsLoseNothing(s: State, labels: seq<Label>, k: nat, bytes: Bytes)
    requires Inv(s) && Retrievable(s, k, bytes) && forall l | l in labels :: TooSmallFor(l, k, bytes)
    ensures Retrievable(Run(s, labels), k, bytes)
    decreases |labels|
  {
    if labels != [] {
      StepKeepsInv(s, labels[0]);
      StepKeepsRetrievable(s, labels[0], k, bytes);
      TooSmallPollsLoseNothing(Step(s, labels[0]), labels[1..], k, bytes);
    }
  }

  // ── Polls one after the other ───────────────────────────────────────────────

  /** One call of `poll_fetch` with no other call in between. */
  function Poll(s: State, t: nat, k: nat, cap: nat): State {
    Step(Step(Step(s, PollResults(t, k, cap)), PollRegistry(t)), PollFinish(t))
  }

  /** The answers to one poll after another for the same token. */
  function PollAll(s: State, t: nat, k: nat, caps: seq<nat>): seq<Answer>
    decreases |caps|
  {
    if caps == [] then []
    else
      var s' := Poll(s, t, k, caps[0]);
      (if t in s'.past.answers then [s'.past.answers[t]] else []) + PollAll(s', t, k, caps[1..])
  }

  /** What they ought to be: the size until a buffer is large enough, then the bytes, then -1. */
  function Expected(bytes: Bytes, caps: seq<nat>): seq<Answer>
    decreases |caps|
  {
    if caps == [] then []
    else if caps[0] < |bytes| then [TooSmall(|bytes|)] + Expected(bytes, caps[1..])
    else [Got(bytes)] + seq(|caps| - 1, _ => Unknown)
  }

  /** A finished task's token, as the caller that started it sees it. */
  ghost predicate Ready(s: State, k: nat, bytes: Bytes) {
    TaskIs(s, k, Finished(bytes)) && (At(s, k, Registered) || At(s, k, InResults))
  }

  lemma PollKeepsInv(s: State, t: nat, k: nat, cap: nat)
    requires Inv(s)
    ensures Inv(Poll(s, t, k, cap))
  {
    var s1 := Step(s, PollResults(t, k, cap));
    StepKeepsInv(s, PollResults(t, k, cap));
    StepKeepsInv(s1, PollRegistry(t));
    StepKeepsInv(Step(s1, PollRegistry(t)), PollFinish(t));
  }

  lemma TooSmallPoll(s: State, t: nat, k: nat, cap: nat, bytes: Bytes)
    requires Inv(s) && PcOf(s, t).Idle? && Ready(s, k, bytes) && cap < |bytes|
    ensures var s' := Poll(s, t, k, cap);
            Ready(s', k, bytes) && PcOf(s', t).Idle? && t in s'.past.answers && s'.past.answers[t] == TooSmall(|bytes|)
  {
    assert TableOk(s, k);
  }

  lemma LargeEnoughPoll(s: State, t: nat, k: nat, cap: nat, bytes: Bytes)
    requires Inv(s) && PcOf(s, t).Idle? && Ready(s, k, bytes) && |bytes| <= cap
    ensures var s' := Poll(s, t, k, cap);
            && k in s'.past.place && s'.past.place[k].Delivered? && PcOf(s', t).Idle?
            && t in s'.past.answers && s'.past.answers[t] == Got(bytes)
  {
    assert TableOk(s, k);
  }

  lemma LatePoll(s: State, t: nat, k: nat, cap: nat)
    requires Inv(s) && PcOf(s, t).Idle? && k in s.past.place && s.past.place[k].Delivered?
    ensures var s' := Poll(s, t, k, cap);
            && k in s'.past.place && s'.past.place[k].Delivered? && PcOf(s', t).Idle?
            && t in s'.past.answers && s'.past.answers[t] == Unknown
  {
    assert TableOk(s, k);
  }

  lemma {:induction false} LatePolls(s: State, t: nat, k: nat, caps: seq<nat>)
    requires Inv(s) && PcOf(s, t).Idle? && k in s.past.place && s.past.place[k].Delivered?
    ensures PollAll(s, t, k, caps) == seq(|caps|, _ => Unknown)
    decreases |caps|
  {
    if caps != [] {
      LatePoll(s, t, k, caps[0]);
      PollKeepsInv(s, t, k, caps[0]);
      LatePolls(Poll(s, t, k, caps[0]), t, k, caps[1..]);
    }
  }

  /** Exactly one of any series of polls for a finished task gets its bytes. */
  lemma {:induction false} PollsInTurn(s: State, t: nat, k: nat, caps: seq<nat>, bytes: Bytes)
    requires Inv(s) && PcOf(s, t).Idle? && Ready(s, k, bytes)
    ensures PollAll(s, t, k, caps) == Expected(bytes, caps)
    decreases |caps|
  {
    if caps != [] {
      var s' := Poll(s, t, k, caps[0]);
      PollKeepsInv(s, t, k, caps[0]);
      if caps[0] < |bytes| {
        TooSmallPoll(s, t, k, caps[0], bytes);
        PollsInTurn(s', t, k, caps[1..], bytes);
      } else {
        LargeEnoughPoll(s, t, k, caps[0], bytes);
        LatePolls(s', t, k, caps[1..]);
      }
    }
  }

  // ── Polls with anything in between ──────────────────────────────────────────

  /** The label is a section of thread `t`. */
  predicate IsBy(l: Label, t: nat) {
    (l.Start? || l.Register? || l.StartCb? || l.PollResults? || l.PollRegistry? || l.PollFinish?) && l.t == t
  }

  predicate NoneBy(labels: seq<Label>, t: nat) {
    forall l | l in labels :: !IsBy(l, t)
  }

  lemma OtherStepLeavesCall(s: State, l: Label, t: nat, k: nat, bytes: Bytes)
    requires !IsBy(l, t) && TaskIs(s, k, Finished(bytes)) && TokensOk(s)
    ensures PcOf(Step(s, l), t) == PcOf(s, t) && TaskIs(Step(s, l), k, Finished(bytes))
    ensures t in s.past.answers ==> t in Step(s, l).past.answers && Step(s, l).past.answers[t] == s.past.answers[t]
  {
  }

  /** What other threads and tasks do changes neither a call's place, nor its last answer, nor a
      finished result.  */
  lemma {:induction false} OthersLeaveCall(s: State, labels: seq<Label>, t: nat, k: nat, bytes: Bytes)
    requires Inv(s) && NoneBy(labels, t) && TaskIs(s, k, Finished(bytes))
    ensures var s' := Run(s, labels);
            && Inv(s') && PcOf(s', t) == PcOf(s, t) && TaskIs(s', k, Finished(bytes))
            && (t in s.past.answers ==> t in s'.past.answers && s'.past.answers[t] == s.past.answers[t])
    decreases |labels|
  {
    if labels != [] {
      StepKeepsInv(s, labels[0]);
      OtherStepLeavesCall(s, labels[0], t, k, bytes);
      OthersLeaveCall(Step(s, labels[0]), labels[1..], t, k, bytes);
    }
  }

  function AnswerFor(bytes: Bytes, cap: nat): Answer {
    if |bytes| <= cap then Got(bytes) else TooSmall(|bytes|)
  }

  ghost predicate Answered(s: State, t: nat, a: Answer) {
    PcOf(s, t).Idle? && t in s.past.answers && s.past.answers[t] == a
  }

  lemma FirstSection(s: State, t: nat, k: nat, cap: nat, bytes: Bytes)
    requires Inv(s) && PcOf(s, t).Idle? && TaskIs(s, k, Finished(bytes))
    ensures var s' := Step(s, PollResults(t, k, cap));
            && TaskIs(s', k, Finished(bytes))
            && if k in s.results then Answered(s', t, AnswerFor(bytes, cap)) else PcOf(s', t) == Looking(k, cap)
  {
    assert TableOk(s, k);
  }

  lemma SecondSection(s: State, t: nat, k: nat, cap: nat, bytes: Bytes)
    requires Inv(s) && PcOf(s, t) == Looking(k, cap) && TaskIs(s, k, Finished(bytes))
    ensures var s' := Step(s, PollRegistry(t));
            && TaskIs(s', k, Finished(bytes))
            && if k in s.registry then PcOf(s', t) == Holding(k, bytes, cap) else Answered(s', t, Unknown)
  {
  }

  lemma LastSection(s: State, t: nat, k: nat, cap: nat, bytes: Bytes)
    requires PcOf(s, t) == Holding(k, bytes, cap)
    ensures Answered(Step(s, PollFinish(t)), t, AnswerFor(bytes, cap))
  {
  }

  /** The state when a poll for `k` comes to its second section, and when it is over, with
      `first` and `second` happening in between.  */
  function AtRegistry(s: State, t: nat, k: nat, cap: nat, first: seq<Label>): State {
    Run(Step(s, PollResults(t, k, cap)), first)
  }

  function AfterPoll(s: State, t: nat, k: nat, cap: nat, first: seq<Label>, second: seq<Label>): State {
    Step(Run(Step(AtRegistry(s, t, k, cap, first), PollRegistry(t)), second), PollFinish(t))
  }

  /** A poll that found its token among the results does nothing more. */
  lemma RestOfAnsweredPoll(s: State, t: nat, k: nat, cap: nat, second: seq<Label>, bytes: Bytes)
    requires Inv(s) && NoneBy(second, t) && TaskIs(s, k, Finished(bytes)) && Answered(s, t, AnswerFor(bytes, cap))
    ensures Answered(Step(Run(Step(s, PollRegistry(t)), second), PollFinish(t)), t, AnswerFor(bytes, cap))
  {
    assert Step(s, PollRegistry(t)) == s;
    OthersLeaveCall(s, second, t, k, bytes);
  }

  /** One that did not is decided by the registry. */
  lemma RestOfPoll(s: State, t: nat, k: nat, cap: nat, second: seq<Label>, bytes: Bytes)
    requires Inv(s) && NoneBy(second, t) && TaskIs(s, k, Finished(bytes)) && PcOf(s, t) == Looking(k, cap)
    ensures Answered(Step(Run(Step(s, PollRegistry(t)), second), PollFinish(t)), t,
                     if k in s.registry then AnswerFor(bytes, cap) else Unknown)
  {
    var s' := Step(s, PollRegistry(t));
    StepKeepsInv(s, PollRegistry(t));
    SecondSection(s, t, k, cap, bytes);
    OthersLeaveCall(s', second, t, k, bytes);
    if k in s.registry { LastSection(Run(s', second), t, k, cap, bytes); }
  }

  /** The result is elsewhere: another call has just taken it out, put it back behind the poll's
      back, delivered it or not registered it yet, or its task has not published it yet.  */
  predicate Elsewhere(p: Place) {
    p.Delivered? || p.Held? || p.InResults? || p.Starting? || p.Working?
  }

  lemma UnregisteredIsElsewhere(s: State, k: nat, bytes: Bytes)
    requires Inv(s) && TaskIs(s, k, Finished(bytes)) && k !in s.registry
    ensures k in s.past.place && Elsewhere(s.past.place[k])
  {
    assert TableOk(s, k) && PlaceOk(s, k);
  }

  /** A poll of a finished token, whatever happens between its sections, answers with the result
      exactly if the token is among the results at its first section or in the registry at its
      second; otherwise it answers -1, and the result is elsewhere at its second section.  */
  lemma InterleavedPoll(s: State, t: nat, k: nat, cap: nat, first: seq<Label>, second: seq<Label>, bytes: Bytes)
    requires Inv(s) && PcOf(s, t).Idle? && TaskIs(s, k, Finished(bytes)) && NoneBy(first, t) && NoneBy(second, t)
    ensures var s' := AtRegistry(s, t, k, cap, first);
            && Answered(AfterPoll(s, t, k, cap, first, second), t,
                        if k in s.results || k in s'.registry then AnswerFor(bytes, cap) else Unknown)
            && (k !in s'.registry ==> k in s'.past.place && Elsewhere(s'.past.place[k]))
  {
    var s1 := Step(s, PollResults(t, k, cap));
    StepKeepsInv(s, PollResults(t, k, cap));
    FirstSection(s, t, k, cap, bytes);
    OthersLeaveCall(s1, first, t, k, bytes);
    var s2 := Run(s1, first);
    if k !in s2.registry { UnregisteredIsElsewhere(s2, k, bytes); }
    if k in s.results {
      RestOfAnsweredPoll(s2, t, k, cap, second, bytes);
    } else {
      RestOfPoll(s2, t, k, cap, second, bytes);
    }
  }

  /** The state after a poll of `t` whose buffer is too small has taken the token out. */
  function TakenOut(s: State, t: nat, k: nat): State {
    Step(Step(s, PollResults(t, k, 0)), PollRegistry(t))
  }

  lemma PollTakesOut(s: State, t: nat, u: nat, k: nat, bytes: Bytes)
    requires Inv(s) && t != u && PcOf(s, t).Idle? && PcOf(s, u).Idle?
    requires TaskIs(s, k, Finished(bytes)) && k in s.registry
    ensures var s' := TakenOut(s, t, k);
            && Inv(s') && PcOf(s', t) == Holding(k, bytes, 0) && PcOf(s', u).Idle? && TaskIs(s', k, Finished(bytes))
            && k !in s'.results && k !in s'.registry && s'.past.delivered == s.past.delivered
  {
    assert TableOk(s, k);
    StepKeepsInv(s, PollResults(t, k, 0));
    StepKeepsInv(Step(s, PollResults(t, k, 0)), PollRegistry(t));
    assert TableOk(TakenOut(s, t, k), k);
  }

  /** From every state with a finished token in the registry and two idle callers, a poll with
      room can be answered -1 although the result is not lost: it comes while a poll with too
      small a buffer holds the finished task, which is put back afterwards.  */
  lemma AdequatePollCanMiss(s: State, t: nat, u: nat, k: nat, bytes: Bytes)
    requires Inv(s) && t != u && PcOf(s, t).Idle? && PcOf(s, u).Idle? && bytes != []
    requires TaskIs(s, k, Finished(bytes)) && k in s.registry
    ensures var held := TakenOut(s, t, k);
            var missed := Step(Step(held, PollResults(u, k, |bytes|)), PollRegistry(u));
            var s' := Step(missed, PollFinish(t));
            && Answered(missed, u, Unknown)
            && Answered(s', u, Unknown) && Answered(s', t, TooSmall(|bytes|))
            && k in s'.results && s'.results[k] == bytes && s'.past.delivered == s.past.delivered
  {
    PollTakesOut(s, t, u, k, bytes);
    var held := TakenOut(s, t, k);
    var s1 := Step(held, PollResults(u, k, |bytes|));
    assert s1 == Moves(held, u, Looking(k, |bytes|));
    var missed := Step(s1, PollRegistry(u));
    assert missed == Answers(s1, u, Unknown);
    assert PcOf(missed, t) == Holding(k, bytes, 0);
  }

  /** There are such states. */
  lemma FinishedTokenArises(bytes: Bytes) returns (labels: seq<Label>)
    ensures var s := Run(INIT, labels);
            1 in s.registry && TaskIs(s, 1, Finished(bytes)) && forall t :: PcOf(s, t).Idle?
  {
    labels := [Start(0), Register(0), Complete(1, bytes)];
    var s1 := Step(INIT, Start(0));
    assert s1.threads == map[0 := Registering(1)] && s1.tasks == map[1 := Running];
    var s2 := Step(s1, Register(0));
    assert s2.threads == map[0 := Idle] && s2.registry == {1} && s2.tasks == map[1 := Running];
    ThreeSteps(INIT, Start(0), Register(0), Complete(1, bytes));
  }

  lemma ThreeSteps(s: State, a: Label, b: Label, c: Label)
    ensures Run(s, [a, b, c]) == Step(Step(Step(s, a), b), c)
  {
    assert [a, b, c][1..] == [b, c] && [b, c][1..] == [c] && [c][1..] == [];
    assert Run(Step(s, a), [b, c]) == Run(Step(Step(s, a), b), [c]);
    assert Run(Step(Step(s, a), b), [c]) == Run(Step(Step(Step(s, a), b), c), []);
  }
}
