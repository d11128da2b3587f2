/** The serve wake protocol across Rust threads and the JavaScript loop, over any
    number of requests, stops, closes and serve cycles on one endpoint.

    Every label is one shared-memory action of a native thread, of the JavaScript
    drain loop, or of the event loop.  Queue generations are indices into `queues`;
    wake tokens number the serve cycles.  A label that is not enabled changes nothing.  */
module ServeWake {
  import opened Common
  import opened ServeSignal

  const QUEUE_CAPACITY: nat := 256

  datatype Owner = Loop | Thread(id: nat)

  datatype Taken = Polled(id: nat) | Rejected503(id: nat)

  datatype Generation = Generation(
    items: seq<nat>,
    shutdown: bool,
    waker: Option<nat>,
    rx: Option<Owner>,
    // History, read by no step: every request ever queued, and what left the queue.
    accepted: seq<nat>,
    taken: seq<Taken>)

  /** What a native thread still has to do after its wake. */
  datatype Job = DeliverJob | StopJob | CloseJob

  datatype Pc =
    | DeliverGet | DeliverCheck(g: nat) | DeliverSend(g: nat) | Refused | Accepted(g: nat)
    | Waking(g: nat, job: Job) | Posting(g: nat, token: nat, job: Job)
    | StopGet | StopSet(g: nat) | StopReget | StopLock(g: nat) | StopDrain(g: nat) | StopUnlock(g: nat)
    | CloseRemove | CloseSet(g: nat)
    | Finished

  datatype PollResult = NoRequest | GotRequest | TooSmall | EncodeFailed

  datatype LoopPc =
    | Idle | Starting | Started
    | InstallGet | InstallSet(g: nat) | InstallPeek(g: nat) | InstallDecide(g: nat, waiting: bool)
    | PollGet(second: bool) | PollShutdown(g: nat, second: bool) | PollLock(g: nat, second: bool)
    | PollReceive(g: nat, second: bool) | PollUnlock(g: nat, second: bool, result: PollResult)
    | Parking(contended: bool) | Parked(contended: bool) | Resumed
    | Exited

  datatype State = State(
    registry: Option<nat>,
    queues: seq<Generation>,
    posted: multiset<nat>,
    threads: seq<Pc>,
    loop: LoopPc,
    bound: nat,
    token: nat,
    signal: Signal)

  datatype Label =
    | SpawnDeliver | SpawnStop | SpawnClose
    | Tick(thread: nat)
    | StartCycle | NativeRegister | StartFails | FinishCycle
    | LoopTick(fit: PollResult)               // `fit`: how a received request encodes into the buffer
    | RunCallback(token: nat) | Cancel

  function Init(): State {
    State(None, [], multiset{}, [], Idle, 0, 0, Signal(false, false))
  }

  // ── Native threads ──────────────────────────────────────────────────────────

  predicate InRange(s: State, pc: Pc) {
    (pc.DeliverCheck? || pc.DeliverSend? || pc.Waking? || pc.Posting? || pc.StopSet? || pc.StopLock?
     || pc.StopDrain? || pc.StopUnlock? || pc.CloseSet?) ==> pc.g < |s.queues|
  }

  function At(s: State, t: nat, pc: Pc): State
    requires t < |s.threads|
  {
    s.(threads := s.threads[t := pc])
  }

  function WithQueue(s: State, g: nat, q: Generation): State
    requires g < |s.queues|
  {
    s.(queues := s.queues[g := q])
  }

  function AfterWake(g: nat, job: Job): Pc {
    match job case DeliverJob => Accepted(g) case StopJob => StopReget case CloseJob => Finished
  }

  function ThreadStep(s: State, t: nat): State
    requires t < |s.threads| && InRange(s, s.threads[t])
  {
    match s.threads[t]
    case DeliverGet => At(s, t, if s.registry.None? then Refused else DeliverCheck(s.registry.value))
    case DeliverCheck(g) => At(s, t, if s.queues[g].shutdown then Refused else DeliverSend(g))
    case DeliverSend(g) =>
      var q := s.queues[g];
      if |q.items| >= QUEUE_CAPACITY then At(s, t, Refused)
      else At(WithQueue(s, g, q.(items := q.items + [t], accepted := q.accepted + [t])), t, Waking(g, DeliverJob))
    case Waking(g, job) =>
      At(s, t, if s.queues[g].waker.Some? then Posting(g, s.queues[g].waker.value, job) else AfterWake(g, job))
    case Posting(g, token, job) => At(s.(posted := s.posted + multiset{token}), t, AfterWake(g, job))
    case StopGet => At(s, t, if s.registry.None? then StopReget else StopSet(s.registry.value))
    case StopSet(g) => At(WithQueue(s, g, s.queues[g].(shutdown := true)), t, Waking(g, StopJob))
    case StopReget => At(s, t, if s.registry.None? then Finished else StopLock(s.registry.value))
    case StopLock(g) =>
      if s.queues[g].rx.Some? then At(s, t, Finished)
      else At(WithQueue(s, g, s.queues[g].(rx := Some(Thread(t)))), t, StopDrain(g))
    case StopDrain(g) =>
      var q := s.queues[g];
      if q.items == [] then At(s, t, StopUnlock(g))
      else WithQueue(s, g, q.(items := q.items[1..], taken := q.taken + [Rejected503(q.items[0])]))
    case StopUnlock(g) => At(WithQueue(s, g, s.queues[g].(rx := None)), t, Finished)
    case CloseRemove => if s.registry.None? then At(s, t, Finished) else At(s.(registry := None), t, CloseSet(s.registry.value))
    case CloseSet(g) => At(WithQueue(s, g, s.queues[g].(shutdown := true)), t, Waking(g, CloseJob))
    case _ => s
  }

  // ── The JavaScript loop ─────────────────────────────────────────────────────

  predicate LoopInRange(s: State, pc: LoopPc) {
    (pc.InstallSet? || pc.InstallPeek? || pc.InstallDecide? || pc.PollShutdown? || pc.PollLock?
     || pc.PollReceive? || pc.PollUnlock?) ==> pc.g < |s.queues|
  }

  function LoopStep(s: State, fit: PollResult): State
    requires LoopInRange(s, s.loop)
  {
    match s.loop
    case Started => s.(loop := InstallGet)
    case InstallGet => s.(loop := if s.registry.None? then Exited else InstallSet(s.registry.value))
    case InstallSet(g) => WithQueue(s, g, s.queues[g].(waker := Some(s.token))).(loop := InstallPeek(g), bound := g)
    case InstallPeek(g) => s.(loop := InstallDecide(g, s.queues[g].rx.Some? || s.queues[g].items != []))
    case InstallDecide(g, waiting) =>
      s.(loop := PollGet(false),
         posted := if s.queues[g].shutdown || waiting then s.posted + multiset{s.token} else s.posted)
    case PollGet(second) => s.(loop := if s.registry.None? then Exited else PollShutdown(s.registry.value, second))
    case PollShutdown(g, second) => s.(loop := if s.queues[g].shutdown then Exited else PollLock(g, second))
    case PollLock(g, second) =>
      if s.queues[g].rx.Some? then s.(loop := Parking(!s.queues[g].shutdown))
      else WithQueue(s, g, s.queues[g].(rx := Some(Loop))).(loop := PollReceive(g, second))
    case PollReceive(g, second) =>
      var q := s.queues[g];
      if q.items == [] then s.(loop := PollUnlock(g, second, NoRequest))
      else WithQueue(s, g, q.(items := q.items[1..], taken := q.taken + [Polled(q.items[0])]))
           .(loop := PollUnlock(g, second, if fit == NoRequest then GotRequest else fit))
    case PollUnlock(g, second, result) =>
      WithQueue(s, g, s.queues[g].(rx := None)).(loop :=
        match result
        case NoRequest => Parking(false)
        case GotRequest => PollGet(false)
        case TooSmall => if second then Exited else PollGet(true)
        case EncodeFailed => Exited)
    case Parking(contended) =>
      s.(signal := Wait(s.signal), loop := if s.signal.pending then Resumed else Parked(contended))
    case Resumed => s.(loop := PollGet(false))
    case _ => s
  }

  /** The JavaScript thread runs callbacks only between its own synchronous stretches. */
  predicate JsFree(s: State) {
    s.loop.Idle? || s.loop.Starting? || s.loop.Started? || s.loop.Parked? || s.loop.Resumed? || s.loop.Exited?
  }

  /** The cycle's signal is in `serveWakeSignals`. */
  predicate SignalLive(s: State) {
    !s.loop.Idle? && !s.loop.Exited?
  }

  function WakeLoop(s: State): State {
    s.(signal := Wake(s.signal), loop := if s.signal.parked && s.loop.Parked? then Resumed else s.loop)
  }

  function Step(s: State, l: Label): State {
    match l
    case SpawnDeliver => s.(threads := s.threads + [DeliverGet])
    case SpawnStop =>
      // Through the handle of this cycle or an earlier one.  `stopServe` waits for a
      // registration under way before it issues the native stop.
      if s.token == 0 || s.loop.Starting? then s else s.(threads := s.threads + [StopGet])
    case SpawnClose => s.(threads := s.threads + [CloseRemove])
    case Tick(t) => if t < |s.threads| && InRange(s, s.threads[t]) then ThreadStep(s, t) else s
    case StartCycle =>
      if s.loop.Idle? then s.(loop := Starting, token := s.token + 1, signal := Signal(false, false)) else s
    case NativeRegister =>
      if s.loop.Starting?
      then s.(loop := Started, registry := Some(|s.queues|), queues := s.queues + [Generation([], false, None, None, [], [])])
      else s
    case StartFails => if s.loop.Starting? then s.(loop := Exited) else s
    case FinishCycle =>
      // The cycle awaits the stop it finds recorded; a stop issued after that look, or
      // displaced by a later one, may still be under way.
      if s.loop.Exited? then s.(loop := Idle) else s
    case LoopTick(fit) => if LoopInRange(s, s.loop) then LoopStep(s, fit) else s
    case RunCallback(token) =>
      if token in s.posted && JsFree(s) then
        var s' := s.(posted := s.posted - multiset{token});
        if token == s.token && SignalLive(s) then WakeLoop(s') else s'
      else s
    case Cancel => if JsFree(s) && SignalLive(s) then WakeLoop(s) else s
  }

  function Run(s: State, labels: seq<Label>): State
    decreases |labels|
  {
    if labels == [] then s else Run(Step(s, labels[0]), labels[1..])
  }
}
