/** The native functions of the serve bridge in their own form.  Each is proved to be a stretch
    of the machine's steps: what the function does when it runs without interruption is what
    its thread does in `ServeWake`, where it may be interrupted after every step.  */
module ServeBridge {
  import opened Common
  import opened ServeWake

  /** `n` steps of one thread, or of the loop. */
  ghost function Repeat(s: State, l: Label, n: nat): State {
    if n == 0 then s else Step(Repeat(s, l, n - 1), l)
  }

  /** Steps `l` alone lead from `a` to `b`. */
  ghost predicate Leads(a: State, l: Label, b: State) {
    exists n: nat :: Repeat(a, l, n) == b
  }

  lemma Stays(a: State, l: Label)
    ensures Leads(a, l, a)
  {
    assert Repeat(a, l, 0) == a;
  }

  lemma Then(a: State, l: Label, b: State, c: State)
    requires Leads(a, l, b) && Step(b, l) == c
    ensures Leads(a, l, c)
  {
    var n: nat :| Repeat(a, l, n) == b;
    assert Repeat(a, l, n + 1) == c;
  }

  ghost predicate Registered(s: State) {
    s.registry.Some? ==> s.registry.value < |s.queues|
  }

  ghost predicate Stands(s: State, t: nat, pc: Pc) {
    t < |s.threads| && s.threads[t] == pc
  }

  /** The thread's next action, spelled out. */
  lemma Acts(a: State, t: nat, b: State, c: State)
    requires t < |b.threads| && InRange(b, b.threads[t]) && Leads(a, Tick(t), b) && ThreadStep(b, t) == c
    ensures Leads(a, Tick(t), c)
  {
    Then(a, Tick(t), b, c);
  }

  lemma Turns(a: State, fit: PollResult, b: State, c: State)
    requires LoopInRange(b, b.loop) && Leads(a, LoopTick(fit), b) && LoopStep(b, fit) == c
    ensures Leads(a, LoopTick(fit), c)
  {
    Then(a, LoopTick(fit), b, c);
  }

  /** One endpoint's entry in the registry, the queues it held, and the callbacks posted to the
      event loop.  */
  class Bridge {
    var registry: Option<nat>
    var queues: seq<Generation>
    var posted: multiset<nat>

    constructor ()
      ensures Shows(Init())
    {
      registry, queues, posted := None, [], multiset{};
    }

    ghost predicate Shows(s: State)
      reads this
    {
      registry == s.registry && queues == s.queues && posted == s.posted
    }

    /** `register`, from `serve_start`. */
    method Register(ghost s: State)
      requires Shows(s) && s.loop.Starting?
      modifies this
      ensures Shows(Step(s, NativeRegister))
    {
      registry := Some(|queues|);
      queues := queues + [Generation([], false, None, None, [], [])];
    }

    /** `wake_request_loop`, then on to the caller's next business. */
    method WakeRequestLoop(ghost s: State, ghost b: State, ghost t: nat, g: nat, ghost job: Job) returns (ghost s': State)
      requires Shows(b) && Leads(s, Tick(t), b) && Stands(b, t, Waking(g, job)) && g < |queues|
      modifies this`posted
      ensures Shows(s') && Leads(s, Tick(t), s')
      ensures s' == b.(posted := posted, threads := b.threads[t := AfterWake(g, job)])
    {
      if queues[g].waker.Some? {
        ghost var token := queues[g].waker.value;
        ghost var b1 := b.(threads := b.threads[t := Posting(g, token, job)]);
        Acts(s, t, b, b1);
        posted := posted + multiset{queues[g].waker.value};
        s' := b.(posted := posted, threads := b.threads[t := AfterWake(g, job)]);
        assert b1.threads[t := AfterWake(g, job)] == s'.threads;
        Acts(s, t, b1, s');
      } else {
        s' := b.(threads := b.threads[t := AfterWake(g, job)]);
        Acts(s, t, b, s');
      }
    }

    /** `DenoTransport::deliver`. */
    method Deliver(ghost s: State, t: nat) returns (accepted: bool, ghost s': State)
      requires Shows(s) && Registered(s) && Stands(s, t, DeliverGet)
      modifies this
      ensures Shows(s') && Leads(s, Tick(t), s') && t < |s'.threads|
      ensures if accepted then s'.threads[t].Accepted? else s'.threads[t].Refused?
    {
      Stays(s, Tick(t));
      if registry.None? {
        s' := At(s, t, Refused);
        Acts(s, t, s, s');
        return false, s';
      }
      var g := registry.value;
      ghost var s1 := At(s, t, DeliverCheck(g));
      Acts(s, t, s, s1);
      if queues[g].shutdown {
        s' := At(s1, t, Refused);
        Acts(s, t, s1, s');
        return false, s';
      }
      ghost var s2 := At(s1, t, DeliverSend(g));
      Acts(s, t, s1, s2);
      if |queues[g].items| >= QUEUE_CAPACITY {
        s' := At(s2, t, Refused);
        Acts(s, t, s2, s');
        return false, s';
      }
      queues := queues[g := queues[g].(items := queues[g].items + [t], accepted := queues[g].accepted + [t])];
      ghost var s3 := At(s2.(queues := queues), t, Waking(g, DeliverJob));
      Acts(s, t, s2, s3);
      s' := WakeRequestLoop(s, s3, t, g, DeliverJob);
      return true, s';
    }

    /** `remove`, from `close_endpoint`. */
    method Remove(ghost s: State, ghost t: nat) returns (ghost s': State)
      requires Shows(s) && Registered(s) && Stands(s, t, CloseRemove)
      modifies this
      ensures Shows(s') && Leads(s, Tick(t), s') && Stands(s', t, Finished)
    {
      Stays(s, Tick(t));
      if registry.None? {
        s' := At(s, t, Finished);
        Acts(s, t, s, s');
        return;
      }
      var g := registry.value;
      registry := None;
      ghost var s1 := At(s.(registry := None), t, CloseSet(g));
      Acts(s, t, s, s1);
      queues := queues[g := queues[g].(shutdown := true)];
      ghost var s2 := At(s1.(queues := queues), t, Waking(g, CloseJob));
      Acts(s, t, s1, s2);
      s' := WakeRequestLoop(s, s2, t, g, CloseJob);
    }

    /** `signal_shutdown`. */
    method SignalShutdown(ghost s: State, ghost t: nat) returns (ghost s': State)
      requires Shows(s) && Registered(s) && Stands(s, t, StopGet)
      modifies this`queues, this`posted
      ensures Shows(s') && Registered(s') && Leads(s, Tick(t), s') && Stands(s', t, StopReget)
    {
      Stays(s, Tick(t));
      if registry.None? {
        s' := At(s, t, StopReget);
        Acts(s, t, s, s');
        return;
      }
      var g := registry.value;
      ghost var s1 := At(s, t, StopSet(g));
      Acts(s, t, s, s1);
      queues := queues[g := queues[g].(shutdown := true)];
      ghost var s2 := At(s1.(queues := queues), t, Waking(g, StopJob));
      Acts(s, t, s1, s2);
      s' := WakeRequestLoop(s, s2, t, g, StopJob);
    }

    /** `stop_serve`: shut down, look the queue up again, and drain it if its receiver is free. */
    method StopServe(ghost s: State, t: nat) returns (ghost s': State)
      requires Shows(s) && Registered(s) && Stands(s, t, StopGet)
      modifies this`queues, this`posted
      ensures Shows(s') && Leads(s, Tick(t), s') && Stands(s', t, Finished)
    {
      ghost var s1 := SignalShutdown(s, t);
      if registry.None? {
        s' := At(s1, t, Finished);
        Acts(s, t, s1, s');
        return;
      }
      var g := registry.value;
      ghost var s2 := At(s1, t, StopLock(g));
      Acts(s, t, s1, s2);
      if queues[g].rx.Some? {
        s' := At(s2, t, Finished);
        Acts(s, t, s2, s');
        return;
      }
      queues := queues[g := queues[g].(rx := Some(Thread(t)))];
      ghost var s3 := At(s2.(queues := queues), t, StopDrain(g));
      Acts(s, t, s2, s3);
      s' := Drain(s, s3, t, g);
    }

    /** The receive loop of the drain, and the release of the receiver. */
    method Drain(ghost s: State, ghost b: State, ghost t: nat, g: nat) returns (ghost s': State)
      requires Shows(b) && Leads(s, Tick(t), b) && Stands(b, t, StopDrain(g)) && g < |queues|
      modifies this`queues
      ensures Shows(s') && Leads(s, Tick(t), s') && Stands(s', t, Finished)
    {
      s' := b;
      while queues[g].items != []
        invariant g < |queues| && Shows(s') && Leads(s, Tick(t), s') && Stands(s', t, StopDrain(g))
        decreases |queues[g].items|
      {
        queues := queues[g := Rejecting(queues[g])];
        ghost var s1 := s'.(queues := queues);
        Acts(s, t, s', s1);
        s' := s1;
      }
      ghost var s2 := At(s', t, StopUnlock(g));
      Acts(s, t, s', s2);
      queues := queues[g := queues[g].(rx := None)];
      s' := At(s2.(queues := queues), t, Finished);
      Acts(s, t, s2, s');
    }

    /** `set_request_ready_waker` for the loop's cycle, on the queue it looks up. */
    method SetRequestReadyWaker(ghost s: State, token: nat, ghost fit: PollResult) returns (found: bool, ghost s': State)
      requires Shows(s) && Registered(s) && s.loop.InstallGet? && token == s.token
      modifies this
      ensures Shows(s') && Leads(s, LoopTick(fit), s')
      ensures s'.loop == if found then PollGet(false) else Exited
    {
      Stays(s, LoopTick(fit));
      if registry.None? {
        s' := s.(loop := Exited);
        Turns(s, fit, s, s');
        return false, s';
      }
      var g := registry.value;
      ghost var s1 := s.(loop := InstallSet(g));
      Turns(s, fit, s, s1);
      queues := queues[g := queues[g].(waker := Some(token))];
      ghost var s2 := s1.(queues := queues, loop := InstallPeek(g), bound := g);
      Turns(s, fit, s1, s2);
      var requestWaiting := queues[g].rx.Some? || queues[g].items != [];
      ghost var s3 := s2.(loop := InstallDecide(g, requestWaiting));
      Turns(s, fit, s2, s3);
      if queues[g].shutdown || requestWaiting {
        posted := posted + multiset{token};
      }
      s' := s3.(loop := PollGet(false), posted := posted);
      Turns(s, fit, s3, s');
      return true, s';
    }

    /** `iroh_http_try_next_request`: -1, 0, or a request, which may not fit the buffer. */
    method TryNextRequest(ghost s: State, fit: PollResult) returns (result: Poll, ghost s': State)
      requires Shows(s) && Registered(s) && s.loop.PollGet? && fit != NoRequest
      modifies this`queues
      ensures Shows(s') && Leads(s, LoopTick(fit), s')
      ensures s'.loop == AfterPoll(s.loop.second, result) && Took(s', result)
    {
      ghost var second := s.loop.second;
      Stays(s, LoopTick(fit));
      if registry.None? {
        s' := s.(loop := Exited);
        Turns(s, fit, s, s');
        return Minus1, s';
      }
      var g := registry.value;
      ghost var s1 := s.(loop := PollShutdown(g, second));
      Turns(s, fit, s, s1);
      if queues[g].shutdown {
        s' := s.(loop := Exited);
        Turns(s, fit, s1, s');
        return Minus1, s';
      }
      ghost var s2 := s.(loop := PollLock(g, second));
      Turns(s, fit, s1, s2);
      if queues[g].rx.Some? {
        s' := s.(loop := Parking(true));
        Turns(s, fit, s2, s');
        return Zero(true), s';
      }
      result, s' := Receive(s, s2, g, fit);
    }

    /** The receive under the lock. */
    method Receive(ghost s: State, ghost b: State, g: nat, fit: PollResult) returns (result: Poll, ghost s': State)
      requires Shows(b) && Leads(s, LoopTick(fit), b) && fit != NoRequest
      requires b.loop.PollLock? && registry == Some(g) && b.loop.g == g && g < |queues| && queues[g].rx.None?
      modifies this`queues
      ensures Shows(s') && Leads(s, LoopTick(fit), s')
      ensures s'.loop == AfterPoll(b.loop.second, result) && Took(s', result)
    {
      ghost var second := b.loop.second;
      queues := queues[g := queues[g].(rx := Some(Loop))];
      ghost var s1 := b.(queues := queues, loop := PollReceive(g, second));
      Turns(s, fit, b, s1);
      if queues[g].items == [] {
        result := Zero(false);
        s' := Unlock(s, s1, s1.(loop := PollUnlock(g, second, NoRequest)), g, fit, result);
      } else {
        result := Received(queues[g].items[0], fit);
        queues := queues[g := Polling(queues[g])];
        s' := Unlock(s, s1, s1.(queues := queues, loop := PollUnlock(g, second, fit)), g, fit, result);
      }
    }

    /** The guard goes out of scope. */
    method Unlock(ghost s: State, ghost b: State, ghost c: State, g: nat, ghost fit: PollResult, ghost result: Poll)
      returns (ghost s': State)
      requires Leads(s, LoopTick(fit), b) && LoopInRange(b, b.loop) && LoopStep(b, fit) == c && Shows(c)
      requires g < |queues| && c.loop.PollUnlock? && c.loop.g == g && Encodes(c.loop.result, result)
      modifies this`queues
      ensures Shows(s') && Leads(s, LoopTick(fit), s') && s'.loop == AfterPoll(c.loop.second, result)
      ensures queues == old(queues)[g := old(queues)[g].(rx := None)]
    {
      Turns(s, fit, b, c);
      queues := queues[g := queues[g].(rx := None)];
      s' := c.(queues := queues, loop := AfterPoll(c.loop.second, result));
      Turns(s, fit, c, s');
    }
  }

  predicate Encodes(inside: PollResult, result: Poll) {
    match result
    case Minus1 => false
    case Zero(refused) => !refused && inside == NoRequest
    case Received(_, fit) => inside == fit && fit != NoRequest
  }

  /** The request a poll returned is the one it took. */
  ghost predicate Took(s: State, result: Poll) {
    result.Received? ==>
      && s.registry.Some? && s.registry.value < |s.queues| && s.queues[s.registry.value].taken != []
      && var taken := s.queues[s.registry.value].taken; taken[|taken| - 1] == Polled(result.id)
  }

  function Rejecting(q: Generation): Generation
    requires q.items != []
  {
    q.(items := q.items[1..], taken := q.taken + [Rejected503(q.items[0])])
  }

  function Polling(q: Generation): Generation
    requires q.items != []
  {
    q.(items := q.items[1..], taken := q.taken + [Polled(q.items[0])])
  }

  /** What a poll returns; `refused` is a 0 because the receiver was held. */
  datatype Poll = Minus1 | Zero(refused: bool) | Received(id: nat, fit: PollResult)

  /** What the JavaScript loop does with it. */
  function AfterPoll(second: bool, result: Poll): LoopPc {
    match result
    case Minus1 => Exited
    case Zero(refused) => Parking(refused)
    case Received(_, fit) =>
      if fit.GotRequest? then PollGet(false) else if fit.TooSmall? && !second then PollGet(true) else Exited
  }
}
