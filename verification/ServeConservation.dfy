/** Where every delivered request is, over the whole serve bridge.  */
module ServeConservation {
  import opened Common
  import opened ServeWake

  function Ids(taken: seq<Taken>): seq<nat> {
    if taken == [] then [] else Ids(taken[..|taken| - 1]) + [taken[|taken| - 1].id]
  }

  lemma IdsSnoc(taken: seq<Taken>, last: Taken)
    ensures Ids(taken + [last]) == Ids(taken) + [last.id]
  {
    assert (taken + [last])[..|taken|] == taken;
  }

  predicate IsDelivery(pc: Pc) {
    pc.DeliverGet? || pc.DeliverCheck? || pc.DeliverSend? || pc.Refused? || pc.Accepted?
    || ((pc.Waking? || pc.Posting?) && pc.job == DeliverJob)
  }

  predicate InFlight(pc: Pc) {
    pc.DeliverGet? || pc.DeliverCheck? || pc.DeliverSend?
  }

  /** The generation that accepted the thread's request, if one did. */
  function Home(pc: Pc): Option<nat> {
    if pc.Accepted? || ((pc.Waking? || pc.Posting?) && pc.job == DeliverJob) then Some(pc.g) else None
  }

  /** How often request `t` occurs in a generation: still queued, or taken from it. */
  function Copies(q: Generation, t: nat): nat {
    multiset(q.items)[t] + multiset(Ids(q.taken))[t]
  }

  function CopiesIn(queues: seq<Generation>, t: nat): nat {
    if queues == [] then 0 else CopiesIn(queues[..|queues| - 1], t) + Copies(queues[|queues| - 1], t)
  }

  /** The number of places request `t` is in: undecided, rejected by `deliver`, queued in
      some generation, taken by a poll, or rejected by a stop's drain.  */
  function Places(s: State, t: nat): nat
    requires t < |s.threads|
  {
    (if InFlight(s.threads[t]) then 1 else 0) + (if s.threads[t].Refused? then 1 else 0) + CopiesIn(s.queues, t)
  }

  ghost predicate QueueOk(s: State, g: nat)
    requires g < |s.queues|
  {
    var q := s.queues[g];
    && |q.items| <= QUEUE_CAPACITY
    && q.accepted == Ids(q.taken) + q.items
    && NoDuplicates(q.accepted)
    && (forall id | id in q.accepted :: id < |s.threads| && Home(s.threads[id]) == Some(g))
  }

  predicate HomeOk(s: State, t: nat)
    requires t < |s.threads|
  {
    match Home(s.threads[t]) case None => true case Some(g) => g < |s.queues| && t in s.queues[g].accepted
  }

  ghost predicate Inv(s: State) {
    && (forall g: nat | g < |s.queues| :: QueueOk(s, g))
    && (forall t: nat | t < |s.threads| :: HomeOk(s, t))
  }

  /** Taking the oldest request keeps the ledger. */
  lemma TakeKeepsLedger(q: Generation, entry: Taken)
    requires q.accepted == Ids(q.taken) + q.items && q.items != [] && entry.id == q.items[0]
    ensures q.accepted == Ids(q.taken + [entry]) + q.items[1..]
  {
    IdsSnoc(q.taken, entry);
    assert q.items == [q.items[0]] + q.items[1..];
  }

  /** A change of one queue that adds no request and keeps its ledger. */
  lemma QueueChangeKeepsInv(s: State, s': State, g: nat)
    requires Inv(s) && g < |s.queues| && s'.threads == s.threads && |s'.queues| == |s.queues|
    requires forall h | 0 <= h < |s.queues| && h != g :: s'.queues[h] == s.queues[h]
    requires s'.queues[g].accepted == s.queues[g].accepted
    requires s'.queues[g].accepted == Ids(s'.queues[g].taken) + s'.queues[g].items
    requires |s'.queues[g].items| <= |s.queues[g].items|
    ensures Inv(s')
  {
    forall u: nat | u < |s'.threads| ensures HomeOk(s', u) {
      assert HomeOk(s, u);
    }
    forall h: nat | h < |s'.queues| ensures QueueOk(s', h) {
      assert QueueOk(s, h);
    }
  }

  /** A program-counter change that neither queues nor unqueues the thread's request. */
  lemma PcChangeKeepsInv(s: State, t: nat, s': State)
    requires Inv(s) && t < |s.threads| && s'.queues == s.queues
    requires |s'.threads| == |s.threads| && forall u | 0 <= u < |s.threads| && u != t :: s'.threads[u] == s.threads[u]
    requires Home(s'.threads[t]) == Home(s.threads[t])
    ensures Inv(s')
  {
    forall u: nat | u < |s'.threads| ensures HomeOk(s', u) {
      assert HomeOk(s, u);
    }
    forall h: nat | h < |s'.queues| ensures QueueOk(s', h) {
      assert QueueOk(s, h);
    }
  }

  /** An accepted `try_send` appends the request in the same action that marks it queued. */
  lemma AcceptKeepsInv(s: State, t: nat, g: nat, s': State)
    requires Inv(s) && t < |s.threads| && g < |s.queues| && Home(s.threads[t]).None?
    requires var q := s.queues[g];
             && |q.items| < QUEUE_CAPACITY
             && s'.queues == s.queues[g := q.(items := q.items + [t], accepted := q.accepted + [t])]
             && s'.threads == s.threads[t := Waking(g, DeliverJob)]
    ensures Inv(s')
  {
    forall h: nat | h < |s.queues| ensures t !in s.queues[h].accepted {
      assert QueueOk(s, h);
    }
    forall h: nat | h < |s'.queues| ensures QueueOk(s', h) {
      assert QueueOk(s, h);
      if h == g {
        assert Ids(s.queues[g].taken) + (s.queues[g].items + [t]) == s.queues[g].accepted + [t];
      }
    }
    forall u: nat | u < |s'.threads| ensures HomeOk(s', u) {
      assert HomeOk(s, u);
      if u == t {
        assert s'.queues[g].accepted[|s.queues[g].accepted|] == t;
      }
    }
  }

  lemma SendKeepsInv(s: State, t: nat)
    requires Inv(s) && t < |s.threads| && s.threads[t].DeliverSend? && s.threads[t].g < |s.queues|
    ensures Inv(ThreadStep(s, t))
  {
    var g := s.threads[t].g;
    if |s.queues[g].items| < QUEUE_CAPACITY {
      AcceptKeepsInv(s, t, g, ThreadStep(s, t));
    } else {
      PcChangeKeepsInv(s, t, ThreadStep(s, t));
    }
  }

  /** One round of a stop's drain. */
  function Drained(s: State, g: nat): (s': State)
    requires g < |s.queues| && s.queues[g].items != []
  {
    var q := s.queues[g];
    WithQueue(s, g, q.(items := q.items[1..], taken := q.taken + [Rejected503(q.items[0])]))
  }

  lemma DrainKeepsInv(s: State, t: nat)
    requires Inv(s) && t < |s.threads| && s.threads[t].StopDrain? && s.threads[t].g < |s.queues|
    requires s.queues[s.threads[t].g].items != []
    ensures Inv(ThreadStep(s, t))
  {
    var g := s.threads[t].g;
    var q := s.queues[g];
    assert QueueOk(s, g);
    TakeKeepsLedger(q, Rejected503(q.items[0]));
    QueueChangeKeepsInv(s, Drained(s, g), g);
  }

  lemma FlagKeepsInv(s: State, t: nat)
    requires Inv(s) && t < |s.threads| && InRange(s, s.threads[t])
    requires s.threads[t].StopSet? || s.threads[t].CloseSet? || s.threads[t].StopLock? || s.threads[t].StopUnlock?
    ensures Inv(ThreadStep(s, t))
  {
    var s' := ThreadStep(s, t);
    assert QueueOk(s, s.threads[t].g);
    var s1 := s.(queues := s'.queues);
    QueueChangeKeepsInv(s, s1, s.threads[t].g);
    PcChangeKeepsInv(s1, t, s');
  }

  lemma ThreadKeepsInv(s: State, t: nat)
    requires Inv(s) && t < |s.threads| && InRange(s, s.threads[t])
    ensures Inv(ThreadStep(s, t))
  {
    var pc := s.threads[t];
    if pc.DeliverSend? {
      SendKeepsInv(s, t);
    } else if pc.StopDrain? && s.queues[pc.g].items != [] {
      DrainKeepsInv(s, t);
    } else if pc.StopSet? || pc.CloseSet? || pc.StopLock? || pc.StopUnlock? {
      FlagKeepsInv(s, t);
    } else {
      PcChangeKeepsInv(s, t, ThreadStep(s, t));
    }
  }

  lemma LoopKeepsInv(s: State, fit: PollResult)
    requires Inv(s) && LoopInRange(s, s.loop)
    ensures Inv(LoopStep(s, fit))
  {
    var s' := LoopStep(s, fit);
    if s.loop.PollReceive? && s.queues[s.loop.g].items != [] {
      assert QueueOk(s, s.loop.g);
      TakeKeepsLedger(s.queues[s.loop.g], Polled(s.queues[s.loop.g].items[0]));
      QueueChangeKeepsInv(s, s', s.loop.g);
    } else if s.loop.InstallSet? || s.loop.PollLock? || s.loop.PollUnlock? {
      assert QueueOk(s, s.loop.g);
      QueueChangeKeepsInv(s, s', s.loop.g);
    } else {
      assert s'.queues == s.queues && s'.threads == s.threads;
      SameRequestsKeepInv(s, s');
    }
  }

  lemma SameRequestsKeepInv(s: State, s': State)
    requires Inv(s) && s'.queues == s.queues && s.threads <= s'.threads
    requires forall t | |s.threads| <= t < |s'.threads| :: Home(s'.threads[t]).None?
    ensures Inv(s')
  {
    forall u: nat | u < |s'.threads| ensures HomeOk(s', u) {
      if u < |s.threads| { assert HomeOk(s, u); }
    }
    forall h: nat | h < |s'.queues| ensures QueueOk(s', h) {
      assert QueueOk(s, h);
    }
  }

  lemma StepKeepsInv(s: State, l: Label)
    requires Inv(s)
    ensures Inv(Step(s, l))
  {
    var s' := Step(s, l);
    if l.Tick? {
      if l.thread < |s.threads| && InRange(s, s.threads[l.thread]) { ThreadKeepsInv(s, l.thread); }
    } else if l.LoopTick? {
      if LoopInRange(s, s.loop) { LoopKeepsInv(s, l.fit); }
    } else if l.NativeRegister? && s.loop.Starting? {
      forall h: nat | h < |s'.queues| ensures QueueOk(s', h) {
        if h < |s.queues| { assert QueueOk(s, h); }
      }
      forall u: nat | u < |s'.threads| ensures HomeOk(s', u) {
        assert HomeOk(s, u);
      }
    } else {
      SameRequestsKeepInv(s, s');
    }
  }

  lemma {:induction false} RunKeepsInv(s: State, labels: seq<Label>)
    requires Inv(s)
    ensures Inv(Run(s, labels))
    decreases |labels|
  {
    if labels != [] {
      StepKeepsInv(s, labels[0]);
      RunKeepsInv(Step(s, labels[0]), labels[1..]);
    }
  }

  lemma CopiesAreOccurrences(q: Generation, t: nat)
    requires q.accepted == Ids(q.taken) + q.items && NoDuplicates(q.accepted)
    ensures Copies(q, t) == if t in q.accepted then 1 else 0
  {
    assert multiset(q.accepted) == multiset(Ids(q.taken)) + multiset(q.items);
    OccursOnce(q.accepted, t);
  }

  lemma {:induction false} OccursOnce(ids: seq<nat>, t: nat)
    requires NoDuplicates(ids)
    ensures multiset(ids)[t] == if t in ids then 1 else 0
    decreases |ids|
  {
    if ids != [] {
      var front := ids[..|ids| - 1];
      assert ids == front + [ids[|ids| - 1]];
      OccursOnce(front, t);
    }
  }

  /** A request accepted by generation `home` (if any) occurs there and nowhere else. */
  lemma {:induction false} CopiesAddUp(s: State, t: nat, n: nat)
    requires Inv(s) && t < |s.threads| && n <= |s.queues|
    ensures CopiesIn(s.queues[..n], t) == if Home(s.threads[t]).Some? && Home(s.threads[t]).value < n then 1 else 0
    decreases n
  {
    if n > 0 {
      assert s.queues[..n][..n - 1] == s.queues[..n - 1];
      CopiesAddUp(s, t, n - 1);
      assert QueueOk(s, n - 1);
      CopiesAreOccurrences(s.queues[n - 1], t);
      assert HomeOk(s, t);
      assert t in s.queues[n - 1].accepted <==> Home(s.threads[t]) == Some(n - 1);
    }
  }

  /** Request conservation: at every point of every run each request handed to `deliver`
      is in exactly one place.  */
  lemma EveryRequestInOnePlace(labels: seq<Label>, t: nat)
    requires t < |Run(Init(), labels).threads| && IsDelivery(Run(Init(), labels).threads[t])
    ensures Places(Run(Init(), labels), t) == 1
  {
    RunKeepsInv(Init(), labels);
    var s := Run(Init(), labels);
    CopiesAddUp(s, t, |s.queues|);
    assert s.queues[..|s.queues|] == s.queues;
    assert HomeOk(s, t);
  }

  /** Each generation hands its requests out in the order it accepted them, never holds
      more than its capacity, and holds no other thread's work.  */
  lemma GenerationsAreFifo(labels: seq<Label>, g: nat)
    requires g < |Run(Init(), labels).queues|
    ensures var q := Run(Init(), labels).queues[g];
            && q.accepted == Ids(q.taken) + q.items
            && NoDuplicates(q.accepted)
            && |q.items| <= QUEUE_CAPACITY
  {
    RunKeepsInv(Init(), labels);
    assert QueueOk(Run(Init(), labels), g);
  }
}
