/** Runs of the overflow path: callers on any number of threads whose responses do not fit, and
    their "__cached" retries.

    A retry holds the cache lock from the removal of its entry to the end of the branch that
    deals with it: the guard is a temporary of the `if let` scrutinee.  If the buffer is still
    too small, that branch locks the same mutex again to put the entry back, on the same thread,
    and that call of `lock` never returns.  */
module OverflowRuns {
  import opened Common
  import opened OverflowCache

  type Bytes = seq<int>

  datatype Pc =
    | Idle
    | Storing(token: nat, data: Bytes)     // has its token, waits for the lock to cache
    | Asking(token: nat, cap: nat)         // a retry, waits for the lock
    | Stuck(token: nat, entry: Entry)      // locks again what it holds

  /** Where a token's response is.  `Delivered(i)` is the i-th delivery of the run. */
  datatype Place = Pending(owner: nat) | Cached | Hung(owner: nat) | Delivered(index: nat) | Dropped

  datatype Delivery = Delivery(token: nat, bytes: Bytes)

  /** History: every response that did not fit, where it went, what callers got, and the token
      cached last.  */
  datatype History = History(responses: map<nat, Bytes>, place: map<nat, Place>, delivered: seq<Delivery>, last: nat)

  /** `holder`: the thread that holds the cache lock for good. */
  datatype State = State(counter: nat, entries: map<nat, Entry>, holder: Option<nat>, threads: map<nat, Pc>, past: History)

  const INIT: State := State(1, map[], None, map[], History(map[], map[], [], 0))

  datatype Label =
    | Overflow(t: nat, data: Bytes)                            // `fetch_add` on the counter
    | Store(t: nat, now: nat, after: map<nat, Entry>)          // evict, then insert
    | Ask(t: nat, token: nat, cap: nat)                        // a call of "__cached"
    | Answer(t: nat)                                           // its section under the lock

  function PcOf(s: State, t: nat): Pc {
    if t in s.threads then s.threads[t] else Idle
  }

  function Went(h: History, token: nat, p: Place): History {
    h.(place := h.place[token := p])
  }

  /** The evicted entries are gone for good. */
  function Drop(place: map<nat, Place>, before: map<nat, Entry>, after: map<nat, Entry>): map<nat, Place> {
    map k | k in place :: if k in before && k !in after then Dropped else place[k]
  }

  function Stored(s: State, t: nat, token: nat, entry: Entry, after: map<nat, Entry>): State {
    s.(entries := after[token := entry], threads := s.threads[t := Idle],
       past := s.past.(place := Drop(s.past.place, s.entries, after)[token := Cached], last := token))
  }

  function Delivers(s: State, t: nat, token: nat, data: Bytes): State {
    s.(entries := s.entries - {token}, threads := s.threads[t := Idle],
       past := Went(s.past, token, Delivered(|s.past.delivered|))
               .(delivered := s.past.delivered + [Delivery(token, data)]))
  }

  function Hangs(s: State, t: nat, token: nat, entry: Entry): State {
    s.(entries := s.entries - {token}, holder := Some(t), threads := s.threads[t := Stuck(token, entry)],
       past := Went(s.past, token, Hung(t)))
  }

  function Answered(s: State, t: nat, token: nat, cap: nat): State {
    if token !in s.entries then s.(threads := s.threads[t := Idle])
    else if |s.entries[token].data| <= cap then Delivers(s, t, token, s.entries[token].data)
    else Hangs(s, t, token, s.entries[token])
  }

  ghost function Step(s: State, l: Label): State {
    match l
    case Overflow(t, data) =>
      if PcOf(s, t).Idle? then
        s.(counter := s.counter + 1, threads := s.threads[t := Storing(s.counter, data)],
           past := Went(s.past, s.counter, Pending(t)).(responses := s.past.responses[s.counter := data]))
      else s
    case Store(t, now, after) =>
      var pc := PcOf(s, t);
      if pc.Storing? && s.holder.None? && Evicted(s.entries, now, after)
      then Stored(s, t, pc.token, Entry(pc.data, now), after) else s
    case Ask(t, token, cap) => if PcOf(s, t).Idle? then s.(threads := s.threads[t := Asking(token, cap)]) else s
    case Answer(t) =>
      var pc := PcOf(s, t);
      if pc.Asking? && s.holder.None? then Answered(s, t, pc.token, pc.cap) else s
  }

  ghost function Run(s: State, labels: seq<Label>): State
    decreases |labels|
  {
    if labels == [] then s else Run(Step(s, labels[0]), labels[1..])
  }

  // ── Invariant: the history tells where everything is ────────────────────────

  ghost predicate At(s: State, k: nat, p: Place) {
    k in s.past.place && s.past.place[k] == p
  }

  ghost predicate TokensOk(s: State) {
    && s.past.responses.Keys == s.past.place.Keys
    && forall k | k in s.past.place :: k < s.counter
  }

  ghost predicate EntryOk(s: State, k: nat) {
    && (k in s.entries <==> At(s, k, Cached))
    && (k in s.entries ==> k in s.past.responses && s.entries[k].data == s.past.responses[k])
  }

  ghost predicate ThreadOk(s: State, t: nat) {
    var pc := PcOf(s, t);
    && (pc.Storing? ==> At(s, pc.token, Pending(t)) && pc.token in s.past.responses && pc.data == s.past.responses[pc.token])
    && (pc.Stuck? ==> At(s, pc.token, Hung(t)))
    && (pc.Stuck? <==> s.holder == Some(t))
  }

  ghost predicate PlaceOk(s: State, k: nat) {
    k in s.past.place ==>
      var p := s.past.place[k];
      && (p.Pending? ==> PcOf(s, p.owner).Storing? && PcOf(s, p.owner).token == k)
      && (p.Hung? ==> PcOf(s, p.owner).Stuck? && PcOf(s, p.owner).token == k)
      && (p.Delivered? ==> p.index < |s.past.delivered| && s.past.delivered[p.index].token == k)
  }

  ghost predicate DeliveryOk(s: State, i: nat) {
    i < |s.past.delivered| ==>
      var d := s.past.delivered[i];
      At(s, d.token, Delivered(i)) && d.token in s.past.responses && d.bytes == s.past.responses[d.token]
  }

  ghost predicate Inv(s: State) {
    && TokensOk(s)
    && (forall k :: EntryOk(s, k))
    && (forall t :: ThreadOk(s, t))
    && (forall k :: PlaceOk(s, k))
    && (forall i :: DeliveryOk(s, i))
  }

  lemma CallKeepsInv(s: State, l: Label)
    requires Inv(s) && (l.Overflow? || l.Ask?)
    ensures Inv(Step(s, l))
  {
    var s' := Step(s, l);
    forall k ensures EntryOk(s', k) { assert EntryOk(s, k); }
    forall u ensures ThreadOk(s', u) { assert ThreadOk(s, u); }
    forall k ensures PlaceOk(s', k) { assert PlaceOk(s, k); }
    forall i ensures DeliveryOk(s', i) { assert DeliveryOk(s, i); }
  }

  ghost predicate Within(after: map<nat, Entry>, before: map<nat, Entry>) {
    forall k | k in after :: k in before && after[k] == before[k]
  }

  lemma StoredThreads(s: State, t: nat, token: nat, entry: Entry, after: map<nat, Entry>, u: nat)
    requires Inv(s) && Within(after, s.entries) && PcOf(s, t) == Storing(token, entry.data)
    ensures ThreadOk(Stored(s, t, token, entry, after), u)
  {
    assert ThreadOk(s, t) && ThreadOk(s, u);
    if !PcOf(s, u).Idle? { assert EntryOk(s, PcOf(s, u).token); }
  }

  lemma StoredTokens(s: State, t: nat, token: nat, entry: Entry, after: map<nat, Entry>, k: nat)
    requires Inv(s) && Within(after, s.entries) && PcOf(s, t) == Storing(token, entry.data)
    ensures EntryOk(Stored(s, t, token, entry, after), k) && PlaceOk(Stored(s, t, token, entry, after), k)
  {
    assert ThreadOk(s, t) && EntryOk(s, k) && PlaceOk(s, k);
  }

  lemma StoredDeliveries(s: State, t: nat, token: nat, entry: Entry, after: map<nat, Entry>, i: nat)
    requires Inv(s) && Within(after, s.entries) && PcOf(s, t) == Storing(token, entry.data)
    ensures DeliveryOk(Stored(s, t, token, entry, after), i)
  {
    assert ThreadOk(s, t) && DeliveryOk(s, i);
    if i < |s.past.delivered| { assert EntryOk(s, s.past.delivered[i].token); }
  }

  lemma StoredKeepsInv(s: State, t: nat, token: nat, entry: Entry, after: map<nat, Entry>)
    requires Inv(s) && Within(after, s.entries) && PcOf(s, t) == Storing(token, entry.data)
    ensures Inv(Stored(s, t, token, entry, after))
  {
    var s' := Stored(s, t, token, entry, after);
    assert ThreadOk(s, t);
    assert s'.past.place.Keys == s.past.place.Keys;
    forall u ensures ThreadOk(s', u) { StoredThreads(s, t, token, entry, after, u); }
    forall k ensures EntryOk(s', k) && PlaceOk(s', k) { StoredTokens(s, t, token, entry, after, k); }
    forall i ensures DeliveryOk(s', i) { StoredDeliveries(s, t, token, entry, after, i); }
  }

  lemma DeliversKeepsInv(s: State, t: nat, token: nat)
    requires Inv(s) && PcOf(s, t).Asking? && token in s.entries
    ensures Inv(Delivers(s, t, token, s.entries[token].data))
  {
    var s' := Delivers(s, t, token, s.entries[token].data);
    assert EntryOk(s, token) && ThreadOk(s, t);
    assert s'.past.place.Keys == s.past.place.Keys;
    forall k ensures EntryOk(s', k) { assert EntryOk(s, k); }
    forall u ensures ThreadOk(s', u) { assert ThreadOk(s, u); }
    forall k ensures PlaceOk(s', k) { assert PlaceOk(s, k); }
    forall i ensures DeliveryOk(s', i) { assert DeliveryOk(s, i); }
  }

  lemma HangsKeepsInv(s: State, t: nat, token: nat)
    requires Inv(s) && PcOf(s, t).Asking? && s.holder.None? && token in s.entries
    ensures Inv(Hangs(s, t, token, s.entries[token]))
  {
    var s' := Hangs(s, t, token, s.entries[token]);
    assert EntryOk(s, token) && ThreadOk(s, t);
    assert s'.past.place.Keys == s.past.place.Keys;
    forall k ensures EntryOk(s', k) { assert EntryOk(s, k); }
    forall u ensures ThreadOk(s', u) { assert ThreadOk(s, u); }
    forall k ensures PlaceOk(s', k) { assert PlaceOk(s, k); }
    forall i ensures DeliveryOk(s', i) { assert DeliveryOk(s, i); }
  }

  lemma MissKeepsInv(s: State, t: nat)
    requires Inv(s) && PcOf(s, t).Asking?
    ensures Inv(s.(threads := s.threads[t := Idle]))
  {
    var s' := s.(threads := s.threads[t := Idle]);
    forall k ensures EntryOk(s', k) { assert EntryOk(s, k); }
    forall u ensures ThreadOk(s', u) { assert ThreadOk(s, u) && ThreadOk(s, t); }
    forall k ensures PlaceOk(s', k) { assert PlaceOk(s, k); }
    forall i ensures DeliveryOk(s', i) { assert DeliveryOk(s, i); }
  }

  lemma StepKeepsInv(s: State, l: Label)
    requires Inv(s)
    ensures Inv(Step(s, l))
  {
    var pc := PcOf(s, l.t);
    if l.Store? {
      if pc.Storing? && s.holder.None? && Evicted(s.entries, l.now, l.after) {
        StoredKeepsInv(s, l.t, pc.token, Entry(pc.data, l.now), l.after);
      }
    } else if l.Answer? {
      if pc.Asking? && s.holder.None? {
        if pc.token !in s.entries { MissKeepsInv(s, l.t); }
        else if |s.entries[pc.token].data| <= pc.cap { DeliversKeepsInv(s, l.t, pc.token); }
        else { HangsKeepsInv(s, l.t, pc.token); }
      }
    } else {
      CallKeepsInv(s, l);
    }
  }

  lemma {:induction false} RunKeepsInv(s: State, labels: seq<Label>)
    requires Inv(s)
    ensures Inv(Run(s, labels))
    decreases |labels|
  {
    if labels != [] {
      StepKeepsInv(s, labels[0]);
      RunKeepsInv(Step(s, labels[0]), labels[1..]);
    }
  }

  lemma {:induction false} RunSplits(s: State, first: seq<Label>, second: seq<Label>)
    ensures Run(s, first + second) == Run(Run(s, first), second)
    decreases |first|
  {
    if first == [] {
      assert first + second == second;
    } else {
      assert (first + second)[0] == first[0] && (first + second)[1..] == first[1..] + second;
      RunSplits(Step(s, first[0]), first[1..], second);
    }
  }

  lemma OneStep(s: State, l: Label)
    ensures Run(s, [l]) == Step(s, l)
  {
    assert [l][1..] == [];
    assert Run(s, [l]) == Run(Step(s, l), []);
  }

  lemma TwoSteps(s: State, a: Label, b: Label)
    ensures Run(s, [a, b]) == Step(Step(s, a), b)
  {
    assert [a, b][1..] == [b];
    OneStep(Step(s, a), b);
  }

  // ── Where every response is ─────────────────────────────────────────────────

  /** A response that did not fit comes back at most once, and byte for byte. */
  lemma DeliveredAtMostOnce(labels: seq<Label>)
    ensures var h := Run(INIT, labels).past;
            && (forall i | 0 <= i < |h.delivered| ::
                  h.delivered[i].token in h.responses && h.delivered[i].bytes == h.responses[h.delivered[i].token])
            && (forall i, j | 0 <= i < j < |h.delivered| :: h.delivered[i].token != h.delivered[j].token)
  {
    RunKeepsInv(INIT, labels);
    var s := Run(INIT, labels);
    forall i | 0 <= i < |s.past.delivered|
      ensures At(s, s.past.delivered[i].token, Delivered(i))
      ensures s.past.delivered[i].bytes == s.past.responses[s.past.delivered[i].token]
    {
      assert DeliveryOk(s, i);
    }
  }

  /** Looking at the cache, the calls under way and what was delivered, the response is at `p`. */
  ghost predicate Found(s: State, k: nat, p: Place) {
    match p
    case Pending(t) => PcOf(s, t).Storing? && PcOf(s, t).token == k
    case Cached => k in s.entries
    case Hung(t) => PcOf(s, t).Stuck? && PcOf(s, t).token == k
    case Delivered(i) => i < |s.past.delivered| && s.past.delivered[i].token == k
    case Dropped => At(s, k, Dropped)
  }

  /** At every point of every run each response is in exactly one place: waiting to be cached,
      cached, with the call that hangs, delivered once, or evicted.  */
  lemma EveryResponseInOnePlace(labels: seq<Label>, k: nat) returns (p: Place)
    requires k in Run(INIT, labels).past.responses
    ensures Found(Run(INIT, labels), k, p) && forall q | Found(Run(INIT, labels), k, q) :: q == p
  {
    var s := Run(INIT, labels);
    RunKeepsInv(INIT, labels);
    p := s.past.place[k];
    assert EntryOk(s, k) && PlaceOk(s, k);
    forall q | Found(s, k, q)
      ensures q == p
    {
      FoundWhereRecorded(s, k, q);
    }
  }

  lemma FoundWhereRecorded(s: State, k: nat, q: Place)
    requires Inv(s) && Found(s, k, q)
    ensures At(s, k, q)
  {
    match q
    case Pending(t) => assert ThreadOk(s, t);
    case Cached => assert EntryOk(s, k);
    case Hung(t) => assert ThreadOk(s, t);
    case Delivered(i) => assert DeliveryOk(s, i);
    case Dropped =>
  }

  /** While the lock is free a retry misses a response exactly if that is about to be cached,
      delivered or evicted.  */
  lemma RetryMissesIff(labels: seq<Label>, k: nat)
    requires k in Run(INIT, labels).past.responses && Run(INIT, labels).holder.None?
    ensures var s := Run(INIT, labels);
            k !in s.entries <==> exists p: Place :: (p.Pending? || p.Delivered? || p.Dropped?) && Found(s, k, p)
  {
    var s := Run(INIT, labels);
    RunKeepsInv(INIT, labels);
    var p := EveryResponseInOnePlace(labels, k);
    assert Found(s, k, Cached) <==> k in s.entries;
    if p.Hung? { assert ThreadOk(s, p.owner); }
  }

  predicate IsFinal(p: Place) {
    p.Delivered? || p.Dropped? || p.Hung?
  }

  lemma StepKeepsGone(s: State, l: Label, k: nat)
    requires Inv(s) && k in s.past.place && IsFinal(s.past.place[k])
    ensures At(Step(s, l), k, s.past.place[k])
  {
    assert EntryOk(s, k) && ThreadOk(s, l.t) && PlaceOk(s, k);
  }

  /** A response that was delivered, evicted or taken by the call that hangs never comes back. */
  lemma {:induction false} GoneForGood(s: State, labels: seq<Label>, k: nat)
    requires Inv(s) && k in s.past.place && IsFinal(s.past.place[k])
    ensures At(Run(s, labels), k, s.past.place[k])
    decreases |labels|
  {
    if labels != [] {
      StepKeepsInv(s, labels[0]);
      StepKeepsGone(s, labels[0], k);
      GoneForGood(Step(s, labels[0]), labels[1..], k);
    }
  }

  // ── The retry that hangs ────────────────────────────────────────────────────

  predicate Waits(pc: Pc) {
    pc.Storing? || pc.Asking? || pc.Stuck?
  }

  lemma HeldStep(s: State, l: Label)
    requires s.holder.Some?
    ensures var s' := Step(s, l);
            && s'.holder == s.holder && s'.entries == s.entries && s'.past.delivered == s.past.delivered
            && forall t | Waits(PcOf(s, t)) :: PcOf(s', t) == PcOf(s, t)
  {
  }

  /** Once a thread holds the lock for good, nothing is cached or delivered any more, and every
      call that has come to the lock stays there.  */
  lemma {:induction false} HeldForGood(s: State, labels: seq<Label>)
    requires s.holder.Some?
    ensures var s' := Run(s, labels);
            && s'.holder == s.holder && s'.entries == s.entries && s'.past.delivered == s.past.delivered
            && forall t | Waits(PcOf(s, t)) :: PcOf(s', t) == PcOf(s, t)
    decreases |labels|
  {
    if labels != [] {
      var s1 := Step(s, labels[0]);
      HeldStep(s, labels[0]);
      HeldForGood(s1, labels[1..]);
      forall t | Waits(PcOf(s, t)) ensures PcOf(Run(s, labels), t) == PcOf(s, t) {
        assert PcOf(s1, t) == PcOf(s, t);
      }
    }
  }

  /** A retry under the lock finds its response larger than its buffer. */
  ghost predicate TooSmall(s: State, l: Label) {
    && l.Answer? && s.holder.None? && PcOf(s, l.t).Asking?
    && PcOf(s, l.t).token in s.entries && PcOf(s, l.t).cap < |s.entries[PcOf(s, l.t).token].data|
  }

  /** The retry at position `j` of the run came with a buffer smaller than the size that the
      overflowing call had reported.  */
  ghost predicate TooSmallAt(labels: seq<Label>, j: nat) {
    j < |labels| && TooSmall(Run(INIT, labels[..j]), labels[j])
  }

  lemma HoldsIff(s: State, l: Label)
    requires s.holder.None?
    ensures Step(s, l).holder.Some? <==> TooSmall(s, l)
  {
  }

  /** The cache lock is held for good exactly when some retry of a cached response came with too
      small a buffer.  */
  lemma {:induction false} HeldIff(labels: seq<Label>)
    ensures Run(INIT, labels).holder.Some? <==> exists j: nat :: TooSmallAt(labels, j)
    decreases |labels|
  {
    if labels != [] {
      var n := |labels| - 1;
      var front, l := labels[..n], labels[n];
      assert labels == front + [l];
      RunSplits(INIT, front, [l]);
      OneStep(Run(INIT, front), l);
      HeldIff(front);
      forall j: nat | j < n ensures TooSmallAt(labels, j) <==> TooSmallAt(front, j) {
        assert labels[..j] == front[..j];
      }
      var s := Run(INIT, front);
      if s.holder.Some? { HeldStep(s, l); } else { HoldsIff(s, l); }
      assert TooSmallAt(labels, n) <==> TooSmall(s, l);
    }
  }

  /** Every call under way can still return. */
  ghost predicate AllCanReturn(s: State) {
    forall t :: CanReturn(s, t)
  }

  ghost predicate CanReturn(s: State, t: nat) {
    exists more :: PcOf(Run(s, more), t).Idle?
  }

  /** Every response that was neither delivered nor evicted can still be had. */
  ghost predicate NothingLost(s: State) {
    forall k | k in s.past.place && !s.past.place[k].Delivered? && !s.past.place[k].Dropped? :: CanBeHad(s, k)
  }

  ghost predicate CanBeHad(s: State, k: nat) {
    exists more :: k in Run(s, more).past.place && Run(s, more).past.place[k].Delivered?
  }

  lemma StoreReturns(s: State, t: nat) returns (l: Label)
    requires Inv(s) && s.holder.None? && PcOf(s, t).Storing?
    ensures var s' := Step(s, l);
            s'.holder.None? && PcOf(s', t).Idle? && PcOf(s, t).token in s'.entries && s'.entries[PcOf(s, t).token].data == PcOf(s, t).data
  {
    var after := EvictionExists(s.entries, 0);
    l := Store(t, 0, after);
  }

  lemma AskedReturns(s: State, t: nat, u: nat, k: nat)
    requires Inv(s) && s.holder.None? && PcOf(s, t) == Asking(k, u) && (k in s.entries ==> |s.entries[k].data| <= u)
    ensures var s' := Step(s, Answer(t));
            && PcOf(s', t).Idle? && s'.holder.None?
            && (k in s.entries ==> k in s'.past.place && s'.past.place[k].Delivered?)
  {
  }

  /** The cached response goes to a caller that comes with a buffer of its size. */
  lemma CachedCanBeHad(s: State, k: nat)
    requires Inv(s) && s.holder.None? && k in s.entries
    ensures CanBeHad(s, k)
  {
    var t := FreshThread(s.threads);
    var size := |s.entries[k].data|;
    var s1 := Step(s, Ask(t, k, size));
    StepKeepsInv(s, Ask(t, k, size));
    AskedReturns(s1, t, size, k);
    TwoSteps(s, Ask(t, k, size), Answer(t));
  }

  lemma FreshThread(threads: map<nat, Pc>) returns (t: nat)
    ensures t !in threads
  {
    t := Beyond(threads.Keys);
  }

  lemma {:induction false} Beyond(names: set<nat>) returns (t: nat)
    ensures forall x | x in names :: x < t
    decreases names
  {
    if names == {} {
      t := 0;
    } else {
      var x :| x in names;
      var u := Beyond(names - {x});
      t := if x < u then u else x + 1;
      assert forall y | y in names :: y == x || y in names - {x};
    }
  }

  lemma PendingCanBeHad(s: State, k: nat)
    requires Inv(s) && s.holder.None? && k in s.past.place && s.past.place[k].Pending?
    ensures CanBeHad(s, k)
  {
    var t := s.past.place[k].owner;
    assert PlaceOk(s, k);
    var l := StoreReturns(s, t);
    StepKeepsInv(s, l);
    var s1 := Step(s, l);
    CachedCanBeHad(s1, k);
    var more :| k in Run(s1, more).past.place && Run(s1, more).past.place[k].Delivered?;
    assert ([l] + more)[1..] == more;
    assert Run(s, [l] + more) == Run(s1, more);
  }

  lemma FreeLosesNothing(s: State)
    requires Inv(s) && s.holder.None?
    ensures NothingLost(s)
  {
    forall k | k in s.past.place && !s.past.place[k].Delivered? && !s.past.place[k].Dropped?
      ensures CanBeHad(s, k)
    {
      assert PlaceOk(s, k) && EntryOk(s, k);
      if s.past.place[k].Pending? {
        PendingCanBeHad(s, k);
      } else if s.past.place[k].Cached? {
        CachedCanBeHad(s, k);
      } else {
        HungHasHolder(s, k);
      }
    }
  }

  /** The call that hangs with a response holds the lock. */
  lemma HungHasHolder(s: State, k: nat)
    requires Inv(s) && k in s.past.place && s.past.place[k].Hung?
    ensures s.holder == Some(s.past.place[k].owner)
  {
    assert PlaceOk(s, k) && ThreadOk(s, s.past.place[k].owner);
  }

  /** With the lock free every call can return: one whose buffer is too small, if another with
      room comes first.  */
  lemma FreeReturns(s: State, t: nat)
    requires Inv(s) && s.holder.None?
    ensures CanReturn(s, t)
  {
    var pc := PcOf(s, t);
    assert ThreadOk(s, t);
    if pc.Storing? {
      var l := StoreReturns(s, t);
      OneStep(s, l);
    } else if pc.Asking? && pc.token in s.entries && pc.cap < |s.entries[pc.token].data| {
      ShortReturns(s, t, pc.token, pc.cap);
    } else if pc.Asking? {
      AskedReturns(s, t, pc.cap, pc.token);
      OneStep(s, Answer(t));
    } else {
      assert PcOf(Run(s, []), t).Idle?;
    }
  }

  lemma ShortReturns(s: State, t: nat, k: nat, cap: nat)
    requires Inv(s) && s.holder.None? && PcOf(s, t) == Asking(k, cap) && k in s.entries
    ensures CanReturn(s, t)
  {
    var u := FreshThread(s.threads);
    var size := |s.entries[k].data|;
    var first := [Ask(u, k, size), Answer(u)];
    var s1 := Step(s, Ask(u, k, size));
    StepKeepsInv(s, Ask(u, k, size));
    AskedReturns(s1, u, size, k);
    TwoSteps(s, Ask(u, k, size), Answer(u));
    var s2 := Run(s, first);
    RunKeepsInv(s, first);
    assert PcOf(s2, t) == Asking(k, cap) && k !in s2.entries;
    AskedReturns(s2, t, cap, k);
    OneStep(s2, Answer(t));
    RunSplits(s, first, [Answer(t)]);
    assert PcOf(Run(s, first + [Answer(t)]), t).Idle?;
  }

  /** At any point of any run, all calls can return and nothing but eviction has lost a response
      exactly when no retry of a cached response has come with a buffer smaller than the size
      reported for it.  */
  lemma ReturnsAndKeepsIff(labels: seq<Label>)
    ensures var s := Run(INIT, labels);
            AllCanReturn(s) && NothingLost(s) <==> forall j: nat :: !TooSmallAt(labels, j)
  {
    var s := Run(INIT, labels);
    RunKeepsInv(INIT, labels);
    HeldIff(labels);
    if s.holder.None? {
      forall t ensures CanReturn(s, t) { FreeReturns(s, t); }
      FreeLosesNothing(s);
    } else {
      NoReturn(s);
    }
  }

  lemma NoReturn(s: State)
    requires Inv(s) && s.holder.Some?
    ensures !CanReturn(s, s.holder.value)
  {
    var t := s.holder.value;
    assert ThreadOk(s, t);
    forall more ensures !PcOf(Run(s, more), t).Idle? { HeldForGood(s, more); }
  }

  /** What such a retry does, from every reachable state: it never returns, its response is gone,
      and no later call gets past the cache lock.  */
  lemma TooSmallRetryHangs(before: seq<Label>, t: nat, after: seq<Label>)
    requires TooSmall(Run(INIT, before), Answer(t))
    ensures var s := Run(INIT, before);
            var s' := Run(INIT, before + [Answer(t)] + after);
            && PcOf(s', t).Stuck? && s'.holder == Some(t) && At(s', PcOf(s, t).token, Hung(t))
            && s'.entries == s.entries - {PcOf(s, t).token} && s'.past.delivered == s.past.delivered
            && forall u | u != t && Waits(PcOf(s, u)) :: PcOf(s', u) == PcOf(s, u)
  {
    var s := Run(INIT, before);
    var s1 := Step(s, Answer(t));
    RunSplits(INIT, before, [Answer(t)]);
    OneStep(s, Answer(t));
    RunSplits(INIT, before + [Answer(t)], after);
    RunKeepsInv(INIT, before);
    StepKeepsInv(s, Answer(t));
    HeldForGood(s1, after);
    GoneForGood(s1, after, PcOf(s, t).token);
    var s' := Run(s1, after);
    assert Waits(PcOf(s1, t));
    forall u | u != t && Waits(PcOf(s, u)) ensures PcOf(s', u) == PcOf(s, u) {
      assert PcOf(s1, u) == PcOf(s, u);
    }
  }

  /** A run up to such a retry: one response of one byte, and a buffer of none. */
  lemma TooSmallRetryArises() returns (labels: seq<Label>)
    ensures TooSmall(Run(INIT, labels), Answer(0))
  {
    var s1 := Step(INIT, Overflow(0, [7]));
    var none: map<nat, Entry> := map[];
    assert TotalBytes(none) == 0;
    assert Evicted(none, 0, none);
    var s2 := Step(s1, Store(0, 0, none));
    assert s2.entries == map[1 := Entry([7], 0)];
    var first := [Overflow(0, [7]), Store(0, 0, none)];
    TwoSteps(INIT, Overflow(0, [7]), Store(0, 0, none));
    RunSplits(INIT, first, [Ask(0, 1, 0)]);
    OneStep(s2, Ask(0, 1, 0));
    labels := first + [Ask(0, 1, 0)];
  }

  // ── How far the cache can stand above its limits ────────────────────────────

  ghost predicate BudgetOk(s: State) {
    !OverBudget(s.entries - {s.past.last})
  }

  /** The step leaves the last token alone and caches nothing. */
  lemma OtherStepShrinks(s: State, l: Label)
    requires !l.Store?
    ensures Step(s, l).past.last == s.past.last && Within(Step(s, l).entries, s.entries)
  {
  }

  lemma ShrinkKeepsBudget(s: State, s': State)
    requires BudgetOk(s) && s'.past.last == s.past.last && Within(s'.entries, s.entries)
    ensures BudgetOk(s')
  {
    SmallerCache(s'.entries - {s'.past.last}, s.entries - {s.past.last});
  }

  lemma StoreKeepsBudget(s: State, t: nat, token: nat, entry: Entry, after: map<nat, Entry>)
    requires !OverBudget(after)
    ensures BudgetOk(Stored(s, t, token, entry, after))
  {
    SmallerCache(after[token := entry] - {token}, after);
  }

  lemma StepKeepsBudget(s: State, l: Label)
    requires BudgetOk(s)
    ensures BudgetOk(Step(s, l))
  {
    if l.Store? {
      var pc := PcOf(s, l.t);
      if pc.Storing? && s.holder.None? && Evicted(s.entries, l.now, l.after) {
        StoreKeepsBudget(s, l.t, pc.token, Entry(pc.data, l.now), l.after);
      }
    } else {
      OtherStepShrinks(s, l);
      ShrinkKeepsBudget(s, Step(s, l));
    }
  }

  lemma {:induction false} RunKeepsBudget(s: State, labels: seq<Label>)
    requires BudgetOk(s)
    ensures BudgetOk(Run(s, labels))
    decreases |labels|
  {
    if labels != [] {
      StepKeepsBudget(s, labels[0]);
      RunKeepsBudget(Step(s, labels[0]), labels[1..]);
    }
  }

  /** At every point of every run the cache is within its limits but for the response cached last:
      at most one entry above, and its bytes.  */
  lemma WithinBudgetButLast(labels: seq<Label>)
    ensures var s := Run(INIT, labels);
            && !OverBudget(s.entries - {s.past.last}) && |s.entries| <= MAX_ENTRIES + 1
            && TotalBytes(s.entries) <= MAX_BYTES + if s.past.last in s.entries then |s.entries[s.past.last].data| else 0
  {
    var none: map<nat, Entry> := map[];
    assert TotalBytes(none) == 0 && INIT.entries - {INIT.past.last} == none;
    RunKeepsBudget(INIT, labels);
    OneMore(Run(INIT, labels).entries, Run(INIT, labels).past.last);
  }

  lemma OneMore(cache: map<nat, Entry>, last: nat)
    requires !OverBudget(cache - {last})
    ensures |cache| <= MAX_ENTRIES + 1
    ensures TotalBytes(cache) <= MAX_BYTES + if last in cache then |cache[last].data| else 0
  {
    var rest := cache - {last};
    if last in cache {
      TotalWithout(cache, last);
      assert cache.Keys == rest.Keys + {last};
      assert |cache| == |cache.Keys| && |rest| == |rest.Keys|;
    } else {
      assert rest == cache;
    }
  }

  /** A cache of this many empty responses, all of age zero, with the caller idle. */
  ghost predicate Filled(s: State, n: nat) {
    && |s.entries| == n && PcOf(s, 0).Idle? && s.holder.None?
    && forall k | k in s.entries :: s.entries[k] == Entry([], 0)
  }

  lemma {:induction false} EmptyTotal(cache: map<nat, Entry>)
    requires forall k | k in cache :: cache[k].data == []
    ensures TotalBytes(cache) == 0
    decreases |cache|
  {
    if cache != map[] {
      var k :| k in cache;
      TotalWithout(cache, k);
      EmptyTotal(cache - {k});
    }
  }

  lemma NothingToEvict(cache: map<nat, Entry>)
    requires |cache| <= MAX_ENTRIES && forall k | k in cache :: cache[k] == Entry([], 0)
    ensures Evicted(cache, 0, cache)
  {
    EmptyTotal(cache);
  }

  /** The bound is tight: some run fills the cache to any size up to it. */
  lemma {:induction false} CacheCanPassLimit(n: nat) returns (labels: seq<Label>)
    requires n <= MAX_ENTRIES + 1
    ensures Filled(Run(INIT, labels), n)
    decreases n
  {
    if n == 0 {
      labels := [];
    } else {
      labels := CacheCanPassLimit(n - 1);
      var s := Run(INIT, labels);
      RunKeepsInv(INIT, labels);
      NothingToEvict(s.entries);
      assert EntryOk(s, s.counter) && s.counter !in s.past.place;
      var first, second := Overflow(0, []), Store(0, 0, s.entries);
      var s' := Step(Step(s, first), second);
      assert s'.entries == s.entries[s.counter := Entry([], 0)];
      TwoSteps(s, first, second);
      RunSplits(INIT, labels, [first, second]);
      labels := labels + [first, second];
    }
  }
}
