/** Runs of the discovery operations on any number of threads.  A label is one lock section,
    or one action on a session outside the lock.  */
module DiscoveryRuns {
  import opened Common
  import opened DiscoveryRegistry

  datatype Pc =
    | Idle
    | Starting(kind: Kind, endpoint: nat, session: nat)     // the session exists, the lock comes next
    | Inserting(kind: Kind, session: nat, handle: nat)      // generic start: handle taken, not yet in the table
    | Dropping(session: nat)                                // refused or removed, about to be closed
    | Retiring(sessions: set<nat>)                          // drained, still to be closed
    | LookedUp(kind: Kind, handle: nat, session: nat)       // a browse close or poll holds a clone
    | Removing(kind: Kind, handle: nat, session: nat)       // ... and will remove the entry

  /** Where an issued handle is. */
  datatype Use = Held(thread: nat) | In(kind: Kind) | Spent

  /** Where a session is. */
  datatype Place = InHand(thread: nat) | Listed(kind: Kind, handle: nat) | Gone

  /** History: endpoints ever activated, handles in the order they were issued, where handles
      and sessions are, the endpoint each peer session belongs to, the sessions that were closed,
      and those that ended by themselves.  */
  datatype History = History(known: set<nat>, issued: seq<nat>, use: map<nat, Use>, place: map<nat, Place>,
                             owner: map<nat, nat>, closed: set<nat>, ended: set<nat>)

  datatype State = State(tables: Tables, counter: nat, born: nat, threads: map<nat, Pc>, past: History)

  const INIT: State :=
    State(Tables({}, map[], map[], map[], map[]), 1, 0, map[], History({}, [], map[], map[], map[], {}, {}))

  datatype Label =
    | Activate(e: nat)
    | Begin(t: nat, kind: Kind, e: nat) | Publish(t: nat) | AllocGeneric(t: nat) | InsertGeneric(t: nat)
    | Drop(t: nat)
    | Retire(t: nat, e: nat) | CloseRetired(t: nat, session: nat)
    | Lookup(t: nat, kind: Kind, handle: nat) | CloseLooked(t: nat) | SeesNone(t: nat) | SeesEvent(t: nat)
    | RemoveSame(t: nat)
    | CloseAd(t: nat, kind: Kind, handle: nat)
    | Ends(session: nat)

  function PcOf(s: State, t: nat): Pc {
    if t in s.threads then s.threads[t] else Idle
  }

  function Moves(s: State, t: nat, pc: Pc): State {
    s.(threads := s.threads[t := pc])
  }

  function Goes(s: State, x: nat, p: Place): State {
    s.(past := s.past.(place := s.past.place[x := p]))
  }

  function Marks(s: State, h: nat, u: Use): State {
    s.(past := s.past.(use := s.past.use[h := u]))
  }

  function Closes(s: State, x: nat): State {
    s.(past := s.past.(closed := s.past.closed + {x}))
  }

  /** Closed, or ended by itself. */
  predicate IsOver(s: State, x: nat) {
    x in s.past.closed || x in s.past.ended
  }

  /** Hands out the next handle. */
  function Issues(s: State, u: Use): State {
    Marks(s, s.counter, u).(counter := s.counter + 1,
                            past := Marks(s, s.counter, u).past.(issued := s.past.issued + [s.counter]))
  }

  function Lists(s: State, kind: Kind, h: nat, owned: Owned): State {
    Goes(s, owned.session, Listed(kind, h)).(tables := With(s.tables, kind, Get(s.tables, kind)[h := owned]))
  }

  /** Takes an entry out of its table. */
  function Unlists(s: State, kind: Kind, h: nat, x: nat, p: Place): State {
    Marks(Goes(s, x, p), h, Spent).(tables := With(s.tables, kind, Get(s.tables, kind) - {h}))
  }

  function StartStep(s: State, l: Label): State
    requires l.Begin? || l.Publish? || l.AllocGeneric? || l.InsertGeneric?
  {
    var pc := PcOf(s, l.t);
    match l
    case Begin(t, kind, e) =>
      if !pc.Idle? then s
      else
        var s' := Moves(Goes(s, s.born, InHand(t)), t, Starting(kind, e, s.born)).(born := s.born + 1);
        if IsPeer(kind) then s'.(past := s'.past.(owner := s.past.owner[s.born := e])) else s'
    case Publish(t) =>
      if !pc.Starting? || !IsPeer(pc.kind) then s
      else if pc.endpoint !in s.tables.active || Alloc(s.counter).None? then Moves(s, t, Dropping(pc.session))
      else Moves(Lists(Issues(s, In(pc.kind)), pc.kind, s.counter, Owned(Some(pc.endpoint), pc.session)), t, Idle)
    case AllocGeneric(t) =>
      if !pc.Starting? || IsPeer(pc.kind) then s
      else if Alloc(s.counter).None? then Moves(s, t, Dropping(pc.session))
      else Moves(Issues(s, Held(t)), t, Inserting(pc.kind, pc.session, s.counter))
    case InsertGeneric(t) =>
      if !pc.Inserting? then s
      else Moves(Lists(Marks(s, pc.handle, In(pc.kind)), pc.kind, pc.handle, Owned(None, pc.session)), t, Idle)
  }

  /** The drained sessions now belong to the call that drained them. */
  function Drained(place: map<nat, Place>, sessions: set<nat>, t: nat): map<nat, Place> {
    map x | x in place :: if x in sessions then InHand(t) else place[x]
  }

  function SpentBy(use: map<nat, Use>, before: Tables, after: Tables): map<nat, Use> {
    map h | h in use ::
      if (h in before.peerBrowses && h !in after.peerBrowses) || (h in before.peerAds && h !in after.peerAds)
      then Spent else use[h]
  }

  function RetireStep(s: State, l: Label): State
    requires l.Retire? || l.CloseRetired? || l.Drop?
  {
    var pc := PcOf(s, l.t);
    match l
    case Retire(t, e) =>
      if !pc.Idle? then s
      else
        var sessions := SessionsOf(s.tables.peerBrowses, e) + SessionsOf(s.tables.peerAds, e);
        var after := Retired(s.tables, e);
        Moves(s, t, Retiring(sessions)).(
          tables := after,
          past := s.past.(place := Drained(s.past.place, sessions, t), use := SpentBy(s.past.use, s.tables, after),
                          known := s.past.known + {e}))
    case CloseRetired(t, x) =>
      if !pc.Retiring? then s
      else if pc.sessions == {} then Moves(s, t, Idle)
      else if x in pc.sessions then Moves(Closes(Goes(s, x, Gone), x), t, Retiring(pc.sessions - {x}))
      else s
    case Drop(t) => if pc.Dropping? then Moves(Closes(Goes(s, pc.session, Gone), pc.session), t, Idle) else s
  }

  function CloseStep(s: State, l: Label): State
    requires l.Lookup? || l.CloseLooked? || l.SeesNone? || l.SeesEvent? || l.RemoveSame? || l.CloseAd?
  {
    var pc := PcOf(s, l.t);
    match l
    case Lookup(t, kind, h) =>
      if pc.Idle? && (kind.PeerBrowse? || kind.GenericBrowse?) && h in Get(s.tables, kind)
      then Moves(s, t, LookedUp(kind, h, Get(s.tables, kind)[h].session)) else s
    case CloseLooked(t) =>
      if pc.LookedUp? then Moves(Closes(s, pc.session), t, Removing(pc.kind, pc.handle, pc.session)) else s
    case SeesNone(t) =>
      if pc.LookedUp? && IsOver(s, pc.session) then Moves(s, t, Removing(pc.kind, pc.handle, pc.session)) else s
    case SeesEvent(t) => if pc.LookedUp? then Moves(s, t, Idle) else s
    case RemoveSame(t) =>
      if !pc.Removing? then s
      else if pc.handle in Get(s.tables, pc.kind) && Get(s.tables, pc.kind)[pc.handle].session == pc.session
      then Moves(Unlists(s, pc.kind, pc.handle, pc.session, Gone), t, Idle)
      else Moves(s, t, Idle)
    case CloseAd(t, kind, h) =>
      if pc.Idle? && (kind.PeerAd? || kind.GenericAd?) && h in Get(s.tables, kind) then
        var x := Get(s.tables, kind)[h].session;
        Moves(Unlists(s, kind, h, x, InHand(t)), t, Dropping(x))
      else s
  }

  function Step(s: State, l: Label): State {
    if l.Activate? then
      // Endpoint handles carry a generation and are not reused.
      if l.e in s.past.known then s
      else s.(tables := s.tables.(active := s.tables.active + {l.e}), past := s.past.(known := s.past.known + {l.e}))
    else if l.Ends? then s.(past := s.past.(ended := s.past.ended + {l.session}))
    else if l.Begin? || l.Publish? || l.AllocGeneric? || l.InsertGeneric? then StartStep(s, l)
    else if l.Retire? || l.CloseRetired? || l.Drop? then RetireStep(s, l)
    else CloseStep(s, l)
  }

  function Run(s: State, labels: seq<Label>): State
    decreases |labels|
  {
    if labels == [] then s else Run(Step(s, labels[0]), labels[1..])
  }

  // ── Invariant ───────────────────────────────────────────────────────────────

  ghost predicate UseIs(s: State, h: nat, u: Use) {
    h in s.past.use && s.past.use[h] == u
  }

  ghost predicate PlaceIs(s: State, x: nat, p: Place) {
    x in s.past.place && s.past.place[x] == p
  }

  ghost predicate Holds(s: State, kind: Kind, h: nat, x: nat) {
    h in Get(s.tables, kind) && Get(s.tables, kind)[h].session == x
  }

  ghost predicate CountersOk(s: State) {
    && 1 <= s.counter <= U32_MAX && |s.past.issued| == s.counter - 1
    && (forall i | 0 <= i < |s.past.issued| :: s.past.issued[i] == i + 1)
    && (forall h: nat :: h in s.past.use <==> 1 <= h < s.counter)
    && (forall x: nat :: x in s.past.place <==> x < s.born)
    && (forall x | x in s.past.owner :: x < s.born)
    && s.tables.active <= s.past.known
  }

  /** Per table slot: the history agrees, and a peer session's endpoint is active. */
  ghost predicate SlotOk(s: State, kind: Kind, h: nat) {
    && (h in Get(s.tables, kind) <==> UseIs(s, h, In(kind)))
    && (h in Get(s.tables, kind) ==>
          var owned := Get(s.tables, kind)[h];
          && PlaceIs(s, owned.session, Listed(kind, h))
          && (owned.session in s.past.owner <==> IsPeer(kind))
          && (IsPeer(kind) ==> && owned.endpoint.Some? && owned.endpoint.value in s.tables.active
                               && s.past.owner[owned.session] == owned.endpoint.value))
  }

  predicate HasInHand(pc: Pc, x: nat) {
    match pc
    case Starting(_, _, y) => x == y
    case Inserting(_, y, _) => x == y
    case Dropping(y) => x == y
    case Retiring(sessions) => x in sessions
    case _ => false
  }

  ghost predicate SessionOk(s: State, x: nat) {
    x in s.past.place ==>
      match s.past.place[x]
      case InHand(t) => HasInHand(PcOf(s, t), x)
      case Listed(kind, h) => Holds(s, kind, h, x)
      case Gone => IsOver(s, x)
  }

  ghost predicate ThreadOk(s: State, t: nat) {
    var pc := PcOf(s, t);
    && (forall x | HasInHand(pc, x) :: PlaceIs(s, x, InHand(t)))
    && (pc.Starting? ==> (pc.session in s.past.owner <==> IsPeer(pc.kind)))
    && (pc.Starting? && IsPeer(pc.kind) ==> s.past.owner[pc.session] == pc.endpoint)
    && (pc.Inserting? ==> !IsPeer(pc.kind) && pc.session !in s.past.owner && UseIs(s, pc.handle, Held(t)))
    && (pc.LookedUp? || pc.Removing? ==>
          UseIs(s, pc.handle, Spent) || (UseIs(s, pc.handle, In(pc.kind)) && Holds(s, pc.kind, pc.handle, pc.session)))
    && (pc.Removing? ==> IsOver(s, pc.session))
  }

  ghost predicate Inv(s: State) {
    && CountersOk(s)
    && (forall kind, h :: SlotOk(s, kind, h))
    && (forall x :: SessionOk(s, x))
    && (forall t :: ThreadOk(s, t))
  }

  // ── Every step keeps it ─────────────────────────────────────────────────────

  /** A call goes on with the same sessions in hand. */
  lemma MoveKeepsInv(s: State, t: nat, pc: Pc)
    requires Inv(s) && (forall x :: HasInHand(pc, x) <==> HasInHand(PcOf(s, t), x))
    requires !PcOf(s, t).Inserting? && ThreadOk(Moves(s, t, pc), t)
    ensures Inv(Moves(s, t, pc))
  {
    var s' := Moves(s, t, pc);
    forall kind, h ensures SlotOk(s', kind, h) { assert SlotOk(s, kind, h); }
    forall y ensures SessionOk(s', y) { assert SessionOk(s, y); }
    forall u ensures ThreadOk(s', u) { assert ThreadOk(s, u); }
  }

  lemma CloseKeepsInv(s: State, x: nat)
    requires Inv(s)
    ensures Inv(Closes(s, x))
  {
    var s' := Closes(s, x);
    forall kind, h ensures SlotOk(s', kind, h) { assert SlotOk(s, kind, h); }
    forall y ensures SessionOk(s', y) { assert SessionOk(s, y); }
    forall u ensures ThreadOk(s', u) { assert ThreadOk(s, u); }
  }

  lemma EndKeepsInv(s: State, x: nat)
    requires Inv(s)
    ensures Inv(Step(s, Ends(x)))
  {
    var s' := Step(s, Ends(x));
    forall kind, h ensures SlotOk(s', kind, h) { assert SlotOk(s, kind, h); }
    forall y ensures SessionOk(s', y) { assert SessionOk(s, y); }
    forall u ensures ThreadOk(s', u) { assert ThreadOk(s, u); }
  }

  lemma ActivateKeepsInv(s: State, e: nat)
    requires Inv(s)
    ensures Inv(Step(s, Activate(e)))
  {
    var s' := Step(s, Activate(e));
    assert forall kind :: Get(s'.tables, kind) == Get(s.tables, kind);
    forall kind, h ensures SlotOk(s', kind, h) { assert SlotOk(s, kind, h); }
    forall y ensures SessionOk(s', y) { assert SessionOk(s, y); }
    forall u ensures ThreadOk(s', u) { assert ThreadOk(s, u); }
  }

  /** A session not yet born is nowhere. */
  lemma Unborn(s: State, u: nat)
    requires Inv(s)
    ensures !HasInHand(PcOf(s, u), s.born)
  {
    assert ThreadOk(s, u);
  }

  lemma BeginKeepsInv(s: State, t: nat, kind: Kind, e: nat)
    requires Inv(s) && PcOf(s, t).Idle?
    ensures Inv(StartStep(s, Begin(t, kind, e)))
  {
    var s' := StartStep(s, Begin(t, kind, e));
    assert s'.tables == s.tables;
    forall k, h ensures SlotOk(s', k, h) { assert SlotOk(s, k, h); }
    forall y ensures SessionOk(s', y) { assert SessionOk(s, y); }
    forall u ensures ThreadOk(s', u) { assert ThreadOk(s, u); Unborn(s, u); }
  }

  /** The next handle is in no table. */
  lemma Unissued(s: State, kind: Kind)
    requires Inv(s)
    ensures s.counter !in Get(s.tables, kind)
  {
    assert SlotOk(s, kind, s.counter);
  }

  predicate CanPublish(s: State, t: nat) {
    var pc := PcOf(s, t);
    pc.Starting? && IsPeer(pc.kind) && pc.endpoint in s.tables.active && Alloc(s.counter).Some?
  }

  lemma PublishedSlot(s: State, t: nat, kind: Kind, h: nat)
    requires Inv(s) && CanPublish(s, t)
    ensures SlotOk(StartStep(s, Publish(t)), kind, h)
  {
    assert SlotOk(s, kind, h) && ThreadOk(s, t) && HasInHand(PcOf(s, t), PcOf(s, t).session);
  }

  lemma PublishedThread(s: State, t: nat, u: nat)
    requires Inv(s) && CanPublish(s, t)
    ensures ThreadOk(StartStep(s, Publish(t)), u)
  {
    assert ThreadOk(s, u) && ThreadOk(s, t) && HasInHand(PcOf(s, t), PcOf(s, t).session);
  }

  lemma PublishKeepsInv(s: State, t: nat)
    requires Inv(s) && CanPublish(s, t)
    ensures Inv(StartStep(s, Publish(t)))
  {
    var s', pc := StartStep(s, Publish(t)), PcOf(s, t);
    assert ThreadOk(s, t) && HasInHand(pc, pc.session);
    Unissued(s, pc.kind);
    forall kind, h ensures SlotOk(s', kind, h) { PublishedSlot(s, t, kind, h); }
    forall y ensures SessionOk(s', y) { assert SessionOk(s, y); }
    forall u ensures ThreadOk(s', u) { PublishedThread(s, t, u); }
  }

  lemma AllocKeepsInv(s: State, t: nat)
    requires Inv(s) && PcOf(s, t).Starting? && !IsPeer(PcOf(s, t).kind) && Alloc(s.counter).Some?
    ensures Inv(StartStep(s, AllocGeneric(t)))
  {
    var s', pc := StartStep(s, AllocGeneric(t)), PcOf(s, t);
    assert ThreadOk(s, t) && HasInHand(pc, pc.session) && s'.tables == s.tables;
    forall kind, h ensures SlotOk(s', kind, h) { assert SlotOk(s, kind, h); }
    forall y ensures SessionOk(s', y) { assert SessionOk(s, y); }
    forall u ensures ThreadOk(s', u) { assert ThreadOk(s, u); }
  }

  lemma InsertKeepsInv(s: State, t: nat)
    requires Inv(s) && PcOf(s, t).Inserting?
    ensures Inv(StartStep(s, InsertGeneric(t)))
  {
    var s', pc := StartStep(s, InsertGeneric(t)), PcOf(s, t);
    assert ThreadOk(s, t) && HasInHand(pc, pc.session) && SlotOk(s, pc.kind, pc.handle);
    forall kind, h ensures SlotOk(s', kind, h) { assert SlotOk(s, kind, h); }
    forall y ensures SessionOk(s', y) { assert SessionOk(s, y); }
    forall u ensures ThreadOk(s', u) { assert ThreadOk(s, u); }
  }

  /** A call closes one of the sessions it has in hand. */
  lemma DropKeepsInv(s: State, t: nat, x: nat, pc: Pc)
    requires Inv(s) && HasInHand(PcOf(s, t), x) && (PcOf(s, t).Dropping? || PcOf(s, t).Retiring?)
    requires (forall y :: HasInHand(pc, y) <==> HasInHand(PcOf(s, t), y) && y != x) && (pc.Idle? || pc.Retiring?)
    ensures Inv(Moves(Closes(Goes(s, x, Gone), x), t, pc))
  {
    var s' := Moves(Closes(Goes(s, x, Gone), x), t, pc);
    assert ThreadOk(s, t);
    forall kind, h ensures SlotOk(s', kind, h) { assert SlotOk(s, kind, h); }
    forall y ensures SessionOk(s', y) { assert SessionOk(s, y); }
    forall u ensures ThreadOk(s', u) { assert ThreadOk(s, u); }
  }

  /** What is left when the entry of `x` is out of its table, and `x` in the hands of `t` or gone. */
  function Unlisted(s: State, t: nat, kind: Kind, h: nat, x: nat, inHand: bool): State {
    Moves(Unlists(s, kind, h, x, if inHand then InHand(t) else Gone), t, if inHand then Dropping(x) else Idle)
  }

  lemma UnlistedSlot(s: State, t: nat, kind: Kind, h: nat, x: nat, inHand: bool, k: Kind, i: nat)
    requires Inv(s) && Holds(s, kind, h, x)
    ensures SlotOk(Unlisted(s, t, kind, h, x, inHand), k, i)
  {
    assert SlotOk(s, kind, h) && SlotOk(s, k, i);
  }

  lemma UnlistedThread(s: State, t: nat, kind: Kind, h: nat, x: nat, inHand: bool, u: nat)
    requires Inv(s) && Holds(s, kind, h, x)
    ensures ThreadOk(Unlisted(s, t, kind, h, x, inHand), u)
  {
    assert SlotOk(s, kind, h) && ThreadOk(s, u);
  }

  lemma UnlistKeepsInv(s: State, t: nat, kind: Kind, h: nat, x: nat, inHand: bool)
    requires Inv(s) && Holds(s, kind, h, x) && (forall y :: !HasInHand(PcOf(s, t), y))
    requires !inHand ==> IsOver(s, x)
    ensures Inv(Unlisted(s, t, kind, h, x, inHand))
  {
    var s' := Unlisted(s, t, kind, h, x, inHand);
    assert SlotOk(s, kind, h);
    forall k, i ensures SlotOk(s', k, i) { UnlistedSlot(s, t, kind, h, x, inHand, k, i); }
    forall y ensures SessionOk(s', y) { assert SessionOk(s, y); }
    forall u ensures ThreadOk(s', u) { UnlistedThread(s, t, kind, h, x, inHand, u); }
  }

  /** The sessions that retiring `e` takes out of the tables. */
  function Taken(s: State, e: nat): set<nat> {
    SessionsOf(s.tables.peerBrowses, e) + SessionsOf(s.tables.peerAds, e)
  }

  /** A session in a slot is taken exactly if the slot belongs to `e`. */
  lemma TakenIff(s: State, e: nat, kind: Kind, h: nat)
    requires Inv(s) && h in Get(s.tables, kind)
    ensures Get(s.tables, kind)[h].session in Taken(s, e) <==> IsPeer(kind) && Get(s.tables, kind)[h].endpoint == Some(e)
  {
    var x := Get(s.tables, kind)[h].session;
    assert SlotOk(s, kind, h);
    if x in SessionsOf(s.tables.peerBrowses, e) {
      var i :| i in s.tables.peerBrowses && s.tables.peerBrowses[i].endpoint == Some(e) && s.tables.peerBrowses[i].session == x;
      assert SlotOk(s, PeerBrowse, i);
    }
    if x in SessionsOf(s.tables.peerAds, e) {
      var i :| i in s.tables.peerAds && s.tables.peerAds[i].endpoint == Some(e) && s.tables.peerAds[i].session == x;
      assert SlotOk(s, PeerAd, i);
    }
  }

  /** Every session taken was in a slot. */
  lemma TakenIsListed(s: State, e: nat, x: nat)
    requires Inv(s) && x in Taken(s, e)
    ensures x in s.past.place && s.past.place[x].Listed?
    ensures x in s.past.owner && s.past.owner[x] == e
  {
    if x in SessionsOf(s.tables.peerBrowses, e) {
      var i :| i in s.tables.peerBrowses && s.tables.peerBrowses[i].endpoint == Some(e) && s.tables.peerBrowses[i].session == x;
      assert SlotOk(s, PeerBrowse, i);
    } else {
      var i :| i in s.tables.peerAds && s.tables.peerAds[i].endpoint == Some(e) && s.tables.peerAds[i].session == x;
      assert SlotOk(s, PeerAd, i);
    }
  }

  lemma RetiredSlot(s: State, t: nat, e: nat, kind: Kind, h: nat)
    requires Inv(s) && PcOf(s, t).Idle?
    ensures SlotOk(RetireStep(s, Retire(t, e)), kind, h)
  {
    assert SlotOk(s, PeerBrowse, h) && SlotOk(s, PeerAd, h) && SlotOk(s, kind, h);
    if h in Get(s.tables, kind) { TakenIff(s, e, kind, h); }
  }

  lemma RetiredSession(s: State, t: nat, e: nat, x: nat)
    requires Inv(s) && PcOf(s, t).Idle?
    ensures SessionOk(RetireStep(s, Retire(t, e)), x)
  {
    assert SessionOk(s, x);
    if x in s.past.place && s.past.place[x].Listed? {
      TakenIff(s, e, s.past.place[x].kind, s.past.place[x].handle);
    }
  }

  lemma RetiredThread(s: State, t: nat, e: nat, u: nat)
    requires Inv(s) && PcOf(s, t).Idle?
    ensures ThreadOk(RetireStep(s, Retire(t, e)), u)
  {
    var s', pc := RetireStep(s, Retire(t, e)), PcOf(s, u);
    assert ThreadOk(s, u);
    forall x | HasInHand(PcOf(s', u), x)
      ensures PlaceIs(s', x, InHand(u))
    {
      if x in Taken(s, e) { TakenIsListed(s, e, x); }
    }
    if pc.LookedUp? || pc.Removing? {
      assert SlotOk(s, PeerBrowse, pc.handle) && SlotOk(s, PeerAd, pc.handle) && SlotOk(s, pc.kind, pc.handle);
    }
    if pc.Inserting? {
      assert SlotOk(s, PeerBrowse, pc.handle) && SlotOk(s, PeerAd, pc.handle);
    }
  }

  lemma RetireKeepsInv(s: State, t: nat, e: nat)
    requires Inv(s) && PcOf(s, t).Idle?
    ensures Inv(RetireStep(s, Retire(t, e)))
  {
    var s' := RetireStep(s, Retire(t, e));
    forall kind, h ensures SlotOk(s', kind, h) { RetiredSlot(s, t, e, kind, h); }
    forall x ensures SessionOk(s', x) { RetiredSession(s, t, e, x); }
    forall u ensures ThreadOk(s', u) { RetiredThread(s, t, e, u); }
  }

  lemma StartKeepsInv(s: State, l: Label)
    requires Inv(s) && (l.Begin? || l.Publish? || l.AllocGeneric? || l.InsertGeneric?)
    ensures Inv(StartStep(s, l))
  {
    var pc := PcOf(s, l.t);
    assert ThreadOk(s, l.t);
    if l.Begin? {
      if pc.Idle? { BeginKeepsInv(s, l.t, l.kind, l.e); }
    } else if l.InsertGeneric? {
      if pc.Inserting? { InsertKeepsInv(s, l.t); }
    } else if pc.Starting? && IsPeer(pc.kind) == l.Publish? {
      if Alloc(s.counter).None? || (l.Publish? && pc.endpoint !in s.tables.active) {
        assert HasInHand(pc, pc.session);
        MoveKeepsInv(s, l.t, Dropping(pc.session));
      } else if l.Publish? {
        PublishKeepsInv(s, l.t);
      } else {
        AllocKeepsInv(s, l.t);
      }
    }
  }

  lemma RetireStepKeepsInv(s: State, l: Label)
    requires Inv(s) && (l.Retire? || l.CloseRetired? || l.Drop?)
    ensures Inv(RetireStep(s, l))
  {
    var pc := PcOf(s, l.t);
    if l.Retire? {
      if pc.Idle? { RetireKeepsInv(s, l.t, l.e); }
    } else if l.Drop? {
      if pc.Dropping? { DropKeepsInv(s, l.t, pc.session, Idle); }
    } else if pc.Retiring? {
      if pc.sessions == {} {
        MoveKeepsInv(s, l.t, Idle);
      } else if l.session in pc.sessions {
        DropKeepsInv(s, l.t, l.session, Retiring(pc.sessions - {l.session}));
      }
    }
  }

  lemma CloseStepKeepsInv(s: State, l: Label)
    requires Inv(s)
    requires l.Lookup? || l.CloseLooked? || l.SeesNone? || l.SeesEvent? || l.RemoveSame? || l.CloseAd?
    ensures Inv(CloseStep(s, l))
  {
    var pc := PcOf(s, l.t);
    assert ThreadOk(s, l.t);
    if l.Lookup? {
      if pc.Idle? && (l.kind.PeerBrowse? || l.kind.GenericBrowse?) && l.handle in Get(s.tables, l.kind) {
        assert SlotOk(s, l.kind, l.handle);
        MoveKeepsInv(s, l.t, LookedUp(l.kind, l.handle, Get(s.tables, l.kind)[l.handle].session));
      }
    } else if l.CloseLooked? {
      if pc.LookedUp? {
        CloseKeepsInv(s, pc.session);
        assert ThreadOk(Closes(s, pc.session), l.t);
        MoveKeepsInv(Closes(s, pc.session), l.t, Removing(pc.kind, pc.handle, pc.session));
      }
    } else if l.SeesNone? {
      if pc.LookedUp? && IsOver(s, pc.session) {
        MoveKeepsInv(s, l.t, Removing(pc.kind, pc.handle, pc.session));
      }
    } else if l.SeesEvent? {
      if pc.LookedUp? { MoveKeepsInv(s, l.t, Idle); }
    } else if l.RemoveSame? {
      if pc.Removing? {
        if Holds(s, pc.kind, pc.handle, pc.session) {
          UnlistKeepsInv(s, l.t, pc.kind, pc.handle, pc.session, false);
        } else {
          MoveKeepsInv(s, l.t, Idle);
        }
      }
    } else if pc.Idle? && (l.kind.PeerAd? || l.kind.GenericAd?) && l.handle in Get(s.tables, l.kind) {
      UnlistKeepsInv(s, l.t, l.kind, l.handle, Get(s.tables, l.kind)[l.handle].session, true);
    }
  }

  lemma StepKeepsInv(s: State, l: Label)
    requires Inv(s)
    ensures Inv(Step(s, l))
  {
    if l.Activate? {
      ActivateKeepsInv(s, l.e);
    } else if l.Ends? {
      EndKeepsInv(s, l.session);
    } else if l.Begin? || l.Publish? || l.AllocGeneric? || l.InsertGeneric? {
      StartKeepsInv(s, l);
    } else if l.Retire? || l.CloseRetired? || l.Drop? {
      RetireStepKeepsInv(s, l);
    } else {
      CloseStepKeepsInv(s, l);
    }
  }

  lemma {:induction false} RunKeepsInv(s: State, labels: seq<Label>)
    requires Inv(s)
    ensures Inv(Run(s, labels))
    decreases |labels|
  {
    if labels != [] {
      StepKeepsInv(s, labels[0]);
      RunKeepsInv(Step(s, labels[0]), labels[1..]);
    }
  }

  lemma InitInv()
    ensures Inv(INIT)
  {
  }

  // ── Theorems over whole runs ────────────────────────────────────────────────

  /** No handle is ever issued twice, and none is the last 32-bit value. */
  lemma HandlesAreIssuedOnce(labels: seq<Label>)
    ensures NoDuplicates(Run(INIT, labels).past.issued)
    ensures forall h | h in Run(INIT, labels).past.issued :: 1 <= h < U32_MAX
  {
    InitInv();
    RunKeepsInv(INIT, labels);
  }

  /** The four tables never share a handle. */
  lemma TablesAreDisjoint(labels: seq<Label>, a: Kind, b: Kind)
    requires a != b
    ensures Get(Run(INIT, labels).tables, a).Keys !! Get(Run(INIT, labels).tables, b).Keys
  {
    InitInv();
    RunKeepsInv(INIT, labels);
    var s := Run(INIT, labels);
    forall h | h in Get(s.tables, a).Keys
      ensures h !in Get(s.tables, b).Keys
    {
      assert SlotOk(s, a, h) && SlotOk(s, b, h);
    }
  }

  /** Every published peer session belongs to an active endpoint. */
  lemma PublishedIsActive(labels: seq<Label>, kind: Kind, h: nat)
    requires IsPeer(kind) && h in Get(Run(INIT, labels).tables, kind)
    ensures var s := Run(INIT, labels);
            var owned := Get(s.tables, kind)[h];
            owned.endpoint.Some? && owned.endpoint.value in s.tables.active
  {
    InitInv();
    RunKeepsInv(INIT, labels);
    assert SlotOk(Run(INIT, labels), kind, h);
  }

  /** The identity check before removing never finds another session under the handle. */
  lemma NeverAnotherSession(labels: seq<Label>, t: nat)
    requires PcOf(Run(INIT, labels), t).Removing?
    ensures var s := Run(INIT, labels);
            var pc := PcOf(s, t);
            pc.handle in Get(s.tables, pc.kind) ==> Get(s.tables, pc.kind)[pc.handle].session == pc.session
  {
    InitInv();
    RunKeepsInv(INIT, labels);
    var s := Run(INIT, labels);
    assert ThreadOk(s, t) && SlotOk(s, PcOf(s, t).kind, PcOf(s, t).handle);
  }

  lemma {:induction false} RunSplits(s: State, a: seq<Label>, b: seq<Label>)
    ensures Run(s, a + b) == Run(Run(s, a), b)
    decreases |a|
  {
    if a == [] {
      assert a + b == b;
    } else {
      assert (a + b)[0] == a[0] && (a + b)[1..] == a[1..] + b;
      RunSplits(Step(s, a[0]), a[1..], b);
    }
  }

  predicate IsRetired(s: State, e: nat) {
    e in s.past.known && e !in s.tables.active
  }

  lemma {:induction false} StaysRetired(s: State, labels: seq<Label>, e: nat)
    requires IsRetired(s, e)
    ensures IsRetired(Run(s, labels), e)
    decreases |labels|
  {
    if labels != [] { StaysRetired(Step(s, labels[0]), labels[1..], e); }
  }

  /** Where a retired endpoint's session can still be: closed, or in the hands of a call that
      has not come to close it yet.  It is in no table.  */
  lemma RetiredSessions(s: State, e: nat, x: nat)
    requires Inv(s) && IsRetired(s, e) && x in s.past.owner && s.past.owner[x] == e && x in s.past.place
    ensures IsOver(s, x) || (s.past.place[x].InHand? && HasInHand(PcOf(s, s.past.place[x].thread), x))
    ensures forall kind, h :: IsPeer(kind) ==> !Holds(s, kind, h, x)
  {
    assert SessionOk(s, x);
    forall kind, h | IsPeer(kind)
      ensures !Holds(s, kind, h, x)
    {
      assert SlotOk(s, kind, h);
    }
    if s.past.place[x].Listed? { ListedIsActive(s, x); }
  }

  lemma ListedIsActive(s: State, x: nat)
    requires Inv(s) && x in s.past.place && s.past.place[x].Listed? && x in s.past.owner
    ensures s.past.owner[x] in s.tables.active
  {
    assert SessionOk(s, x) && SlotOk(s, s.past.place[x].kind, s.past.place[x].handle);
  }

  /** After an endpoint is retired, whatever started before or starts later, none of its
      sessions is in a table ever again.  */
  lemma RetireIsFinal(before: seq<Label>, t: nat, e: nat, after: seq<Label>, kind: Kind, h: nat)
    requires PcOf(Run(INIT, before), t).Idle? && IsPeer(kind)
    ensures var s := Run(INIT, before + [Retire(t, e)] + after);
            h in Get(s.tables, kind) ==> Get(s.tables, kind)[h].endpoint != Some(e)
  {
    InitInv();
    var s0 := Run(INIT, before);
    RunSplits(INIT, before + [Retire(t, e)], after);
    RunSplits(INIT, before, [Retire(t, e)]);
    var s1 := Run(s0, [Retire(t, e)]);
    assert s1 == Step(s0, Retire(t, e)) by { assert [Retire(t, e)][1..] == []; }
    assert IsRetired(s1, e);
    StaysRetired(s1, after, e);
    RunKeepsInv(INIT, before + [Retire(t, e)] + after);
    assert SlotOk(Run(INIT, before + [Retire(t, e)] + after), kind, h);
  }

  /** Closed, or still to be closed by the retiring call of thread `t`. */
  predicate ClosedBy(s: State, t: nat, x: nat) {
    x in s.past.closed || (PcOf(s, t).Retiring? && x in PcOf(s, t).sessions)
  }

  lemma StepKeepsClosedBy(s: State, l: Label, t: nat, x: nat)
    requires ClosedBy(s, t, x)
    ensures ClosedBy(Step(s, l), t, x)
  {
  }

  lemma {:induction false} RetiringCloses(s: State, labels: seq<Label>, t: nat, x: nat)
    requires ClosedBy(s, t, x)
    ensures ClosedBy(Run(s, labels), t, x)
    decreases |labels|
  {
    if labels != [] {
      StepKeepsClosedBy(s, labels[0], t, x);
      RetiringCloses(Step(s, labels[0]), labels[1..], t, x);
    }
  }

  /** Once a retiring call has closed everything it drained, every session the endpoint had in
      a table has been closed; a session it did not find there is closed, or ended before it was
      removed, or is still in the hands of another call.  */
  lemma RetireClosesAll(before: seq<Label>, t: nat, e: nat, after: seq<Label>, x: nat)
    requires PcOf(Run(INIT, before), t).Idle?
    requires var s := Run(INIT, before + [Retire(t, e)] + after);
             x in s.past.owner && s.past.owner[x] == e && !PcOf(s, t).Retiring?
    ensures var s := Run(INIT, before + [Retire(t, e)] + after);
            && (x in Taken(Run(INIT, before), e) ==> x in s.past.closed)
            && (IsOver(s, x) || exists u :: HasInHand(PcOf(s, u), x))
  {
    InitInv();
    var s0 := Run(INIT, before);
    var s1 := Run(s0, [Retire(t, e)]);
    var s2 := Run(INIT, before + [Retire(t, e)] + after);
    RunSplits(INIT, before + [Retire(t, e)], after);
    RunSplits(INIT, before, [Retire(t, e)]);
    assert s1 == Step(s0, Retire(t, e)) by { assert [Retire(t, e)][1..] == []; }
    if x in Taken(s0, e) { RetiringCloses(s1, after, t, x); }
    StaysRetired(s1, after, e);
    RunKeepsInv(INIT, before + [Retire(t, e)] + after);
    RetiredSessions(s2, e, x);
  }

  /** A start that comes too late closes its session: its next two steps do, whatever the
      counter says.  */
  lemma LateStartCloses(s: State, t: nat)
    requires Inv(s) && PcOf(s, t).Starting? && IsPeer(PcOf(s, t).kind) && IsRetired(s, PcOf(s, t).endpoint)
    ensures var x := PcOf(s, t).session;
            var s' := Step(Step(s, Publish(t)), Drop(t));
            x in s'.past.closed && PlaceIs(s', x, Gone) && PcOf(s', t).Idle?
  {
  }

  /** In every reachable state a session of a retired endpoint is over, or at most two more steps
      of the call that has it in hand close it.  */
  lemma RetiredSessionCanClose(labels: seq<Label>, e: nat, x: nat) returns (more: seq<Label>)
    requires var s := Run(INIT, labels); IsRetired(s, e) && x in s.past.owner && s.past.owner[x] == e
    ensures |more| <= 2 && IsOver(Run(INIT, labels + more), x)
  {
    InitInv();
    RunKeepsInv(INIT, labels);
    var s := Run(INIT, labels);
    RetiredSessions(s, e, x);
    if IsOver(s, x) {
      more := [];
    } else {
      var t := s.past.place[x].thread;
      var pc := PcOf(s, t);
      assert ThreadOk(s, t);
      if pc.Starting? {
        LateStartCloses(s, t);
        more := [Publish(t), Drop(t)];
        assert more[1..] == [Drop(t)];
        assert Run(s, more) == Run(Step(s, Publish(t)), [Drop(t)]);
        OneStep(Step(s, Publish(t)), Drop(t));
      } else {
        var l := if pc.Dropping? then Drop(t) else CloseRetired(t, x);
        more := [l];
        OneStep(s, l);
      }
    }
    RunSplits(INIT, labels, more);
  }

  lemma OneStep(s: State, l: Label)
    ensures Run(s, [l]) == Step(s, l)
  {
    assert [l][1..] == [];
    assert Run(s, [l]) == Run(Step(s, l), []);
  }
}
