/** `run_peer_advertisement_refresh`: the loop that keeps a published peer record in step
    with the endpoint and with the host's interfaces.  */
module PeerRefresh {
  import opened Common
  import opened Sequences
  import opened NetAddr
  import opened PeerDirect
  import opened PeerConfig
  import opened PeerRecord

  /** How `update_advertisement` ends, raced against cancellation and endpoint close. */
  datatype UpdateOutcome = Updated | UpdateFailed | CancelledDuring | ClosedDuring

  /** One iteration: what the select yields, what the interface inventory returns, and how
      the update ends if one is made.  */
  datatype Turn =
    | Cancelled
    | EndpointClosed
    | WatcherEnded
    | Woken(changed: Option<NodeAddr>, inventory: Option<seq<Ip>>, outcome: UpdateOutcome)

  /** A config handed to the transport, with the inventory it was built from and every IP
      any inventory had listed by then.  */
  datatype Publication = Publication(config: ServiceConfig, live: seq<Ip>, seen: seq<Ip>)

  datatype Worker = Worker(
    node: NodeAddr,
    knownLocal: seq<Ip>,
    finished: Option<bool>,
    // History, read by no step.
    published: seq<Publication>,
    seen: seq<Ip>)

  datatype Fixed = Fixed(codec: Codec, instance: string, bound: seq<Socket>)

  function Start(node: NodeAddr, interfaces: seq<Ip>): Worker {
    Worker(node, interfaces, None, [], interfaces)
  }

  function Merge(known: seq<Ip>, ips: seq<Ip>): seq<Ip>
    decreases |ips|
  {
    if ips == [] then known else AddNew(Merge(known, ips[..|ips| - 1]), ips[|ips| - 1])
  }

  function AfterUpdate(outcome: UpdateOutcome): Option<bool> {
    match outcome
    case Updated => None
    case UpdateFailed => Some(true)
    case CancelledDuring => Some(false)
    case ClosedDuring => Some(true)
  }

  function Step(fixed: Fixed, w: Worker, turn: Turn): Worker {
    if w.finished.Some? then w
    else match turn
    case Cancelled => w.(finished := Some(false))
    case EndpointClosed => w.(finished := Some(true))
    case WatcherEnded => w.(finished := Some(true))
    case Woken(changed, inventory, outcome) =>
      var node := if changed.Some? then changed.value else w.node;
      if inventory.None? then w.(node := node)
      else
        var known := Merge(w.knownLocal, inventory.value);
        var w' := w.(node := node, knownLocal := known, seen := w.seen + inventory.value);
        var config := Config(fixed.codec, fixed.instance, Snapshot(fixed.bound, node, inventory.value, known));
        if config.None? then w'
        else w'.(published := w.published + [Publication(config.value, inventory.value, w'.seen)],
                 finished := AfterUpdate(outcome))
  }

  function Run(fixed: Fixed, w: Worker, turns: seq<Turn>): Worker
    decreases |turns|
  {
    if turns == [] then w else Step(fixed, Run(fixed, w, turns[..|turns| - 1]), turns[|turns| - 1])
  }

  /** The loop itself; `finish` is its return value when it ends within these turns. */
  method RunRefresh(fixed: Fixed, initial: NodeAddr, interfaces: seq<Ip>, turns: seq<Turn>)
    returns (finish: Option<bool>, published: seq<Publication>)
    ensures finish == Run(fixed, Start(initial, interfaces), turns).finished
    ensures published == Run(fixed, Start(initial, interfaces), turns).published
  {
    var node, knownLocal := initial, interfaces;
    var seen := interfaces; // history, recorded in each publication
    finish, published := None, [];
    assert turns[..0] == [];
    for i := 0 to |turns|
      invariant finish.None?
      invariant Worker(node, knownLocal, None, published, seen) == Run(fixed, Start(initial, interfaces), turns[..i])
    {
      assert turns[..i + 1][..i] == turns[..i];
      match turns[i] {
        case Cancelled => finish := Some(false);
        case EndpointClosed => finish := Some(true);
        case WatcherEnded => finish := Some(true);
        case Woken(changed, inventory, outcome) =>
          if changed.Some? {
            node := changed.value;
          }
          if inventory.Some? {
            knownLocal := MergeKnown(knownLocal, inventory.value);
            seen := seen + inventory.value;
            var config := BuildConfig(fixed.codec, fixed.instance, Snapshot(fixed.bound, node, inventory.value, knownLocal));
            if config.Some? {
              published := published + [Publication(config.value, inventory.value, seen)];
              finish := AfterUpdate(outcome);
            }
          }
      }
      assert Worker(node, knownLocal, finish, published, seen) == Run(fixed, Start(initial, interfaces), turns[..i + 1]);
      if finish.Some? {
        FinishedIsFinal(fixed, Start(initial, interfaces), turns, i + 1);
        return;
      }
    }
    assert turns[..|turns|] == turns;
  }

  method MergeKnown(known: seq<Ip>, ips: seq<Ip>) returns (merged: seq<Ip>)
    ensures merged == Merge(known, ips)
  {
    merged := known;
    for i := 0 to |ips|
      invariant merged == Merge(known, ips[..i])
    {
      assert ips[..i + 1][..i] == ips[..i];
      merged := AddNew(merged, ips[i]);
    }
    assert ips[..|ips|] == ips;
  }

  lemma {:induction false} FinishedIsFinal(fixed: Fixed, w: Worker, turns: seq<Turn>, k: nat)
    requires k <= |turns| && Run(fixed, w, turns[..k]).finished.Some?
    ensures Run(fixed, w, turns) == Run(fixed, w, turns[..k])
    decreases |turns|
  {
    if k == |turns| {
      assert turns[..k] == turns;
    } else {
      assert turns[..|turns| - 1][..k] == turns[..k];
      FinishedIsFinal(fixed, w, turns[..|turns| - 1], k);
    }
  }

  // ── No stale local address is ever published ────────────────────────────────

  lemma {:induction false} MergeMembers(known: seq<Ip>, ips: seq<Ip>)
    ensures forall ip :: ip in Merge(known, ips) <==> ip in known || ip in ips
    decreases |ips|
  {
    if ips != [] {
      MergeMembers(known, ips[..|ips| - 1]);
      assert forall ip :: ip in ips <==> ip in ips[..|ips| - 1] || ip == ips[|ips| - 1];
    }
  }

  /** The record announces this IP, in an A/AAAA record or as a TXT candidate. */
  ghost predicate Carries(codec: Codec, config: ServiceConfig, ip: Ip) {
    ip in config.addrs || exists c | c in TxtAddrs(codec, config.txt) :: c.ip == ip
  }

  /** Listed as local once, and not by the inventory this record was built from. */
  predicate Stale(p: Publication, ip: Ip) {
    ip in p.seen && ip !in p.live
  }

  lemma DirectIsLiveOrForeign(s: Snapshot, c: Socket)
    requires c in DirectOf(s)
    ensures c.ip !in s.knownLocal || c.ip in s.interfaces
  {
    DirectIsDialable(Reconciled(s), s.bound, s.interfaces);
    if a :| a in Reconciled(s) && a.ip == c.ip {
      FilterMembers(s.node.ipAddrs, (a: Socket) => a.ip !in s.knownLocal || a.ip in s.interfaces, a);
    }
  }

  lemma ConfigIsLiveOrForeign(codec: Codec, instance: string, s: Snapshot, ip: Ip)
    requires codec.Faithful() && Config(codec, instance, s).Some?
    requires Carries(codec, Config(codec, instance, s).value, ip)
    ensures ip !in s.knownLocal || ip in s.interfaces
  {
    var config := Config(codec, instance, s).value;
    if ip in config.addrs {
      PublishedAddrsAreBacked(codec, instance, s);
      var c :| c in DirectOf(s) && c.ip == ip;
      DirectIsLiveOrForeign(s, c);
    } else {
      var c :| c in TxtAddrs(codec, config.txt) && c.ip == ip;
      TxtAddrsArePacked(codec, instance, s, c);
      DirectIsLiveOrForeign(s, c);
    }
  }

  ghost predicate Inv(fixed: Fixed, w: Worker) {
    && (forall ip :: ip in w.seen <==> ip in w.knownLocal)
    && (forall p, ip | p in w.published && Carries(fixed.codec, p.config, ip) :: !Stale(p, ip))
  }

  lemma StepKeepsInv(fixed: Fixed, w: Worker, turn: Turn)
    requires fixed.codec.Faithful() && Inv(fixed, w)
    ensures Inv(fixed, Step(fixed, w, turn))
  {
    var w' := Step(fixed, w, turn);
    if w.finished.None? && turn.Woken? && turn.inventory.Some? {
      MergeMembers(w.knownLocal, turn.inventory.value);
      var s := Snapshot(fixed.bound, w'.node, turn.inventory.value, w'.knownLocal);
      forall p, ip | p in w'.published && Carries(fixed.codec, p.config, ip) ensures !Stale(p, ip) {
        if p !in w.published { ConfigIsLiveOrForeign(fixed.codec, fixed.instance, s, ip); }
      }
    }
  }

  lemma {:induction false} RunKeepsInv(fixed: Fixed, w: Worker, turns: seq<Turn>)
    requires fixed.codec.Faithful() && Inv(fixed, w)
    ensures Inv(fixed, Run(fixed, w, turns))
    decreases |turns|
  {
    if turns != [] {
      RunKeepsInv(fixed, w, turns[..|turns| - 1]);
      StepKeepsInv(fixed, Run(fixed, w, turns[..|turns| - 1]), turns[|turns| - 1]);
    }
  }

  /** Over every run of the loop, whatever the endpoint reports and whichever inventories
      fail, no record handed to the transport carries, in A/AAAA or TXT, an IP that some
      inventory up to then listed as local and the current one does not.  */
  lemma NeverPublishesStaleAddress(fixed: Fixed, node: NodeAddr, interfaces: seq<Ip>, turns: seq<Turn>, p: Publication, ip: Ip)
    requires fixed.codec.Faithful()
    requires p in Run(fixed, Start(node, interfaces), turns).published && Carries(fixed.codec, p.config, ip)
    ensures ip in p.live || ip !in p.seen
  {
    RunKeepsInv(fixed, Start(node, interfaces), turns);
  }
}
