/** `DiscoveryState` and the native functions on it, in their own form.  Each lock section is
    proved to be the step of `DiscoveryRuns` that stands for it.  */
module DiscoveryBridge {
  import opened Common
  import opened DiscoveryRegistry
  import R = DiscoveryRuns

  /** How a peer start ends. */
  datatype Publication = Published(handle: nat) | EndpointClosed | Exhausted

  class DiscoveryState {
    var tables: Tables
    var counter: nat

    constructor ()
      ensures Shows(R.INIT)
    {
      tables, counter := Tables({}, map[], map[], map[], map[]), 1;
    }

    /** The shared state is that of the machine. */
    ghost predicate Shows(s: R.State)
      reads this
    {
      tables == s.tables && counter == s.counter
    }

    /** `checked_add` through `fetch_update`. */
    method AllocDiscoveryHandle() returns (handle: Option<nat>)
      modifies this`counter
      ensures handle == Alloc(old(counter))
      ensures counter == if handle.Some? then old(counter) + 1 else old(counter)
    {
      if counter >= U32_MAX { return None; }
      handle := Some(counter);
      counter := counter + 1;
    }

    method Activate(ghost s: R.State, e: nat)
      requires Shows(s) && e !in s.past.known
      modifies this`tables
      ensures Shows(R.Step(s, R.Activate(e)))
    {
      tables := tables.(active := tables.active + {e});
    }

    /** The end of a peer start, all under the lock. */
    method PublishPeer(ghost s: R.State, ghost t: nat, kind: Kind, e: nat, session: nat) returns (result: Publication)
      requires Shows(s) && IsPeer(kind) && R.PcOf(s, t) == R.Starting(kind, e, session)
      modifies this
      ensures Shows(R.Step(s, R.Publish(t)))
      ensures R.PcOf(R.Step(s, R.Publish(t)), t) == if result.Published? then R.Idle else R.Dropping(session)
      ensures result.Published? ==> R.Step(s, R.Publish(t)).past.issued == s.past.issued + [result.handle]
    {
      if e !in tables.active { return EndpointClosed; }
      var handle := AllocDiscoveryHandle();
      if handle.None? { return Exhausted; }
      tables := With(tables, kind, Get(tables, kind)[handle.value := Owned(Some(e), session)]);
      result := Published(handle.value);
    }

    /** A generic start takes its handle before it comes to the lock. */
    method AllocGeneric(ghost s: R.State, ghost t: nat, ghost kind: Kind, ghost e: nat, ghost session: nat)
      returns (handle: Option<nat>)
      requires Shows(s) && !IsPeer(kind) && R.PcOf(s, t) == R.Starting(kind, e, session)
      modifies this`counter
      ensures Shows(R.Step(s, R.AllocGeneric(t)))
      ensures R.PcOf(R.Step(s, R.AllocGeneric(t)), t)
           == if handle.Some? then R.Inserting(kind, session, handle.value) else R.Dropping(session)
    {
      handle := AllocDiscoveryHandle();
    }

    method InsertGeneric(ghost s: R.State, ghost t: nat, kind: Kind, session: nat, handle: nat)
      requires Shows(s) && R.PcOf(s, t) == R.Inserting(kind, session, handle)
      modifies this`tables
      ensures Shows(R.Step(s, R.InsertGeneric(t)))
    {
      tables := With(tables, kind, Get(tables, kind)[handle := Owned(None, session)]);
    }

    /** The locked part of `retire_endpoint_discovery`; the sessions are closed afterwards. */
    method Retire(ghost s: R.State, ghost t: nat, e: nat) returns (browses: seq<nat>, advertisements: seq<nat>)
      requires Shows(s) && R.PcOf(s, t).Idle?
      modifies this`tables
      ensures Shows(R.Step(s, R.Retire(t, e)))
      ensures R.PcOf(R.Step(s, R.Retire(t, e)), t) == R.Retiring((set x | x in browses) + (set x | x in advertisements))
    {
      tables := tables.(active := tables.active - {e});
      var restBrowses, restAds;
      restBrowses, browses := DrainEndpointOwned(tables.peerBrowses, e);
      tables := tables.(peerBrowses := restBrowses);
      restAds, advertisements := DrainEndpointOwned(tables.peerAds, e);
      tables := tables.(peerAds := restAds);
    }

    /** The lookup of a browse poll or close. */
    method Lookup(ghost s: R.State, ghost t: nat, kind: Kind, handle: nat) returns (session: Option<nat>)
      requires Shows(s) && R.PcOf(s, t).Idle? && (kind.PeerBrowse? || kind.GenericBrowse?)
      ensures Shows(R.Step(s, R.Lookup(t, kind, handle)))
      ensures R.PcOf(R.Step(s, R.Lookup(t, kind, handle)), t)
           == if session.Some? then R.LookedUp(kind, handle, session.value) else R.Idle
    {
      var table := Get(tables, kind);
      session := if handle in table then Some(table[handle].session) else None;
    }

    /** Removes the entry only if it is still the session that was looked up. */
    method RemoveSame(ghost s: R.State, ghost t: nat, kind: Kind, handle: nat, session: nat)
      requires Shows(s) && R.PcOf(s, t) == R.Removing(kind, handle, session)
      modifies this`tables
      ensures Shows(R.Step(s, R.RemoveSame(t))) && R.PcOf(R.Step(s, R.RemoveSame(t)), t).Idle?
    {
      if handle in Get(tables, kind) && Get(tables, kind)[handle].session == session {
        tables := With(tables, kind, Get(tables, kind) - {handle});
      }
    }

    /** Takes an advertisement out of its table, to be dropped. */
    method CloseAd(ghost s: R.State, ghost t: nat, kind: Kind, handle: nat) returns (session: Option<nat>)
      requires Shows(s) && R.PcOf(s, t).Idle? && (kind.PeerAd? || kind.GenericAd?)
      modifies this`tables
      ensures Shows(R.Step(s, R.CloseAd(t, kind, handle)))
      ensures R.PcOf(R.Step(s, R.CloseAd(t, kind, handle)), t)
           == if session.Some? then R.Dropping(session.value) else R.Idle
    {
      if handle !in Get(tables, kind) { return None; }
      session := Some(Get(tables, kind)[handle].session);
      tables := With(tables, kind, Get(tables, kind) - {handle});
    }
  }
}
