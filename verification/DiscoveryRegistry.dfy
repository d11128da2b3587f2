/** The four tables of discovery sessions, the set of endpoints that may still publish, and the
    handles they share.  */
module DiscoveryRegistry {
  import opened Common

  const U32_MAX: nat := 0xffff_ffff

  datatype Kind = PeerBrowse | PeerAd | GenericBrowse | GenericAd

  /** A session in a table; peer sessions carry the endpoint that owns them. */
  datatype Owned = Owned(endpoint: Option<nat>, session: nat)

  datatype Tables = Tables(active: set<nat>, peerBrowses: map<nat, Owned>, peerAds: map<nat, Owned>,
                           genericBrowses: map<nat, Owned>, genericAds: map<nat, Owned>)

  predicate IsPeer(kind: Kind) {
    kind.PeerBrowse? || kind.PeerAd?
  }

  function Get(tables: Tables, kind: Kind): map<nat, Owned> {
    match kind
    case PeerBrowse => tables.peerBrowses
    case PeerAd => tables.peerAds
    case GenericBrowse => tables.genericBrowses
    case GenericAd => tables.genericAds
  }

  function With(tables: Tables, kind: Kind, table: map<nat, Owned>): (r: Tables)
    ensures r.active == tables.active
    ensures forall other :: Get(r, other) == if other == kind then table else Get(tables, other)
  {
    match kind
    case PeerBrowse => tables.(peerBrowses := table)
    case PeerAd => tables.(peerAds := table)
    case GenericBrowse => tables.(genericBrowses := table)
    case GenericAd => tables.(genericAds := table)
  }

  function NotOf(table: map<nat, Owned>, e: nat): map<nat, Owned> {
    map h | h in table && table[h].endpoint != Some(e) :: table[h]
  }

  /** What retiring an endpoint leaves. */
  function Retired(tables: Tables, e: nat): Tables {
    tables.(active := tables.active - {e}, peerBrowses := NotOf(tables.peerBrowses, e),
            peerAds := NotOf(tables.peerAds, e))
  }

  function SessionsOf(table: map<nat, Owned>, e: nat): set<nat> {
    set h | h in table && table[h].endpoint == Some(e) :: table[h].session
  }

  function HandlesOf(table: map<nat, Owned>, e: nat): set<nat> {
    set h | h in table && table[h].endpoint == Some(e)
  }

  /** Collect the endpoint's handles, then remove them one by one. */
  method DrainEndpointOwned(table: map<nat, Owned>, e: nat) returns (rest: map<nat, Owned>, sessions: seq<nat>)
    ensures rest == NotOf(table, e)
    ensures (set x | x in sessions) == SessionsOf(table, e)
    ensures |sessions| == |HandlesOf(table, e)|
  {
    var handles := HandlesOf(table, e);
    rest, sessions := table, [];
    while handles != {}
      invariant handles <= rest.Keys <= table.Keys
      invariant |sessions| + |handles| == |HandlesOf(table, e)|
      invariant forall h | h in rest :: rest[h] == table[h]
      invariant forall h | h in table :: h in handles ==> table[h].endpoint == Some(e)
      invariant forall h | h in table && h !in handles :: h in rest <==> table[h].endpoint != Some(e)
      invariant forall x :: x in sessions <==>
                  exists h :: h in table && h !in handles && table[h].endpoint == Some(e) && table[h].session == x
    {
      var h :| h in handles;
      handles := handles - {h};
      sessions := sessions + [rest[h].session];
      rest := rest - {h};
    }
  }

  /** `checked_add` on the shared counter: the old value, or nothing at the very end. */
  function Alloc(counter: nat): Option<nat> {
    if counter < U32_MAX then Some(counter) else None
  }
}
