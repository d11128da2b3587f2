/** `peer_event_from_record`: what a browser makes of a DNS-SD record, and why nothing
    the advertiser packed is lost or invented on the way.  */
module PeerRecord {
  import opened Common
  import opened Sequences
  import opened Text
  import opened TxtPacking
  import opened NetAddr
  import opened PeerDirect
  import opened PeerConfig

  datatype ServiceRecord = ServiceRecord(active: bool, instance: string, addrs: seq<Socket>, txt: seq<(string, string)>)

  datatype PeerEvent = PeerEvent(active: bool, nodeId: string, addrs: seq<string>)

  function Lookup(txt: seq<(string, string)>, key: string): Option<string> {
    var entry := FindFirst(txt, (e: (string, string)) => e.0 == key);
    if entry.None? then None else Some(entry.value.1)
  }

  function NodeId(r: ServiceRecord): Option<string> {
    var pk := Lookup(r.txt, TXT_PK);
    if pk.Some? && pk.value != [] then pk
    else if r.instance != [] then Some(r.instance) else None
  }

  /** A TXT candidate the browser accepts: a real port, and a scope if link-local. */
  predicate Usable(s: Socket) {
    s.port > 1 && !(IsLinkLocalV6(s.ip) && s.scope == 0)
  }

  function TxtCandidate(codec: Codec, piece: string): Option<Socket> {
    var parsed := codec.parse(Trim(piece));
    if parsed.Some? && Usable(parsed.value) then parsed else None
  }

  function TxtAddrs(codec: Codec, txt: seq<(string, string)>): seq<Socket> {
    match Lookup(txt, TXT_ADDRESS)
    case None => []
    case Some(value) => Distinct(Present(Map(Split(value, ','), (piece: string) => TxtCandidate(codec, piece))))
  }

  /** An authoritative TXT port overrules a differing SRV port for the same host. */
  predicate Suppressed(txtAddrs: seq<Socket>, srv: Socket) {
    exists t | t in txtAddrs :: SameScopedHost(t, srv) && t.port != srv.port
  }

  function SrvAddrs(txtAddrs: seq<Socket>, addrs: seq<Socket>): seq<Socket> {
    Filter(addrs, (srv: Socket) => srv.port > 1 && !Suppressed(txtAddrs, srv))
  }

  function Append(codec: Codec, addrs: seq<string>, more: seq<Socket>): seq<string>
    decreases |more|
  {
    if more == [] then addrs
    else AddNew(Append(codec, addrs, more[..|more| - 1]), codec.show(more[|more| - 1]))
  }

  /** The direct addresses of the event, in dial order. */
  function DirectText(codec: Codec, r: ServiceRecord): seq<string> {
    var txtAddrs := TxtAddrs(codec, r.txt);
    Append(codec, Map(SrvAddrs(txtAddrs, r.addrs), codec.show), txtAddrs)
  }

  function Event(codec: Codec, r: ServiceRecord): Option<PeerEvent> {
    match NodeId(r)
    case None => None
    case Some(id) =>
      if !r.active then Some(PeerEvent(false, id, []))
      else
        var relay := Lookup(r.txt, TXT_RELAY);
        Some(PeerEvent(true, id, DirectText(codec, r) + if relay.Some? then [relay.value] else []))
  }

  method PeerEventFromRecord(codec: Codec, r: ServiceRecord) returns (event: Option<PeerEvent>)
    ensures event == Event(codec, r)
  {
    var id := NodeId(r);
    if id.None? {
      return None;
    }
    if !r.active {
      return Some(PeerEvent(false, id.value, []));
    }
    var txtAddrs := CollectTxtAddrs(codec, r.txt);
    var addrs := Map(SrvAddrs(txtAddrs, r.addrs), codec.show);
    ghost var srv := addrs;
    assert txtAddrs[..0] == [];
    for i := 0 to |txtAddrs|
      invariant addrs == Append(codec, srv, txtAddrs[..i])
    {
      assert txtAddrs[..i + 1][..i] == txtAddrs[..i];
      addrs := AddNew(addrs, codec.show(txtAddrs[i]));
    }
    assert txtAddrs[..|txtAddrs|] == txtAddrs;
    var relay := Lookup(r.txt, TXT_RELAY);
    assert addrs + [] == addrs;
    if relay.Some? {
      addrs := addrs + [relay.value];
    }
    event := Some(PeerEvent(true, id.value, addrs));
  }

  method CollectTxtAddrs(codec: Codec, txt: seq<(string, string)>) returns (txtAddrs: seq<Socket>)
    ensures txtAddrs == TxtAddrs(codec, txt)
  {
    txtAddrs := [];
    var value := Lookup(txt, TXT_ADDRESS);
    if value.Some? {
      var pieces := Split(value.value, ',');
      ghost var options := Map(pieces, (piece: string) => TxtCandidate(codec, piece));
      for i := 0 to |pieces|
        invariant txtAddrs == Chosen(options, i)
      {
        var parsed := codec.parse(Trim(pieces[i]));
        if parsed.Some? && Usable(parsed.value) {
          txtAddrs := AddNew(txtAddrs, parsed.value);
        }
      }
      ChosenAreDistinct(options, |options|);
      assert options[..|options|] == options;
    }
  }

  // ── Meaning of the browser's rule, for any record ───────────────────────────

  lemma {:induction false} AppendMembers(codec: Codec, addrs: seq<string>, more: seq<Socket>, x: string)
    ensures x in Append(codec, addrs, more) <==> x in addrs || exists s | s in more :: codec.show(s) == x
    decreases |more|
  {
    if more != [] {
      var front, last := more[..|more| - 1], more[|more| - 1];
      AppendMembers(codec, addrs, front, x);
      assert more == front + [last];
      if s :| s in more && codec.show(s) == x {
        assert s in front || s == last;
      }
      assert last in more;
    }
  }

  /** The direct part of an event: the unsuppressed SRV pairings and every TXT candidate. */
  lemma DirectTextMembers(codec: Codec, r: ServiceRecord, x: string)
    ensures x in DirectText(codec, r) <==>
              var t := TxtAddrs(codec, r.txt);
              || (exists s | s in r.addrs :: s.port > 1 && !Suppressed(t, s) && codec.show(s) == x)
              || (exists s | s in t :: codec.show(s) == x)
  {
    var t := TxtAddrs(codec, r.txt);
    var keep := (srv: Socket) => srv.port > 1 && !Suppressed(t, srv);
    var kept := Filter(r.addrs, keep);
    var texts := Map(kept, codec.show);
    AppendMembers(codec, texts, t, x);
    if x in texts {
      var i :| 0 <= i < |texts| && texts[i] == x;
      FilterMembers(r.addrs, keep, kept[i]);
    }
    if s :| s in r.addrs && s.port > 1 && !Suppressed(t, s) && codec.show(s) == x {
      FilterMembers(r.addrs, keep, s);
      var i :| 0 <= i < |kept| && kept[i] == s;
      assert texts[i] == x;
    }
  }

  // ── Advertise, then browse ──────────────────────────────────────────────────

  /** The record a browser resolves from a published config: every A/AAAA address with
      the SRV port, and the TXT properties unchanged.  */
  function Resolved(config: ServiceConfig): ServiceRecord {
    ServiceRecord(true, config.instance, Map(config.addrs, (ip: Ip) => NewSocket(ip, config.port)), config.txt)
  }

  /** The direct candidates that found room in the TXT entry. */
  ghost predicate IsPacked(codec: Codec, s: Snapshot, c: Socket) {
    c in DirectOf(s) && codec.show(c) in Packed(TXT_ADDRESS, Shown(codec, DirectOf(s)))
  }

  lemma TxtLookups(codec: Codec, instance: string, s: Snapshot)
    ensures var txt := TxtOf(codec, instance, s);
            var packed := Packed(TXT_ADDRESS, Shown(codec, DirectOf(s)));
            && Lookup(txt, TXT_PK) == Some(instance)
            && Lookup(txt, TXT_RELAY) == (if s.node.relays == [] then None else Some(s.node.relays[0]))
            && Lookup(txt, TXT_ADDRESS) == (if packed == [] then None else Some(Join(packed, ',')))
  {
    var relay := if s.node.relays == [] then [] else [(TXT_RELAY, s.node.relays[0])];
    var packed := Packed(TXT_ADDRESS, Shown(codec, DirectOf(s)));
    var address := if packed == [] then [] else [(TXT_ADDRESS, Join(packed, ','))];
    assert TXT_PK[0] != TXT_RELAY[0] && TXT_PK[0] != TXT_ADDRESS[0] && TXT_RELAY[0] != TXT_ADDRESS[0];
    LookupIn(instance, relay, address, TXT_PK);
    LookupIn(instance, relay, address, TXT_RELAY);
    LookupIn(instance, relay, address, TXT_ADDRESS);
  }

  /** Lookups in the three-part TXT list the builder assembles. */
  lemma LookupIn(instance: string, relay: seq<(string, string)>, address: seq<(string, string)>, key: string)
    requires |relay| <= 1 && |address| <= 1
    ensures Lookup([(TXT_PK, instance)] + relay + address, key) ==
              if key == TXT_PK then Some(instance)
              else if relay != [] && relay[0].0 == key then Some(relay[0].1)
              else if address != [] && address[0].0 == key then Some(address[0].1)
              else None
  {
    var isKey := (e: (string, string)) => e.0 == key;
    FindFirstAppends([(TXT_PK, instance)] + relay, address, isKey);
    FindFirstAppends([(TXT_PK, instance)], relay, isKey);
  }

  /** Packed texts parse back to the candidates they came from. */
  lemma PackedText(codec: Codec, s: Snapshot, text: string)
    requires codec.Faithful() && text in Packed(TXT_ADDRESS, Shown(codec, DirectOf(s)))
    ensures exists c | c in DirectOf(s) :: codec.show(c) == text && TxtCandidate(codec, text) == Some(c)
  {
    var shown := Shown(codec, DirectOf(s));
    assert text in shown;
    var i :| 0 <= i < |shown| && shown[i] == text;
    var c := DirectOf(s)[i];
    DirectIsDialable(Reconciled(s), s.bound, s.interfaces);
    assert c in DirectOf(s);
    assert Plain(codec.show(c)) && codec.parse(codec.show(c)) == Some(c);
    PlainTrims(text);
  }

  /** The TXT candidates a browser reads are exactly the packed direct candidates. */
  lemma TxtAddrsArePacked(codec: Codec, instance: string, s: Snapshot, c: Socket)
    requires codec.Faithful()
    ensures c in TxtAddrs(codec, TxtOf(codec, instance, s)) <==> IsPacked(codec, s, c)
  {
    TxtLookups(codec, instance, s);
    var packed := Packed(TXT_ADDRESS, Shown(codec, DirectOf(s)));
    if packed != [] {
      assert forall v | v in Shown(codec, DirectOf(s)) :: ',' !in v;
      PackedSplitsBack(TXT_ADDRESS, Shown(codec, DirectOf(s)));
      var options := Map(packed, (piece: string) => TxtCandidate(codec, piece));
      DistinctMembers(Present(options));
      PresentMembers(options, c);
      if Some(c) in options {
        var i :| 0 <= i < |options| && options[i] == Some(c);
        PackedText(codec, s, packed[i]);
      }
      if IsPacked(codec, s, c) {
        PackedText(codec, s, codec.show(c));
        assert codec.parse(codec.show(c)) == Some(c);
        var i :| 0 <= i < |packed| && packed[i] == codec.show(c);
        assert options[i] == Some(c);
      }
    }
  }

  /** Soundness: every direct address the browser surfaces is one of the advertiser's
      direct candidates, as it stands or (for an A/AAAA record) without its scope.  */
  lemma SurfacedAddressesAreDirect(codec: Codec, instance: string, s: Snapshot, x: string)
    requires codec.Faithful() && Config(codec, instance, s).Some?
    requires x in DirectText(codec, Resolved(Config(codec, instance, s).value))
    ensures exists c | c in DirectOf(s) :: x == codec.show(c) || x == codec.show(NewSocket(c.ip, c.port))
  {
    var config := Config(codec, instance, s).value;
    var r := Resolved(config);
    DirectTextMembers(codec, r, x);
    if t :| t in TxtAddrs(codec, r.txt) && codec.show(t) == x {
      TxtAddrsArePacked(codec, instance, s, t);
    } else {
      var srv :| srv in r.addrs && codec.show(srv) == x;
      var i :| 0 <= i < |r.addrs| && r.addrs[i] == srv;
      PublishedAddrsAreBacked(codec, instance, s);
      assert config.addrs[i] in config.addrs;
      var c :| c in DirectOf(s) && c.ip == config.addrs[i] && c.port == config.port;
      assert x == codec.show(NewSocket(c.ip, c.port));
    }
  }

  /** Everything the browser surfaces is the text of a direct candidate. */
  ghost predicate AllCandidates(codec: Codec, s: Snapshot, config: ServiceConfig) {
    forall x | x in DirectText(codec, Resolved(config)) :: exists c | c in DirectOf(s) :: x == codec.show(c)
  }

  /** Every published address that no TXT port suppresses is yielded by some input without a
      scope.  */
  ghost predicate AllUnscoped(codec: Codec, s: Snapshot, config: ServiceConfig) {
    forall ip | ip in config.addrs ::
      !Suppressed(TxtAddrs(codec, config.txt), NewSocket(ip, config.port)) ==> Unscoped(s, ip, config.port)
  }

  lemma SurfacedAreCandidatesIff(codec: Codec, instance: string, s: Snapshot)
    requires codec.Faithful() && Config(codec, instance, s).Some?
    ensures var config := Config(codec, instance, s).value; AllCandidates(codec, s, config) <==> AllUnscoped(codec, s, config)
  {
    var config := Config(codec, instance, s).value;
    FailsIffNoRealPort(codec, instance, s);
    if AllCandidates(codec, s, config) {
      forall ip | ip in config.addrs && !Suppressed(TxtAddrs(codec, config.txt), NewSocket(ip, config.port))
        ensures Unscoped(s, ip, config.port)
      {
        SurfacesUnlessSuppressed(codec, instance, s, ip);
        var c :| c in DirectOf(s) && codec.show(NewSocket(ip, config.port)) == codec.show(c);
        SameText(codec, NewSocket(ip, config.port), c);
        UnscopedIffDirect(s, ip, config.port);
      }
    }
    if AllUnscoped(codec, s, config) {
      forall x | x in DirectText(codec, Resolved(config))
        ensures exists c | c in DirectOf(s) :: x == codec.show(c)
      {
        SurfacedIsCandidate(codec, instance, s, x);
      }
    }
  }

  lemma SameText(codec: Codec, a: Socket, b: Socket)
    requires codec.Faithful() && codec.show(a) == codec.show(b)
    ensures a == b
  {
    assert codec.parse(codec.show(a)) == Some(a) && codec.parse(codec.show(b)) == Some(b);
  }

  lemma SurfacesUnlessSuppressed(codec: Codec, instance: string, s: Snapshot, ip: Ip)
    requires codec.Faithful() && Config(codec, instance, s).Some? && ip in Config(codec, instance, s).value.addrs
    requires var config := Config(codec, instance, s).value;
             !Suppressed(TxtAddrs(codec, config.txt), NewSocket(ip, config.port))
    ensures var config := Config(codec, instance, s).value;
            codec.show(NewSocket(ip, config.port)) in DirectText(codec, Resolved(config))
  {
    var config := Config(codec, instance, s).value;
    FailsIffNoRealPort(codec, instance, s);
    var i :| 0 <= i < |config.addrs| && config.addrs[i] == ip;
    assert Resolved(config).addrs[i] == NewSocket(ip, config.port);
    DirectTextMembers(codec, Resolved(config), codec.show(NewSocket(ip, config.port)));
  }

  lemma SurfacedIsCandidate(codec: Codec, instance: string, s: Snapshot, x: string)
    requires codec.Faithful() && Config(codec, instance, s).Some?
    requires x in DirectText(codec, Resolved(Config(codec, instance, s).value))
    requires AllUnscoped(codec, s, Config(codec, instance, s).value)
    ensures exists c | c in DirectOf(s) :: x == codec.show(c)
  {
    var config := Config(codec, instance, s).value;
    var r := Resolved(config);
    DirectTextMembers(codec, r, x);
    if t :| t in TxtAddrs(codec, r.txt) && codec.show(t) == x {
      TxtAddrsArePacked(codec, instance, s, t);
    } else {
      var srv :| srv in r.addrs && srv.port > 1 && !Suppressed(TxtAddrs(codec, r.txt), srv) && codec.show(srv) == x;
      var i :| 0 <= i < |r.addrs| && r.addrs[i] == srv;
      assert config.addrs[i] in config.addrs && srv == NewSocket(config.addrs[i], config.port);
      UnscopedIffDirect(s, config.addrs[i], config.port);
    }
  }

  /** The exception is real: a scoped candidate is surfaced without its scope as well, which is
      the text of no candidate.  */
  lemma ScopedSurfacesUnscoped(codec: Codec, instance: string, ip: Ip, port: U16, scope: U32)
    requires codec.Faithful() && ip.V6? && IsRoutable(ip) && !IsPlaceholder(port) && scope != 0
    ensures var s := ScopedOnly(ip, port, scope);
            && Config(codec, instance, s).Some?
            && codec.show(NewSocket(ip, port)) in DirectText(codec, Resolved(Config(codec, instance, s).value))
            && forall c | c in DirectOf(s) :: codec.show(c) != codec.show(NewSocket(ip, port))
  {
    var s := ScopedOnly(ip, port, scope);
    ScopedIsPublishedUnscoped(codec, instance, ip, port, scope);
    var config := Config(codec, instance, s).value;
    forall t | t in TxtAddrs(codec, config.txt) ensures t.port == port {
      TxtAddrsArePacked(codec, instance, s, t);
    }
    assert ip in config.addrs;
    SurfacesUnlessSuppressed(codec, instance, s, ip);
    var c: Socket := Socket(ip, port, scope);
    if codec.show(c) == codec.show(NewSocket(ip, port)) { SameText(codec, c, NewSocket(ip, port)); }
  }

  /** Completeness of TXT: no packed candidate is dropped by the browser. */
  lemma PackedCandidatesSurface(codec: Codec, instance: string, s: Snapshot, c: Socket)
    requires codec.Faithful() && Config(codec, instance, s).Some? && IsPacked(codec, s, c)
    ensures codec.show(c) in DirectText(codec, Resolved(Config(codec, instance, s).value))
  {
    TxtAddrsArePacked(codec, instance, s, c);
    DirectTextMembers(codec, Resolved(Config(codec, instance, s).value), codec.show(c));
  }

  /** Addresses published from live interfaces are never suppressed by a TXT port. */
  lemma InterfaceAddressesSurface(codec: Codec, instance: string, s: Snapshot, ip: Ip)
    requires codec.Faithful() && Config(codec, instance, s).Some?
    requires var config := Config(codec, instance, s).value;
             InterfaceAddrs(s, config.port) != [] && ip in config.addrs
    ensures var config := Config(codec, instance, s).value;
            codec.show(NewSocket(ip, config.port)) in DirectText(codec, Resolved(config))
  {
    var config := Config(codec, instance, s).value;
    var r := Resolved(config);
    var srv := NewSocket(ip, config.port);
    FailsIffNoRealPort(codec, instance, s);
    InterfaceAddrsMembers(s, config.port, ip);
    var b :| b in s.bound && b.port == config.port && Eligible(DirectOf(s), ip, b);
    forall t | t in TxtAddrs(codec, r.txt) ensures t.ip == ip ==> t.port == config.port {
      TxtAddrsArePacked(codec, instance, s, t);
    }
    var i :| 0 <= i < |config.addrs| && config.addrs[i] == ip;
    assert r.addrs[i] == srv;
    DirectTextMembers(codec, r, codec.show(srv));
  }

  /** For fallback addresses suppression happens exactly when the TXT entry carries the
      same IP with another port.  */
  lemma SuppressedIffPackedElsewhere(codec: Codec, instance: string, s: Snapshot, ip: Ip)
    requires codec.Faithful() && Config(codec, instance, s).Some? && ip in Config(codec, instance, s).value.addrs
    ensures var config := Config(codec, instance, s).value;
            Suppressed(TxtAddrs(codec, config.txt), NewSocket(ip, config.port)) <==>
              exists c | c in DirectOf(s) :: IsPacked(codec, s, c) && c.ip == ip && c.port != config.port
  {
    var config := Config(codec, instance, s).value;
    var srv := NewSocket(ip, config.port);
    DirectIsDialable(Reconciled(s), s.bound, s.interfaces);
    if t :| t in TxtAddrs(codec, config.txt) && SameScopedHost(t, srv) && t.port != srv.port {
      TxtAddrsArePacked(codec, instance, s, t);
    }
    if c :| c in DirectOf(s) && IsPacked(codec, s, c) && c.ip == ip && c.port != config.port {
      TxtAddrsArePacked(codec, instance, s, c);
      assert SameScopedHost(c, srv);
    }
  }

  /** The event as a whole: it exists unless the instance label is empty, names the
      advertiser, and ends with its first relay URL.  */
  lemma ResolvedEvent(codec: Codec, instance: string, s: Snapshot)
    requires Config(codec, instance, s).Some?
    ensures var r := Resolved(Config(codec, instance, s).value);
            Event(codec, r) ==
              if instance == [] then None
              else Some(PeerEvent(true, instance, DirectText(codec, r) + if s.node.relays == [] then [] else [s.node.relays[0]]))
  {
    TxtLookups(codec, instance, s);
  }
}
