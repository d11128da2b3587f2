/** `peer_service_config_from_reconciled_snapshot`: the one DNS-SD record an endpoint
    publishes, with its single SRV port.  */
module PeerConfig {
  import opened Common
  import opened Sequences
  import opened Text
  import opened TxtPacking
  import opened NetAddr
  import opened PeerDirect

  const TXT_PK := "pk"
  const TXT_RELAY := "relay"
  const TXT_ADDRESS := "address"

  datatype ServiceConfig = ServiceConfig(instance: string, port: U16, addrs: seq<Ip>, txt: seq<(string, string)>)

  /** The endpoint's own snapshot: direct candidates and relay URLs. */
  datatype NodeAddr = NodeAddr(ipAddrs: seq<Socket>, relays: seq<string>)

  /** Everything the builder reads. */
  datatype Snapshot = Snapshot(bound: seq<Socket>, node: NodeAddr, interfaces: seq<Ip>, knownLocal: seq<Ip>)

  /** Endpoint candidates minus those whose IP was local once and is not any more. */
  function Reconciled(s: Snapshot): seq<Socket> {
    Filter(s.node.ipAddrs, (a: Socket) => a.ip !in s.knownLocal || a.ip in s.interfaces)
  }

  function DirectOf(s: Snapshot): seq<Socket> {
    Direct(Reconciled(s), s.bound, s.interfaces)
  }

  /** The interface may be announced with this listener's port: no direct candidate gives
      the same IP another port.  */
  predicate Eligible(direct: seq<Socket>, ip: Ip, bound: Socket) {
    IsRoutable(ip) && Covers(bound, ip) && forall c | c in direct :: c.ip == ip ==> c.port == bound.port
  }

  predicate HasEligible(s: Snapshot, bound: Socket) {
    !IsPlaceholder(bound.port) && exists ip | ip in s.interfaces :: Eligible(DirectOf(s), ip, bound)
  }

  predicate BacksCandidate(bound: Socket, c: Socket) {
    c.port == bound.port && Covers(bound, c.ip)
  }

  predicate HasCandidate(s: Snapshot, bound: Socket) {
    !IsPlaceholder(bound.port) && exists c | c in DirectOf(s) :: BacksCandidate(bound, c)
  }

  /** First listener with an eligible interface, else first backing a candidate, else
      first with a real port.  */
  function SrvBound(s: Snapshot): Option<Socket> {
    var eligible := FindFirst(s.bound, (b: Socket) => HasEligible(s, b));
    if eligible.Some? then eligible
    else
      var backing := FindFirst(s.bound, (b: Socket) => HasCandidate(s, b));
      if backing.Some? then backing else FindFirst(s.bound, (b: Socket) => !IsPlaceholder(b.port))
  }

  predicate Announceable(s: Snapshot, port: U16, ip: Ip) {
    exists b | b in s.bound :: b.port == port && Eligible(DirectOf(s), ip, b)
  }

  function InterfaceAddrs(s: Snapshot, port: U16): seq<Ip> {
    Distinct(Filter(s.interfaces, (ip: Ip) => Announceable(s, port, ip)))
  }

  predicate Fallback(s: Snapshot, port: U16, c: Socket) {
    c.port == port && exists b | b in s.bound :: BacksCandidate(b, c)
  }

  function FallbackAddrs(s: Snapshot, port: U16): seq<Ip> {
    Distinct(Map(Filter(DirectOf(s), (c: Socket) => Fallback(s, port, c)), (c: Socket) => c.ip))
  }

  function AddrsOf(s: Snapshot, port: U16): seq<Ip> {
    if InterfaceAddrs(s, port) != [] then InterfaceAddrs(s, port) else FallbackAddrs(s, port)
  }

  function Shown(codec: Codec, sockets: seq<Socket>): seq<string> {
    Map(sockets, codec.show)
  }

  function TxtOf(codec: Codec, instance: string, s: Snapshot): seq<(string, string)> {
    var packed := Packed(TXT_ADDRESS, Shown(codec, DirectOf(s)));
    [(TXT_PK, instance)]
    + (if s.node.relays == [] then [] else [(TXT_RELAY, s.node.relays[0])])
    + (if packed == [] then [] else [(TXT_ADDRESS, Join(packed, ','))])
  }

  function Config(codec: Codec, instance: string, s: Snapshot): Option<ServiceConfig> {
    var bound := SrvBound(s);
    if bound.None? then None
    else Some(ServiceConfig(instance, bound.value.port, AddrsOf(s, bound.value.port), TxtOf(codec, instance, s)))
  }

  /** The builder in its own form, loops and early error included. */
  method BuildConfig(codec: Codec, instance: string, s: Snapshot) returns (config: Option<ServiceConfig>)
    ensures config == Config(codec, instance, s)
  {
    var direct := PeerDirectAddresses(Reconciled(s), s.bound, s.interfaces);
    var bound := SrvBound(s);
    if bound.None? {
      return None;
    }
    var addrs := CollectAddrs(s, direct, bound.value.port);
    var txt := [(TXT_PK, instance)];
    if s.node.relays != [] {
      txt := txt + [(TXT_RELAY, s.node.relays[0])];
    }
    var packed := FitTxtValues(TXT_ADDRESS, Shown(codec, direct));
    if packed.Some? {
      txt := txt + [(TXT_ADDRESS, packed.value)];
    }
    assert txt == TxtOf(codec, instance, s);
    config := Some(ServiceConfig(instance, bound.value.port, addrs, txt));
  }

  method CollectAddrs(s: Snapshot, direct: seq<Socket>, port: U16) returns (addrs: seq<Ip>)
    requires direct == DirectOf(s)
    ensures addrs == AddrsOf(s, port)
  {
    addrs := [];
    assert s.interfaces[..0] == [];
    for i := 0 to |s.interfaces|
      invariant addrs == Distinct(Filter(s.interfaces[..i], (ip: Ip) => Announceable(s, port, ip)))
    {
      var ip := s.interfaces[i];
      DistinctFilterSnoc(s.interfaces, i, (ip: Ip) => Announceable(s, port, ip));
      if exists b | b in s.bound :: b.port == port && Eligible(direct, ip, b) {
        addrs := AddNew(addrs, ip);
      }
    }
    assert s.interfaces[..|s.interfaces|] == s.interfaces;
    if addrs == [] {
      addrs := CollectFallback(Filter(direct, (c: Socket) => Fallback(s, port, c)));
    }
  }

  /** No interface address will do: the candidates themselves, first occurrences only. */
  method CollectFallback(candidates: seq<Socket>) returns (addrs: seq<Ip>)
    ensures addrs == Distinct(Map(candidates, (c: Socket) => c.ip))
  {
    addrs := [];
    ghost var ips := Map(candidates, (c: Socket) => c.ip);
    for i := 0 to |candidates|
      invariant addrs == Distinct(ips[..i])
    {
      assert ips[..i + 1][..i] == ips[..i];
      addrs := AddNew(addrs, candidates[i].ip);
    }
    assert ips[..|ips|] == ips;
  }

  lemma DistinctFilterSnoc<T>(s: seq<T>, i: nat, keep: T -> bool)
    requires i < |s|
    ensures Distinct(Filter(s[..i + 1], keep))
         == if keep(s[i]) then AddNew(Distinct(Filter(s[..i], keep)), s[i]) else Distinct(Filter(s[..i], keep))
  {
    assert s[..i + 1] == s[..i] + [s[i]];
    FilterAppends(s[..i], [s[i]], keep);
    var front := Filter(s[..i], keep);
    if keep(s[i]) {
      assert Filter([s[i]], keep) == [s[i]];
      assert (front + [s[i]])[..|front|] == front;
    } else {
      assert Filter([s[i]], keep) == [];
      assert front + [] == front;
    }
  }

  // ── The chosen port ─────────────────────────────────────────────────────────

  /** The call fails exactly when every bound port is a placeholder. */
  lemma FailsIffNoRealPort(codec: Codec, instance: string, s: Snapshot)
    ensures Config(codec, instance, s).None? <==> forall b | b in s.bound :: IsPlaceholder(b.port)
    ensures Config(codec, instance, s).Some? ==> !IsPlaceholder(Config(codec, instance, s).value.port)
  {
    FindFirstFinds(s.bound, (b: Socket) => HasEligible(s, b));
    FindFirstFinds(s.bound, (b: Socket) => HasCandidate(s, b));
    FindFirstFinds(s.bound, (b: Socket) => !IsPlaceholder(b.port));
  }

  /** Interface addresses: exactly the announceable ones. */
  lemma InterfaceAddrsMembers(s: Snapshot, port: U16, ip: Ip)
    ensures ip in InterfaceAddrs(s, port) <==> ip in s.interfaces && Announceable(s, port, ip)
  {
    var keep := (ip: Ip) => Announceable(s, port, ip);
    DistinctMembers(Filter(s.interfaces, keep));
    FilterMembers(s.interfaces, keep, ip);
  }

  lemma FallbackAddrsMembers(s: Snapshot, port: U16, ip: Ip)
    ensures ip in FallbackAddrs(s, port) <==> exists c | c in DirectOf(s) :: c.ip == ip && Fallback(s, port, c)
  {
    var keep := (c: Socket) => Fallback(s, port, c);
    var kept := Filter(DirectOf(s), keep);
    var ips := Map(kept, (c: Socket) => c.ip);
    DistinctMembers(ips);
    if ip in ips {
      var i :| 0 <= i < |ips| && ips[i] == ip;
      FilterMembers(DirectOf(s), keep, kept[i]);
    }
    if c :| c in DirectOf(s) && c.ip == ip && Fallback(s, port, c) {
      FilterMembers(DirectOf(s), keep, c);
      var i :| 0 <= i < |kept| && kept[i] == c;
      assert ips[i] == ip;
    }
  }

  /** An announceable interface, paired with the port, is itself a direct candidate. */
  lemma AnnounceableIsDirect(s: Snapshot, port: U16, ip: Ip)
    requires ip in s.interfaces && Announceable(s, port, ip) && !IsPlaceholder(port)
    ensures NewSocket(ip, port) in DirectOf(s)
  {
    var b :| b in s.bound && b.port == port && Eligible(DirectOf(s), ip, b);
    FindFirstFinds(s.bound, (b: Socket) => Covers(b, ip) && !IsPlaceholder(b.port));
    var c := FromInterface(s.bound, ip).value;
    DirectMembers(Reconciled(s), s.bound, s.interfaces, c);
    assert c in DirectOf(s);
  }

  /** Every published A/AAAA address, paired with the SRV port, is one of the advertiser's
      direct candidates up to its scope, and is backed by a same-family bound socket with that
      real port.  */
  lemma PublishedAddrsAreBacked(codec: Codec, instance: string, s: Snapshot)
    requires Config(codec, instance, s).Some?
    ensures var config := Config(codec, instance, s).value;
            forall ip | ip in config.addrs ::
              && (exists c | c in DirectOf(s) :: c.ip == ip && c.port == config.port)
              && (exists b | b in s.bound :: b.port == config.port && Covers(b, ip) && !IsPlaceholder(b.port))
  {
    FailsIffNoRealPort(codec, instance, s);
    var config := Config(codec, instance, s).value;
    forall ip | ip in config.addrs
      ensures exists c | c in DirectOf(s) :: c.ip == ip && c.port == config.port
      ensures exists b | b in s.bound :: b.port == config.port && Covers(b, ip) && !IsPlaceholder(b.port)
    {
      if InterfaceAddrs(s, config.port) != [] {
        InterfaceAddrsMembers(s, config.port, ip);
        AnnounceableIsDirect(s, config.port, ip);
      } else {
        FallbackAddrsMembers(s, config.port, ip);
      }
    }
  }

  /** `addrs` is empty exactly when no real-port listener has an eligible interface or
      backs a direct candidate.  */
  lemma AddrsEmptyIffUnbacked(codec: Codec, instance: string, s: Snapshot)
    requires Config(codec, instance, s).Some?
    ensures Config(codec, instance, s).value.addrs == [] <==>
              forall b | b in s.bound :: !HasEligible(s, b) && !HasCandidate(s, b)
  {
    FindFirstFinds(s.bound, (b: Socket) => HasEligible(s, b));
    FindFirstFinds(s.bound, (b: Socket) => HasCandidate(s, b));
    FindFirstFinds(s.bound, (b: Socket) => !IsPlaceholder(b.port));
    var config := Config(codec, instance, s).value;
    if b :| b in s.bound && HasEligible(s, b) {
      var chosen := SrvBound(s).value;
      var ip :| ip in s.interfaces && Eligible(DirectOf(s), ip, chosen);
      assert Announceable(s, config.port, ip);
      InterfaceAddrsMembers(s, config.port, ip);
    } else if b :| b in s.bound && HasCandidate(s, b) {
      var chosen := SrvBound(s).value;
      var c :| c in DirectOf(s) && BacksCandidate(chosen, c);
      FallbackAddrsMembers(s, config.port, c.ip);
    } else if config.addrs != [] {
      PublishedHasListener(codec, instance, s, config.addrs[0]);
    }
  }

  lemma PublishedHasListener(codec: Codec, instance: string, s: Snapshot, ip: Ip)
    requires Config(codec, instance, s).Some? && ip in Config(codec, instance, s).value.addrs
    ensures exists b | b in s.bound :: HasEligible(s, b) || HasCandidate(s, b)
  {
    FailsIffNoRealPort(codec, instance, s);
    var port := Config(codec, instance, s).value.port;
    if InterfaceAddrs(s, port) != [] {
      InterfaceAddrsMembers(s, port, ip);
      var b :| b in s.bound && b.port == port && Eligible(DirectOf(s), ip, b);
      assert HasEligible(s, b);
    } else {
      FallbackAddrsMembers(s, port, ip);
      var c :| c in DirectOf(s) && c.ip == ip && Fallback(s, port, c);
      var b :| b in s.bound && BacksCandidate(b, c);
      assert HasCandidate(s, b);
    }
  }

  // ── Scopes ──────────────────────────────────────────────────────────────────

  /** The listener port an address without a real port of its own borrows. */
  predicate Borrows(s: Snapshot, ip: Ip, port: U16) {
    IsRoutable(ip) && var b := CompatibleBound(s.bound, ip); b.Some? && b.value.port == port
  }

  /** Some input yields this address with this port and no scope: an endpoint candidate that is
      just that, or a placeholder candidate or live interface that borrows the port.  */
  predicate Unscoped(s: Snapshot, ip: Ip, port: U16) {
    || (IsRoutable(ip) && NewSocket(ip, port) in Reconciled(s))
    || (Borrows(s, ip, port) && (ip in s.interfaces || exists a | a in Reconciled(s) :: a.ip == ip && IsPlaceholder(a.port)))
  }

  lemma UnscopedIffDirect(s: Snapshot, ip: Ip, port: U16)
    requires !IsPlaceholder(port)
    ensures NewSocket(ip, port) in DirectOf(s) <==> Unscoped(s, ip, port)
  {
    var c := NewSocket(ip, port);
    DirectMembers(Reconciled(s), s.bound, s.interfaces, c);
    if a :| a in Reconciled(s) && FromEndpoint(s.bound, a) == Some(c) {
      assert a == c || IsPlaceholder(a.port) || !IsRoutable(a.ip);
    }
    if c in Reconciled(s) && IsRoutable(ip) { assert FromEndpoint(s.bound, c) == Some(c); }
    if Borrows(s, ip, port) {
      assert FromInterface(s.bound, ip) == Some(c);
      if a :| a in Reconciled(s) && a.ip == ip && IsPlaceholder(a.port) {
        assert FromEndpoint(s.bound, a) == Some(c);
      }
    }
  }

  /** A published address with the SRV port is a direct candidate as it stands exactly when some
      input yields it without a scope; otherwise the candidate behind it carries one.  */
  lemma PublishedIsCandidateIff(codec: Codec, instance: string, s: Snapshot, ip: Ip)
    requires Config(codec, instance, s).Some? && ip in Config(codec, instance, s).value.addrs
    ensures var port := Config(codec, instance, s).value.port;
            && (NewSocket(ip, port) in DirectOf(s) <==> Unscoped(s, ip, port))
            && (!Unscoped(s, ip, port) ==> exists c | c in DirectOf(s) :: c.ip == ip && c.port == port && c.scope != 0)
  {
    FailsIffNoRealPort(codec, instance, s);
    PublishedAddrsAreBacked(codec, instance, s);
    UnscopedIffDirect(s, ip, Config(codec, instance, s).value.port);
  }

  /** So it always is when no endpoint candidate carries a scope. */
  lemma WithoutScopesPublishedAreCandidates(codec: Codec, instance: string, s: Snapshot, ip: Ip)
    requires Config(codec, instance, s).Some? && ip in Config(codec, instance, s).value.addrs
    requires forall a | a in s.node.ipAddrs :: a.scope == 0
    ensures NewSocket(ip, Config(codec, instance, s).value.port) in DirectOf(s)
  {
    PublishedAddrsAreBacked(codec, instance, s);
    var port := Config(codec, instance, s).value.port;
    var c :| c in DirectOf(s) && c.ip == ip && c.port == port;
    NoScopesIn(s, c);
    assert c == NewSocket(ip, port);
  }

  lemma NoScopesIn(s: Snapshot, c: Socket)
    requires c in DirectOf(s) && forall a | a in s.node.ipAddrs :: a.scope == 0
    ensures c.scope == 0
  {
    DirectMembers(Reconciled(s), s.bound, s.interfaces, c);
    if a :| a in Reconciled(s) && FromEndpoint(s.bound, a) == Some(c) {
      FilterMembers(s.node.ipAddrs, (a: Socket) => a.ip !in s.knownLocal || a.ip in s.interfaces, a);
    }
  }

  /** An endpoint with one scoped candidate, a wildcard listener on its port, and no interfaces. */
  function ScopedOnly(ip: Ip, port: U16, scope: U32): Snapshot
    requires ip.V6?
  {
    Snapshot([NewSocket(V6(0, 0, 0, 0, 0, 0, 0, 0), port)], NodeAddr([Socket(ip, port, scope)], []), [], [])
  }

  /** It publishes the address, and the address with the SRV port is no candidate. */
  lemma ScopedIsPublishedUnscoped(codec: Codec, instance: string, ip: Ip, port: U16, scope: U32)
    requires ip.V6? && IsRoutable(ip) && !IsPlaceholder(port) && scope != 0
    ensures var s := ScopedOnly(ip, port, scope);
            && DirectOf(s) == [Socket(ip, port, scope)]
            && Config(codec, instance, s).Some? && Config(codec, instance, s).value.port == port
            && Config(codec, instance, s).value.addrs == [ip]
            && NewSocket(ip, port) !in DirectOf(s)
  {
    var s, c: Socket := ScopedOnly(ip, port, scope), Socket(ip, port, scope);
    var b := s.bound[0];
    OneCandidate(s, c);
    FailsIffNoRealPort(codec, instance, s);
    FindFirstFinds(s.bound, (b: Socket) => HasEligible(s, b));
    FindFirstFinds(s.bound, (b: Socket) => HasCandidate(s, b));
    FindFirstFinds(s.bound, (b: Socket) => !IsPlaceholder(b.port));
    assert SrvBound(s) == Some(b);
    var keep := (c: Socket) => Fallback(s, port, c);
    assert Fallback(s, port, c) by { assert b in s.bound && BacksCandidate(b, c); }
    OneKept(c, keep);
    assert InterfaceAddrs(s, port) == [];
    assert FallbackAddrs(s, port) == Distinct(Map([c], (c: Socket) => c.ip));
    assert Map([c], (c: Socket) => c.ip) == [ip];
    assert [ip][..0] == [];
    assert Distinct([ip]) == [ip];
  }

  lemma OneKept<T>(x: T, keep: T -> bool)
    requires keep(x)
    ensures Filter([x], keep) == [x]
  {
    assert [x][1..] == [];
  }

  lemma OneCandidate(s: Snapshot, c: Socket)
    requires s.node.ipAddrs == [c] && s.interfaces == [] && s.knownLocal == [] && IsRoutable(c.ip) && !IsPlaceholder(c.port)
    ensures DirectOf(s) == [c]
  {
    OneKept(c, (a: Socket) => a.ip !in s.knownLocal || a.ip in s.interfaces);
    var options := EndpointOptions([c], s.bound) + InterfaceOptions([], s.bound);
    assert options == [Some(c)];
    assert options[1..] == [];
    assert Present(options) == [c];
    assert [c][..0] == [];
    assert Distinct([c]) == [c];
  }
}
