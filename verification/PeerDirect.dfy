/** `peer_direct_addresses`: the dialable direct candidates of an endpoint. */
module PeerDirect {
  import opened Common
  import opened Sequences
  import opened NetAddr

  /** The listener serves this IP: same family, wildcard or exactly this address. */
  predicate Covers(bound: Socket, ip: Ip) {
    bound.ip.V6? == ip.V6? && (IsUnspecified(bound.ip) || bound.ip == ip)
  }

  function CompatibleBound(bound: seq<Socket>, ip: Ip): Option<Socket> {
    FindFirst(bound, (b: Socket) => Covers(b, ip) && !IsPlaceholder(b.port))
  }

  /** An interface address paired with the port of the first listener that serves it. */
  function FromInterface(bound: seq<Socket>, ip: Ip): Option<Socket> {
    if !IsRoutable(ip) then None
    else
      var b := CompatibleBound(bound, ip);
      if b.None? then None else Some(NewSocket(ip, b.value.port))
  }

  /** An endpoint candidate: a real port is authoritative, a placeholder borrows one. */
  function FromEndpoint(bound: seq<Socket>, addr: Socket): Option<Socket> {
    if IsRoutable(addr.ip) && !IsPlaceholder(addr.port) then Some(addr) else FromInterface(bound, addr.ip)
  }

  function Present<T>(options: seq<Option<T>>): seq<T> {
    if options == [] then [] else (if options[0].Some? then [options[0].value] else []) + Present(options[1..])
  }

  lemma {:induction false} PresentAppends<T>(a: seq<Option<T>>, b: seq<Option<T>>)
    ensures Present(a + b) == Present(a) + Present(b)
  {
    if a == [] {
      assert a + b == b;
    } else {
      assert (a + b)[1..] == a[1..] + b;
      PresentAppends(a[1..], b);
      Associates(if a[0].Some? then [a[0].value] else [], Present(a[1..]), Present(b));
    }
  }

  lemma {:induction false} PresentMembers<T>(options: seq<Option<T>>, x: T)
    ensures x in Present(options) <==> Some(x) in options
  {
    if options != [] {
      PresentMembers(options[1..], x);
      assert Some(x) in options <==> Some(x) == options[0] || Some(x) in options[1..];
    }
  }

  function EndpointOptions(addrs: seq<Socket>, bound: seq<Socket>): seq<Option<Socket>> {
    Map(addrs, (a: Socket) => FromEndpoint(bound, a))
  }

  function InterfaceOptions(ips: seq<Ip>, bound: seq<Socket>): seq<Option<Socket>> {
    Map(ips, (ip: Ip) => FromInterface(bound, ip))
  }

  /** Endpoint order first, then interface order, first occurrences only. */
  function Direct(addrs: seq<Socket>, bound: seq<Socket>, ips: seq<Ip>): seq<Socket> {
    Distinct(Present(EndpointOptions(addrs, bound) + InterfaceOptions(ips, bound)))
  }

  function Select(selected: seq<Socket>, candidate: Option<Socket>): seq<Socket> {
    if candidate.Some? then AddNew(selected, candidate.value) else selected
  }

  /** The body of the loop over the endpoint's own candidates. */
  method SelectEndpoint(selected: seq<Socket>, addr: Socket, bound: seq<Socket>) returns (more: seq<Socket>)
    ensures more == Select(selected, FromEndpoint(bound, addr))
  {
    more := selected;
    if IsRoutable(addr.ip) {
      if IsPlaceholder(addr.port) {
        var b := CompatibleBound(bound, addr.ip);
        if b.Some? {
          more := AddNew(more, NewSocket(addr.ip, b.value.port));
        }
      } else {
        more := AddNew(more, addr);
      }
    }
  }

  /** The body of the loop over the interface addresses. */
  method SelectInterface(selected: seq<Socket>, ip: Ip, bound: seq<Socket>) returns (more: seq<Socket>)
    ensures more == Select(selected, FromInterface(bound, ip))
  {
    more := selected;
    if IsRoutable(ip) {
      var b := CompatibleBound(bound, ip);
      if b.Some? {
        more := AddNew(more, NewSocket(ip, b.value.port));
      }
    }
  }

  /** `all` lists the candidate each loop round considers, in order. */
  ghost predicate Considers(all: seq<Option<Socket>>, addrs: seq<Socket>, bound: seq<Socket>, ips: seq<Ip>) {
    && |all| == |addrs| + |ips|
    && (forall i | 0 <= i < |addrs| :: all[i] == FromEndpoint(bound, addrs[i]))
    && (forall i | 0 <= i < |ips| :: all[|addrs| + i] == FromInterface(bound, ips[i]))
  }

  method PeerDirectAddresses(addrs: seq<Socket>, bound: seq<Socket>, ips: seq<Ip>) returns (selected: seq<Socket>)
    ensures selected == Direct(addrs, bound, ips)
  {
    ghost var all := EndpointOptions(addrs, bound) + InterfaceOptions(ips, bound);
    assert Considers(all, addrs, bound, ips);
    selected := SelectAll(all, addrs, bound, ips);
    ChosenAreDistinct(all, |all|);
    assert all[..|all|] == all;
  }

  /** The two loops. */
  method SelectAll(ghost all: seq<Option<Socket>>, addrs: seq<Socket>, bound: seq<Socket>, ips: seq<Ip>)
    returns (selected: seq<Socket>)
    requires Considers(all, addrs, bound, ips)
    ensures selected == Chosen(all, |all|)
  {
    selected := [];
    for i := 0 to |addrs|
      invariant selected == Chosen(all, i)
    {
      selected := SelectEndpoint(selected, addrs[i], bound);
    }
    for i := 0 to |ips|
      invariant selected == Chosen(all, |addrs| + i)
    {
      assert all[|addrs| + i] == FromInterface(bound, ips[i]);
      selected := SelectInterface(selected, ips[i], bound);
    }
  }

  /** The selection after `k` candidates, as the loops build it. */
  function Chosen<T(==)>(options: seq<Option<T>>, k: nat): seq<T>
    requires k <= |options|
  {
    if k == 0 then []
    else if options[k - 1].Some? then AddNew(Chosen(options, k - 1), options[k - 1].value)
    else Chosen(options, k - 1)
  }

  lemma PresentSnoc<T>(front: seq<Option<T>>, last: Option<T>)
    ensures Present(front + [last]) == if last.Some? then Present(front) + [last.value] else Present(front)
  {
    PresentAppends(front, [last]);
    assert [last][1..] == [];
    assert Present(front) + [] == Present(front);
  }

  lemma DistinctSnoc<T>(s: seq<T>, x: T)
    ensures Distinct(s + [x]) == AddNew(Distinct(s), x)
  {
    assert (s + [x])[..|s|] == s;
  }

  lemma {:induction false} ChosenAreDistinct<T>(options: seq<Option<T>>, k: nat)
    requires k <= |options|
    ensures Chosen(options, k) == Distinct(Present(options[..k]))
  {
    if k > 0 {
      ChosenAreDistinct(options, k - 1);
      assert options[..k] == options[..k - 1] + [options[k - 1]];
      PresentSnoc(options[..k - 1], options[k - 1]);
      if options[k - 1].Some? { DistinctSnoc(Present(options[..k - 1]), options[k - 1].value); }
    }
  }

  // ── Meaning ─────────────────────────────────────────────────────────────────

  /** Membership, both ways: exactly the routable endpoint candidates with their real or
      borrowed port, and the routable interfaces some listener serves.  */
  lemma DirectMembers(addrs: seq<Socket>, bound: seq<Socket>, ips: seq<Ip>, c: Socket)
    ensures c in Direct(addrs, bound, ips) <==>
              || (exists a | a in addrs :: FromEndpoint(bound, a) == Some(c))
              || (exists ip | ip in ips :: FromInterface(bound, ip) == Some(c))
  {
    var e, f := EndpointOptions(addrs, bound), InterfaceOptions(ips, bound);
    DistinctMembers(Present(e + f));
    PresentMembers(e + f, c);
    assert Some(c) in e + f <==> Some(c) in e || Some(c) in f;
    if a :| a in addrs && FromEndpoint(bound, a) == Some(c) {
      var i :| 0 <= i < |addrs| && addrs[i] == a;
      assert e[i] == Some(c);
    }
    if Some(c) in e {
      var i :| 0 <= i < |e| && e[i] == Some(c);
      assert addrs[i] in addrs && FromEndpoint(bound, addrs[i]) == Some(c);
    }
    if ip :| ip in ips && FromInterface(bound, ip) == Some(c) {
      var i :| 0 <= i < |ips| && ips[i] == ip;
      assert f[i] == Some(c);
    }
    if Some(c) in f {
      var i :| 0 <= i < |f| && f[i] == Some(c);
      assert ips[i] in ips && FromInterface(bound, ips[i]) == Some(c);
    }
  }

  lemma BorrowedPortIsReal(bound: seq<Socket>, ip: Ip)
    ensures FromInterface(bound, ip).Some? ==>
              var c := FromInterface(bound, ip).value;
              c.ip == ip && IsRoutable(ip) && !IsPlaceholder(c.port)
              && exists b | b in bound :: b.port == c.port && Covers(b, ip)
  {
    FindFirstFinds(bound, (b: Socket) => Covers(b, ip) && !IsPlaceholder(b.port));
  }

  /** No duplicates; only routable addresses with real ports; every one comes from a
      supplied endpoint candidate or interface address.  */
  lemma DirectIsDialable(addrs: seq<Socket>, bound: seq<Socket>, ips: seq<Ip>)
    ensures NoDuplicates(Direct(addrs, bound, ips))
    ensures forall c | c in Direct(addrs, bound, ips) ::
              && IsRoutable(c.ip) && !IsPlaceholder(c.port)
              && ((exists a | a in addrs :: a.ip == c.ip) || c.ip in ips)
  {
    DistinctMembers(Present(EndpointOptions(addrs, bound) + InterfaceOptions(ips, bound)));
    forall c | c in Direct(addrs, bound, ips)
      ensures IsRoutable(c.ip) && !IsPlaceholder(c.port) && ((exists a | a in addrs :: a.ip == c.ip) || c.ip in ips)
    {
      DirectMembers(addrs, bound, ips, c);
      if a :| a in addrs && FromEndpoint(bound, a) == Some(c) {
        BorrowedPortIsReal(bound, a.ip);
      } else {
        var ip :| ip in ips && FromInterface(bound, ip) == Some(c);
        BorrowedPortIsReal(bound, ip);
      }
    }
  }

  lemma {:induction false} KeepsAll(addrs: seq<Socket>, bound: seq<Socket>)
    requires forall a | a in addrs :: IsRoutable(a.ip) && !IsPlaceholder(a.port)
    ensures Present(EndpointOptions(addrs, bound)) == addrs
  {
    if addrs != [] {
      assert addrs[0] in addrs;
      KeepsAll(addrs[1..], bound);
      assert EndpointOptions(addrs, bound)[1..] == EndpointOptions(addrs[1..], bound);
    }
  }

  /** Selecting again from a selection changes nothing. */
  lemma DirectIsIdempotent(addrs: seq<Socket>, bound: seq<Socket>, ips: seq<Ip>)
    ensures Direct(Direct(addrs, bound, ips), bound, ips) == Direct(addrs, bound, ips)
  {
    var d := Direct(addrs, bound, ips);
    var f := InterfaceOptions(ips, bound);
    DirectIsDialable(addrs, bound, ips);
    KeepsAll(d, bound);
    PresentAppends(EndpointOptions(d, bound), f);
    forall c | c in Present(f) ensures c in d {
      PresentMembers(f, c);
      var i :| 0 <= i < |f| && f[i] == Some(c);
      assert ips[i] in ips && FromInterface(bound, ips[i]) == Some(c);
      DirectMembers(addrs, bound, ips, c);
    }
    DistinctAbsorbs(d, Present(f));
    DistinctOfDistinct(d);
  }
}
