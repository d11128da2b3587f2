/** The literal acceptors that guard the dialer: `isIpv4Literal`, `isIpv6Literal` and
    `isDialableSocketAddr`.

    An IPv6 literal is characterised by the text forms of section 2.2 of RFC 4291: eight
    groups, one run of groups compressed to "::", and an IPv4 address in place of the last
    two groups.  */
module IpLiteral {
  import opened Common
  import D = Decimal
  import T = Text

  // ── IPv4 ────────────────────────────────────────────────────────────────────

  predicate IsOctet(o: string) {
    && 1 <= |o| <= 3 && D.AllDigits(o)
    && !(|o| > 1 && o[0] == '0')
    && D.Read(o) <= 255
  }

  predicate IsIpv4Literal(h: string) {
    var octets := T.Split(h, '.');
    |octets| == 4 && forall i | 0 <= i < 4 :: IsOctet(octets[i])
  }

  /** Four numbers up to 255, in canonical decimal, with dots between them. */
  function ShowIpv4(a: nat, b: nat, c: nat, d: nat): string {
    T.Join([D.Show(a), D.Show(b), D.Show(c), D.Show(d)], '.')
  }

  lemma OctetIsByte(o: string)
    requires IsOctet(o)
    ensures D.Show(D.Read(o)) == o
  {
    D.ShowRead(o);
  }

  lemma ByteIsOctet(n: nat)
    requires n <= 255
    ensures IsOctet(D.Show(n)) && '.' !in D.Show(n)
  {
    D.ReadShow(n);
    assert D.Pow10(3) == 1000;
    D.ShowLength(n, 3);
  }

  predicate IsByte(n: nat) {
    n <= 255
  }

  lemma ShownIpv4IsLiteral(a: nat, b: nat, c: nat, d: nat)
    requires IsByte(a) && IsByte(b) && IsByte(c) && IsByte(d)
    ensures IsIpv4Literal(ShowIpv4(a, b, c, d))
  {
    ByteIsOctet(a);
    ByteIsOctet(b);
    ByteIsOctet(c);
    ByteIsOctet(d);
    T.SplitJoin([D.Show(a), D.Show(b), D.Show(c), D.Show(d)], '.');
  }

  lemma OctetsAreBytes(o: seq<string>)
    requires |o| == 4 && IsOctet(o[0]) && IsOctet(o[1]) && IsOctet(o[2]) && IsOctet(o[3])
    ensures ShowIpv4(D.Read(o[0]), D.Read(o[1]), D.Read(o[2]), D.Read(o[3])) == T.Join(o, '.')
  {
    OctetIsByte(o[0]);
    OctetIsByte(o[1]);
    OctetIsByte(o[2]);
    OctetIsByte(o[3]);
    assert o == [o[0], o[1], o[2], o[3]];
  }

  lemma LiteralIsShownIpv4(h: string) returns (a: nat, b: nat, c: nat, d: nat)
    requires IsIpv4Literal(h)
    ensures IsByte(a) && IsByte(b) && IsByte(c) && IsByte(d) && h == ShowIpv4(a, b, c, d)
  {
    var o := T.Split(h, '.');
    T.JoinSplit(h, '.');
    OctetsAreBytes(o);
    a, b, c, d := D.Read(o[0]), D.Read(o[1]), D.Read(o[2]), D.Read(o[3]);
  }

  /** The accepted texts are exactly the canonical texts of IPv4 addresses. */
  lemma Ipv4LiteralIff(h: string)
    ensures IsIpv4Literal(h) <==>
            exists a: nat, b: nat, c: nat, d: nat ::
              IsByte(a) && IsByte(b) && IsByte(c) && IsByte(d) && h == ShowIpv4(a, b, c, d)
  {
    if IsIpv4Literal(h) {
      var a, b, c, d := LiteralIsShownIpv4(h);
    }
    if a: nat, b: nat, c: nat, d: nat :|
      IsByte(a) && IsByte(b) && IsByte(c) && IsByte(d) && h == ShowIpv4(a, b, c, d)
    {
      ShownIpv4IsLiteral(a, b, c, d);
    }
  }

  // ── Splitting on "::" ───────────────────────────────────────────────────────

  predicate StartsDouble(s: string) {
    |s| >= 2 && s[0] == ':' && s[1] == ':'
  }

  /** JavaScript's `split("::")`: leftmost, without overlap. */
  function SplitDouble(s: string): (pieces: seq<string>)
    ensures |pieces| >= 1
    decreases |s|
  {
    if s == [] then [[]]
    else if StartsDouble(s) then [[]] + SplitDouble(s[2..])
    else
      var rest := SplitDouble(s[1..]);
      [[s[0]] + rest[0]] + rest[1..]
  }

  function JoinDouble(pieces: seq<string>): string {
    if pieces == [] then [] else if |pieces| == 1 then pieces[0] else pieces[0] + "::" + JoinDouble(pieces[1..])
  }

  lemma JoinDoublePrepends(c: char, pieces: seq<string>)
    requires pieces != []
    ensures JoinDouble([[c] + pieces[0]] + pieces[1..]) == [c] + JoinDouble(pieces)
  {
    var longer := [[c] + pieces[0]] + pieces[1..];
    assert longer[1..] == pieces[1..];
    if |pieces| > 1 {
      var tail := "::" + JoinDouble(pieces[1..]);
      assert ([c] + pieces[0]) + tail == [c] + (pieces[0] + tail);
      assert JoinDouble(longer) == ([c] + pieces[0]) + tail && JoinDouble(pieces) == pieces[0] + tail;
    }
  }

  lemma {:induction false} JoinSplitDouble(s: string)
    ensures JoinDouble(SplitDouble(s)) == s
    decreases |s|
  {
    if s == [] {
    } else if StartsDouble(s) {
      JoinSplitDouble(s[2..]);
      assert SplitDouble(s)[1..] == SplitDouble(s[2..]);
      assert [] + "::" + s[2..] == s;
    } else {
      JoinSplitDouble(s[1..]);
      JoinDoublePrepends(s[0], SplitDouble(s[1..]));
      assert [s[0]] + s[1..] == s;
    }
  }

  /** No two colons stand side by side. */
  predicate NoDouble(s: string) {
    forall i | 0 <= i < |s| - 1 :: s[i] == ':' ==> s[i + 1] != ':'
  }

  predicate EndsInColon(s: string) {
    s != [] && s[|s| - 1] == ':'
  }

  lemma {:induction false} SplitWithoutDouble(s: string)
    requires NoDouble(s)
    ensures SplitDouble(s) == [s]
    decreases |s|
  {
    if s != [] {
      assert !StartsDouble(s) by { if |s| >= 2 && s[0] == ':' { assert s[0 + 1] != ':'; } }
      assert NoDouble(s[1..]) by {
        forall i | 0 <= i < |s[1..]| - 1 && s[1..][i] == ':'
          ensures s[1..][i + 1] != ':'
        {
          assert s[i + 1] == ':';
        }
      }
      SplitWithoutDouble(s[1..]);
      assert [s[0]] + s[1..] == s;
    }
  }

  lemma {:induction false} SplitAtDouble(a: string, b: string)
    requires NoDouble(a) && !EndsInColon(a)
    ensures SplitDouble(a + "::" + b) == [a] + SplitDouble(b)
    decreases |a|
  {
    var s := a + "::" + b;
    if a == [] {
      assert s[2..] == b;
    } else {
      assert s[1..] == a[1..] + "::" + b && s[0] == a[0];
      assert !StartsDouble(s) by { if a[0] == ':' && |a| > 1 { assert a[0 + 1] != ':'; } }
      assert NoDouble(a[1..]) by {
        forall i | 0 <= i < |a[1..]| - 1 && a[1..][i] == ':'
          ensures a[1..][i + 1] != ':'
        {
          assert a[i + 1] == ':';
        }
      }
      SplitAtDouble(a[1..], b);
      assert [a[0]] + a[1..] == a;
    }
  }

  // ── IPv6 ────────────────────────────────────────────────────────────────────

  predicate IsHex(c: char) {
    '0' <= c <= '9' || 'A' <= c <= 'F' || 'a' <= c <= 'f'
  }

  predicate IsHexGroup(g: string) {
    1 <= |g| <= 4 && forall i | 0 <= i < |g| :: IsHex(g[i])
  }

  predicate IsLegalChar(c: char) {
    IsHex(c) || c == ':' || c == '.'
  }

  /** A literal taken apart: the groups of an address written in full, or those before and
      after the "::".  */
  datatype Literal = Full(groups: seq<string>) | Compressed(head: seq<string>, tail: seq<string>)

  function ShowLiteral(lit: Literal): string {
    match lit
    case Full(groups) => T.Join(groups, ':')
    case Compressed(head, tail) => T.Join(head, ':') + "::" + T.Join(tail, ':')
  }

  function Groups(lit: Literal): seq<string> {
    match lit
    case Full(groups) => groups
    case Compressed(head, tail) => head + tail
  }

  function SplitGroups(half: string): seq<string> {
    if half == "" then [] else T.Split(half, ':')
  }

  /** How the code takes a text apart; `None` when it finds a second "::". */
  function TakeApart(h: string): Option<Literal> {
    var halves := SplitDouble(h);
    if |halves| > 2 then None
    else if |halves| == 2 then Some(Compressed(SplitGroups(halves[0]), SplitGroups(halves[1])))
    else Some(Full(SplitGroups(halves[0])))
  }

  /** The loop's test on one group: only the last of all may be an IPv4 address. */
  predicate GroupOk(groups: seq<string>, i: nat)
    requires i < |groups|
  {
    if i == |groups| - 1 && '.' in groups[i] then IsIpv4Literal(groups[i]) else IsHexGroup(groups[i])
  }

  predicate GroupsOk(groups: seq<string>) {
    forall i | 0 <= i < |groups| :: GroupOk(groups, i)
  }

  /** 16-bit groups taken; an embedded IPv4 address takes two. */
  function Units(groups: seq<string>): nat {
    |groups| + (if groups != [] && '.' in groups[|groups| - 1] then 1 else 0)
  }

  predicate Accepted(lit: Literal) {
    && GroupsOk(Groups(lit))
    && if lit.Compressed? then Units(Groups(lit)) <= 7 else Units(Groups(lit)) == 8
  }

  predicate AcceptsIpv6(h: string) {
    var lit := TakeApart(h);
    lit.Some? && Accepted(lit.value)
  }

  method IsIpv6Literal(h: string) returns (ok: bool)
    ensures ok <==> AcceptsIpv6(h)
  {
    if |h| == 0 || exists i :: 0 <= i < |h| && !IsLegalChar(h[i]) {
      RejectedEarly(h);
      return false;
    }
    var halves := SplitDouble(h);
    if |halves| > 2 { return false; }
    var compressed := |halves| == 2;
    var head := if halves[0] == "" then [] else T.Split(halves[0], ':');
    var tail := if compressed && halves[1] != "" then T.Split(halves[1], ':') else [];
    var groups := head + tail;
    assert TakeApart(h).Some? && Groups(TakeApart(h).value) == groups;
    var count := CountUnits(groups);
    return count.Some? && if compressed then count.value <= 7 else count.value == 8;
  }

  /** The loop over the groups: how many 16-bit groups they take, `None` for a bad one. */
  method CountUnits(groups: seq<string>) returns (total: Option<nat>)
    ensures total == if GroupsOk(groups) then Some(Units(groups)) else None
  {
    var count := 0;
    for i := 0 to |groups|
      invariant forall k | 0 <= k < i :: GroupOk(groups, k)
      invariant count == if i == |groups| then Units(groups) else i
    {
      var g, isLast := groups[i], i == |groups| - 1;
      if isLast && '.' in g {
        if !IsIpv4Literal(g) { assert !GroupOk(groups, i); return None; }
        count := count + 2;
      } else {
        if !IsHexGroup(g) { assert !GroupOk(groups, i); return None; }
        count := count + 1;
      }
    }
    return Some(count);
  }

  // ── Groups and their text ───────────────────────────────────────────────────

  /** Neither empty nor holding a colon. */
  predicate IsPlain(g: string) {
    g != [] && ':' !in g
  }

  predicate AllPlain(groups: seq<string>) {
    forall i | 0 <= i < |groups| :: IsPlain(groups[i])
  }

  lemma OkIsPlain(groups: seq<string>)
    requires GroupsOk(groups)
    ensures AllPlain(groups)
    ensures forall i | 0 <= i < |groups| :: forall c | c in groups[i] :: IsLegalChar(c)
  {
    forall i | 0 <= i < |groups|
      ensures IsPlain(groups[i]) && forall c | c in groups[i] :: IsLegalChar(c)
    {
      assert GroupOk(groups, i);
      if IsIpv4Literal(groups[i]) { Ipv4Chars(groups[i]); }
    }
  }

  lemma Ipv4Chars(h: string)
    requires IsIpv4Literal(h)
    ensures '.' in h && forall c | c in h :: D.IsDigit(c) || c == '.'
  {
    var o := T.Split(h, '.');
    T.JoinSplit(h, '.');
    assert h[|o[0]|] == '.';
    forall c | c in h && c != '.'
      ensures D.IsDigit(c)
    {
      JoinedChars(o, '.', c);
      var i :| 0 <= i < |o| && c in o[i];
      assert IsOctet(o[i]);
    }
  }

  lemma {:induction false} JoinedChars(pieces: seq<string>, sep: char, c: char)
    requires c in T.Join(pieces, sep) && c != sep
    ensures exists i :: 0 <= i < |pieces| && c in pieces[i]
    decreases |pieces|
  {
    if c in pieces[0] {
    } else {
      JoinedChars(pieces[1..], sep, c);
      var i :| 0 <= i < |pieces[1..]| && c in pieces[1..][i];
      assert pieces[i + 1] == pieces[1..][i];
    }
  }

  /** Joined plain groups neither hold "::" nor begin or end with a colon. */
  lemma {:induction false} JoinedPlain(groups: seq<string>)
    requires AllPlain(groups)
    ensures var s := T.Join(groups, ':');
            NoDouble(s) && !EndsInColon(s) && (s == [] <==> groups == []) && (s != [] ==> s[0] != ':')
    decreases |groups|
  {
    if |groups| == 1 {
      assert IsPlain(groups[0]);
    } else if groups != [] {
      assert IsPlain(groups[0]);
      JoinedPlain(groups[1..]);
      PlainThenColon(groups[0], T.Join(groups[1..], ':'));
    }
  }

  lemma PlainThenColon(g: string, s: string)
    requires IsPlain(g) && NoDouble(s) && !EndsInColon(s) && s != [] && s[0] != ':'
    ensures var t := g + [':'] + s; NoDouble(t) && !EndsInColon(t) && t[0] != ':'
  {
    var t := g + [':'] + s;
    forall i | 0 <= i < |t| - 1 && t[i] == ':'
      ensures t[i + 1] != ':'
    {
      if i > |g| { assert s[i - |g| - 1] == ':'; }
    }
  }

  /** Splitting undoes joining for plain groups. */
  lemma SplitsBack(groups: seq<string>)
    requires AllPlain(groups)
    ensures SplitGroups(T.Join(groups, ':')) == groups
  {
    JoinedPlain(groups);
    if groups != [] { T.SplitJoin(groups, ':'); }
  }

  /** A literal is taken apart into exactly the groups it was put together from. */
  lemma TakesApart(lit: Literal)
    requires AllPlain(Groups(lit))
    ensures TakeApart(ShowLiteral(lit)) == Some(lit)
  {
    match lit
    case Full(groups) =>
      JoinedPlain(groups);
      SplitWithoutDouble(T.Join(groups, ':'));
      SplitsBack(groups);
    case Compressed(head, tail) =>
      PlainParts(head, tail);
      JoinedPlain(head);
      JoinedPlain(tail);
      SplitAtDouble(T.Join(head, ':'), T.Join(tail, ':'));
      SplitWithoutDouble(T.Join(tail, ':'));
      SplitsBack(head);
      SplitsBack(tail);
  }

  lemma PlainParts(head: seq<string>, tail: seq<string>)
    requires AllPlain(head + tail)
    ensures AllPlain(head) && AllPlain(tail)
  {
    assert forall i | 0 <= i < |head| :: (head + tail)[i] == head[i];
    assert forall i | 0 <= i < |tail| :: (head + tail)[|head| + i] == tail[i];
  }

  lemma PutsTogether(h: string)
    requires TakeApart(h).Some?
    ensures ShowLiteral(TakeApart(h).value) == h
  {
    var halves := SplitDouble(h);
    JoinSplitDouble(h);
    T.JoinSplit(halves[0], ':');
    if |halves| == 2 {
      T.JoinSplit(halves[1], ':');
      assert halves[1..] == [halves[1]];
    }
  }

  /** Accepted are exactly the texts of accepted literals. */
  lemma AcceptsIff(h: string)
    ensures AcceptsIpv6(h) <==> exists lit :: Accepted(lit) && ShowLiteral(lit) == h
  {
    if AcceptsIpv6(h) { PutsTogether(h); }
    if lit :| Accepted(lit) && ShowLiteral(lit) == h {
      OkIsPlain(Groups(lit));
      TakesApart(lit);
    }
  }

  lemma LiteralChars(lit: Literal, c: char)
    requires c in ShowLiteral(lit) && c != ':'
    ensures exists i :: 0 <= i < |Groups(lit)| && c in Groups(lit)[i]
  {
    match lit
    case Full(groups) =>
      JoinedChars(groups, ':', c);
      assert Groups(lit) == groups;
    case Compressed(head, tail) =>
      if c in T.Join(head, ':') {
        JoinedChars(head, ':', c);
        var i :| 0 <= i < |head| && c in head[i];
        assert c in Groups(lit)[i];
      } else {
        JoinedChars(tail, ':', c);
        var i :| 0 <= i < |tail| && c in tail[i];
        assert c in Groups(lit)[|head| + i];
      }
  }

  /** The first test refuses nothing the rest would have let through. */
  lemma RejectedEarly(h: string)
    requires |h| == 0 || exists i :: 0 <= i < |h| && !IsLegalChar(h[i])
    ensures !AcceptsIpv6(h)
  {
    if AcceptsIpv6(h) && h != [] {
      var lit := TakeApart(h).value;
      PutsTogether(h);
      OkIsPlain(Groups(lit));
      var i :| 0 <= i < |h| && !IsLegalChar(h[i]);
      LiteralChars(lit, h[i]);
    }
  }

  // ── Section 2.2 of RFC 4291 ─────────────────────────────────────────────────

  predicate AllHex(groups: seq<string>) {
    forall i | 0 <= i < |groups| :: IsHexGroup(groups[i])
  }

  /** The three forms: eight groups in full; a run of at least one zero group written "::";
      either with an IPv4 address standing for the two groups at the very end of the text.  */
  predicate Legal(lit: Literal) {
    match lit
    case Full(groups) => GroupsOk(groups) && Units(groups) == 8
    case Compressed(head, tail) => AllHex(head) && GroupsOk(tail) && |head| + Units(tail) <= 7
  }

  /** The IPv4 address stands before a "::" that ends the text. */
  predicate Misplaced(lit: Literal) {
    lit.Compressed? && lit.tail == [] && lit.head != [] && '.' in lit.head[|lit.head| - 1]
  }

  lemma AcceptedIff(lit: Literal)
    ensures Accepted(lit) && !Misplaced(lit) <==> Legal(lit)
  {
    if lit.Compressed? {
      if lit.tail == [] { HeadOnly(lit.head); } else { HeadThenTail(lit.head, lit.tail); }
    }
  }

  lemma HeadOnly(head: seq<string>)
    ensures head + [] == head
    ensures AllHex(head) <==> GroupsOk(head) && !(head != [] && '.' in head[|head| - 1])
  {
    assert head + [] == head;
    if AllHex(head) {
      assert forall i | 0 <= i < |head| :: IsHexGroup(head[i]) && '.' !in head[i];
    }
    if GroupsOk(head) && !(head != [] && '.' in head[|head| - 1]) {
      forall i | 0 <= i < |head|
        ensures IsHexGroup(head[i])
      {
        assert GroupOk(head, i);
      }
    }
  }

  lemma HeadThenTail(head: seq<string>, tail: seq<string>)
    requires tail != []
    ensures GroupsOk(head + tail) <==> AllHex(head) && GroupsOk(tail)
    ensures Units(head + tail) == |head| + Units(tail)
  {
    var all := head + tail;
    assert all[|all| - 1] == tail[|tail| - 1];
    if GroupsOk(all) {
      forall i | 0 <= i < |head| ensures IsHexGroup(head[i]) { assert GroupOk(all, i); }
      forall i | 0 <= i < |tail| ensures GroupOk(tail, i) { assert GroupOk(all, |head| + i); }
    }
    if AllHex(head) && GroupsOk(tail) {
      forall i | 0 <= i < |all|
        ensures GroupOk(all, i)
      {
        if i < |head| { assert all[i] == head[i]; } else { assert GroupOk(tail, i - |head|); }
      }
    }
  }

  predicate EndsInDouble(h: string) {
    |h| >= 2 && h[|h| - 2] == ':' && h[|h| - 1] == ':'
  }

  /** The acceptor is right about every text but one family: it also lets through an IPv4
      address before a final "::".  */
  lemma LegalIffAccepted(h: string)
    ensures (exists lit :: Legal(lit) && ShowLiteral(lit) == h)
       <==> AcceptsIpv6(h) && !('.' in h && EndsInDouble(h))
  {
    if lit :| Legal(lit) && ShowLiteral(lit) == h {
      AcceptedIff(lit);
      AcceptsIff(h);
      LegalEnd(lit);
    }
    if AcceptsIpv6(h) && !('.' in h && EndsInDouble(h)) {
      PutsTogether(h);
      var lit := TakeApart(h).value;
      if Misplaced(lit) { MisplacedEnd(lit); }
      AcceptedIff(lit);
    }
  }

  lemma LegalEnd(lit: Literal)
    requires Legal(lit)
    ensures !('.' in ShowLiteral(lit) && EndsInDouble(ShowLiteral(lit)))
  {
    AcceptedIff(lit);
    OkIsPlain(Groups(lit));
    match lit
    case Full(groups) => JoinedPlain(groups);
    case Compressed(head, tail) =>
      PlainParts(head, tail);
      JoinedPlain(tail);
      if tail == [] {
        assert Groups(lit) == head;
        if '.' in ShowLiteral(lit) { LiteralChars(lit, '.'); }
      }
  }

  lemma MisplacedEnd(lit: Literal)
    requires Misplaced(lit)
    ensures '.' in ShowLiteral(lit) && EndsInDouble(ShowLiteral(lit))
  {
    var n := |lit.head| - 1;
    T.JoinSnoc(lit.head[..n], lit.head[n], ':');
    assert lit.head == lit.head[..n] + [lit.head[n]];
    assert '.' in T.Join(lit.head, ':');
  }

  /** The family is not empty: any IPv4 address followed by "::". */
  lemma MisplacedIsAccepted(v4: string)
    requires IsIpv4Literal(v4)
    ensures AcceptsIpv6(v4 + "::")
  {
    var lit := Compressed([v4], []);
    Ipv4Chars(v4);
    assert Groups(lit) == [v4];
    assert GroupOk(Groups(lit), 0);
    assert v4 + "::" + [] == v4 + "::";
    assert ShowLiteral(lit) == v4 + "::";
    AcceptsIff(v4 + "::");
  }

  // ── Socket addresses ────────────────────────────────────────────────────────

  /** JavaScript's `lastIndexOf`, `-1` when there is none. */
  function LastIndexOf(s: string, c: char): (i: int)
    ensures -1 <= i < |s|
  {
    if s == [] then -1 else if s[|s| - 1] == c then |s| - 1 else LastIndexOf(s[..|s| - 1], c)
  }

  predicate IsPort(p: string) {
    1 <= |p| <= 5 && D.AllDigits(p) && 1 <= D.Read(p) <= 65535
  }

  method IsDialableSocketAddr(s: string) returns (ok: bool)
    ensures ok <==> Dialable(s)
  {
    var idx := LastIndexOf(s, ':');
    if idx <= 0 || idx == |s| - 1 { return false; }
    var host, portStr := s[..idx], s[idx + 1..];
    if !(1 <= |portStr| <= 5 && D.AllDigits(portStr)) { return false; }
    var port := D.Read(portStr);
    if port < 1 || port > 65535 { return false; }
    if host[0] == '[' {
      if host[|host| - 1] != ']' || |host| <= 2 { return false; }
      ok := IsIpv6Literal(host[1..|host| - 1]);
    } else {
      ok := IsIpv4Literal(host);
    }
  }

  predicate HostOk(host: string) {
    host != [] &&
    if host[0] == '[' then host[|host| - 1] == ']' && |host| > 2 && AcceptsIpv6(host[1..|host| - 1])
    else IsIpv4Literal(host)
  }

  predicate Dialable(s: string) {
    var idx := LastIndexOf(s, ':');
    idx > 0 && IsPort(s[idx + 1..]) && HostOk(s[..idx])
  }

  lemma {:induction false} LastColon(a: string, b: string)
    requires ':' !in b
    ensures LastIndexOf(a + [':'] + b, ':') == |a|
    decreases |b|
  {
    var s := a + [':'] + b;
    if b != [] {
      var front := b[..|b| - 1];
      assert s[..|s| - 1] == a + [':'] + front;
      assert s[|s| - 1] == b[|b| - 1] && b[|b| - 1] in b;
      LastColon(a, front);
    }
  }

  lemma PortHasNoColon(p: string)
    requires IsPort(p)
    ensures ':' !in p
  {
  }

  lemma {:induction false} LastIndexIsThere(s: string, c: char)
    requires LastIndexOf(s, c) >= 0
    ensures s[LastIndexOf(s, c)] == c
    decreases |s|
  {
    if s[|s| - 1] != c { LastIndexIsThere(s[..|s| - 1], c); }
  }

  lemma Pieces(host: string, port: string)
    ensures var s := host + ":" + port; s[..|host|] == host && s[|host| + 1..] == port
  {
  }

  lemma DialableFrom(host: string, port: string)
    requires HostOk(host) && IsPort(port)
    ensures Dialable(host + ":" + port)
  {
    PortHasNoColon(port);
    LastColon(host, port);
    Pieces(host, port);
  }

  lemma CutAt(s: string, i: nat)
    requires i < |s| && s[i] == ':'
    ensures s == s[..i] + ":" + s[i + 1..]
  {
  }

  /** Dialable are exactly an accepted host, a colon and a port from 1 to 65535. */
  lemma DialableIff(s: string)
    ensures Dialable(s) <==> exists host, port :: HostOk(host) && IsPort(port) && s == host + ":" + port
  {
    if Dialable(s) {
      LastIndexIsThere(s, ':');
      CutAt(s, LastIndexOf(s, ':'));
    }
    if host, port :| HostOk(host) && IsPort(port) && s == host + ":" + port {
      DialableFrom(host, port);
    }
  }

  lemma InBrackets(h: string)
    requires AcceptsIpv6(h)
    ensures HostOk("[" + h + "]")
  {
    if h == [] {
      RejectedEarly(h);
    } else {
      var host := "[" + h + "]";
      assert host[1..|host| - 1] == h;
    }
  }

  /** Every legal form in brackets, with any port number, can be dialed. */
  lemma LegalIpv6IsDialable(lit: Literal, port: nat)
    requires Legal(lit) && 1 <= port <= 65535
    ensures Dialable("[" + ShowLiteral(lit) + "]" + ":" + D.Show(port))
  {
    var h := ShowLiteral(lit);
    AcceptedIff(lit);
    AcceptsIff(h);
    InBrackets(h);
    PortNumber(port);
    DialableFrom("[" + h + "]", D.Show(port));
  }

  lemma LegalIpv4IsDialable(a: nat, b: nat, c: nat, d: nat, port: nat)
    requires IsByte(a) && IsByte(b) && IsByte(c) && IsByte(d) && 1 <= port <= 65535
    ensures Dialable(ShowIpv4(a, b, c, d) + ":" + D.Show(port))
  {
    var host := ShowIpv4(a, b, c, d);
    ShownIpv4IsLiteral(a, b, c, d);
    Ipv4Chars(host);
    assert host[0] in host;
    PortNumber(port);
    DialableFrom(host, D.Show(port));
  }

  lemma PortNumber(port: nat)
    requires 1 <= port <= 65535
    ensures IsPort(D.Show(port))
  {
    D.ReadShow(port);
    assert D.Pow10(5) == 100000;
    D.ShowLength(port, 5);
  }
}
