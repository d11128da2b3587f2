/** The text forms of an IPv6 address, as section 2.2 of RFC 4291 defines them: by the eight
    16-bit values they stand for.  */
module Ipv6Forms {
  import opened IpLiteral
  import D = Decimal

  function HexDigit(c: char): (v: nat)
    requires IsHex(c)
    ensures v < 16
  {
    if '0' <= c <= '9' then c as int - '0' as int
    else if 'A' <= c <= 'F' then c as int - 'A' as int + 10
    else c as int - 'a' as int + 10
  }

  predicate AllHexDigits(g: string) {
    forall i | 0 <= i < |g| :: IsHex(g[i])
  }

  function HexValue(g: string): nat
    requires AllHexDigits(g)
  {
    if g == [] then 0 else 16 * HexValue(g[..|g| - 1]) + HexDigit(g[|g| - 1])
  }

  /** One to four hexadecimal digits write a value; leading zeros may be left out. */
  predicate Writes(g: string, v: nat) {
    1 <= |g| <= 4 && AllHexDigits(g) && HexValue(g) == v
  }

  predicate WritesAll(groups: seq<string>, values: seq<nat>) {
    |groups| == |values| && forall i | 0 <= i < |groups| :: Writes(groups[i], values[i])
  }

  /** The last two values may be written as the four bytes of an IPv4 address. */
  ghost predicate WritesIpv4(g: string, high: nat, low: nat) {
    exists a: nat, b: nat, c: nat, d: nat ::
      && IsByte(a) && IsByte(b) && IsByte(c) && IsByte(d)
      && g == ShowIpv4(a, b, c, d) && high == 256 * a + b && low == 256 * c + d
  }

  ghost predicate WritesWithIpv4(groups: seq<string>, values: seq<nat>) {
    var n := |groups| - 1;
    n >= 0 && |values| == n + 2 && WritesAll(groups[..n], values[..n]) && WritesIpv4(groups[n], values[n], values[n + 1])
  }

  ghost predicate WritesEnd(groups: seq<string>, values: seq<nat>) {
    WritesAll(groups, values) || WritesWithIpv4(groups, values)
  }

  /** The groups before the "::" write the first values, those after it the last `rest`, and the
      values between are zero.  */
  ghost predicate WritesAround(head: seq<string>, tail: seq<string>, v: seq<nat>, rest: nat) {
    && |v| == 8 && |head| + rest <= 7 && WritesAll(head, v[..|head|]) && WritesEnd(tail, v[8 - rest..])
    && forall i | |head| <= i < 8 - rest :: v[i] == 0
  }

  /** The text stands for these values: all eight written out, or one run of zeros, of at least
      one value, left out at the "::".  */
  ghost predicate Denotes(lit: Literal, v: seq<nat>) {
    && |v| == 8
    && match lit
       case Full(groups) => WritesEnd(groups, v)
       case Compressed(head, tail) => exists rest: nat :: WritesAround(head, tail, v, rest)
  }

  ghost predicate IsForm(h: string, v: seq<nat>) {
    exists lit :: ShowLiteral(lit) == h && Denotes(lit, v)
  }

  // ── Forms and the acceptor's groups ─────────────────────────────────────────

  lemma WrittenIsHex(groups: seq<string>, values: seq<nat>)
    requires WritesAll(groups, values)
    ensures AllHex(groups) && GroupsOk(groups) && Units(groups) == |values|
  {
    forall i | 0 <= i < |groups|
      ensures IsHexGroup(groups[i]) && '.' !in groups[i]
    {
      assert Writes(groups[i], values[i]);
    }
  }

  lemma WrittenEndIsOk(groups: seq<string>, values: seq<nat>)
    requires WritesEnd(groups, values)
    ensures GroupsOk(groups) && Units(groups) == |values|
  {
    if WritesAll(groups, values) {
      WrittenIsHex(groups, values);
    } else {
      var n := |groups| - 1;
      WrittenIsHex(groups[..n], values[..n]);
      var a: nat, b: nat, c: nat, d: nat :| IsByte(a) && IsByte(b) && IsByte(c) && IsByte(d) && groups[n] == ShowIpv4(a, b, c, d);
      ShownIpv4IsLiteral(a, b, c, d);
      Ipv4Chars(groups[n]);
      forall i | 0 <= i < |groups| ensures GroupOk(groups, i) {
        if i < n { assert IsHexGroup(groups[..n][i]); }
      }
    }
  }

  lemma DenotesIsLegal(lit: Literal, v: seq<nat>)
    requires Denotes(lit, v)
    ensures Legal(lit)
  {
    match lit
    case Full(groups) => WrittenEndIsOk(groups, v);
    case Compressed(head, tail) =>
      var rest: nat :| WritesAround(head, tail, v, rest);
      WrittenIsHex(head, v[..|head|]);
      WrittenEndIsOk(tail, v[8 - rest..]);
  }

  function HexValues(groups: seq<string>): (values: seq<nat>)
    requires AllHex(groups)
    ensures WritesAll(groups, values)
  {
    seq(|groups|, i requires 0 <= i < |groups| => assert IsHexGroup(groups[i]); HexValue(groups[i]))
  }

  lemma OkIsWritten(groups: seq<string>) returns (values: seq<nat>)
    requires GroupsOk(groups)
    ensures WritesEnd(groups, values) && |values| == Units(groups)
  {
    var n := |groups| - 1;
    forall i | 0 <= i < n ensures IsHexGroup(groups[i]) { assert GroupOk(groups, i); }
    if n >= 0 && '.' in groups[n] {
      assert GroupOk(groups, n);
      values := WithIpv4IsWritten(groups[..n], groups[n]);
      assert groups == groups[..n] + [groups[n]];
    } else {
      if n >= 0 { assert GroupOk(groups, n); }
      values := HexValues(groups);
    }
  }

  lemma WithIpv4IsWritten(front: seq<string>, last: string) returns (values: seq<nat>)
    requires AllHex(front) && IsIpv4Literal(last)
    ensures WritesWithIpv4(front + [last], values) && |values| == |front| + 2
  {
    var a, b, c, d := LiteralIsShownIpv4(last);
    var high, low := 256 * a + b, 256 * c + d;
    assert WritesIpv4(last, high, low);
    values := HexValues(front) + [high, low];
    assert values[..|front|] == HexValues(front) && (front + [last])[..|front|] == front;
  }

  function Zeros(n: nat): (z: seq<nat>)
    ensures |z| == n && forall i | 0 <= i < n :: z[i] == 0
  {
    seq(n, _ => 0)
  }

  lemma LegalDenotes(lit: Literal) returns (v: seq<nat>)
    requires Legal(lit)
    ensures Denotes(lit, v)
  {
    match lit
    case Full(groups) => v := OkIsWritten(groups);
    case Compressed(head, tail) =>
      var front := HexValues(head);
      var back := OkIsWritten(tail);
      var zeros := Zeros(8 - |head| - |back|);
      v := front + zeros + back;
      assert v[..|head|] == front && v[8 - |back|..] == back;
      assert forall i | |head| <= i < 8 - |back| :: v[i] == zeros[i - |head|];
      assert WritesAround(head, tail, v, |back|);
  }

  /** The acceptor is right about every text but one family: accepted are the forms of IPv6
      addresses, and an IPv4 address before a final "::".  */
  lemma FormIffAccepted(h: string)
    ensures (exists v :: IsForm(h, v)) <==> AcceptsIpv6(h) && !('.' in h && EndsInDouble(h))
  {
    LegalIffAccepted(h);
    if v :| IsForm(h, v) {
      var lit :| ShowLiteral(lit) == h && Denotes(lit, v);
      DenotesIsLegal(lit, v);
    }
    if lit :| Legal(lit) && ShowLiteral(lit) == h {
      var v := LegalDenotes(lit);
      assert IsForm(h, v);
    }
  }

  /** Every form of every address, in brackets and with any port number, can be dialed. */
  lemma EveryFormIsDialable(h: string, v: seq<nat>, port: nat)
    requires IsForm(h, v) && 1 <= port <= 65535
    ensures Dialable("[" + h + "]" + ":" + D.Show(port))
  {
    var lit :| ShowLiteral(lit) == h && Denotes(lit, v);
    DenotesIsLegal(lit, v);
    LegalIpv6IsDialable(lit, port);
  }

  // ── Every address has a form ────────────────────────────────────────────────

  function HexChar(d: nat): (c: char)
    requires d < 16
    ensures IsHex(c) && HexDigit(c) == d
  {
    if d < 10 then ('0' as int + d) as char else ('a' as int + d - 10) as char
  }

  function ShowHex(v: nat, digits: nat): (g: string)
    ensures |g| == digits && AllHexDigits(g)
    decreases digits
  {
    if digits == 0 then [] else ShowHex(v / 16, digits - 1) + [HexChar(v % 16)]
  }

  function Pow16(n: nat): nat {
    if n == 0 then 1 else 16 * Pow16(n - 1)
  }

  lemma {:induction false} ShowHexWrites(v: nat, digits: nat)
    requires v < Pow16(digits)
    ensures HexValue(ShowHex(v, digits)) == v
    decreases digits
  {
    if digits > 0 {
      ShowHexWrites(v / 16, digits - 1);
      assert ShowHex(v, digits)[..digits - 1] == ShowHex(v / 16, digits - 1);
    }
  }

  lemma EveryAddressHasForm(v: seq<nat>) returns (h: string)
    requires |v| == 8 && forall i | 0 <= i < 8 :: v[i] < 0x1_0000
    ensures IsForm(h, v)
  {
    var groups := seq(8, i requires 0 <= i < 8 => ShowHex(v[i], 4));
    forall i | 0 <= i < 8 ensures Writes(groups[i], v[i]) {
      assert Pow16(4) == 0x1_0000;
      ShowHexWrites(v[i], 4);
    }
    var lit := Full(groups);
    assert Denotes(lit, v);
    h := ShowLiteral(lit);
  }
}
