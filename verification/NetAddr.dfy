/** IP and socket addresses as the discovery policy sees them. */
module NetAddr {
  import opened Common
  import opened Text

  type U8 = n: int | 0 <= n < 0x100
  type U16 = n: int | 0 <= n < 0x1_0000
  type U32 = n: int | 0 <= n < 0x1_0000_0000

  datatype Ip =
    | V4(a: U8, b: U8, c: U8, d: U8)
    | V6(s0: U16, s1: U16, s2: U16, s3: U16, s4: U16, s5: U16, s6: U16, s7: U16)

  datatype RawSocket = Socket(ip: Ip, port: U16, scope: U32)

  /** Only IPv6 sockets carry a scope. */
  type Socket = s: RawSocket | s.ip.V4? ==> s.scope == 0 witness Socket(V4(0, 0, 0, 0), 0, 0)

  function NewSocket(ip: Ip, port: U16): Socket {
    Socket(ip, port, 0)
  }

  predicate IsUnspecified(ip: Ip) {
    ip == V4(0, 0, 0, 0) || ip == V6(0, 0, 0, 0, 0, 0, 0, 0)
  }

  predicate IsLoopback(ip: Ip) {
    match ip
    case V4(a, _, _, _) => a == 127
    case V6(_, _, _, _, _, _, _, _) => ip == V6(0, 0, 0, 0, 0, 0, 0, 1)
  }

  /** `fe80::/10`: masking the first segment with `0xffc0` leaves `0xfe80`. */
  predicate IsLinkLocalV6(ip: Ip) {
    ip.V6? && 0xfe80 <= ip.s0 <= 0xfebf
  }

  predicate IsRoutable(ip: Ip) {
    !IsLoopback(ip) && !IsUnspecified(ip) && !IsLinkLocalV6(ip) && !(ip.V4? && ip.a == 169 && ip.b == 254)
  }

  predicate IsPlaceholder(port: U16) {
    port == 0 || port == 1
  }

  /** The same host: scopes distinguish only link-local addresses. */
  predicate SameScopedHost(left: Socket, right: Socket) {
    left.ip == right.ip && (IsLinkLocalV6(left.ip) ==> left.scope == right.scope)
  }

  /** Textual socket addresses, as `Display` and `FromStr` of the platform give them. */
  datatype Codec = Codec(show: Socket -> string, parse: string -> Option<Socket>) {

    /** What the policy relies on: printing is inverted by parsing and yields non-empty
        text without commas or spaces.  */
    ghost predicate Faithful() {
      forall s: Socket :: Plain(show(s)) && parse(show(s)) == Some(s)
    }
  }

  predicate Plain(text: string) {
    text != [] && ',' !in text && forall c | c in text :: !IsSpace(c)
  }

  lemma PlainTrims(text: string)
    requires Plain(text)
    ensures Trim(text) == text
  {
    assert text[0] in text && text[|text| - 1] in text;
  }

  // ── Such a codec exists ─────────────────────────────────────────────────────

  function Tally(n: nat): string {
    seq(n, _ => 'i')
  }

  function Fields(s: Socket): seq<string> {
    match s.ip
    case V4(a, b, c, d) => [Tally(4), Tally(a), Tally(b), Tally(c), Tally(d), Tally(s.port)]
    case V6(s0, s1, s2, s3, s4, s5, s6, s7) =>
      [Tally(6), Tally(s0), Tally(s1), Tally(s2), Tally(s3), Tally(s4), Tally(s5), Tally(s6), Tally(s7), Tally(s.port), Tally(s.scope)]
  }

  function TallyShow(s: Socket): string {
    Join(Fields(s), '.')
  }

  ghost function TallyParse(text: string): Option<Socket> {
    if s: Socket :| TallyShow(s) == text then Some(s) else None
  }

  lemma FieldsDetermineSocket(s: Socket, u: Socket)
    requires Fields(s) == Fields(u)
    ensures s == u
  {
    assert |Fields(s)[0]| == |Fields(u)[0]| && |Fields(s)[1]| == |Fields(u)[1]| && |Fields(s)[2]| == |Fields(u)[2]|;
    assert |Fields(s)[3]| == |Fields(u)[3]| && |Fields(s)[4]| == |Fields(u)[4]| && |Fields(s)[5]| == |Fields(u)[5]|;
    if s.ip.V6? {
      assert |Fields(s)[6]| == |Fields(u)[6]| && |Fields(s)[7]| == |Fields(u)[7]| && |Fields(s)[8]| == |Fields(u)[8]|;
      assert |Fields(s)[9]| == |Fields(u)[9]| && |Fields(s)[10]| == |Fields(u)[10]|;
    }
  }

  predicate IsTally(text: string) {
    forall i | 0 <= i < |text| :: text[i] == 'i'
  }

  lemma {:induction false} JoinedTalliesArePlain(pieces: seq<string>)
    requires forall k | 0 <= k < |pieces| :: IsTally(pieces[k])
    ensures forall i | 0 <= i < |Join(pieces, '.')| :: Join(pieces, '.')[i] == 'i' || Join(pieces, '.')[i] == '.'
    decreases |pieces|
  {
    if |pieces| > 1 {
      assert forall k | 0 <= k < |pieces[1..]| :: pieces[1..][k] == pieces[k + 1];
      JoinedTalliesArePlain(pieces[1..]);
    }
  }

  lemma TallyShowIsPlain(s: Socket)
    ensures Plain(TallyShow(s))
  {
    JoinedTalliesArePlain(Fields(s));
    assert TallyShow(s) == Fields(s)[0] + ['.'] + Join(Fields(s)[1..], '.');
  }

  lemma TallyShowIsInjective(s: Socket, u: Socket)
    requires TallyShow(s) == TallyShow(u)
    ensures s == u
  {
    assert forall k | 0 <= k < |Fields(s)| :: IsTally(Fields(s)[k]);
    assert forall k | 0 <= k < |Fields(u)| :: IsTally(Fields(u)[k]);
    SplitJoin(Fields(s), '.');
    SplitJoin(Fields(u), '.');
    FieldsDetermineSocket(s, u);
  }

  /** The assumption on the platform's text forms is satisfiable. */
  lemma FaithfulCodecExists()
    ensures exists codec: Codec :: codec.Faithful()
  {
    var codec := Codec(TallyShow, TallyParse);
    forall s: Socket ensures Plain(TallyShow(s)) && TallyParse(TallyShow(s)) == Some(s) {
      TallyShowIsPlain(s);
      var u := TallyParse(TallyShow(s)).value;
      TallyShowIsInjective(u, s);
    }
    assert codec.Faithful();
  }
}
