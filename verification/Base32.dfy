/** The inline base32 codec for node ids: RFC 4648 digits, lower case, no padding.

    Both directions run a 32-bit shift register over the data.  They are proved against the
    bit-string reading of section 6 of RFC 4648: octets and digits are two ways to group one
    string of bits.  */
module Base32 {
  import opened Common
  import opened Bits

  const ALPHABET: string := "ABCDEFGHIJKLMNOPQRSTUVWXYZ234567"

  const NO_DIGIT: int := 0xff

  // ── Digits ──────────────────────────────────────────────────────────────────

  predicate IsDigit(c: char) {
    'A' <= c <= 'Z' || '2' <= c <= '7'
  }

  function DigitValue(c: char): (v: int)
    requires IsDigit(c)
    ensures Fits(v, 5)
  {
    assert Pow2(5) == 32;
    if 'A' <= c <= 'Z' then c as int - 'A' as int else 26 + c as int - '2' as int
  }

  lemma AlphabetDigit(i: nat)
    requires i < 32
    ensures IsDigit(ALPHABET[i]) && DigitValue(ALPHABET[i]) == i
  {
    if i < 16 {
      if i < 8 {} else {}
    } else {
      if i < 24 {} else {}
    }
  }

  lemma DigitsAreDistinct(c: char, d: char)
    requires IsDigit(c) && IsDigit(d) && DigitValue(c) == DigitValue(d)
    ensures c == d
  {
    assert c as int == d as int;
  }

  /** What the lookup table holds for a character code. */
  function Entry(code: int): int
    requires 0 <= code < 256
  {
    if IsDigit(code as char) then DigitValue(code as char) else NO_DIGIT
  }

  predicate IsLookup(table: seq<int>) {
    |table| == 256 && forall code | 0 <= code < 256 :: table[code] == Entry(code)
  }

  /** The table that is filled once when the module loads. */
  method BuildLookup() returns (lookup: seq<int>)
    ensures IsLookup(lookup)
  {
    var table := new int[256](_ => NO_DIGIT);
    for i := 0 to 32
      invariant forall code | 0 <= code < 256 ::
        table[code] == if Entry(code) < i then Entry(code) else NO_DIGIT
    {
      AlphabetDigit(i);
      table[ALPHABET[i] as int] := i;
      forall code | 0 <= code < 256 && Entry(code) == i
        ensures code == ALPHABET[i] as int
      {
        DigitsAreDistinct(code as char, ALPHABET[i]);
      }
    }
    assert Pow2(5) == 32;
    return table[..];
  }

  // ── The bit-string reading ──────────────────────────────────────────────────

  predicate IsEncodedDigit(c: char) {
    'a' <= c <= 'z' || '2' <= c <= '7'
  }

  function ToUpper(c: char): char {
    if 'a' <= c <= 'z' then (c as int - 32) as char else c
  }

  function ToLower(c: char): char {
    if 'A' <= c <= 'Z' then (c as int + 32) as char else c
  }

  function Uppers(s: string): (t: string)
    ensures |t| == |s|
  {
    seq(|s|, i requires 0 <= i < |s| => ToUpper(s[i]))
  }

  function Lowers(s: string): (t: string)
    ensures |t| == |s|
  {
    seq(|s|, i requires 0 <= i < |s| => ToLower(s[i]))
  }

  /** `text` is the base32 form of `bytes`: its digits spell the bits of the octets. */
  predicate Encodes(bytes: seq<int>, text: string) {
    && (forall i | 0 <= i < |text| :: IsEncodedDigit(text[i]))
    && PaddedTo(Concat(bytes, 8), Concat(Values(Uppers(text)), 5), 5)
  }

  /** What a character counts for: a digit its value, a code outside the table nothing. */
  function Value(c: char): (v: int)
    ensures Fits(v, 5)
  {
    assert Pow2(5) == 32;
    if IsDigit(c) then DigitValue(c) else 0
  }

  function Values(s: string): (v: seq<int>)
    ensures |v| == |s| && InRange(v, 5)
  {
    seq(|s|, i requires 0 <= i < |s| => Value(s[i]))
  }

  /** Characters decoding refuses.  A code beyond the table is read as `undefined`, which is
      not the refused 0xff and counts as zero.  */
  predicate Refused(c: char) {
    c as int < 256 && !IsDigit(c)
  }

  predicate Acceptable(s: string) {
    forall i | 0 <= i < |s| :: !Refused(s[i])
  }

  /** Position of the first '=' from `i` on. */
  function PadAt(s: string, i: nat): (n: nat)
    requires i <= |s|
    ensures i <= n <= |s|
    decreases |s| - i
  {
    if i == |s| || s[i] == '=' then i else PadAt(s, i + 1)
  }

  function Body(s: string): string {
    s[..PadAt(s, 0)]
  }

  /** The outcome of decoding upper-cased text; `None` is the thrown error. */
  predicate Decodes(text: string, outcome: Option<seq<int>>) {
    match outcome
    case None => !Acceptable(Body(text))
    case Some(bytes) => Acceptable(Body(text)) && WholeOctets(bytes, Concat(Values(Body(text)), 5))
  }

  // ── Encoding ────────────────────────────────────────────────────────────────

  /** The digits of `out` and the register together hold the bits of `bytes`. */
  ghost predicate Writing(bytes: seq<int>, out: string, buf: int, bits: nat) {
    AllDigits(out) && Buffered(bytes, 8, Values(out), 5, buf, bits)
  }

  method Encode(bytes: seq<int>) returns (text: string)
    requires InRange(bytes, 8)
    ensures Encodes(bytes, text)
  {
    var out, buf, bits := "", 0, 0;
    ghost var done: seq<int> := [];
    assert Writing(done, out, buf, bits);
    hide AllDigits, Buffered, Values;
    for i := 0 to |bytes|
      invariant done == bytes[..i]
      invariant 0 <= bits < 5 && Writing(done, out, buf, bits)
    {
      out, buf, bits := WriteByte(done, bytes[i], out, buf, bits);
      done := done + [bytes[i]];
    }
    assert done == bytes;
    text := WriteRest(bytes, out, buf, bits);
  }

  /** The body of the loop: a byte goes into the register, one or two digits come out. */
  method WriteByte(ghost done: seq<int>, byte: int, out: string, buf: int, bits: nat)
    returns (out': string, buf': int, bits': nat)
    requires Writing(done, out, buf, bits) && bits < 5 && Fits(byte, 8)
    ensures Writing(done + [byte], out', buf', bits') && bits' < 5
  {
    hide AllDigits, Buffered, Values;
    buf' := Push(done, 8, Values(out), 5, buf, bits, byte);
    out', bits' := out, bits + 8;
    ghost var taken := done + [byte];
    while bits' >= 5
      invariant 0 <= bits' && Writing(taken, out', buf', bits')
    {
      out' := WriteDigit(taken, out', buf', bits');
      bits' := bits' - 5;
    }
  }

  /** The inner loop's body: the top five bits of the register come out as a digit. */
  method WriteDigit(ghost bytes: seq<int>, out: string, buf: int, bits: nat) returns (out': string)
    requires Writing(bytes, out, buf, bits) && 5 <= bits
    ensures Writing(bytes, out', buf, bits - 5)
  {
    hide AllDigits, Buffered, Values;
    var digit := Pull(bytes, 8, Values(out), 5, buf, bits);
    DigitAdded(out, digit);
    out' := out + [ALPHABET[digit]];
  }

  /** After the loop: the left-over bits, and the change to lower case. */
  method WriteRest(ghost bytes: seq<int>, out: string, buf: int, bits: nat) returns (text: string)
    requires Writing(bytes, out, buf, bits) && bits < 5
    ensures Encodes(bytes, text)
  {
    if bits > 0 {
      var digit := PullRest(bytes, 8, Values(out), 5, buf, bits);
      DigitAdded(out, digit);
      LoweredDigits(out + [ALPHABET[digit]]);
      return Lowers(out + [ALPHABET[digit]]);
    } else {
      LoweredDigits(out);
      return Lowers(out);
    }
  }

  predicate AllDigits(s: string) {
    forall i | 0 <= i < |s| :: IsDigit(s[i])
  }

  lemma DigitAdded(out: string, d: int)
    requires AllDigits(out) && Fits(d, 5)
    ensures Pow2(5) == 32 && AllDigits(out + [ALPHABET[d]])
    ensures Values(out + [ALPHABET[d]]) == Values(out) + [d]
  {
    assert Pow2(5) == 32;
    AlphabetDigit(d);
  }

  lemma LoweredDigits(out: string)
    requires AllDigits(out)
    ensures forall i | 0 <= i < |out| :: IsEncodedDigit(Lowers(out)[i])
    ensures Values(Uppers(Lowers(out))) == Values(out)
  {
  }

  // ── Decoding ────────────────────────────────────────────────────────────────

  /** JavaScript's `toUpperCase`, character by character; `upper` is its Unicode table, which
      may map one character to several.  */
  function Uppercased(upper: char -> string, s: string): string {
    if s == [] then [] else upper(s[0]) + Uppercased(upper, s[1..])
  }

  /** The loop has taken in `text[..i]` and put out the bytes of `out`. */
  ghost predicate Reading(text: string, i: nat, out: seq<int>, buf: int, bits: nat) {
    && i <= |text| && PadAt(text, 0) == PadAt(text, i) && Acceptable(text[..i])
    && bits < 8 && InRange(out, 8) && Buffered(Values(text[..i]), 5, out, 8, buf, bits)
  }

  method Decode(lookup: seq<int>, upper: char -> string, s: string) returns (outcome: Option<seq<int>>)
    requires IsLookup(lookup)
    ensures Decodes(Uppercased(upper, s), outcome)
  {
    var text := Uppercased(upper, s);
    var out: seq<int>, buf, bits, i := [], 0, 0, 0;
    assert Reading(text, i, out, buf, bits);
    hide Acceptable, Buffered, InRange, Values;
    while i < |text| && text[i] != '='
      invariant 0 <= i <= |text| && 0 <= bits && Reading(text, i, out, buf, bits)
    {
      var code := text[i] as int;
      var val := if code < 256 then lookup[code] else 0;
      LookedUp(lookup, text[i]);
      if code < 256 && val == NO_DIGIT {
        RefusedAt(text, i);
        return None;
      }
      Accepted(text, i);
      out, buf, bits := Feed(Values(text[..i]), 5, out, 8, buf, bits, val);
      i := i + 1;
    }
    AllRead(text, i, out, buf, bits);
    return Some(out);
  }

  lemma LookedUp(lookup: seq<int>, c: char)
    requires IsLookup(lookup)
    ensures c as int < 256 ==> (lookup[c as int] == NO_DIGIT <==> Refused(c))
    ensures !Refused(c) ==> (if c as int < 256 then lookup[c as int] else 0) == Value(c)
  {
    if c as int < 256 { assert lookup[c as int] == Entry(c as int); }
    assert Pow2(5) == 32;
  }

  lemma AllRead(text: string, i: nat, out: seq<int>, buf: int, bits: nat)
    requires Reading(text, i, out, buf, bits) && (i < |text| ==> text[i] == '=')
    ensures Decodes(text, Some(out))
  {
  }

  lemma RefusedAt(text: string, i: nat)
    requires i < |text| && text[i] != '=' && PadAt(text, 0) == PadAt(text, i) && Refused(text[i])
    ensures !Acceptable(Body(text))
  {
    assert Body(text)[i] == text[i];
  }

  lemma Accepted(text: string, i: nat)
    requires i < |text| && !Refused(text[i]) && Acceptable(text[..i])
    ensures Acceptable(text[..i + 1])
    ensures Values(text[..i + 1]) == Values(text[..i]) + [Value(text[i])]
  {
  }

  // ── Laws ────────────────────────────────────────────────────────────────────

  /** What is assumed of `toUpperCase`: its ASCII part. */
  ghost predicate UppercasesAscii(upper: char -> string) {
    forall c: char | c as int < 128 :: upper(c) == [ToUpper(c)]
  }

  /** Base32 digits in either case. */
  predicate IsBase32Text(s: string) {
    forall i | 0 <= i < |s| :: IsDigit(ToUpper(s[i]))
  }

  lemma {:induction false} AsciiUppercased(upper: char -> string, s: string)
    requires UppercasesAscii(upper) && IsBase32Text(s)
    ensures Uppercased(upper, s) == Uppers(s)
  {
    if s != [] {
      var rest := s[1..];
      assert forall i | 0 <= i < |rest| :: rest[i] == s[i + 1];
      AsciiUppercased(upper, rest);
      assert IsDigit(ToUpper(s[0]));
      assert upper(s[0]) == [ToUpper(s[0])];
      assert Uppers(s) == [ToUpper(s[0])] + Uppers(rest);
    }
  }

  lemma {:induction false} NoPadding(t: string, i: nat)
    requires i <= |t| && forall k | 0 <= k < |t| :: IsDigit(t[k])
    ensures PadAt(t, i) == |t|
    decreases |t| - i
  {
    if i < |t| {
      assert IsDigit(t[i]);
      NoPadding(t, i + 1);
    }
  }

  /** On base32 text decoding reads every character. */
  lemma TextIsRead(upper: char -> string, s: string)
    requires UppercasesAscii(upper) && IsBase32Text(s)
    ensures Body(Uppercased(upper, s)) == Uppers(s) && Acceptable(Uppers(s))
  {
    AsciiUppercased(upper, s);
    var t := Uppers(s);
    forall k | 0 <= k < |t|
      ensures IsDigit(t[k])
    {
      assert IsDigit(ToUpper(s[k]));
    }
    NoPadding(t, 0);
  }

  /** Encoding is a function: the bit-string reading leaves no choice. */
  lemma EncodingIsUnique(bytes: seq<int>, s: string, t: string)
    requires Encodes(bytes, s) && Encodes(bytes, t)
    ensures s == t
  {
    PaddingIsUnique(Concat(bytes, 8), Values(Uppers(s)), Values(Uppers(t)));
    SameValues(s, t);
  }

  lemma SameValues(s: string, t: string)
    requires forall i | 0 <= i < |s| :: IsEncodedDigit(s[i])
    requires forall i | 0 <= i < |t| :: IsEncodedDigit(t[i])
    requires Values(Uppers(s)) == Values(Uppers(t))
    ensures s == t
  {
    assert |s| == |Values(Uppers(s))| == |t|;
    forall i | 0 <= i < |s|
      ensures s[i] == t[i]
    {
      assert IsEncodedDigit(s[i]) && IsEncodedDigit(t[i]);
      assert Values(Uppers(s))[i] == Value(ToUpper(s[i])) && Values(Uppers(t))[i] == Value(ToUpper(t[i]));
      DigitsAreDistinct(ToUpper(s[i]), ToUpper(t[i]));
    }
  }

  lemma DecodingIsUnique(text: string, a: Option<seq<int>>, b: Option<seq<int>>)
    requires Decodes(text, a) && Decodes(text, b)
    ensures a == b
  {
    if a.Some? {
      WholeOctetsAreUnique(a.value, b.value, Concat(Values(Body(text)), 5));
    }
  }

  /** Decoding undoes encoding, for all bytes. */
  lemma DecodeUndoesEncode(upper: char -> string, bytes: seq<int>, text: string, outcome: Option<seq<int>>)
    requires UppercasesAscii(upper) && InRange(bytes, 8)
    requires Encodes(bytes, text) && Decodes(Uppercased(upper, text), outcome)
    ensures outcome == Some(bytes)
  {
    EncodedIsText(text);
    TextIsRead(upper, text);
    WholeOctetsAreUnique(bytes, outcome.value, Concat(Values(Uppers(text)), 5));
  }

  lemma EncodedIsText(text: string)
    requires forall i | 0 <= i < |text| :: IsEncodedDigit(text[i])
    ensures IsBase32Text(text)
  {
  }

  /** Text that encoding could have produced, up to case: fewer than five bits are left over
      after the whole octets, and they are zero.  */
  predicate Canonical(s: string) {
    var bits := Concat(Values(Uppers(s)), 5);
    && |bits| % 8 < 5
    && forall i | |bits| - |bits| % 8 <= i < |bits| :: !bits[i]
  }

  /** Encoding undoes decoding, up to case, exactly on the canonical texts. */
  lemma EncodeUndoesDecodeIffCanonical(upper: char -> string, s: string, bytes: seq<int>, again: string)
    requires UppercasesAscii(upper) && IsBase32Text(s)
    requires Decodes(Uppercased(upper, s), Some(bytes)) && Encodes(bytes, again)
    ensures again == Lowers(s) <==> Canonical(s)
  {
    TextIsRead(upper, s);
    var digits, octets := Values(Uppers(s)), Concat(bytes, 8);
    LeftOver(bytes, Concat(digits, 5));
    LoweredText(s);
    if again == Lowers(s) {
      assert Canonical(s);
    }
    if Canonical(s) {
      PaddingIsUnique(octets, digits, Values(Uppers(again)));
      SameValues(again, Lowers(s));
    }
  }

  lemma LeftOver(bytes: seq<int>, bits: seq<bool>)
    requires WholeOctets(bytes, bits)
    ensures |Concat(bytes, 8)| == |bits| - |bits| % 8
  {
    ConcatLength(bytes, 8);
  }

  lemma LoweredText(s: string)
    requires IsBase32Text(s)
    ensures forall i | 0 <= i < |s| :: IsEncodedDigit(Lowers(s)[i])
    ensures Uppers(Lowers(s)) == Uppers(s)
  {
    forall i | 0 <= i < |s|
      ensures IsEncodedDigit(Lowers(s)[i]) && ToUpper(Lowers(s)[i]) == ToUpper(s[i])
    {
      assert IsDigit(ToUpper(s[i]));
    }
  }

  // ── When decoding throws ────────────────────────────────────────────────────

  predicate IsBase32Char(c: char) {
    IsDigit(ToUpper(c))
  }

  /** What is assumed of `toUpperCase` here: its ASCII part, and that it makes no '='. */
  ghost predicate Uppercases(upper: char -> string) {
    UppercasesAscii(upper) && forall c: char | c as int >= 128 :: '=' !in upper(c)
  }

  /** The loop refuses nothing that `c` is upper-cased to. */
  predicate Passes(upper: char -> string, c: char) {
    Acceptable(upper(c))
  }

  /** No base32 character, and yet not refused. */
  predicate Slips(upper: char -> string, c: char) {
    !IsBase32Char(c) && Passes(upper, c)
  }

  lemma {:induction false} PadAtShifts(c: char, s: string, i: nat)
    requires i <= |s|
    ensures PadAt([c] + s, i + 1) == PadAt(s, i) + 1
    decreases |s| - i
  {
    if i < |s| && s[i] != '=' { PadAtShifts(c, s, i + 1); }
  }

  lemma BodyCons(c: char, s: string)
    ensures Body([c] + s) == if c == '=' then [] else [c] + Body(s)
  {
    PadAtShifts(c, s, 0);
  }

  lemma {:induction false} BodyAppends(a: string, b: string)
    requires '=' !in a
    ensures Body(a + b) == a + Body(b)
    decreases |a|
  {
    if a == [] {
      assert a + b == b;
    } else {
      assert a + b == [a[0]] + (a[1..] + b);
      BodyCons(a[0], a[1..] + b);
      BodyAppends(a[1..], b);
      assert a == [a[0]] + a[1..];
    }
  }

  /** Upper-casing neither hides nor makes the '=' that ends the text. */
  lemma {:induction false} BodyUppercased(upper: char -> string, s: string)
    requires Uppercases(upper)
    ensures Body(Uppercased(upper, s)) == Uppercased(upper, Body(s))
  {
    if s != [] {
      assert s == [s[0]] + s[1..];
      BodyCons(s[0], s[1..]);
      assert s[0] as int < 128 ==> upper(s[0]) == [ToUpper(s[0])];
      if s[0] == '=' {
        BodyCons('=', Uppercased(upper, s[1..]));
      } else {
        BodyAppends(upper(s[0]), Uppercased(upper, s[1..]));
        BodyUppercased(upper, s[1..]);
        assert ([s[0]] + Body(s[1..]))[1..] == Body(s[1..]);
      }
    }
  }

  lemma {:induction false} AcceptableUppercased(upper: char -> string, s: string)
    ensures Acceptable(Uppercased(upper, s)) <==> forall c | c in s :: Passes(upper, c)
  {
    if s != [] {
      var first, rest := upper(s[0]), Uppercased(upper, s[1..]);
      AcceptableUppercased(upper, s[1..]);
      AcceptableJoins(first, rest);
      assert s[0] in s && forall c | c in s[1..] :: c in s;
      assert forall c | c in s :: c == s[0] || c in s[1..];
    }
  }

  lemma AcceptableJoins(a: string, b: string)
    ensures Acceptable(a + b) <==> Acceptable(a) && Acceptable(b)
  {
    if Acceptable(a + b) {
      assert forall i | 0 <= i < |a| :: (a + b)[i] == a[i];
      assert forall i | 0 <= i < |b| :: (a + b)[|a| + i] == b[i];
    }
  }

  /** Decoding throws exactly when some character before the first '=' is refused. */
  lemma ThrowsIffRefused(upper: char -> string, s: string, outcome: Option<seq<int>>)
    requires Uppercases(upper) && Decodes(Uppercased(upper, s), outcome)
    ensures outcome.None? <==> exists c | c in Body(s) :: !Passes(upper, c)
  {
    BodyUppercased(upper, s);
    AcceptableUppercased(upper, Body(s));
  }

  /** It is meant to throw exactly when some character before the first '=' is no base32
      character.  It does, except on a text with a character that slips through and none that
      is refused.  */
  lemma ThrowsRightlyIff(upper: char -> string, s: string, outcome: Option<seq<int>>)
    requires Uppercases(upper) && Decodes(Uppercased(upper, s), outcome)
    ensures (outcome.None? <==> exists c | c in Body(s) :: !IsBase32Char(c))
       <==> ((exists c | c in Body(s) :: Slips(upper, c)) ==> exists c | c in Body(s) :: !Passes(upper, c))
  {
    ThrowsIffRefused(upper, s, outcome);
    forall c | c in Body(s) && IsBase32Char(c)
      ensures Passes(upper, c)
    {
      assert upper(c) == [ToUpper(c)];
    }
  }

  /** Decoding `s` throws exactly when some character before the first '=' is no base32 one. */
  ghost predicate RightOn(upper: char -> string, s: string) {
    forall outcome: Option<seq<int>> | Decodes(Uppercased(upper, s), outcome) ::
      outcome.None? <==> exists c | c in Body(s) :: !IsBase32Char(c)
  }

  lemma RightWithoutSlips(upper: char -> string, s: string)
    requires Uppercases(upper) && forall c: char :: !Slips(upper, c)
    ensures RightOn(upper, s)
  {
    forall outcome: Option<seq<int>> | Decodes(Uppercased(upper, s), outcome)
      ensures outcome.None? <==> exists c | c in Body(s) :: !IsBase32Char(c)
    {
      ThrowsRightlyIff(upper, s, outcome);
    }
  }

  lemma WrongOnSlip(upper: char -> string, c: char)
    requires Uppercases(upper) && Slips(upper, c)
    ensures !RightOn(upper, [c])
  {
    PadNeverSlips(upper, c);
    var bytes := SlippingTextDecodes(upper, c);
    BodyCons(c, []);
    assert [c] + [] == [c];
    assert c in Body([c]) && !IsBase32Char(c);
  }

  /** Decoding is right about every text exactly when no character slips through. */
  lemma AlwaysRightIff(upper: char -> string)
    requires Uppercases(upper)
    ensures (forall s: string :: RightOn(upper, s)) <==> forall c: char :: !Slips(upper, c)
  {
    if forall c: char :: !Slips(upper, c) {
      forall s: string ensures RightOn(upper, s) { RightWithoutSlips(upper, s); }
    }
    if c: char :| Slips(upper, c) { WrongOnSlip(upper, c); }
  }

  /** The '=' itself is refused wherever it is looked up. */
  lemma PadNeverSlips(upper: char -> string, c: char)
    requires Uppercases(upper) && Slips(upper, c)
    ensures c != '='
  {
    if c == '=' {
      assert upper(c) == [ToUpper(c)];
      assert Refused(upper(c)[0]);
    }
  }

  /** A text of one slipping character is decoded to some bytes. */
  lemma SlippingTextDecodes(upper: char -> string, c: char) returns (bytes: seq<int>)
    requires Uppercases(upper) && Slips(upper, c)
    ensures Decodes(Uppercased(upper, [c]), Some(bytes))
  {
    var text := Uppercased(upper, [c]);
    PadNeverSlips(upper, c);
    BodyCons(c, []);
    assert [c] + [] == [c] && Body([c]) == [c];
    BodyUppercased(upper, [c]);
    AcceptableUppercased(upper, [c]);
    bytes := WholeGroups(Concat(Values(Body(text)), 5), 8);
  }

  /** "\U{DF}" (sharp s) slips through where it is upper-cased to "SS". */
  lemma SharpSSlips(upper: char -> string)
    requires upper('\U{DF}') == "SS"
    ensures Slips(upper, '\U{DF}')
  {
  }

  /** So does every character beyond the table that is its own upper case: two of them are taken
      for two zero digits, which make one zero byte.  */
  lemma BeyondTableReadsAsZero(upper: char -> string, c: char)
    requires c as int >= 256 && upper(c) == [c]
    ensures Slips(upper, c) && Decodes(Uppercased(upper, [c, c]), Some([0]))
  {
    var text := [c, c];
    assert text[1..] == [c] && [c][1..] == [];
    assert Uppercased(upper, [c]) == upper(c) + Uppercased(upper, []);
    assert Uppercased(upper, text) == text;
    assert PadAt(text, 2) == 2 && PadAt(text, 1) == 2;
    assert Body(text) == text;
    assert Values(text) == [0, 0];
    AllZero([0, 0], 5);
    AllZero([0], 8);
    ConcatLength([0, 0], 5);
    ConcatLength([0], 8);
  }
}
