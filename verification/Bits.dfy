/** Integers as bit strings, most significant bit first.  Negative numbers are read in
    two's complement, as JavaScript's bitwise operators do.  */
module Bits {

  function Pow2(n: nat): (p: int)
    ensures p >= 1
  {
    if n == 0 then 1 else 2 * Pow2(n - 1)
  }

  /** The low `w` bits of `v`. */
  function ToBits(v: int, w: nat): (bits: seq<bool>)
    ensures |bits| == w
    decreases w
  {
    if w == 0 then [] else ToBits(v / 2, w - 1) + [v % 2 == 1]
  }

  function FromBits(bits: seq<bool>): (v: int)
    ensures v >= 0
  {
    if bits == [] then 0 else 2 * FromBits(bits[..|bits| - 1]) + (if bits[|bits| - 1] then 1 else 0)
  }

  lemma {:induction false} BitsRoundTrip(bits: seq<bool>)
    ensures ToBits(FromBits(bits), |bits|) == bits && FromBits(bits) < Pow2(|bits|)
  {
    if bits != [] {
      BitsRoundTrip(bits[..|bits| - 1]);
    }
  }

  lemma {:induction false} ValueRoundTrip(v: int, w: nat)
    requires 0 <= v < Pow2(w)
    ensures FromBits(ToBits(v, w)) == v
  {
    if w > 0 {
      ValueRoundTrip(v / 2, w - 1);
      assert ToBits(v, w)[..w - 1] == ToBits(v / 2, w - 1);
    }
  }

  /** Adding a multiple of 2^w leaves the low `w` bits alone: why 32-bit wrap-around of the
      shift register is harmless.  */
  lemma {:induction false} LowBitsIgnoreHigh(v: int, m: int, w: nat)
    ensures ToBits(v + m * Pow2(w), w) == ToBits(v, w)
    decreases w
  {
    if w > 0 {
      var p := Pow2(w - 1);
      assert m * Pow2(w) == 2 * (m * p);
      assert (v + 2 * (m * p)) / 2 == v / 2 + m * p && (v + 2 * (m * p)) % 2 == v % 2;
      LowBitsIgnoreHigh(v / 2, m, w - 1);
    }
  }

  /** Shifting in `k` low bits. */
  lemma {:induction false} ShiftIn(v: int, c: int, w: nat, k: nat)
    requires 0 <= c < Pow2(k)
    ensures ToBits(v * Pow2(k) + c, w + k) == ToBits(v, w) + ToBits(c, k)
    decreases k
  {
    if k == 0 {
      assert v * Pow2(0) + c == v;
      assert ToBits(v, w) + [] == ToBits(v, w);
    } else {
      var p := Pow2(k - 1);
      assert v * Pow2(k) == 2 * (v * p);
      assert (2 * (v * p) + c) / 2 == v * p + c / 2 && (2 * (v * p) + c) % 2 == c % 2;
      ShiftIn(v, c / 2, w, k - 1);
    }
  }

  lemma {:induction false} Pow2Adds(a: nat, b: nat)
    ensures Pow2(a + b) == Pow2(a) * Pow2(b)
    decreases b
  {
    if b > 0 {
      Pow2Adds(a, b - 1);
      assert Pow2(a) * (2 * Pow2(b - 1)) == 2 * (Pow2(a) * Pow2(b - 1));
    }
  }

  /** The low `w + k` bits are the `w` bits above position `k`, then the low `k` bits. */
  lemma {:induction false} SplitLow(v: int, w: nat, k: nat)
    ensures ToBits(v, w + k) == ToBits(v / Pow2(k), w) + ToBits(v, k)
  {
    var q, r := v / Pow2(k), v % Pow2(k);
    assert v == q * Pow2(k) + r;
    ShiftIn(q, r, w, k);
    LowBitsIgnoreHigh(r, q, k);
  }

  lemma {:induction false} ZeroBits(w: nat)
    ensures forall i | 0 <= i < w :: !ToBits(0, w)[i]
  {
    if w > 0 { ZeroBits(w - 1); }
  }

  /** Masking keeps the low bits. */
  lemma MaskKeepsLow(v: int, w: nat)
    ensures 0 <= v % Pow2(w) < Pow2(w) && ToBits(v % Pow2(w), w) == ToBits(v, w)
  {
    var q, r := v / Pow2(w), v % Pow2(w);
    assert v == r + q * Pow2(w);
    LowBitsIgnoreHigh(r, q, w);
  }

  // ── JavaScript's bitwise operators ──────────────────────────────────────────

  /** `ToInt32`: every bitwise operator brings its result into the signed 32-bit range. */
  function Wrap32(v: int): (r: int)
    ensures -0x8000_0000 <= r < 0x8000_0000
  {
    (v + 0x8000_0000) % 0x1_0000_0000 - 0x8000_0000
  }

  /** `(v << k) | c`, where `c` fits in the `k` positions the shift leaves empty. */
  function ShiftOr(v: int, k: nat, c: int): int
    requires Fits(c, k)
  {
    Wrap32(v * Pow2(k)) + c
  }

  /** `(v >> k) & mask` with a mask of `w` ones; `/` rounds down, as `>>` does. */
  function ShiftMask(v: int, k: nat, w: nat): (r: int)
    ensures Fits(r, w)
  {
    v / Pow2(k) % Pow2(w)
  }

  lemma Pow2Of32()
    ensures Pow2(32) == 0x1_0000_0000
  {
    assert Pow2(8) == 256;
    Pow2Adds(8, 8);
    Pow2Adds(16, 16);
  }

  lemma WrapIsMultiple(v: int) returns (m: int)
    ensures Wrap32(v) == v + m * Pow2(32)
  {
    Pow2Of32();
    m := -((v + 0x8000_0000) / 0x1_0000_0000);
  }

  /** What happens above bit 31 cannot be seen in the low 32 bits. */
  lemma LowBitsIgnoreWrap(v: int, m: int, w: nat)
    requires w <= 32
    ensures ToBits(v + m * Pow2(32), w) == ToBits(v, w)
  {
    Pow2Adds(32 - w, w);
    Reassociate(m, Pow2(32 - w), Pow2(w));
    LowBitsIgnoreHigh(v, m * Pow2(32 - w), w);
  }

  lemma LowOfWrapped(x: int, c: int, w: nat)
    requires w <= 32
    ensures ToBits(Wrap32(x) + c, w) == ToBits(x + c, w)
  {
    var m := WrapIsMultiple(x);
    LowBitsIgnoreWrap(x + c, m, w);
  }

  lemma Reassociate(a: int, b: int, c: int)
    ensures a * (b * c) == (a * b) * c
  {
  }

  /** Shifting a value in appends its bits, whatever the register held above them. */
  lemma ShiftOrAppends(v: int, k: nat, c: int, w: nat)
    requires Fits(c, k) && w + k <= 32
    ensures ToBits(ShiftOr(v, k, c), w + k) == ToBits(v, w) + ToBits(c, k)
  {
    LowOfWrapped(v * Pow2(k), c, w + k);
    ShiftIn(v, c, w, k);
  }

  /** Masking out the top `w` of `k + w` bits leaves the other `k`. */
  lemma ShiftMaskSplits(v: int, k: nat, w: nat)
    ensures ToBits(v, w + k) == ToBits(ShiftMask(v, k, w), w) + ToBits(v, k)
  {
    SplitLow(v, w, k);
    MaskKeepsLow(v / Pow2(k), w);
  }

  // ── Fixed-width groups ──────────────────────────────────────────────────────

  /** The groups, each written with `w` bits, one after the other. */
  function Concat(groups: seq<int>, w: nat): seq<bool> {
    if groups == [] then [] else Concat(groups[..|groups| - 1], w) + ToBits(groups[|groups| - 1], w)
  }

  lemma ConcatSnoc(groups: seq<int>, last: int, w: nat)
    ensures Concat(groups + [last], w) == Concat(groups, w) + ToBits(last, w)
  {
    assert (groups + [last])[..|groups|] == groups;
  }

  predicate Fits(v: int, w: nat) {
    0 <= v < Pow2(w)
  }

  predicate InRange(groups: seq<int>, w: nat) {
    forall i | 0 <= i < |groups| :: Fits(groups[i], w)
  }

  lemma {:induction false} AllZero(groups: seq<int>, w: nat)
    requires forall i | 0 <= i < |groups| :: groups[i] == 0
    ensures forall i | 0 <= i < |Concat(groups, w)| :: !Concat(groups, w)[i]
    decreases |groups|
  {
    if groups != [] {
      AllZero(groups[..|groups| - 1], w);
      ZeroBits(w);
    }
  }

  lemma InRangeSnoc(groups: seq<int>, last: int, w: nat)
    requires InRange(groups, w) && Fits(last, w)
    ensures InRange(groups + [last], w)
  {
  }

  lemma SameParts(a: seq<bool>, b: seq<bool>, c: seq<bool>, d: seq<bool>)
    requires a + b == c + d && |a| == |c|
    ensures a == c && b == d
  {
    assert a == (a + b)[..|a|] && b == (a + b)[|a|..];
    assert c == (c + d)[..|c|] && d == (c + d)[|c|..];
  }

  lemma {:induction false} ConcatLength(groups: seq<int>, w: nat)
    ensures |Concat(groups, w)| == |groups| * w
    decreases |groups|
  {
    if groups != [] {
      ConcatLength(groups[..|groups| - 1], w);
      assert |groups| * w == (|groups| - 1) * w + w;
    }
  }

  lemma {:induction false} SameLength(a: seq<int>, b: seq<int>, w: nat)
    requires |a| == |b|
    ensures |Concat(a, w)| == |Concat(b, w)|
    decreases |a|
  {
    if a != [] { SameLength(a[..|a| - 1], b[..|b| - 1], w); }
  }

  /** Groups in range are determined by their bits. */
  lemma {:induction false} ConcatInjective(a: seq<int>, b: seq<int>, w: nat)
    requires |a| == |b| && InRange(a, w) && InRange(b, w) && Concat(a, w) == Concat(b, w)
    ensures a == b
    decreases |a|
  {
    if a != [] {
      var n := |a| - 1;
      SameLength(a[..n], b[..n], w);
      SameParts(Concat(a[..n], w), ToBits(a[n], w), Concat(b[..n], w), ToBits(b[n], w));
      assert Fits(a[n], w) && Fits(b[n], w);
      ValueRoundTrip(a[n], w);
      ValueRoundTrip(b[n], w);
      assert InRange(a[..n], w) && InRange(b[..n], w);
      ConcatInjective(a[..n], b[..n], w);
      assert a == a[..n] + [a[n]] && b == b[..n] + [b[n]];
    }
  }

  // ── Regrouping through a shift register ─────────────────────────────────────

  /** The bits taken in are those put out and the low `bits` still in the register. */
  predicate Buffered(ins: seq<int>, inWidth: nat, outs: seq<int>, outWidth: nat, buf: int, bits: nat) {
    Concat(ins, inWidth) == Concat(outs, outWidth) + ToBits(buf, bits)
  }

  /** `(buf << inWidth) | c` */
  method Push(ghost ins: seq<int>, inWidth: nat, ghost outs: seq<int>, ghost outWidth: nat,
              buf: int, ghost bits: nat, c: int)
    returns (shifted: int)
    requires Buffered(ins, inWidth, outs, outWidth, buf, bits)
    requires Fits(c, inWidth) && bits + inWidth <= 32
    ensures Buffered(ins + [c], inWidth, outs, outWidth, shifted, bits + inWidth)
  {
    shifted := ShiftOr(buf, inWidth, c);
    ShiftOrAppends(buf, inWidth, c, bits);
    ConcatSnoc(ins, c, inWidth);
  }

  /** `(buf >> (bits - outWidth)) & mask` */
  method Pull(ghost ins: seq<int>, ghost inWidth: nat, ghost outs: seq<int>, outWidth: nat, buf: int, bits: nat)
    returns (group: int)
    requires Buffered(ins, inWidth, outs, outWidth, buf, bits) && outWidth <= bits
    ensures Fits(group, outWidth)
    ensures Buffered(ins, inWidth, outs + [group], outWidth, buf, bits - outWidth)
  {
    group := ShiftMask(buf, bits - outWidth, outWidth);
    ShiftMaskSplits(buf, bits - outWidth, outWidth);
    ConcatSnoc(outs, group, outWidth);
  }

  /** Take one group in and put one out if the register holds enough bits. */
  method Feed(ghost ins: seq<int>, inWidth: nat, outs: seq<int>, outWidth: nat, buf: int, bits: nat, c: int)
    returns (outs': seq<int>, buf': int, bits': nat)
    requires Buffered(ins, inWidth, outs, outWidth, buf, bits) && InRange(outs, outWidth)
    requires Fits(c, inWidth) && bits < outWidth && inWidth <= outWidth <= 16
    ensures Buffered(ins + [c], inWidth, outs', outWidth, buf', bits') && InRange(outs', outWidth)
    ensures bits' < outWidth
  {
    buf' := Push(ins, inWidth, outs, outWidth, buf, bits, c);
    outs', bits' := outs, bits + inWidth;
    if bits' >= outWidth {
      var group := Pull(ins + [c], inWidth, outs, outWidth, buf', bits');
      outs', bits' := outs + [group], bits' - outWidth;
    }
  }

  /** `(buf << (outWidth - bits)) & mask`: the left-over bits, filled up with zeros. */
  method PullRest(ghost ins: seq<int>, ghost inWidth: nat, ghost outs: seq<int>, outWidth: nat, buf: int, bits: nat)
    returns (group: int)
    requires Buffered(ins, inWidth, outs, outWidth, buf, bits) && 0 < bits < outWidth <= 32
    ensures Fits(group, outWidth)
    ensures PaddedTo(Concat(ins, inWidth), Concat(outs + [group], outWidth), outWidth)
  {
    var room := outWidth - bits;
    group := ShiftMask(ShiftOr(buf, room, 0), 0, outWidth);
    RestIsPadded(buf, bits, room);
    ConcatSnoc(outs, group, outWidth);
    ZeroBits(room);
    PadTail(Concat(outs, outWidth), ToBits(buf, bits), ToBits(0, room), outWidth);
  }

  lemma RestIsPadded(buf: int, bits: nat, room: nat)
    requires bits + room <= 32
    ensures ToBits(ShiftMask(ShiftOr(buf, room, 0), 0, bits + room), bits + room)
         == ToBits(buf, bits) + ToBits(0, room)
  {
    ShiftOrAppends(buf, room, 0, bits);
    ShiftMaskSplits(ShiftOr(buf, room, 0), 0, bits + room);
  }

  /** `padded` is `bits` filled up with fewer than `w` zeros. */
  predicate PaddedTo(bits: seq<bool>, padded: seq<bool>, w: nat) {
    && bits <= padded && |padded| < |bits| + w
    && forall i | |bits| <= i < |padded| :: !padded[i]
  }

  lemma PadTail(front: seq<bool>, tail: seq<bool>, zeros: seq<bool>, w: nat)
    requires |zeros| < w && forall i | 0 <= i < |zeros| :: !zeros[i]
    ensures PaddedTo(front + tail, front + (tail + zeros), w)
  {
    assert front + (tail + zeros) == (front + tail) + zeros;
  }

  /** Two ways to fill up the same octets' bits to digits are the same. */
  lemma PaddingIsUnique(bits: seq<bool>, a: seq<int>, b: seq<int>)
    requires InRange(a, 5) && InRange(b, 5)
    requires PaddedTo(bits, Concat(a, 5), 5) && PaddedTo(bits, Concat(b, 5), 5)
    ensures a == b
  {
    ConcatLength(a, 5);
    ConcatLength(b, 5);
    assert |a| == |b|;
    SamePadding(bits, Concat(a, 5), Concat(b, 5), 5);
    ConcatInjective(a, b, 5);
  }

  lemma SamePadding(bits: seq<bool>, p: seq<bool>, q: seq<bool>, w: nat)
    requires PaddedTo(bits, p, w) && PaddedTo(bits, q, w) && |p| == |q|
    ensures p == q
  {
    forall i | 0 <= i < |p|
      ensures p[i] == q[i]
    {
      if i < |bits| { assert p[i] == bits[i] == q[i]; } else { assert !p[i] && !q[i]; }
    }
  }

  /** Any bits have their whole groups. */
  lemma {:induction false} WholeGroups(bits: seq<bool>, w: nat) returns (groups: seq<int>)
    requires w > 0
    ensures InRange(groups, w) && Concat(groups, w) <= bits && |bits| < |Concat(groups, w)| + w
    decreases |bits|
  {
    if bits == [] {
      groups := [];
    } else {
      groups := WholeGroups(bits[..|bits| - 1], w);
      var done := |Concat(groups, w)|;
      if |bits| == done + w {
        var last := bits[done..];
        BitsRoundTrip(last);
        InRangeSnoc(groups, FromBits(last), w);
        ConcatSnoc(groups, FromBits(last), w);
        groups := groups + [FromBits(last)];
      }
    }
  }

  /** `groups` are the whole octets among `bits`. */
  predicate WholeOctets(groups: seq<int>, bits: seq<bool>) {
    InRange(groups, 8) && Concat(groups, 8) <= bits && |bits| < |Concat(groups, 8)| + 8
  }

  lemma WholeOctetsAreUnique(a: seq<int>, b: seq<int>, bits: seq<bool>)
    requires WholeOctets(a, bits) && WholeOctets(b, bits)
    ensures a == b
  {
    ConcatLength(a, 8);
    ConcatLength(b, 8);
    assert |a| == |b|;
    SamePrefix(Concat(a, 8), Concat(b, 8), bits);
    ConcatInjective(a, b, 8);
  }

  lemma SamePrefix(a: seq<bool>, b: seq<bool>, s: seq<bool>)
    requires a <= s && b <= s && |a| == |b|
    ensures a == b
  {
  }
}
