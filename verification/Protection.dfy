/**
 Packet numbers on the wire (section 17.1 and appendix A of RFC 9000), nonces, and packet
 protection with its removal (sections 5.3 and 5.4 of RFC 9001).

 The AEAD and the header-protection cipher are any functions with the laws of `Sound`.
 */
module Protection {
  import opened Bytes
  import opened Varint
  import KeyUpdate

  const TAG: nat := 16

  // --------------------------------------------------------------------------------
  // Packet numbers
  // --------------------------------------------------------------------------------

  function PnLength(pn: nat, largestAcked: nat): (n: nat)
    ensures 1 <= n <= 4
  {
    var unacked := if pn > largestAcked then pn - largestAcked else 1;
    if unacked < 0x80 then 1 else if unacked < 0x8000 then 2 else if unacked < 0x80_0000 then 3 else 4
  }

  function Window(n: nat): (w: nat)
    requires 1 <= n <= 4
    ensures w > 0 && w % 2 == 0
  {
    if n == 1 then 0x100 else if n == 2 then 0x1_0000 else if n == 3 then 0x100_0000 else 0x1_0000_0000
  }

  function DecodePn(truncated: nat, n: nat, largest: nat): nat
    requires 1 <= n <= 4
  {
    var w := Window(n);
    var expected := largest + 1;
    var candidate := expected - expected % w + truncated;
    if candidate + w / 2 <= expected && candidate + w <= 0x4000_0000_0000_0000 then candidate + w
    else if candidate > expected + w / 2 && candidate >= w then candidate - w
    else candidate
  }

  /**
   A receiver that has seen `largest` recovers `pn` from its `n` low bytes: `pn` lies within
   half a window of the next expected number, or in the same window as it and too close to
   either end of the number space for the decoder to step to the neighbouring window.
   */
  predicate Recovers(pn: nat, n: nat, largest: nat)
    requires 1 <= n <= 4
  {
    var w := Window(n);
    var expected := largest + 1;
    || (pn <= expected + w / 2 && expected < pn + w / 2)
    || (pn < w && expected < w && pn > expected + w / 2)
    || (pn / w == expected / w && pn + w / 2 <= expected && pn + w > 0x4000_0000_0000_0000)
  }

  lemma DecodeExactly(pn: nat, n: nat, largest: nat)
    requires 1 <= n <= 4 && pn <= MAX_VARINT
    ensures DecodePn(pn % Window(n), n, largest) == pn <==> Recovers(pn, n, largest)
  {
    if n == 1 { DecodeWith(pn, 0x100, largest, 1); }
    else if n == 2 { DecodeWith(pn, 0x1_0000, largest, 2); }
    else if n == 3 { DecodeWith(pn, 0x100_0000, largest, 3); }
    else { DecodeWith(pn, 0x1_0000_0000, largest, 4); }
  }

  lemma DecodeWith(pn: nat, w: nat, largest: nat, n: nat)
    requires 1 <= n <= 4 && pn <= MAX_VARINT && w == Window(n)
    ensures DecodePn(pn % w, n, largest) == pn <==> Recovers(pn, n, largest)
  {
    var expected := largest + 1;
    var a, b := pn / w, expected / w;
    assert pn == a * w + pn % w && expected == b * w + expected % w;
    var c := expected - expected % w + pn % w;
    assert c == b * w + pn % w;
    assert c - pn == (b - a) * w;
    Multiples(b - a, w);
  }

  lemma Multiples(k: int, w: nat)
    ensures k == 0 ==> k * w == 0
    ensures k == 1 ==> k * w == w
    ensures k == -1 ==> k * w == 0 - w as int
    ensures k >= 2 ==> k * w >= 2 * w
    ensures k <= -2 ==> k * w <= 0 - 2 * w as int
  {
  }

  /**
   The length chosen against a number the receiver has reached is enough: with `known` at or
   below the receiver's largest and less than 2^31 below `pn`, the receiver recovers `pn`.
   */
  lemma LengthSuffices(pn: nat, known: nat, largest: nat)
    requires known <= largest < pn <= MAX_VARINT && pn - known < 0x8000_0000
    ensures DecodePn(pn % Window(PnLength(pn, known)), PnLength(pn, known), largest) == pn
  {
    DecodeExactly(pn, PnLength(pn, known), largest);
  }

  /** It is the smallest length whose range is more than twice the distance. */
  lemma LengthLeast(pn: nat, known: nat, n: nat)
    requires known < pn && pn - known < 0x8000_0000 && 1 <= n <= 4
    ensures n >= PnLength(pn, known) <==> 2 * (pn - known) < Window(n)
  {
  }

  /**
   The builders pass the largest number received from the peer, which says nothing about what
   the peer has reached: after 399 lost packets this one is taken for another number.
   */
  lemma LengthAgainstOwnReceipts()
    ensures var n := PnLength(500, 1_000_000);
            !Recovers(500, n, 100) && DecodePn(500 % Window(n), n, 100) == 244
  {
  }

  // --------------------------------------------------------------------------------
  // Nonces
  // --------------------------------------------------------------------------------

  function XorB(a: Byte, b: Byte): (r: Byte) {
    XorByte(a, b);
    Xor(a, b)
  }

  /** Bytes of a full packet number, as a nonce takes it in. */
  const NUMBER_WIDTH: nat := 8

  function XorSeq(s: Bytes, t: Bytes): (r: Bytes)
    requires |s| == |t|
    ensures |r| == |s| && forall i :: 0 <= i < |s| ==> r[i] == XorB(s[i], t[i])
  {
    seq(|s|, i requires 0 <= i < |s| => XorB(s[i], t[i]))
  }

  /** The IV with the packet number exclusive-ored into its last eight bytes. */
  function NonceOf(iv: Bytes, pn: U64): (n: Bytes)
    requires |iv| == 12
    ensures |n| == 12
  {
    iv[..4] + XorSeq(iv[4..], BigEndian(pn, NUMBER_WIDTH))
  }

  method Nonce(iv: Bytes, pn: U64) returns (nonce: Bytes)
    requires |iv| == 12
    ensures nonce == NonceOf(iv, pn)
  {
    var n := new Byte[12](i requires 0 <= i < 12 => iv[i]);
    var pnBytes := BigEndian(pn, NUMBER_WIDTH);
    for i := 0 to 8
      invariant forall k :: 0 <= k < 4 + i ==> n[k] == NonceOf(iv, pn)[k]
      invariant forall k :: 4 + i <= k < 12 ==> n[k] == iv[k]
    {
      hide BigEndian, XorB;
      n[12 - 8 + i] := XorB(n[12 - 8 + i], pnBytes[i]);
    }
    assert n[..] == NonceOf(iv, pn);
    return n[..];
  }

  lemma XorCancels(a: Byte, b: Byte, c: Byte)
    requires XorB(a, b) == XorB(a, c)
    ensures b == c
  {
    XorComm(a, b);
    XorComm(a, c);
    XorUndo(b, a);
    XorUndo(c, a);
  }

  lemma {:induction false} XorComm(a: nat, b: nat)
    ensures Xor(a, b) == Xor(b, a)
    decreases a + b
  {
    if a + b > 0 { XorComm(a / 2, b / 2); }
  }

  lemma BigEndianInjective(p: U64, q: U64)
    requires BigEndian(p, NUMBER_WIDTH) == BigEndian(q, NUMBER_WIDTH)
    ensures p == q
  {
    Powers();
    BigEndianRoundTrip(p, NUMBER_WIDTH);
    BigEndianRoundTrip(q, NUMBER_WIDTH);
  }

  /** Under one IV, different packet numbers have different nonces. */
  lemma NonceInjective(iv: Bytes, p: U64, q: U64)
    requires |iv| == 12 && NonceOf(iv, p) == NonceOf(iv, q)
    ensures p == q
  {
    hide BigEndian, XorB;
    var bp, bq := BigEndian(p, NUMBER_WIDTH), BigEndian(q, NUMBER_WIDTH);
    forall i | 0 <= i < 8 ensures bp[i] == bq[i] {
      assert NonceOf(iv, p)[4 + i] == XorB(iv[4 + i], bp[i]) && NonceOf(iv, q)[4 + i] == XorB(iv[4 + i], bq[i]);
      XorCancels(iv[4 + i], bp[i], bq[i]);
    }
    assert bp == bq;
    BigEndianInjective(p, q);
  }

  /** In every run of the key update protocol, no two packets of one side that share a key share a nonce. */
  lemma NoNonceReuse(s: KeyUpdate.System, c: KeyUpdate.Sealed, d: KeyUpdate.Sealed, iv: Bytes)
    requires KeyUpdate.Reachable(s) && c in s.sent && d in s.sent && c != d
    requires c.from == d.from && c.gen == d.gen
    requires c.pn < 0x1_0000_0000_0000_0000 && d.pn < 0x1_0000_0000_0000_0000 && |iv| == 12
    ensures NonceOf(iv, c.pn) != NonceOf(iv, d.pn)
  {
    if NonceOf(iv, c.pn) == NonceOf(iv, d.pn) {
      NonceInjective(iv, c.pn, d.pn);
      KeyUpdate.PacketNumbersUnique(s, c, d);
    }
  }

  // --------------------------------------------------------------------------------
  // Protecting and opening
  // --------------------------------------------------------------------------------

  /** The primitives behind one set of directional keys. */
  datatype Suite = Suite(
    seal: (Bytes, Bytes, Bytes) -> Bytes,
    open: (Bytes, Bytes, Bytes) -> Option<Bytes>,
    mask: Bytes -> Bytes,
    iv: Bytes)

  /** Sealing adds a 16-byte tag, opening undoes sealing, a mask has five bytes. */
  ghost predicate Sound(c: Suite) {
    && |c.iv| == 12
    && (forall n, a, p :: |c.seal(n, a, p)| == |p| + TAG)
    && (forall n, a, p :: c.open(n, a, c.seal(n, a, p)) == Some(p))
    && (forall s :: |c.mask(s)| == 5)
  }

  /** The bits of the first byte that header protection covers. */
  function Covered(m: Byte, isLong: bool): Byte { if isLong then m % 16 else m % 32 }

  /** Apply a mask to the first byte and the packet-number bytes; applying it again takes it off. */
  function Masked(p: Bytes, pnOffset: nat, pnLen: nat, mask: Bytes, isLong: bool): (r: Bytes)
    requires 0 < pnOffset && pnLen <= 4 && pnOffset + pnLen <= |p| && |mask| == 5
    ensures |r| == |p|
  {
    seq(|p|, i requires 0 <= i < |p| =>
      if i == 0 then XorB(p[0], Covered(mask[0], isLong))
      else if pnOffset <= i < pnOffset + pnLen then XorB(p[i], mask[1 + i - pnOffset])
      else p[i])
  }

  function Sample(p: Bytes, pnOffset: nat): Bytes
    requires pnOffset + 20 <= |p|
  {
    p[pnOffset + 4..pnOffset + 20]
  }

  function PnLenOf(first: Byte): (n: nat)
    ensures 1 <= n <= 4
  {
    first % 4 + 1
  }

  /** The protected packet made of `head` (header and packet number) and the plaintext. */
  function Protect(c: Suite, head: Bytes, pnOffset: nat, plain: Bytes, pn: U64, isLong: bool): Result<Bytes>
    requires |c.iv| == 12 && 0 < pnOffset && pnOffset < |head| <= pnOffset + 4
    requires forall s :: |c.mask(s)| == 5
  {
    var whole := head + c.seal(NonceOf(c.iv, pn), head, plain);
    if pnOffset + 20 > |whole| then Err(Crypto)
    else Ok(Masked(whole, pnOffset, |head| - pnOffset, c.mask(Sample(whole, pnOffset)), isLong))
  }

  /** What opening a packet yields. */
  datatype Opened = Opened(head: Bytes, pn: nat, plain: Bytes)

  /** Remove protection from a packet whose number starts at `pnOffset` and open it. */
  function Open(c: Suite, pkt: Bytes, pnOffset: nat, largest: nat, isLong: bool): Result<Opened>
    requires |c.iv| == 12 && 0 < pnOffset
    requires forall s :: |c.mask(s)| == 5
  {
    if pnOffset + 20 > |pkt| then Err(Crypto)
    else
      var mask := c.mask(Sample(pkt, pnOffset));
      var n := PnLenOf(XorB(pkt[0], Covered(mask[0], isLong)));
      OpenClear(c, Masked(pkt, pnOffset, n, mask, isLong), pnOffset, n, largest)
  }

  /** Open a packet whose header is already in the clear. */
  function OpenClear(c: Suite, clear: Bytes, pnOffset: nat, n: nat, largest: nat): Result<Opened>
    requires |c.iv| == 12 && 1 <= n <= 4 && pnOffset + n <= |clear|
  {
    var pn := DecodePn(FromBigEndian(clear[pnOffset..pnOffset + n]), n, largest);
    if pn > MAX_VARINT then Err(ProtocolViolation)
    else
      var head := clear[..pnOffset + n];
      match c.open(NonceOf(c.iv, pn), head, clear[pnOffset + n..])
      case None => Err(Crypto)
      case Some(plain) => Ok(Opened(head, pn, plain))
  }

  /** A mask is its own inverse and never reaches the sample. */
  lemma MaskedTwice(p: Bytes, pnOffset: nat, pnLen: nat, mask: Bytes, isLong: bool)
    requires 0 < pnOffset && pnLen <= 4 && pnOffset + 20 <= |p| && |mask| == 5
    ensures var q := Masked(p, pnOffset, pnLen, mask, isLong);
            && Masked(q, pnOffset, pnLen, mask, isLong) == p
            && Sample(q, pnOffset) == Sample(p, pnOffset)
            && XorB(q[0], Covered(mask[0], isLong)) == p[0]
  {
    hide XorB;
    var q := Masked(p, pnOffset, pnLen, mask, isLong);
    var r := Masked(q, pnOffset, pnLen, mask, isLong);
    forall i | 0 <= i < |p| ensures r[i] == p[i] {
      if i == 0 { XorBUndo(p[0], Covered(mask[0], isLong)); }
      else if pnOffset <= i < pnOffset + pnLen { XorBUndo(p[i], mask[1 + i - pnOffset]); }
    }
    XorBUndo(p[0], Covered(mask[0], isLong));
  }

  /** Every covered bit of the mask shows: two masks give the same packet exactly if they agree on those bits. */
  lemma MaskMatters(p: Bytes, pnOffset: nat, pnLen: nat, a: Bytes, b: Bytes, isLong: bool)
    requires 0 < pnOffset && pnLen <= 4 && pnOffset + pnLen <= |p| && |a| == |b| == 5
    ensures Masked(p, pnOffset, pnLen, a, isLong) == Masked(p, pnOffset, pnLen, b, isLong)
            <==> Covered(a[0], isLong) == Covered(b[0], isLong) && a[1..1 + pnLen] == b[1..1 + pnLen]
  {
    hide XorB, Covered;
    var x, y := Masked(p, pnOffset, pnLen, a, isLong), Masked(p, pnOffset, pnLen, b, isLong);
    SliceAgrees(a, b, 1, 1 + pnLen);
    if x == y {
      assert x[0] == y[0];
      XorCancels(p[0], Covered(a[0], isLong), Covered(b[0], isLong));
      forall k | 1 <= k < 1 + pnLen ensures a[k] == b[k] {
        assert x[pnOffset + k - 1] == y[pnOffset + k - 1];
        XorCancels(p[pnOffset + k - 1], a[k], b[k]);
      }
    }
  }

  lemma SliceAgrees(a: Bytes, b: Bytes, lo: nat, hi: nat)
    requires lo <= hi <= |a| == |b|
    ensures a[lo..hi] == b[lo..hi] <==> forall k :: lo <= k < hi ==> a[k] == b[k]
  {
    if a[lo..hi] == b[lo..hi] {
      forall k | lo <= k < hi ensures a[k] == b[k] {
        assert a[lo..hi][k - lo] == b[lo..hi][k - lo];
      }
    }
  }

  lemma XorBUndo(a: Byte, b: Byte)
    ensures XorB(XorB(a, b), b) == a
  {
    XorUndo(a, b);
  }

  /** The form, type and fixed bits, which the receiver reads before anything else, stay in the clear. */
  lemma TopBitsClear(p: Bytes, pnOffset: nat, pnLen: nat, mask: Bytes, isLong: bool)
    requires 0 < pnOffset && pnLen <= 4 && pnOffset + pnLen <= |p| && |mask| == 5
    ensures var q := Masked(p, pnOffset, pnLen, mask, isLong);
            q[0] / 32 == p[0] / 32 && (isLong ==> q[0] / 16 == p[0] / 16)
  {
    var m := Covered(mask[0], isLong);
    XorKeepsTopBits(p[0], m);
    if isLong { XorKeepsHighNibble(p[0], m); }
  }

  /** A truncated number as written, read back as an integer. */
  lemma {:induction false} TruncatedValue(pn: nat, n: nat)
    requires n <= 4
    ensures FromBigEndian(BigEndian(pn, n)) == pn % Pow256(n)
    decreases n
  {
    if n > 0 {
      TruncatedValue(pn / 256, n - 1);
      var s := BigEndian(pn, n);
      assert s[..n - 1] == BigEndian(pn / 256, n - 1);
      SplitModulo(pn, n);
    }
  }

  lemma SplitModulo(a: nat, n: nat)
    requires 1 <= n <= 4
    ensures a % Pow256(n) == a / 256 % Pow256(n - 1) * 256 + a % 256
  {
    Powers();
    hide Pow256;
    if n == 2 {
      Split2(a, a / 256, a % 256);
    } else if n == 3 {
      Split3(a, a / 256, a % 256);
    } else if n == 4 {
      Split4(a, a / 256, a % 256);
    }
  }

  lemma Split2(a: nat, q: nat, r: nat)
    requires a == 256 * q + r && r < 256
    ensures a % 0x1_0000 == q % 256 * 256 + r
  {
    var k, s := q / 256, q % 256;
    assert a == 0x1_0000 * k + (256 * s + r);
    Remainder2(a, k, 256 * s + r);
  }

  lemma Remainder2(a: nat, k: nat, t: nat)
    requires a == 0x1_0000 * k + t && t < 0x1_0000
    ensures a % 0x1_0000 == t
  {
  }

  lemma Split3(a: nat, q: nat, r: nat)
    requires a == 256 * q + r && r < 256
    ensures a % 0x100_0000 == q % 0x1_0000 * 256 + r
  {
    var k, s := q / 0x1_0000, q % 0x1_0000;
    assert a == 0x100_0000 * k + (256 * s + r);
    Remainder3(a, k, 256 * s + r);
  }

  lemma Remainder3(a: nat, k: nat, t: nat)
    requires a == 0x100_0000 * k + t && t < 0x100_0000
    ensures a % 0x100_0000 == t
  {
  }

  lemma Split4(a: nat, q: nat, r: nat)
    requires a == 256 * q + r && r < 256
    ensures a % 0x1_0000_0000 == q % 0x100_0000 * 256 + r
  {
    var k, s := q / 0x100_0000, q % 0x100_0000;
    assert a == 0x1_0000_0000 * k + (256 * s + r);
    Remainder4(a, k, 256 * s + r);
  }

  lemma Remainder4(a: nat, k: nat, t: nat)
    requires a == 0x1_0000_0000 * k + t && t < 0x1_0000_0000
    ensures a % 0x1_0000_0000 == t
  {
  }

  /** What opens was sealed: opening succeeds on nothing else. */
  ghost predicate Authentic(c: Suite) {
    forall n, a, t :: c.open(n, a, t).Some? ==> c.seal(n, a, c.open(n, a, t).value) == t
  }

  /**
   The other direction of the round trip: under an authentic AEAD a packet that opens is exactly
   the protected packet of the header, number and plaintext it opens to.
   */
  lemma OpensOnlyProtected(c: Suite, pkt: Bytes, pnOffset: nat, largest: nat, isLong: bool)
    requires Sound(c) && Authentic(c) && pnOffset > 0 && Open(c, pkt, pnOffset, largest, isLong).Ok?
    ensures var o := Open(c, pkt, pnOffset, largest, isLong).value;
            && pnOffset < |o.head| <= pnOffset + 4 && o.pn <= MAX_VARINT
            && Protect(c, o.head, pnOffset, o.plain, o.pn, isLong) == Ok(pkt)
  {
    hide XorB, NonceOf, DecodePn, FromBigEndian, Masked;
    var mask := c.mask(Sample(pkt, pnOffset));
    var n := PnLenOf(XorB(pkt[0], Covered(mask[0], isLong)));
    var clear := Masked(pkt, pnOffset, n, mask, isLong);
    MaskedTwice(pkt, pnOffset, n, mask, isLong);
    var o := Open(c, pkt, pnOffset, largest, isLong).value;
    assert o.head == clear[..pnOffset + n];
    assert c.seal(NonceOf(c.iv, o.pn), o.head, o.plain) == clear[pnOffset + n..];
    assert o.head + clear[pnOffset + n..] == clear;
  }

  /**
   Opening undoes protecting, for long and short headers: the receiver gets back the header
   with its length and phase bits, the packet number and the plaintext, if and when it
   recovers the number from the bytes written.
   */
  lemma OpensBack(c: Suite, head: Bytes, pnOffset: nat, plain: Bytes, pn: U64, isLong: bool, largest: nat)
    requires Sound(c) && 0 < pnOffset && pnOffset < |head| <= pnOffset + 4 && pn <= MAX_VARINT
    requires var n := |head| - pnOffset; PnLenOf(head[0]) == n && head[pnOffset..] == BigEndian(pn, n)
    requires Protect(c, head, pnOffset, plain, pn, isLong).Ok?
    requires Recovers(pn, |head| - pnOffset, largest)
    ensures Open(c, Protect(c, head, pnOffset, plain, pn, isLong).value, pnOffset, largest, isLong)
            == Ok(Opened(head, pn, plain))
  {
    hide XorB, NonceOf, DecodePn, Recovers, BigEndian, FromBigEndian, Masked;
    var n := |head| - pnOffset;
    var whole := head + c.seal(NonceOf(c.iv, pn), head, plain);
    var mask := c.mask(Sample(whole, pnOffset));
    MaskedTwice(whole, pnOffset, n, mask, isLong);
    assert whole[pnOffset..pnOffset + n] == head[pnOffset..] && whole[..pnOffset + n] == head;
    assert whole[pnOffset + n..] == c.seal(NonceOf(c.iv, pn), head, plain);
    TruncatedValue(pn, n);
    WindowIsPower(n);
    DecodeExactly(pn, n, largest);
  }

  lemma WindowIsPower(n: nat)
    requires 1 <= n <= 4
    ensures Window(n) == Pow256(n)
  {
    Powers();
  }

  // --------------------------------------------------------------------------------
  // In place
  // --------------------------------------------------------------------------------

  /** Exclusive-or `mask` into the first byte and the packet-number bytes of `buf`. */
  method ApplyMask(buf: array<Byte>, pnOffset: nat, pnLen: nat, mask: Bytes, isLong: bool)
    requires 0 < pnOffset && pnLen <= 4 && pnOffset + pnLen <= buf.Length && |mask| == 5
    modifies buf
    ensures buf[..] == Masked(old(buf[..]), pnOffset, pnLen, mask, isLong)
  {
    hide XorB;
    buf[0] := XorB(buf[0], Covered(mask[0], isLong));
    for i := 0 to pnLen
      invariant buf[0] == XorB(old(buf[0]), Covered(mask[0], isLong))
      invariant forall k :: pnOffset <= k < pnOffset + i ==> buf[k] == XorB(old(buf[k]), mask[1 + k - pnOffset])
      invariant forall k :: 0 < k < buf.Length && !(pnOffset <= k < pnOffset + i) ==> buf[k] == old(buf[k])
    {
      buf[pnOffset + i] := XorB(buf[pnOffset + i], mask[1 + i]);
    }
    ghost var goal := Masked(old(buf[..]), pnOffset, pnLen, mask, isLong);
    assert buf[..] == goal;
  }

  /**
   Seal the plaintext at `out[payloadStart..]` in place, tag included, and protect the header
   before it. It succeeds exactly when the packet with its tag fits the buffer and is long
   enough to be sampled.
   */
  method EncryptAndProtect(out: array<Byte>, pnOffset: nat, payloadStart: nat, plainLen: nat, pn: U64, isLong: bool, c: Suite)
    returns (r: Result<nat>)
    requires Sound(c) && 0 < pnOffset < payloadStart <= pnOffset + 4
    modifies out
    ensures var total := payloadStart + plainLen + TAG;
            && (r.Ok? <==> pnOffset + 20 <= total <= out.Length)
            && (r.Ok? ==> r.value == total && Protected(c, old(out[..]), out[..], pnOffset, payloadStart, plainLen, pn, isLong))
            && (total > out.Length ==> r == Err(BufferTooSmall(total)) && out[..] == old(out[..]))
  {
    var total := payloadStart + plainLen + TAG;
    if total > out.Length {
      return Err(BufferTooSmall(total));
    }
    hide NonceOf, Masked, Protected;
    ghost var was := out[..];
    ghost var head, plain := out[..payloadStart], out[payloadStart..payloadStart + plainLen];
    SealInPlace(out, payloadStart, plainLen, pn, c);
    if pnOffset + 4 + 16 > total {
      return Err(Crypto);
    }
    var pnLen := MaskFront(out, total, pnOffset, Some(payloadStart - pnOffset), isLong, c);
    ShowProtected(c, was, out[..], head, plain, pnOffset, pn, isLong);
    return Ok(total);
  }

  method SealInPlace(out: array<Byte>, payloadStart: nat, plainLen: nat, pn: U64, c: Suite)
    requires Sound(c) && payloadStart + plainLen + TAG <= out.Length
    modifies out
    ensures var total := payloadStart + plainLen + TAG;
            var head, plain := old(out[..payloadStart]), old(out[payloadStart..payloadStart + plainLen]);
            && out[..total] == head + c.seal(NonceOf(c.iv, pn), head, plain)
            && out[total..] == old(out[total..])
  {
    hide NonceOf, Spliced;
    ghost var was := out[..];
    var sealed := c.seal(NonceOf(c.iv, pn), out[..payloadStart], out[payloadStart..payloadStart + plainLen]);
    CopyInto(out, payloadStart, sealed);
    SealedWhole(was, out[..], payloadStart, sealed);
  }

  lemma ShowProtected(c: Suite, was: Bytes, now: Bytes, head: Bytes, plain: Bytes, pnOffset: nat, pn: U64, isLong: bool)
    requires Sound(c) && 0 < pnOffset < |head| <= pnOffset + 4 && |head| + |plain| + TAG <= |was| == |now|
    requires head == was[..|head|] && plain == was[|head|..|head| + |plain|]
    requires var total := |head| + |plain| + TAG;
             var whole := head + c.seal(NonceOf(c.iv, pn), head, plain);
             && pnOffset + 20 <= total
             && now[..total] == Masked(whole, pnOffset, |head| - pnOffset, c.mask(Sample(whole, pnOffset)), isLong)
             && now[total..] == was[total..]
    ensures Protected(c, was, now, pnOffset, |head|, |plain|, pn, isLong)
  {
    hide NonceOf, Masked, Spliced;
    var whole := head + c.seal(NonceOf(c.iv, pn), head, plain);
    SplicedFront(was, now, |whole|, Masked(whole, pnOffset, |head| - pnOffset, c.mask(Sample(whole, pnOffset)), isLong));
  }

  lemma SealedWhole(was: Bytes, now: Bytes, at: nat, sealed: Bytes)
    requires Spliced(was, now, at, sealed)
    ensures now[..at + |sealed|] == was[..at] + sealed && now[at + |sealed|..] == was[at + |sealed|..]
  {
  }

  lemma SplicedFront(was: Bytes, now: Bytes, total: nat, s: Bytes)
    requires total == |s| <= |was| == |now| && now[..total] == s && now[total..] == was[total..]
    ensures Spliced(was, now, 0, s)
  {
    assert now == now[..total] + now[total..];
    assert was[..0] == [];
  }

  /** Sample the first `len` bytes of `buf` and mask their header; an unknown number length is read off the first byte. */
  method MaskFront(buf: array<Byte>, len: nat, pnOffset: nat, known: Option<nat>, isLong: bool, c: Suite) returns (n: nat)
    requires Sound(c) && 0 < pnOffset && (known.Some? ==> known.value <= 4) && pnOffset + 20 <= len <= buf.Length
    modifies buf
    ensures var p := old(buf[..len]);
            && n == (if known.None? then PnLenOf(XorB(p[0], Covered(c.mask(Sample(p, pnOffset))[0], isLong))) else known.value)
            && buf[..len] == Masked(p, pnOffset, n, c.mask(Sample(p, pnOffset)), isLong)
            && buf[len..] == old(buf[len..])
  {
    hide XorB, Masked;
    ghost var was := buf[..];
    var mask := c.mask(buf[pnOffset + 4..pnOffset + 20]);
    assert buf[pnOffset + 4..pnOffset + 20] == Sample(was[..len], pnOffset);
    n := if known.None? then PnLenOf(XorB(buf[0], Covered(mask[0], isLong))) else known.value;
    ApplyMask(buf, pnOffset, n, mask, isLong);
    MaskedPrefix(was, len, pnOffset, n, mask, isLong);
  }

  /** The packet built from the header and plaintext in `was` is at the front of `now`; the rest is untouched. */
  ghost predicate Protected(c: Suite, was: Bytes, now: Bytes, pnOffset: nat, payloadStart: nat, plainLen: nat, pn: U64, isLong: bool)
    requires Sound(c) && 0 < pnOffset < payloadStart <= pnOffset + 4
  {
    && payloadStart + plainLen <= |was|
    && var p := Protect(c, was[..payloadStart], pnOffset, was[payloadStart..payloadStart + plainLen], pn, isLong);
       p.Ok? && Spliced(was, now, 0, p.value)
  }

  lemma MaskedPrefix(p: Bytes, total: nat, pnOffset: nat, pnLen: nat, mask: Bytes, isLong: bool)
    requires 0 < pnOffset && pnLen <= 4 && pnOffset + pnLen <= total <= |p| && |mask| == 5
    ensures var q := Masked(p, pnOffset, pnLen, mask, isLong);
            q[..total] == Masked(p[..total], pnOffset, pnLen, mask, isLong) && q[total..] == p[total..]
  {
    hide XorB;
  }

  /** Copy a packet into `scratch`, take its protection off there and open it. */
  method RemoveProtection(pkt: Bytes, scratch: array<Byte>, pnOffset: nat, largest: nat, isLong: bool, c: Suite)
    returns (r: Result<Opened>)
    requires Sound(c) && 0 < pnOffset
    modifies scratch
    ensures r == if |pkt| > scratch.Length then Err(BufferTooSmall(|pkt|)) else Open(c, pkt, pnOffset, largest, isLong)
  {
    if |pkt| > scratch.Length {
      return Err(BufferTooSmall(|pkt|));
    }
    hide OpenClear, Masked, XorB;
    CopyInto(scratch, 0, pkt);
    assert scratch[..|pkt|] == pkt;
    if pnOffset + 4 + 16 > |pkt| {
      return Err(Crypto);
    }
    var pnLen := MaskFront(scratch, |pkt|, pnOffset, None, isLong, c);
    r := OpenFront(scratch, |pkt|, pnOffset, pnLen, largest, c);
  }

  method OpenFront(buf: array<Byte>, len: nat, pnOffset: nat, pnLen: nat, largest: nat, c: Suite) returns (r: Result<Opened>)
    requires |c.iv| == 12 && 1 <= pnLen <= 4 && pnOffset + pnLen <= len <= buf.Length
    ensures r == OpenClear(c, buf[..len], pnOffset, pnLen, largest)
  {
    hide NonceOf, DecodePn, FromBigEndian;
    var at := pnOffset + pnLen;
    assert buf[pnOffset..at] == buf[..len][pnOffset..at];
    var truncated := ReadPn(buf, pnOffset, pnLen);
    var pn := DecodePn(truncated, pnLen, largest);
    if pn > MAX_VARINT {
      return Err(ProtocolViolation);
    }
    assert buf[..at] == buf[..len][..at] && buf[at..len] == buf[..len][at..];
    match c.open(NonceOf(c.iv, pn), buf[..at], buf[at..len])
    case None => return Err(Crypto);
    case Some(plain) => return Ok(Opened(buf[..at], pn, plain));
  }

  /** The loop that folds the packet-number bytes into an integer. */
  method ReadPn(buf: array<Byte>, pnOffset: nat, pnLen: nat) returns (v: nat)
    requires pnOffset + pnLen <= buf.Length
    ensures v == FromBigEndian(buf[pnOffset..pnOffset + pnLen])
  {
    v := 0;
    for i := 0 to pnLen
      invariant v == FromBigEndian(buf[pnOffset..pnOffset + i])
    {
      var s := buf[pnOffset..pnOffset + i + 1];
      assert s[..i] == buf[pnOffset..pnOffset + i];
      v := v * 256 + buf[pnOffset + i] as int;
    }
  }
}
