/** QUIC variable-length integers (section 16 of RFC 9000). */
module Varint {
  import opened Bytes

  const MAX_VARINT: nat := 0x3FFF_FFFF_FFFF_FFFF

  function VarintLen(value: nat): (n: nat)
    ensures n in {1, 2, 4, 8}
  {
    if value <= 63 then 1 else if value <= 16383 then 2 else if value <= 1_073_741_823 then 4 else 8
  }

  /** The low `n` bytes of `v`, most significant first: `to_be_bytes`. */
  function BigEndian(v: nat, n: nat): (s: Bytes)
    ensures |s| == n
  {
    if n == 0 then [] else BigEndian(v / 256, n - 1) + [v % 256]
  }

  function FromBigEndian(s: Bytes): nat {
    if s == [] then 0 else FromBigEndian(s[..|s| - 1]) * 256 + s[|s| - 1]
  }

  function Pow256(n: nat): (p: nat)
    ensures p > 0
  {
    if n == 0 then 1 else 256 * Pow256(n - 1)
  }

  /** The two-bit length code that the first byte carries. */
  function Tag(n: nat): nat
    requires n in {1, 2, 4, 8}
  {
    if n == 1 then 0 else if n == 2 then 1 else if n == 4 then 2 else 3
  }

  function WidthOf(tag: nat): (n: nat)
    requires tag < 4
    ensures n in {1, 2, 4, 8} && Tag(n) == tag
  {
    if tag == 0 then 1 else if tag == 1 then 2 else if tag == 2 then 4 else 8
  }

  /** The canonical encoding. */
  function VarintBytes(value: nat): (s: Bytes)
    requires value <= MAX_VARINT
    ensures |s| == VarintLen(value)
  {
    var n := VarintLen(value);
    FirstByteFits(value);
    var s := BigEndian(value, n);
    s[0 := s[0] + 64 * Tag(n)]
  }

  /** Decode the varint at the front of `s`: its value and how many bytes it took. */
  function DecodeVarint(s: Bytes): (r: Result<(U64, nat)>)
    ensures r.Ok? ==> 1 <= r.value.1 <= |s| && r.value.1 in {1, 2, 4, 8} && r.value.0 <= MAX_VARINT
  {
    if s == [] then Err(BufferTooSmall(1))
    else
      var n := WidthOf(s[0] / 64);
      if |s| < n then Err(BufferTooSmall(n))
      else
        var body := s[..n][0 := s[0] % 64];
        BodyBound(body);
        Ok((FromBigEndian(body), n))
  }

  // --------------------------------------------------------------------------------

  lemma {:induction false} BigEndianRoundTrip(v: nat, n: nat)
    requires v < Pow256(n)
    ensures FromBigEndian(BigEndian(v, n)) == v
  {
    if n > 0 {
      BigEndianRoundTrip(v / 256, n - 1);
      var s := BigEndian(v, n);
      assert s[..|s| - 1] == BigEndian(v / 256, n - 1);
    }
  }

  /** The first of `n` big-endian bytes is the quotient by all the others. */
  lemma {:induction false} FirstByte(v: nat, n: nat, bound: nat)
    requires n > 0 && bound <= 256 && v < bound * Pow256(n - 1)
    ensures BigEndian(v, n)[0] < bound
  {
    if n > 1 {
      FirstByte(v / 256, n - 1, bound);
    }
  }

  lemma {:induction false} HighByteValue(s: Bytes, bound: nat)
    requires s != [] && s[0] < bound
    ensures FromBigEndian(s) < bound * Pow256(|s| - 1)
  {
    if |s| == 1 {
      assert s[..0] == [];
    } else {
      HighByteValue(s[..|s| - 1], bound);
      var p := Pow256(|s| - 2);
      assert bound * (256 * p) == 256 * (bound * p);
    }
  }

  lemma Powers()
    ensures Pow256(0) == 1 && Pow256(1) == 256 && Pow256(3) == 0x100_0000 && Pow256(7) == 0x100_0000_0000_0000
    ensures Pow256(2) == 0x1_0000 && Pow256(4) == 0x1_0000_0000 && Pow256(8) == 0x1_0000_0000_0000_0000
  {
    assert Pow256(5) == 256 * Pow256(4) && Pow256(6) == 256 * Pow256(5);
  }

  lemma FirstByteFits(value: nat)
    requires value <= MAX_VARINT
    ensures BigEndian(value, VarintLen(value))[0] < 64
    ensures value < Pow256(VarintLen(value))
  {
    Powers();
    FirstByte(value, VarintLen(value), 64);
  }

  lemma BodyBound(body: Bytes)
    requires |body| in {1, 2, 4, 8} && body[0] < 64
    ensures FromBigEndian(body) <= MAX_VARINT
  {
    Powers();
    HighByteValue(body, 64);
  }

  /** Decoding an encoding, whatever follows it, gives back the value and exactly its bytes. */
  lemma VarintRoundTrip(value: nat, rest: Bytes)
    requires value <= MAX_VARINT
    ensures DecodeVarint(VarintBytes(value) + rest) == Ok((value, VarintLen(value)))
  {
    var n := VarintLen(value);
    var s := VarintBytes(value) + rest;
    FirstByteFits(value);
    BigEndianRoundTrip(value, n);
    assert s[0] / 64 == Tag(n);
    assert s[..n][0 := s[0] % 64] == BigEndian(value, n);
  }

  /** Every value fits its shortest width, and no shorter canonical form of it exists. */
  lemma VarintShortest(value: nat, s: Bytes)
    requires value <= MAX_VARINT && DecodeVarint(s) == Ok((value, |s|))
    ensures VarintLen(value) <= |s|
  {
    var body := s[0 := s[0] % 64];
    assert s[..|s|] == s;
    Powers();
    HighByteValue(body, 64);
  }

  /** Write `value` at `buf[pos..hi]`, as `encode_varint` does into that slice. */
  method EncodeVarint(value: U64, buf: array<Byte>, pos: nat, hi: nat) returns (r: Result<nat>)
    requires pos <= hi <= buf.Length
    modifies buf
    ensures r.Ok? <==> value <= MAX_VARINT && VarintLen(value) <= hi - pos
    ensures r.Ok? ==> r.value == pos + VarintLen(value)
    ensures r.Ok? ==> Spliced(old(buf[..]), buf[..], pos, VarintBytes(value))
    ensures r.Err? ==> buf[..] == old(buf[..])
    ensures r.Err? ==> r.error == if value > MAX_VARINT then InternalError else BufferTooSmall(VarintLen(value))
  {
    if value > MAX_VARINT {
      return Err(InternalError);
    }
    var n := VarintLen(value);
    if hi - pos < n {
      return Err(BufferTooSmall(n));
    }
    CopyInto(buf, pos, VarintBytes(value));
    return Ok(pos + n);
  }
}
