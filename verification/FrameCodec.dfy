/** QUIC frames and their wire form (sections 12.4 and 19 of RFC 9000). */
module FrameCodec {
  import opened Bytes
  import opened Varint

  datatype EcnCounts = EcnCounts(ect0: U64, ect1: U64, ecnCe: U64)

  datatype Frame =
    | Padding
    | Ping
    | Ack(largestAck: U64, ackDelay: U64, firstAckRange: U64, ackRanges: Bytes, ecn: Option<EcnCounts>)
    | ResetStream(streamId: U64, errorCode: U64, finalSize: U64)
    | StopSending(streamId: U64, errorCode: U64)
    | CryptoData(offset: U64, data: Bytes)
    | NewToken(token: Bytes)
    | Stream(streamId: U64, offset: U64, data: Bytes, fin: bool)
    | MaxData(limit: U64)
    | MaxStreamData(streamId: U64, maxData: U64)
    | MaxStreams(bidirectional: bool, maxStreams: U64)
    | DataBlocked(limit: U64)
    | StreamDataBlocked(streamId: U64, dataLimit: U64)
    | StreamsBlocked(bidirectional: bool, maxStreams: U64)
    | NewConnectionId(sequenceNumber: U64, retirePriorTo: U64, connectionId: Bytes, resetToken: Bytes)
    | RetireConnectionId(sequenceNumber: U64)
    | PathChallenge(challenge: Bytes)
    | PathResponse(challenge: Bytes)
    | ConnectionClose(isApplication: bool, errorCode: U64, frameType: U64, reason: Bytes)
    | HandshakeDone

  /** The lengths the types of the fields already fix: arrays of 8 and 16, slices addressable in 64 bits. */
  predicate Typed(f: Frame) {
    match f
    case Ack(_, _, _, d, _) => |d| <= MAX_VARINT
    case PathChallenge(d) => |d| == 8
    case PathResponse(d) => |d| == 8
    case NewConnectionId(_, _, cid, token) => |token| == 16 && |cid| <= MAX_VARINT
    case CryptoData(_, d) => |d| <= MAX_VARINT
    case NewToken(d) => |d| <= MAX_VARINT
    case Stream(_, _, d, _) => |d| <= MAX_VARINT
    case ConnectionClose(_, _, _, d) => |d| <= MAX_VARINT
    case _ => true
  }

  // --------------------------------------------------------------------------------
  // Reading
  // --------------------------------------------------------------------------------

  function ReadVarint(buf: Bytes, pos: nat): (r: Result<(U64, nat)>)
    ensures r.Ok? ==> pos < r.value.1 <= |buf|
  {
    if pos >= |buf| then Err(FrameEncodingError)
    else match DecodeVarint(buf[pos..])
         case Ok((v, n)) => Ok((v, pos + n))
         case Err(_) => Err(FrameEncodingError)
  }

  function ReadBytes(buf: Bytes, pos: nat, len: nat): (r: Result<(Bytes, nat)>)
    ensures r.Ok? ==> r.value.1 == pos + len <= |buf| && |r.value.0| == len
  {
    if pos > |buf| || |buf| - pos < len then Err(FrameEncodingError)
    else Ok((buf[pos..pos + len], pos + len))
  }

  /** A varint length followed by that many bytes. */
  function ReadSized(buf: Bytes, pos: nat): (r: Result<(Bytes, nat)>)
    ensures r.Ok? ==> pos < r.value.1 <= |buf|
  {
    var (len, p) :- ReadVarint(buf, pos);
    ReadBytes(buf, p, len)
  }

  /** Step over `count` (gap, range) pairs. */
  function SkipPairs(buf: Bytes, pos: nat, count: nat): (r: Result<nat>)
    requires pos <= |buf|
    ensures r.Ok? ==> pos <= r.value <= |buf|
    decreases count
  {
    if count == 0 then Ok(pos)
    else
      var (_, p1) :- ReadVarint(buf, pos);
      var (_, p2) :- ReadVarint(buf, p1);
      SkipPairs(buf, p2, count - 1)
  }

  function ReadEcn(buf: Bytes, pos: nat): (r: Result<(EcnCounts, nat)>)
    ensures r.Ok? ==> pos < r.value.1 <= |buf|
  {
    var (ect0, p1) :- ReadVarint(buf, pos);
    var (ect1, p2) :- ReadVarint(buf, p1);
    var (ce, p3) :- ReadVarint(buf, p2);
    Ok((EcnCounts(ect0, ect1, ce), p3))
  }

  function DecodeAck(buf: Bytes, pos: nat, withEcn: bool): (r: Result<(Frame, nat)>)
    ensures r.Ok? ==> pos < r.value.1 <= |buf|
  {
    var (largest, p1) :- ReadVarint(buf, pos);
    var (delay, p2) :- ReadVarint(buf, p1);
    var (count, p3) :- ReadVarint(buf, p2);
    var (first, p4) :- ReadVarint(buf, p3);
    var p5 :- SkipPairs(buf, p4, count);
    if withEcn then
      var (ecn, p6) :- ReadEcn(buf, p5);
      Ok((Ack(largest, delay, first, buf[p4..p5], Some(ecn)), p6))
    else
      Ok((Ack(largest, delay, first, buf[p4..p5], None), p5))
  }

  function DecodeStream(buf: Bytes, pos: nat, ty: nat): (r: Result<(Frame, nat)>)
    ensures r.Ok? ==> pos < r.value.1 <= |buf|
  {
    var (id, p1) :- ReadVarint(buf, pos);
    var (offset, p2) :- if ty / 4 % 2 == 1 then ReadVarint(buf, p1) else Ok((0 as U64, p1));
    var (data, p3) :- if ty / 2 % 2 == 1 then ReadSized(buf, p2) else Ok((buf[p2..], |buf|));
    Ok((Stream(id, offset, data, ty % 2 == 1), p3))
  }

  function DecodeNewCid(buf: Bytes, pos: nat): (r: Result<(Frame, nat)>)
    ensures r.Ok? ==> pos < r.value.1 <= |buf|
  {
    var (number, p1) :- ReadVarint(buf, pos);
    var (retire, p2) :- ReadVarint(buf, p1);
    var (len, p3) :- ReadVarint(buf, p2);
    if len > 20 then Err(FrameEncodingError)
    else
      var (cid, p4) :- ReadBytes(buf, p3, len);
      var (token, p5) :- ReadBytes(buf, p4, 16);
      Ok((NewConnectionId(number, retire, cid, token), p5))
  }

  function DecodeClose(buf: Bytes, pos: nat, isApplication: bool): (r: Result<(Frame, nat)>)
    ensures r.Ok? ==> pos < r.value.1 <= |buf|
  {
    var (code, p1) :- ReadVarint(buf, pos);
    var (ty, p2) :- if isApplication then Ok((0 as U64, p1)) else ReadVarint(buf, p1);
    var (reason, p3) :- ReadSized(buf, p2);
    Ok((ConnectionClose(isApplication, code, ty, reason), p3))
  }

  /** Frames whose body is one, two or three varints. */
  function DecodeNumbers(buf: Bytes, pos: nat, ty: nat): (r: Result<(Frame, nat)>)
    requires ty in {0x04, 0x05, 0x10, 0x11, 0x12, 0x13, 0x14, 0x15, 0x16, 0x17, 0x19}
    ensures r.Ok? ==> pos < r.value.1 <= |buf|
  {
    var (a, p1) :- ReadVarint(buf, pos);
    if ty == 0x10 then Ok((MaxData(a), p1))
    else if ty == 0x12 || ty == 0x13 then Ok((MaxStreams(ty == 0x12, a), p1))
    else if ty == 0x14 then Ok((DataBlocked(a), p1))
    else if ty == 0x16 || ty == 0x17 then Ok((StreamsBlocked(ty == 0x16, a), p1))
    else if ty == 0x19 then Ok((RetireConnectionId(a), p1))
    else
      var (b, p2) :- ReadVarint(buf, p1);
      if ty == 0x05 then Ok((StopSending(a, b), p2))
      else if ty == 0x11 then Ok((MaxStreamData(a, b), p2))
      else if ty == 0x15 then Ok((StreamDataBlocked(a, b), p2))
      else
        var (c, p3) :- ReadVarint(buf, p2);
        Ok((ResetStream(a, b, c), p3))
  }

  /**
   Decode one frame from the front of `buf`. Whatever the bytes, a frame that decodes
   takes at least one of them and no more than there are.
   */
  function Decode(buf: Bytes): (r: Result<(Frame, nat)>)
    ensures r.Ok? ==> 1 <= r.value.1 <= |buf|
  {
    var (ty, p) :- ReadVarint(buf, 0);
    if ty == 0x00 then Ok((Padding, p))
    else if ty == 0x01 then Ok((Ping, p))
    else if ty == 0x02 || ty == 0x03 then DecodeAck(buf, p, ty == 0x03)
    else if ty in {0x04, 0x05, 0x10, 0x11, 0x12, 0x13, 0x14, 0x15, 0x16, 0x17, 0x19} then DecodeNumbers(buf, p, ty)
    else if ty == 0x06 then
      var (offset, p1) :- ReadVarint(buf, p);
      var (data, p2) :- ReadSized(buf, p1);
      Ok((CryptoData(offset, data), p2))
    else if ty == 0x07 then
      var (token, p1) :- ReadSized(buf, p);
      Ok((NewToken(token), p1))
    else if 0x08 <= ty <= 0x0f then DecodeStream(buf, p, ty)
    else if ty == 0x18 then DecodeNewCid(buf, p)
    else if ty == 0x1a || ty == 0x1b then
      var (d, p1) :- ReadBytes(buf, p, 8);
      Ok((if ty == 0x1a then PathChallenge(d) else PathResponse(d), p1))
    else if ty == 0x1c || ty == 0x1d then DecodeClose(buf, p, ty == 0x1d)
    else if ty == 0x1e then Ok((HandshakeDone, p))
    else Err(FrameEncodingError)
  }

  // --------------------------------------------------------------------------------
  // Writing
  // --------------------------------------------------------------------------------

  /** One item a frame puts on the wire: a varint or a run of raw bytes. */
  datatype Field = V(v: U64) | B(data: Bytes)

  predicate FieldFits(f: Field) { f.V? ==> f.v <= MAX_VARINT }

  function FieldBytes(f: Field): Bytes
    requires FieldFits(f)
  {
    match f
    case V(v) => VarintBytes(v)
    case B(d) => d
  }

  predicate AllFit(fs: seq<Field>) { forall i :: 0 <= i < |fs| ==> FieldFits(fs[i]) }

  function Flat(fs: seq<Field>): Bytes
    requires AllFit(fs)
  {
    if fs == [] then [] else Flat(fs[..|fs| - 1]) + FieldBytes(fs[|fs| - 1])
  }

  /** How many (gap, range) pairs `s` holds, if it is exactly a list of them. */
  function CountPairs(s: Bytes): (r: Result<nat>)
    ensures r.Ok? ==> r.value <= |s|
  {
    if s == [] then Ok(0)
    else match DecodeVarint(s)
         case Err(_) => Err(FrameEncodingError)
         case Ok((_, n1)) =>
           match DecodeVarint(s[n1..])
           case Err(_) => Err(FrameEncodingError)
           case Ok((_, n2)) =>
             var rest :- CountPairs(s[n1..][n2..]);
             Ok(rest + 1)
  }

  function StreamType(offset: U64, fin: bool): U64 {
    0x0a + (if offset > 0 then 4 else 0) + (if fin then 1 else 0)
  }

  /** The items of each frame, in wire order. */
  function Fields(f: Frame): seq<Field>
    requires Typed(f) && (f.Ack? ==> CountPairs(f.ackRanges).Ok?)
  {
    match f
    case Padding => [V(0x00)]
    case Ping => [V(0x01)]
    case Ack(largest, delay, first, ranges, ecn) =>
      [V(if ecn.Some? then 0x03 else 0x02), V(largest), V(delay), V(CountPairs(ranges).value), V(first), B(ranges)]
      + (match ecn case Some(e) => [V(e.ect0), V(e.ect1), V(e.ecnCe)] case None => [])
    case ResetStream(id, code, size) => [V(0x04), V(id), V(code), V(size)]
    case StopSending(id, code) => [V(0x05), V(id), V(code)]
    case CryptoData(offset, data) => [V(0x06), V(offset), V(|data|), B(data)]
    case NewToken(token) => [V(0x07), V(|token|), B(token)]
    case Stream(id, offset, data, fin) =>
      [V(StreamType(offset, fin)), V(id)] + (if offset > 0 then [V(offset)] else []) + [V(|data|), B(data)]
    case MaxData(v) => [V(0x10), V(v)]
    case MaxStreamData(id, v) => [V(0x11), V(id), V(v)]
    case MaxStreams(bidi, v) => [V(if bidi then 0x12 else 0x13), V(v)]
    case DataBlocked(v) => [V(0x14), V(v)]
    case StreamDataBlocked(id, v) => [V(0x15), V(id), V(v)]
    case StreamsBlocked(bidi, v) => [V(if bidi then 0x16 else 0x17), V(v)]
    case NewConnectionId(number, retire, cid, token) =>
      [V(0x18), V(number), V(retire), V(|cid|), B(cid), B(token)]
    case RetireConnectionId(number) => [V(0x19), V(number)]
    case PathChallenge(d) => [V(0x1a), B(d)]
    case PathResponse(d) => [V(0x1b), B(d)]
    case ConnectionClose(app, code, ty, reason) =>
      [V(if app then 0x1d else 0x1c), V(code)] + (if app then [] else [V(ty)]) + [V(|reason|), B(reason)]
    case HandshakeDone => [V(0x1e)]
  }

  /** The frames `encode` can write, given room: every integer is a varint and ACK ranges are whole pairs. */
  predicate Encodable(f: Frame) {
    && Typed(f)
    && (f.Ack? ==> CountPairs(f.ackRanges).Ok?)
    && AllFit(Fields(f))
  }

  /** The wire form of a frame. */
  function FrameBytes(f: Frame): Bytes
    requires Encodable(f)
  {
    Flat(Fields(f))
  }

  function ListBytes(fs: seq<Frame>): Bytes
    requires forall i :: 0 <= i < |fs| ==> Encodable(fs[i])
  {
    if fs == [] then [] else FrameBytes(fs[0]) + ListBytes(fs[1..])
  }

  // --------------------------------------------------------------------------------
  // Decoding what was encoded
  // --------------------------------------------------------------------------------

  function Pos(fs: seq<Field>, i: nat): nat
    requires AllFit(fs) && i <= |fs|
  {
    |Flat(fs[..i])|
  }

  lemma NextPos(fs: seq<Field>, i: nat)
    requires AllFit(fs) && i < |fs|
    ensures Pos(fs, i + 1) == Pos(fs, i) + |FieldBytes(fs[i])|
    ensures Flat(fs[..i + 1]) == Flat(fs[..i]) + FieldBytes(fs[i])
  {
    assert fs[..i + 1][..i] == fs[..i];
  }

  predicate Holds(buf: Bytes, pos: nat, s: Bytes) {
    pos + |s| <= |buf| && buf[pos..pos + |s|] == s
  }

  /** Every field sits at its position in the whole. */
  lemma {:induction false} FieldAt(fs: seq<Field>, i: nat, n: nat, rest: Bytes)
    requires AllFit(fs) && i < n <= |fs|
    ensures Holds(Flat(fs[..n]) + rest, Pos(fs, i), FieldBytes(fs[i]))
    decreases n
  {
    hide FieldBytes, FieldFits, Flat;
    NextPos(fs, n - 1);
    if i + 1 < n {
      var tail := FieldBytes(fs[n - 1]) + rest;
      FieldAt(fs, i, n - 1, tail);
      assert Flat(fs[..n]) + rest == Flat(fs[..n - 1]) + tail;
    }
  }

  lemma FieldHeld(fs: seq<Field>, i: nat, rest: Bytes)
    requires AllFit(fs) && i < |fs|
    ensures Holds(Flat(fs) + rest, Pos(fs, i), FieldBytes(fs[i]))
  {
    FieldAt(fs, i, |fs|, rest);
    assert fs[..|fs|] == fs;
  }

  predicate ReadsAt(buf: Bytes, fs: seq<Field>, i: nat)
    requires AllFit(fs) && i < |fs|
  {
    match fs[i]
    case V(v) => ReadVarint(buf, Pos(fs, i)) == Ok((v, Pos(fs, i + 1)))
    case B(d) => ReadBytes(buf, Pos(fs, i), |d|) == Ok((d, Pos(fs, i + 1)))
  }

  lemma ReadsHeld(buf: Bytes, p: nat, f: Field)
    requires FieldFits(f) && Holds(buf, p, FieldBytes(f))
    ensures f.V? ==> ReadVarint(buf, p) == Ok((f.v, p + |FieldBytes(f)|))
    ensures f.B? ==> ReadBytes(buf, p, |f.data|) == Ok((f.data, p + |FieldBytes(f)|))
  {
    hide VarintBytes, DecodeVarint;
    if f.V? {
      var q := p + |FieldBytes(f)|;
      assert buf[p..] == buf[p..q] + buf[q..];
      VarintRoundTrip(f.v, buf[q..]);
    }
  }

  lemma ReadsBack(fs: seq<Field>, i: nat, rest: Bytes)
    requires AllFit(fs) && i < |fs|
    ensures ReadsAt(Flat(fs) + rest, fs, i)
  {
    hide FieldBytes, Flat, Holds, AllFit, Pos, ReadsAt;
    FieldHeld(fs, i, rest);
    ReadsWhatHolds(Flat(fs) + rest, fs, i);
  }

  lemma ReadsWhatHolds(buf: Bytes, fs: seq<Field>, i: nat)
    requires AllFit(fs) && i < |fs| && Holds(buf, Pos(fs, i), FieldBytes(fs[i]))
    ensures ReadsAt(buf, fs, i)
  {
    PosAfter(fs, i);
    assert FieldFits(fs[i]);
    hide FieldBytes, ReadVarint, ReadBytes, Holds, AllFit, Pos, FieldFits;
    ReadsHeld(buf, Pos(fs, i), fs[i]);
  }

  lemma PosAfter(fs: seq<Field>, i: nat)
    requires AllFit(fs) && i < |fs|
    ensures Pos(fs, i + 1) == Pos(fs, i) + |FieldBytes(fs[i])|
  {
    NextPos(fs, i);
  }

  lemma AllReadBack(fs: seq<Field>, rest: Bytes)
    requires AllFit(fs)
    ensures forall i :: 0 <= i < |fs| ==> ReadsAt(Flat(fs) + rest, fs, i)
    ensures Pos(fs, 0) == 0 && Pos(fs, |fs|) == |Flat(fs)|
  {
    forall i | 0 <= i < |fs| ensures ReadsAt(Flat(fs) + rest, fs, i) {
      ReadsBack(fs, i, rest);
    }
    assert fs[..0] == [] && fs[..|fs|] == fs;
  }

  /** Reading never looks past what it needs. */
  lemma ReadVarintPrefix(s: Bytes, rest: Bytes)
    requires DecodeVarint(s).Ok?
    ensures DecodeVarint(s + rest) == DecodeVarint(s)
  {
    var n := DecodeVarint(s).value.1;
    assert (s + rest)[..n] == s[..n];
  }

  lemma ReadsIn(pre: Bytes, s: Bytes, rest: Bytes)
    requires DecodeVarint(s).Ok?
    ensures ReadVarint(pre + s + rest, |pre|) == Ok((DecodeVarint(s).value.0, |pre| + DecodeVarint(s).value.1))
  {
    hide DecodeVarint;
    assert (pre + s + rest)[|pre|..] == s + rest;
    ReadVarintPrefix(s, rest);
  }

  /** Counting pairs and stepping over that many agree, wherever the pairs sit. */
  lemma {:induction false} SkipsCounted(pre: Bytes, s: Bytes, rest: Bytes)
    requires CountPairs(s).Ok?
    ensures SkipPairs(pre + s + rest, |pre|, CountPairs(s).value) == Ok(|pre| + |s|)
    decreases |s|
  {
    hide DecodeVarint, ReadVarint;
    if s != [] {
      var n1 := DecodeVarint(s).value.1;
      var n2 := DecodeVarint(s[n1..]).value.1;
      var pre1, s1 := pre + s[..n1], s[n1..];
      var pre2, s2 := pre1 + s1[..n2], s1[n2..];
      SkipsCounted(pre2, s2, rest);
      ReadsIn(pre, s, rest);
      ReadsIn(pre1, s1, rest);
      SameWhole(pre, s, rest, n1);
      SameWhole(pre1, s1, rest, n2);
    }
  }

  lemma SameWhole(pre: Bytes, s: Bytes, rest: Bytes, n: nat)
    requires n <= |s|
    ensures pre + s + rest == pre + s[..n] + s[n..] + rest
  {
  }

  /** The two things a frame can carry that its wire form cannot bring back. */
  predicate Faithful(f: Frame) {
    && (f.NewConnectionId? ==> |f.connectionId| <= 20)
    && (f.ConnectionClose? && f.isApplication ==> f.frameType == 0)
  }

  lemma RoundTripAck(f: Frame, rest: Bytes)
    requires Encodable(f) && f.Ack?
    ensures Decode(FrameBytes(f) + rest) == Ok((f, |FrameBytes(f)|))
  {
    hide Flat, FieldBytes, ReadVarint, Pos, CountPairs;
    var fs := Fields(f);
    var buf := Flat(fs) + rest;
    AllReadBack(fs, rest);
    assert ReadsAt(buf, fs, 0) && ReadsAt(buf, fs, 1) && ReadsAt(buf, fs, 2);
    assert ReadsAt(buf, fs, 3) && ReadsAt(buf, fs, 4) && ReadsAt(buf, fs, 5);
    var p, q := Pos(fs, 5), Pos(fs, 6);
    assert buf[p..q] == f.ackRanges;
    assert buf == buf[..p] + f.ackRanges + buf[q..];
    SkipsCounted(buf[..p], f.ackRanges, buf[q..]);
    if f.ecn.Some? {
      assert ReadsAt(buf, fs, 6) && ReadsAt(buf, fs, 7) && ReadsAt(buf, fs, 8);
    }
  }

  lemma RoundTripSized(f: Frame, rest: Bytes)
    requires Encodable(f)
    requires f.CryptoData? || f.NewToken? || f.Stream? || f.PathChallenge? || f.PathResponse?
    ensures Decode(FrameBytes(f) + rest) == Ok((f, |FrameBytes(f)|))
  {
    hide Flat, FieldBytes, ReadVarint, ReadBytes, Pos, CountPairs;
    var fs := Fields(f);
    var buf := Flat(fs) + rest;
    AllReadBack(fs, rest);
    assert ReadsAt(buf, fs, 0) && ReadsAt(buf, fs, 1);
    if |fs| > 2 { assert ReadsAt(buf, fs, 2); }
    if |fs| > 3 { assert ReadsAt(buf, fs, 3); }
    if |fs| > 4 { assert ReadsAt(buf, fs, 4); }
  }

  lemma RoundTripCid(f: Frame, rest: Bytes)
    requires Encodable(f) && f.NewConnectionId?
    ensures Decode(FrameBytes(f) + rest) == Ok((f, |FrameBytes(f)|)) <==> Faithful(f)
  {
    hide Flat, FieldBytes, ReadVarint, ReadBytes, Pos, CountPairs;
    var fs := Fields(f);
    var buf := Flat(fs) + rest;
    AllReadBack(fs, rest);
    assert ReadsAt(buf, fs, 0) && ReadsAt(buf, fs, 1) && ReadsAt(buf, fs, 2);
    assert ReadsAt(buf, fs, 3) && ReadsAt(buf, fs, 4) && ReadsAt(buf, fs, 5);
  }

  lemma RoundTripClose(f: Frame, rest: Bytes)
    requires Encodable(f) && f.ConnectionClose?
    ensures Decode(FrameBytes(f) + rest) == Ok((f, |FrameBytes(f)|)) <==> Faithful(f)
  {
    hide Flat, FieldBytes, ReadVarint, ReadBytes, Pos, CountPairs;
    var fs := Fields(f);
    var buf := Flat(fs) + rest;
    AllReadBack(fs, rest);
    assert ReadsAt(buf, fs, 0) && ReadsAt(buf, fs, 1) && ReadsAt(buf, fs, 2) && ReadsAt(buf, fs, 3);
    if |fs| > 4 { assert ReadsAt(buf, fs, 4); }
  }

  lemma RoundTripNumbers(f: Frame, rest: Bytes)
    requires Encodable(f)
    requires !f.Ack? && !f.CryptoData? && !f.NewToken? && !f.Stream? && !f.PathChallenge? && !f.PathResponse?
    requires !f.NewConnectionId? && !f.ConnectionClose?
    ensures Decode(FrameBytes(f) + rest) == Ok((f, |FrameBytes(f)|))
  {
    hide Flat, FieldBytes, ReadVarint, ReadBytes, Pos, CountPairs;
    var fs := Fields(f);
    var buf := Flat(fs) + rest;
    AllReadBack(fs, rest);
    assert ReadsAt(buf, fs, 0);
    if |fs| > 1 { assert ReadsAt(buf, fs, 1); }
    if |fs| > 2 { assert ReadsAt(buf, fs, 2); }
    if |fs| > 3 { assert ReadsAt(buf, fs, 3); }
  }

  /** An encoded frame, whatever follows it, decodes to itself and its own length exactly when it is faithful. */
  lemma RoundTrip(f: Frame, rest: Bytes)
    requires Encodable(f)
    ensures Decode(FrameBytes(f) + rest) == Ok((f, |FrameBytes(f)|)) <==> Faithful(f)
  {
    match f
    case Ack(_, _, _, _, _) => RoundTripAck(f, rest);
    case CryptoData(_, _) => RoundTripSized(f, rest);
    case NewToken(_) => RoundTripSized(f, rest);
    case Stream(_, _, _, _) => RoundTripSized(f, rest);
    case PathChallenge(_) => RoundTripSized(f, rest);
    case PathResponse(_) => RoundTripSized(f, rest);
    case NewConnectionId(_, _, _, _) => RoundTripCid(f, rest);
    case ConnectionClose(_, _, _, _) => RoundTripClose(f, rest);
    case _ => RoundTripNumbers(f, rest);
  }

  /** A close for an application carrying frame type 7, and a connection ID of 21 bytes, do not come back. */
  lemma Unfaithful()
    ensures var close := ConnectionClose(true, 0, 7, []);
            Encodable(close) && Decode(FrameBytes(close) + []) != Ok((close, |FrameBytes(close)|))
    ensures var cid := NewConnectionId(0, 0, seq(21, _ => 0), seq(16, _ => 0));
            Encodable(cid) && Decode(FrameBytes(cid) + []) != Ok((cid, |FrameBytes(cid)|))
  {
    hide Decode, FrameBytes;
    RoundTrip(ConnectionClose(true, 0, 7, []), []);
    RoundTrip(NewConnectionId(0, 0, seq(21, _ => 0), seq(16, _ => 0)), []);
  }

  // --------------------------------------------------------------------------------
  // A payload of frames
  // --------------------------------------------------------------------------------

  /** The frames of a payload up to the first that does not decode, and whether that reached the end. */
  function Parse(payload: Bytes): (r: (seq<Frame>, bool))
    decreases |payload|
  {
    if payload == [] then ([], true)
    else match Decode(payload)
         case Err(_) => ([], false)
         case Ok((f, n)) =>
           var (rest, complete) := Parse(payload[n..]);
           ([f] + rest, complete)
  }

  /** A payload built from faithful frames parses to exactly those frames. */
  lemma {:induction false} ParseList(fs: seq<Frame>)
    requires forall i :: 0 <= i < |fs| ==> Encodable(fs[i]) && Faithful(fs[i])
    ensures Parse(ListBytes(fs)) == (fs, true)
    decreases |fs|
  {
    hide Decode, FrameBytes, Encodable, Faithful;
    if fs != [] {
      var rest := ListBytes(fs[1..]);
      RoundTrip(fs[0], rest);
      ParseList(fs[1..]);
      assert (FrameBytes(fs[0]) + rest)[|FrameBytes(fs[0])|..] == rest;
      assert [fs[0]] + fs[1..] == fs;
    }
  }

  predicate AckEliciting(f: Frame) { !f.Padding? && !f.Ack? }

  /**
   Decode and dispatch every frame of a payload. `handles(before, f)` is whether the
   connection, having dispatched `before`, processes `f` without error.
   */
  method DispatchFrames(payload: Bytes, handles: (seq<Frame>, Frame) -> bool)
    returns (r: Result<bool>, dispatched: seq<Frame>)
    ensures dispatched <= Parse(payload).0
    ensures r.Ok? <==> Parse(payload).1 && forall i :: 0 <= i < |Parse(payload).0| ==>
                                                         handles(Parse(payload).0[..i], Parse(payload).0[i])
    ensures r.Ok? ==> dispatched == Parse(payload).0
    ensures r.Ok? ==> (r.value <==> exists i :: 0 <= i < |dispatched| && AckEliciting(dispatched[i]))
  {
    hide Decode, AckEliciting;
    ghost var (all, complete) := Parse(payload);
    var ackEliciting, pos := false, 0;
    dispatched := [];
    while pos < |payload|
      invariant 0 <= pos <= |payload|
      invariant dispatched <= all
      invariant Parse(payload[pos..]).0 == all[|dispatched|..] && Parse(payload[pos..]).1 == complete
      invariant ackEliciting <==> exists i :: 0 <= i < |dispatched| && AckEliciting(dispatched[i])
      invariant forall i :: 0 <= i < |dispatched| ==> handles(all[..i], all[i])
      decreases |payload| - pos
    {
      var d := Decode(payload[pos..]);
      if d.Err? {
        return Err(d.error), dispatched;
      }
      var (f, consumed) := d.value;
      assert payload[pos..][consumed..] == payload[pos + consumed..];
      assert all[|dispatched|] == f && all[|dispatched|..][1..] == all[|dispatched| + 1..];
      pos := pos + consumed;
      if AckEliciting(f) {
        ackEliciting := true;
      }
      var before := dispatched;
      dispatched := dispatched + [f];
      assert before == all[..|before|];
      assert dispatched[|before|] == f;
      if !handles(before, f) {
        return Err(ProtocolViolation), dispatched;
      }
    }
    return Ok(ackEliciting), dispatched;
  }

  // --------------------------------------------------------------------------------
  // Encoding in place
  // --------------------------------------------------------------------------------

  /** The output slice `buf[lo..hi]` with its write position, and the fields it is to receive. */
  class Writer {
    const buf: array<Byte>
    const lo: nat
    const hi: nat
    var pos: nat
    ghost const goal: seq<Field>
    ghost const was: Bytes
    ghost var done: nat

    ghost predicate Valid()
      reads this, buf
    {
      && lo <= pos <= hi <= buf.Length == |was|
      && done <= |goal|
      && AllFit(goal[..done])
      && pos == lo + |Flat(goal[..done])|
      && Spliced(was, buf[..], lo, Flat(goal[..done]))
    }

    /** No room for the goal, or part of it cannot be encoded. */
    ghost predicate Impossible()
      reads this
    {
      !AllFit(goal) || lo + |Flat(goal)| > hi
    }

    constructor (buf: array<Byte>, lo: nat, hi: nat, ghost goal: seq<Field>)
      requires lo <= hi <= buf.Length
      ensures Valid() && done == 0 && pos == lo
      ensures this.buf == buf && this.lo == lo && this.hi == hi && this.goal == goal && was == old(buf[..])
    {
      this.buf, this.lo, this.hi, this.goal := buf, lo, hi, goal;
      pos := lo;
      was := buf[..];
      done := 0;
    }

    method PutVarint(value: U64) returns (r: Outcome)
      requires Valid() && done < |goal| && goal[done] == V(value)
      modifies this, buf
      ensures Valid()
      ensures r.Pass? ==> done == old(done) + 1
      ensures r.Fail? ==> Impossible()
    {
      hide VarintBytes, VarintLen, Flat, Spliced;
      NextFlat(goal, done);
      ghost var was' := buf[..];
      var e := EncodeVarint(value, buf, pos, hi);
      if e.Err? {
        return Fail(e.error);
      }
      SplicedTwice(was, was', buf[..], lo, Flat(goal[..done]), VarintBytes(value));
      pos := e.value;
      done := done + 1;
      return Pass;
    }

    method PutBytes(data: Bytes) returns (r: Outcome)
      requires Valid() && done < |goal| && FieldFits(goal[done]) && FieldBytes(goal[done]) == data
      modifies this, buf
      ensures Valid()
      ensures r.Pass? ==> done == old(done) + 1
      ensures r.Fail? ==> Impossible()
    {
      hide FieldBytes, Flat, FieldFits, Spliced;
      NextFlat(goal, done);
      if hi - pos < |data| {
        return Fail(BufferTooSmall(pos + |data|));
      }
      ghost var was' := buf[..];
      CopyInto(buf, pos, data);
      SplicedTwice(was, was', buf[..], lo, Flat(goal[..done]), data);
      pos := pos + |data|;
      done := done + 1;
      return Pass;
    }
  }

  /** One more field written, and how much room the rest needs at least. */
  lemma NextFlat(fs: seq<Field>, i: nat)
    requires i < |fs| && AllFit(fs[..i])
    ensures FieldFits(fs[i]) ==>
              && AllFit(fs[..i + 1])
              && Flat(fs[..i + 1]) == Flat(fs[..i]) + FieldBytes(fs[i])
    ensures AllFit(fs) ==> |Flat(fs)| >= |Flat(fs[..i + 1])|
  {
    hide FieldBytes, FieldFits;
    assert fs[..i + 1][..i] == fs[..i];
    if AllFit(fs) {
      FlatGrows(fs, i + 1, |fs|);
      assert fs[..|fs|] == fs;
    }
  }

  lemma {:induction false} FlatGrows(fs: seq<Field>, i: nat, n: nat)
    requires i <= n <= |fs| && AllFit(fs)
    ensures |Flat(fs[..i])| <= |Flat(fs[..n])|
    decreases n
  {
    hide FieldBytes, FieldFits, Flat;
    if i < n {
      FlatGrows(fs, i, n - 1);
      NextPos(fs, n - 1);
    }
  }

  /** Walk the varints of an ACK's raw ranges, counting pairs. */
  method CountRangePairs(ranges: Bytes) returns (r: Result<nat>)
    ensures r == CountPairs(ranges)
  {
    hide DecodeVarint;
    var count, tmp := 0, ranges;
    while tmp != []
      invariant match CountPairs(tmp)
                case Ok(c) => CountPairs(ranges) == Ok(count + c)
                case Err(e) => CountPairs(ranges) == Err(e)
      decreases |tmp|
    {
      var d1 := DecodeVarint(tmp);
      if d1.Err? { return Err(FrameEncodingError); }
      var d2 := DecodeVarint(tmp[d1.value.1..]);
      if d2.Err? { return Err(FrameEncodingError); }
      tmp := tmp[d1.value.1..][d2.value.1..];
      count := count + 1;
    }
    return Ok(count);
  }

  method PutAck(f: Frame, w: Writer) returns (r: Outcome)
    requires f.Ack? && Typed(f) && w.Valid() && w.done == 0
    requires CountPairs(f.ackRanges).Ok? ==> w.goal == Fields(f)
    requires CountPairs(f.ackRanges).Err? ==>
               w.goal == [V(if f.ecn.Some? then 0x03 else 0x02), V(f.largestAck), V(f.ackDelay)]
    modifies w, w.buf
    ensures w.Valid()
    ensures r.Pass? ==> CountPairs(f.ackRanges).Ok? && w.done == |w.goal|
    ensures r.Fail? ==> CountPairs(f.ackRanges).Err? || w.Impossible()
  {
    hide Flat, CountPairs, AllFit, Spliced;
    :- w.PutVarint(if f.ecn.Some? then 0x03 else 0x02);
    :- w.PutVarint(f.largestAck);
    :- w.PutVarint(f.ackDelay);
    var counted := CountRangePairs(f.ackRanges);
    if counted.Err? { return Fail(counted.error); }
    r := PutRanges(f, counted.value, w);
  }

  /** The rest of an ACK, from the number of pairs on. */
  method PutRanges(f: Frame, count: nat, w: Writer) returns (r: Outcome)
    requires f.Ack? && Typed(f) && CountPairs(f.ackRanges) == Ok(count) && count < 0x1_0000_0000_0000_0000
    requires w.Valid() && w.goal == Fields(f) && w.done == 3
    modifies w, w.buf
    ensures w.Valid()
    ensures r.Pass? ==> w.done == |w.goal|
    ensures r.Fail? ==> w.Impossible()
  {
    hide Flat, CountPairs, AllFit, Spliced;
    :- w.PutVarint(count);
    :- w.PutVarint(f.firstAckRange);
    :- w.PutBytes(f.ackRanges);
    if f.ecn.Some? {
      :- w.PutVarint(f.ecn.value.ect0);
      :- w.PutVarint(f.ecn.value.ect1);
      :- w.PutVarint(f.ecn.value.ecnCe);
    }
    return Pass;
  }

  method PutData(f: Frame, w: Writer) returns (r: Outcome)
    requires f.CryptoData? || f.NewToken? || f.Stream? || f.PathChallenge? || f.PathResponse?
    requires Typed(f) && w.Valid() && w.done == 0 && w.goal == Fields(f)
    modifies w, w.buf
    ensures w.Valid()
    ensures r.Pass? ==> w.done == |w.goal|
    ensures r.Fail? ==> w.Impossible()
  {
    hide Flat;
    match f
    case CryptoData(offset, data) =>
      :- w.PutVarint(0x06);
      :- w.PutVarint(offset);
      :- w.PutVarint(|data|);
      :- w.PutBytes(data);
      return Pass;
    case NewToken(token) =>
      :- w.PutVarint(0x07);
      :- w.PutVarint(|token|);
      :- w.PutBytes(token);
      return Pass;
    case Stream(id, offset, data, fin) =>
      :- w.PutVarint(StreamType(offset, fin));
      :- w.PutVarint(id);
      if offset > 0 {
        :- w.PutVarint(offset);
      }
      :- w.PutVarint(|data|);
      :- w.PutBytes(data);
      return Pass;
    case PathChallenge(d) =>
      :- w.PutVarint(0x1a);
      :- w.PutBytes(d);
      return Pass;
    case PathResponse(d) =>
      :- w.PutVarint(0x1b);
      :- w.PutBytes(d);
      return Pass;
  }

  method PutCid(f: Frame, w: Writer) returns (r: Outcome)
    requires f.NewConnectionId?
    requires Typed(f) && w.Valid() && w.done == 0 && w.goal == Fields(f)
    modifies w, w.buf
    ensures w.Valid()
    ensures r.Pass? ==> w.done == |w.goal|
    ensures r.Fail? ==> w.Impossible()
  {
    hide Flat, AllFit, Spliced;
    :- w.PutVarint(0x18);
    :- w.PutVarint(f.sequenceNumber);
    :- w.PutVarint(f.retirePriorTo);
    :- w.PutVarint(|f.connectionId|);
    :- w.PutBytes(f.connectionId);
    :- w.PutBytes(f.resetToken);
    return Pass;
  }

  method PutClose(f: Frame, w: Writer) returns (r: Outcome)
    requires f.ConnectionClose?
    requires Typed(f) && w.Valid() && w.done == 0 && w.goal == Fields(f)
    modifies w, w.buf
    ensures w.Valid()
    ensures r.Pass? ==> w.done == |w.goal|
    ensures r.Fail? ==> w.Impossible()
  {
    hide Flat, AllFit, Spliced;
    :- w.PutVarint(if f.isApplication then 0x1d else 0x1c);
    :- w.PutVarint(f.errorCode);
    if !f.isApplication {
      :- w.PutVarint(f.frameType);
    }
    :- w.PutVarint(|f.reason|);
    :- w.PutBytes(f.reason);
    return Pass;
  }

  method PutNumbers(f: Frame, w: Writer) returns (r: Outcome)
    requires !f.Ack? && !f.CryptoData? && !f.NewToken? && !f.Stream? && !f.PathChallenge? && !f.PathResponse?
    requires !f.NewConnectionId? && !f.ConnectionClose?
    requires Typed(f) && w.Valid() && w.done == 0 && w.goal == Fields(f)
    modifies w, w.buf
    ensures w.Valid()
    ensures r.Pass? ==> w.done == |w.goal|
    ensures r.Fail? ==> w.Impossible()
  {
    hide Flat;
    match f
    case Padding =>
      r := w.PutBytes([0x00]);
    case Ping =>
      r := w.PutVarint(0x01);
    case ResetStream(id, code, size) =>
      :- w.PutVarint(0x04);
      :- w.PutVarint(id);
      :- w.PutVarint(code);
      r := w.PutVarint(size);
    case StopSending(id, code) =>
      :- w.PutVarint(0x05);
      :- w.PutVarint(id);
      r := w.PutVarint(code);
    case MaxData(v) =>
      :- w.PutVarint(0x10);
      r := w.PutVarint(v);
    case MaxStreamData(id, v) =>
      :- w.PutVarint(0x11);
      :- w.PutVarint(id);
      r := w.PutVarint(v);
    case MaxStreams(bidi, v) =>
      :- w.PutVarint(if bidi then 0x12 else 0x13);
      r := w.PutVarint(v);
    case DataBlocked(v) =>
      :- w.PutVarint(0x14);
      r := w.PutVarint(v);
    case StreamDataBlocked(id, v) =>
      :- w.PutVarint(0x15);
      :- w.PutVarint(id);
      r := w.PutVarint(v);
    case StreamsBlocked(bidi, v) =>
      :- w.PutVarint(if bidi then 0x16 else 0x17);
      r := w.PutVarint(v);
    case RetireConnectionId(number) =>
      :- w.PutVarint(0x19);
      r := w.PutVarint(number);
    case HandshakeDone =>
      r := w.PutVarint(0x1e);
  }

  /**
   Encode `f` into `buf[lo..hi]`. It succeeds exactly when the frame has a wire form and
   the slice has room for it, and then writes that form and nothing else.
   */
  method Encode(f: Frame, buf: array<Byte>, lo: nat, hi: nat) returns (r: Result<nat>)
    requires Typed(f) && lo <= hi <= buf.Length
    modifies buf
    ensures r.Ok? <==> Encodable(f) && |FrameBytes(f)| <= hi - lo
    ensures r.Ok? ==> r.value == |FrameBytes(f)|
    ensures r.Ok? ==> Spliced(old(buf[..]), buf[..], lo, FrameBytes(f))
    ensures Outside(old(buf[..]), buf[..], lo, hi)
  {
    hide CountPairs, Flat, Fields, Typed, AllFit, Spliced, Outside;
    ghost var goal := if f.Ack? && CountPairs(f.ackRanges).Err?
                      then [V(if f.ecn.Some? then 0x03 else 0x02), V(f.largestAck), V(f.ackDelay)]
                      else Fields(f);
    var w := new Writer(buf, lo, hi, goal);
    var put;
    if f.Ack? {
      put := PutAck(f, w);
    } else if f.CryptoData? || f.NewToken? || f.Stream? || f.PathChallenge? || f.PathResponse? {
      put := PutData(f, w);
    } else if f.NewConnectionId? {
      put := PutCid(f, w);
    } else if f.ConnectionClose? {
      put := PutClose(f, w);
    } else {
      put := PutNumbers(f, w);
    }
    assert put.Pass? ==> goal[..|goal|] == goal;
    SplicedOutside(w.was, buf[..], lo, Flat(goal[..w.done]), hi);
    if put.Fail? {
      return Err(put.error);
    }
    return Ok(w.pos - lo);
  }
}
