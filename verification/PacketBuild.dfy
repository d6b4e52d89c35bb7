/**
 Building packets in place: frames are written past the largest possible header, shifted
 down once the header is known, padded, sealed and protected.
 */
module PacketBuild {
  import opened Bytes
  import opened Varint
  import opened FrameCodec
  import opened PnTracker
  import opened AckPath
  import opened CryptoStream
  import opened Protection

  const MIN_INITIAL: nat := 1200
  const MAX_CID: nat := 20

  predicate CidsFit(dcid: Bytes, scid: Bytes) { |dcid| <= MAX_CID && |scid| <= MAX_CID }

  /** Everything of a long header up to the Length field; Initial packets carry an empty token. */
  function LongPrefix(isInitial: bool, dcid: Bytes, scid: Bytes, pnLen: nat): (s: Bytes)
    requires CidsFit(dcid, scid) && 1 <= pnLen <= 4
    ensures |s| == 7 + |dcid| + |scid| + (if isInitial then 1 else 0)
    ensures s != [] && PnLenOf(s[0]) == pnLen
  {
    [if isInitial then 0xC0 + (pnLen - 1) else 0xE0 + (pnLen - 1), 0, 0, 0, 1] + [|dcid|] + dcid + [|scid|] + scid
    + if isInitial then [0] else []
  }

  function LongHeader(isInitial: bool, dcid: Bytes, scid: Bytes, pnLen: nat, payloadLen: nat): (s: Bytes)
    requires CidsFit(dcid, scid) && 1 <= pnLen <= 4 && payloadLen <= MAX_VARINT
    ensures |s| == 7 + |dcid| + |scid| + (if isInitial then 1 else 0) + VarintLen(payloadLen)
    ensures s != [] && PnLenOf(s[0]) == pnLen
  {
    LongPrefix(isInitial, dcid, scid, pnLen) + VarintBytes(payloadLen)
  }

  // --------------------------------------------------------------------------------
  // Padding of Initial packets
  // --------------------------------------------------------------------------------

  /** The size of a long-header packet with `frames` bytes of frames, padding included. */
  function PacketSize(base: nat, pnLen: nat, frames: nat): nat {
    base + VarintLen(pnLen + frames + TAG) + pnLen + frames + TAG
  }

  /**
   How much padding an Initial packet gets. One recomputation of the Length width is enough:
   the width returned is that of the final length. A padded packet is exactly 1200 bytes, or
   1201 when padding widens the Length field.
   */
  method PadInitial(base: nat, pnLen: nat, frameLen: nat, padToMin: bool)
    returns (padding: nat, lengthWidth: nat, headerLen: nat)
    requires base <= 8 + 2 * MAX_CID && 1 <= pnLen <= 4
    ensures lengthWidth == VarintLen(pnLen + frameLen + padding + TAG) && headerLen == base + lengthWidth
    ensures padding > 0 <==> padToMin && PacketSize(base, pnLen, frameLen) < MIN_INITIAL
    ensures padToMin ==> PacketSize(base, pnLen, frameLen + padding) >= MIN_INITIAL
    ensures padding > 0 ==> PacketSize(base, pnLen, frameLen + padding)
                            == if pnLen + frameLen + TAG <= 63 then MIN_INITIAL + 1 else MIN_INITIAL
    ensures padding == PaddingOf(base, pnLen, frameLen, padToMin)
  {
    var payload := pnLen + frameLen + TAG;
    lengthWidth := VarintLen(payload);
    headerLen := base + lengthWidth;
    padding := if padToMin && headerLen + payload < MIN_INITIAL then MIN_INITIAL - (headerLen + payload) else 0;
    var newWidth := VarintLen(payload + padding);
    if newWidth != lengthWidth {
      lengthWidth := newWidth;
      headerLen := base + lengthWidth;
      var total := headerLen + payload + padding;
      if padToMin && total < MIN_INITIAL {
        assert false; // the source adds padding once more here; it never has to
      }
    }
  }

  function PaddingOf(base: nat, pnLen: nat, frameLen: nat, padToMin: bool): nat {
    SaturatingSub(if padToMin then MIN_INITIAL else 0, PacketSize(base, pnLen, frameLen))
  }

  /**
   An Initial packet whose CRYPTO data was sized by the 33-byte allowance goes out unless the
   buffer is exactly 1200 bytes and the frames are so short that padding widens the Length
   field: then the packet would be 1201 bytes.
   */
  lemma InitialFitsExactly(bufLen: nat, base: nat, pnLen: nat, frameLen: nat)
    requires base <= 8 + 2 * MAX_CID && 1 <= pnLen <= 4 && bufLen >= MIN_INITIAL
    requires base + 8 + pnLen + frameLen + TAG <= bufLen
    ensures PacketSize(base, pnLen, frameLen + PaddingOf(base, pnLen, frameLen, true)) <= bufLen
            <==> bufLen > MIN_INITIAL || pnLen + frameLen + TAG > 63
  {
  }

  /** Eight-byte connection IDs, a one-byte number and 46 bytes of frames: padded to 1201 bytes. */
  lemma OneByteTooLong()
    ensures PacketSize(24, 1, 46) < MIN_INITIAL && PacketSize(24, 1, 46 + PaddingOf(24, 1, 46, true)) == MIN_INITIAL + 1
  {
  }

  // --------------------------------------------------------------------------------
  // Assembly
  // --------------------------------------------------------------------------------

  /** `now` starts with `frames` (zero-padded by `padding`) sealed under `head`. */
  ghost predicate Packet(c: Suite, now: Bytes, total: nat, header: Bytes, pnLen: nat, pn: U64, frames: Bytes, padding: nat,
                         isLong: bool)
    requires Sound(c) && 1 <= pnLen <= 4 && header != []
  {
    total <= |now| && Protect(c, header + BigEndian(pn, pnLen), |header|, frames + Zeros(padding), pn, isLong) == Ok(now[..total])
  }

  /**
   Write header and number, move the frames from `reserve` down behind them, pad, seal and
   protect. The move keeps every frame byte, because the header never reaches `reserve`.
   */
  method Assemble(buf: array<Byte>, header: Bytes, pn: U64, pnLen: nat, reserve: nat, frameLen: nat, padding: nat,
                  isLong: bool, c: Suite)
    returns (r: Result<nat>)
    requires Sound(c) && header != [] && 1 <= pnLen <= 4
    requires |header| + pnLen <= reserve && reserve + frameLen <= buf.Length
    requires |header| + pnLen + frameLen + padding <= buf.Length
    modifies buf
    ensures var total := |header| + pnLen + frameLen + padding + TAG;
            && (r.Ok? <==> total <= buf.Length && 4 <= pnLen + frameLen + padding)
            && (r.Ok? ==> r.value == total &&
                          Packet(c, buf[..], total, header, pnLen, pn, old(buf[reserve..reserve + frameLen]), padding, isLong))
  {
    hide BigEndian, Protect;
    ghost var frames := buf[reserve..reserve + frameLen];
    var start := |header| + pnLen;
    LayOut(buf, header, pn, pnLen, reserve, frameLen, padding);
    ghost var plain := frames + Zeros(padding);
    ghost var mid := buf[..];
    assert mid[..start] == header + BigEndian(pn, pnLen) && mid[start..start + frameLen + padding] == plain;
    r := EncryptAndProtect(buf, |header|, start, frameLen + padding, pn, isLong, c);
    if r.Ok? {
      FrontOf(mid, buf[..], c, header + BigEndian(pn, pnLen), |header|, plain, pn, isLong);
    }
  }

  lemma FrontOf(was: Bytes, now: Bytes, c: Suite, head: Bytes, pnOffset: nat, plain: Bytes, pn: U64, isLong: bool)
    requires Sound(c) && 0 < pnOffset < |head| <= pnOffset + 4 && |head| + |plain| <= |was|
    requires Protect(c, head, pnOffset, plain, pn, isLong).Ok?
    requires Spliced(was, now, 0, Protect(c, head, pnOffset, plain, pn, isLong).value)
    ensures var total := |head| + |plain| + TAG;
            total <= |now| && Protect(c, head, pnOffset, plain, pn, isLong).value == now[..total]
  {
    hide NonceOf;
    var v := Protect(c, head, pnOffset, plain, pn, isLong).value;
    assert now[..|v|] == v;
  }

  method LayOut(buf: array<Byte>, header: Bytes, pn: U64, pnLen: nat, reserve: nat, frameLen: nat, padding: nat)
    requires 1 <= pnLen <= 4 && |header| + pnLen <= reserve && reserve + frameLen <= buf.Length
    requires |header| + pnLen + frameLen + padding <= buf.Length
    modifies buf
    ensures var start := |header| + pnLen;
            && buf[..start] == header + BigEndian(pn, pnLen)
            && buf[start..start + frameLen + padding] == old(buf[reserve..reserve + frameLen]) + Zeros(padding)
  {
    hide BigEndian;
    var start := |header| + pnLen;
    WriteHead(buf, header, BigEndian(pn, pnLen), reserve, reserve + frameLen);
    MoveDown(buf, reserve, frameLen, start);
    PadZeros(buf, start, frameLen, padding);
  }

  /** Header and number at the front; what lies from `lo` to `hi`, behind them, stays. */
  method WriteHead(buf: array<Byte>, header: Bytes, number: Bytes, lo: nat, hi: nat)
    requires |header| + |number| <= lo <= hi <= buf.Length
    modifies buf
    ensures buf[..|header| + |number|] == header + number && buf[lo..hi] == old(buf[lo..hi])
  {
    hide Spliced;
    ghost var was := buf[..];
    CopyInto(buf, 0, header);
    ghost var mid := buf[..];
    CopyInto(buf, |header|, number);
    SplicedTwice(was, mid, buf[..], 0, header, number);
    SplicedKeeps(was, buf[..], 0, header + number, lo, hi);
  }

  /** `copy_within` towards the front: what is before `start` stays, the moved bytes arrive in order. */
  method MoveDown(buf: array<Byte>, from: nat, len: nat, start: nat)
    requires start <= from && from + len <= buf.Length
    modifies buf
    ensures buf[..start] == old(buf[..start]) && buf[start..start + len] == old(buf[from..from + len])
  {
    if start != from {
      CopyWithin(buf, from, from + len, start);
    }
  }

  lemma SplicedKeeps(was: Bytes, now: Bytes, pos: nat, s: Bytes, lo: nat, hi: nat)
    requires Spliced(was, now, pos, s) && pos + |s| <= lo <= hi <= |was|
    ensures |now| == |was| && now[pos..pos + |s|] == s && now[lo..hi] == was[lo..hi]
  {
  }

  /** The loop that zeroes the padding behind the frames. */
  method PadZeros(buf: array<Byte>, start: nat, frameLen: nat, padding: nat)
    requires start + frameLen + padding <= buf.Length
    modifies buf
    ensures buf[..start + frameLen] == old(buf[..start + frameLen])
    ensures buf[start..start + frameLen + padding] == old(buf[start..start + frameLen]) + Zeros(padding)
    ensures buf[..start] == old(buf[..start])
  {
    ghost var was := buf[..];
    var i := 0;
    while i < padding
      invariant 0 <= i <= padding
      invariant buf[..start + frameLen] == was[..start + frameLen]
      invariant forall k :: start + frameLen <= k < start + frameLen + i ==> buf[k] == 0
    {
      buf[start + frameLen + i] := 0;
      i := i + 1;
    }
    PaddedSlices(was, buf[..], start, start + frameLen, padding);
  }

  lemma PaddedSlices(was: Bytes, now: Bytes, start: nat, end: nat, padding: nat)
    requires start <= end && end + padding <= |was| == |now| && now[..end] == was[..end]
    requires forall k :: end <= k < end + padding ==> now[k] == 0
    ensures now[..start] == was[..start] && now[start..end + padding] == was[start..end] + Zeros(padding)
  {
    assert now[start..end] == now[..end][start..] && was[start..end] == was[..end][start..];
    assert now[..start] == now[..end][..start] && was[..start] == was[..end][..start];
    assert now[end..end + padding] == Zeros(padding);
    assert now[start..end + padding] == now[start..end] + now[end..end + padding];
  }

  // --------------------------------------------------------------------------------
  // Initial and Handshake packets
  // --------------------------------------------------------------------------------

  /** The ACK part of a payload: the tracker's ACK if one is due and fits. */
  function AckPart(due: bool, rs: seq<Range>, room: int): Bytes
    requires Canonical(rs) && InRange(rs)
  {
    if due && AckFor(rs).Some? && Encodable(AckFor(rs).value) && |FrameBytes(AckFor(rs).value)| <= room
    then FrameBytes(AckFor(rs).value) else []
  }

  /** The CRYPTO part: the stream bytes between the old and the new send offset. */
  function CryptoPart(stream: Bytes, was: nat, now: nat): Bytes
    requires was <= now <= |stream| <= RETAINED
  {
    ChunkSize(stream, was, now - was);
    if now > was then FrameBytes(Chunk(stream, was, now - was)) else []
  }

  /** A builder at `level` moves that level's offset forward and no other; retained streams only grow. */
  predicate OnlyLevel(pending: seq<Bytes>, offset: seq<nat>, pending': seq<Bytes>, offset': seq<nat>, level: nat)
    requires |pending| == |offset| == |pending'| == |offset'| == 3 && level < 3
  {
    && offset[level] <= offset'[level] && offset' == offset[level := offset'[level]]
    && forall l :: 0 <= l < 3 ==> pending[l] <= pending'[l]
  }

  /** The retained streams once the writer at `level` was asked: TLS is consulted only with nothing unsent. */
  function Asked(pending: seq<Bytes>, offset: seq<nat>, level: nat, flight: Option<(Bytes, nat)>): seq<Bytes>
    requires |pending| == |offset| == 3 && level < 3 && (flight.Some? ==> flight.value.1 < 3)
  {
    if offset[level] == |pending[level]| then Staged(pending, flight) else pending
  }

  /** How many of `unsent` stream bytes go into `room` bytes, of which 33 are kept for the frame and the tag. */
  function Portion(room: int, unsent: nat): (n: nat)
    ensures n <= unsent
  {
    if room <= FRAME_OVERHEAD then 0 else Min(room - FRAME_OVERHEAD, unsent)
  }

  /** The writer at `level` was asked, if it was, with `room` bytes, and took as much as goes in. */
  predicate Took(pending: seq<Bytes>, offset: seq<nat>, pending': seq<Bytes>, offset': seq<nat>, level: nat,
                 flight: Option<(Bytes, nat)>, asked: bool, room: int)
    requires |pending| == |offset| == 3 && level < 3 && (flight.Some? ==> flight.value.1 < 3)
    requires offset[level] <= |pending[level]|
  {
    AskedGrows(pending, offset, level, flight);
    if !asked then pending' == pending && offset' == offset
    else
      && pending' == Asked(pending, offset, level, flight)
      && offset' == offset[level := offset[level] + Portion(room, |pending'[level]| - offset[level])]
  }

  lemma NotAsked(pending: seq<Bytes>, offset: seq<nat>, level: nat, flight: Option<(Bytes, nat)>, room: int)
    requires |pending| == |offset| == 3 && level < 3 && (flight.Some? ==> flight.value.1 < 3)
    requires offset[level] <= |pending[level]|
    ensures Took(pending, offset, pending, offset, level, flight, false, room)
    ensures OnlyLevel(pending, offset, pending, offset, level)
  {
    hide Asked;
  }

  /** Asking takes nothing away. */
  lemma AskedGrows(pending: seq<Bytes>, offset: seq<nat>, level: nat, flight: Option<(Bytes, nat)>)
    requires |pending| == |offset| == 3 && level < 3 && (flight.Some? ==> flight.value.1 < 3)
    ensures var p := Asked(pending, offset, level, flight); |p| == 3 && forall l :: 0 <= l < 3 ==> pending[l] <= p[l]
  {
  }

  /**
   Write an ACK, if due, and CRYPTO data at `at`. When CRYPTO data is written the 16 bytes of
   the tag are still free behind it.
   */
  method WriteFrames(buf: array<Byte>, at: nat, ackDue: bool, rs: seq<Range>, sender: CryptoSender, level: nat,
                     withCrypto: bool, flight: Option<(Bytes, nat)>)
    returns (frameLen: nat, acked: bool, crypto: nat)
    requires Canonical(rs) && InRange(rs) && at <= buf.Length
    requires sender.Valid() && level < 3 && (flight.Some? ==> flight.value.1 < 3)
    modifies buf, sender
    ensures sender.Valid() && at + frameLen <= buf.Length
    ensures OnlyLevel(old(sender.pending), old(sender.offset), sender.pending, sender.offset, level)
    ensures acked <==> AckPart(ackDue, rs, buf.Length - at) != []
    ensures buf[at..at + frameLen] == AckPart(ackDue, rs, buf.Length - at)
                                     + CryptoPart(sender.pending[level], old(sender.offset)[level], sender.offset[level])
    ensures crypto > 0 <==> sender.offset[level] > old(sender.offset)[level]
    ensures crypto > 0 ==> withCrypto && at + frameLen + TAG <= buf.Length
    ensures frameLen > 0 ==> frameLen >= 4
    ensures crypto <= frameLen
    ensures Took(old(sender.pending), old(sender.offset), sender.pending, sender.offset, level, flight, withCrypto,
                 buf.Length - at - |AckPart(ackDue, rs, buf.Length - at)|)
  {
    hide Canonical, InRange, AckPart, CryptoPart, Took, AckSize, AckFor;
    NotAsked(sender.pending, sender.offset, level, flight, buf.Length - at - |AckPart(ackDue, rs, buf.Length - at)|);
    ghost var was := sender.offset[level];
    var ackLen := 0;
    if ackDue {
      ackLen := WriteAck(buf, at, rs);
    }
    acked := ackLen > 0;
    ghost var ack := AckPart(ackDue, rs, buf.Length - at);
    NoAck(rs, buf.Length - at);
    AckPartExactly(ackDue, rs, buf.Length - at);
    assert ackLen == |ack| && buf[at..at + ackLen] == ack;
    crypto := 0;
    ghost var mid := buf[..];
    if withCrypto {
      crypto := WriteCrypto(buf, at + ackLen, sender, level, flight);
    }
    NoCrypto(sender.pending[level], was);
    frameLen := ackLen + crypto;
    assert buf[at..at + ackLen] == buf[..at + ackLen][at..] && mid[at..at + ackLen] == mid[..at + ackLen][at..];
    assert buf[at..at + frameLen] == buf[at..at + ackLen] + buf[at + ackLen..at + frameLen];
  }

  /** What an ACK needs to be part of a packet, and how long it then is. */
  lemma AckPartExactly(due: bool, rs: seq<Range>, room: int)
    requires Canonical(rs) && InRange(rs)
    ensures AckPart(due, rs, room) != [] <==> due && AckFor(rs).Some? && AckSize(rs) <= room
    ensures AckPart(due, rs, room) != [] ==> |AckPart(due, rs, room)| == AckSize(rs)
  {
    hide Encodable, FrameBytes, AckFor;
    if AckFor(rs).Some? {
      AckEncodable(rs);
    }
  }

  lemma NoAck(rs: seq<Range>, room: nat)
    requires Canonical(rs) && InRange(rs)
    ensures AckPart(false, rs, room) == []
  {
  }

  lemma NoCrypto(stream: Bytes, at: nat)
    requires at <= |stream| <= RETAINED
    ensures CryptoPart(stream, at, at) == []
  {
  }

  /** CRYPTO data at `at`, or nothing; what is before it stays. */
  method WriteCrypto(buf: array<Byte>, at: nat, sender: CryptoSender, level: nat, flight: Option<(Bytes, nat)>)
    returns (len: nat)
    requires at <= buf.Length && sender.Valid() && level < 3 && (flight.Some? ==> flight.value.1 < 3)
    modifies buf, sender
    ensures sender.Valid() && at + len <= buf.Length
    ensures OnlyLevel(old(sender.pending), old(sender.offset), sender.pending, sender.offset, level)
    ensures buf[..at] == old(buf[..at])
    ensures buf[at..at + len] == CryptoPart(sender.pending[level], old(sender.offset)[level], sender.offset[level])
    ensures len > 0 <==> sender.offset[level] > old(sender.offset)[level]
    ensures len > 0 ==> len >= 4 && at + len + TAG <= buf.Length
    ensures Took(old(sender.pending), old(sender.offset), sender.pending, sender.offset, level, flight, true, buf.Length - at)
  {
    hide FrameBytes, Encodable, Chunk;
    ghost var was := sender.offset[level];
    len := sender.WriteTlsCryptoData(level, buf, at, buf.Length, flight);
    if len > 0 {
      assert buf[at..at + len] == FrameBytes(Chunk(sender.pending[level], was, sender.offset[level] - was));
    }
  }

  /** The ACK of the tracker at `at`, or nothing. */
  method WriteAck(buf: array<Byte>, at: nat, rs: seq<Range>) returns (len: nat)
    requires Canonical(rs) && InRange(rs) && at <= buf.Length
    modifies buf
    ensures len == |AckPart(true, rs, buf.Length - at)| && at + len <= buf.Length
    ensures buf[at..at + len] == AckPart(true, rs, buf.Length - at)
  {
    hide Canonical, InRange, AckFor, Encodable, FrameBytes;
    var r := BuildAckFrame(rs, buf, at, buf.Length);
    len := if r.Some? then r.value else 0;
  }

  /** Whether an ACK goes into a packet of `size` bytes whose frames start at `reserve`. */
  predicate AckGoes(due: bool, rs: seq<Range>, size: nat, reserve: nat)
    requires Canonical(rs) && InRange(rs)
  {
    size >= reserve + 32 && AckPart(due, rs, size - reserve) != []
  }

  /**
   Form a Handshake packet numbered `pn`: with `room` bytes behind the longest header, an ACK if
   one is due and fits, and as much CRYPTO data as goes in. There is a packet exactly when there
   is a frame and room for the tag, so whenever CRYPTO data was taken.
   */
  method FormHandshakePacket(buf: array<Byte>, dcid: Bytes, scid: Bytes, pn: U64, known: nat, ackDue: bool, rs: seq<Range>,
                             sender: CryptoSender, slotHeld: bool, flight: Option<(Bytes, nat)>, c: Suite)
    returns (r: Option<nat>, acked: bool, ghost frames: Bytes)
    requires Sound(c) && CidsFit(dcid, scid) && buf.Length <= MAX_VARINT - MIN_INITIAL
    requires Canonical(rs) && InRange(rs)
    requires sender.Valid() && (flight.Some? ==> flight.value.1 < 3)
    modifies buf, sender
    ensures sender.Valid()
    ensures OnlyLevel(old(sender.pending), old(sender.offset), sender.pending, sender.offset, 1)
    ensures acked <==> AckGoes(ackDue, rs, buf.Length, 15 + |dcid| + |scid| + PnLength(pn, known))
    ensures sender.offset[1] > old(sender.offset)[1] ==> r.Some?
    ensures var room := buf.Length - (15 + |dcid| + |scid| + PnLength(pn, known));
            && Took(old(sender.pending), old(sender.offset), sender.pending, sender.offset, 1, flight,
                    slotHeld && room >= 32, room - |AckPart(ackDue, rs, room)|)
            && frames == (if room >= 32 then AckPart(ackDue, rs, room)
                                             + CryptoPart(sender.pending[1], old(sender.offset)[1], sender.offset[1]) else [])
    ensures r.Some? <==> frames != [] && PacketSize(7 + |dcid| + |scid|, PnLength(pn, known), |frames|) <= buf.Length
    ensures r.Some? ==>
              var pnLen := PnLength(pn, known);
              && r.value == PacketSize(7 + |dcid| + |scid|, pnLen, |frames|)
              && pnLen + |frames| + TAG <= MAX_VARINT
              && Packet(c, buf[..], r.value, LongHeader(false, dcid, scid, pnLen, pnLen + |frames| + TAG),
                        pnLen, pn, frames, 0, true)
  {
    hide AckPart, CryptoPart, LongHeader, Packet, Canonical, InRange, PnLength;
    acked, frames := false, [];
    var pnLen := PnLength(pn, known);
    var reserve := 15 + |dcid| + |scid| + pnLen;
    if buf.Length < reserve + 32 {
      return None, acked, frames;
    }
    var frameLen, crypto;
    frameLen, acked, crypto := WriteFrames(buf, reserve, ackDue, rs, sender, 1, slotHeld, flight);
    if frameLen == 0 {
      return None, acked, frames;
    }
    frames := buf[reserve..reserve + frameLen];
    var payloadLen := pnLen + frameLen + TAG;
    var header := LongHeader(false, dcid, scid, pnLen, payloadLen);
    var total := Assemble(buf, header, pn, pnLen, reserve, frameLen, 0, true, c);
    return if total.Ok? then Some(total.value) else None, acked, frames;
  }

  /**
   Form an Initial packet numbered `pn`, padded to 1200 bytes when it carries CRYPTO data or
   comes from a client. CRYPTO data is taken only with a buffer of at least 1200 bytes; then
   there is a packet unless the buffer is exactly that long and padding widens the Length field.
   */
  method FormInitialPacket(buf: array<Byte>, dcid: Bytes, scid: Bytes, pn: U64, known: nat, ackDue: bool, rs: seq<Range>,
                           sender: CryptoSender, slotHeld: bool, flight: Option<(Bytes, nat)>, isClient: bool, c: Suite)
    returns (r: Option<nat>, acked: bool, ghost frames: Bytes, ghost padding: nat)
    requires Sound(c) && CidsFit(dcid, scid) && buf.Length <= MAX_VARINT - MIN_INITIAL
    requires Canonical(rs) && InRange(rs)
    requires sender.Valid() && (flight.Some? ==> flight.value.1 < 3)
    modifies buf, sender
    ensures sender.Valid()
    ensures OnlyLevel(old(sender.pending), old(sender.offset), sender.pending, sender.offset, 0)
    ensures acked <==> AckGoes(ackDue, rs, buf.Length, 16 + |dcid| + |scid| + PnLength(pn, known))
    ensures sender.offset[0] > old(sender.offset)[0] ==>
              && buf.Length >= MIN_INITIAL
              && (r.Some? <==> buf.Length > MIN_INITIAL || PnLength(pn, known) + |frames| + TAG > 63)
    ensures var room := buf.Length - (16 + |dcid| + |scid| + PnLength(pn, known));
            && Took(old(sender.pending), old(sender.offset), sender.pending, sender.offset, 0, flight,
                    slotHeld && room >= 32 && buf.Length >= MIN_INITIAL, room - |AckPart(ackDue, rs, room)|)
            && frames == (if room >= 32 then AckPart(ackDue, rs, room)
                                             + CryptoPart(sender.pending[0], old(sender.offset)[0], sender.offset[0]) else [])
    ensures frames != [] ==>
              padding == PaddingOf(8 + |dcid| + |scid|, PnLength(pn, known), |frames|, isClient || sender.offset[0] > old(sender.offset)[0])
    ensures r.Some? <==> frames != [] && PacketSize(8 + |dcid| + |scid|, PnLength(pn, known), |frames| + padding) <= buf.Length
    ensures r.Some? ==>
              var pnLen := PnLength(pn, known);
              && r.value == PacketSize(8 + |dcid| + |scid|, pnLen, |frames| + padding)
              && pnLen + |frames| + padding + TAG <= MAX_VARINT
              && Packet(c, buf[..], r.value, LongHeader(true, dcid, scid, pnLen, pnLen + |frames| + padding + TAG),
                        pnLen, pn, frames, padding, true)
              && (sender.offset[0] > old(sender.offset)[0] || isClient ==> r.value >= MIN_INITIAL)
  {
    hide AckPart, CryptoPart, LongHeader, Packet, Canonical, InRange, PnLength, VarintLen, PacketSize, PaddingOf, Asked;
    acked, frames, padding := false, [], 0;
    var pnLen := PnLength(pn, known);
    var base := 8 + |dcid| + |scid|;
    var reserve := base + 8 + pnLen;
    if buf.Length < reserve + 32 {
      return None, acked, frames, padding;
    }
    var frameLen, crypto;
    frameLen, acked, crypto :=
      WriteFrames(buf, reserve, ackDue, rs, sender, 0, slotHeld && buf.Length >= MIN_INITIAL, flight);
    if frameLen == 0 {
      return None, acked, frames, padding;
    }
    frames := buf[reserve..reserve + frameLen];
    r := SealInitial(buf, dcid, scid, pn, pnLen, reserve, frameLen, isClient || crypto > 0, c);
    padding := PaddingOf(base, pnLen, frameLen, isClient || crypto > 0);
    if crypto > 0 {
      InitialFitsExactly(buf.Length, base, pnLen, frameLen);
    }
  }

  /** Pad the frames at `reserve` if asked to, move them behind the header, seal and protect. */
  method SealInitial(buf: array<Byte>, dcid: Bytes, scid: Bytes, pn: U64, pnLen: nat, reserve: nat, frameLen: nat, padToMin: bool,
                     c: Suite)
    returns (r: Option<nat>)
    requires Sound(c) && CidsFit(dcid, scid) && 1 <= pnLen <= 4 && reserve == 16 + |dcid| + |scid| + pnLen
    requires reserve + frameLen <= buf.Length <= MAX_VARINT - MIN_INITIAL
    modifies buf
    ensures var base := 8 + |dcid| + |scid|;
            var padding := PaddingOf(base, pnLen, frameLen, padToMin);
            var total := PacketSize(base, pnLen, frameLen + padding);
            && (r.Some? <==> total <= buf.Length && 4 <= pnLen + frameLen + padding)
            && (padToMin ==> total >= MIN_INITIAL)
            && (r.Some? ==>
                  && r.value == total
                  && pnLen + frameLen + padding + TAG <= MAX_VARINT
                  && Packet(c, buf[..], total, LongHeader(true, dcid, scid, pnLen, pnLen + frameLen + padding + TAG),
                            pnLen, pn, old(buf[reserve..reserve + frameLen]), padding, true))
  {
    hide LongHeader, Packet, Sound;
    var base := 8 + |dcid| + |scid|;
    var padding, lengthWidth, headerLen := PadInitial(base, pnLen, frameLen, padToMin);
    if headerLen + pnLen + frameLen + padding + TAG > buf.Length {
      return None;
    }
    var header := LongHeader(true, dcid, scid, pnLen, pnLen + frameLen + padding + TAG);
    var total := Assemble(buf, header, pn, pnLen, reserve, frameLen, padding, true, c);
    return if total.Ok? then Some(total.value) else None;
  }

  /** An Initial packet around `frames`, padded to 1200 bytes if asked to. */
  method SealInitialBeside(buf: array<Byte>, dcid: Bytes, scid: Bytes, pn: U64, pnLen: nat, frames: Bytes, padToMin: bool, c: Suite)
    returns (r: Result<nat>)
    requires Sound(c) && CidsFit(dcid, scid) && 1 <= pnLen <= 4 && |frames| <= 128
    modifies buf
    ensures var base := 8 + |dcid| + |scid|;
            var padding := PaddingOf(base, pnLen, |frames|, padToMin);
            var total := PacketSize(base, pnLen, |frames| + padding);
            && (r.Ok? <==> total <= buf.Length && 4 <= pnLen + |frames| + padding)
            && pnLen + |frames| + padding + TAG <= MAX_VARINT
            && (r.Ok? ==>
                  && r.value == total
                  && Packet(c, buf[..], total, LongHeader(true, dcid, scid, pnLen, pnLen + |frames| + padding + TAG),
                            pnLen, pn, frames, padding, true))
  {
    hide LongHeader, Packet, Sound;
    var padding, lengthWidth, headerLen := PadInitial(8 + |dcid| + |scid|, pnLen, |frames|, padToMin);
    var header := LongHeader(true, dcid, scid, pnLen, pnLen + |frames| + padding + TAG);
    r := SealBeside(buf, header, pn, pnLen, frames, padding, true, c);
  }

  /**
   Put `frames` behind header and number, pad, seal and protect, as the two builders of close
   packets do. It succeeds exactly when the packet fits and can be sampled.
   */
  method SealBeside(buf: array<Byte>, header: Bytes, pn: U64, pnLen: nat, frames: Bytes, padding: nat, isLong: bool, c: Suite)
    returns (r: Result<nat>)
    requires Sound(c) && header != [] && 1 <= pnLen <= 4
    modifies buf
    ensures var total := |header| + pnLen + |frames| + padding + TAG;
            && (r.Ok? <==> total <= buf.Length && 4 <= pnLen + |frames| + padding)
            && (r.Ok? ==> r.value == total && Packet(c, buf[..], total, header, pnLen, pn, frames, padding, isLong))
  {
    hide Packet, Sound;
    var start := |header| + pnLen;
    if start + |frames| + padding + TAG > buf.Length {
      return Err(BufferTooSmall(start + |frames| + padding + TAG));
    }
    ghost var was := buf[..];
    CopyInto(buf, start, frames);
    assert buf[start..start + |frames|] == frames;
    r := Assemble(buf, header, pn, pnLen, start, |frames|, padding, isLong, c);
  }
}
