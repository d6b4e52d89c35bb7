/**
 What a call of `poll_transmit` has to build and what the peer reads: for every level the exact
 condition for a packet in terms of what is due and what fits, the frames the peer parses out
 of it, and the close that reaches the peer as it was asked for.
 */
module Datagram {
  import opened Bytes
  import opened Varint
  import opened FrameCodec
  import opened PnTracker
  import opened AckPath
  import CryptoStream
  import opened SendPath
  import opened Protection
  import opened PacketBuild
  import opened ShortPacket
  import opened Transmit
  import Lifecycle

  /** The peer, holding the keys of the level, opens the packet, recovers its number and parses exactly `fs`. */
  ghost predicate Reads(g: Given, level: nat, b: Built, pnOffset: nat, largest: nat, fs: seq<Frame>)
    requires GivenOk(g) && level < 3 && pnOffset > 0
  {
    var o := Open(g.suites[level], b.bytes, pnOffset, largest, IsLong(level));
    o.Ok? && o.value.pn == b.pn && Parse(o.value.plain) == (fs, true)
  }

  // --------------------------------------------------------------------------------
  // Initial and Handshake packets
  // --------------------------------------------------------------------------------

  /** The stream bytes a level has to send: unsent ones, or else the flight TLS holds for it, if that can be retained. */
  function Unsent(s: State, g: Given, level: nat): nat
    requires StateOk(s) && |g.flights| == 3 && level < 3
  {
    if s.offset[level] < |s.pending[level]| then |s.pending[level]| - s.offset[level]
    else if g.flights[level].Some? && g.flights[level].value.1 == level
            && |s.pending[level]| + |g.flights[level].value.0| <= 2048 then |g.flights[level].value.0|
    else 0
  }

  /** The length of the ACK due at a level, 0 if there is none or it does not fit. */
  ghost function AckLen(s: State, g: Given, level: nat, room: int): nat
    requires StateOk(s) && GivenOk(g) && level < 3
  {
    if s.ackDue[level] && AckFor(g.ranges[level]).Some? && AckSize(g.ranges[level]) <= room then AckSize(g.ranges[level]) else 0
  }

  /** There are CRYPTO bytes to send at the level and room for some of them behind the ACK. */
  ghost predicate CryptoDue(s: State, g: Given, level: nat, size: nat)
    requires StateOk(s) && GivenOk(g) && level < 2
  {
    var room := size - Reserve(s, g, level);
    && g.slotHeld && room >= 32 && (level == INITIAL ==> size >= 1200)
    && Unsent(s, g, level) > 0 && room - AckLen(s, g, level, room) > 33
  }

  lemma AckPartLen(s: State, g: Given, level: nat, room: int)
    requires StateOk(s) && GivenOk(g) && level < 3
    ensures |AckPart(s.ackDue[level], g.ranges[level], room)| == AckLen(s, g, level, room)
  {
    hide AckPart, AckSize, AckFor, Sound, Canonical, InRange;
    AckPartExactly(s.ackDue[level], g.ranges[level], room);
  }

  lemma AckThere(s: State, g: Given, level: nat, room: int)
    requires StateOk(s) && GivenOk(g) && level < 3 && AckLen(s, g, level, room) > 0
    ensures AckFor(g.ranges[level]).Some?
  {
    hide AckFor, AckSize, Sound, Canonical, InRange;
  }

  lemma StagedOwn(s: State, g: Given, level: nat)
    requires StateOk(s) && GivenOk(g) && level < 3
    ensures |Asked(s.pending, s.offset, level, g.flights[level])[level]| - s.offset[level] == Unsent(s, g, level)
  {
    hide Sound, Canonical, InRange;
  }

  /** How much of its stream a level sends, and what becomes of its flags. */
  lemma LongTakes(s: State, g: Given, isClient: bool, level: nat, size: nat)
    requires StateOk(s) && GivenOk(g) && level < 2
    ensures var room := size - Reserve(s, g, level);
            var s' := LongAfter(s, g, isClient, level, size);
            && s'.offset[level] == s.offset[level] + (if CryptoDue(s, g, level, size)
                                                      then Min(room - AckLen(s, g, level, room) - 33, Unsent(s, g, level)) else 0)
            && (s'.ackDue[level] <==> s.ackDue[level] && (room < 32 || AckLen(s, g, level, room) == 0))
  {
    hide AckPart, AckLen, Unsent, GivenOk, PnLength, Asked, LongGoes, Sound, Canonical, InRange, AllTyped, AllFaithful;
    GivenAt(g, level);
    var room := size - Reserve(s, g, level);
    AckPartLen(s, g, level, room);
    StagedOwn(s, g, level);
  }

  lemma LongPayloadSize(s: State, g: Given, isClient: bool, level: nat, size: nat)
    requires StateOk(s) && GivenOk(g) && level < 2 && size >= Reserve(s, g, level) + 32
    ensures var ack := AckLen(s, g, level, size - Reserve(s, g, level));
            if CryptoDue(s, g, level, size)
            then |LongPayload(s, g, level, size)| >= 4 && Reserve(s, g, level) + |LongPayload(s, g, level, size)| + TAG <= size
            else |LongPayload(s, g, level, size)| == ack
  {
    hide AckPart, AckLen, Unsent, GivenOk, PnLength, Asked, FrameBytes, Encodable, CryptoStream.Chunk, Sound, Canonical, InRange,
         AllTyped, AllFaithful;
    GivenAt(g, level);
    var room := size - Reserve(s, g, level);
    AckPartLen(s, g, level, room);
    LongTakes(s, g, isClient, level, size);
    var stream, from, to := LongStreams(s, g, level, size)[level], s.offset[level], LongOffset(s, g, level, size);
    CryptoStream.ChunkSize(stream, from, to - from);
  }

  /**
   When a Handshake packet is built: there are 32 bytes behind the longest header, and CRYPTO
   bytes to send with more than 33 bytes for them, or else an ACK that fits with the tag.
   */
  lemma HandshakeExactly(s: State, g: Given, isClient: bool, size: nat)
    requires StateOk(s) && GivenOk(g)
    ensures var pnLen := PnLen(s, g, HANDSHAKE);
            var room := size - (15 + |g.dcid| + |g.scid| + pnLen);
            var ack := AckLen(s, g, HANDSHAKE, room);
            Goes(s, g, isClient, HANDSHAKE, size) <==>
            && room >= 32
            && (|| (g.slotHeld && Unsent(s, g, HANDSHAKE) > 0 && room - ack > 33)
                || (ack > 0 && 7 + |g.dcid| + |g.scid| + VarintLen(pnLen + ack + 16) + pnLen + ack + 16 <= size))
  {
    hide AckLen, Unsent, GivenOk, PnLength, LongPayload, Sound, Canonical, InRange, AllTyped, AllFaithful;
    GivenAt(g, HANDSHAKE);
    if size >= Reserve(s, g, HANDSHAKE) + 32 {
      LongPayloadSize(s, g, isClient, HANDSHAKE, size);
    } else {
      NoPayload(s, g, HANDSHAKE, size);
    }
  }

  lemma NoPayload(s: State, g: Given, level: nat, size: nat)
    requires StateOk(s) && GivenOk(g) && level < 2 && size < Reserve(s, g, level) + 32
    ensures LongPayload(s, g, level, size) == []
  {
    hide GivenOk, PnLength, Sound, Canonical, InRange, AllTyped, AllFaithful;
  }

  /**
   When an Initial packet is built. CRYPTO bytes, sent only with 1200 bytes of buffer, always get
   one except that exactly 1200 bytes are too few when the Length field is widened by the
   padding; an ACK alone gets one if it fits, which for a client includes the padding.
   */
  lemma InitialExactly(s: State, g: Given, isClient: bool, size: nat)
    requires StateOk(s) && GivenOk(g)
    ensures var pnLen, base := PnLen(s, g, INITIAL), 8 + |g.dcid| + |g.scid|;
            var room := size - (base + 8 + pnLen);
            var ack := AckLen(s, g, INITIAL, room);
            Goes(s, g, isClient, INITIAL, size) <==>
            && room >= 32
            && if g.slotHeld && size >= 1200 && Unsent(s, g, INITIAL) > 0 && room - ack > 33
               then size > 1200 || pnLen + |LongPayload(s, g, INITIAL, size)| + 16 > 63
               else ack > 0 && PacketSize(base, pnLen, ack + PaddingOf(base, pnLen, ack, isClient)) <= size
  {
    hide AckLen, Unsent, GivenOk, PnLength, LongPayload, PacketSize, PaddingOf, Sound, Canonical, InRange, AllTyped, AllFaithful;
    GivenAt(g, INITIAL);
    if size >= Reserve(s, g, INITIAL) + 32 {
      LongPayloadSize(s, g, isClient, INITIAL, size);
      LongTakes(s, g, isClient, INITIAL, size);
      if CryptoDue(s, g, INITIAL, size) {
        InitialFitsExactly(size, LongBase(g, INITIAL), PnLen(s, g, INITIAL), |LongPayload(s, g, INITIAL, size)|);
      }
    } else {
      NoPayload(s, g, INITIAL, size);
    }
  }

  /**
   What the peer parses out of an Initial or Handshake packet: the ACK, if one was due and fits,
   then one CRYPTO frame with the next bytes of the level's stream, if some were sent, then only
   padding.
   */
  lemma FlightArrives(s: State, g: Given, isClient: bool, level: nat, size: nat, b: Built, largest: nat)
    requires StateOk(s) && GivenOk(g) && level < 2 && s.nextPn[level] <= MAX_VARINT
    requires Goes(s, g, isClient, level, size) && IsPacket(s, g, isClient, level, size, b)
    requires Recovers(s.nextPn[level], PnLen(s, g, level), largest)
    ensures var s' := LongAfter(s, g, isClient, level, size);
            var from, to := s.offset[level], s'.offset[level];
            var ack := AckLen(s, g, level, size - Reserve(s, g, level)) > 0;
            var n := PnLen(s, g, level) + |Payload(s, g, isClient, level, size)| + Filler(s, g, isClient, level, size) + TAG;
            && from <= to <= |s'.pending[level]| && n <= MAX_VARINT
            && Reads(g, level, b, LongBase(g, level) + VarintLen(n), largest,
                     (if ack then [AckFor(g.ranges[level]).value] else [])
                     + (if to > from then [CryptoData(from, s'.pending[level][from..to])] else [])
                     + Paddings(Filler(s, g, isClient, level, size)))
  {
    hide GivenOk, PnLength, Reads, Recovers, SealedAs, HeaderAt, LongPadding, LongStreams, LongOffset, Paddings, AckFor, LongGoes,
         LongList, LongPayload, AckLen, Sound, Canonical, InRange, AllTyped, AllFaithful;
    GivenAt(g, level);
    PayloadThere(s, g, isClient, level, size);
    FlightSeen(s, g, isClient, level, size, b, largest);
    FlightList(s, g, level, size, size - Reserve(s, g, level));
  }

  lemma FlightSeen(s: State, g: Given, isClient: bool, level: nat, size: nat, b: Built, largest: nat)
    requires StateOk(s) && GivenOk(g) && level < 2 && s.nextPn[level] <= MAX_VARINT
    requires LongGoes(s, g, isClient, level, size) && IsPacket(s, g, isClient, level, size, b)
    requires Recovers(s.nextPn[level], PnLen(s, g, level), largest)
    ensures var n := PnLen(s, g, level) + |LongPayload(s, g, level, size)| + LongPadding(s, g, isClient, level, size) + TAG;
            && n <= MAX_VARINT
            && Reads(g, level, b, LongBase(g, level) + VarintLen(n), largest,
                     LongList(s.ackDue[level], g.ranges[level], size - Reserve(s, g, level), LongStreams(s, g, level, size)[level],
                              s.offset[level], LongOffset(s, g, level, size))
                     + Paddings(LongPadding(s, g, isClient, level, size)))
  {
    hide GivenOk, PnLength, Sound, Open, Parse, Recovers, Packet, AckPart, CryptoPart, LongHeader, LongPadding, LongStreams,
         LongOffset, Canonical, InRange, Paddings, LongGoes, LongList, LongPayload, AllTyped, AllFaithful;
    GivenAt(g, level);
    var stream, from, to := LongStreams(s, g, level, size)[level], s.offset[level], LongOffset(s, g, level, size);
    var pnLen, frames, padding := PnLen(s, g, level), LongPayload(s, g, level, size), LongPadding(s, g, isClient, level, size);
    PayloadThere(s, g, isClient, level, size);
    assert b.bytes[..|b.bytes|] == b.bytes;
    LongDelivers(g.suites[level], b.bytes, |b.bytes|, HeaderAt(g, level, pnLen, |frames| + padding), pnLen, s.nextPn[level], padding,
                 largest, s.ackDue[level], g.ranges[level], size - Reserve(s, g, level), stream, from, to);
  }

  lemma FlightList(s: State, g: Given, level: nat, size: nat, room: int)
    requires StateOk(s) && GivenOk(g) && level < 2
    ensures var stream, from, to := LongStreams(s, g, level, size)[level], s.offset[level], LongOffset(s, g, level, size);
            LongList(s.ackDue[level], g.ranges[level], room, stream, from, to)
            == (if AckLen(s, g, level, room) > 0 then [AckFor(g.ranges[level]).value] else [])
               + if to > from then [CryptoData(from, stream[from..to])] else []
  {
    hide GivenOk, PnLength, AckPart, AckFor, LongStreams, LongOffset, Sound, Canonical, InRange, AllTyped, AllFaithful;
    GivenAt(g, level);
    AckPartLen(s, g, level, room);
  }

  lemma PayloadThere(s: State, g: Given, isClient: bool, level: nat, size: nat)
    requires StateOk(s) && GivenOk(g) && level < 2 && LongGoes(s, g, isClient, level, size)
    ensures size >= Reserve(s, g, level) + 32
    ensures LongPayload(s, g, level, size)
            == AckPart(s.ackDue[level], g.ranges[level], size - Reserve(s, g, level))
               + CryptoPart(LongStreams(s, g, level, size)[level], s.offset[level], LongOffset(s, g, level, size))
  {
    hide GivenOk, PnLength, AckPart, CryptoPart, LongStreams, LongOffset, Sound, Canonical, InRange, AllTyped, AllFaithful;
  }

  // --------------------------------------------------------------------------------
  // 1-RTT packets
  // --------------------------------------------------------------------------------

  lemma FrameNotEmpty(f: Frame)
    requires Encodable(f)
    ensures FrameBytes(f) != []
  {
    hide Fields, CountPairs, VarintBytes, Typed, AllFit;
    var fs := Fields(f);
    TypeFirst(f);
    FieldHeld(fs, 0, []);
    assert Flat(fs) + [] == Flat(fs);
  }

  lemma TypeFirst(f: Frame)
    requires Typed(f) && (f.Ack? ==> CountPairs(f.ackRanges).Ok?)
    ensures Fields(f) != [] && Fields(f)[0].V?
  {
    hide CountPairs;
  }

  lemma DoneBytes()
    ensures Encodable(HandshakeDone) && |FrameBytes(HandshakeDone)| == 1
  {
    var fs := Fields(HandshakeDone);
    NextPos(fs, 0);
    assert fs[..1] == fs && fs[..0] == [];
  }

  lemma PathBytes(data: Bytes)
    requires |data| == 8
    ensures Encodable(PathResponse(data)) && |FrameBytes(PathResponse(data))| == 9
  {
    var fs := Fields(PathResponse(data));
    NextPos(fs, 0);
    NextPos(fs, 1);
    assert fs[..2] == fs && fs[..0] == [];
  }

  lemma MaxDataBytes(limit: U64)
    ensures Encodable(MaxData(limit)) <==> limit <= MAX_VARINT
    ensures limit <= MAX_VARINT ==> |FrameBytes(MaxData(limit))| == 1 + VarintLen(limit)
  {
    var fs := Fields(MaxData(limit));
    assert fs == [V(0x10), V(limit)] && fs[1] == V(limit);
    if limit <= MAX_VARINT {
      hide VarintBytes;
      NextPos(fs, 0);
      NextPos(fs, 1);
      assert fs[..2] == fs && fs[..0] == [];
    }
  }

  /** Which of the four are owed and fit, each behind the ones before it. */
  datatype Owing = Owing(done: bool, path: bool, ack: bool, limit: bool)

  ghost function Owed(s: State, g: Given, isClient: bool, room: nat): Owing
    requires StateOk(s) && GivenOk(g)
  {
    var done, path := !isClient && s.needDone, s.pathResponse.Some?;
    var used := (if done then 1 else 0) + if path then 9 else 0;
    var ack := AckLen(s, g, APPLICATION, room - used);
    Owing(done, path, ack > 0, g.maxData.Some? && g.maxData.value <= MAX_VARINT && used + ack + 1 + VarintLen(g.maxData.value) <= room)
  }

  ghost function OwedFrames(s: State, g: Given, isClient: bool, room: nat): seq<Frame>
    requires StateOk(s) && GivenOk(g)
  {
    var o := Owed(s, g, isClient, room);
    (if o.done then [HandshakeDone] else [])
    + (if o.path then [PathResponse(s.pathResponse.value)] else [])
    + (if o.ack then [AckFor(g.ranges[2]).value] else [])
    + (if o.limit then [MaxData(g.maxData.value)] else [])
  }

  function DoneFrames(s: State, isClient: bool): seq<Frame> { if !isClient && s.needDone then [HandshakeDone] else [] }

  function PathFrames(s: State): seq<Frame> { if s.pathResponse.Some? then [PathResponse(s.pathResponse.value)] else [] }

  ghost function DueFrames(s: State, g: Given): seq<Frame>
    requires StateOk(s) && GivenOk(g)
  {
    var ack := DueAck(s.ackDue[2], g.ranges[2]);
    if ack.Some? then [ack.value] else []
  }

  /** The ACK that goes into `room` bytes. */
  ghost function AckFrames(s: State, g: Given, room: int): seq<Frame>
    requires StateOk(s) && GivenOk(g)
  {
    if AckLen(s, g, 2, room) > 0 then [AckFor(g.ranges[2]).value] else []
  }

  function LimitDue(limit: Option<U64>): seq<Frame> { if limit.Some? then [MaxData(limit.value)] else [] }

  /** The MAX_DATA that goes into `room` bytes. */
  function LimitFrames(limit: Option<U64>, room: int): seq<Frame> {
    if limit.Some? && limit.value <= MAX_VARINT && 1 + VarintLen(limit.value) <= room then LimitDue(limit) else []
  }

  /** Out of 32 bytes or more the builder takes exactly the control frames owed that fit. */
  lemma TakenIsOwed(s: State, g: Given, isClient: bool, room: nat)
    requires StateOk(s) && GivenOk(g) && room >= 32
    ensures Taken(Controls(s, g, isClient), room, false) == OwedFrames(s, g, isClient, room)
  {
    hide GivenOk, StateOk, Taken, AckLen, Controls, OwedFrames, DoneFrames, PathFrames, DueFrames, AckFrames, LimitDue, LimitFrames,
         ListBytes;
    var a, b := DoneFrames(s, isClient), PathFrames(s);
    TakenDone(s, isClient, room);
    var r1 := room - |a|;
    TakenPath(s, r1);
    var r2 := r1 - 9 * |b|;
    TakenAck(s, g, r2);
    var r3 := r2 - AckLen(s, g, 2, r2);
    TakenLimit(g.maxData, r3);
    TakenFour(a, b, DueFrames(s, g), LimitDue(g.maxData), a, b, AckFrames(s, g, r2), LimitFrames(g.maxData, r3), room, room - r1,
              room - r2, room - r3);
    OwedParts(s, g, isClient, room, r2);
  }

  lemma OwedParts(s: State, g: Given, isClient: bool, room: nat, left: int)
    requires StateOk(s) && GivenOk(g) && left == room - |DoneFrames(s, isClient)| - 9 * |PathFrames(s)|
    ensures Controls(s, g, isClient) == DoneFrames(s, isClient) + PathFrames(s) + DueFrames(s, g) + LimitDue(g.maxData)
    ensures OwedFrames(s, g, isClient, room) ==
            DoneFrames(s, isClient) + PathFrames(s) + AckFrames(s, g, left) + LimitFrames(g.maxData, left - AckLen(s, g, 2, left))
  {
    hide GivenOk, AckFor, AckSize, VarintLen, Sound, Canonical, InRange, AllTyped, AllFaithful;
    GivenAt(g, 2);
  }

  lemma TakenFour(a: seq<Frame>, b: seq<Frame>, c: seq<Frame>, d: seq<Frame>,
                  ta: seq<Frame>, tb: seq<Frame>, tc: seq<Frame>, td: seq<Frame>, room: nat, n0: nat, n1: nat, n2: nat)
    requires n0 <= n1 <= n2 <= room && AllEncodable(ta) && AllEncodable(tb) && AllEncodable(tc)
    requires ta == Taken(a, room, false) && |ListBytes(ta)| == n0
    requires tb == Taken(b, room - n0, false) && n0 + |ListBytes(tb)| == n1
    requires tc == Taken(c, room - n1, false) && n1 + |ListBytes(tc)| == n2
    requires td == Taken(d, room - n2, false)
    ensures Taken(a + b + c + d, room, false) == ta + tb + tc + td
  {
    hide Taken, FrameBytes, Encodable, ListBytes;
    TakenConcat(a, b, room);
    ListConcat(ta, tb);
    TakenConcat(a + b, c, room);
    ListConcat(ta + tb, tc);
    TakenConcat(a + b + c, d, room);
  }

  lemma TakenDone(s: State, isClient: bool, room: nat)
    requires room >= 1
    ensures var fs := DoneFrames(s, isClient);
            |fs| <= 1 && fs == Taken(fs, room, false) && AllEncodable(fs) && |ListBytes(fs)| == |fs|
  {
    hide FrameBytes, Encodable;
    DoneBytes();
    TakenOne(HandshakeDone, room, false);
  }

  lemma TakenPath(s: State, room: nat)
    requires StateOk(s) && room >= 9
    ensures var fs := PathFrames(s);
            |fs| <= 1 && fs == Taken(fs, room, false) && AllEncodable(fs) && |ListBytes(fs)| == 9 * |fs|
  {
    hide FrameBytes, Encodable;
    if s.pathResponse.Some? {
      PathBytes(s.pathResponse.value);
      TakenOne(PathResponse(s.pathResponse.value), room, false);
    }
  }

  lemma TakenAck(s: State, g: Given, room: nat)
    requires StateOk(s) && GivenOk(g)
    ensures AckLen(s, g, 2, room) <= room
    ensures AckFrames(s, g, room) == Taken(DueFrames(s, g), room, false)
    ensures AllEncodable(AckFrames(s, g, room)) && |ListBytes(AckFrames(s, g, room))| == AckLen(s, g, 2, room)
  {
    hide GivenOk, FrameBytes, Encodable, AckFor, Sound, Canonical, InRange, AllTyped, AllFaithful;
    GivenAt(g, 2);
    var ack := DueAck(s.ackDue[2], g.ranges[2]);
    if ack.Some? {
      AckEncodable(g.ranges[2]);
      TakenOne(ack.value, room, false);
    }
  }

  lemma TakenLimit(limit: Option<U64>, room: nat)
    ensures LimitFrames(limit, room) == Taken(LimitDue(limit), room, false)
  {
    hide FrameBytes, Encodable, VarintLen;
    if limit.Some? {
      MaxDataBytes(limit.value);
      TakenOne(MaxData(limit.value), room, false);
    }
  }

  /** The first entry of the queue goes into `room` bytes within the congestion window. */
  predicate EntryFits(s: State, g: Given, room: nat) {
    var budget := Min(g.window, room);
    s.queue != [] && budget >= 16 && Sendable(s.queue[0]) && |EntryBytes(s.queue[0])| <= budget
  }

  /** A control frame, a window update or a queued entry is there to send and fits by itself. */
  ghost predicate SomethingDue(s: State, g: Given, isClient: bool, room: nat)
    requires StateOk(s) && GivenOk(g)
  {
    || (!isClient && s.needDone)
    || s.pathResponse.Some?
    || AckLen(s, g, APPLICATION, room) > 0
    || (g.maxData.Some? && g.maxData.value <= MAX_VARINT)
    || (g.windows != [] && Encodable(g.windows[0]) && |FrameBytes(g.windows[0])| <= room)
    || EntryFits(s, g, room)
  }

  lemma {:induction false} ListNotEmpty(fs: seq<Frame>)
    requires AllEncodable(fs)
    ensures ListBytes(fs) == [] <==> fs == []
  {
    hide Encodable, FrameBytes;
    if fs != [] {
      FrameNotEmpty(fs[0]);
    }
  }

  lemma QueueNotEmpty(q: seq<Entry>, room: nat)
    ensures var k := EmitCount(q, room);
            && (k == 0 <==> QueueBytes(q[..k]) == [])
            && (k > 0 <==> q != [] && room >= 16 && Sendable(q[0]) && |EntryBytes(q[0])| <= room)
  {
    hide FrameBytes, Encodable, QueueBytes;
    var k := EmitCount(q, room);
    QueueFront(q, k);
    if k > 0 {
      FrameNotEmpty(FrameOf(q[0]));
    }
  }

  lemma OwedNothing(s: State, g: Given, isClient: bool, room: nat)
    requires StateOk(s) && GivenOk(g) && room >= 32
    ensures OwedFrames(s, g, isClient, room) == [] <==>
            && !(!isClient && s.needDone) && s.pathResponse.None? && AckLen(s, g, APPLICATION, room) == 0
            && !(g.maxData.Some? && g.maxData.value <= MAX_VARINT)
  {
    hide GivenOk, AckLen, Sound, Canonical, InRange, AllTyped, AllFaithful;
  }

  /** There is a payload exactly if something is due. */
  lemma PayloadExactly(s: State, g: Given, isClient: bool, room: nat)
    requires StateOk(s) && GivenOk(g) && room >= 32
    ensures ShortFrames(Controls(s, g, isClient), g.windows, s.queue, g.window, room) != [] <==> SomethingDue(s, g, isClient, room)
  {
    hide GivenOk, AckLen, Taken, FrameBytes, Encodable, EntryBytes, QueueBytes, ListBytes, EmitCount, Sendable, Controls, OwedFrames,
         Sound, Canonical, InRange, AllTyped, AllFaithful;
    GivenAt(g, 2);
    var a := Taken(Controls(s, g, isClient), room, false);
    TakenIsOwed(s, g, isClient, room);
    OwedNothing(s, g, isClient, room);
    ListNotEmpty(a);
    var b := Taken(g.windows, room - |ListBytes(a)|, true);
    ListConcat(a, b);
    ListNotEmpty(a + b);
    FirstUpdate(g.windows, room - |ListBytes(a)|);
    QueueNotEmpty(s.queue, Min(g.window, room - |ListBytes(a + b)|));
  }

  lemma FirstUpdate(fs: seq<Frame>, room: nat)
    ensures Taken(fs, room, true) != [] <==> fs != [] && Encodable(fs[0]) && |FrameBytes(fs[0])| <= room
  {
    hide Encodable, FrameBytes;
  }

  /**
   When a 1-RTT packet is built: 32 bytes behind the header, something due, and room for the tag
   behind what is written.
   */
  lemma ShortExactly(s: State, g: Given, isClient: bool, size: nat)
    requires StateOk(s) && GivenOk(g)
    ensures var start := 1 + |g.dcid| + PnLen(s, g, APPLICATION);
            Goes(s, g, isClient, APPLICATION, size) <==>
            && size >= start + 32 && SomethingDue(s, g, isClient, size - start)
            && start + |ShortPayload(s, g, isClient, size)| + 16 <= size
  {
    hide GivenOk, PnLength, ShortFrames, Controls, SomethingDue, Sound, Canonical, InRange, AllTyped, AllFaithful;
    GivenAt(g, 2);
    if size >= ShortStart(s, g) + 32 {
      PayloadExactly(s, g, isClient, size - ShortStart(s, g));
    }
  }

  /** How many window updates fit behind the control frames. */
  ghost function UpdatesSent(s: State, g: Given, isClient: bool, room: nat): (w: nat)
    requires StateOk(s) && GivenOk(g)
    ensures w <= |g.windows|
  {
    var left := room - |ListBytes(Taken(Controls(s, g, isClient), room, false))|;
    TakenPrefix(g.windows, left);
    |Taken(g.windows, left, true)|
  }

  lemma TakenPrefix(fs: seq<Frame>, room: nat)
    ensures Taken(fs, room, true) <= fs
  {
    hide Taken, Encodable, FrameBytes;
    TakenFront(fs, room);
  }

  lemma ControlIsOwed(s: State, g: Given, isClient: bool, room: nat)
    requires StateOk(s) && GivenOk(g) && room >= 32
    ensures var w := UpdatesSent(s, g, isClient, room);
            Control(Controls(s, g, isClient), g.windows, room) == OwedFrames(s, g, isClient, room) + g.windows[..w]
  {
    hide GivenOk, Taken, FrameBytes, Encodable, ListBytes, Controls, OwedFrames, Sound, Canonical, InRange, AllTyped, AllFaithful;
    TakenIsOwed(s, g, isClient, room);
    TakenFront(g.windows, room - |ListBytes(OwedFrames(s, g, isClient, room))|);
  }

  lemma ControlsFaithful(s: State, g: Given, isClient: bool)
    requires StateOk(s) && GivenOk(g)
    ensures AllFaithful(Controls(s, g, isClient))
  {
    hide AckFor, Sound, Canonical, InRange;
    GivenAt(g, 2);
    AckIsFaithful(g.ranges[2]);
  }

  lemma ShortSeen(s: State, g: Given, isClient: bool, size: nat, b: Built, largest: nat)
    requires StateOk(s) && GivenOk(g) && s.nextPn[2] <= MAX_VARINT
    requires Goes(s, g, isClient, APPLICATION, size) && IsPacket(s, g, isClient, APPLICATION, size, b)
    requires Recovers(s.nextPn[2], PnLen(s, g, APPLICATION), largest)
    ensures size >= ShortStart(s, g) + 32
    ensures Reads(g, APPLICATION, b, 1 + |g.dcid|, largest,
                  ShortList(Controls(s, g, isClient), g.windows, s.queue, g.window, size - ShortStart(s, g))
                  + Paddings(Filler(s, g, isClient, APPLICATION, size)))
  {
    hide GivenOk, PnLength, Recovers, Controls, Packet, Sound, ListBytes, ShortList, Parse, Open, ShortPadding, Paddings, ShortFrames,
         Canonical, InRange, AllTyped, AllFaithful;
    GivenAt(g, 2);
    var room, fixed := size - ShortStart(s, g), Controls(s, g, isClient);
    var pnLen, frames := PnLen(s, g, APPLICATION), ShortPayload(s, g, isClient, size);
    ControlsFaithful(s, g, isClient);
    ShortIsList(fixed, g.windows, s.queue, g.window, room);
    assert b.bytes[..|b.bytes|] == b.bytes;
    PacketDelivers(g.suites[2], b.bytes, |b.bytes|, ShortHeader(g.dcid, g.phase, pnLen), pnLen, s.nextPn[2],
                   ShortList(fixed, g.windows, s.queue, g.window, room), ShortPadding(pnLen, |frames|), false, largest);
  }

  /** The control frames owed, the first window updates and the first `k` entries of the queue. */
  ghost function SentFrames(s: State, g: Given, isClient: bool, room: nat, k: nat): seq<Frame>
    requires StateOk(s) && GivenOk(g) && room >= 32 && k <= |s.queue| && AllSendable(s.queue[..k])
  {
    OwedFrames(s, g, isClient, room) + g.windows[..UpdatesSent(s, g, isClient, room)] + FramesOf(s.queue[..k])
  }

  lemma ListIsOwed(s: State, g: Given, isClient: bool, size: nat) returns (k: nat)
    requires StateOk(s) && GivenOk(g) && size >= ShortStart(s, g) + 32
    ensures k <= |s.queue| && AllSendable(s.queue[..k]) && ShortLeft(s, g, isClient, size) == s.queue[k..]
    ensures ShortList(Controls(s, g, isClient), g.windows, s.queue, g.window, size - ShortStart(s, g))
            == SentFrames(s, g, isClient, size - ShortStart(s, g), k)
  {
    hide GivenOk, PnLength, Controls, OwedFrames, UpdatesSent, Control, EmitCount, ListBytes, FramesOf, Sound, Canonical, InRange,
         AllTyped, AllFaithful;
    GivenAt(g, 2);
    var room := size - ShortStart(s, g);
    ControlIsOwed(s, g, isClient, room);
    k := Joining(Control(Controls(s, g, isClient), g.windows, room), s.queue, g.window, room);
  }

  /** The peer reads the control frames owed, the first window updates, the first `k` entries of the queue, and padding. */
  ghost predicate Delivers(s: State, g: Given, isClient: bool, size: nat, b: Built, largest: nat, k: nat)
    requires StateOk(s) && GivenOk(g) && size >= ShortStart(s, g) + 32
  {
    && k <= |s.queue| && AllSendable(s.queue[..k])
    && Reads(g, APPLICATION, b, 1 + |g.dcid|, largest,
             SentFrames(s, g, isClient, size - ShortStart(s, g), k) + Paddings(Filler(s, g, isClient, APPLICATION, size)))
  }

  /**
   What the peer parses out of a 1-RTT packet: the control frames owed, the first window
   updates, one STREAM frame for every entry that left the queue, and padding.
   */
  lemma ShortArrives(s: State, g: Given, isClient: bool, size: nat, b: Built, largest: nat) returns (k: nat)
    requires StateOk(s) && GivenOk(g) && s.nextPn[2] <= MAX_VARINT
    requires Goes(s, g, isClient, APPLICATION, size) && IsPacket(s, g, isClient, APPLICATION, size, b)
    requires Recovers(s.nextPn[2], PnLen(s, g, APPLICATION), largest)
    ensures size >= ShortStart(s, g) + 32 && Delivers(s, g, isClient, size, b, largest, k)
    ensures k <= |s.queue| && After(s, g, isClient, APPLICATION, size).queue == s.queue[k..]
  {
    hide GivenOk, PnLength, Recovers, Controls, SentFrames, Reads, IsPacket, Goes, ShortList, Paddings, Filler, ShortLeft, ShortTaken,
         AllSendable, Sound, Canonical, InRange, AllTyped, AllFaithful;
    GivenAt(g, 2);
    ShortSeen(s, g, isClient, size, b, largest);
    k := ListIsOwed(s, g, isClient, size);
  }

  /**
   The peer's frames start with what was owed and fits, in order: HANDSHAKE_DONE of a server,
   PATH_RESPONSE with the challenge, the ACK of the received numbers, MAX_DATA with the new
   limit; and what the frames say is no longer owed.
   */
  ghost predicate Pays(s: State, s': State, g: Given, isClient: bool, room: nat, fs: seq<Frame>)
    requires StateOk(s) && StateOk(s') && GivenOk(g)
  {
    var o := Owed(s, g, isClient, room);
    var d, p, a := if o.done then 1 else 0, if o.path then 1 else 0, if o.ack then 1 else 0;
    && |fs| >= d + p + a + (if o.limit then 1 else 0)
    && (o.done ==> fs[0] == HandshakeDone) && (s'.needDone <==> s.needDone && isClient)
    && (o.path ==> fs[d] == PathResponse(s.pathResponse.value)) && s'.pathResponse.None?
    && (o.ack ==> fs[d + p] == AckFor(g.ranges[2]).value) && (s'.ackDue[2] <==> s.ackDue[2] && !o.ack)
    && (o.limit ==> fs[d + p + a] == MaxData(g.maxData.value))
  }

  /**
   Every 1-RTT packet brings its peer what was owed, each frame as far as it fits behind the
   ones before; HANDSHAKE_DONE and PATH_RESPONSE always do.
   */
  lemma OwedArrives(s: State, g: Given, isClient: bool, size: nat, b: Built, largest: nat) returns (fs: seq<Frame>)
    requires StateOk(s) && GivenOk(g) && s.nextPn[2] <= MAX_VARINT
    requires Goes(s, g, isClient, APPLICATION, size) && IsPacket(s, g, isClient, APPLICATION, size, b)
    requires Recovers(s.nextPn[2], PnLen(s, g, APPLICATION), largest)
    ensures Reads(g, APPLICATION, b, 1 + |g.dcid|, largest, fs)
    ensures size >= ShortStart(s, g) + 32
    ensures Pays(s, After(s, g, isClient, APPLICATION, size), g, isClient, size - ShortStart(s, g), fs)
  {
    hide GivenOk, PnLength, Recovers, Reads, UpdatesSent, OwedFrames, IsPacket, Goes, After, FramesOf, Paddings, Pays, Filler, Sound,
         Canonical, InRange, AllTyped, AllFaithful;
    GivenAt(g, 2);
    var k := ShortArrives(s, g, isClient, size, b, largest);
    var room := size - ShortStart(s, g);
    var updates, entries := g.windows[..UpdatesSent(s, g, isClient, room)], FramesOf(s.queue[..k]);
    var padding := Paddings(Filler(s, g, isClient, APPLICATION, size));
    fs := OwedFrames(s, g, isClient, room) + updates + entries + padding;
    Regroup(OwedFrames(s, g, isClient, room), updates, entries, padding);
    OwedPays(s, g, isClient, size, updates + entries + padding);
  }

  lemma Regroup(a: seq<Frame>, b: seq<Frame>, c: seq<Frame>, d: seq<Frame>)
    ensures a + b + c + d == a + (b + c + d)
  {
  }

  lemma OwedPays(s: State, g: Given, isClient: bool, size: nat, rest: seq<Frame>)
    requires StateOk(s) && GivenOk(g) && size >= ShortStart(s, g) + 32 && Goes(s, g, isClient, APPLICATION, size)
    ensures var room := size - ShortStart(s, g);
            Pays(s, After(s, g, isClient, APPLICATION, size), g, isClient, room, OwedFrames(s, g, isClient, room) + rest)
  {
    hide GivenOk, PnLength, AckFor, OwedFrames, Owed, ShortAfter, ShortGoes, Sound, Canonical, InRange, AllTyped, AllFaithful;
    GivenAt(g, 2);
    TakenSettles(s, g, isClient, size);
    OwedPlaces(s, g, isClient, size - ShortStart(s, g), rest);
  }

  lemma AfterIsSettled(s: State, g: Given, isClient: bool, size: nat, taken: seq<Frame>)
    requires StateOk(s) && GivenOk(g) && size >= ShortStart(s, g) + 32
    requires taken == Taken(Controls(s, g, isClient), size - ShortStart(s, g), false)
    ensures ShortAfter(s, g, isClient, size)
            == ShortSettled(s, g, ShortLeft(s, g, isClient, size), taken, ShortGoes(s, g, isClient, size))
  {
    hide GivenOk, PnLength, Controls, Taken, ShortGoes, ShortLeft, ShortSettled, Sound, Canonical, InRange, AllTyped, AllFaithful;
  }

  /**
   A payload that leaves no room for the tag is spent without a packet: HANDSHAKE_DONE stays
   owed, but a PATH_RESPONSE and an ACK that were written into it are not sent again.
   */
  lemma UnsealedSpends(s: State, g: Given, isClient: bool, size: nat)
    requires StateOk(s) && GivenOk(g) && size >= ShortStart(s, g) + 32 && !Goes(s, g, isClient, APPLICATION, size)
    ensures var s', o := After(s, g, isClient, APPLICATION, size), Owed(s, g, isClient, size - ShortStart(s, g));
            && s'.needDone == s.needDone && s'.nextPn == s.nextPn && s'.encrypted == s.encrypted
            && s'.pathResponse.None? && (s'.ackDue[2] <==> s.ackDue[2] && !o.ack)
  {
    hide GivenOk, StateOk, PnLength, ShortGoes, ShortAfter, Owed, ShortStart;
    TakenSettles(s, g, isClient, size);
  }

  /** What the 1-RTT builder leaves of what is owed, with a packet or without one. */
  lemma TakenSettles(s: State, g: Given, isClient: bool, size: nat)
    requires StateOk(s) && GivenOk(g) && size >= ShortStart(s, g) + 32
    ensures var s', o, built := ShortAfter(s, g, isClient, size), Owed(s, g, isClient, size - ShortStart(s, g)),
                                ShortGoes(s, g, isClient, size);
            && (s'.needDone <==> s.needDone && !(built && o.done)) && (o.done <==> !isClient && s.needDone)
            && s'.pathResponse.None? && (s'.ackDue[2] <==> s.ackDue[2] && !o.ack)
            && (!built ==> s'.nextPn == s.nextPn && s'.encrypted == s.encrypted)
  {
    hide GivenOk, PnLength, Controls, Taken, ShortGoes, ShortLeft, OwedFrames, Owed, Carries, DueAck, Unanswered, ShortSettled, Sound,
         Canonical, InRange, AllTyped, AllFaithful;
    GivenAt(g, 2);
    var room := size - ShortStart(s, g);
    TakenIsOwed(s, g, isClient, room);
    AfterIsSettled(s, g, isClient, size, OwedFrames(s, g, isClient, room));
    hide ShortAfter, ShortStart;
    OwedSettled(s, g, isClient, room);
    var o := Owed(s, g, isClient, room);
    SettledBy(s, g, ShortLeft(s, g, isClient, size), OwedFrames(s, g, isClient, room), o.done, o.ack, ShortGoes(s, g, isClient, size));
  }

  lemma SettledBy(s: State, g: Given, left: seq<Entry>, taken: seq<Frame>, done: bool, ack: bool, built: bool)
    requires StateOk(s) && GivenOk(g) && (HandshakeDone in taken <==> done)
    requires Unanswered(s.pathResponse, taken).None? && (Carries(taken, DueAck(s.ackDue[2], g.ranges[2])) <==> ack)
    ensures var s' := ShortSettled(s, g, left, taken, built);
            && (s'.needDone <==> s.needDone && !(built && done)) && s'.pathResponse.None? && (s'.ackDue[2] <==> s.ackDue[2] && !ack)
            && (!built ==> s'.nextPn == s.nextPn && s'.encrypted == s.encrypted)
  {
    hide GivenOk, DueAck, Carries, Unanswered, Sound, Canonical, InRange, AllTyped, AllFaithful;
    GivenAt(g, 2);
  }

  lemma OwedPlaces(s: State, g: Given, isClient: bool, room: nat, rest: seq<Frame>)
    requires StateOk(s) && GivenOk(g)
    ensures var o, fs := Owed(s, g, isClient, room), OwedFrames(s, g, isClient, room) + rest;
            var d, p, a := if o.done then 1 else 0, if o.path then 1 else 0, if o.ack then 1 else 0;
            && |fs| >= d + p + a + (if o.limit then 1 else 0)
            && (o.done ==> fs[0] == HandshakeDone)
            && (o.path ==> fs[d] == PathResponse(s.pathResponse.value))
            && (o.ack ==> fs[d + p] == AckFor(g.ranges[2]).value)
            && (o.limit ==> fs[d + p + a] == MaxData(g.maxData.value))
  {
    hide GivenOk, AckSize, AckFor, VarintLen, Sound, Canonical, InRange, AllTyped, AllFaithful;
    GivenAt(g, 2);
  }

  /** What is among the frames owed is what is owed. */
  lemma OwedSettled(s: State, g: Given, isClient: bool, room: nat)
    requires StateOk(s) && GivenOk(g) && room >= 32
    ensures var t, o := OwedFrames(s, g, isClient, room), Owed(s, g, isClient, room);
            && (HandshakeDone in t <==> o.done) && (o.done <==> !isClient && s.needDone)
            && Unanswered(s.pathResponse, t).None?
            && (Carries(t, DueAck(s.ackDue[2], g.ranges[2])) <==> o.ack)
  {
    hide GivenOk, AckSize, Sound, Canonical, InRange, AllTyped, AllFaithful;
    GivenAt(g, 2);
  }

  /** A due ACK is enough for a packet, and with nothing else due there is one exactly if the ACK fits with the tag. */
  lemma AckAlone(s: State, g: Given, isClient: bool, size: nat)
    requires StateOk(s) && GivenOk(g) && s.ackDue[2] && AckFor(g.ranges[2]).Some?
    requires (isClient || !s.needDone) && s.pathResponse.None? && g.maxData.None? && g.windows == [] && s.queue == []
    ensures var room := size - ShortStart(s, g);
            Goes(s, g, isClient, APPLICATION, size) <==> room >= 32 && AckSize(g.ranges[2]) + 16 <= room
  {
    hide GivenOk, StateOk, PnLength, ShortFrames, Controls, SomethingDue, AckFor, AckSize, Goes, Sound, Canonical, InRange, AllTyped,
         AllFaithful;
    GivenAt(g, 2);
    ShortExactly(s, g, isClient, size);
    if size >= ShortStart(s, g) + 32 {
      AckPayload(s, g, isClient, size - ShortStart(s, g));
    }
  }

  lemma AckPayload(s: State, g: Given, isClient: bool, room: nat)
    requires StateOk(s) && GivenOk(g) && room >= 32 && s.ackDue[2] && AckFor(g.ranges[2]).Some?
    requires (isClient || !s.needDone) && s.pathResponse.None? && g.maxData.None? && g.windows == [] && s.queue == []
    ensures SomethingDue(s, g, isClient, room) <==> AckSize(g.ranges[2]) <= room
    ensures |ShortFrames(Controls(s, g, isClient), g.windows, s.queue, g.window, room)| == AckLen(s, g, 2, room)
  {
    hide GivenOk, Taken, ListBytes, Encodable, FrameBytes, AckFor, Controls, AckFrames, Sound, Canonical, InRange, AllTyped, AllFaithful,
         EmitCount, QueueBytes;
    GivenAt(g, 2);
    TakenIsOwed(s, g, isClient, room);
    TakenAck(s, g, room);
    OwedParts(s, g, isClient, room, room);
    var fs := AckFrames(s, g, room);
    assert OwedFrames(s, g, isClient, room) == fs;
    NothingMore(room - |ListBytes(fs)|);
    assert fs + [] == fs;
    QueueFront([], 0);
  }

  lemma NothingMore(room: nat)
    ensures Taken([], room, true) == []
  {
  }

  /**
   Whatever is due gets a packet when the congestion window, not the buffer, bounds the stream
   data.
   */
  lemma DueGoes(s: State, g: Given, isClient: bool, size: nat)
    requires StateOk(s) && GivenOk(g) && size >= ShortStart(s, g) + 32 && SomethingDue(s, g, isClient, size - ShortStart(s, g))
    requires |ListBytes(Control(Controls(s, g, isClient), g.windows, size - ShortStart(s, g)))| + g.window + 16
             <= size - ShortStart(s, g)
    ensures Goes(s, g, isClient, APPLICATION, size)
  {
    hide GivenOk, PnLength, ShortFrames, Controls, Control, SomethingDue, ListBytes, Sound, Canonical, InRange, AllTyped, AllFaithful;
    GivenAt(g, 2);
    ShortExactly(s, g, isClient, size);
    WindowLeavesTag(Controls(s, g, isClient), g.windows, s.queue, g.window, size - ShortStart(s, g));
  }

  // --------------------------------------------------------------------------------
  // The datagram
  // --------------------------------------------------------------------------------

  predicate KeptAt(s: State, s': State, l: nat)
    requires StateOk(s) && StateOk(s') && l < 3
  {
    s'.nextPn[l] == s.nextPn[l] && s'.ackDue[l] == s.ackDue[l] && s'.offset[l] == s.offset[l]
  }

  /** What does not belong to `level` is kept; retained streams only grow. */
  predicate Keeps(s: State, s': State, level: nat)
    requires StateOk(s) && StateOk(s')
  {
    && (forall l :: 0 <= l < 3 && l != level ==> KeptAt(s, s', l))
    && (forall l :: 0 <= l < 3 ==> s.pending[l] <= s'.pending[l])
    && (level < 2 ==> s'.queue == s.queue && s'.needDone == s.needDone && s'.pathResponse == s.pathResponse
                      && s'.encrypted == s.encrypted)
  }

  lemma OntoKeeps(s: State, g: Given, isClient: bool, level: nat, size: nat)
    requires StateOk(s) && GivenOk(g) && level < 3
    ensures Keeps(s, Onto(s, g, isClient, level, size), level)
    ensures KeyOf(level) !in g.keys ==> Onto(s, g, isClient, level, size) == s
  {
    hide GivenOk, PnLength, LongGoes, ShortGoes, AckGoes, LongOffset, ShortTaken, ShortLeft, Carries, DueAck, Sound, Canonical, InRange,
         AllTyped, AllFaithful;
    GivenAt(g, level);
  }

  /** What the 1-RTT builder does depends on the 1-RTT part of the state alone. */
  lemma ShortSame(s: State, t: State, g: Given, isClient: bool, size: nat)
    requires StateOk(s) && StateOk(t) && GivenOk(g)
    requires t.nextPn[2] == s.nextPn[2] && t.ackDue[2] == s.ackDue[2] && t.queue == s.queue
    requires t.needDone == s.needDone && t.pathResponse == s.pathResponse
    ensures ShortPayload(t, g, isClient, size) == ShortPayload(s, g, isClient, size)
    ensures ShortGoes(t, g, isClient, size) <==> ShortGoes(s, g, isClient, size)
    ensures ShortLeft(t, g, isClient, size) == ShortLeft(s, g, isClient, size)
    ensures ShortTaken(t, g, isClient, size) == ShortTaken(s, g, isClient, size)
  {
    hide GivenOk, PnLength, ShortFrames, Remaining, Taken, ControlFrames, DueAck, Sound, Canonical, InRange, AllTyped, AllFaithful;
    GivenAt(g, 2);
    assert Controls(t, g, isClient) == Controls(s, g, isClient);
  }

  /**
   Which packets a datagram holds: one of a level exactly if there are keys for the level and
   its builder's condition is met in what the packets before it left; the remaining queue is
   that of the 1-RTT builder, and a 1-RTT packet counts towards the AEAD limit. A level without
   keys has no packet and keeps its state.
   */
  lemma DueExactly(s: State, g: Given, isClient: bool, size: nat, built: seq<Built>, s': State)
    requires StateOk(s) && GivenOk(g) && Coalesced(s, g, isClient, INITIAL, size, built, s')
    ensures StateOk(s') && Ahead(built, HANDSHAKE) <= Ahead(built, APPLICATION) <= size
    ensures HasLevel(built, INITIAL) <==> Lifecycle.Initial in g.keys && Goes(s, g, isClient, INITIAL, size)
    ensures HasLevel(built, HANDSHAKE) <==>
            && Lifecycle.Handshake in g.keys
            && Goes(Onto(s, g, isClient, INITIAL, size), g, isClient, HANDSHAKE, size - Ahead(built, HANDSHAKE))
    ensures HasLevel(built, APPLICATION) <==>
            Lifecycle.Application in g.keys && Goes(s, g, isClient, APPLICATION, size - Ahead(built, APPLICATION))
    ensures s'.queue == if Lifecycle.Application in g.keys then ShortLeft(s, g, isClient, size - Ahead(built, APPLICATION)) else s.queue
    ensures s'.encrypted == s.encrypted + if HasLevel(built, APPLICATION) then 1 else 0
    ensures forall l :: 0 <= l < 3 && KeyOf(l) !in g.keys ==> KeptAt(s, s', l)
  {
    hide GivenOk, StateOk, Coalesced, LongGoes, ShortGoes, Onto, HasLevel, Ahead, ShortLeft, After, KeptAt;
    var s1, s2, size1, size2 := LevelByLevel(s, g, isClient, size, built, s');
    OntoKeeps(s, g, isClient, INITIAL, size);
    OntoKeeps(s1, g, isClient, HANDSHAKE, size1);
    OntoKeeps(s2, g, isClient, APPLICATION, size2);
    KeptChain(s, s1, s2, s', g);
    ShortPart(s, s1, s2, g, isClient, size2);
    LastQueue(s2, g, isClient, size2);
  }

  lemma KeptChain(s: State, s1: State, s2: State, s': State, g: Given)
    requires StateOk(s) && StateOk(s1) && StateOk(s2) && StateOk(s')
    requires Keeps(s, s1, INITIAL) && Keeps(s1, s2, HANDSHAKE) && Keeps(s2, s', APPLICATION)
    requires KeyOf(INITIAL) !in g.keys ==> s1 == s
    requires KeyOf(HANDSHAKE) !in g.keys ==> s2 == s1
    requires KeyOf(APPLICATION) !in g.keys ==> s' == s2
    ensures forall l :: 0 <= l < 3 && KeyOf(l) !in g.keys ==> KeptAt(s, s', l)
  {
    forall l | 0 <= l < 3 && KeyOf(l) !in g.keys ensures KeptAt(s, s', l) {
      assert l != INITIAL ==> KeptAt(s, s1, l);
      assert l != HANDSHAKE ==> KeptAt(s1, s2, l);
      assert l != APPLICATION ==> KeptAt(s2, s', l);
    }
  }

  lemma ShortPart(s: State, s1: State, s2: State, g: Given, isClient: bool, size: nat)
    requires StateOk(s) && StateOk(s1) && StateOk(s2) && GivenOk(g)
    requires Keeps(s, s1, INITIAL) && Keeps(s1, s2, HANDSHAKE)
    ensures s2.queue == s.queue && s2.encrypted == s.encrypted && ShortLeft(s2, g, isClient, size) == ShortLeft(s, g, isClient, size)
    ensures Goes(s2, g, isClient, APPLICATION, size) <==> Goes(s, g, isClient, APPLICATION, size)
  {
    hide GivenOk, ShortGoes, ShortLeft;
    assert KeptAt(s, s1, APPLICATION) && KeptAt(s1, s2, APPLICATION);
    ShortSame(s, s2, g, isClient, size);
  }

  /** The states and sizes the three builders start with. */
  lemma LevelByLevel(s: State, g: Given, isClient: bool, size: nat, built: seq<Built>, s': State)
    returns (s1: State, s2: State, size1: nat, size2: nat)
    requires StateOk(s) && GivenOk(g) && Coalesced(s, g, isClient, INITIAL, size, built, s')
    ensures StateOk(s1) && StateOk(s2) && StateOk(s')
    ensures s1 == Onto(s, g, isClient, INITIAL, size) && s2 == Onto(s1, g, isClient, HANDSHAKE, size1)
    ensures s' == Onto(s2, g, isClient, APPLICATION, size2)
    ensures size1 == size - Ahead(built, HANDSHAKE) && size2 == size - Ahead(built, APPLICATION) <= size1
    ensures HasLevel(built, INITIAL) <==> KeyOf(INITIAL) in g.keys && Goes(s, g, isClient, INITIAL, size)
    ensures HasLevel(built, HANDSHAKE) <==> KeyOf(HANDSHAKE) in g.keys && Goes(s1, g, isClient, HANDSHAKE, size1)
    ensures HasLevel(built, APPLICATION) <==> KeyOf(APPLICATION) in g.keys && Goes(s2, g, isClient, APPLICATION, size2)
  {
    hide GivenOk, StateOk, Coalesced, Goes, IsPacket, Onto, HasLevel, Ahead, From, KeyOf;
    var rest1 := FirstLevel(s, g, isClient, INITIAL, size, built, s');
    s1, size1 := Onto(s, g, isClient, INITIAL, size), size - Ahead(built, HANDSHAKE);
    var rest2 := FirstLevel(s1, g, isClient, HANDSHAKE, size1, rest1, s');
    s2, size2 := Onto(s1, g, isClient, HANDSHAKE, size1), size1 - Ahead(rest1, APPLICATION);
    var rest3 := FirstLevel(s2, g, isClient, APPLICATION, size2, rest2, s');
    LastState(s2, g, isClient, size2, size2 - Ahead(rest2, 3), rest3, s');
  }

  lemma LastState(s: State, g: Given, isClient: bool, size: nat, left: nat, rest: seq<Built>, s': State)
    requires StateOk(s) && GivenOk(g) && Coalesced(Onto(s, g, isClient, APPLICATION, size), g, isClient, 3, left, rest, s')
    ensures s' == Onto(s, g, isClient, APPLICATION, size) && StateOk(s')
  {
    hide GivenOk, StateOk, Onto;
  }

  lemma LastQueue(s: State, g: Given, isClient: bool, size: nat)
    requires StateOk(s) && GivenOk(g)
    ensures Onto(s, g, isClient, APPLICATION, size).queue
            == if Lifecycle.Application in g.keys then ShortLeft(s, g, isClient, size) else s.queue
    ensures Onto(s, g, isClient, APPLICATION, size).encrypted
            == s.encrypted + if Lifecycle.Application in g.keys && Goes(s, g, isClient, APPLICATION, size) then 1 else 0
  {
    hide GivenOk, ShortGoes, ShortLeft, ShortTaken, PnLength, Sound, Canonical, InRange;
  }

  /**
   Stream bytes taken are in a packet: those of the Handshake level always, those of the Initial
   level exactly if the buffer is longer than 1200 bytes or the Length field is not widened.
   */
  lemma TakenLeaves(s: State, g: Given, isClient: bool, size: nat, built: seq<Built>, s': State)
    requires StateOk(s) && GivenOk(g) && Coalesced(s, g, isClient, INITIAL, size, built, s')
    ensures StateOk(s')
    ensures s'.offset[HANDSHAKE] > s.offset[HANDSHAKE] ==> HasLevel(built, HANDSHAKE)
    ensures s'.offset[INITIAL] > s.offset[INITIAL] ==>
              && size >= 1200
              && (HasLevel(built, INITIAL) <==>
                  size > 1200 || PnLen(s, g, INITIAL) + |LongPayload(s, g, INITIAL, size)| + 16 > 63)
  {
    hide GivenOk, Coalesced, Goes, Onto, HasLevel, Ahead, PnLength, LongPayload, Keeps;
    GivenAt(g, 0);
    var s1, s2, size1, size2 := LevelByLevel(s, g, isClient, size, built, s');
    OntoKeeps(s, g, isClient, INITIAL, size);
    OntoKeeps(s1, g, isClient, HANDSHAKE, size1);
    OntoKeeps(s2, g, isClient, APPLICATION, size2);
    OffsetsKept(s, s1, s2, s');
    if s1.offset[INITIAL] > s.offset[INITIAL] {
      InitialTaken(s, g, isClient, size);
    }
    if s2.offset[HANDSHAKE] > s1.offset[HANDSHAKE] {
      HandshakeTaken(s1, g, isClient, size1);
    }
  }

  lemma OffsetsKept(s: State, s1: State, s2: State, s': State)
    requires StateOk(s) && StateOk(s1) && StateOk(s2) && StateOk(s')
    requires Keeps(s, s1, INITIAL) && Keeps(s1, s2, HANDSHAKE) && Keeps(s2, s', APPLICATION)
    ensures s'.offset[INITIAL] == s1.offset[INITIAL]
    ensures s'.offset[HANDSHAKE] == s2.offset[HANDSHAKE] && s1.offset[HANDSHAKE] == s.offset[HANDSHAKE]
  {
    assert KeptAt(s1, s2, INITIAL) && KeptAt(s2, s', INITIAL);
    assert KeptAt(s, s1, HANDSHAKE) && KeptAt(s2, s', HANDSHAKE);
  }

  lemma InitialTaken(s: State, g: Given, isClient: bool, size: nat)
    requires StateOk(s) && GivenOk(g) && Onto(s, g, isClient, INITIAL, size).offset[INITIAL] > s.offset[INITIAL]
    ensures KeyOf(INITIAL) in g.keys && size >= 1200
    ensures Goes(s, g, isClient, INITIAL, size) <==>
            size > 1200 || PnLen(s, g, INITIAL) + |LongPayload(s, g, INITIAL, size)| + 16 > 63
  {
    hide GivenOk, Goes, PnLength, LongPayload, LongAfter, AckLen, Unsent, PacketSize, PaddingOf;
    GivenAt(g, 0);
    LongTakes(s, g, isClient, INITIAL, size);
    InitialExactly(s, g, isClient, size);
  }

  lemma HandshakeTaken(s: State, g: Given, isClient: bool, size: nat)
    requires StateOk(s) && GivenOk(g) && Onto(s, g, isClient, HANDSHAKE, size).offset[HANDSHAKE] > s.offset[HANDSHAKE]
    ensures KeyOf(HANDSHAKE) in g.keys && Goes(s, g, isClient, HANDSHAKE, size)
  {
    hide GivenOk, Goes, PnLength, LongPayload, LongAfter, AckLen, Unsent, VarintLen;
    GivenAt(g, 1);
    LongTakes(s, g, isClient, HANDSHAKE, size);
    HandshakeExactly(s, g, isClient, size);
  }

  /** How much of a retained stream goes into a first packet of `size` bytes when it is sent again from its start. */
  ghost function Resent(s: State, g: Given, level: nat, size: nat): nat
    requires StateOk(s) && GivenOk(g) && level < 2
  {
    var room := size - Reserve(s, g, level);
    Portion(room - AckLen(s, g, level, room), |s.pending[level]|)
  }

  /**
   The call after a probe timeout sends the retained stream again from its first byte: the first
   packet, of the lowest level with keys, brings its peer a CRYPTO frame at offset 0 with as much
   of the stream as goes in.
   */
  lemma ProbeResends(l: Lifecycle.Life, s: State, g: Given, level: nat, size: nat, built: seq<Built>, s': State, largest: nat)
    returns (pnOffset: nat, before: seq<Frame>, padding: nat)
    requires StateOk(s) && GivenOk(g) && l.close.None? && !Barred(l, g) && g.slotHeld
    requires Polls(l, s, true, g, size, built, s')
    requires level < 2 && KeyOf(level) in g.keys && (level == HANDSHAKE ==> KeyOf(INITIAL) !in g.keys)
    requires s.pending[level] != [] && size >= Reserve(s, g, level) + 32 && Resent(s, g, level, size) > 0
    requires level == INITIAL ==> size > 1200
    requires s.nextPn[level] <= MAX_VARINT && Recovers(s.nextPn[level], PnLen(s, g, level), largest)
    ensures built != [] && built[0].level == level && pnOffset > 0 && |before| <= 1 && Resent(s, g, level, size) <= |s.pending[level]|
    ensures Reads(g, level, built[0], pnOffset, largest,
                  before + [CryptoData(0, s.pending[level][..Resent(s, g, level, size)])] + Paddings(padding))
  {
    hide GivenOk, Coalesced, Goes, IsPacket, PnLength, AckLen, Reads, Recovers, LongAfter, LongPayload, VarintLen, Payload, Filler,
         Paddings, AckFor;
    GivenAt(g, level);
    var t := Rewound(s, true);
    RewoundDue(s, t, g, l.isClient, level, size);
    if level == INITIAL {
      InitialExactly(t, g, l.isClient, size);
    } else {
      HandshakeExactly(t, g, l.isClient, size);
    }
    FirstPacket(t, g, l.isClient, level, size, built, s');
    FlightArrives(t, g, l.isClient, level, size, built[0], largest);
    var n := PnLen(t, g, level) + |Payload(t, g, l.isClient, level, size)| + Filler(t, g, l.isClient, level, size) + TAG;
    pnOffset, padding := LongBase(g, level) + VarintLen(n), Filler(t, g, l.isClient, level, size);
    if AckLen(t, g, level, size - Reserve(t, g, level)) > 0 {
      AckThere(t, g, level, size - Reserve(t, g, level));
    }
    before := if AckLen(t, g, level, size - Reserve(t, g, level)) > 0 then [AckFor(g.ranges[level]).value] else [];
    assert s.pending[level][0..Resent(s, g, level, size)] == s.pending[level][..Resent(s, g, level, size)];
  }

  /** From the first byte there is something to send, and TLS is not asked for more. */
  lemma RewoundDue(s: State, t: State, g: Given, isClient: bool, level: nat, size: nat)
    requires StateOk(s) && GivenOk(g) && level < 2 && t == s.(offset := [0, 0, 0]) && g.slotHeld
    requires s.pending[level] != [] && size >= Reserve(s, g, level) + 32 && Resent(s, g, level, size) > 0
    requires level == INITIAL ==> size > 1200
    ensures StateOk(t) && PnLen(t, g, level) == PnLen(s, g, level) && Reserve(t, g, level) == Reserve(s, g, level)
    ensures AckLen(t, g, level, size - Reserve(s, g, level)) == AckLen(s, g, level, size - Reserve(s, g, level))
    ensures Unsent(t, g, level) == |s.pending[level]| && CryptoDue(t, g, level, size)
    ensures var t' := LongAfter(t, g, isClient, level, size);
            t'.offset[level] == Resent(s, g, level, size) && t'.pending[level] == s.pending[level]
  {
    hide GivenOk, PnLength, AckFor, AckSize, LongGoes;
    GivenAt(g, level);
    LongTakes(t, g, isClient, level, size);
  }

  /** The first packet of a datagram is that of the lowest level with keys, if that has one. */
  lemma FirstPacket(s: State, g: Given, isClient: bool, level: nat, size: nat, built: seq<Built>, s': State)
    requires StateOk(s) && GivenOk(g) && level < 2 && Coalesced(s, g, isClient, INITIAL, size, built, s')
    requires KeyOf(level) in g.keys && (level == HANDSHAKE ==> KeyOf(INITIAL) !in g.keys) && Goes(s, g, isClient, level, size)
    ensures built != [] && built[0].level == level && IsPacket(s, g, isClient, level, size, built[0])
  {
    hide GivenOk, Goes, After, Payload, Filler, SealedAs, HeaderAt;
  }

  // --------------------------------------------------------------------------------
  // The close
  // --------------------------------------------------------------------------------

  /** The close packet's length, for a caller who knows the keys, the identifiers and the number. */
  function CloseSize(s: State, g: Given, isClient: bool, k: Lifecycle.Level, f: nat): (n: nat)
    requires StateOk(s) && |g.known| == 3
    ensures n > 0
  {
    var pnLen, ids := PnLen(s, g, LevelOf(k)), |g.dcid| + |g.scid|;
    match k
    case Initial => PacketSize(8 + ids, pnLen, f + PaddingOf(8 + ids, pnLen, f, isClient))
    case Handshake => PacketSize(7 + ids, pnLen, f + ShortPadding(pnLen, f))
    case Application => 1 + |g.dcid| + pnLen + f + ShortPadding(pnLen, f) + TAG
  }

  lemma ClosePacketSize(s: State, g: Given, isClient: bool, k: Lifecycle.Level, size: nat, f: nat)
    requires StateOk(s) && GivenOk(g) && Lifecycle.CloseLevel(g.keys) == Some(k)
    ensures Lifecycle.ClosePacket(k, EnvOf(s, g, size, 0), f, isClient) == CloseSize(s, g, isClient, k, f)
  {
    hide GivenOk, PnLength, PacketSize, PaddingOf, ShortPadding;
    GivenAt(g, 0);
  }

  lemma CloseSeen(s: State, g: Given, level: nat, f: Frame, padding: nat, b: Built, largest: nat)
    requires StateOk(s) && GivenOk(g) && level < 3 && s.nextPn[level] <= MAX_VARINT && Encodable(f) && Faithful(f)
    requires PacketAt(s, g, level, FrameBytes(f), padding, b)
    requires Recovers(s.nextPn[level], PnLen(s, g, level), largest)
    ensures Reads(g, level, b, |HeaderAt(g, level, PnLen(s, g, level), |FrameBytes(f)| + padding)|, largest, [f] + Paddings(padding))
  {
    hide GivenOk, PnLength, Sound, Open, Parse, Recovers, Packet, HeaderAt, Encodable, FrameBytes, Faithful, Paddings, ListBytes;
    GivenAt(g, level);
    assert b.bytes[..|b.bytes|] == b.bytes;
    TakenOne(f, 0, false);
    PacketDelivers(g.suites[level], b.bytes, |b.bytes|, HeaderAt(g, level, PnLen(s, g, level), |FrameBytes(f)| + padding),
                   PnLen(s, g, level), s.nextPn[level], [f], padding, IsLong(level), largest);
  }

  /** The connection is live and may send: not closing, draining or closed, within its allowance, keys renewed if need be. */
  predicate Live(l: Lifecycle.Life, g: Given) {
    && (l.state.Handshaking? || l.state.Active?)
    && (l.validated || l.sent + 1 <= 3 * l.received) && !g.updateFails
  }

  /** The peer of the one packet parses the close frame `f`, then only padding. */
  ghost predicate Says(s: State, g: Given, isClient: bool, k: Lifecycle.Level, built: seq<Built>, largest: nat, f: Frame)
    requires StateOk(s) && GivenOk(g) && Encodable(f)
  {
    var level := LevelOf(k);
    var pnLen := PnLen(s, g, level);
    var padding := ClosePadding(g, level, pnLen, |FrameBytes(f)|, isClient);
    && |built| == 1 && built[0].level == level && built[0].pn == s.nextPn[level]
    && (IsLong(level) ==> pnLen + |FrameBytes(f)| + padding + TAG <= MAX_VARINT)
    && (s.nextPn[level] <= MAX_VARINT && Recovers(s.nextPn[level], pnLen, largest) ==>
          Reads(g, level, built[0], |HeaderAt(g, level, pnLen, |FrameBytes(f)| + padding)|, largest, [f] + Paddings(padding)))
  }

  lemma ClosesSays(s: State, g: Given, isClient: bool, k: Lifecycle.Level, size: nat, f: Frame, built: seq<Built>, s': State,
                   largest: nat)
    requires StateOk(s) && GivenOk(g) && Lifecycle.CloseLevel(g.keys) == Some(k) && Encodable(f) && Faithful(f)
    requires CloseSize(s, g, isClient, k, |FrameBytes(f)|) <= size
    requires ClosesAt(s, g, isClient, k, size, FrameBytes(f), built, s')
    ensures Says(s, g, isClient, k, built, largest, f) && |Joined(built)| == CloseSize(s, g, isClient, k, |FrameBytes(f)|)
  {
    hide GivenOk, PnLength, HeaderAt, Reads, Recovers, Encodable, FrameBytes, Faithful, SealedAs, ClosePadding, CloseSize, EnvOf,
         Lifecycle.ClosePacket, Paddings;
    GivenAt(g, 0);
    ClosePacketSize(s, g, isClient, k, size, |FrameBytes(f)|);
    var level := LevelOf(k);
    var pnLen := PnLen(s, g, level);
    assert built[1..] == [];
    if s.nextPn[level] <= MAX_VARINT && Recovers(s.nextPn[level], pnLen, largest) {
      CloseSeen(s, g, level, f, ClosePadding(g, level, pnLen, |FrameBytes(f)|, isClient), built[0], largest);
    }
  }

  /** A rewind of the CRYPTO offsets changes nothing about a close. */
  lemma RewindAside(s: State, g: Given, isClient: bool, size: nat, code: U64, said: Bytes, rewound: bool, built: seq<Built>, s': State)
    requires StateOk(s) && GivenOk(g) && |said| <= 64
    requires Closes(Rewound(s, rewound), g, isClient, size, code, said, built, s')
    ensures Closes(s, g, isClient, size, code, said, built, s'.(offset := s.offset))
  {
    hide GivenOk, PnLength, SealedAs, HeaderAt, Encodable, FrameBytes, Lifecycle.ClosePacket, ClosePadding, Lifecycle.CloseLevel;
    GivenAt(g, 0);
  }

  /** The frame's length, and the poll's answer, in terms of the code and the reason. */
  lemma CloseAnswer(s: State, g: Given, isClient: bool, size: nat, data: nat, code: U64, said: Bytes, k: Lifecycle.Level)
    requires StateOk(s) && GivenOk(g) && |said| <= 64 && Lifecycle.CloseLevel(g.keys) == Some(k)
    ensures var e := EnvOf(s, g, size, data); Lifecycle.EnvOk(e) && e.updateFails == g.updateFails && e.keys == g.keys
    ensures Lifecycle.CloseBytes(k, EnvOf(s, g, size, data), code, said, isClient) ==
            var total := CloseSize(s, g, isClient, k, 2 + VarintLen(code) + VarintLen(|said|) + |said|);
            if code <= MAX_VARINT && total <= size then total else 0
    ensures code <= MAX_VARINT ==>
              var f := ConnectionClose(false, code, 0, said);
              Encodable(f) && Faithful(f) && |FrameBytes(f)| == 2 + VarintLen(code) + VarintLen(|said|) + |said|
  {
    hide GivenOk, PnLength, Encodable, FrameBytes, Lifecycle.ClosePacket, CloseSize;
    GivenAt(g, 0);
    Lifecycle.CloseEncodable(code, said);
    EnvFits(s, g, size);
    CloseIgnoresData(EnvOf(s, g, size, 0), data, code, said, isClient);
    ClosePacketSize(s, g, isClient, k, size, 2 + VarintLen(code) + VarintLen(|said|) + |said|);
    if code <= MAX_VARINT {
      Lifecycle.CloseFrameSize(code, said);
    }
  }

  /**
   `close` on a live connection, then one poll: a datagram goes out exactly if there are keys, the
   code has an encoding and the packet fits. Then it is one packet, at the highest level with
   keys, and its peer parses CONNECTION_CLOSE with that code and the first 64 bytes of that
   reason, then only padding.
   */
  lemma CloseReachesPeer(l: Lifecycle.Life, code: U64, reason: Bytes, s: State, rewind: bool, g: Given, size: nat,
                         built: seq<Built>, s': State, largest: nat)
    requires StateOk(s) && GivenOk(g) && Live(l, g) && Lifecycle.CloseLevel(g.keys).Some?
    requires Polls(Lifecycle.CloseCalled(l, code, reason), s, rewind, g, size, built, s')
    ensures var said, k := reason[..Min(|reason|, 64)], Lifecycle.CloseLevel(g.keys).value;
            var (l', n) := Lifecycle.Polled(Lifecycle.CloseCalled(l, code, reason), EnvOf(s, g, size, |Joined(built)|));
            var f := ConnectionClose(false, code, 0, said);
            && l'.state.ConnClosed?
            && (n > 0 <==> code <= MAX_VARINT
                           && CloseSize(s, g, l.isClient, k, 2 + VarintLen(code) + VarintLen(|said|) + |said|) <= size)
            && (n > 0 ==> n == |Joined(built)| && Encodable(f) && Says(s, g, l.isClient, k, built, largest, f))
  {
    hide GivenOk, PnLength, Encodable, FrameBytes, Faithful, CloseSize, Lifecycle.CloseLevel, Lifecycle.CloseBytes, ClosesAt, Says,
         EnvOf, Coalesced, VarintLen;
    GivenAt(g, 0);
    var said, k := reason[..Min(|reason|, 64)], Lifecycle.CloseLevel(g.keys).value;
    CloseAnswer(s, g, l.isClient, size, |Joined(built)|, code, said, k);
    RewindAside(s, g, l.isClient, size, code, said, rewind && g.slotHeld, built, s');
    if code <= MAX_VARINT && CloseSize(s, g, l.isClient, k, 2 + VarintLen(code) + VarintLen(|said|) + |said|) <= size {
      ClosesSays(s, g, l.isClient, k, size, ConnectionClose(false, code, 0, said), built, s'.(offset := s.offset), largest);
    }
  }

  /** Every 1-RTT packet a call seals, the close packet included, counts towards the AEAD limit. */
  lemma PollCounted(l: Lifecycle.Life, s: State, rewind: bool, g: Given, size: nat, built: seq<Built>, s': State)
    requires StateOk(s) && GivenOk(g) && (l.close.Some? ==> |l.close.value.1| <= 64)
    requires Polls(l, s, rewind, g, size, built, s')
    ensures s'.encrypted == s.encrypted + if HasLevel(built, APPLICATION) then 1 else 0
  {
    hide GivenOk, Coalesced, Goes, FrameBytes, Encodable, SealedAs, HeaderAt, Lifecycle.ClosePacket, EnvOf, ClosePadding, PnLength,
         Lifecycle.CloseLevel, ShortLeft, Onto, Ahead, KeptAt;
    var s1 := Rewound(s, rewind && g.slotHeld);
    if !Barred(l, g) && l.close.None? {
      DueExactly(s1, g, l.isClient, size, built, s');
    } else if built != [] {
      HeadHas(built);
      assert built[1..] == [];
    }
  }
}
