/**
 `poll_transmit` as a whole: the packet builders of the three number spaces and the two
 builders of close packets, all sealing under `nextPn`, coalesced into one datagram that the
 anti-amplification check lets go or holds back.
 */
module Transmit {
  import opened Bytes
  import opened Varint
  import opened FrameCodec
  import opened PnTracker
  import opened AckPath
  import CryptoStream
  import opened SendPath
  import opened Protection
  import opened PacketBuild
  import opened ShortPacket
  import Lifecycle

  const U64_SIZE: nat := 0x1_0000_0000_0000_0000

  const INITIAL: nat := 0
  const HANDSHAKE: nat := 1
  const APPLICATION: nat := 2

  /** A packet sealed under number `pn` of the space of `level`. */
  datatype Built = Built(level: nat, pn: U64, bytes: Bytes)

  /** What other parts of the connection contribute to one call: keys, received numbers, TLS flights, windows. */
  datatype Given = Given(
    updateFails: bool, keys: set<Lifecycle.Level>, suites: seq<Suite>, dcid: Bytes, scid: Bytes,
    known: seq<nat>, ranges: seq<seq<Range>>, slotHeld: bool, flights: seq<Option<(Bytes, nat)>>,
    maxData: Option<U64>, windows: seq<Frame>, window: nat, phase: nat)

  ghost predicate GivenOk(g: Given) {
    && |g.suites| == |g.known| == |g.ranges| == |g.flights| == 3
    && (forall l :: 0 <= l < 3 ==> Sound(g.suites[l]))
    && (forall l :: 0 <= l < 3 ==> Canonical(g.ranges[l]) && InRange(g.ranges[l]))
    && (forall l :: 0 <= l < 3 ==> g.flights[l].Some? ==> g.flights[l].value.1 < 3)
    && CidsFit(g.dcid, g.scid) && g.phase <= 1
    && forall i :: 0 <= i < |g.windows| ==> g.windows[i].MaxStreamData?
  }

  /** The sending state of a connection. */
  datatype State = State(
    nextPn: seq<U64>, ackDue: seq<bool>, needDone: bool, pathResponse: Option<Bytes>, encrypted: nat,
    queue: seq<Entry>, pending: seq<Bytes>, offset: seq<nat>)

  predicate StateOk(s: State) {
    && |s.nextPn| == |s.ackDue| == |s.pending| == |s.offset| == 3
    && (forall l :: 0 <= l < 3 ==> s.offset[l] <= |s.pending[l]| <= CryptoStream.RETAINED)
    && (s.pathResponse.Some? ==> |s.pathResponse.value| == 8)
  }

  /** The next numbers once a packet of `level` was, or was not, built; 64 bits wrap around. */
  function Bumped(next: seq<U64>, level: nat, built: bool): (r: seq<U64>)
    requires |next| == 3 && level < 3
    ensures |r| == 3
  {
    if built then next[level := (next[level] + 1) % U64_SIZE] else next
  }

  /** `built` took its numbers from `next`, one after the other, and left `next'`. */
  predicate Numbered(next: seq<U64>, built: seq<Built>, next': seq<U64>)
    requires |next| == 3
    decreases |built|
  {
    if built == [] then next' == next
    else
      && built[0].level < 3
      && built[0].pn == next[built[0].level]
      && Numbered(Bumped(next, built[0].level, true), built[1..], next')
  }

  function Joined(built: seq<Built>): Bytes
    decreases |built|
  {
    if built == [] then [] else built[0].bytes + Joined(built[1..])
  }

  predicate HasLevel(built: seq<Built>, level: nat) { exists i :: 0 <= i < |built| && built[i].level == level }

  predicate IsLong(level: nat) { level < APPLICATION }

  ghost predicate SealedAs(c: Suite, b: Built, isLong: bool, header: Bytes, pnLen: nat, frames: Bytes, padding: nat) {
    && Sound(c) && 1 <= pnLen <= 4 && header != []
    && Packet(c, b.bytes, |b.bytes|, header, pnLen, b.pn, frames, padding, isLong)
  }

  /** The bytes come out of sealing some frames under the packet's number, with the keys of its level. */
  ghost predicate Genuine(b: Built, g: Given)
    requires GivenOk(g)
  {
    b.level < 3 && exists header, pnLen: nat, frames, padding: nat ::
                     SealedAs(g.suites[b.level], b, IsLong(b.level), header, pnLen, frames, padding)
  }

  ghost predicate AllGenuine(built: seq<Built>, g: Given)
    requires GivenOk(g)
  {
    forall i :: 0 <= i < |built| ==> Genuine(built[i], g)
  }

  // --------------------------------------------------------------------------------
  // What each builder does
  // --------------------------------------------------------------------------------

  function PnLen(s: State, g: Given, level: nat): (n: nat)
    requires StateOk(s) && |g.known| == 3 && level < 3
    ensures 1 <= n <= 4
  {
    PnLength(s.nextPn[level], g.known[level])
  }

  /** The long header without its Length field. */
  function LongBase(g: Given, level: nat): nat { (if level == INITIAL then 8 else 7) + |g.dcid| + |g.scid| }

  /** Where the frames of an Initial or Handshake packet are first written. */
  function Reserve(s: State, g: Given, level: nat): nat
    requires StateOk(s) && |g.known| == 3 && level < 2
  {
    LongBase(g, level) + 8 + PnLen(s, g, level)
  }

  /** Whether an Initial or Handshake builder turns to the TLS stream at all. */
  predicate Asks(s: State, g: Given, level: nat, size: nat)
    requires StateOk(s) && |g.known| == 3 && level < 2
  {
    g.slotHeld && size >= Reserve(s, g, level) + 32 && (level == INITIAL ==> size >= MIN_INITIAL)
  }

  /** The retained streams after an Initial or Handshake builder. */
  ghost function LongStreams(s: State, g: Given, level: nat, size: nat): (p: seq<Bytes>)
    requires StateOk(s) && GivenOk(g) && level < 2
    ensures |p| == 3 && forall l :: 0 <= l < 3 ==> s.pending[l] <= p[l] && |p[l]| <= CryptoStream.RETAINED
  {
    if Asks(s, g, level, size) then Asked(s.pending, s.offset, level, g.flights[level]) else s.pending
  }

  /** How far the level's stream has been sent after it. */
  ghost function LongOffset(s: State, g: Given, level: nat, size: nat): (n: nat)
    requires StateOk(s) && GivenOk(g) && level < 2
    ensures s.offset[level] <= n <= |LongStreams(s, g, level, size)[level]|
  {
    var room := size - Reserve(s, g, level);
    if !Asks(s, g, level, size) then s.offset[level]
    else
      s.offset[level] + Portion(room - |AckPart(s.ackDue[level], g.ranges[level], room)|,
                                |LongStreams(s, g, level, size)[level]| - s.offset[level])
  }

  /** The payload of an Initial or Handshake packet: the ACK, then the stream between the two offsets. */
  ghost function LongPayload(s: State, g: Given, level: nat, size: nat): Bytes
    requires StateOk(s) && GivenOk(g) && level < 2
  {
    if size < Reserve(s, g, level) + 32 then []
    else
      AckPart(s.ackDue[level], g.ranges[level], size - Reserve(s, g, level))
      + CryptoPart(LongStreams(s, g, level, size)[level], s.offset[level], LongOffset(s, g, level, size))
  }

  /** Only Initial packets are padded: a client's, and those with CRYPTO data. */
  ghost function LongPadding(s: State, g: Given, isClient: bool, level: nat, size: nat): nat
    requires StateOk(s) && GivenOk(g) && level < 2
  {
    if level == INITIAL
    then PaddingOf(LongBase(g, level), PnLen(s, g, level), |LongPayload(s, g, level, size)|,
                   isClient || LongOffset(s, g, level, size) > s.offset[level])
    else 0
  }

  /** There is a frame to send and the packet fits. */
  ghost predicate LongGoes(s: State, g: Given, isClient: bool, level: nat, size: nat)
    requires StateOk(s) && GivenOk(g) && level < 2
  {
    && LongPayload(s, g, level, size) != []
    && PacketSize(LongBase(g, level), PnLen(s, g, level),
                  |LongPayload(s, g, level, size)| + LongPadding(s, g, isClient, level, size)) <= size
  }

  /** The state an Initial or Handshake builder leaves: what it took is spent whether or not there is a packet. */
  ghost function LongAfter(s: State, g: Given, isClient: bool, level: nat, size: nat): (s': State)
    requires StateOk(s) && GivenOk(g) && level < 2
    ensures StateOk(s')
  {
    s.(nextPn := Bumped(s.nextPn, level, LongGoes(s, g, isClient, level, size)),
       pending := LongStreams(s, g, level, size),
       offset := s.offset[level := LongOffset(s, g, level, size)],
       ackDue := s.ackDue[level := s.ackDue[level] && !AckGoes(s.ackDue[level], g.ranges[level], size, Reserve(s, g, level))])
  }

  /** The control frames a 1-RTT packet would like to carry, in order. */
  function ControlFrames(needDone: bool, pathResponse: Option<Bytes>, ack: Option<Frame>, maxData: Option<U64>): seq<Frame> {
    (if needDone then [HandshakeDone] else [])
    + (if pathResponse.Some? then [PathResponse(pathResponse.value)] else [])
    + (if ack.Some? then [ack.value] else [])
    + (if maxData.Some? then [MaxData(maxData.value)] else [])
  }

  function DueAck(due: bool, rs: seq<Range>): Option<Frame>
    requires Canonical(rs) && InRange(rs)
  {
    if due then AckFor(rs) else None
  }

  function Controls(s: State, g: Given, isClient: bool): seq<Frame>
    requires StateOk(s) && |g.ranges| == 3 && Canonical(g.ranges[2]) && InRange(g.ranges[2])
  {
    ControlFrames(!isClient && s.needDone, s.pathResponse, DueAck(s.ackDue[2], g.ranges[2]), g.maxData)
  }

  function ShortStart(s: State, g: Given): nat
    requires StateOk(s) && |g.known| == 3
  {
    1 + |g.dcid| + PnLen(s, g, APPLICATION)
  }

  /** The payload a 1-RTT packet gets in a slice of `size` bytes. */
  ghost function ShortPayload(s: State, g: Given, isClient: bool, size: nat): Bytes
    requires StateOk(s) && GivenOk(g)
  {
    if size < ShortStart(s, g) + 32 then []
    else ShortFrames(Controls(s, g, isClient), g.windows, s.queue, g.window, size - ShortStart(s, g))
  }

  /** There is something to send and room for it with the tag. */
  ghost predicate ShortGoes(s: State, g: Given, isClient: bool, size: nat)
    requires StateOk(s) && GivenOk(g)
  {
    && ShortPayload(s, g, isClient, size) != []
    && ShortStart(s, g) + |ShortPayload(s, g, isClient, size)| + TAG <= size
  }

  /** The control frames a 1-RTT packet takes out of a slice of `size` bytes. */
  ghost function ShortTaken(s: State, g: Given, isClient: bool, size: nat): seq<Frame>
    requires StateOk(s) && GivenOk(g)
  {
    if size < ShortStart(s, g) + 32 then [] else Taken(Controls(s, g, isClient), size - ShortStart(s, g), false)
  }

  /** The entries it leaves in the queue. */
  ghost function ShortLeft(s: State, g: Given, isClient: bool, size: nat): seq<Entry>
    requires StateOk(s) && GivenOk(g)
  {
    if size < ShortStart(s, g) + 32 then s.queue
    else Remaining(Controls(s, g, isClient), g.windows, s.queue, g.window, size - ShortStart(s, g))
  }

  predicate Carries(taken: seq<Frame>, f: Option<Frame>) { f.Some? && f.value in taken }

  function Unanswered(pathResponse: Option<Bytes>, taken: seq<Frame>): Option<Bytes> {
    if pathResponse.Some? && PathResponse(pathResponse.value) in taken then None else pathResponse
  }

  /** HANDSHAKE_DONE stays due unless it is in a packet that was sealed. */
  function ShortSettled(s: State, g: Given, left: seq<Entry>, taken: seq<Frame>, built: bool): (s': State)
    requires StateOk(s) && |g.ranges| == 3 && Canonical(g.ranges[2]) && InRange(g.ranges[2])
    ensures StateOk(s')
  {
    s.(nextPn := Bumped(s.nextPn, APPLICATION, built),
       encrypted := s.encrypted + (if built then 1 else 0),
       needDone := s.needDone && !(built && HandshakeDone in taken),
       pathResponse := Unanswered(s.pathResponse, taken),
       ackDue := s.ackDue[2 := s.ackDue[2] && !Carries(taken, DueAck(s.ackDue[2], g.ranges[2]))],
       queue := left)
  }

  /** The state the 1-RTT builder leaves. */
  ghost function ShortAfter(s: State, g: Given, isClient: bool, size: nat): (s': State)
    requires StateOk(s) && GivenOk(g)
    ensures StateOk(s')
  {
    ShortSettled(s, g, ShortLeft(s, g, isClient, size), ShortTaken(s, g, isClient, size), ShortGoes(s, g, isClient, size))
  }

  // --------------------------------------------------------------------------------
  // The packets of one datagram
  // --------------------------------------------------------------------------------

  function KeyOf(level: nat): Lifecycle.Level {
    if level == INITIAL then Lifecycle.Initial else if level == HANDSHAKE then Lifecycle.Handshake else Lifecycle.Application
  }

  ghost predicate Goes(s: State, g: Given, isClient: bool, level: nat, size: nat)
    requires StateOk(s) && GivenOk(g) && level < 3
  {
    if IsLong(level) then LongGoes(s, g, isClient, level, size) else ShortGoes(s, g, isClient, size)
  }

  ghost function After(s: State, g: Given, isClient: bool, level: nat, size: nat): (s': State)
    requires StateOk(s) && GivenOk(g) && level < 3
    ensures StateOk(s')
  {
    if IsLong(level) then LongAfter(s, g, isClient, level, size) else ShortAfter(s, g, isClient, size)
  }

  ghost function Payload(s: State, g: Given, isClient: bool, level: nat, size: nat): Bytes
    requires StateOk(s) && GivenOk(g) && level < 3
  {
    if IsLong(level) then LongPayload(s, g, level, size) else ShortPayload(s, g, isClient, size)
  }

  ghost function Filler(s: State, g: Given, isClient: bool, level: nat, size: nat): nat
    requires StateOk(s) && GivenOk(g) && level < 3
  {
    if IsLong(level) then LongPadding(s, g, isClient, level, size)
    else ShortPadding(PnLen(s, g, level), |ShortPayload(s, g, isClient, size)|)
  }

  /** The header of a packet with `n` bytes of frames and padding. */
  function HeaderAt(g: Given, level: nat, pnLen: nat, n: nat): (h: Bytes)
    requires CidsFit(g.dcid, g.scid) && g.phase <= 1 && level < 3 && 1 <= pnLen <= 4
    requires IsLong(level) ==> pnLen + n + TAG <= MAX_VARINT
    ensures h != [] && PnLenOf(h[0]) == pnLen
  {
    if IsLong(level) then LongHeader(level == INITIAL, g.dcid, g.scid, pnLen, pnLen + n + TAG)
    else ShortHeader(g.dcid, g.phase, pnLen)
  }

  /** `b` is `frames` and `padding`, sealed with the keys of `level` under its next number. */
  ghost predicate PacketAt(s: State, g: Given, level: nat, frames: Bytes, padding: nat, b: Built)
    requires StateOk(s) && GivenOk(g) && level < 3
  {
    && b.level == level && b.pn == s.nextPn[level]
    && (IsLong(level) ==> PnLen(s, g, level) + |frames| + padding + TAG <= MAX_VARINT)
    && SealedAs(g.suites[level], b, IsLong(level), HeaderAt(g, level, PnLen(s, g, level), |frames| + padding), PnLen(s, g, level),
                frames, padding)
  }

  /** `b` is the packet that the builder of `level` makes in a slice of `size` bytes. */
  ghost predicate IsPacket(s: State, g: Given, isClient: bool, level: nat, size: nat, b: Built)
    requires StateOk(s) && GivenOk(g) && level < 3
  {
    && |b.bytes| <= size
    && PacketAt(s, g, level, Payload(s, g, isClient, level, size), Filler(s, g, isClient, level, size), b)
  }

  /** What the builder of `level` puts into a slice of `size` bytes, and the state it leaves. */
  ghost predicate Builds(s: State, g: Given, isClient: bool, level: nat, size: nat, b: seq<Built>, s': State)
    requires StateOk(s) && GivenOk(g) && level < 3
  {
    && s' == After(s, g, isClient, level, size)
    && if Goes(s, g, isClient, level, size) then |b| == 1 && IsPacket(s, g, isClient, level, size, b[0]) else b == []
  }

  /**
   The builders from `level` on, for the levels there are keys for, each in what the ones before
   left of `size` bytes.
   */
  ghost predicate Coalesced(s: State, g: Given, isClient: bool, level: nat, size: nat, built: seq<Built>, s': State)
    requires StateOk(s) && GivenOk(g) && level <= 3
    decreases 3 - level
  {
    if level == 3 then built == [] && s' == s
    else if KeyOf(level) !in g.keys then Coalesced(s, g, isClient, level + 1, size, built, s')
    else if !Goes(s, g, isClient, level, size) then
      Coalesced(After(s, g, isClient, level, size), g, isClient, level + 1, size, built, s')
    else
      && built != [] && IsPacket(s, g, isClient, level, size, built[0])
      && Coalesced(After(s, g, isClient, level, size), g, isClient, level + 1, size - |built[0].bytes|, built[1..], s')
  }

  // --------------------------------------------------------------------------------
  // The close packet
  // --------------------------------------------------------------------------------

  function LevelOf(k: Lifecycle.Level): (level: nat)
    ensures level < 3 && KeyOf(level) == k
  {
    match k
    case Initial => INITIAL
    case Handshake => HANDSHAKE
    case Application => APPLICATION
  }

  function ClosePadding(g: Given, level: nat, pnLen: nat, frameLen: nat, isClient: bool): nat {
    if level == INITIAL then PaddingOf(LongBase(g, level), pnLen, frameLen, isClient) else ShortPadding(pnLen, frameLen)
  }

  /** The state once a close packet of `level` was sealed. */
  function Spent(s: State, level: nat): State
    requires StateOk(s) && level < 3
  {
    s.(nextPn := Bumped(s.nextPn, level, true), encrypted := s.encrypted + if level == APPLICATION then 1 else 0)
  }

  /** A packet around `frames` alone at the level of `k`, if it fits into `size` bytes. */
  ghost predicate ClosesAt(s: State, g: Given, isClient: bool, k: Lifecycle.Level, size: nat, frames: Bytes, built: seq<Built>,
                           s': State)
    requires StateOk(s) && GivenOk(g) && Lifecycle.CloseLevel(g.keys) == Some(k)
  {
    var total := Lifecycle.ClosePacket(k, EnvOf(s, g, size, 0), |frames|, isClient);
    if total > size then built == [] && s' == s
    else
      && |built| == 1 && |built[0].bytes| == total && s' == Spent(s, LevelOf(k))
      && PacketAt(s, g, LevelOf(k), frames, ClosePadding(g, LevelOf(k), PnLen(s, g, LevelOf(k)), |frames|, isClient), built[0])
  }

  /** One packet with the CONNECTION_CLOSE frame, at the highest level there are keys for. */
  ghost predicate Closes(s: State, g: Given, isClient: bool, size: nat, code: U64, reason: Bytes, built: seq<Built>, s': State)
    requires StateOk(s) && GivenOk(g) && |reason| <= 64
  {
    var k := Lifecycle.CloseLevel(g.keys);
    if k.None? || code > MAX_VARINT then built == [] && s' == s
    else
      Lifecycle.CloseFrameSize(code, reason);
      ClosesAt(s, g, isClient, k.value, size, FrameBytes(Lifecycle.CloseFrame(code, reason)), built, s')
  }

  // --------------------------------------------------------------------------------
  // The whole call
  // --------------------------------------------------------------------------------

  function Rewound(s: State, rewound: bool): State { if rewound then s.(offset := [0, 0, 0]) else s }

  /** Nothing is built: closed, out of allowance, or unable to renew exhausted keys. */
  predicate Barred(l: Lifecycle.Life, g: Given) {
    l.state.ConnClosed? || !Lifecycle.AmplificationAllows(l, 1) || g.updateFails
  }

  /** `poll_transmit`: the packets built and the state left. */
  ghost predicate Polls(l: Lifecycle.Life, s: State, rewind: bool, g: Given, size: nat, built: seq<Built>, s': State)
    requires StateOk(s) && GivenOk(g) && (l.close.Some? ==> |l.close.value.1| <= 64)
  {
    var s1 := Rewound(s, rewind && g.slotHeld);
    if Barred(l, g) then built == [] && s' == s
    else if l.close.Some? then Closes(s1, g, l.isClient, size, l.close.value.0, l.close.value.1, built, s')
    else Coalesced(s1, g, l.isClient, INITIAL, size, built, s')
  }

  /** The list of packets that goes with a builder's answer. */
  predicate Made(r: Option<nat>, built: seq<Built>, now: Bytes, level: nat, pn: U64) {
    if r.Some? then r.value <= |now| && built == [Built(level, pn, now[..r.value])] else built == []
  }

  lemma ShowPacket(s: State, level: nat, now: Bytes, total: nat, frames: Bytes, padding: nat, g: Given)
    requires StateOk(s) && GivenOk(g) && level < 3
    requires IsLong(level) ==> PnLen(s, g, level) + |frames| + padding + TAG <= MAX_VARINT
    requires Packet(g.suites[level], now, total, HeaderAt(g, level, PnLen(s, g, level), |frames| + padding), PnLen(s, g, level),
                    s.nextPn[level], frames, padding, IsLong(level))
    ensures total <= |now| && PacketAt(s, g, level, frames, padding, Built(level, s.nextPn[level], now[..total]))
  {
    hide Protect, HeaderAt, PnLength, Sound;
    assert now[..total][..total] == now[..total];
  }

  /** What was taken from the TLS stream is what the value-level builder takes. */
  lemma ShowTook(s: State, g: Given, level: nat, size: nat, pending: seq<Bytes>, offset: seq<nat>)
    requires StateOk(s) && GivenOk(g) && level < 2
    requires var room := size - Reserve(s, g, level);
             Took(s.pending, s.offset, pending, offset, level, g.flights[level], Asks(s, g, level, size),
                  room - |AckPart(s.ackDue[level], g.ranges[level], room)|)
    ensures pending == LongStreams(s, g, level, size)
    ensures offset == s.offset[level := LongOffset(s, g, level, size)]
  {
    hide Asked, AckPart, PnLength, Sound, Canonical, InRange;
    assert s.offset == s.offset[level := s.offset[level]];
  }

  lemma OnlyForward(pending: seq<Bytes>, offset: seq<nat>, pending': seq<Bytes>, offset': seq<nat>, level: nat)
    requires |pending| == |offset| == |pending'| == |offset'| == 3 && level < 3
    requires OnlyLevel(pending, offset, pending', offset', level)
    ensures offset[level] <= offset'[level]
  {
  }

  lemma ShowPayload(s: State, g: Given, isClient: bool, level: nat, size: nat, pending: seq<Bytes>, offset: seq<nat>, frames: Bytes)
    requires StateOk(s) && GivenOk(g) && level < 2 && |pending| == |offset| == 3
    requires s.offset[level] <= offset[level] <= |pending[level]| <= CryptoStream.RETAINED
    requires var room := size - Reserve(s, g, level);
             && Took(s.pending, s.offset, pending, offset, level, g.flights[level], Asks(s, g, level, size),
                     room - |AckPart(s.ackDue[level], g.ranges[level], room)|)
             && frames == if room >= 32 then AckPart(s.ackDue[level], g.ranges[level], room)
                                             + CryptoPart(pending[level], s.offset[level], offset[level]) else []
    ensures pending == LongStreams(s, g, level, size)
    ensures offset == s.offset[level := LongOffset(s, g, level, size)]
    ensures frames == LongPayload(s, g, level, size)
    ensures LongPadding(s, g, isClient, level, size) ==
            if level == INITIAL then PaddingOf(LongBase(g, level), PnLen(s, g, level), |frames|, isClient || offset[level] > s.offset[level])
            else 0
  {
    hide Took, AckPart, CryptoPart, LongStreams, LongOffset, PnLength, PaddingOf, GivenOk, Sound, Canonical, InRange, AllTyped,
         AllFaithful;
    GivenAt(g, level);
    ShowTook(s, g, level, size, pending, offset);
  }

  /** What a long builder has done once its packet, if any, is sealed in `now` and before its flags are settled. */
  ghost predicate Formed(s: State, s': State, g: Given, isClient: bool, level: nat, size: nat, padding: nat, r: Option<nat>,
                         acked: bool, now: Bytes)
    requires StateOk(s) && GivenOk(g) && level < 2
  {
    var frames := LongPayload(s, g, level, size);
    && (frames != [] ==> padding == LongPadding(s, g, isClient, level, size))
    && (r.Some? <==> frames != [] && PacketSize(LongBase(g, level), PnLen(s, g, level), |frames| + padding) <= size)
    && (acked <==> AckGoes(s.ackDue[level], g.ranges[level], size, Reserve(s, g, level)))
    && s' == s.(pending := LongStreams(s, g, level, size), offset := s.offset[level := LongOffset(s, g, level, size)])
    && |now| <= size
    && (r.Some? ==>
          && PnLen(s, g, level) + |frames| + padding + TAG <= MAX_VARINT
          && Packet(g.suites[level], now, r.value, HeaderAt(g, level, PnLen(s, g, level), |frames| + padding), PnLen(s, g, level),
                    s.nextPn[level], frames, padding, true))
  }

  /** The same for the 1-RTT builder, with the entries left and the control frames taken. */
  ghost predicate ShortFormed(s: State, g: Given, isClient: bool, size: nat, r: Option<nat>, left: seq<Entry>, taken: seq<Frame>,
                              now: Bytes)
    requires StateOk(s) && GivenOk(g)
  {
    var pnLen, frames := PnLen(s, g, APPLICATION), ShortPayload(s, g, isClient, size);
    && left == ShortLeft(s, g, isClient, size) && taken == ShortTaken(s, g, isClient, size)
    && (r.Some? <==> ShortGoes(s, g, isClient, size))
    && (r.Some? ==> Packet(g.suites[APPLICATION], now, r.value, ShortHeader(g.dcid, g.phase, pnLen), pnLen, s.nextPn[APPLICATION],
                           frames, ShortPadding(pnLen, |frames|), false))
  }

  /** Settling the flags makes it the builder's work. */
  lemma ShowBuilds(s: State, s': State, g: Given, isClient: bool, level: nat, size: nat, padding: nat, r: Option<nat>, acked: bool,
                   now: Bytes) returns (built: seq<Built>)
    requires StateOk(s) && GivenOk(g) && level < 2
    requires Formed(s, s'.(nextPn := s.nextPn, ackDue := s.ackDue), g, isClient, level, size, padding, r, acked, now)
    requires s'.nextPn == Bumped(s.nextPn, level, r.Some?) && s'.ackDue == s.ackDue[level := s.ackDue[level] && !acked]
    ensures Builds(s, g, isClient, level, size, built, s') && Made(r, built, now, level, s.nextPn[level])
  {
    hide Sound, AckPart, Canonical, InRange, PnLength, AckGoes, PacketSize, LongStreams, LongOffset, PacketAt, LongPayload,
         LongPadding, GivenOk, Packet, HeaderAt, AllTyped, AllFaithful;
    GivenAt(g, level);
    built := [];
    if r.Some? {
      ShowPacket(s, level, now, r.value, LongPayload(s, g, level, size), padding, g);
      built := [Built(level, s.nextPn[level], now[..r.value])];
    }
  }

  lemma CloseTotal(s: State, g: Given, isClient: bool, k: Lifecycle.Level, size: nat, f: nat)
    requires StateOk(s) && |g.known| == 3 && CidsFit(g.dcid, g.scid) && Lifecycle.CloseLevel(g.keys) == Some(k)
    ensures var level := LevelOf(k);
            var pnLen := PnLen(s, g, level);
            var padding := ClosePadding(g, level, pnLen, f, isClient);
            && padding == (if level == INITIAL then PaddingOf(LongBase(g, level), pnLen, f, isClient) else ShortPadding(pnLen, f))
            && Lifecycle.ClosePacket(k, EnvOf(s, g, size, 0), f, isClient)
               == if IsLong(level) then PacketSize(LongBase(g, level), pnLen, f + padding)
                  else 1 + |g.dcid| + pnLen + f + padding + TAG
  {
    hide PnLength, VarintLen, PaddingOf, ShortPadding;
  }

  class Outbox {
    const crypto: CryptoStream.CryptoSender
    const life: Lifecycle.Connection
    var nextPn: seq<U64>
    var ackDue: seq<bool>
    var needDone: bool
    var pathResponse: Option<Bytes>
    var encrypted: nat
    var queue: seq<Entry>
    var rewindPending: bool

    ghost function Value(): State
      reads this, crypto
    {
      State(nextPn, ackDue, needDone, pathResponse, encrypted, queue, crypto.pending, crypto.offset)
    }

    ghost predicate Valid()
      reads this, crypto, life
    {
      StateOk(Value()) && (life.close.Some? ==> |life.close.value.1| <= 64)
    }

    constructor (crypto: CryptoStream.CryptoSender, life: Lifecycle.Connection)
      requires crypto.Valid() && life.close.None?
      ensures Valid() && nextPn == [0, 0, 0] && this.crypto == crypto && this.life == life
    {
      this.crypto, this.life := crypto, life;
      nextPn, ackDue, needDone, pathResponse := [0, 0, 0], [false, false, false], false, None;
      encrypted, queue, rewindPending := 0, [], false;
    }

    /** A packet of `level` went out under its next number. */
    method CountPacket(level: nat)
      requires |nextPn| == 3 && level < 3
      modifies this`nextPn
      ensures nextPn == Bumped(old(nextPn), level, true)
    {
      nextPn := nextPn[level := (nextPn[level] + 1) % U64_SIZE];
    }

    method SettleLong(level: nat, acked: bool, sealed: bool)
      requires |nextPn| == |ackDue| == 3 && level < 2
      modifies this`nextPn, this`ackDue
      ensures nextPn == Bumped(old(nextPn), level, sealed)
      ensures ackDue == old(ackDue)[level := old(ackDue)[level] && !acked]
    {
      if acked {
        ackDue := ackDue[level := false];
      }
      if sealed {
        CountPacket(level);
      }
    }

    /** In a buffer of its own: the packet of `Builds` at the Initial level. */
    method BuildInitialPacket(buf: array<Byte>, g: Given) returns (r: Option<nat>, ghost built: seq<Built>)
      requires Valid() && GivenOk(g) && buf.Length <= MAX_VARINT - MIN_INITIAL
      modifies buf, this`nextPn, this`ackDue, crypto
      ensures Valid() && Builds(old(Value()), g, life.isClient, INITIAL, buf.Length, built, Value())
      ensures Made(r, built, buf[..], INITIAL, old(nextPn)[INITIAL])
    {
      hide GivenOk, Formed, Builds, Sound, Canonical, InRange, AllTyped, AllFaithful;
      ghost var was := Value();
      GivenAt(g, INITIAL);
      var acked;
      ghost var padding;
      r, acked, padding := FormInitial(buf, g);
      ghost var now := buf[..];
      SettleLong(INITIAL, acked, r.Some?);
      built := ShowBuilds(was, Value(), g, life.isClient, INITIAL, buf.Length, padding, r, acked, now);
    }

    method FormInitial(buf: array<Byte>, g: Given) returns (r: Option<nat>, acked: bool, ghost padding: nat)
      requires Valid() && GivenOk(g) && buf.Length <= MAX_VARINT - MIN_INITIAL
      modifies buf, crypto
      ensures Valid() && Formed(old(Value()), Value(), g, life.isClient, INITIAL, buf.Length, padding, r, acked, buf[..])
    {
      hide GivenOk, Sound, Packet, AckPart, CryptoPart, LongHeader, Canonical, InRange, PnLength, AckGoes, PacketSize, PaddingOf,
           OnlyLevel, Took, LongStreams, LongOffset, LongPayload, LongPadding, AllTyped, AllFaithful;
      ghost var was := Value();
      GivenAt(g, INITIAL);
      ghost var frames;
      r, acked, frames, padding :=
        FormInitialPacket(buf, g.dcid, g.scid, nextPn[INITIAL], g.known[INITIAL], ackDue[INITIAL], g.ranges[INITIAL], crypto,
                          g.slotHeld, g.flights[INITIAL], life.isClient, g.suites[INITIAL]);
      OnlyForward(was.pending, was.offset, crypto.pending, crypto.offset, INITIAL);
      ShowPayload(was, g, life.isClient, INITIAL, buf.Length, crypto.pending, crypto.offset, frames);
    }

    /** The same at the Handshake level. */
    method BuildHandshakePacket(buf: array<Byte>, g: Given) returns (r: Option<nat>, ghost built: seq<Built>)
      requires Valid() && GivenOk(g) && buf.Length <= MAX_VARINT - MIN_INITIAL
      modifies buf, this`nextPn, this`ackDue, crypto
      ensures Valid() && Builds(old(Value()), g, life.isClient, HANDSHAKE, buf.Length, built, Value())
      ensures Made(r, built, buf[..], HANDSHAKE, old(nextPn)[HANDSHAKE])
    {
      hide GivenOk, Formed, Builds, Sound, Canonical, InRange, AllTyped, AllFaithful;
      ghost var was := Value();
      GivenAt(g, HANDSHAKE);
      var acked;
      ghost var padding;
      r, acked, padding := FormHandshake(buf, g);
      ghost var now := buf[..];
      SettleLong(HANDSHAKE, acked, r.Some?);
      built := ShowBuilds(was, Value(), g, life.isClient, HANDSHAKE, buf.Length, padding, r, acked, now);
    }

    method FormHandshake(buf: array<Byte>, g: Given) returns (r: Option<nat>, acked: bool, ghost padding: nat)
      requires Valid() && GivenOk(g) && buf.Length <= MAX_VARINT - MIN_INITIAL
      modifies buf, crypto
      ensures Valid() && Formed(old(Value()), Value(), g, life.isClient, HANDSHAKE, buf.Length, padding, r, acked, buf[..])
    {
      hide GivenOk, Sound, Packet, AckPart, CryptoPart, LongHeader, Canonical, InRange, PnLength, AckGoes, PacketSize, PaddingOf,
           OnlyLevel, Took, LongStreams, LongOffset, LongPayload, LongPadding, AllTyped, AllFaithful;
      ghost var was := Value();
      GivenAt(g, HANDSHAKE);
      ghost var frames;
      r, acked, frames :=
        FormHandshakePacket(buf, g.dcid, g.scid, nextPn[HANDSHAKE], g.known[HANDSHAKE], ackDue[HANDSHAKE], g.ranges[HANDSHAKE],
                            crypto, g.slotHeld, g.flights[HANDSHAKE], g.suites[HANDSHAKE]);
      padding := 0;
      OnlyForward(was.pending, was.offset, crypto.pending, crypto.offset, HANDSHAKE);
      ShowPayload(was, g, life.isClient, HANDSHAKE, buf.Length, crypto.pending, crypto.offset, frames);
    }

    /** The same for 1-RTT packets. */
    method BuildShortPacket(buf: array<Byte>, g: Given) returns (r: Option<nat>, ghost built: seq<Built>)
      requires Valid() && GivenOk(g)
      modifies buf, this`nextPn, this`ackDue, this`needDone, this`pathResponse, this`encrypted, this`queue
      ensures Valid() && Builds(old(Value()), g, life.isClient, APPLICATION, buf.Length, built, Value())
      ensures Made(r, built, buf[..], APPLICATION, old(nextPn)[APPLICATION])
    {
      hide GivenOk, Sound, Packet, PnLength, ShortTaken, ShortLeft, ShortGoes, ShortSettled, ShortPayload, ShortHeader, ShortPadding,
           Canonical, InRange, PacketAt, AllTyped, AllFaithful;
      ghost var was := Value();
      GivenAt(g, APPLICATION);
      var pn := nextPn[APPLICATION];
      var left, taken;
      r, left, taken := FormShort(buf, g);
      ghost var now := buf[..];
      SettleShort(g, left, taken, r.Some?);
      built := [];
      if r.Some? {
        ghost var frames := ShortPayload(was, g, life.isClient, buf.Length);
        ShowPacket(was, APPLICATION, now, r.value, frames, ShortPadding(PnLen(was, g, APPLICATION), |frames|), g);
        built := [Built(APPLICATION, pn, now[..r.value])];
      }
    }

    method FormShort(buf: array<Byte>, g: Given) returns (r: Option<nat>, left: seq<Entry>, taken: seq<Frame>)
      requires Valid() && GivenOk(g)
      modifies buf
      ensures ShortFormed(Value(), g, life.isClient, buf.Length, r, left, taken, buf[..])
    {
      hide GivenOk, Sound, Packet, Canonical, InRange, PnLength, Taken, ShortFrames, Remaining, ShortHeader, ControlFrames, DueAck,
           AllTyped, AllFaithful, ShortPadding, ShortFormed;
      GivenAt(g, APPLICATION);
      ControlsTyped(Value(), g, life.isClient);
      var fixed := ControlFrames(!life.isClient && needDone, pathResponse, DueAck(ackDue[2], g.ranges[2]), g.maxData);
      r, left, taken := FormShortPacket(buf, g.dcid, nextPn[APPLICATION], g.known[APPLICATION], g.phase, fixed, g.windows, queue,
                                        g.window, g.suites[APPLICATION]);
      ShowShort(Value(), g, life.isClient, buf.Length, fixed, r, left, taken, buf[..]);
    }

    method SettleShort(g: Given, left: seq<Entry>, taken: seq<Frame>, sealed: bool)
      requires Valid() && |g.ranges| == 3 && Canonical(g.ranges[2]) && InRange(g.ranges[2])
      modifies this`nextPn, this`ackDue, this`needDone, this`pathResponse, this`encrypted, this`queue
      ensures Valid() && Value() == ShortSettled(old(Value()), g, left, taken, sealed)
    {
      hide Canonical, InRange, DueAck;
      queue := left;
      if Carries(taken, DueAck(ackDue[2], g.ranges[2])) {
        ackDue := ackDue[2 := false];
      }
      pathResponse := Unanswered(pathResponse, taken);
      if sealed {
        if HandshakeDone in taken {
          needDone := false;
        }
        CountPacket(APPLICATION);
        encrypted := encrypted + 1;
      }
    }

    /** An Initial packet around `frames`, for CONNECTION_CLOSE; only a client's is padded. */
    method BuildCloseInitial(frames: Bytes, buf: array<Byte>, g: Given) returns (r: Result<nat>, ghost built: seq<Built>)
      requires Valid() && GivenOk(g) && |frames| <= 128
      modifies buf, this`nextPn
      ensures Valid() && Value() == old(Value()).(nextPn := Bumped(old(nextPn), INITIAL, r.Ok?))
      ensures var pnLen := PnLen(old(Value()), g, INITIAL);
              var padding := PaddingOf(LongBase(g, INITIAL), pnLen, |frames|, life.isClient);
              var total := PacketSize(LongBase(g, INITIAL), pnLen, |frames| + padding);
              && (r.Ok? <==> total <= buf.Length && 4 <= pnLen + |frames| + padding)
              && (r.Ok? ==> r.value == total && built != [] && PacketAt(old(Value()), g, INITIAL, frames, padding, built[0]))
      ensures Made(Got(r), built, buf[..], INITIAL, old(nextPn)[INITIAL])
    {
      hide GivenOk, Sound, Packet, LongHeader, PnLength, PacketSize, PaddingOf, PacketAt, Canonical, InRange, AllTyped, AllFaithful;
      ghost var was := Value();
      GivenAt(g, INITIAL);
      var pn := nextPn[INITIAL];
      var pnLen := PnLength(pn, g.known[INITIAL]);
      r := SealInitialBeside(buf, g.dcid, g.scid, pn, pnLen, frames, life.isClient, g.suites[INITIAL]);
      built := [];
      if r.Ok? {
        ghost var padding := PaddingOf(LongBase(g, INITIAL), pnLen, |frames|, life.isClient);
        ShowPacket(was, INITIAL, buf[..], r.value, frames, padding, g);
        built := [Built(INITIAL, pn, buf[..r.value])];
        CountPacket(INITIAL);
      }
    }

    /** A Handshake or 1-RTT packet around `frames`, for CONNECTION_CLOSE. */
    method BuildClose(level: nat, frames: Bytes, buf: array<Byte>, g: Given) returns (r: Result<nat>, ghost built: seq<Built>)
      requires Valid() && GivenOk(g) && 1 <= level <= 2 && |frames| <= 128
      modifies buf, this`nextPn, this`encrypted
      ensures Valid() && Value() == if r.Ok? then Spent(old(Value()), level) else old(Value())
      ensures var pnLen := PnLen(old(Value()), g, level);
              var padding := ShortPadding(pnLen, |frames|);
              var total := if level == HANDSHAKE then PacketSize(LongBase(g, level), pnLen, |frames| + padding)
                           else 1 + |g.dcid| + pnLen + |frames| + padding + TAG;
              && (r.Ok? <==> total <= buf.Length)
              && (r.Ok? ==> r.value == total && built != [] && PacketAt(old(Value()), g, level, frames, padding, built[0]))
      ensures Made(Got(r), built, buf[..], level, old(nextPn)[level])
    {
      hide GivenOk, Sound, Packet, LongHeader, ShortHeader, PnLength, VarintLen, PacketAt, Canonical, InRange, AllTyped, AllFaithful;
      ghost var was := Value();
      GivenAt(g, level);
      var pn := nextPn[level];
      var pnLen := PnLength(pn, g.known[level]);
      var padding := ShortPadding(pnLen, |frames|);
      var header := HeaderAt(g, level, pnLen, |frames| + padding);
      r := SealBeside(buf, header, pn, pnLen, frames, padding, level == HANDSHAKE, g.suites[level]);
      built := [];
      if r.Ok? {
        ShowPacket(was, level, buf[..], r.value, frames, padding, g);
        built := [Built(level, pn, buf[..r.value])];
        CountPacket(level);
        if level == APPLICATION {
          encrypted := encrypted + 1;
        }
      }
    }

    /** Build a Handshake packet in the slice behind the first `total` bytes. */
    method AddHandshake(buf: array<Byte>, total: nat, g: Given) returns (end: nat, ghost built: seq<Built>)
      requires Valid() && GivenOk(g) && total <= buf.Length <= MAX_VARINT - MIN_INITIAL
      modifies buf, this`nextPn, this`ackDue, crypto
      ensures Valid() && Added(old(buf[..]), buf[..], total, end, built)
      ensures Builds(old(Value()), g, life.isClient, HANDSHAKE, buf.Length - total, built, Value())
    {
      hide GivenOk, Builds, Sound, Canonical, InRange, AllTyped, AllFaithful;
      var rest := new Byte[buf.Length - total];
      CopyInto(rest, 0, buf[total..]);
      var r;
      r, built := BuildHandshakePacket(rest, g);
      ghost var was := buf[..];
      CopyInto(buf, total, rest[..]);
      end := if r.Some? then total + r.value else total;
      ShowAdded(was, buf[..], rest[..], total, r, built, HANDSHAKE, old(nextPn)[HANDSHAKE]);
    }

    /** Build a 1-RTT packet in the slice behind the first `total` bytes. */
    method AddShort(buf: array<Byte>, total: nat, g: Given) returns (end: nat, ghost built: seq<Built>)
      requires Valid() && GivenOk(g) && total <= buf.Length
      modifies buf, this`nextPn, this`ackDue, this`needDone, this`pathResponse, this`encrypted, this`queue
      ensures Valid() && Added(old(buf[..]), buf[..], total, end, built)
      ensures Builds(old(Value()), g, life.isClient, APPLICATION, buf.Length - total, built, Value())
    {
      hide GivenOk, Builds, Sound, Canonical, InRange, AllTyped, AllFaithful;
      var rest := new Byte[buf.Length - total];
      CopyInto(rest, 0, buf[total..]);
      var r;
      r, built := BuildShortPacket(rest, g);
      ghost var was := buf[..];
      CopyInto(buf, total, rest[..]);
      end := if r.Some? then total + r.value else total;
      ShowAdded(was, buf[..], rest[..], total, r, built, APPLICATION, old(nextPn)[APPLICATION]);
    }

    /** The one close packet, at the highest level there are keys for; the connection is closed whether or not it was built. */
    method PollClose(buf: array<Byte>, g: Given) returns (n: nat, ghost built: seq<Built>)
      requires Valid() && GivenOk(g) && life.close.Some?
      modifies buf, this`nextPn, this`encrypted, life
      ensures Valid() && life.close == old(life.close)
      ensures Closes(old(Value()), g, life.isClient, buf.Length, life.close.value.0, life.close.value.1, built, Value())
      ensures n <= buf.Length && buf[..n] == Joined(built)
      ensures var level := Lifecycle.CloseLevel(g.keys);
              if level.None? then n == 0 && life.Value() == old(life.Value())
              else
                && life.Value() == old(life.Value()).(state := ConnClosed)
                && n == Lifecycle.CloseBytes(level.value, EnvOf(old(Value()), g, buf.Length, 0), life.close.value.0,
                                             life.close.value.1, life.isClient)
    {
      hide GivenOk, Encodable, FrameBytes, Lifecycle.ClosePacket, ClosesAt, Sound, Canonical, InRange, AllTyped, AllFaithful;
      n, built := 0, [];
      var level := Lifecycle.CloseLevel(g.keys);
      if level.None? {
        return;
      }
      var (code, reason) := life.close.value;
      Lifecycle.CloseEncodable(code, reason);
      if code <= MAX_VARINT {
        Lifecycle.CloseFrameSize(code, reason);
      }
      var frameBuf := new Byte[128];
      var e := Encode(Lifecycle.CloseFrame(code, reason), frameBuf, 0, 128);
      if e.Ok? {
        assert frameBuf[..e.value] == FrameBytes(Lifecycle.CloseFrame(code, reason));
        n, built := BuildCloseAt(level.value, frameBuf[..e.value], buf, g);
      }
      life.state := ConnClosed;
    }

    method BuildCloseAt(k: Lifecycle.Level, frames: Bytes, buf: array<Byte>, g: Given) returns (n: nat, ghost built: seq<Built>)
      requires Valid() && GivenOk(g) && Lifecycle.CloseLevel(g.keys) == Some(k) && 4 <= |frames| <= 128
      modifies buf, this`nextPn, this`encrypted
      ensures Valid() && ClosesAt(old(Value()), g, life.isClient, k, buf.Length, frames, built, Value())
      ensures n <= buf.Length && buf[..n] == Joined(built)
      ensures var total := Lifecycle.ClosePacket(k, EnvOf(old(Value()), g, buf.Length, 0), |frames|, life.isClient);
              n == if total > buf.Length then 0 else total
    {
      hide GivenOk, PnLength, PaddingOf, PacketSize, PacketAt, EnvOf, Lifecycle.ClosePacket, ClosePadding, Sound, Canonical, InRange,
           AllTyped, AllFaithful;
      GivenAt(g, 0);
      CloseTotal(Value(), g, life.isClient, k, buf.Length, |frames|);
      n := 0;
      var r;
      if k.Initial? {
        r, built := BuildCloseInitial(frames, buf, g);
      } else {
        r, built := BuildClose(LevelOf(k), frames, buf, g);
      }
      if r.Ok? {
        n := r.value;
        assert built[1..] == [];
      }
    }

    /** The packets of one datagram, in the order of their levels, for the levels there are keys for. */
    method BuildAll(buf: array<Byte>, g: Given) returns (total: nat, ghost built: seq<Built>)
      requires Valid() && GivenOk(g) && buf.Length <= MAX_VARINT - MIN_INITIAL
      modifies buf, this`nextPn, this`ackDue, this`needDone, this`pathResponse, this`encrypted, this`queue, crypto
      ensures Valid() && total <= buf.Length && buf[..total] == Joined(built)
      ensures Coalesced(old(Value()), g, life.isClient, INITIAL, buf.Length, built, Value())
    {
      hide GivenOk, Builds, Coalesced, Joined, Sound, Canonical, InRange, AllTyped, AllFaithful;
      ghost var s0 := Value();
      ghost var b0: seq<Built>, b1: seq<Built>, b2: seq<Built> := [], [], [];
      total := 0;
      NoneJoined();
      if Lifecycle.Initial in g.keys {
        var r;
        r, b0 := BuildInitialPacket(buf, g);
        total := if r.Some? then r.value else 0;
        OneJoined(r, b0, buf[..], INITIAL, old(nextPn)[INITIAL]);
      }
      ghost var s1, was1, end1 := Value(), buf[..], total;
      if Lifecycle.Handshake in g.keys {
        total, b1 := AddHandshake(buf, total, g);
      }
      ghost var s2, was2, end2 := Value(), buf[..], total;
      if Lifecycle.Application in g.keys {
        total, b2 := AddShort(buf, total, g);
      }
      built := b0 + b1 + b2;
      JoinedThree(was1, was2, buf[..], end1, end2, total, b0, b1, b2);
      ThreeSteps(s0, s1, s2, Value(), g, life.isClient, buf.Length, b0, b1, b2);
    }

    /**
     Build the next datagram. `built` are the packets sealed for it, each under the next number
     of its space; what was taken for them is spent whether or not the datagram leaves. It
     leaves, and is exactly those packets, when the anti-amplification check on its final
     length passes; the close datagram is not held to that check.
     */
    method PollTransmit(buf: array<Byte>, g: Given) returns (n: nat, ghost built: seq<Built>)
      requires Valid() && GivenOk(g) && buf.Length <= MAX_VARINT - MIN_INITIAL
      modifies buf, this, crypto, life
      ensures Valid() && Polls(old(life.Value()), old(Value()), old(rewindPending), g, buf.Length, built, Value())
      ensures rewindPending == (old(rewindPending) && Barred(old(life.Value()), g))
      ensures Numbered(old(nextPn), built, nextPn) && AllGenuine(built, g)
      ensures n > 0 ==> n <= buf.Length && buf[..n] == Joined(built)
      ensures (life.Value(), n) == Lifecycle.Polled(old(life.Value()), EnvOf(old(Value()), g, buf.Length, |Joined(built)|))
    {
      hide GivenOk, Coalesced, Closes, Joined, Lifecycle.CloseLevel, Lifecycle.CloseBytes, EnvOf, Numbered, Genuine, AllGenuine,
           Sound, Canonical, InRange, AllTyped, AllFaithful;
      ghost var l, s := life.Value(), Value();
      GivenAt(g, 0);
      EnvFits(Value(), g, buf.Length);
      n, built := 0, [];
      var go := life.MayTransmit(g.updateFails);
      if !go {
        PollNumbered(l, s, old(rewindPending), g, buf.Length, built, Value());
        return;
      }
      Rewind(g.slotHeld);
      ghost var start := Value();
      if life.close.Some? {
        n, built := PollClose(buf, g);
        CloseIgnoresData(EnvOf(start, g, buf.Length, 0), |Joined(built)|, life.close.value.0, life.close.value.1, life.isClient);
      } else {
        n, built := PollData(buf, g);
      }
      PollNumbered(l, s, old(rewindPending), g, buf.Length, built, Value());
    }

    /** Build what there is and put the finished datagram to the anti-amplification check. */
    method PollData(buf: array<Byte>, g: Given) returns (n: nat, ghost built: seq<Built>)
      requires Valid() && GivenOk(g) && buf.Length <= MAX_VARINT - MIN_INITIAL
      modifies buf, this`nextPn, this`ackDue, this`needDone, this`pathResponse, this`encrypted, this`queue, crypto, life
      ensures Valid() && Coalesced(old(Value()), g, life.isClient, INITIAL, buf.Length, built, Value())
      ensures n > 0 ==> n <= buf.Length && buf[..n] == Joined(built)
      ensures var l, data := old(life.Value()), |Joined(built)|;
              var goes := data > 0 && Lifecycle.AmplificationAllows(l, data);
              && n == (if goes then data else 0)
              && life.Value() == if goes && !l.validated then l.(sent := Lifecycle.SatAdd(l.sent, data)) else l
    {
      hide GivenOk, Coalesced, Joined, Sound, Canonical, InRange, AllTyped, AllFaithful;
      n, built := BuildAll(buf, g);
      var go := life.Departs(n);
      if !go {
        n := 0;
      }
    }

    /** A probe timeout asked for everything retained to be sent again. */
    method Rewind(slotHeld: bool)
      requires Valid()
      modifies this`rewindPending, crypto`offset
      ensures Valid() && !rewindPending && Value() == Rewound(old(Value()), old(rewindPending) && slotHeld)
    {
      if rewindPending {
        rewindPending := false;
        if slotHeld {
          crypto.Rewind();
        }
      }
    }
  }

  lemma GivenAt(g: Given, level: nat)
    requires GivenOk(g) && level < 3
    ensures |g.suites| == |g.known| == |g.ranges| == |g.flights| == 3
    ensures Sound(g.suites[level]) && Canonical(g.ranges[level]) && InRange(g.ranges[level])
    ensures g.flights[level].Some? ==> g.flights[level].value.1 < 3
    ensures CidsFit(g.dcid, g.scid) && AllTyped(g.windows) && AllFaithful(g.windows) && g.phase <= 1
  {
  }

  lemma ShowShort(s: State, g: Given, isClient: bool, size: nat, fixed: seq<Frame>, r: Option<nat>, left: seq<Entry>,
                  taken: seq<Frame>, now: Bytes)
    requires StateOk(s) && GivenOk(g) && fixed == Controls(s, g, isClient)
    requires var pnLen := PnLen(s, g, APPLICATION);
             var start := 1 + |g.dcid| + pnLen;
             if size < start + 32 then r.None? && left == s.queue && taken == []
             else
               var room := size - start;
               var frames := ShortFrames(fixed, g.windows, s.queue, g.window, room);
               && left == Remaining(fixed, g.windows, s.queue, g.window, room)
               && taken == Taken(fixed, room, false)
               && (r.Some? <==> frames != [] && start + |frames| + TAG <= size)
               && (r.Some? ==> Packet(g.suites[2], now, r.value, ShortHeader(g.dcid, g.phase, pnLen), pnLen, s.nextPn[2], frames,
                                      ShortPadding(pnLen, |frames|), false))
    ensures ShortFormed(s, g, isClient, size, r, left, taken, now)
  {
    hide PnLength, Taken, ShortFrames, Remaining, ControlFrames, DueAck, Sound, Canonical, InRange, Packet, ShortHeader;
  }

  lemma ControlsTyped(s: State, g: Given, isClient: bool)
    requires StateOk(s) && GivenOk(g)
    ensures AllTyped(Controls(s, g, isClient))
  {
    hide AckFor, Sound, Canonical, InRange;
    GivenAt(g, APPLICATION);
    AckTyped(g.ranges[2]);
  }

  function Got(r: Result<nat>): Option<nat> { if r.Ok? then Some(r.value) else None }

  /** `built` went in behind the first `total` bytes, which stay. */
  predicate Added(was: Bytes, now: Bytes, total: nat, end: nat, built: seq<Built>) {
    && |was| == |now| && total <= end <= |now|
    && now[..total] == was[..total]
    && now[total..end] == Joined(built)
  }

  lemma ShowAdded(was: Bytes, now: Bytes, rest: Bytes, total: nat, r: Option<nat>, built: seq<Built>, level: nat, pn: U64)
    requires total + |rest| == |was| && Spliced(was, now, total, rest) && Made(r, built, rest, level, pn)
    ensures Added(was, now, total, if r.Some? then total + r.value else total, built)
  {
    assert now[total..] == rest;
    if r.Some? {
      assert built[1..] == [];
      assert now[total..total + r.value] == rest[..r.value];
    }
  }

  /** The call as the connection's life sees it: `data` bytes of packets, and the number length at the close level. */
  function EnvOf(s: State, g: Given, size: nat, data: nat): (e: Lifecycle.Env)
    requires StateOk(s) && |g.known| == 3
    ensures CidsFit(g.dcid, g.scid) ==> Lifecycle.EnvOk(e)
  {
    var level := if Lifecycle.Application in g.keys then 2 else if Lifecycle.Handshake in g.keys then 1 else 0;
    Lifecycle.Env(g.updateFails, g.keys, g.dcid, g.scid, PnLen(s, g, level), size, data)
  }

  lemma NoneJoined()
    ensures Joined([]) == []
  {
  }

  lemma OneNumbered(next: seq<U64>, b: seq<Built>, level: nat, next': seq<U64>)
    requires |next| == 3 && level < 3 && next' == Bumped(next, level, b != [])
    requires b == [] || (|b| == 1 && b[0].level == level && b[0].pn == next[level])
    ensures Numbered(next, b, next')
  {
  }

  /** Packets numbered one after the other are numbered together. */
  lemma {:induction false} NumberedConcat(next: seq<U64>, a: seq<Built>, mid: seq<U64>, b: seq<Built>, next': seq<U64>)
    requires |next| == |mid| == 3 && Numbered(next, a, mid) && Numbered(mid, b, next')
    ensures Numbered(next, a + b, next')
    decreases |a|
  {
    hide Bumped;
    if a == [] {
      assert a + b == b;
    } else {
      assert (a + b)[0] == a[0] && (a + b)[1..] == a[1..] + b;
      NumberedConcat(Bumped(next, a[0].level, true), a[1..], mid, b, next');
    }
  }

  /** What happens at a level: its builder's work if there are keys, else nothing. */
  ghost predicate StepAt(s: State, g: Given, isClient: bool, level: nat, size: nat, b: seq<Built>, s': State)
    requires StateOk(s) && GivenOk(g) && level < 3
  {
    if KeyOf(level) in g.keys then Builds(s, g, isClient, level, size, b, s') else b == [] && s' == s
  }

  lemma OneStep(s: State, s1: State, g: Given, isClient: bool, level: nat, size: nat, b: seq<Built>, rest: seq<Built>, s': State)
    requires StateOk(s) && StateOk(s1) && GivenOk(g) && level < 3 && |Joined(b)| <= size
    requires StepAt(s, g, isClient, level, size, b, s1)
    requires Coalesced(s1, g, isClient, level + 1, size - |Joined(b)|, rest, s')
    ensures Coalesced(s, g, isClient, level, size, b + rest, s')
  {
    hide GivenOk, StateOk, Goes, After, IsPacket, Sound, Canonical, InRange, AllTyped, AllFaithful;
    if b == [] {
      assert b + rest == rest;
    } else {
      assert b[1..] == [] && (b + rest)[0] == b[0] && (b + rest)[1..] == rest;
    }
  }

  lemma NoSteps(s: State, g: Given, isClient: bool, size: nat)
    requires StateOk(s) && GivenOk(g)
    ensures Coalesced(s, g, isClient, 3, size, [], s)
  {
    hide GivenOk, StateOk, Sound, Canonical, InRange, AllTyped, AllFaithful;
  }

  lemma ThreeSteps(s0: State, s1: State, s2: State, s3: State, g: Given, isClient: bool, size: nat,
                   b0: seq<Built>, b1: seq<Built>, b2: seq<Built>)
    requires StateOk(s0) && StateOk(s1) && StateOk(s2) && StateOk(s3) && GivenOk(g)
    requires |Joined(b0)| + |Joined(b1)| + |Joined(b2)| <= size
    requires StepAt(s0, g, isClient, INITIAL, size, b0, s1)
    requires StepAt(s1, g, isClient, HANDSHAKE, size - |Joined(b0)|, b1, s2)
    requires StepAt(s2, g, isClient, APPLICATION, size - |Joined(b0)| - |Joined(b1)|, b2, s3)
    ensures Coalesced(s0, g, isClient, INITIAL, size, b0 + b1 + b2, s3)
  {
    hide GivenOk, StateOk, StepAt, Joined, Coalesced, Sound, Canonical, InRange, AllTyped, AllFaithful;
    var left := size - |Joined(b0)| - |Joined(b1)|;
    NoSteps(s3, g, isClient, left - |Joined(b2)|);
    OneStep(s2, s3, g, isClient, APPLICATION, left, b2, [], s3);
    assert b2 + [] == b2;
    OneStep(s1, s2, g, isClient, HANDSHAKE, size - |Joined(b0)|, b1, b2, s3);
    OneStep(s0, s1, g, isClient, INITIAL, size, b0, b1 + b2, s3);
    assert b0 + (b1 + b2) == b0 + b1 + b2;
  }

  // --------------------------------------------------------------------------------
  // The packets of a datagram, level by level
  // --------------------------------------------------------------------------------

  /** The bytes of the packets of lower levels. */
  function Ahead(built: seq<Built>, level: nat): nat
    decreases |built|
  {
    if built == [] then 0 else (if built[0].level < level then |built[0].bytes| else 0) + Ahead(built[1..], level)
  }

  /** The packets from `level` on. */
  predicate From(built: seq<Built>, level: nat) { forall i :: 0 <= i < |built| ==> level <= built[i].level < 3 }

  /** The state the builder of the next level starts in. */
  ghost function Onto(s: State, g: Given, isClient: bool, level: nat, size: nat): (s': State)
    requires StateOk(s) && GivenOk(g) && level < 3
    ensures StateOk(s')
  {
    if KeyOf(level) in g.keys then After(s, g, isClient, level, size) else s
  }

  lemma {:induction false} AheadNone(built: seq<Built>, level: nat)
    requires From(built, level)
    ensures Ahead(built, level) == 0 && forall l :: 0 <= l < level ==> !HasLevel(built, l)
    decreases |built|
  {
    if built != [] {
      assert From(built[1..], level) by {
        assert forall i :: 0 <= i < |built[1..]| ==> built[1..][i] == built[i + 1];
      }
      AheadNone(built[1..], level);
    }
  }

  lemma {:induction false} CoalescedFrom(s: State, g: Given, isClient: bool, level: nat, size: nat, built: seq<Built>, s': State)
    requires StateOk(s) && GivenOk(g) && level <= 3 && Coalesced(s, g, isClient, level, size, built, s')
    ensures From(built, level) && StateOk(s') && |Joined(built)| <= size
    decreases 3 - level
  {
    hide GivenOk, StateOk, Goes, After, SealedAs, Payload, Filler, HeaderAt, PnLength, Sound, Canonical, InRange, AllTyped,
         AllFaithful;
    if level < 3 {
      if KeyOf(level) in g.keys && Goes(s, g, isClient, level, size) {
        CoalescedFrom(After(s, g, isClient, level, size), g, isClient, level + 1, size - |built[0].bytes|, built[1..], s');
        assert forall i :: 1 <= i < |built| ==> built[i] == built[1..][i - 1];
      } else {
        CoalescedFrom(Onto(s, g, isClient, level, size), g, isClient, level + 1, size, built, s');
      }
    }
  }

  /**
   One level of a datagram: there is a packet of the level exactly if there are keys and its
   builder has one, it comes first and it is that builder's packet; the rest belongs to the
   levels above.
   */
  lemma FirstLevel(s: State, g: Given, isClient: bool, level: nat, size: nat, built: seq<Built>, s': State) returns (rest: seq<Built>)
    requires StateOk(s) && GivenOk(g) && level < 3 && Coalesced(s, g, isClient, level, size, built, s')
    ensures HasLevel(built, level) <==> KeyOf(level) in g.keys && Goes(s, g, isClient, level, size)
    ensures HasLevel(built, level) ==> built != [] && IsPacket(s, g, isClient, level, size, built[0])
    ensures rest == if HasLevel(built, level) then built[1..] else built
    ensures Ahead(built, level + 1) <= size
    ensures Coalesced(Onto(s, g, isClient, level, size), g, isClient, level + 1, size - Ahead(built, level + 1), rest, s')
    ensures From(rest, level + 1)
    ensures forall l: nat :: level < l ==> (HasLevel(built, l) <==> HasLevel(rest, l))
    ensures forall l: nat :: level < l ==> Ahead(built, l) == Ahead(built, level + 1) + Ahead(rest, l)
  {
    hide GivenOk, StateOk, Goes, After, SealedAs, Payload, Filler, HeaderAt, PnLength, HasLevel, Sound, Canonical, InRange, AllTyped,
         AllFaithful;
    if KeyOf(level) in g.keys && Goes(s, g, isClient, level, size) {
      rest := built[1..];
      CoalescedFrom(Onto(s, g, isClient, level, size), g, isClient, level + 1, size - |built[0].bytes|, rest, s');
      AheadNone(rest, level + 1);
      HeadHas(built);
    } else {
      rest := built;
      CoalescedFrom(Onto(s, g, isClient, level, size), g, isClient, level + 1, size, rest, s');
      AheadNone(rest, level + 1);
    }
  }

  lemma AfterNumbers(s: State, g: Given, isClient: bool, level: nat, size: nat)
    requires StateOk(s) && GivenOk(g) && level < 3
    ensures After(s, g, isClient, level, size).nextPn == Bumped(s.nextPn, level, Goes(s, g, isClient, level, size))
  {
    hide GivenOk, LongGoes, ShortGoes, AckGoes, ShortTaken, ShortLeft, LongOffset, PnLength, Sound, Canonical, InRange, AllTyped,
         AllFaithful;
  }

  lemma PacketGenuine(s: State, g: Given, level: nat, frames: Bytes, padding: nat, b: Built)
    requires StateOk(s) && GivenOk(g) && level < 3 && PacketAt(s, g, level, frames, padding, b)
    ensures Genuine(b, g)
  {
    hide GivenOk, HeaderAt, PnLength, SealedAs, Sound, Canonical, InRange, AllTyped, AllFaithful;
  }

  /** The packets of a datagram are numbered one after the other in their spaces and sealed with the keys of their levels. */
  lemma {:induction false} CoalescedNumbered(s: State, g: Given, isClient: bool, level: nat, size: nat, built: seq<Built>, s': State)
    requires StateOk(s) && GivenOk(g) && level <= 3 && Coalesced(s, g, isClient, level, size, built, s')
    ensures Numbered(s.nextPn, built, s'.nextPn) && AllGenuine(built, g)
    decreases 3 - level
  {
    hide GivenOk, Goes, After, Payload, Filler, SealedAs, HeaderAt, PnLength, Genuine, Bumped, Sound, Canonical, InRange, AllTyped,
         AllFaithful;
    if level < 3 {
      var s1 := Onto(s, g, isClient, level, size);
      AfterNumbers(s, g, isClient, level, size);
      if KeyOf(level) in g.keys && Goes(s, g, isClient, level, size) {
        CoalescedNumbered(s1, g, isClient, level + 1, size - |built[0].bytes|, built[1..], s');
        PacketGenuine(s, g, level, Payload(s, g, isClient, level, size), Filler(s, g, isClient, level, size), built[0]);
        assert forall i :: 1 <= i < |built| ==> built[i] == built[1..][i - 1];
      } else {
        CoalescedNumbered(s1, g, isClient, level + 1, size, built, s');
        assert Bumped(s.nextPn, level, false) == s.nextPn by { NotBumped(s.nextPn, level); }
      }
    }
  }

  lemma NotBumped(next: seq<U64>, level: nat)
    requires |next| == 3 && level < 3
    ensures Bumped(next, level, false) == next
  {
  }

  lemma CloseNumbered(s: State, g: Given, isClient: bool, k: Lifecycle.Level, size: nat, frames: Bytes, built: seq<Built>, s': State)
    requires StateOk(s) && GivenOk(g) && Lifecycle.CloseLevel(g.keys) == Some(k)
    requires ClosesAt(s, g, isClient, k, size, frames, built, s')
    ensures Numbered(s.nextPn, built, s'.nextPn) && AllGenuine(built, g)
  {
    hide GivenOk, HeaderAt, SealedAs, Genuine, Lifecycle.ClosePacket, EnvOf, ClosePadding, PnLength, Sound, Canonical, InRange,
         AllTyped, AllFaithful;
    GivenAt(g, 0);
    if built != [] {
      var level := LevelOf(k);
      PacketGenuine(s, g, level, frames, ClosePadding(g, level, PnLen(s, g, level), |frames|, isClient), built[0]);
      OneNumbered(s.nextPn, built, level, s'.nextPn);
    }
  }

  /** Whatever a call builds takes the next numbers of its spaces. */
  lemma PollNumbered(l: Lifecycle.Life, s: State, rewind: bool, g: Given, size: nat, built: seq<Built>, s': State)
    requires StateOk(s) && GivenOk(g) && (l.close.Some? ==> |l.close.value.1| <= 64)
    requires Polls(l, s, rewind, g, size, built, s')
    ensures Numbered(s.nextPn, built, s'.nextPn) && AllGenuine(built, g)
  {
    hide GivenOk, Coalesced, ClosesAt, Genuine, FrameBytes, Encodable, Sound, Canonical, InRange, AllTyped, AllFaithful;
    var s1 := Rewound(s, rewind && g.slotHeld);
    if !Barred(l, g) {
      if l.close.None? {
        CoalescedNumbered(s1, g, l.isClient, INITIAL, size, built, s');
      } else if Lifecycle.CloseLevel(g.keys).Some? && l.close.value.0 <= MAX_VARINT {
        var (code, reason) := l.close.value;
        Lifecycle.CloseFrameSize(code, reason);
        CloseNumbered(s1, g, l.isClient, Lifecycle.CloseLevel(g.keys).value, size, FrameBytes(Lifecycle.CloseFrame(code, reason)),
                      built, s');
      }
    }
  }

  lemma HeadHas(built: seq<Built>)
    requires built != []
    ensures forall l: nat :: HasLevel(built, l) <==> built[0].level == l || HasLevel(built[1..], l)
  {
    forall l: nat ensures HasLevel(built, l) <==> built[0].level == l || HasLevel(built[1..], l) {
      if HasLevel(built, l) && built[0].level != l {
        var i :| 0 <= i < |built| && built[i].level == l;
        assert built[1..][i - 1].level == l;
      }
      if HasLevel(built[1..], l) {
        var i :| 0 <= i < |built[1..]| && built[1..][i].level == l;
        assert built[i + 1].level == l;
      }
    }
  }

  lemma OneJoined(r: Option<nat>, built: seq<Built>, now: Bytes, level: nat, pn: U64)
    requires Made(r, built, now, level, pn)
    ensures var end := if r.Some? then r.value else 0;
            end <= |now| && now[..end] == Joined(built)
  {
    if r.Some? {
      assert built[1..] == [];
    }
  }

  lemma {:induction false} JoinedConcat(a: seq<Built>, b: seq<Built>)
    ensures Joined(a + b) == Joined(a) + Joined(b)
    decreases |a|
  {
    if a == [] {
      assert a + b == b;
    } else {
      assert (a + b)[1..] == a[1..] + b;
      JoinedConcat(a[1..], b);
    }
  }

  lemma JoinedThree(was1: Bytes, was2: Bytes, now: Bytes, end1: nat, end2: nat, total: nat,
                    b0: seq<Built>, b1: seq<Built>, b2: seq<Built>)
    requires end1 <= |was1| && was1[..end1] == Joined(b0)
    requires Added(was1, was2, end1, end2, b1) && Added(was2, now, end2, total, b2)
    ensures total <= |now| && now[..total] == Joined(b0 + b1 + b2)
  {
    hide Joined;
    JoinedConcat(b0, b1);
    JoinedConcat(b0 + b1, b2);
    assert was2[..end2] == was2[..end1] + was2[end1..end2];
    assert now[..total] == now[..end2] + now[end2..total];
  }

  /** The length of what is built is the only thing about it that the connection's life sees. */
  lemma EnvFits(s: State, g: Given, size: nat)
    requires StateOk(s) && GivenOk(g)
    ensures forall data: nat :: Lifecycle.EnvOk(EnvOf(s, g, size, data))
    ensures forall data: nat :: EnvOf(s, g, size, data) == EnvOf(s, g, size, 0).(data := data)
    ensures var e := EnvOf(s, g, size, 0); e.updateFails == g.updateFails && e.keys == g.keys
    ensures forall rewound :: StateOk(Rewound(s, rewound)) && EnvOf(Rewound(s, rewound), g, size, 0) == EnvOf(s, g, size, 0)
  {
    hide Sound, Canonical, InRange, PnLength;
  }

  lemma CloseIgnoresData(e: Lifecycle.Env, data: nat, code: U64, reason: Bytes, isClient: bool)
    requires Lifecycle.EnvOk(e)
    ensures forall level :: Lifecycle.CloseBytes(level, e.(data := data), code, reason, isClient)
                            == Lifecycle.CloseBytes(level, e, code, reason, isClient)
  {
    hide Encodable, FrameBytes, PacketSize, PaddingOf;
  }

  // --------------------------------------------------------------------------------
  // Runs
  // --------------------------------------------------------------------------------

  function Flatten(polls: seq<seq<Built>>): seq<Built>
    decreases |polls|
  {
    if polls == [] then [] else polls[0] + Flatten(polls[1..])
  }

  /** The next numbers before and after each of a run of `poll_transmit` calls; nothing else changes them. */
  predicate Run(nexts: seq<seq<U64>>, polls: seq<seq<Built>>) {
    && |nexts| == |polls| + 1
    && (forall i :: 0 <= i < |nexts| ==> |nexts[i]| == 3)
    && forall i :: 0 <= i < |polls| ==> Numbered(nexts[i], polls[i], nexts[i + 1])
  }

  lemma {:induction false} RunNumbered(nexts: seq<seq<U64>>, polls: seq<seq<Built>>)
    requires Run(nexts, polls)
    ensures Numbered(nexts[0], Flatten(polls), nexts[|polls|])
    decreases |polls|
  {
    if polls != [] {
      hide Numbered;
      assert nexts[1..][|polls| - 1] == nexts[|polls|];
      RunNumbered(nexts[1..], polls[1..]);
      NumberedConcat(nexts[0], polls[0], nexts[1], Flatten(polls[1..]), nexts[|polls|]);
    }
  }

  /** How many of the packets belong to a space. */
  function CountAt(built: seq<Built>, level: nat): nat
    decreases |built|
  {
    if built == [] then 0 else (if built[0].level == level then 1 else 0) + CountAt(built[1..], level)
  }

  /** Short of wrapping around, the packets of a space are numbered in order. */
  lemma {:induction false} NumberAt(next: seq<U64>, built: seq<Built>, next': seq<U64>, i: nat)
    requires |next| == 3 && Numbered(next, built, next') && i < |built|
    requires built[i].level < 3 ==> next[built[i].level] + CountAt(built, built[i].level) <= U64_SIZE
    ensures built[i].level < 3 && built[i].pn == next[built[i].level] + CountAt(built[..i], built[i].level)
    decreases |built|
  {
    if i > 0 {
      var l, b := built[i].level, built[0];
      assert built[..i][0] == b && built[..i][1..] == built[1..][..i - 1];
      CountPositive(built[1..], i - 1);
      NumberAt(Bumped(next, b.level, true), built[1..], next', i - 1);
    }
  }

  lemma {:induction false} CountPositive(built: seq<Built>, i: nat)
    requires i < |built|
    ensures CountAt(built, built[i].level) > 0
    decreases |built|
  {
    if i > 0 {
      CountPositive(built[1..], i - 1);
    }
  }

  lemma {:induction false} CountGrows(built: seq<Built>, i: nat, j: nat)
    requires i < j <= |built|
    ensures CountAt(built[..i], built[i].level) < CountAt(built[..j], built[i].level)
    decreases |built|
  {
    var l := built[i].level;
    assert built[..j][0] == built[0] && built[..j][1..] == built[1..][..j - 1];
    if i > 0 {
      assert built[..i][0] == built[0] && built[..i][1..] == built[1..][..i - 1];
      CountGrows(built[1..], i - 1, j - 1);
    }
  }

  /**
   Over any run of `poll_transmit` the packets sealed in a space carry strictly increasing
   numbers: those of all builders, the close packets, and those of datagrams that were then
   held back. It takes 2^64 packets in one space to wrap around.
   */
  lemma NumbersIncrease(nexts: seq<seq<U64>>, polls: seq<seq<Built>>, i: nat, j: nat)
    requires Run(nexts, polls) && nexts[0] == [0, 0, 0] && i < j < |Flatten(polls)|
    requires Flatten(polls)[i].level == Flatten(polls)[j].level
    requires CountAt(Flatten(polls), Flatten(polls)[i].level) <= U64_SIZE
    ensures Flatten(polls)[i].pn < Flatten(polls)[j].pn
  {
    var all := Flatten(polls);
    RunNumbered(nexts, polls);
    hide Run, Flatten, Numbered;
    NumberAt([0, 0, 0], all, nexts[|polls|], i);
    NumberAt([0, 0, 0], all, nexts[|polls|], j);
    CountGrows(all, i, j);
  }

  /** So no two packets sealed with keys of one level share a nonce. */
  lemma NoNonceTwice(nexts: seq<seq<U64>>, polls: seq<seq<Built>>, i: nat, j: nat, iv: Bytes)
    requires Run(nexts, polls) && nexts[0] == [0, 0, 0] && i < j < |Flatten(polls)| && |iv| == 12
    requires Flatten(polls)[i].level == Flatten(polls)[j].level
    requires CountAt(Flatten(polls), Flatten(polls)[i].level) <= U64_SIZE
    ensures NonceOf(iv, Flatten(polls)[i].pn) != NonceOf(iv, Flatten(polls)[j].pn)
  {
    hide NonceOf, Run, Flatten, CountAt;
    NumbersIncrease(nexts, polls, i, j);
    var p, q := Flatten(polls)[i].pn, Flatten(polls)[j].pn;
    if NonceOf(iv, p) == NonceOf(iv, q) {
      NonceInjective(iv, p, q);
    }
  }

  /** When a datagram that was built leaves, for a connection that is neither closed nor closing. */
  lemma LeavesExactly(l: Lifecycle.Life, e: Lifecycle.Env)
    requires Lifecycle.EnvOk(e) && !l.state.ConnClosed? && l.close.None? && !e.updateFails && e.data > 0
    ensures Lifecycle.Polled(l, e).1 == e.data <==> l.validated || l.sent + e.data <= 3 * l.received
    ensures Lifecycle.Polled(l, e).1 == 0 <==> !l.validated && l.sent + e.data > 3 * l.received
  {
  }

  /** A server that received one datagram of 1200 bytes and sent two and a half times that: the next one is built and held back. */
  lemma HeldBack()
    ensures var l := Lifecycle.Fresh(false).(received := 1200, sent := 3000);
            var e := Lifecycle.Env(false, {Lifecycle.Initial}, [], [], 1, 1200, 1200);
            Lifecycle.AmplificationAllows(l, 1) && Lifecycle.Polled(l, e) == (l, 0)
  {
  }
}
