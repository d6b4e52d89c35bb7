/**
 Building 1-RTT packets, and what the peer gets out of any packet built: the frames written,
 in order, with the packet number and header they were sealed under.
 */
module ShortPacket {
  import opened Bytes
  import opened Varint
  import opened FrameCodec
  import opened PnTracker
  import opened AckPath
  import opened CryptoStream
  import opened SendPath
  import opened Protection
  import opened PacketBuild

  predicate AllEncodable(fs: seq<Frame>) { forall i :: 0 <= i < |fs| ==> Encodable(fs[i]) }

  predicate AllTyped(fs: seq<Frame>) { forall i :: 0 <= i < |fs| ==> Typed(fs[i]) }

  /**
   The control frames that go into `room` bytes: each is tried in turn, one that does not fit
   is passed over, or ends the run when `stop`.
   */
  function Taken(fs: seq<Frame>, room: nat, stop: bool): (t: seq<Frame>)
    ensures AllEncodable(t) && |ListBytes(t)| <= room
    decreases |fs|
  {
    if fs == [] then []
    else if Encodable(fs[0]) && |FrameBytes(fs[0])| <= room then
      var t := Taken(fs[1..], room - |FrameBytes(fs[0])|, stop);
      assert ([fs[0]] + t)[1..] == t;
      [fs[0]] + t
    else if stop then []
    else Taken(fs[1..], room, stop)
  }

  lemma TakenNext(fs: seq<Frame>, i: nat, room: nat, stop: bool)
    requires i < |fs|
    ensures Taken(fs[i..], room, stop) ==
            if Encodable(fs[i]) && |FrameBytes(fs[i])| <= room then [fs[i]] + Taken(fs[i + 1..], room - |FrameBytes(fs[i])|, stop)
            else if stop then []
            else Taken(fs[i + 1..], room, stop)
  {
    hide Encodable, FrameBytes;
    assert fs[i..][0] == fs[i] && fs[i..][1..] == fs[i + 1..];
  }

  lemma TakenStart(fs: seq<Frame>, buf: Bytes, at: nat)
    requires at <= |buf|
    ensures fs[0..] == fs && ListBytes([]) == [] && Holds(buf, at, []) && Outside(buf, buf, at, |buf|)
  {
  }

  /** Write the control frames that fit at `at`. */
  method WriteControl(buf: array<Byte>, at: nat, fs: seq<Frame>, stop: bool) returns (len: nat, taken: seq<Frame>)
    requires at <= buf.Length && AllTyped(fs)
    modifies buf
    ensures taken == Taken(fs, buf.Length - at, stop)
    ensures len == |ListBytes(Taken(fs, buf.Length - at, stop))| && at + len <= buf.Length
    ensures Holds(buf[..], at, ListBytes(Taken(fs, buf.Length - at, stop)))
    ensures Outside(old(buf[..]), buf[..], at, buf.Length)
  {
    hide Encodable, FrameBytes, Taken, ListBytes, Holds, Outside, Spliced, Typed;
    len, taken := 0, [];
    var i := 0;
    ghost var goal := Taken(fs, buf.Length - at, stop);
    TakenStart(fs, buf[..], at);
    while i < |fs|
      invariant 0 <= i <= |fs| && AllEncodable(taken)
      invariant len == |ListBytes(taken)| && at + len <= buf.Length
      invariant goal == taken + Taken(fs[i..], buf.Length - at - len, stop)
      invariant Holds(buf[..], at, ListBytes(taken)) && Outside(old(buf[..]), buf[..], at, buf.Length)
    {
      TakenNext(fs, i, buf.Length - at - len, stop);
      ghost var was := buf[..];
      var r := Encode(fs[i], buf, at + len, buf.Length);
      Patched(old(buf[..]), was, buf[..], at, ListBytes(taken), buf.Length);
      if r.Ok? {
        OneMore(was, buf[..], at, taken, fs[i], Taken(fs[i + 1..], buf.Length - at - len - r.value, stop));
        len, taken := len + r.value, taken + [fs[i]];
      } else if stop {
        assert taken + [] == taken;
        return;
      }
      i := i + 1;
    }
    TakenEnd(fs, buf.Length - at - len, stop);
    assert taken + [] == taken;
  }

  lemma OneMore(was: Bytes, now: Bytes, at: nat, taken: seq<Frame>, f: Frame, rest: seq<Frame>)
    requires AllEncodable(taken) && Encodable(f) && Holds(now, at, ListBytes(taken))
    requires Spliced(was, now, at + |ListBytes(taken)|, FrameBytes(f))
    ensures AllEncodable(taken + [f]) && Holds(now, at, ListBytes(taken + [f]))
    ensures |ListBytes(taken + [f])| == |ListBytes(taken)| + |FrameBytes(f)|
    ensures taken + ([f] + rest) == taken + [f] + rest
  {
    hide Encodable, FrameBytes, ListBytes, Holds, Spliced;
    HoldsWritten(was, now, at + |ListBytes(taken)|, FrameBytes(f));
    HoldsBoth(now, at, ListBytes(taken), FrameBytes(f));
    ListSnoc(taken, f);
  }

  lemma HoldsWritten(was: Bytes, now: Bytes, at: nat, s: Bytes)
    requires Spliced(was, now, at, s)
    ensures Holds(now, at, s)
  {
  }

  /** A control frame is passed over or taken by itself; what is tried later gets the rest of the room. */
  lemma {:induction false} TakenConcat(a: seq<Frame>, b: seq<Frame>, room: nat)
    ensures Taken(a + b, room, false) == Taken(a, room, false) + Taken(b, room - |ListBytes(Taken(a, room, false))|, false)
    decreases |a|
  {
    hide Encodable, FrameBytes;
    if a == [] {
      assert a + b == b;
    } else {
      assert (a + b)[0] == a[0] && (a + b)[1..] == a[1..] + b;
      if Encodable(a[0]) && |FrameBytes(a[0])| <= room {
        var t := Taken(a[1..], room - |FrameBytes(a[0])|, false);
        TakenConcat(a[1..], b, room - |FrameBytes(a[0])|);
        assert ([a[0]] + t)[1..] == t;
      } else {
        TakenConcat(a[1..], b, room);
      }
    }
  }

  lemma TakenOne(f: Frame, room: nat, stop: bool)
    ensures Taken([f], room, stop) == if Encodable(f) && |FrameBytes(f)| <= room then [f] else []
    ensures Encodable(f) ==> ListBytes([f]) == FrameBytes(f)
  {
    hide Encodable, FrameBytes;
    assert [f][1..] == [];
  }

  /** The window updates taken are the first ones, as far as they fit. */
  lemma {:induction false} TakenFront(fs: seq<Frame>, room: nat)
    ensures var t := Taken(fs, room, true);
            && t <= fs
            && (|t| < |fs| ==> !Encodable(fs[|t|]) || |ListBytes(t)| + |FrameBytes(fs[|t|])| > room)
    decreases |fs|
  {
    hide Encodable, FrameBytes;
    if fs != [] && Encodable(fs[0]) && |FrameBytes(fs[0])| <= room {
      var t := Taken(fs[1..], room - |FrameBytes(fs[0])|, true);
      TakenFront(fs[1..], room - |FrameBytes(fs[0])|);
      assert ([fs[0]] + t)[1..] == t;
    }
  }

  lemma TakenEnd(fs: seq<Frame>, room: nat, stop: bool)
    ensures fs[|fs|..] == [] && Taken([], room, stop) == []
  {
  }

  /** All control frames of a packet: `fixed` ones first, then the stream window updates. */
  function Control(fixed: seq<Frame>, windows: seq<Frame>, room: nat): (t: seq<Frame>)
    ensures AllEncodable(t) && |ListBytes(t)| <= room
  {
    var a := Taken(fixed, room, false);
    var b := Taken(windows, room - |ListBytes(a)|, true);
    ListConcat(a, b);
    a + b
  }

  lemma {:induction false} ListConcat(a: seq<Frame>, b: seq<Frame>)
    requires AllEncodable(a) && AllEncodable(b)
    ensures ListBytes(a + b) == ListBytes(a) + ListBytes(b)
    decreases |a|
  {
    hide Encodable, FrameBytes;
    if a == [] {
      assert a + b == b;
    } else {
      assert (a + b)[1..] == a[1..] + b;
      ListConcat(a[1..], b);
    }
  }

  /** How many queued entries join a packet with `room` bytes, after its control frames. */
  function Joining(control: seq<Frame>, queue: seq<Entry>, window: nat, room: nat): (k: nat)
    requires AllEncodable(control) && |ListBytes(control)| <= room
    ensures k <= |queue| && AllSendable(queue[..k])
  {
    EmitCount(queue, Min(window, room - |ListBytes(control)|))
  }

  /** The payload of a packet with `room` bytes for it. */
  function ShortFrames(fixed: seq<Frame>, windows: seq<Frame>, queue: seq<Entry>, window: nat, room: nat): Bytes {
    var control := Control(fixed, windows, room);
    ListBytes(control) + QueueBytes(queue[..Joining(control, queue, window, room)])
  }

  /** The entries that wait for a later packet. */
  function Remaining(fixed: seq<Frame>, windows: seq<Frame>, queue: seq<Entry>, window: nat, room: nat): seq<Entry> {
    queue[Joining(Control(fixed, windows, room), queue, window, room)..]
  }

  function ShortPadding(pnLen: nat, frameLen: nat): nat { SaturatingSub(20, pnLen + frameLen + TAG) }

  /** It is the least that lets the packet be sampled. */
  lemma PaddingLeast(pnLen: nat, frameLen: nat, padding: nat)
    ensures padding >= ShortPadding(pnLen, frameLen) <==> 4 <= pnLen + frameLen + padding
  {
  }

  /**
   Form a 1-RTT packet numbered `pn` out of control frames and the front of the send queue, the
   latter within the congestion window. The entries taken leave the queue whether or not there
   is a packet; there is one exactly when there is something to send and room for the tag.
   */
  method FormShortPacket(buf: array<Byte>, dcid: Bytes, pn: U64, known: nat, phase: nat, fixed: seq<Frame>,
                         windows: seq<Frame>, queue: seq<Entry>, window: nat, c: Suite)
    returns (r: Option<nat>, left: seq<Entry>, taken: seq<Frame>)
    requires Sound(c) && |dcid| <= MAX_CID && phase <= 1 && AllTyped(fixed) && AllTyped(windows)
    modifies buf
    ensures var pnLen := PnLength(pn, known);
            var start := 1 + |dcid| + pnLen;
            if buf.Length < start + 32 then r.None? && left == queue && taken == []
            else
              var room := buf.Length - start;
              var frames := ShortFrames(fixed, windows, queue, window, room);
              && left == Remaining(fixed, windows, queue, window, room)
              && taken == Taken(fixed, room, false)
              && (r.Some? <==> frames != [] && start + |frames| + TAG <= buf.Length)
              && (r.Some? ==> Packet(c, buf[..], r.value, ShortHeader(dcid, phase, pnLen), pnLen, pn, frames,
                                     ShortPadding(pnLen, |frames|), false))
  {
    hide ShortFrames, Remaining, PnLength, Packet, AllTyped, Joining, Sound, Control, ShortHeader, ShortPadding, Taken;
    left, taken := queue, [];
    var pnLen := PnLength(pn, known);
    var start := 1 + |dcid| + pnLen;
    if buf.Length < start + 32 {
      return None, left, taken;
    }
    var len;
    len, left, taken := WriteShortFrames(buf, start, fixed, windows, queue, window);
    if len == 0 {
      return None, left, taken;
    }
    r := SealShort(buf, dcid, pn, pnLen, phase, len, c);
  }

  function ShortHeader(dcid: Bytes, phase: nat, pnLen: nat): (s: Bytes)
    requires phase <= 1 && 1 <= pnLen <= 4
    ensures |s| == 1 + |dcid| && PnLenOf(s[0]) == pnLen
  {
    [0x40 + 4 * phase + (pnLen - 1)] + dcid
  }

  /** Pad the `len` bytes of frames behind the header for the sample, then seal and protect them. */
  method SealShort(buf: array<Byte>, dcid: Bytes, pn: U64, pnLen: nat, phase: nat, len: nat, c: Suite) returns (r: Option<nat>)
    requires Sound(c) && phase <= 1 && 1 <= pnLen <= 4 && 1 + |dcid| + pnLen + Max(len, 32) <= buf.Length
    modifies buf
    ensures r.Some? <==> 1 + |dcid| + pnLen + len + TAG <= buf.Length
    ensures r.Some? ==> Packet(c, buf[..], r.value, ShortHeader(dcid, phase, pnLen), pnLen, pn,
                               old(buf[1 + |dcid| + pnLen..1 + |dcid| + pnLen + len]), ShortPadding(pnLen, len), false)
  {
    hide Packet, Sound, ShortHeader;
    var start := 1 + |dcid| + pnLen;
    var total := Assemble(buf, ShortHeader(dcid, phase, pnLen), pn, pnLen, start, len, ShortPadding(pnLen, len), false, c);
    r := if total.Ok? then Some(total.value) else None;
  }

  /** The frames of one 1-RTT packet at `start`, and what is left of the queue. */
  method WriteShortFrames(buf: array<Byte>, start: nat, fixed: seq<Frame>, windows: seq<Frame>, queue: seq<Entry>, window: nat)
    returns (len: nat, left: seq<Entry>, taken: seq<Frame>)
    requires start <= buf.Length && AllTyped(fixed) && AllTyped(windows)
    modifies buf
    ensures taken == Taken(fixed, buf.Length - start, false)
    ensures var room := buf.Length - start;
            && len == |ShortFrames(fixed, windows, queue, window, room)| <= room
            && buf[start..start + len] == ShortFrames(fixed, windows, queue, window, room)
            && left == Remaining(fixed, windows, queue, window, room)
  {
    hide ListBytes, Holds, Outside, Encodable, Control, QueueBytes, EmitCount, Sendable, AllTyped, Taken;
    len, taken := WriteControls(buf, start, fixed, windows);
    ghost var control, before := Control(fixed, windows, buf.Length - start), buf[..];
    var budget := Min(window, buf.Length - start - len);
    var more;
    left, more := BuildStreamFrames(queue, buf, start + len, start + len + budget);
    ghost var k := Joining(control, queue, window, buf.Length - start);
    OutsideSelf(before, start);
    Patched(before, before, buf[..], start, ListBytes(control), start + len + budget);
    HoldsBoth(buf[..], start, ListBytes(control), QueueBytes(queue[..k]));
    HoldsSlice(buf[..], start, ListBytes(control) + QueueBytes(queue[..k]));
    len := len + more;
  }

  lemma HoldsSlice(buf: Bytes, at: nat, s: Bytes)
    requires Holds(buf, at, s)
    ensures at + |s| <= |buf| && buf[at..at + |s|] == s
  {
  }

  method WriteControls(buf: array<Byte>, start: nat, fixed: seq<Frame>, windows: seq<Frame>)
    returns (len: nat, taken: seq<Frame>)
    requires start <= buf.Length && AllTyped(fixed) && AllTyped(windows)
    modifies buf
    ensures taken == Taken(fixed, buf.Length - start, false)
    ensures len == |ListBytes(Control(fixed, windows, buf.Length - start))| && start + len <= buf.Length
    ensures Holds(buf[..], start, ListBytes(Control(fixed, windows, buf.Length - start)))
  {
    hide ListBytes, Taken, Holds, Outside, AllTyped, Encodable;
    len, taken := WriteControl(buf, start, fixed, false);
    ghost var a, mid := taken, buf[..];
    var more, updates := WriteControl(buf, start + len, windows, true);
    ghost var b := updates;
    OutsideSelf(mid, start);
    Patched(mid, mid, buf[..], start, ListBytes(a), buf.Length);
    HoldsBoth(buf[..], start, ListBytes(a), ListBytes(b));
    ListConcat(a, b);
    len := len + more;
  }

  lemma OutsideSelf(s: Bytes, lo: nat)
    requires lo <= |s|
    ensures forall hi :: lo <= hi <= |s| ==> Outside(s, s, lo, hi)
  {
  }

  // --------------------------------------------------------------------------------
  // Room for the tag
  // --------------------------------------------------------------------------------

  lemma {:induction false} EmitFits(q: seq<Entry>, room: nat)
    ensures |QueueBytes(q[..EmitCount(q, room)])| <= room
    decreases |q|
  {
    hide EntryBytes, Sendable, QueueBytes;
    var k := EmitCount(q, room);
    if k == 0 {
      QueueFront(q, 0);
    } else {
      EmitFits(q[1..], room - |EntryBytes(q[0])|);
      QueueFront(q, k);
    }
  }

  /**
   The stream budget leaves no room for the 16-byte tag. A packet is sure to go out when the
   congestion window, not the buffer, bounds its stream data ...
   */
  lemma WindowLeavesTag(fixed: seq<Frame>, windows: seq<Frame>, queue: seq<Entry>, window: nat, room: nat)
    requires |ListBytes(Control(fixed, windows, room))| + window + TAG <= room
    ensures |ShortFrames(fixed, windows, queue, window, room)| + TAG <= room
  {
    hide ListBytes, QueueBytes, Control, EmitCount;
    var control := Control(fixed, windows, room);
    EmitFits(queue, Min(window, room - |ListBytes(control)|));
  }

  /** ... and an entry that fills the buffer leaves the queue for a packet that is never sealed. */
  lemma FullBufferLosesEntry(e: Entry, window: nat)
    requires Sendable(e) && 32 <= |EntryBytes(e)| <= window
    ensures var room := |EntryBytes(e)|;
            Remaining([], [], [e], window, room) == [] && |ShortFrames([], [], [e], window, room)| + TAG > room
  {
    hide EntryBytes;
    assert [e][1..] == [] && [e][..1] == [e];
    assert QueueBytes([e]) == QueueBytes([e][..0]) + EntryBytes(e);
  }

  // --------------------------------------------------------------------------------
  // What the peer reads
  // --------------------------------------------------------------------------------

  predicate AllFaithful(fs: seq<Frame>) { forall i :: 0 <= i < |fs| ==> Faithful(fs[i]) }

  function Paddings(n: nat): (fs: seq<Frame>)
    ensures |fs| == n && AllEncodable(fs) && AllFaithful(fs)
  {
    seq(n, i => Padding)
  }

  lemma {:induction false} PaddingsAreZeros(n: nat)
    ensures ListBytes(Paddings(n)) == Zeros(n)
  {
    if n > 0 {
      PaddingsAreZeros(n - 1);
      assert Paddings(n)[1..] == Paddings(n - 1);
      assert Zeros(n) == [0] + Zeros(n - 1);
      assert FrameBytes(Padding) == [0] by { PaddingByte(); }
    }
  }

  lemma PaddingByte()
    ensures Encodable(Padding) && FrameBytes(Padding) == [0]
  {
    assert Fields(Padding)[..0] == [];
  }

  /**
   A receiver that recovers the packet number from a built packet gets the header as written
   and, parsing the payload, exactly the frames that went in, then only padding.
   */
  lemma PacketDelivers(c: Suite, now: Bytes, total: nat, header: Bytes, pnLen: nat, pn: U64, fs: seq<Frame>, padding: nat,
                       isLong: bool, largest: nat)
    requires Sound(c) && 1 <= pnLen <= 4 && header != [] && PnLenOf(header[0]) == pnLen && pn <= MAX_VARINT
    requires AllEncodable(fs) && AllFaithful(fs) && Recovers(pn, pnLen, largest)
    requires Packet(c, now, total, header, pnLen, pn, ListBytes(fs), padding, isLong)
    ensures var o := Open(c, now[..total], |header|, largest, isLong);
            && o.Ok? && o.value.pn == pn && o.value.head == header + BigEndian(pn, pnLen)
            && Parse(o.value.plain) == (fs + Paddings(padding), true)
  {
    hide Open, Protect, BigEndian, Parse, ListBytes, Recovers, Encodable, Faithful;
    var plain := ListBytes(fs) + Zeros(padding);
    OpensBack(c, header + BigEndian(pn, pnLen), |header|, plain, pn, isLong, largest);
    PaddingsAreZeros(padding);
    ListConcat(fs, Paddings(padding));
    ParseList(fs + Paddings(padding));
  }

  lemma {:induction false} TakenFaithful(fs: seq<Frame>, room: nat, stop: bool)
    requires AllFaithful(fs)
    ensures AllFaithful(Taken(fs, room, stop))
    decreases |fs|
  {
    hide Encodable, FrameBytes, Faithful;
    if fs != [] {
      assert fs[0] == fs[0..][0] && AllFaithful(fs[1..]);
      TakenNext(fs, 0, room, stop);
      assert fs[0..] == fs;
      if Encodable(fs[0]) && |FrameBytes(fs[0])| <= room {
        TakenFaithful(fs[1..], room - |FrameBytes(fs[0])|, stop);
      } else {
        TakenFaithful(fs[1..], room, stop);
      }
    }
  }

  /** The frames of a 1-RTT packet: the control frames taken, then one STREAM frame per entry taken. */
  function ShortList(fixed: seq<Frame>, windows: seq<Frame>, queue: seq<Entry>, window: nat, room: nat): seq<Frame> {
    var control := Control(fixed, windows, room);
    control + FramesOf(queue[..Joining(control, queue, window, room)])
  }

  /**
   The peer of `FormShortPacket` parses the control frames that were taken and one STREAM
   frame for every entry that left the queue, in queue order.
   */
  lemma ShortDelivers(c: Suite, now: Bytes, total: nat, dcid: Bytes, phase: nat, pnLen: nat, pn: U64, fixed: seq<Frame>,
                      windows: seq<Frame>, queue: seq<Entry>, window: nat, room: nat, largest: nat)
    requires Sound(c) && phase <= 1 && 1 <= pnLen <= 4 && pn <= MAX_VARINT && AllFaithful(fixed) && AllFaithful(windows)
    requires var frames := ShortFrames(fixed, windows, queue, window, room);
             Packet(c, now, total, ShortHeader(dcid, phase, pnLen), pnLen, pn, frames, ShortPadding(pnLen, |frames|), false)
    requires Recovers(pn, pnLen, largest)
    ensures var o := Open(c, now[..total], 1 + |dcid|, largest, false);
            var list := ShortList(fixed, windows, queue, window, room);
            o.Ok? && o.value.pn == pn && list <= Parse(o.value.plain).0 && Parse(o.value.plain).1
            && forall i :: |list| <= i < |Parse(o.value.plain).0| ==> Parse(o.value.plain).0[i] == Padding
  {
    hide Packet, Sound, ShortHeader, Open, Parse, Recovers, ShortPadding, ListBytes, Encodable, Faithful;
    var frames := ShortFrames(fixed, windows, queue, window, room);
    ShortIsList(fixed, windows, queue, window, room);
    PacketDelivers(c, now, total, ShortHeader(dcid, phase, pnLen), pnLen, pn, ShortList(fixed, windows, queue, window, room),
                   ShortPadding(pnLen, |frames|), false, largest);
  }

  lemma ShortIsList(fixed: seq<Frame>, windows: seq<Frame>, queue: seq<Entry>, window: nat, room: nat)
    requires AllFaithful(fixed) && AllFaithful(windows)
    ensures var list := ShortList(fixed, windows, queue, window, room);
            AllEncodable(list) && AllFaithful(list) && ShortFrames(fixed, windows, queue, window, room) == ListBytes(list)
  {
    hide Encodable, FrameBytes, Taken, QueueBytes, EmitCount, ListBytes, Faithful, Sendable;
    var control := Control(fixed, windows, room);
    var q := queue[..Joining(control, queue, window, room)];
    TakenFaithful(fixed, room, false);
    TakenFaithful(windows, room - |ListBytes(Taken(fixed, room, false))|, true);
    QueueIsList(q);
    ListConcat(control, FramesOf(q));
  }

  /** The frames of an Initial or Handshake packet. */
  function LongList(due: bool, rs: seq<Range>, room: int, stream: Bytes, was: nat, now: nat): seq<Frame>
    requires Canonical(rs) && InRange(rs) && was <= now <= |stream| <= RETAINED
  {
    (if AckPart(due, rs, room) == [] then [] else [AckFor(rs).value])
    + if now > was then [Chunk(stream, was, now - was)] else []
  }

  /**
   The peer of `FormInitialPacket` and `FormHandshakePacket` parses the ACK, if one was
   written, and the CRYPTO frame with exactly the stream bytes between the two offsets.
   */
  lemma LongDelivers(c: Suite, buf: Bytes, total: nat, header: Bytes, pnLen: nat, pn: U64, padding: nat, largest: nat,
                     due: bool, rs: seq<Range>, room: int, stream: Bytes, was: nat, now: nat)
    requires Sound(c) && 1 <= pnLen <= 4 && header != [] && PnLenOf(header[0]) == pnLen && pn <= MAX_VARINT
    requires Canonical(rs) && InRange(rs) && was <= now <= |stream| <= RETAINED
    requires Packet(c, buf, total, header, pnLen, pn, AckPart(due, rs, room) + CryptoPart(stream, was, now), padding, true)
    requires Recovers(pn, pnLen, largest)
    ensures var o := Open(c, buf[..total], |header|, largest, true);
            && o.Ok? && o.value.pn == pn
            && Parse(o.value.plain) == (LongList(due, rs, room, stream, was, now) + Paddings(padding), true)
  {
    hide Packet, Sound, Open, Parse, Recovers, ListBytes, Encodable, Faithful, AckPart, CryptoPart, LongList;
    LongIsList(due, rs, room, stream, was, now);
    PacketDelivers(c, buf, total, header, pnLen, pn, LongList(due, rs, room, stream, was, now), padding, true, largest);
  }

  lemma LongIsList(due: bool, rs: seq<Range>, room: int, stream: Bytes, was: nat, now: nat)
    requires Canonical(rs) && InRange(rs) && was <= now <= |stream| <= RETAINED
    ensures var list := LongList(due, rs, room, stream, was, now);
            && AllEncodable(list) && AllFaithful(list)
            && ListBytes(list) == AckPart(due, rs, room) + CryptoPart(stream, was, now)
  {
    hide FrameBytes, Encodable, AckFor, Canonical, InRange;
    ChunkSize(stream, was, now - was);
    var a := if AckPart(due, rs, room) == [] then [] else [AckFor(rs).value];
    var b := if now > was then [Chunk(stream, was, now - was)] else [];
    AckIsFaithful(rs);
    ListConcat(a, b);
  }

  lemma AckIsFaithful(rs: seq<Range>)
    requires Canonical(rs) && InRange(rs)
    ensures AckFor(rs).Some? ==> Faithful(AckFor(rs).value)
  {
  }
}
