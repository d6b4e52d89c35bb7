/**
 The receiving half of the STREAM data path: flow control and final size per stream, the
 receive buffers that take in-order data only, and reading with compaction.
 */
module RecvPath {
  import opened Bytes
  import SendPath

  datatype RecvStreamState = Recv | SizeKnown | DataRecvd | ResetRecvd | DataRead | ResetRead

  datatype RecvState = RecvState(
    state: RecvStreamState, offset: nat, maxData: nat, maxDataNext: nat, initialWindow: nat, finOffset: Option<nat>)

  /** A receive buffer: the filled part of its fixed array, and the stream position that comes next. */
  datatype RecvBuf = RecvBuf(streamId: nat, data: Bytes, readOffset: nat, finReceived: bool, nextOffset: nat)

  type Slots = seq<Option<RecvBuf>>

  /** Sizes fixed at compile time: bytes per receive buffer and number of buffers. */
  datatype Limits = Limits(streamBuf: nat, maxStreams: nat)

  /** `recvs` has every known stream, with its receiving half if it has one. */
  datatype In = In(recvs: map<nat, Option<RecvState>>, slots: Slots)

  /** No further data is accepted on the stream. */
  predicate Settled(r: RecvState) { !r.state.Recv? && !r.state.SizeKnown? }

  /** `StreamMap::mark_recv`: a FIN is noted even when the flow-control check after it fails. */
  function MarkRecv(r: RecvState, offset: nat, len: nat, fin: bool): (RecvState, Result<nat>) {
    var end := offset + len;
    if Settled(r) then (r, Err(StreamStateError))
    else if r.finOffset.Some? && (end > r.finOffset.value || (fin && end != r.finOffset.value)) then (r, Err(FinalSizeError))
    else
      var r1 := if fin then r.(finOffset := Some(end), state := SizeKnown) else r;
      if end > r1.maxData then (r1, Err(FlowControlError))
      else
        var newBytes := SaturatingSub(end, r1.offset);
        var r2 := r1.(offset := Max(r1.offset, end));
        var r3 := if r2.finOffset.Some? && r2.offset >= r2.finOffset.value then r2.(state := DataRecvd) else r2;
        var low := SaturatingSub(r3.maxData, r3.offset) < r3.initialWindow / 2;
        (if low then r3.(maxDataNext := r3.offset + r3.initialWindow) else r3, Ok(newBytes))
  }

  predicate Owns(s: Option<RecvBuf>, id: nat) { s.Some? && s.value.streamId == id }

  /** The first slot of the stream, if it has one. */
  function SlotOf(slots: Slots, id: nat): (r: Option<nat>)
    ensures r.Some? ==> r.value < |slots| && Owns(slots[r.value], id)
    ensures r.Some? ==> forall i :: 0 <= i < r.value ==> !Owns(slots[i], id)
    ensures r.None? ==> forall i :: 0 <= i < |slots| ==> !Owns(slots[i], id)
  {
    if slots == [] then None
    else if Owns(slots[|slots| - 1], id) && SlotOf(slots[..|slots| - 1], id).None? then Some(|slots| - 1)
    else SlotOf(slots[..|slots| - 1], id)
  }

  function FirstEmpty(slots: Slots): (r: Option<nat>)
    ensures r.Some? ==> r.value < |slots| && slots[r.value].None?
    ensures r.Some? ==> forall i :: 0 <= i < r.value ==> slots[i].Some?
    ensures r.None? ==> forall i :: 0 <= i < |slots| ==> slots[i].Some?
  {
    if slots == [] then None
    else
      var r := FirstEmpty(slots[..|slots| - 1]);
      if r.None? && slots[|slots| - 1].None? then Some(|slots| - 1) else r
  }

  /** The buffers once the stream has one, if there is any place for it. */
  function Opened(slots: Slots, id: nat, z: Limits): Slots {
    var blank := Some(RecvBuf(id, [], 0, false, 0));
    if SlotOf(slots, id).Some? then slots
    else if FirstEmpty(slots).Some? then slots[FirstEmpty(slots).value := blank]
    else if |slots| < z.maxStreams then slots + [blank]
    else slots
  }

  /** Only bytes from `nextOffset` on are taken, as many as there is room for; FIN is noted either way. */
  function Filled(b: RecvBuf, offset: nat, data: Bytes, fin: bool, z: Limits): RecvBuf {
    var end := offset + |data|;
    if offset > b.nextOffset then b
    else if end <= b.nextOffset then b.(finReceived := b.finReceived || fin)
    else
      var more := data[b.nextOffset - offset..];
      var n := Min(|more|, SaturatingSub(z.streamBuf, |b.data|));
      b.(data := b.data + more[..n], nextOffset := b.nextOffset + n, finReceived := b.finReceived || fin)
  }

  /** The copy of a frame that carries FIN is cut short. */
  predicate CutsFin(b: RecvBuf, offset: nat, data: Bytes, fin: bool, z: Limits) {
    && fin && offset <= b.nextOffset
    && offset + |data| - b.nextOffset > SaturatingSub(z.streamBuf, |b.data|)
  }

  /** `store_stream_data`. */
  function Store(slots: Slots, id: nat, offset: nat, data: Bytes, fin: bool, z: Limits): Slots {
    var open := Opened(slots, id, z);
    match SlotOf(open, id)
    case None => open
    case Some(i) => open[i := Some(Filled(open[i].value, offset, data, fin, z))]
  }

  /** The STREAM case of `dispatch_frame`; `connOk` is whether connection flow control admits the new bytes. */
  function OnStreamFrame(n: In, id: nat, offset: nat, data: Bytes, fin: bool, connOk: bool, z: Limits): (In, Outcome) {
    if id !in n.recvs then (n, Pass)
    else if n.recvs[id].None? then (n, Fail(InvalidState))
    else
      var (r, marked) := MarkRecv(n.recvs[id].value, offset, |data|, fin);
      var n' := n.(recvs := n.recvs[id := Some(r)]);
      if marked.Err? then (n', Fail(marked.error))
      else if !connOk then (n', Fail(FlowControlError))
      else (n'.(slots := Store(n.slots, id, offset, data, fin, z)), Pass)
  }

  /** `stream_recv` into a buffer of `len` bytes: the bytes copied out and whether they end the stream. */
  function Read(slots: Slots, id: nat, len: nat): (Slots, Result<(Bytes, bool)>) {
    match SlotOf(slots, id)
    case None => (slots, Err(WouldBlock))
    case Some(i) =>
      var b := slots[i].value;
      if |b.data| <= b.readOffset then
        if b.finReceived then (slots[i := None], Ok(([], true))) else (slots, Err(WouldBlock))
      else
        var n := Min(|b.data| - b.readOffset, len);
        var out := b.data[b.readOffset..b.readOffset + n];
        var at := b.readOffset + n;
        if b.finReceived && at >= |b.data| then (slots[i := None], Ok((out, true)))
        else (slots[i := Some(b.(data := b.data[at..], readOffset := 0))], Ok((out, false)))
  }

  class StreamReceiver {
    const z: Limits
    var recvs: map<nat, Option<RecvState>>
    var slots: Slots

    function Value(): In
      reads this
    {
      In(recvs, slots)
    }

    constructor (z: Limits)
      ensures this.z == z && Value() == In(map[], [])
    {
      this.z := z;
      recvs, slots := map[], [];
    }

    method OnFrame(id: nat, offset: nat, data: Bytes, fin: bool, connOk: bool) returns (r: Outcome)
      modifies this
      ensures (Value(), r) == OnStreamFrame(old(Value()), id, offset, data, fin, connOk, z)
    {
      if id !in recvs {
        return Pass;
      }
      if recvs[id].None? {
        return Fail(InvalidState);
      }
      var (s, marked) := MarkRecv(recvs[id].value, offset, |data|, fin);
      recvs := recvs[id := Some(s)];
      if marked.Err? {
        return Fail(marked.error);
      }
      if !connOk {
        return Fail(FlowControlError);
      }
      StoreStreamData(id, offset, data, fin);
      return Pass;
    }

    method StoreStreamData(id: nat, offset: nat, data: Bytes, fin: bool)
      modifies this`slots
      ensures slots == Store(old(slots), id, offset, data, fin, z)
    {
      hide Opened, SlotOf;
      var target := OpenSlot(id);
      if target.Some? {
        Fill(target.value, offset, data, fin);
      }
    }

    /** Two scans, for the stream's own slot and for an empty one; the list grows if there is neither. */
    method OpenSlot(id: nat) returns (target: Option<nat>)
      modifies this`slots
      ensures slots == Opened(old(slots), id, z) && target == SlotOf(slots, id)
    {
      hide SlotOf, FirstEmpty;
      target := Scan(id);
      if target.None? {
        target := ScanEmpty();
        if target.None? && |slots| < z.maxStreams {
          target := Some(|slots|);
          slots := slots + [None];
        }
        if target.Some? {
          slots := slots[target.value := Some(RecvBuf(id, [], 0, false, 0))];
          SlotIs(slots, id, target.value);
        }
      }
    }

    /** Copy what is new of the frame into the buffer at `i`. */
    method Fill(i: nat, offset: nat, data: Bytes, fin: bool)
      requires i < |slots| && slots[i].Some?
      modifies this`slots
      ensures slots == old(slots)[i := Some(Filled(old(slots)[i].value, offset, data, fin, z))]
    {
      var b := slots[i].value;
      var end := offset + |data|;
      if offset > b.nextOffset {
        assert slots[i := Some(b)] == slots;
        return;
      }
      if end <= b.nextOffset {
        if fin {
          b := b.(finReceived := true);
        }
        slots := slots[i := Some(b)];
        return;
      }
      var more := data[b.nextOffset - offset..];
      var n := Min(|more|, SaturatingSub(z.streamBuf, |b.data|));
      b := b.(data := b.data + more[..n], nextOffset := b.nextOffset + n);
      if fin {
        b := b.(finReceived := true);
      }
      slots := slots[i := Some(b)];
    }

    method Scan(id: nat) returns (r: Option<nat>)
      ensures r == SlotOf(slots, id)
    {
      for i := 0 to |slots|
        invariant forall k :: 0 <= k < i ==> !Owns(slots[k], id)
      {
        if Owns(slots[i], id) {
          return Some(i);
        }
      }
      return None;
    }

    method ScanEmpty() returns (r: Option<nat>)
      ensures r == FirstEmpty(slots)
    {
      for i := 0 to |slots|
        invariant forall k :: 0 <= k < i ==> slots[k].Some?
      {
        if slots[i].None? {
          return Some(i);
        }
      }
      return None;
    }

    /** Read from a stream of a connection in `state`; a closed one has nothing to give. */
    method StreamRecv(state: SendPath.ConnState, id: nat, len: nat) returns (r: Result<(Bytes, bool)>)
      modifies this`slots
      ensures (slots, r) == if state.ConnClosed? then (old(slots), Err(Closed)) else Read(old(slots), id, len)
    {
      if state.ConnClosed? {
        return Err(Closed);
      }
      var found := Scan(id);
      if found.None? {
        return Err(WouldBlock);
      }
      var i := found.value;
      var b := slots[i].value;
      if |b.data| <= b.readOffset {
        if b.finReceived {
          slots := slots[i := None];
          return Ok(([], true));
        }
        return Err(WouldBlock);
      }
      var n := Min(|b.data| - b.readOffset, len);
      var out := b.data[b.readOffset..b.readOffset + n];
      var at := b.readOffset + n;
      var fin := b.finReceived && at >= |b.data|;
      slots := slots[i := if fin then None else Some(b.(data := b.data[at..], readOffset := 0))];
      return Ok((out, fin));
    }
  }

  // --------------------------------------------------------------------------------
  // What a reader of one stream sees
  // --------------------------------------------------------------------------------

  /** No stream has two buffers. */
  predicate Unique(slots: Slots) {
    forall i, j :: 0 <= i < j < |slots| && slots[i].Some? && slots[j].Some? ==> slots[i].value.streamId != slots[j].value.streamId
  }

  predicate PieceAt(a: Bytes, offset: nat, data: Bytes) {
    offset + |data| <= |a| && data == a[offset..offset + |data|]
  }

  /** What was read, followed by what is buffered, is the stream up to the next expected position. */
  predicate BufInv(b: RecvBuf, a: Bytes, read: Bytes, z: Limits) {
    && b.readOffset == 0 && |b.data| <= z.streamBuf
    && b.nextOffset <= |a| && read + b.data == a[..b.nextOffset]
  }

  /**
   Stream `id`, of which the peer has sent `a` so far and, if `closed`, all: `read` has been
   handed to the application, `fin` says whether its end was reported, `cut` whether the
   copy of the frame with FIN was cut short.
   */
  predicate ReaderInv(n: In, id: nat, a: Bytes, closed: bool, read: Bytes, fin: bool, cut: bool, z: Limits) {
    && Unique(n.slots)
    && (cut ==> id in n.recvs && n.recvs[id].Some? && Settled(n.recvs[id].value))
    && match SlotOf(n.slots, id)
       case Some(i) =>
         var b := n.slots[i].value;
         && !fin
         && BufInv(b, a, read, z)
         && (b.finReceived ==>
               && closed && id in n.recvs && n.recvs[id].Some? && Settled(n.recvs[id].value)
               && (b.nextOffset == |a| <==> !cut))
         && (!b.finReceived ==> !cut)
       case None =>
         if fin then
           && closed && id in n.recvs && n.recvs[id].Some? && Settled(n.recvs[id].value)
           && read <= a && (read == a <==> !cut)
         else read == [] && !cut
  }

  lemma SlotIs(slots: Slots, id: nat, i: nat)
    requires i < |slots| && Owns(slots[i], id) && forall k :: 0 <= k < i ==> !Owns(slots[k], id)
    ensures SlotOf(slots, id) == Some(i)
  {
  }

  lemma SlotNone(slots: Slots, id: nat)
    requires forall k :: 0 <= k < |slots| ==> !Owns(slots[k], id)
    ensures SlotOf(slots, id) == None
  {
  }

  /** Opening a buffer: the stream gets an empty one and the others keep theirs. */
  lemma OpenedSlots(slots: Slots, id: nat, z: Limits)
    requires Unique(slots)
    ensures var open := Opened(slots, id, z);
            && Unique(open)
            && (SlotOf(slots, id).Some? ==> open == slots)
            && (SlotOf(slots, id).None? && SlotOf(open, id).Some? ==>
                  open[SlotOf(open, id).value] == Some(RecvBuf(id, [], 0, false, 0)))
            && forall j :: j != id ==> SameSlot(slots, open, j)
  {
    var open := Opened(slots, id, z);
    hide SlotOf;
    forall j | j != id ensures SameSlot(slots, open, j) {
      OpenedOther(slots, id, z, j);
    }
  }

  /** The buffer of stream `j` is the same in both, wherever it is. */
  predicate SameSlot(slots: Slots, slots': Slots, j: nat) {
    match (SlotOf(slots, j), SlotOf(slots', j))
    case (Some(i), Some(k)) => slots[i] == slots'[k]
    case (None, None) => true
    case _ => false
  }

  lemma OpenedOther(slots: Slots, id: nat, z: Limits, j: nat)
    requires j != id
    ensures SameSlot(slots, Opened(slots, id, z), j)
  {
    var open := Opened(slots, id, z);
    if SlotOf(slots, j).Some? {
      SlotIs(open, j, SlotOf(slots, j).value);
    } else {
      SlotNone(open, j);
    }
  }

  /** Replacing a stream's own buffer, or freeing it. */
  lemma ReplacedSlot(slots: Slots, id: nat, v: Option<RecvBuf>)
    requires Unique(slots) && SlotOf(slots, id).Some? && (v.Some? ==> v.value.streamId == id)
    ensures var i := SlotOf(slots, id).value;
            var now := slots[i := v];
            && Unique(now)
            && (v.Some? ==> SlotOf(now, id) == Some(i))
            && (v.None? ==> SlotOf(now, id) == None)
  {
    var i := SlotOf(slots, id).value;
    var now := slots[i := v];
    if v.Some? {
      SlotIs(now, id, i);
    } else {
      forall k | 0 <= k < |now| ensures !Owns(now[k], id) {
        if k != i { assert slots[i].Some?; }
      }
      SlotNone(now, id);
    }
  }

  lemma ReplacedOther(slots: Slots, id: nat, v: Option<RecvBuf>, j: nat)
    requires SlotOf(slots, id).Some? && (v.Some? ==> v.value.streamId == id) && j != id
    ensures SameSlot(slots, slots[SlotOf(slots, id).value := v], j)
  {
    var now := slots[SlotOf(slots, id).value := v];
    if SlotOf(slots, j).Some? {
      SlotIs(now, j, SlotOf(slots, j).value);
    } else {
      SlotNone(now, j);
    }
  }

  /** Filling a buffer from an honest frame. */
  lemma FilledInv(b: RecvBuf, a: Bytes, read: Bytes, offset: nat, data: Bytes, fin: bool, z: Limits)
    requires BufInv(b, a, read, z) && PieceAt(a, offset, data)
    ensures var b' := Filled(b, offset, data, fin, z);
            && BufInv(b', a, read, z)
            && b'.streamId == b.streamId
            && (b'.finReceived <==> b.finReceived || (fin && offset <= b.nextOffset))
            && (fin && offset <= b.nextOffset && offset + |data| == |a| ==>
                  (b'.nextOffset == |a| <==> !CutsFin(b, offset, data, fin, z)))
  {
    if offset <= b.nextOffset < offset + |data| {
      var more := data[b.nextOffset - offset..];
      var n := Min(|more|, SaturatingSub(z.streamBuf, |b.data|));
      assert more[..n] == a[b.nextOffset..b.nextOffset + n];
      assert a[..b.nextOffset + n] == a[..b.nextOffset] + a[b.nextOffset..b.nextOffset + n];
      assert read + (b.data + more[..n]) == read + b.data + more[..n];
    }
  }

  /** Whether this frame, arriving now on its stream, is stored with its FIN cut off. */
  predicate Cuts(n: In, id: nat, offset: nat, data: Bytes, fin: bool, connOk: bool, z: Limits) {
    && id in n.recvs && n.recvs[id].Some?
    && MarkRecv(n.recvs[id].value, offset, |data|, fin).1.Ok? && connOk
    && var open := Opened(n.slots, id, z);
       SlotOf(open, id).Some? && CutsFin(open[SlotOf(open, id).value].value, offset, data, fin, z)
  }

  lemma MarkSettles(r: RecvState, offset: nat, len: nat, fin: bool)
    ensures var (r', m) := MarkRecv(r, offset, len, fin);
            && (Settled(r) ==> r' == r && m.Err?)
            && (m.Ok? && fin ==> Settled(r'))
            && (m.Err? ==> !Settled(r) ==> !Settled(r'))
  {
  }

  /** An honest frame of the stream arrives. */
  lemma FrameKeepsOwn(n: In, id: nat, a: Bytes, closed: bool, read: Bytes, done: bool, cut: bool,
                      offset: nat, data: Bytes, fin: bool, connOk: bool, z: Limits)
    requires ReaderInv(n, id, a, closed, read, done, cut, z)
    requires PieceAt(a, offset, data) && (fin ==> closed && offset + |data| == |a|)
    ensures var n' := OnStreamFrame(n, id, offset, data, fin, connOk, z).0;
            ReaderInv(n', id, a, closed, read, done, cut || Cuts(n, id, offset, data, fin, connOk, z), z)
  {
    hide SlotOf, Opened, Unique, BufInv, Filled;
    if id in n.recvs && n.recvs[id].Some? {
      MarkSettles(n.recvs[id].value, offset, |data|, fin);
      if MarkRecv(n.recvs[id].value, offset, |data|, fin).1.Ok? && connOk {
        StoreKeeps(n, id, a, closed, read, done, cut, offset, data, fin, connOk, z);
      }
    }
  }

  lemma StoreKeeps(n: In, id: nat, a: Bytes, closed: bool, read: Bytes, done: bool, cut: bool,
                   offset: nat, data: Bytes, fin: bool, connOk: bool, z: Limits)
    requires ReaderInv(n, id, a, closed, read, done, cut, z)
    requires PieceAt(a, offset, data) && (fin ==> closed && offset + |data| == |a|)
    requires id in n.recvs && n.recvs[id].Some? && !Settled(n.recvs[id].value)
    requires MarkRecv(n.recvs[id].value, offset, |data|, fin).1.Ok? && connOk
    ensures var n' := OnStreamFrame(n, id, offset, data, fin, connOk, z).0;
            ReaderInv(n', id, a, closed, read, done, cut || Cuts(n, id, offset, data, fin, connOk, z), z)
  {
    hide MarkRecv, Opened, SlotOf, Unique, BufInv, Filled;
    MarkSettles(n.recvs[id].value, offset, |data|, fin);
    OpenedSlots(n.slots, id, z);
    var open := Opened(n.slots, id, z);
    if SlotOf(open, id).Some? {
      var b := open[SlotOf(open, id).value].value;
      assert BufInv(b, a, read, z) by { FreshInv(id, a, z); }
      assert !b.finReceived && !cut && !done;
      FilledInv(b, a, read, offset, data, fin, z);
      ReplacedSlot(open, id, Some(Filled(b, offset, data, fin, z)));
    }
  }

  lemma FreshInv(id: nat, a: Bytes, z: Limits)
    ensures BufInv(RecvBuf(id, [], 0, false, 0), a, [], z)
  {
  }

  /** A frame of another stream arrives. */
  lemma FrameKeepsOther(n: In, id: nat, a: Bytes, closed: bool, read: Bytes, done: bool, cut: bool,
                        j: nat, offset: nat, data: Bytes, fin: bool, connOk: bool, z: Limits)
    requires ReaderInv(n, id, a, closed, read, done, cut, z) && j != id
    ensures ReaderInv(OnStreamFrame(n, j, offset, data, fin, connOk, z).0, id, a, closed, read, done, cut, z)
  {
    hide MarkRecv, SlotOf, Opened, Unique, BufInv, Filled;
    OpenedSlots(n.slots, j, z);
    var open := Opened(n.slots, j, z);
    assert SameSlot(n.slots, open, id);
    if SlotOf(open, j).Some? {
      var v := Some(Filled(open[SlotOf(open, j).value].value, offset, data, fin, z));
      FilledId(open[SlotOf(open, j).value].value, offset, data, fin, z);
      ReplacedSlot(open, j, v);
      ReplacedOther(open, j, v, id);
    }
  }

  lemma FilledId(b: RecvBuf, offset: nat, data: Bytes, fin: bool, z: Limits)
    ensures Filled(b, offset, data, fin, z).streamId == b.streamId
  {
  }

  /** The application reads from the stream. */
  lemma ReadKeepsOwn(n: In, id: nat, a: Bytes, closed: bool, read: Bytes, done: bool, cut: bool, len: nat, z: Limits)
    requires ReaderInv(n, id, a, closed, read, done, cut, z)
    ensures var (slots, r) := Read(n.slots, id, len);
            && (r.Ok? ==> !done && ReaderInv(n.(slots := slots), id, a, closed, read + r.value.0, r.value.1, cut, z))
            && (r.Err? ==> slots == n.slots)
  {
    hide SlotOf, Unique;
    if SlotOf(n.slots, id).Some? {
      var i := SlotOf(n.slots, id).value;
      var b := n.slots[i].value;
      var len' := Min(|b.data|, len);
      assert b.data[0..len'] + b.data[len'..] == b.data;
      assert read + b.data[0..len'] + b.data[len'..] == read + b.data;
      assert read + [] == read;
      ReplacedSlot(n.slots, id, None);
      ReplacedSlot(n.slots, id, Some(b.(data := b.data[len'..], readOffset := 0)));
    }
  }

  /** The application reads from another stream. */
  lemma ReadKeepsOther(n: In, id: nat, a: Bytes, closed: bool, read: Bytes, done: bool, cut: bool, j: nat, len: nat, z: Limits)
    requires ReaderInv(n, id, a, closed, read, done, cut, z) && j != id
    ensures ReaderInv(n.(slots := Read(n.slots, j, len).0), id, a, closed, read, done, cut, z)
  {
    hide SlotOf, Unique, BufInv;
    if SlotOf(n.slots, j).Some? {
      var b := n.slots[SlotOf(n.slots, j).value].value;
      var at := b.readOffset + Min(|b.data| - b.readOffset, len);
      ReplacedSlot(n.slots, j, None);
      ReplacedOther(n.slots, j, None, id);
      if |b.data| > b.readOffset {
        var v := Some(b.(data := b.data[at..], readOffset := 0));
        ReplacedSlot(n.slots, j, v);
        ReplacedOther(n.slots, j, v, id);
      }
    }
  }

  /** The peer accepts more for the stream, and perhaps its end. */
  lemma GrowthKeeps(n: In, id: nat, a: Bytes, closed: bool, read: Bytes, done: bool, cut: bool, more: Bytes, z: Limits)
    requires ReaderInv(n, id, a, false, read, done, cut, z)
    ensures ReaderInv(n, id, a + more, closed, read, done, cut, z)
  {
    hide SlotOf, Unique;
    if SlotOf(n.slots, id).Some? {
      var b := n.slots[SlotOf(n.slots, id).value].value;
      assert (a + more)[..b.nextOffset] == a[..b.nextOffset];
    }
  }

  // --------------------------------------------------------------------------------
  // What is stored and what is read, exactly
  // --------------------------------------------------------------------------------

  /** What the checks of a stream admit: not settled, consistent with a known final size, within the window. */
  predicate Admits(r: RecvState, offset: nat, len: nat, fin: bool) {
    (r.state.Recv? || r.state.SizeKnown?) && SizeAgrees(r, offset, len, fin) && offset + len <= r.maxData
  }

  /** The frame does not contradict a final size already known. */
  predicate SizeAgrees(r: RecvState, offset: nat, len: nat, fin: bool) {
    r.finOffset.Some? ==> offset + len <= r.finOffset.value && (fin ==> offset + len == r.finOffset.value)
  }

  /**
   `mark_recv` passes exactly what it admits, charges what lies beyond the highest byte so far,
   settles the stream once that byte is the last one, and raises the next limit once less than
   half of the initial window is left. What it refuses it does not count.
   */
  lemma MarkExactly(r: RecvState, offset: nat, len: nat, fin: bool)
    ensures var (r', m) := MarkRecv(r, offset, len, fin);
            && (m.Ok? <==> Admits(r, offset, len, fin))
            && (m.Ok? ==>
                  && r'.offset == r.offset + m.value && r'.offset == Max(r.offset, offset + len)
                  && r'.finOffset == (if fin then Some(offset + len) else r.finOffset)
                  && (Settled(r') <==> r'.finOffset.Some? && r'.finOffset.value <= r'.offset)
                  && r'.maxDataNext == if 2 * (SaturatingSub(r.maxData, r'.offset) + 1) <= r.initialWindow
                                       then r'.offset + r.initialWindow else r.maxDataNext)
            && r'.maxData == r.maxData && r'.initialWindow == r.initialWindow
            && (m.Err? ==> r'.offset == r.offset && r'.maxDataNext == r.maxDataNext
                           && m.error == if Settled(r) then StreamStateError
                                         else if !SizeAgrees(r, offset, len, fin) then FinalSizeError else FlowControlError)
  {
  }

  /**
   A frame with FIN that is admitted settles the stream at once, even if it overtook earlier
   data: from then on every frame of the stream is refused.
   */
  lemma FinSettles(r: RecvState, offset: nat, len: nat, later: nat, laterLen: nat, laterFin: bool)
    requires Admits(r, offset, len, true)
    ensures MarkRecv(MarkRecv(r, offset, len, true).0, later, laterLen, laterFin).1 == Err(StreamStateError)
  {
    MarkExactly(r, offset, len, true);
  }

  /** Bytes 2 and 3 with FIN, then bytes 0 and 1: the second frame is refused. */
  lemma FinOvertakes()
    ensures var start := RecvState(Recv, 0, 100, 100, 100, None);
            var (r, m) := MarkRecv(start, 2, 2, true);
            m.Ok? && MarkRecv(r, 0, 2, false).1 == Err(StreamStateError)
  {
  }

  /** What the stream has ready for the application. */
  function Buffered(slots: Slots, id: nat): Bytes {
    match SlotOf(slots, id)
    case None => []
    case Some(i) => if slots[i].value.readOffset <= |slots[i].value.data| then slots[i].value.data[slots[i].value.readOffset..] else []
  }

  /** The stream has a buffer or there is place for one. */
  predicate HasPlace(slots: Slots, id: nat, z: Limits) {
    || (exists i :: 0 <= i < |slots| && (slots[i].Some? ==> slots[i].value.streamId == id))
    || |slots| < z.maxStreams
  }

  /** The frame reaches the buffers. */
  predicate Reaches(n: In, id: nat, offset: nat, len: nat, fin: bool, connOk: bool, z: Limits) {
    && id in n.recvs && n.recvs[id].Some? && Admits(n.recvs[id].value, offset, len, fin)
    && connOk && HasPlace(n.slots, id, z)
  }

  /** How many bytes a buffer takes from a frame, FIN or not: those from the next expected one on, as far as there is room. */
  lemma FilledExactly(b: RecvBuf, offset: nat, data: Bytes, fin: bool, z: Limits)
    requires |b.data| <= z.streamBuf
    ensures var b' := Filled(b, offset, data, fin, z);
            if offset > b.nextOffset then b' == b
            else
              && b'.nextOffset == Max(b.nextOffset, Min(offset + |data|, b.nextOffset + z.streamBuf - |b.data|))
              && (b'.nextOffset == b.nextOffset ==> b'.data == b.data)
              && (b'.nextOffset > b.nextOffset ==> b'.data == b.data + data[b.nextOffset - offset..b'.nextOffset - offset])
              && (b'.finReceived <==> b.finReceived || fin)
  {
    if offset <= b.nextOffset < offset + |data| {
      var at := b.nextOffset - offset;
      var n := Min(|data| - at, z.streamBuf - |b.data|);
      assert data[at..][..n] == data[at..at + n];
      assert b.data + [] == b.data;
    }
  }

  lemma PlaceOpens(slots: Slots, id: nat, z: Limits)
    ensures SlotOf(Opened(slots, id, z), id).Some? <==> HasPlace(slots, id, z)
  {
    var open := Opened(slots, id, z);
    if SlotOf(slots, id).None? {
      if FirstEmpty(slots).Some? {
        SlotIs(open, id, FirstEmpty(slots).value);
      } else if |slots| < z.maxStreams {
        SlotIs(open, id, |slots|);
      }
    }
  }

  /**
   What an honest frame adds to what the stream has ready. `at` is where the stream stands:
   the bytes read and those ready. A frame that reaches the buffers and leaves no gap moves it
   to its own end, as far as the buffer has room; any other frame leaves it.
   */
  lemma FrameStores(n: In, id: nat, a: Bytes, closed: bool, read: Bytes, done: bool, cut: bool,
                    offset: nat, data: Bytes, fin: bool, connOk: bool, z: Limits)
    requires ReaderInv(n, id, a, closed, read, done, cut, z)
    requires PieceAt(a, offset, data)
    ensures var before, after := |Buffered(n.slots, id)|, |Buffered(OnStreamFrame(n, id, offset, data, fin, connOk, z).0.slots, id)|;
            var at := |read| + before;
            && before <= z.streamBuf
            && |read| + after == if Reaches(n, id, offset, |data|, fin, connOk, z) && offset <= at
                                 then Max(at, Min(offset + |data|, at + z.streamBuf - before)) else at
  {
    hide SlotOf, Opened, Unique, Filled, MarkRecv, Admits, HasPlace;
    if id in n.recvs && n.recvs[id].Some? {
      MarkExactly(n.recvs[id].value, offset, |data|, fin);
      if Admits(n.recvs[id].value, offset, |data|, fin) && connOk {
        NotDone(n, id, a, closed, read, done, cut, offset, data, fin, z);
        StoreAdds(n, id, a, closed, read, cut, offset, data, fin, z);
        assert OnStreamFrame(n, id, offset, data, fin, connOk, z).0.slots == Store(n.slots, id, offset, data, fin, z);
      } else {
        Refused(n, id, offset, data, fin, connOk, z);
        assert |Buffered(n.slots, id)| <= z.streamBuf;
      }
    }
  }

  lemma Refused(n: In, id: nat, offset: nat, data: Bytes, fin: bool, connOk: bool, z: Limits)
    requires id in n.recvs && n.recvs[id].Some? && !(Admits(n.recvs[id].value, offset, |data|, fin) && connOk)
    ensures OnStreamFrame(n, id, offset, data, fin, connOk, z).0.slots == n.slots
  {
    MarkExactly(n.recvs[id].value, offset, |data|, fin);
  }

  lemma StoreAdds(n: In, id: nat, a: Bytes, closed: bool, read: Bytes, cut: bool, offset: nat, data: Bytes, fin: bool, z: Limits)
    requires ReaderInv(n, id, a, closed, read, false, cut, z) && PieceAt(a, offset, data)
    ensures var before, after := |Buffered(n.slots, id)|, |Buffered(Store(n.slots, id, offset, data, fin, z), id)|;
            var at := |read| + before;
            && before <= z.streamBuf
            && |read| + after == if HasPlace(n.slots, id, z) && offset <= at
                                 then Max(at, Min(offset + |data|, at + z.streamBuf - before)) else at
  {
    hide SlotOf, Opened, Unique, Filled, HasPlace;
    PlaceOpens(n.slots, id, z);
    OpenedSlots(n.slots, id, z);
    var open := Opened(n.slots, id, z);
    if SlotOf(open, id).Some? {
      var b := open[SlotOf(open, id).value].value;
      assert BufInv(b, a, read, z) by { FreshInv(id, a, z); }
      assert |Buffered(n.slots, id)| == |b.data| && |read| + |b.data| == b.nextOffset;
      var b' := Filled(b, offset, data, fin, z);
      FilledExactly(b, offset, data, fin, z);
      FilledInv(b, a, read, offset, data, fin, z);
      ReplacedSlot(open, id, Some(b'));
      assert |read| + |b'.data| == b'.nextOffset;
    }
  }

  lemma NotDone(n: In, id: nat, a: Bytes, closed: bool, read: Bytes, done: bool, cut: bool,
                offset: nat, data: Bytes, fin: bool, z: Limits)
    requires ReaderInv(n, id, a, closed, read, done, cut, z) && id in n.recvs && n.recvs[id].Some?
    requires Admits(n.recvs[id].value, offset, |data|, fin)
    ensures !done
  {
    hide SlotOf, Unique, BufInv;
  }

  /** A frame of another stream changes nothing of it. */
  lemma FrameStoresOther(n: In, id: nat, j: nat, offset: nat, data: Bytes, fin: bool, connOk: bool, z: Limits)
    requires j != id && Unique(n.slots)
    ensures Buffered(OnStreamFrame(n, j, offset, data, fin, connOk, z).0.slots, id) == Buffered(n.slots, id)
  {
    hide MarkRecv, SlotOf, Opened, Unique, Filled;
    OpenedSlots(n.slots, j, z);
    var open := Opened(n.slots, j, z);
    assert SameSlot(n.slots, open, id);
    if SlotOf(open, j).Some? {
      var v := Some(Filled(open[SlotOf(open, j).value].value, offset, data, fin, z));
      FilledId(open[SlotOf(open, j).value].value, offset, data, fin, z);
      ReplacedOther(open, j, v, id);
    }
  }

  /** The stream has an end to report once everything ready is read. */
  predicate EndReady(slots: Slots, id: nat) {
    exists i :: 0 <= i < |slots| && Owns(slots[i], id) && slots[i].value.finReceived
  }

  /**
   What a read returns: the front of what is ready, as much as the caller has room for, and the
   end with the last of it. It blocks exactly when nothing is ready and no end is due.
   */
  lemma ReadExactly(slots: Slots, id: nat, len: nat)
    requires Unique(slots)
    ensures var ready := Buffered(slots, id);
            var n := Min(|ready|, len);
            var (slots', r) := Read(slots, id, len);
            && (r.Err? <==> ready == [] && !EndReady(slots, id))
            && (r.Err? ==> r.error == WouldBlock && slots' == slots)
            && (r.Ok? ==> r.value.0 == ready[..n] && (r.value.1 <==> EndReady(slots, id) && n == |ready|))
            && Buffered(slots', id) == ready[n..]
            && forall j :: j != id ==> Buffered(slots', j) == Buffered(slots, j)
  {
    hide SlotOf, Unique, EndReady;
    OwnSlot(slots, id);
    forall j | j != id ensures Buffered(Read(slots, id, len).0, j) == Buffered(slots, j) {
      ReadOther(slots, id, len, j);
    }
    if SlotOf(slots, id).Some? {
      ReadOwn(slots, id, len);
    }
  }

  /** A read that reports the end gives the stream's slot free; any other read leaves every slot with its stream. */
  lemma ReadFrees(slots: Slots, id: nat, len: nat)
    requires Unique(slots)
    ensures var (slots', r) := Read(slots, id, len);
            && |slots'| == |slots|
            && forall i, j :: 0 <= i < |slots| ==>
                 (Owns(slots'[i], j) <==> Owns(slots[i], j) && !(j == id && r.Ok? && r.value.1))
  {
    hide Buffered;
  }

  lemma ReadOwn(slots: Slots, id: nat, len: nat)
    requires Unique(slots) && SlotOf(slots, id).Some?
    ensures var b := slots[SlotOf(slots, id).value].value;
            var ready := Buffered(slots, id);
            var n := Min(|ready|, len);
            var (slots', r) := Read(slots, id, len);
            && (r.Err? <==> ready == [] && !b.finReceived)
            && (r.Err? ==> r.error == WouldBlock && slots' == slots)
            && (r.Ok? ==> r.value.0 == ready[..n] && (r.value.1 <==> b.finReceived && n == |ready|))
            && Buffered(slots', id) == ready[n..]
  {
    hide SlotOf, Unique;
    var i := SlotOf(slots, id).value;
    var b := slots[i].value;
    ReplacedSlot(slots, id, None);
    if |b.data| > b.readOffset {
      var at := b.readOffset + Min(|b.data| - b.readOffset, len);
      var left := b.(data := b.data[at..], readOffset := 0);
      ReplacedSlot(slots, id, Some(left));
      CutAt(b.data, b.readOffset, at);
      assert left.data[0..] == left.data;
      if b.finReceived && at == |b.data| {
        assert Read(slots, id, len) == (slots[i := None], Ok((b.data[b.readOffset..at], true)));
      } else {
        assert Read(slots, id, len) == (slots[i := Some(left)], Ok((b.data[b.readOffset..at], false)));
      }
    }
  }

  lemma CutAt(data: Bytes, from: nat, at: nat)
    requires from <= at <= |data|
    ensures data[from..][at - from..] == data[at..] && data[from..][..at - from] == data[from..at]
  {
  }

  lemma ReadOther(slots: Slots, id: nat, len: nat, j: nat)
    requires Unique(slots) && j != id
    ensures Buffered(Read(slots, id, len).0, j) == Buffered(slots, j)
  {
    hide SlotOf, Unique, Buffered, SameSlot;
    if SlotOf(slots, id).Some? {
      var i := SlotOf(slots, id).value;
      var b := slots[i].value;
      ReplacedOther(slots, id, None, j);
      SameBuffered(slots, slots[i := None], j);
      if |b.data| > b.readOffset {
        var at := b.readOffset + Min(|b.data| - b.readOffset, len);
        var v := Some(b.(data := b.data[at..], readOffset := 0));
        ReplacedOther(slots, id, v, j);
        SameBuffered(slots, slots[i := v], j);
      }
    }
  }

  lemma SameBuffered(slots: Slots, slots': Slots, j: nat)
    requires SameSlot(slots, slots', j)
    ensures Buffered(slots', j) == Buffered(slots, j)
  {
    hide SlotOf;
  }

  lemma OwnSlot(slots: Slots, id: nat)
    requires Unique(slots)
    ensures EndReady(slots, id) <==> SlotOf(slots, id).Some? && slots[SlotOf(slots, id).value].value.finReceived
  {
  }
}
