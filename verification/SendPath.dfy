/**
 The sending half of the STREAM data path: the bounded send queue with tail coalescing and
 deferred FIN, and the frames built from it.
 */
module SendPath {
  import opened Bytes
  import opened Varint
  import opened FrameCodec

  datatype ConnState = Handshaking | Active | Draining | Closing | ConnClosed

  datatype SendStreamState = Ready | Sending | DataSent | ResetSent | DataRecvd | ResetRecvd

  datatype SendState = SendState(state: SendStreamState, offset: nat, finSent: bool, maxData: nat, blocked: bool)

  /** One entry of the send queue: the filled part of its fixed buffer. */
  datatype Entry = Entry(streamId: nat, offset: nat, data: Bytes, fin: bool)

  /** Sizes fixed at compile time: bytes per entry and entries per queue. */
  datatype Sizes = Sizes(streamBuf: nat, sendQueue: nat)

  /** Everything `stream_send` reads or writes. `sends` has the streams with a sending half. */
  datatype Out = Out(state: ConnState, sends: map<nat, SendState>, queue: seq<Entry>)

  predicate Fits(q: seq<Entry>, z: Sizes) {
    |q| <= z.sendQueue && forall i :: 0 <= i < |q| ==> |q[i].data| <= z.streamBuf
  }

  /** The last entry belongs to the stream and does not end it. */
  predicate Coalesces(q: seq<Entry>, id: nat) {
    q != [] && q[|q| - 1].streamId == id && !q[|q| - 1].fin
  }

  function TailRoom(q: seq<Entry>, id: nat, z: Sizes): nat
    requires Fits(q, z)
  {
    if Coalesces(q, id) then z.streamBuf - |q[|q| - 1].data| else 0
  }

  /** Bytes that `free` empty entries hold. */
  function EntryRoom(free: nat, size: nat): nat { free * size }

  /** Free bytes in the queue for one stream. */
  function QueueRoom(q: seq<Entry>, id: nat, z: Sizes): nat
    requires Fits(q, z)
  {
    TailRoom(q, id, z) + EntryRoom(z.sendQueue - |q|, z.streamBuf)
  }

  function Capacity(o: Out, id: nat, z: Sizes): nat
    requires Fits(o.queue, z)
  {
    if o.state.ConnClosed? || o.state.Draining? || id !in o.sends then 0
    else Min(SaturatingSub(o.sends[id].maxData, o.sends[id].offset), QueueRoom(o.queue, id, z))
  }

  /** `StreamMap::mark_send` on the sending half of a stream. */
  function MarkSend(s: SendState, len: nat, fin: bool): (SendState, Outcome) {
    if !s.state.Ready? && !s.state.Sending? then (s, Fail(StreamStateError))
    else if s.offset + len > s.maxData then (s.(blocked := true), Fail(FlowControlError))
    else (s.(offset := s.offset + len, state := if fin then DataSent else Sending, finSent := s.finSent || fin), Pass)
  }

  /** Fresh entries for data that no tail entry takes. */
  function Spill(id: nat, offset: nat, data: Bytes, fin: bool, size: nat): (es: seq<Entry>)
    requires size > 0
    decreases |data|
  {
    if |data| <= size then [Entry(id, offset, data, fin)]
    else [Entry(id, offset, data[..size], false)] + Spill(id, offset + size, data[size..], fin, size)
  }

  /** The queue once `data` has been accepted at `offset`. */
  function Enqueue(q: seq<Entry>, id: nat, offset: nat, data: Bytes, fin: bool, size: nat): seq<Entry>
    requires forall i :: 0 <= i < |q| ==> |q[i].data| <= size
    requires size > 0 || data == []
  {
    if Coalesces(q, id) then
      var n := |q| - 1;
      var room := Min(size - |q[n].data|, |data|);
      var tail := q[n].(data := q[n].data + data[..room], fin := fin && room == |data|);
      q[..n] + [tail] + (if room < |data| then Spill(id, offset + room, data[room..], fin, size) else [])
    else if data == [] then (if fin then q + [Entry(id, offset, [], true)] else q)
    else q + Spill(id, offset, data, fin, size)
  }

  /** `Connection::stream_send`. */
  function Send(o: Out, id: nat, data: Bytes, fin: bool, z: Sizes): (Out, Result<nat>)
    requires Fits(o.queue, z)
  {
    if o.state.ConnClosed? || o.state.Draining? then (o, Err(Closed))
    else if id !in o.sends then (o, Err(InvalidState))
    else
      var n := Min(|data|, Capacity(o, id, z));
      var last := fin && n == |data|;
      if n == 0 && !last then (o, Ok(0))
      else if n == 0 && !Coalesces(o.queue, id) && |o.queue| >= z.sendQueue then (o, Err(BufferTooSmall(z.sendQueue + 1)))
      else
        var (s, marked) := MarkSend(o.sends[id], n, last);
        var o' := o.(sends := o.sends[id := s]);
        if marked.Fail? then (o', Err(marked.error))
        else
          RoomMeansSize(o, id, z);
          (o'.(queue := Enqueue(o.queue, id, o.sends[id].offset, data[..n], last, z.streamBuf)), Ok(n))
  }

  lemma RoomMeansSize(o: Out, id: nat, z: Sizes)
    requires Fits(o.queue, z)
    ensures Capacity(o, id, z) > 0 ==> z.streamBuf > 0
  {
    if z.streamBuf == 0 { assert EntryRoom(z.sendQueue - |o.queue|, z.streamBuf) == 0; }
  }

  class StreamSender {
    const z: Sizes
    var state: ConnState
    var sends: map<nat, SendState>
    var queue: seq<Entry>

    function Value(): Out
      reads this
    {
      Out(state, sends, queue)
    }

    constructor (z: Sizes)
      ensures this.z == z && Value() == Out(Handshaking, map[], [])
    {
      this.z := z;
      state, sends, queue := Handshaking, map[], [];
    }

    /**
     Accept as much of `data` as fits, coalescing into the tail entry and spilling the rest
     into fresh ones. Every push finds a free entry.
     */
    method StreamSend(id: nat, data: Bytes, fin: bool) returns (r: Result<nat>)
      requires Fits(queue, z)
      modifies this
      ensures (Value(), r) == Send(old(Value()), id, data, fin, z)
      ensures Fits(queue, z)
    {
      if state.ConnClosed? || state.Draining? {
        return Err(Closed);
      }
      if id !in sends {
        return Err(InvalidState);
      }
      var offset := sends[id].offset;
      var n := Min(|data|, Capacity(Value(), id, z));
      var last := fin && n == |data|;
      if n == 0 && !last {
        return Ok(0);
      }
      var coalesce := Coalesces(queue, id);
      if n == 0 && !coalesce && |queue| >= z.sendQueue {
        return Err(BufferTooSmall(z.sendQueue + 1));
      }
      RoomMeansSize(Value(), id, z);
      var (s, marked) := MarkSend(sends[id], n, last);
      sends := sends[id := s];
      if marked.Fail? {
        return Err(marked.error);
      }
      PushAll(id, offset, data[..n], last);
      return Ok(n);
    }

    /** The queue part of `stream_send`, once the stream map has recorded the bytes. */
    method PushAll(id: nat, start: nat, data: Bytes, fin: bool)
      requires Fits(queue, z) && |data| <= QueueRoom(queue, id, z)
      requires data != [] || fin
      requires data == [] ==> Coalesces(queue, id) || |queue| < z.sendQueue
      requires z.streamBuf > 0 || data == []
      modifies this`queue
      ensures queue == Enqueue(old(queue), id, start, data, fin, z.streamBuf)
      ensures Fits(queue, z)
    {
      var written: nat := 0;
      var coalesce := Coalesces(queue, id);
      if coalesce {
        var k := |queue| - 1;
        var tail := queue[k];
        written := Min(z.streamBuf - |tail.data|, |data|);
        queue := queue[k := tail.(data := tail.data + data[..written], fin := fin && written == |data|)];
        assert queue == old(queue)[..k] + [queue[k]];
      }
      if written < |data| {
        SpillRoom(old(queue), queue, id, data, written);
        assert !coalesce ==> data[written..] == data;
        SpillAll(id, start + written, data[written..], fin);
      } else if data == [] && !coalesce {
        queue := Pushed(queue, Entry(id, start, [], fin));
      } else {
        assert queue + [] == queue;
      }
    }

    /** The loop that spills data into fresh entries. */
    method SpillAll(id: nat, start: nat, data: Bytes, fin: bool)
      requires Fits(queue, z) && z.streamBuf > 0
      requires data != [] && |data| <= EntryRoom(z.sendQueue - |queue|, z.streamBuf)
      modifies this`queue
      ensures queue == old(queue) + Spill(id, start, data, fin, z.streamBuf)
      ensures Fits(queue, z)
    {
      hide EntryRoom, Spill;
      var written: nat, offset: nat := 0, start;
      ghost var goal := queue + Spill(id, offset, data, fin, z.streamBuf);
      assert Unspilled(id, offset, data, 0, fin, z.streamBuf) == Spill(id, offset, data, fin, z.streamBuf) by {
        assert data[0..] == data;
      }
      hide Unspilled;
      while written < |data|
        invariant 0 <= written <= |data|
        invariant Fits(queue, z)
        invariant |data| - written <= EntryRoom(z.sendQueue - |queue|, z.streamBuf)
        invariant goal == queue + Unspilled(id, offset, data, written, fin, z.streamBuf)
      {
        var chunk := Min(|data| - written, z.streamBuf);
        var entry := Entry(id, offset, data[written..written + chunk], fin && written + chunk == |data|);
        OneFewer(|data| - written, z.sendQueue - |queue|, z.streamBuf);
        SpillStep(id, offset, data, written, fin, z.streamBuf);
        queue := Pushed(queue, entry);
        written, offset := written + chunk, offset + chunk;
      }
      AllSpilled(id, offset, data, fin, z.streamBuf);
    }

    /** `let _ = send_queue.push(entry)`: on a full queue the entry would be dropped. */
    function Pushed(q: seq<Entry>, e: Entry): seq<Entry> {
      if |q| < z.sendQueue then q + [e] else q
    }

    /** What does not go into the tail entry fits the free entries. */
    lemma SpillRoom(q: seq<Entry>, q': seq<Entry>, id: nat, data: Bytes, written: nat)
      requires Fits(q, z) && |q'| == |q| && |data| <= QueueRoom(q, id, z)
      requires written == if Coalesces(q, id) then Min(z.streamBuf - |q[|q| - 1].data|, |data|) else 0
      ensures |data| - written <= EntryRoom(z.sendQueue - |q'|, z.streamBuf)
    {
      hide EntryRoom;
    }
  }

  /** If some bytes are left and they fit `free` entries, there is an entry, and the rest fits one entry fewer. */
  lemma OneFewer(left: nat, free: nat, size: nat)
    requires 0 < left <= EntryRoom(free, size)
    ensures free > 0 && left - Min(left, size) <= EntryRoom(free - 1, size)
  {
    assert free * size == (free - 1) * size + size;
    if free > 0 && left < size { assert (free - 1) * size >= 0; }
  }

  /** The entries still to come once `w` bytes are written. */
  function Unspilled(id: nat, offset: nat, data: Bytes, w: nat, fin: bool, size: nat): seq<Entry>
    requires size > 0 && w <= |data|
  {
    if w < |data| then Spill(id, offset, data[w..], fin, size) else []
  }

  lemma SpillStep(id: nat, offset: nat, data: Bytes, w: nat, fin: bool, size: nat)
    requires size > 0 && w < |data|
    ensures var chunk := Min(|data| - w, size);
            Unspilled(id, offset, data, w, fin, size)
            == [Entry(id, offset, data[w..w + chunk], fin && w + chunk == |data|)]
               + Unspilled(id, offset + chunk, data, w + chunk, fin, size)
  {
    var chunk := Min(|data| - w, size);
    assert data[w..][..chunk] == data[w..w + chunk];
    assert data[w..][chunk..] == data[w + chunk..];
    if w + chunk == |data| { assert data[w..] == data[w..w + chunk]; }
  }

  lemma AllSpilled(id: nat, offset: nat, data: Bytes, fin: bool, size: nat)
    requires size > 0
    ensures Unspilled(id, offset, data, |data|, fin, size) == []
  {
  }

  // --------------------------------------------------------------------------------
  // Room and order
  // --------------------------------------------------------------------------------

  /** Spilling fills entries completely, one after the other, and ends with the only one that may carry FIN. */
  lemma {:induction false} SpillShape(id: nat, offset: nat, data: Bytes, fin: bool, size: nat, free: nat)
    requires size > 0 && data != [] && |data| <= EntryRoom(free, size)
    ensures var es := Spill(id, offset, data, fin, size);
            && 0 < |es| <= free
            && (forall i :: 0 <= i < |es| ==> es[i].streamId == id && 0 < |es[i].data| <= size)
            && (forall i :: 0 <= i < |es| - 1 ==> !es[i].fin)
            && es[|es| - 1].fin == fin
            && EntryRoom(free - |es|, size) + size - |es[|es| - 1].data| == EntryRoom(free, size) - |data|
    decreases |data|
  {
    OneFewer(|data|, free, size);
    assert EntryRoom(free, size) == EntryRoom(free - 1, size) + size;
    if |data| > size {
      SpillShape(id, offset + size, data[size..], fin, size, free - 1);
    }
  }

  /** How many fresh entries `n` bytes take. */
  function Entries(n: nat, size: nat): (k: nat)
    requires size > 0
    ensures k > 0 && n <= EntryRoom(k, size) && (n > 0 ==> EntryRoom(k - 1, size) < n)
    decreases n
  {
    if n <= size then 1
    else
      var k := Entries(n - size, size);
      MoreRoom(k, size);
      MoreRoom(k - 1, size);
      k + 1
  }

  lemma MoreRoom(k: nat, size: nat)
    ensures EntryRoom(k + 1, size) == EntryRoom(k, size) + size
  {
  }

  lemma {:induction false} SpillCount(id: nat, offset: nat, data: Bytes, fin: bool, size: nat)
    requires size > 0
    ensures |Spill(id, offset, data, fin, size)| == Entries(|data|, size)
    decreases |data|
  {
    if |data| > size {
      SpillCount(id, offset + size, data[size..], fin, size);
    }
  }

  /** How many fresh entries the queue needs to take `n` bytes and a FIN. */
  function FinEntries(q: seq<Entry>, id: nat, n: nat, z: Sizes): nat
    requires Fits(q, z) && (z.streamBuf > 0 || n == 0)
  {
    if Coalesces(q, id) && n <= TailRoom(q, id, z) then 0
    else if n == 0 then 1
    else Entries(n - TailRoom(q, id, z), z.streamBuf)
  }

  /**
   Accepting `data` never takes more entries than there are. Without FIN it uses up exactly
   its length; with FIN the rest of the last entry is closed too, and what is left are the
   entries still free.
   */
  lemma EnqueueRoom(q: seq<Entry>, id: nat, offset: nat, data: Bytes, fin: bool, z: Sizes)
    requires Fits(q, z) && |data| <= QueueRoom(q, id, z)
    requires data == [] ==> fin && (Coalesces(q, id) || |q| < z.sendQueue)
    requires z.streamBuf > 0 || data == []
    ensures var q' := Enqueue(q, id, offset, data, fin, z.streamBuf);
            && Fits(q', z)
            && q' != [] && q'[|q'| - 1].streamId == id && q'[|q'| - 1].fin == fin
            && |q'| == |q| + FinEntries(q, id, |data|, z)
            && QueueRoom(q', id, z) ==
               if fin then EntryRoom(z.sendQueue - |q'|, z.streamBuf) else QueueRoom(q, id, z) - |data|
  {
    hide EntryRoom, Spill, Entries;
    if Coalesces(q, id) {
      var n := |q| - 1;
      var room := Min(z.streamBuf - |q[n].data|, |data|);
      var q1 := q[..n] + [q[n].(data := q[n].data + data[..room], fin := fin && room == |data|)];
      assert Fits(q1, z) && |q1| == |q|;
      if room < |data| {
        SpillAfter(q1, id, offset + room, data[room..], fin, z);
      } else {
        assert q1 + [] == q1;
      }
    } else if data != [] {
      SpillAfter(q, id, offset, data, fin, z);
    }
  }

  lemma SpillAfter(q: seq<Entry>, id: nat, offset: nat, data: Bytes, fin: bool, z: Sizes)
    requires Fits(q, z) && data != [] && |data| <= EntryRoom(z.sendQueue - |q|, z.streamBuf) && z.streamBuf > 0
    ensures var q' := q + Spill(id, offset, data, fin, z.streamBuf);
            && Fits(q', z)
            && q' != [] && q'[|q'| - 1].streamId == id && q'[|q'| - 1].fin == fin
            && |q'| == |q| + Entries(|data|, z.streamBuf)
            && QueueRoom(q', id, z) ==
               if fin then EntryRoom(z.sendQueue - |q'|, z.streamBuf) else EntryRoom(z.sendQueue - |q|, z.streamBuf) - |data|
  {
    hide EntryRoom, Spill, Entries;
    SpillShape(id, offset, data, fin, z.streamBuf, z.sendQueue - |q|);
    SpillCount(id, offset, data, fin, z.streamBuf);
    ShapeKept(q, Spill(id, offset, data, fin, z.streamBuf), z, id);
  }

  lemma ShapeKept(q: seq<Entry>, es: seq<Entry>, z: Sizes, id: nat)
    requires Fits(q, z) && |q| + |es| <= z.sendQueue && es != []
    requires forall i :: 0 <= i < |es| ==> |es[i].data| <= z.streamBuf
    ensures Fits(q + es, z) && (q + es)[|q + es| - 1] == es[|es| - 1]
  {
  }

  /** The queue room left for a stream that has taken `n` more bytes and its FIN: whole free entries only. */
  function RoomAfterFin(q: seq<Entry>, id: nat, n: nat, z: Sizes): nat
    requires Fits(q, z) && (z.streamBuf > 0 || n == 0)
  {
    EntryRoom(SaturatingSub(z.sendQueue - |q|, FinEntries(q, id, n, z)), z.streamBuf)
  }

  /**
   `stream_send` takes as much as the capacity announced. Without an accepted FIN the capacity
   drops by exactly that much; with one, to what the window and whole free entries leave.
   */
  lemma SendTakesCapacity(o: Out, id: nat, data: Bytes, fin: bool, z: Sizes)
    requires Fits(o.queue, z)
    ensures var (o', r) := Send(o, id, data, fin, z);
            && Fits(o'.queue, z) && o'.state == o.state
            && (r.Err? ==> o'.queue == o.queue)
            && (r.Ok? ==>
                  var n, window := r.value, SaturatingSub(o'.sends[id].maxData, o'.sends[id].offset);
                  && n == Min(|data|, Capacity(o, id, z))
                  && (z.streamBuf > 0 || n == 0)
                  && (if fin && n == |data| then
                        && Capacity(o', id, z) == Min(window, RoomAfterFin(o.queue, id, n, z))
                        && (Capacity(o', id, z) == Capacity(o, id, z) - n <==>
                            Min(window, QueueRoom(o.queue, id, z) - n) <= RoomAfterFin(o.queue, id, n, z))
                      else Capacity(o', id, z) == Capacity(o, id, z) - n))
  {
    hide QueueRoom, Enqueue, EntryRoom, FinEntries, Entries;
    RoomMeansSize(o, id, z);
    if id in o.sends && !o.state.ConnClosed? && !o.state.Draining? {
      var n := Min(|data|, Capacity(o, id, z));
      var last := fin && n == |data|;
      if (n > 0 || last) && (n > 0 || Coalesces(o.queue, id) || |o.queue| < z.sendQueue) {
        EnqueueRoom(o.queue, id, o.sends[id].offset, data[..n], last, z);
        if last {
          FinCloses(o.queue, id, o.sends[id].offset, data[..n], z);
        }
      }
    }
  }

  /** Closing the last entry leaves no more room than a FIN-less send would. */
  lemma FinCloses(q: seq<Entry>, id: nat, offset: nat, data: Bytes, z: Sizes)
    requires Fits(q, z) && |data| <= QueueRoom(q, id, z)
    requires data == [] ==> Coalesces(q, id) || |q| < z.sendQueue
    requires z.streamBuf > 0 || data == []
    ensures RoomAfterFin(q, id, |data|, z) <= QueueRoom(q, id, z) - |data|
  {
    hide Enqueue, Spill, Entries;
    if data == [] {
      if !Coalesces(q, id) {
        MoreRoom(z.sendQueue - |q| - 1, z.streamBuf);
      }
    } else {
      hide EntryRoom;
      EnqueueRoom(q, id, offset, data, true, z);
      EnqueueRoom(q, id, offset, data, false, z);
    }
  }

  /** `n` bytes fit exactly if they need no more fresh entries than are free. */
  lemma RoomExactly(q: seq<Entry>, id: nat, n: nat, z: Sizes)
    requires Fits(q, z) && z.streamBuf > 0 && n > 0
    ensures n <= QueueRoom(q, id, z) <==> |q| + FinEntries(q, id, n, z) <= z.sendQueue
  {
    var free := z.sendQueue - |q|;
    var tail := TailRoom(q, id, z);
    if n > tail {
      var k := Entries(n - tail, z.streamBuf);
      RoomOrder(k, free, z.streamBuf);
      RoomOrder(free, k - 1, z.streamBuf);
      hide EntryRoom, Entries;
    }
  }

  lemma RoomOrder(a: nat, b: nat, size: nat)
    ensures a <= b ==> EntryRoom(a, size) <= EntryRoom(b, size)
  {
    if a <= b {
      assert b * size == a * size + (b - a) * size;
    }
  }

  /**
   The announced capacity is the most that can be taken: `n` bytes are within it exactly when the
   connection and the stream are there, the stream's window covers them and the queue has entries
   for them.
   */
  lemma CapacityIsMost(o: Out, id: nat, n: nat, z: Sizes)
    requires Fits(o.queue, z) && n > 0 && z.streamBuf > 0
    ensures n <= Capacity(o, id, z) <==>
            && (o.state.Handshaking? || o.state.Active? || o.state.Closing?)
            && id in o.sends && o.sends[id].offset + n <= o.sends[id].maxData
            && |o.queue| + FinEntries(o.queue, id, n, z) <= z.sendQueue
  {
    hide FinEntries, QueueRoom;
    RoomExactly(o.queue, id, n, z);
  }

  /** When `stream_send` fails, and with what; its flow-control check only fails on a stream already past its limit. */
  lemma SendOutcome(o: Out, id: nat, data: Bytes, fin: bool, z: Sizes)
    requires Fits(o.queue, z)
    ensures var (o', r) := Send(o, id, data, fin, z);
            var n := Min(|data|, Capacity(o, id, z));
            var asks := n > 0 || (fin && data == []);
            if o.state.ConnClosed? || o.state.Draining? then r == Err(Closed)
            else if id !in o.sends then r == Err(InvalidState)
            else if asks && n == 0 && !Coalesces(o.queue, id) && |o.queue| == z.sendQueue then r == Err(BufferTooSmall(z.sendQueue + 1))
            else if asks && !o.sends[id].state.Ready? && !o.sends[id].state.Sending? then r == Err(StreamStateError)
            else if n == 0 && fin && data == [] && o.sends[id].offset > o.sends[id].maxData then r == Err(FlowControlError)
            else
              && r == Ok(n) && o'.state == o.state && o'.sends.Keys == o.sends.Keys
              && var s, s', last := o.sends[id], o'.sends[id], fin && n == |data|;
                 && s'.offset == s.offset + n && s'.maxData == s.maxData && s'.finSent == (s.finSent || last)
                 && s'.state == if last then DataSent else if n > 0 then Sending else s.state
  {
    hide Enqueue, QueueRoom;
  }

  /** Three bytes and a FIN into an empty queue of one entry of ten: the capacity goes from 10 to 0. */
  lemma FinTakesWholeEntry()
    ensures var o := Out(Active, map[0 := SendState(Ready, 0, false, 1000, false)], []);
            var z := Sizes(10, 1);
            var (o', r) := Send(o, 0, [1, 2, 3], true, z);
            Capacity(o, 0, z) == 10 && r == Ok(3) && Fits(o'.queue, z) && Capacity(o', 0, z) == 0
  {
    var o := Out(Active, map[0 := SendState(Ready, 0, false, 1000, false)], []);
    assert EntryRoom(1, 10) == 10 && EntryRoom(0, 10) == 0;
    assert Capacity(o, 0, Sizes(10, 1)) == 10;
    assert [1, 2, 3][..3] == [1, 2, 3];
  }

  /** The entries of stream `id`, in queue order, tile stream positions `from..to`. */
  predicate Chain(q: seq<Entry>, id: nat, from: nat, to: nat) {
    if q == [] then from == to
    else
      var n := |q| - 1;
      var e := q[n];
      if e.streamId != id then Chain(q[..n], id, from, to)
      else from <= e.offset && e.offset + |e.data| == to && Chain(q[..n], id, from, e.offset)
  }

  /** `e` carries the bytes of `a` at its offset. */
  predicate PieceOf(e: Entry, a: Bytes) {
    e.offset + |e.data| <= |a| && e.data == a[e.offset..e.offset + |e.data|]
  }

  /** `e` carries bytes of `a`, and FIN only at its end, once the stream is `closed`. */
  predicate Honest(e: Entry, a: Bytes, closed: bool) {
    PieceOf(e, a) && (e.fin ==> closed && e.offset + |e.data| == |a|)
  }

  predicate AllHonest(q: seq<Entry>, id: nat, a: Bytes, closed: bool) {
    forall i :: 0 <= i < |q| && q[i].streamId == id ==> Honest(q[i], a, closed)
  }

  /**
   Stream `id`, of which `a` has been accepted so far: what is still queued tiles the bytes
   from `from` up to the send offset, and nothing more is accepted after FIN.
   */
  predicate StreamInv(o: Out, id: nat, a: Bytes, from: nat) {
    && id in o.sends
    && |a| == o.sends[id].offset
    && Chain(o.queue, id, from, |a|)
    && AllHonest(o.queue, id, a, o.sends[id].finSent)
    && (o.sends[id].finSent ==> !o.sends[id].state.Ready? && !o.sends[id].state.Sending?)
  }

  lemma ChainSnoc(q: seq<Entry>, e: Entry, id: nat, from: nat, to: nat)
    ensures e.streamId != id ==> (Chain(q + [e], id, from, to) <==> Chain(q, id, from, to))
    ensures e.streamId == id && Chain(q, id, from, to) && from <= to && e.offset == to ==>
              Chain(q + [e], id, from, to + |e.data|)
  {
    assert (q + [e])[..|q|] == q;
  }

  lemma {:induction false} ChainOrder(q: seq<Entry>, id: nat, from: nat, to: nat)
    requires Chain(q, id, from, to)
    ensures from <= to
    decreases |q|
  {
    if q != [] && q[|q| - 1].streamId != id { ChainOrder(q[..|q| - 1], id, from, to); }
  }

  lemma {:induction false} ChainSpill(q: seq<Entry>, id: nat, from: nat, offset: nat, data: Bytes, fin: bool, size: nat)
    requires size > 0 && Chain(q, id, from, offset)
    ensures Chain(q + Spill(id, offset, data, fin, size), id, from, offset + |data|)
    decreases |data|
  {
    ChainOrder(q, id, from, offset);
    hide Chain;
    if |data| <= size {
      ChainSnoc(q, Entry(id, offset, data, fin), id, from, offset);
    } else {
      var e := Entry(id, offset, data[..size], false);
      ChainSnoc(q, e, id, from, offset);
      ChainSpill(q + [e], id, from, offset + size, data[size..], fin, size);
      PushThenSpill(q, id, offset, data, fin, size);
    }
  }

  lemma PushThenSpill(q: seq<Entry>, id: nat, offset: nat, data: Bytes, fin: bool, size: nat)
    requires 0 < size < |data|
    ensures q + Spill(id, offset, data, fin, size)
            == q + [Entry(id, offset, data[..size], false)] + Spill(id, offset + size, data[size..], fin, size)
  {
  }

  /** Entries of one stream leave the chain of another alone. */
  lemma {:induction false} ChainKeeps(q: seq<Entry>, id: nat, offset: nat, data: Bytes, fin: bool, size: nat,
                                      j: nat, from: nat, to: nat)
    requires size > 0 && j != id
    ensures Chain(q + Spill(id, offset, data, fin, size), j, from, to) <==> Chain(q, j, from, to)
    decreases |data|
  {
    hide Chain;
    if |data| <= size {
      ChainSnoc(q, Entry(id, offset, data, fin), j, from, to);
    } else {
      var e := Entry(id, offset, data[..size], false);
      ChainSnoc(q, e, j, from, to);
      ChainKeeps(q + [e], id, offset + size, data[size..], fin, size, j, from, to);
      PushThenSpill(q, id, offset, data, fin, size);
    }
  }

  lemma {:induction false} SpillHonest(id: nat, pre: Bytes, data: Bytes, fin: bool, size: nat)
    requires size > 0
    ensures forall e :: e in Spill(id, |pre|, data, fin, size) ==> e.streamId == id && Honest(e, pre + data, fin)
    decreases |data|
  {
    if |data| > size {
      SpillHonest(id, pre + data[..size], data[size..], fin, size);
      assert pre + data[..size] + data[size..] == pre + data;
    }
  }

  /** Appending accepted bytes to the stream keeps the pieces that were there. */
  lemma HonestGrows(q: seq<Entry>, id: nat, a: Bytes, data: Bytes, fin: bool)
    requires AllHonest(q, id, a, false)
    ensures AllHonest(q, id, a + data, fin)
  {
    forall i | 0 <= i < |q| && q[i].streamId == id ensures Honest(q[i], a + data, fin) {
      var e := q[i];
      assert Honest(e, a, false);
      assert (a + data)[e.offset..e.offset + |e.data|] == a[e.offset..e.offset + |e.data|];
    }
  }

  lemma SpillKeeps(q: seq<Entry>, id: nat, pre: Bytes, from: nat, data: Bytes, fin: bool, size: nat)
    requires size > 0 && Chain(q, id, from, |pre|) && AllHonest(q, id, pre + data, fin)
    ensures var q' := q + Spill(id, |pre|, data, fin, size);
            Chain(q', id, from, |pre| + |data|) && AllHonest(q', id, pre + data, fin)
  {
    hide Honest, Chain;
    ChainSpill(q, id, from, |pre|, data, fin, size);
    SpillHonest(id, pre, data, fin, size);
    var es := Spill(id, |pre|, data, fin, size);
    forall i | 0 <= i < |q + es| && (q + es)[i].streamId == id ensures Honest((q + es)[i], pre + data, fin) {
      if i >= |q| { assert (q + es)[i] == es[i - |q|] && es[i - |q|] in es; }
    }
  }

  /** The tail entry takes the first `room` bytes. */
  lemma CoalesceKeeps(q: seq<Entry>, id: nat, a: Bytes, from: nat, data: Bytes, room: nat, fin: bool)
    requires Coalesces(q, id) && room <= |data|
    requires Chain(q, id, from, |a|) && AllHonest(q, id, a, false)
    ensures var n := |q| - 1;
            var tail := q[n].(data := q[n].data + data[..room], fin := fin && room == |data|);
            Chain(q[..n] + [tail], id, from, |a| + room) && AllHonest(q[..n] + [tail], id, a + data, fin)
  {
    var n := |q| - 1;
    var tail := q[n].(data := q[n].data + data[..room], fin := fin && room == |data|);
    HonestGrows(q, id, a, data, fin);
    TailHonest(q[n], a, data, room, fin);
    ChainOrder(q[..n], id, from, q[n].offset);
    ChainSnoc(q[..n], tail, id, from, q[n].offset);
  }

  lemma EnqueueKeeps(q: seq<Entry>, id: nat, a: Bytes, from: nat, data: Bytes, fin: bool, size: nat)
    requires forall i :: 0 <= i < |q| ==> |q[i].data| <= size
    requires size > 0 || data == []
    requires Chain(q, id, from, |a|) && AllHonest(q, id, a, false)
    ensures var q' := Enqueue(q, id, |a|, data, fin, size);
            Chain(q', id, from, |a| + |data|) && AllHonest(q', id, a + data, fin)
  {
    hide Honest, Chain, AllHonest, Spill;
    if Coalesces(q, id) {
      var n := |q| - 1;
      var room := Min(size - |q[n].data|, |data|);
      CoalesceKeeps(q, id, a, from, data, room, fin);
      var q1 := q[..n] + [q[n].(data := q[n].data + data[..room], fin := fin && room == |data|)];
      if room < |data| {
        assert a + data[..room] + data[room..] == a + data;
        SpillKeeps(q1, id, a + data[..room], from, data[room..], fin, size);
      } else {
        assert q1 + [] == q1;
      }
    } else {
      HonestGrows(q, id, a, data, fin);
      if data != [] {
        SpillKeeps(q, id, a, from, data, fin, size);
      } else if fin {
        assert a + data == a;
        BareFinKeeps(q, id, a, from);
      }
    }
  }

  lemma BareFinKeeps(q: seq<Entry>, id: nat, a: Bytes, from: nat)
    requires Chain(q, id, from, |a|) && AllHonest(q, id, a, true)
    ensures var q' := q + [Entry(id, |a|, [], true)];
            Chain(q', id, from, |a|) && AllHonest(q', id, a, true)
  {
    ChainOrder(q, id, from, |a|);
    ChainSnoc(q, Entry(id, |a|, [], true), id, from, |a|);
    BareFinHonest(id, a);
  }

  lemma BareFinHonest(id: nat, a: Bytes)
    ensures Honest(Entry(id, |a|, [], true), a, true)
  {
  }

  lemma TailHonest(e: Entry, a: Bytes, data: Bytes, room: nat, fin: bool)
    requires PieceOf(e, a) && e.offset + |e.data| == |a| && room <= |data|
    ensures Honest(e.(data := e.data + data[..room], fin := fin && room == |data|), a + data, fin)
  {
    assert (a + data)[e.offset..|a| + room] == a[e.offset..] + data[..room];
  }

  lemma EnqueueOther(q: seq<Entry>, id: nat, offset: nat, data: Bytes, fin: bool, size: nat,
                     j: nat, from: nat, to: nat, b: Bytes, closed: bool)
    requires forall i :: 0 <= i < |q| ==> |q[i].data| <= size
    requires size > 0 || data == []
    requires j != id && Chain(q, j, from, to) && AllHonest(q, j, b, closed)
    ensures var q' := Enqueue(q, id, offset, data, fin, size);
            Chain(q', j, from, to) && AllHonest(q', j, b, closed)
  {
    hide Honest, Spill, Chain, AllHonest;
    if Coalesces(q, id) {
      var n := |q| - 1;
      var room := Min(size - |q[n].data|, |data|);
      var tail := q[n].(data := q[n].data + data[..room], fin := fin && room == |data|);
      var q1 := q[..n] + [tail];
      TailOther(q, tail, j, from, to, b, closed);
      if room < |data| {
        SpillOther(q1, id, offset + room, data[room..], fin, size, j, from, to, b, closed);
      } else {
        assert q1 + [] == q1;
      }
    } else if data != [] {
      SpillOther(q, id, offset, data, fin, size, j, from, to, b, closed);
    } else if fin {
      ChainSnoc(q, Entry(id, offset, [], true), j, from, to);
      HonestSnoc(q, Entry(id, offset, [], true), j, b, closed);
    }
  }

  /** Another stream's tail entry may be replaced by one of the same stream. */
  lemma TailOther(q: seq<Entry>, tail: Entry, j: nat, from: nat, to: nat, b: Bytes, closed: bool)
    requires q != [] && q[|q| - 1].streamId == tail.streamId != j && Chain(q, j, from, to) && AllHonest(q, j, b, closed)
    ensures Chain(q[..|q| - 1] + [tail], j, from, to) && AllHonest(q[..|q| - 1] + [tail], j, b, closed)
  {
    var n := |q| - 1;
    assert Chain(q[..n], j, from, to) && AllHonest(q[..n], j, b, closed);
    hide Chain, AllHonest, Honest;
    ChainSnoc(q[..n], tail, j, from, to);
    HonestSnoc(q[..n], tail, j, b, closed);
  }

  lemma HonestSnoc(q: seq<Entry>, e: Entry, j: nat, b: Bytes, closed: bool)
    requires e.streamId != j && AllHonest(q, j, b, closed)
    ensures AllHonest(q + [e], j, b, closed)
  {
    hide Honest;
  }

  lemma SpillOther(q: seq<Entry>, id: nat, offset: nat, data: Bytes, fin: bool, size: nat,
                   j: nat, from: nat, to: nat, b: Bytes, closed: bool)
    requires size > 0 && j != id && Chain(q, j, from, to) && AllHonest(q, j, b, closed)
    ensures var q' := q + Spill(id, offset, data, fin, size);
            Chain(q', j, from, to) && AllHonest(q', j, b, closed)
  {
    hide Honest, Chain;
    ChainKeeps(q, id, offset, data, fin, size, j, from, to);
    SpillOwn(id, offset, data, fin, size);
    var es := Spill(id, offset, data, fin, size);
    assert forall i :: |q| <= i < |q + es| ==> (q + es)[i] in es;
  }

  lemma {:induction false} SpillOwn(id: nat, offset: nat, data: Bytes, fin: bool, size: nat)
    requires size > 0
    ensures forall e :: e in Spill(id, offset, data, fin, size) ==> e.streamId == id
    decreases |data|
  {
    if |data| > size { SpillOwn(id, offset + size, data[size..], fin, size); }
  }

  /** The stream a call is for: the accepted bytes join it, and FIN closes it only together with the last of them. */
  lemma SendKeepsOwn(o: Out, id: nat, a: Bytes, from: nat, data: Bytes, fin: bool, z: Sizes)
    requires Fits(o.queue, z) && StreamInv(o, id, a, from)
    ensures var (o', r) := Send(o, id, data, fin, z);
            && StreamInv(o', id, a + data[..if r.Ok? then r.value else 0], from)
            && (r.Ok? && o'.sends[id].finSent && !o.sends[id].finSent ==> fin && r.value == |data|)
            && (r.Ok? && fin && r.value == |data| ==> o'.sends[id].finSent)
            && (r.Ok? && (r.value > 0 || (fin && data == [])) ==> !o.sends[id].finSent)
  {
    hide Chain, AllHonest, Enqueue, QueueRoom;
    var n := Min(|data|, Capacity(o, id, z));
    var last := fin && n == |data|;
    assert data[..0] == [] && a + [] == a;
    if !o.state.ConnClosed? && !o.state.Draining? && (n > 0 || last)
       && (n > 0 || Coalesces(o.queue, id) || |o.queue| < z.sendQueue) && MarkSend(o.sends[id], n, last).1.Pass? {
      RoomMeansSize(o, id, z);
      EnqueueKeeps(o.queue, id, a, from, data[..n], last, z.streamBuf);
    }
  }

  /** Every other stream: nothing changes. */
  lemma SendKeepsOther(o: Out, id: nat, data: Bytes, fin: bool, z: Sizes, j: nat, b: Bytes, from: nat)
    requires Fits(o.queue, z) && j != id && StreamInv(o, j, b, from)
    ensures StreamInv(Send(o, id, data, fin, z).0, j, b, from)
  {
    hide Chain, AllHonest, Enqueue, QueueRoom;
    var n := Min(|data|, Capacity(o, id, z));
    var last := fin && n == |data|;
    if id in o.sends && !o.state.ConnClosed? && !o.state.Draining? && (n > 0 || last)
       && (n > 0 || Coalesces(o.queue, id) || |o.queue| < z.sendQueue) && MarkSend(o.sends[id], n, last).1.Pass? {
      RoomMeansSize(o, id, z);
      EnqueueOther(o.queue, id, o.sends[id].offset, data[..n], last, z.streamBuf, j, from, |b|, b, o.sends[j].finSent);
    }
  }

  // --------------------------------------------------------------------------------
  // Building STREAM frames
  // --------------------------------------------------------------------------------

  predicate Sendable(e: Entry) { e.streamId <= MAX_VARINT && e.offset <= MAX_VARINT && |e.data| <= MAX_VARINT }

  function FrameOf(e: Entry): (f: Frame)
    requires Sendable(e)
    ensures Typed(f) && Encodable(f) && Faithful(f)
  {
    Stream(e.streamId, e.offset, e.data, e.fin)
  }

  function EntryBytes(e: Entry): Bytes
    requires Sendable(e)
  {
    FrameBytes(FrameOf(e))
  }

  predicate AllSendable(q: seq<Entry>) { forall i :: 0 <= i < |q| ==> Sendable(q[i]) }

  /** The wire form of a run of entries. */
  function QueueBytes(q: seq<Entry>): Bytes
    requires AllSendable(q)
  {
    if q == [] then [] else QueueBytes(q[..|q| - 1]) + EntryBytes(q[|q| - 1])
  }

  /** How many entries from the front go into `room` bytes; a frame is tried only while 16 bytes are left. */
  function EmitCount(q: seq<Entry>, room: nat): (k: nat)
    ensures k <= |q| && AllSendable(q[..k])
  {
    if q == [] || room < 16 || !Sendable(q[0]) || |EntryBytes(q[0])| > room then 0
    else
      var k := EmitCount(q[1..], room - |EntryBytes(q[0])|);
      SendableCons(q, k);
      1 + k
  }

  lemma SendableCons(q: seq<Entry>, k: nat)
    requires k < |q| && Sendable(q[0]) && AllSendable(q[1..][..k])
    ensures AllSendable(q[..k + 1])
  {
    hide Sendable;
    assert q[..k + 1] == [q[0]] + q[1..][..k];
  }

  /**
   Emission stops only at the end of the queue, with less than 16 bytes left, or at an entry
   that has no frame or whose frame does not fit what is left.
   */
  lemma {:induction false} EmitsAllThatFit(q: seq<Entry>, room: nat)
    ensures var k := EmitCount(q, room);
            var used := |QueueBytes(q[..k])|;
            used <= room && (k < |q| ==> room - used < 16 || !Sendable(q[k]) || |EntryBytes(q[k])| > room - used)
    decreases |q|
  {
    hide EntryBytes, Sendable, QueueBytes;
    var k := EmitCount(q, room);
    QueueFront(q, k);
    if k > 0 {
      EmitsAllThatFit(q[1..], room - |EntryBytes(q[0])|);
    }
  }

  /** Write the front of `queue` as STREAM frames into `out[lo..hi]`; what is written leaves the queue. */
  method BuildStreamFrames(queue: seq<Entry>, out: array<Byte>, lo: nat, hi: nat)
    returns (left: seq<Entry>, total: nat)
    requires lo <= hi <= out.Length
    modifies out
    ensures var k := EmitCount(queue, hi - lo);
            && left == queue[k..]
            && total == |QueueBytes(queue[..k])| <= hi - lo
            && Holds(out[..], lo, QueueBytes(queue[..k]))
    ensures Outside(old(out[..]), out[..], lo, hi)
  {
    hide EntryBytes, QueueBytes, EmitCount, Outside, Sendable, AllSendable, Holds;
    total := 0;
    var idx := 0;
    ghost var k := EmitCount(queue, hi - lo);
    EmitStart(queue, out[..], lo, hi);
    while idx < |queue|
      invariant 0 <= idx <= k && total <= hi - lo
      invariant AllSendable(queue[..idx])
      invariant k == idx + EmitCount(queue[idx..], hi - lo - total)
      invariant total == |QueueBytes(queue[..idx])| && Holds(out[..], lo, QueueBytes(queue[..idx]))
      invariant Outside(old(out[..]), out[..], lo, hi)
    {
      var e := queue[idx];
      EmitNext(queue, idx, hi - lo - total);
      if hi - lo - total < 16 {
        break;
      }
      ghost var was := out[..];
      var r := EncodeEntry(e, out, lo + total, hi);
      Patched(old(out[..]), was, out[..], lo, QueueBytes(queue[..idx]), hi);
      if r.Err? {
        break;
      }
      HoldsBoth(out[..], lo, QueueBytes(queue[..idx]), EntryBytes(e));
      total := total + r.value;
      idx := idx + 1;
    }
    EmitEnd(queue, hi - lo - total);
    return queue[idx..], total;
  }

  /** Encode one entry as a STREAM frame; numbers beyond the varint range make it fail. */
  method EncodeEntry(e: Entry, out: array<Byte>, lo: nat, hi: nat) returns (r: Result<nat>)
    requires lo <= hi <= out.Length
    modifies out
    ensures r.Ok? <==> Sendable(e) && |EntryBytes(e)| <= hi - lo
    ensures r.Ok? ==> r.value == |EntryBytes(e)| && Holds(out[..], lo, EntryBytes(e))
    ensures Outside(old(out[..]), out[..], lo, hi)
  {
    if !Sendable(e) {
      return Err(InternalError);
    }
    hide FrameBytes, FrameOf, Encodable;
    r := Encode(FrameOf(e), out, lo, hi);
  }

  lemma EmitStart(q: seq<Entry>, buf: Bytes, lo: nat, hi: nat)
    requires lo <= hi <= |buf|
    ensures q[0..] == q && AllSendable(q[..0]) && QueueBytes(q[..0]) == []
    ensures Holds(buf, lo, []) && Outside(buf, buf, lo, hi)
  {
  }

  lemma EmitEnd(q: seq<Entry>, room: nat)
    ensures q[|q|..] == [] && EmitCount([], room) == 0
  {
  }

  lemma EmitNext(q: seq<Entry>, i: nat, room: nat)
    requires i < |q| && AllSendable(q[..i])
    ensures EmitCount(q[i..], room) ==
            if room < 16 || !Sendable(q[i]) || |EntryBytes(q[i])| > room then 0
            else 1 + EmitCount(q[i + 1..], room - |EntryBytes(q[i])|)
    ensures Sendable(q[i]) ==> AllSendable(q[..i + 1]) && QueueBytes(q[..i + 1]) == QueueBytes(q[..i]) + EntryBytes(q[i])
  {
    hide EntryBytes;
    assert q[i..][0] == q[i] && q[i..][1..] == q[i + 1..];
    assert q[..i + 1][..i] == q[..i];
  }

  lemma HoldsBoth(buf: Bytes, lo: nat, s: Bytes, t: Bytes)
    requires Holds(buf, lo, s) && Holds(buf, lo + |s|, t)
    ensures Holds(buf, lo, s + t)
  {
    assert buf[lo..lo + |s| + |t|] == buf[lo..lo + |s|] + buf[lo + |s|..lo + |s| + |t|];
  }

  /** Writing past what is held leaves it held. */
  lemma Patched(first: Bytes, was: Bytes, now: Bytes, lo: nat, s: Bytes, hi: nat)
    requires lo + |s| <= hi && Outside(was, now, lo + |s|, hi) && Holds(was, lo, s) && Outside(first, was, lo, hi)
    ensures Holds(now, lo, s) && Outside(first, now, lo, hi)
  {
    assert now[lo..lo + |s|] == now[..lo + |s|][lo..] && was[lo..lo + |s|] == was[..lo + |s|][lo..];
    assert now[..lo] == now[..lo + |s|][..lo] && was[..lo] == was[..lo + |s|][..lo];
  }

  function FramesOf(q: seq<Entry>): (fs: seq<Frame>)
    requires AllSendable(q)
    ensures |fs| == |q| && forall i :: 0 <= i < |q| ==> fs[i] == FrameOf(q[i])
  {
    seq(|q|, i requires 0 <= i < |q| => FrameOf(q[i]))
  }

  /** What is written for a run of entries parses back to exactly one STREAM frame for each. */
  lemma {:induction false} QueueParses(q: seq<Entry>)
    requires AllSendable(q)
    ensures Parse(QueueBytes(q)) == (FramesOf(q), true)
  {
    QueueIsList(q);
    ParseList(FramesOf(q));
  }

  lemma {:induction false} QueueIsList(q: seq<Entry>)
    requires AllSendable(q)
    ensures QueueBytes(q) == ListBytes(FramesOf(q))
    decreases |q|
  {
    if q != [] {
      hide FrameOf, FrameBytes, Encodable, FramesOf, Sendable, ListBytes;
      var n := |q| - 1;
      QueueIsList(q[..n]);
      FramesSnoc(q);
    }
  }

  lemma FramesSnoc(q: seq<Entry>)
    requires AllSendable(q) && q != []
    ensures var n := |q| - 1;
            AllSendable(q[..n]) && ListBytes(FramesOf(q)) == ListBytes(FramesOf(q[..n])) + FrameBytes(FrameOf(q[n]))
  {
    hide FrameOf, FrameBytes, Encodable, FramesOf, ListBytes;
    var n := |q| - 1;
    ListSnoc(FramesOf(q[..n]), FrameOf(q[n]));
    assert FramesOf(q) == FramesOf(q[..n]) + [FrameOf(q[n])];
  }

  lemma {:induction false} ListSnoc(fs: seq<Frame>, f: Frame)
    requires (forall i :: 0 <= i < |fs| ==> Encodable(fs[i])) && Encodable(f)
    ensures ListBytes(fs + [f]) == ListBytes(fs) + FrameBytes(f)
    decreases |fs|
  {
    hide Encodable, FrameBytes;
    if fs == [] {
      assert fs + [f] == [f] && [f][1..] == [];
    } else {
      assert (fs + [f])[1..] == fs[1..] + [f];
      ListSnoc(fs[1..], f);
    }
  }

  lemma QueueFront(q: seq<Entry>, k: nat)
    requires k <= |q| && AllSendable(q[..k])
    ensures k == 0 ==> QueueBytes(q[..k]) == []
    ensures k > 0 ==> Sendable(q[0]) && AllSendable(q[1..][..k - 1])
                      && QueueBytes(q[..k]) == EntryBytes(q[0]) + QueueBytes(q[1..][..k - 1])
  {
    hide FrameBytes, Encodable, FrameOf;
    if k > 0 {
      assert q[..k][0] == q[0] && q[..k][1..] == q[1..][..k - 1];
      QueueIsList(q[..k]);
      QueueIsList(q[1..][..k - 1]);
      assert FramesOf(q[..k])[1..] == FramesOf(q[1..][..k - 1]);
    }
  }

  /** Bytes of stream `id` among the entries. */
  function BytesOf(q: seq<Entry>, id: nat): nat {
    if q == [] then 0 else BytesOf(q[..|q| - 1], id) + if q[|q| - 1].streamId == id then |q[|q| - 1].data| else 0
  }

  /** Taking entries off the front moves the start of the chain past their bytes. */
  lemma {:induction false} ChainDrop(q: seq<Entry>, id: nat, from: nat, to: nat, k: nat)
    requires Chain(q, id, from, to) && k <= |q|
    ensures Chain(q[k..], id, from + BytesOf(q[..k], id), to)
    decreases |q|
  {
    if k == |q| {
      ChainTotal(q, id, from, to);
      assert q[k..] == [] && q[..k] == q;
    } else {
      var n := |q| - 1;
      var e := q[n];
      ChainDrop(q[..n], id, from, if e.streamId == id then e.offset else to, k);
      assert q[..n][..k] == q[..k] && q[..n][k..] == q[k..n] && q[k..] == q[k..n] + [e];
      var to' := if e.streamId == id then e.offset else to;
      ChainOrder(q[k..n], id, from + BytesOf(q[..k], id), to');
      ChainSnoc(q[k..n], e, id, from + BytesOf(q[..k], id), to');
    }
  }

  lemma {:induction false} ChainTotal(q: seq<Entry>, id: nat, from: nat, to: nat)
    requires Chain(q, id, from, to)
    ensures to == from + BytesOf(q, id)
    decreases |q|
  {
    if q != [] {
      var n := |q| - 1;
      ChainTotal(q[..n], id, from, if q[n].streamId == id then q[n].offset else to);
    }
  }
}
