/**
 Two connections exchanging STREAM data in one direction: `stream_send` and frame building
 on one side, a network that drops, repeats and reorders frames, and frame dispatch and
 `stream_recv` on the other. All streams run side by side.
 */
module StreamRun {
  import opened Bytes
  import opened SendPath
  import opened RecvPath

  /** Compile-time sizes of both sides. */
  datatype Config = Config(send: Sizes, recv: Limits)

  /**
   `accepted[id]` is what `stream_send` has taken for the stream, `read[id]` what
   `stream_recv` has returned; `ended` are the streams whose end was reported and `cut`
   those whose last frame was stored incompletely. `net` is every frame ever sent.
   */
  datatype Pair = Pair(
    out: Out, accepted: map<nat, Bytes>, net: set<Entry>,
    inn: In, read: map<nat, Bytes>, ended: set<nat>, cut: set<nat>)

  datatype Step =
    | OpenSend(id: nat, maxData: nat)
    | OpenRecv(id: nat, half: Option<RecvState>)
    | Call(id: nat, data: Bytes, fin: bool)
    | Transmit(k: nat)
    | RaiseLimit(id: nat, maxData: nat)
    | ResetSend(id: nat)
    | SetState(state: ConnState)
    | Arrive(e: Entry, connOk: bool)
    | ReadCall(id: nat, len: nat)
    | RaiseWindow(id: nat, maxData: nat)
    | ResetRecv(id: nat, finalSize: nat)

  function Get(m: map<nat, Bytes>, id: nat): Bytes { if id in m then m[id] else [] }

  function Init(): Pair { Pair(Out(Handshaking, map[], []), map[], {}, In(map[], []), map[], {}, {}) }

  predicate Enabled(s: Pair, step: Step) {
    match step
    case OpenSend(id, _) => id !in s.out.sends
    case OpenRecv(id, half) => id !in s.inn.recvs && (half.Some? ==> half.value.state.Recv?)
    case Transmit(k) => k <= |s.out.queue|
    case RaiseLimit(id, max) => id in s.out.sends && s.out.sends[id].maxData < max
    case ResetSend(id) => id in s.out.sends
    case Arrive(e, _) => e in s.net
    case RaiseWindow(id, _) => id in s.inn.recvs && s.inn.recvs[id].Some?
    case ResetRecv(id, _) => id in s.inn.recvs && s.inn.recvs[id].Some?
    case _ => true
  }

  function Apply(s: Pair, step: Step, z: Config): Pair
    requires Enabled(s, step) && Fits(s.out.queue, z.send)
  {
    match step
    case OpenSend(id, max) =>
      s.(out := s.out.(sends := s.out.sends[id := SendState(Ready, 0, false, max, false)]), accepted := s.accepted[id := []])
    case OpenRecv(id, half) => s.(inn := s.inn.(recvs := s.inn.recvs[id := half]))
    case Call(id, data, fin) =>
      var (o, r) := Send(s.out, id, data, fin, z.send);
      SendTakesCapacity(s.out, id, data, fin, z.send);
      s.(out := o, accepted := if r.Ok? && id in s.accepted then s.accepted[id := s.accepted[id] + data[..r.value]] else s.accepted)
    case Transmit(k) =>
      s.(out := s.out.(queue := s.out.queue[k..]), net := s.net + set e | e in s.out.queue[..k])
    case RaiseLimit(id, max) =>
      s.(out := s.out.(sends := s.out.sends[id := s.out.sends[id].(maxData := max, blocked := false)]))
    case ResetSend(id) =>
      s.(out := s.out.(sends := s.out.sends[id := s.out.sends[id].(state := SendStreamState.ResetSent)]))
    case SetState(state) => s.(out := s.out.(state := state))
    case Arrive(e, connOk) =>
      s.(inn := OnStreamFrame(s.inn, e.streamId, e.offset, e.data, e.fin, connOk, z.recv).0,
         cut := if Cuts(s.inn, e.streamId, e.offset, e.data, e.fin, connOk, z.recv) then s.cut + {e.streamId} else s.cut)
    case ReadCall(id, len) =>
      var (slots, r) := Read(s.inn.slots, id, len);
      if r.Err? then s
      else s.(inn := s.inn.(slots := slots), read := s.read[id := Get(s.read, id) + r.value.0],
              ended := if r.value.1 then s.ended + {id} else s.ended)
    case RaiseWindow(id, max) =>
      s.(inn := s.inn.(recvs := s.inn.recvs[id := Some(s.inn.recvs[id].value.(maxData := max))]))
    case ResetRecv(id, size) =>
      s.(inn := s.inn.(recvs := s.inn.recvs[id := Some(s.inn.recvs[id].value.(state := RecvStreamState.ResetRecvd, finOffset := Some(size)))]))
  }

  /** The stream's FIN has been accepted. */
  predicate Closed(s: Pair, id: nat) { id in s.out.sends && s.out.sends[id].finSent }

  ghost predicate SenderInv(s: Pair, id: nat) {
    id in s.out.sends && id in s.accepted && exists from: nat :: StreamInv(s.out, id, s.accepted[id], from)
  }

  predicate FrameInv(s: Pair, e: Entry) {
    e.streamId in s.out.sends && Honest(e, Get(s.accepted, e.streamId), Closed(s, e.streamId))
  }

  predicate ReadInv(s: Pair, id: nat, z: Config) {
    ReaderInv(s.inn, id, Get(s.accepted, id), Closed(s, id), Get(s.read, id), id in s.ended, id in s.cut, z.recv)
  }

  ghost predicate Inv(s: Pair, z: Config) {
    && Fits(s.out.queue, z.send)
    && s.accepted.Keys == s.out.sends.Keys
    && (forall id :: id in s.out.sends ==> SenderInv(s, id))
    && (forall i :: 0 <= i < |s.out.queue| ==> s.out.queue[i].streamId in s.out.sends)
    && (forall e :: e in s.net ==> FrameInv(s, e))
    && (forall id :: ReadInv(s, id, z))
  }

  lemma InvInit(z: Config)
    ensures Inv(Init(), z)
  {
  }

  /** A step that leaves streams' accepted bytes and FIN alone keeps all frames honest. */
  lemma FramesKeep(s: Pair, s': Pair)
    requires s'.net == s.net && s'.accepted == s.accepted && s.out.sends.Keys == s'.out.sends.Keys
    requires forall id :: Closed(s', id) == Closed(s, id)
    requires forall e :: e in s.net ==> FrameInv(s, e)
    ensures forall e :: e in s'.net ==> FrameInv(s', e)
  {
  }

  /** Changing a limit or resetting a sending half. */
  lemma InvSendHalf(s: Pair, id: nat, h: SendState, z: Config)
    requires Inv(s, z) && id in s.out.sends
    requires h.offset == s.out.sends[id].offset && h.finSent == s.out.sends[id].finSent
    requires h.state == s.out.sends[id].state || h.state.ResetSent?
    ensures Inv(s.(out := s.out.(sends := s.out.sends[id := h])), z)
  {
    hide ReaderInv, Chain, AllHonest, Honest;
    var s' := s.(out := s.out.(sends := s.out.sends[id := h]));
    forall j | j in s'.out.sends ensures SenderInv(s', j) {
      var from: nat :| StreamInv(s.out, j, s.accepted[j], from);
      assert StreamInv(s'.out, j, s'.accepted[j], from);
    }
    FramesKeep(s, s');
    forall j ensures ReadInv(s', j, z) {
      assert ReadInv(s, j, z);
    }
  }

  lemma InvOpenSend(s: Pair, id: nat, max: nat, z: Config)
    requires Inv(s, z) && id !in s.out.sends
    ensures Inv(Apply(s, OpenSend(id, max), z), z)
  {
    hide ReaderInv, AllHonest, Honest, Chain;
    var s' := Apply(s, OpenSend(id, max), z);
    NoEntries(s.out.queue, id);
    forall j | j in s'.out.sends ensures SenderInv(s', j) {
      var from: nat := 0;
      if j != id {
        from :| StreamInv(s.out, j, s.accepted[j], from);
      }
      assert StreamInv(s'.out, j, s'.accepted[j], from);
    }
    forall j ensures ReadInv(s', j, z) {
      assert ReadInv(s, j, z);
    }
  }

  lemma {:induction false} NoEntries(q: seq<Entry>, id: nat)
    requires forall i :: 0 <= i < |q| ==> q[i].streamId != id
    ensures Chain(q, id, 0, 0) && AllHonest(q, id, [], false)
    decreases |q|
  {
    if q != [] { NoEntries(q[..|q| - 1], id); }
  }

  lemma InvTransmit(s: Pair, k: nat, z: Config)
    requires Inv(s, z) && k <= |s.out.queue|
    ensures Inv(Apply(s, Transmit(k), z), z)
  {
    hide ReaderInv, Chain, Honest;
    var s' := Apply(s, Transmit(k), z);
    var q := s.out.queue;
    forall j | j in s'.out.sends ensures SenderInv(s', j) {
      var from: nat :| StreamInv(s.out, j, s.accepted[j], from);
      ChainDrop(q, j, from, |s.accepted[j]|, k);
      assert StreamInv(s'.out, j, s'.accepted[j], from + BytesOf(q[..k], j));
    }
    forall e | e in s'.net ensures FrameInv(s', e) {
      if e !in s.net {
        var i :| 0 <= i < k && q[i] == e;
        assert SenderInv(s, e.streamId);
      } else {
        assert FrameInv(s, e);
      }
    }
    forall j ensures ReadInv(s', j, z) {
      assert ReadInv(s, j, z);
    }
  }

  lemma InvCall(s: Pair, id: nat, data: Bytes, fin: bool, z: Config)
    requires Inv(s, z)
    ensures Inv(Apply(s, Call(id, data, fin), z), z)
  {
    hide StreamInv, ReaderInv, Honest, Send, Capacity;
    var s' := Apply(s, Call(id, data, fin), z);
    SendTakesCapacity(s.out, id, data, fin, z.send);
    SendScope(s.out, id, data, fin, z.send);
    if id in s.out.sends {
      CallGrows(s, id, data, fin, z);
      forall j | j in s'.out.sends ensures SenderInv(s', j) {
        if j != id {
          var from: nat :| StreamInv(s.out, j, s.accepted[j], from);
          SendKeepsOther(s.out, id, data, fin, z.send, j, s.accepted[j], from);
          assert s'.accepted[j] == s.accepted[j];
          assert StreamInv(s'.out, j, s'.accepted[j], from);
        }
      }
      forall e | e in s'.net ensures FrameInv(s', e) {
        assert FrameInv(s, e);
      }
      forall j ensures ReadInv(s', j, z) {
        assert ReadInv(s, j, z);
      }
    }
  }

  /** What a call leaves alone. */
  lemma SendScope(o: Out, id: nat, data: Bytes, fin: bool, z: Sizes)
    requires Fits(o.queue, z)
    ensures var o' := Send(o, id, data, fin, z).0;
            && (id !in o.sends ==> o' == o)
            && o'.sends.Keys == o.sends.Keys
            && (forall j :: j in o.sends && j != id ==> o'.sends[j] == o.sends[j])
            && ((forall i :: 0 <= i < |o.queue| ==> o.queue[i].streamId in o.sends) ==>
                  forall i :: 0 <= i < |o'.queue| ==> o'.queue[i].streamId in o'.sends)
  {
    hide Capacity, MarkSend;
    if id in o.sends && Send(o, id, data, fin, z).0.queue != o.queue {
      var n := Min(|data|, Capacity(o, id, z));
      RoomMeansSize(o, id, z);
      EnqueueIds(o.queue, id, o.sends[id].offset, data[..n], fin && n == |data|, z.streamBuf);
    }
  }

  lemma EnqueueIds(q: seq<Entry>, id: nat, offset: nat, data: Bytes, fin: bool, size: nat)
    requires (forall i :: 0 <= i < |q| ==> |q[i].data| <= size) && (size > 0 || data == [])
    ensures var q' := Enqueue(q, id, offset, data, fin, size);
            forall i :: 0 <= i < |q'| ==> q'[i].streamId == id || (i < |q| && q'[i].streamId == q[i].streamId)
  {
    hide Spill;
    if Coalesces(q, id) {
      var n := |q| - 1;
      var room := Min(size - |q[n].data|, |data|);
      var q1 := q[..n] + [q[n].(data := q[n].data + data[..room], fin := fin && room == |data|)];
      if room < |data| {
        SpillIds(q1, id, offset + room, data[room..], fin, size);
      } else {
        assert q1 + [] == q1;
      }
    } else if data != [] {
      SpillIds(q, id, offset, data, fin, size);
    }
  }

  lemma SpillIds(q: seq<Entry>, id: nat, offset: nat, data: Bytes, fin: bool, size: nat)
    requires size > 0
    ensures var q' := q + Spill(id, offset, data, fin, size);
            forall i :: 0 <= i < |q'| ==> (if i < |q| then q'[i] == q[i] else q'[i].streamId == id)
  {
    SpillOwn(id, offset, data, fin, size);
    var es := Spill(id, offset, data, fin, size);
    assert forall i :: |q| <= i < |q + es| ==> (q + es)[i] in es;
  }

  /** The called stream itself: sender, frames in flight and reader. */
  lemma CallGrows(s: Pair, id: nat, data: Bytes, fin: bool, z: Config)
    requires Inv(s, z) && id in s.out.sends
    ensures var s' := Apply(s, Call(id, data, fin), z);
            && SenderInv(s', id) && ReadInv(s', id, z)
            && forall e :: e in s.net && e.streamId == id ==> FrameInv(s', e)
  {
    hide ReaderInv, Send, Chain, AllHonest, Capacity;
    var s' := Apply(s, Call(id, data, fin), z);
    var a := s.accepted[id];
    var from: nat :| StreamInv(s.out, id, a, from);
    SendKeepsOwn(s.out, id, a, from, data, fin, z.send);
    SendScope(s.out, id, data, fin, z.send);
    SendTakesCapacity(s.out, id, data, fin, z.send);
    var r := Send(s.out, id, data, fin, z.send).1;
    var more := data[..if r.Ok? then r.value else 0];
    assert a + [] == a && data[..0] == [];
    assert s'.accepted[id] == a + more;
    assert StreamInv(s'.out, id, s'.accepted[id], from);
    assert ReadInv(s, id, z);
    if !Closed(s, id) {
      GrowthKeeps(s.inn, id, a, Closed(s', id), Get(s.read, id), id in s.ended, id in s.cut, more, z.recv);
      forall e | e in s.net && e.streamId == id ensures FrameInv(s', e) {
        assert FrameInv(s, e);
        OneGrows(e, a, more, Closed(s', id));
      }
    } else {
      ClosedStays(s.out, id, data, fin, z.send);
      assert more == [];
      forall e | e in s.net && e.streamId == id ensures FrameInv(s', e) {
        assert FrameInv(s, e);
      }
    }
  }

  lemma OneGrows(e: Entry, a: Bytes, more: Bytes, closed: bool)
    requires Honest(e, a, false)
    ensures Honest(e, a + more, closed)
  {
    assert (a + more)[e.offset..e.offset + |e.data|] == a[e.offset..e.offset + |e.data|];
  }

  lemma ClosedStays(o: Out, id: nat, data: Bytes, fin: bool, z: Sizes)
    requires Fits(o.queue, z) && id in o.sends && o.sends[id].finSent
    requires !o.sends[id].state.Ready? && !o.sends[id].state.Sending?
    ensures var (o', r) := Send(o, id, data, fin, z);
            o'.sends[id].finSent && (r.Ok? ==> r.value == 0)
  {
    hide Capacity, Enqueue;
  }

  lemma InvArrive(s: Pair, e: Entry, connOk: bool, z: Config)
    requires Inv(s, z) && e in s.net
    ensures Inv(Apply(s, Arrive(e, connOk), z), z)
  {
    hide ReaderInv, StreamInv, OnStreamFrame, Cuts;
    var s' := Apply(s, Arrive(e, connOk), z);
    var id := e.streamId;
    assert FrameInv(s, e);
    forall j | j in s'.out.sends ensures SenderInv(s', j) {
      assert SenderInv(s, j);
    }
    FramesKeep(s, s');
    forall j ensures ReadInv(s', j, z) {
      assert ReadInv(s, j, z);
      if j == id {
        FrameKeepsOwn(s.inn, id, Get(s.accepted, id), Closed(s, id), Get(s.read, id), id in s.ended, id in s.cut,
                      e.offset, e.data, e.fin, connOk, z.recv);
      } else {
        FrameKeepsOther(s.inn, j, Get(s.accepted, j), Closed(s, j), Get(s.read, j), j in s.ended, j in s.cut,
                        id, e.offset, e.data, e.fin, connOk, z.recv);
      }
    }
  }

  lemma InvRead(s: Pair, id: nat, len: nat, z: Config)
    requires Inv(s, z)
    ensures Inv(Apply(s, ReadCall(id, len), z), z)
  {
    hide ReaderInv, StreamInv, Read;
    var s' := Apply(s, ReadCall(id, len), z);
    var r := Read(s.inn.slots, id, len).1;
    if r.Ok? {
      forall j | j in s'.out.sends ensures SenderInv(s', j) {
        assert SenderInv(s, j);
      }
      FramesKeep(s, s');
      forall j ensures ReadInv(s', j, z) {
        assert ReadInv(s, j, z);
        if j == id {
          ReadKeepsOwn(s.inn, id, Get(s.accepted, id), Closed(s, id), Get(s.read, id), id in s.ended, id in s.cut, len, z.recv);
        } else {
          ReadKeepsOther(s.inn, j, Get(s.accepted, j), Closed(s, j), Get(s.read, j), j in s.ended, j in s.cut, id, len, z.recv);
        }
      }
    }
  }

  /** Changing or adding a receiving half, without reopening a settled one. */
  lemma InvRecvHalf(s: Pair, id: nat, h: Option<RecvState>, z: Config)
    requires Inv(s, z)
    requires id in s.inn.recvs && s.inn.recvs[id].Some? && Settled(s.inn.recvs[id].value) ==> h.Some? && Settled(h.value)
    ensures Inv(s.(inn := s.inn.(recvs := s.inn.recvs[id := h])), z)
  {
    hide StreamInv, SlotOf, BufInv, Unique, Settled;
    var s' := s.(inn := s.inn.(recvs := s.inn.recvs[id := h]));
    forall j | j in s'.out.sends ensures SenderInv(s', j) {
      assert SenderInv(s, j);
    }
    FramesKeep(s, s');
    forall j ensures ReadInv(s', j, z) {
      assert ReadInv(s, j, z);
    }
  }

  lemma InvState(s: Pair, state: ConnState, z: Config)
    requires Inv(s, z)
    ensures Inv(Apply(s, SetState(state), z), z)
  {
    hide ReaderInv, Chain, AllHonest;
    var s' := Apply(s, SetState(state), z);
    forall j | j in s'.out.sends ensures SenderInv(s', j) {
      var from: nat :| StreamInv(s.out, j, s.accepted[j], from);
      assert StreamInv(s'.out, j, s'.accepted[j], from);
    }
    FramesKeep(s, s');
    forall j ensures ReadInv(s', j, z) {
      assert ReadInv(s, j, z);
    }
  }

  lemma InvStep(s: Pair, step: Step, z: Config)
    requires Inv(s, z) && Enabled(s, step)
    ensures Inv(Apply(s, step, z), z)
  {
    hide Inv;
    assert Fits(s.out.queue, z.send) by { InvFits(s, z); }
    match step
    case OpenSend(id, max) => InvOpenSend(s, id, max, z);
    case OpenRecv(id, half) => InvRecvHalf(s, id, half, z);
    case Call(id, data, fin) => InvCall(s, id, data, fin, z);
    case Transmit(k) => InvTransmit(s, k, z);
    case RaiseLimit(id, max) => InvSendHalf(s, id, s.out.sends[id].(maxData := max, blocked := false), z);
    case ResetSend(id) => InvSendHalf(s, id, s.out.sends[id].(state := SendStreamState.ResetSent), z);
    case SetState(state) => InvState(s, state, z);
    case Arrive(e, connOk) => InvArrive(s, e, connOk, z);
    case ReadCall(id, len) => InvRead(s, id, len, z);
    case RaiseWindow(id, max) => InvRecvHalf(s, id, Some(s.inn.recvs[id].value.(maxData := max)), z);
    case ResetRecv(id, size) =>
      InvRecvHalf(s, id, Some(s.inn.recvs[id].value.(state := RecvStreamState.ResetRecvd, finOffset := Some(size))), z);
  }

  lemma InvFits(s: Pair, z: Config)
    requires Inv(s, z)
    ensures Fits(s.out.queue, z.send)
  {
  }

  /** `ss` are the states of a run of `steps`. */
  ghost predicate Run(ss: seq<Pair>, steps: seq<Step>, z: Config) {
    && |ss| == |steps| + 1
    && ss[0] == Init()
    && forall i :: 0 <= i < |steps| ==>
                     Enabled(ss[i], steps[i]) && Fits(ss[i].out.queue, z.send) && ss[i + 1] == Apply(ss[i], steps[i], z)
  }

  lemma {:induction false} InvRun(ss: seq<Pair>, steps: seq<Step>, z: Config, n: nat)
    requires Run(ss, steps, z) && n <= |steps|
    ensures Inv(ss[n], z)
    decreases n
  {
    hide Inv, Apply, Enabled, Fits;
    if n == 0 {
      InvInit(z);
    } else {
      InvRun(ss, steps, z, n - 1);
      InvStep(ss[n - 1], steps[n - 1], z);
    }
  }

  /** The queue never outgrows its capacity, so a run can always go on. */
  lemma RunContinues(ss: seq<Pair>, steps: seq<Step>, z: Config, step: Step)
    requires Run(ss, steps, z) && Enabled(ss[|steps|], step)
    ensures Fits(ss[|steps|].out.queue, z.send)
    ensures Run(ss + [Apply(ss[|steps|], step, z)], steps + [step], z)
  {
    InvRun(ss, steps, z, |steps|);
  }

  /**
   Whatever the network does to the frames of all streams: what the application reads from
   a stream is a prefix of what the peer's `stream_send` accepted for it. If its end is
   reported then the peer has finished it, and all of it has been read exactly when the
   frame with FIN was stored whole.
   */
  lemma ReadsPrefix(ss: seq<Pair>, steps: seq<Step>, z: Config, id: nat)
    requires Run(ss, steps, z)
    ensures var s := ss[|steps|];
            && Get(s.read, id) <= Get(s.accepted, id)
            && (id in s.ended ==> Closed(s, id) && (Get(s.read, id) == Get(s.accepted, id) <==> id !in s.cut))
  {
    InvRun(ss, steps, z, |steps|);
    var s := ss[|steps|];
    hide Run, SlotOf, StreamInv;
    assert ReadInv(s, id, z);
  }

  /** What is queued for a stream tiles the unsent rest of its accepted bytes, in order and without a gap. */
  lemma QueueContiguous(ss: seq<Pair>, steps: seq<Step>, z: Config, id: nat)
    requires Run(ss, steps, z) && id in ss[|steps|].out.sends
    ensures var s := ss[|steps|];
            && id in s.accepted && |s.accepted[id]| == s.out.sends[id].offset
            && |s.out.queue| <= z.send.sendQueue
            && exists from: nat :: Chain(s.out.queue, id, from, s.out.sends[id].offset)
  {
    InvRun(ss, steps, z, |steps|);
    var s := ss[|steps|];
    assert SenderInv(s, id);
    var from: nat :| StreamInv(s.out, id, s.accepted[id], from);
  }

  /** Where the stream stands for its reader: the bytes read and those ready. */
  function At(s: Pair, id: nat): nat { |Get(s.read, id)| + |Buffered(s.inn.slots, id)| }

  lemma InvReader(s: Pair, id: nat, z: Config)
    requires Inv(s, z)
    ensures ReadInv(s, id, z) && Unique(s.inn.slots)
    ensures Get(s.read, id) + Buffered(s.inn.slots, id) <= Get(s.accepted, id)
  {
    assert ReadInv(s, id, z);
    if SlotOf(s.inn.slots, id).Some? {
      var b := s.inn.slots[SlotOf(s.inn.slots, id).value].value;
      assert b.data[0..] == b.data;
    } else {
      assert Get(s.read, id) + [] == Get(s.read, id);
    }
  }

  /**
   What one step does to where a stream stands. Only a frame of the stream moves it: one that
   reaches the buffers and leaves no gap moves it to the end of the frame, as far as there is room.
   */
  lemma StepMoves(s: Pair, step: Step, z: Config, id: nat)
    requires Inv(s, z) && Enabled(s, step)
    ensures Fits(s.out.queue, z.send)
    ensures |Buffered(s.inn.slots, id)| <= z.recv.streamBuf
    ensures At(Apply(s, step, z), id) ==
            if step.Arrive? && step.e.streamId == id
               && Reaches(s.inn, id, step.e.offset, |step.e.data|, step.e.fin, step.connOk, z.recv) && step.e.offset <= At(s, id)
            then Max(At(s, id), Min(step.e.offset + |step.e.data|, At(s, id) + z.recv.streamBuf - |Buffered(s.inn.slots, id)|))
            else At(s, id)
  {
    InvFits(s, z);
    InvReader(s, id, z);
    if step.Arrive? && step.e.streamId == id {
      ArriveMoves(s, step.e, step.connOk, z);
    } else {
      Room(s, id, z);
      OthersStay(s, step, z, id);
    }
  }

  lemma Room(s: Pair, id: nat, z: Config)
    requires ReadInv(s, id, z)
    ensures |Buffered(s.inn.slots, id)| <= z.recv.streamBuf
  {
    hide SlotOf, Unique;
  }

  lemma ArriveMoves(s: Pair, e: Entry, connOk: bool, z: Config)
    requires Inv(s, z) && e in s.net
    ensures var id := e.streamId;
            && |Buffered(s.inn.slots, id)| <= z.recv.streamBuf
            && At(Apply(s, Arrive(e, connOk), z), id) ==
               if Reaches(s.inn, id, e.offset, |e.data|, e.fin, connOk, z.recv) && e.offset <= At(s, id)
               then Max(At(s, id), Min(e.offset + |e.data|, At(s, id) + z.recv.streamBuf - |Buffered(s.inn.slots, id)|))
               else At(s, id)
  {
    var id := e.streamId;
    assert ReadInv(s, id, z) && FrameInv(s, e);
    hide ReaderInv, OnStreamFrame, Reaches, Buffered, Inv;
    FrameStores(s.inn, id, Get(s.accepted, id), Closed(s, id), Get(s.read, id), id in s.ended, id in s.cut,
                e.offset, e.data, e.fin, connOk, z.recv);
  }

  lemma OthersStay(s: Pair, step: Step, z: Config, id: nat)
    requires Enabled(s, step) && Fits(s.out.queue, z.send) && Unique(s.inn.slots)
    requires step.Arrive? ==> step.e.streamId != id
    ensures At(Apply(s, step, z), id) == At(s, id)
  {
    hide Buffered, OnStreamFrame, Read, Send, Unique, Reaches, Cuts;
    match step
    case Arrive(e, connOk) =>
      FrameStoresOther(s.inn, id, e.streamId, e.offset, e.data, e.fin, connOk, z.recv);
    case ReadCall(j, len) =>
      ReadExactly(s.inn.slots, j, len);
      var r := Read(s.inn.slots, j, len).1;
      if r.Ok? && j == id {
        assert |Get(s.read, id) + r.value.0| == |Get(s.read, id)| + |r.value.0|;
      }
    case _ =>
  }

  /** The frame brings nothing new, or it reaches the buffers without a gap and with room for all of it. */
  predicate Timely(s: Pair, step: Step, z: Config, id: nat) {
    step.Arrive? && step.e.streamId == id ==>
      var e := step.e;
      || e.offset + |e.data| <= At(s, id)
      || (&& Reaches(s.inn, id, e.offset, |e.data|, e.fin, step.connOk, z.recv)
          && e.offset <= At(s, id) && e.offset + |e.data| <= At(s, id) + z.recv.streamBuf - |Buffered(s.inn.slots, id)|)
  }

  /** The highest end of the stream's frames that arrived. */
  function Reach(steps: seq<Step>, id: nat): nat {
    if steps == [] then 0
    else
      var last := steps[|steps| - 1];
      Max(Reach(steps[..|steps| - 1], id),
          if last.Arrive? && last.e.streamId == id then last.e.offset + |last.e.data| else 0)
  }

  lemma {:induction false} TimelyRun(ss: seq<Pair>, steps: seq<Step>, z: Config, id: nat, n: nat)
    requires Run(ss, steps, z) && n <= |steps| && forall i :: 0 <= i < n ==> Timely(ss[i], steps[i], z, id)
    ensures At(ss[n], id) == Reach(steps[..n], id)
    decreases n
  {
    hide Apply, At, Inv, Reaches, Buffered;
    if n == 0 {
      NothingYet(id);
    } else {
      TimelyRun(ss, steps, z, id, n - 1);
      InvRun(ss, steps, z, n - 1);
      StepMoves(ss[n - 1], steps[n - 1], z, id);
      assert steps[..n][..n - 1] == steps[..n - 1];
      assert Timely(ss[n - 1], steps[n - 1], z, id);
    }
  }

  lemma NothingYet(id: nat)
    ensures At(Init(), id) == 0
  {
  }

  /**
   Frames of a stream that arrive without gaps, admitted and with room, are all kept: what was
   read and what is ready are exactly the accepted bytes up to the highest frame end, so once a
   frame with the last accepted byte has arrived they are everything that was accepted.
   */
  lemma CatchesUp(ss: seq<Pair>, steps: seq<Step>, z: Config, id: nat)
    requires Run(ss, steps, z) && forall i :: 0 <= i < |steps| ==> Timely(ss[i], steps[i], z, id)
    ensures var s := ss[|steps|];
            var got := Get(s.read, id) + Buffered(s.inn.slots, id);
            && Reach(steps, id) <= |Get(s.accepted, id)| && got == Get(s.accepted, id)[..Reach(steps, id)]
            && (Reach(steps, id) == |Get(s.accepted, id)| ==> got == Get(s.accepted, id))
  {
    var s := ss[|steps|];
    TimelyRun(ss, steps, z, id, |steps|);
    InvRun(ss, steps, z, |steps|);
    InvReader(s, id, z);
    assert steps[..|steps|] == steps;
    hide Run, Inv, Buffered, ReadInv;
  }

  /**
   An end reported early: two bytes with FIN go to a receiver with buffers of one byte. One
   byte is read, and with it the end.
   */
  lemma EarlyEnd() returns (ss: seq<Pair>, steps: seq<Step>)
    ensures Run(ss, steps, Config(Sizes(2, 1), Limits(1, 4)))
    ensures var s := ss[|steps|];
            0 in s.ended && Get(s.read, 0) == [7] && Get(s.accepted, 0) == [7, 8] && Closed(s, 0) && 0 in s.cut
  {
    var z := Config(Sizes(2, 1), Limits(1, 4));
    var e := Entry(0, 0, [7, 8], true);
    var half := RecvState(Recv, 0, 100, 100, 100, None);
    ss, steps := EndOnItsWay(z, e);
    hide Run, Apply, Closed;
    var s3 := ss[|steps|];
    ss, steps := Extend(ss, steps, z, OpenRecv(0, Some(half)));
    var s4 := EndAwaited(z, s3, half);
    ss, steps := Extend(ss, steps, z, Arrive(e, true));
    var s5 := EndArrives(z, s4, e, half);
    ss, steps := Extend(ss, steps, z, ReadCall(0, 10));
    EndRead(z, s5);
    SameClosed(s3, ss[|steps|]);
  }

  lemma SameClosed(s: Pair, s': Pair)
    requires s'.out == s.out
    ensures Closed(s', 0) == Closed(s, 0)
  {
  }

  /** The sender's half of it: two bytes and FIN accepted and sent. */
  lemma EndOnItsWay(z: Config, e: Entry) returns (ss: seq<Pair>, steps: seq<Step>)
    requires z == Config(Sizes(2, 1), Limits(1, 4)) && e == Entry(0, 0, [7, 8], true)
    ensures Run(ss, steps, z) && |ss| == |steps| + 1
    ensures var s := ss[|steps|];
            && s.out.queue == [] && Get(s.accepted, 0) == [7, 8] && Closed(s, 0) && e in s.net
            && s.inn == In(map[], []) && s.read == map[]
  {
    ss, steps := [Init()], [];
    assert Run(ss, steps, z);
    hide Run, Apply;
    ss, steps := Extend(ss, steps, z, OpenSend(0, 100));
    var s1 := ss[|steps|];
    ss, steps := Extend(ss, steps, z, Call(0, [7, 8], true));
    var s2 := EndQueued(z, s1, e);
    ss, steps := Extend(ss, steps, z, Transmit(1));
    var s3 := EndSent(z, s2, e);
  }

  lemma Extend(ss: seq<Pair>, steps: seq<Step>, z: Config, step: Step) returns (ss': seq<Pair>, steps': seq<Step>)
    requires Run(ss, steps, z) && |ss| == |steps| + 1 && Enabled(ss[|steps|], step)
    ensures Run(ss', steps', z) && |ss'| == |steps'| + 1
    ensures Fits(ss[|steps|].out.queue, z.send) && ss'[|steps'|] == Apply(ss[|steps|], step, z)
  {
    hide Apply;
    RunContinues(ss, steps, z, step);
    ss', steps' := ss + [Apply(ss[|steps|], step, z)], steps + [step];
  }

  lemma EndQueued(z: Config, s: Pair, e: Entry) returns (s': Pair)
    requires z == Config(Sizes(2, 1), Limits(1, 4)) && e == Entry(0, 0, [7, 8], true)
    requires s == Apply(Init(), OpenSend(0, 100), z)
    ensures s' == Apply(s, Call(0, [7, 8], true), z)
    ensures s'.out.queue == [e] && Get(s'.accepted, 0) == [7, 8] && Closed(s', 0)
    ensures s'.inn == In(map[], []) && s'.read == map[]
  {
    s' := Apply(s, Call(0, [7, 8], true), z);
    assert EntryRoom(1, 2) == 2 && Capacity(s.out, 0, z.send) == 2;
    assert [7, 8][..2] == [7, 8] && [] + [7, 8] == [7, 8];
    assert Spill(0, 0, [7, 8], true, 2) == [e];
    assert [] + [e] == [e];
  }

  lemma EndArrives(z: Config, s: Pair, e: Entry, half: RecvState) returns (s': Pair)
    requires z == Config(Sizes(2, 1), Limits(1, 4)) && e == Entry(0, 0, [7, 8], true) && Fits(s.out.queue, z.send)
    requires half == RecvState(Recv, 0, 100, 100, 100, None)
    requires e in s.net && 0 in s.inn.recvs && s.inn.recvs[0] == Some(half) && s.inn.slots == []
    ensures s' == Apply(s, Arrive(e, true), z) && s'.inn.slots == [Some(RecvBuf(0, [7], 0, true, 1))] && 0 in s'.cut
    ensures s'.read == s.read && s'.accepted == s.accepted && s'.out == s.out
  {
    s' := Apply(s, Arrive(e, true), z);
    EndStored(z.recv);
    EndMarked(half);
    hide Store, Opened, SlotOf, CutsFin, MarkRecv, Fits;
    assert OnStreamFrame(s.inn, 0, 0, [7, 8], true, true, z.recv).0.slots == Store([], 0, 0, [7, 8], true, z.recv);
    assert Cuts(s.inn, 0, 0, [7, 8], true, true, z.recv);
  }

  lemma EndMarked(half: RecvState)
    requires half == RecvState(Recv, 0, 100, 100, 100, None)
    ensures MarkRecv(half, 0, 2, true).1.Ok?
  {
  }

  lemma EndStored(z: Limits)
    requires z == Limits(1, 4)
    ensures Store([], 0, 0, [7, 8], true, z) == [Some(RecvBuf(0, [7], 0, true, 1))]
    ensures Opened([], 0, z) == [Some(RecvBuf(0, [], 0, false, 0))] && SlotOf([Some(RecvBuf(0, [], 0, false, 0))], 0) == Some(0)
    ensures CutsFin(RecvBuf(0, [], 0, false, 0), 0, [7, 8], true, z)
  {
    var b, full := RecvBuf(0, [], 0, false, 0), RecvBuf(0, [7], 0, true, 1);
    var none: Slots := [];
    assert Opened(none, 0, z) == [Some(b)];
    SlotIs([Some(b)], 0, 0);
    EndFilled(z);
    hide Opened, Filled, SlotOf;
    assert [Some(b)][0 := Some(full)] == [Some(full)];
  }

  lemma EndFilled(z: Limits)
    requires z == Limits(1, 4)
    ensures Filled(RecvBuf(0, [], 0, false, 0), 0, [7, 8], true, z) == RecvBuf(0, [7], 0, true, 1)
  {
    var data: Bytes := [7, 8];
    assert data[0..] == data && data[..1] == [7] && [] + [7] == [7];
  }

  lemma EndSent(z: Config, s: Pair, e: Entry) returns (s': Pair)
    requires s.out.queue == [e] && Fits(s.out.queue, z.send)
    ensures s' == Apply(s, Transmit(1), z) && e in s'.net && s'.out.queue == [] && s'.out.sends == s.out.sends
    ensures s'.accepted == s.accepted && s'.inn == s.inn && s'.read == s.read
  {
    s' := Apply(s, Transmit(1), z);
    assert s.out.queue[..1] == [e] && s.out.queue[1..] == [];
  }

  lemma EndAwaited(z: Config, s: Pair, half: RecvState) returns (s': Pair)
    requires Fits(s.out.queue, z.send) && 0 !in s.inn.recvs && half.state.Recv?
    ensures s' == Apply(s, OpenRecv(0, Some(half)), z) && 0 in s'.inn.recvs && s'.inn.recvs[0] == Some(half)
    ensures s'.inn.slots == s.inn.slots && s'.out == s.out && s'.net == s.net && s'.accepted == s.accepted && s'.read == s.read
  {
    s' := Apply(s, OpenRecv(0, Some(half)), z);
  }

  lemma EndRead(z: Config, s: Pair)
    requires Fits(s.out.queue, z.send) && s.inn.slots == [Some(RecvBuf(0, [7], 0, true, 1))] && 0 !in s.read
    ensures var t := Apply(s, ReadCall(0, 10), z);
            0 in t.ended && Get(t.read, 0) == [7] && t.accepted == s.accepted && t.out == s.out && t.cut == s.cut
  {
    var full := RecvBuf(0, [7], 0, true, 1);
    SlotIs(s.inn.slots, 0, 0);
    assert full.data[0..1] == [7] && [] + [7] == [7];
    assert Read(s.inn.slots, 0, 10).1 == Ok(([7], true));
  }
}
