/**
 HTTP/3 frames from the writer to the peer's reads: a stream written by `send_headers` and
 `send_data` inside a run of all streams over a network that loses, repeats and reorders.
 */
module H3Run {
  import opened Bytes
  import opened Varint
  import opened SendPath
  import RecvPath
  import StreamRun
  import opened H3Writer

  type Config = StreamRun.Config

  /** The pair of connections and the frames written to stream `id` so far. */
  datatype Joint = Joint(pair: StreamRun.Pair, frames: seq<H3Frame>)

  /** A write to the stream, or anything else that happens to the two connections. */
  datatype Step =
    | WriteHeaders(block: Bytes, end: bool)
    | WriteData(data: Bytes, end: bool)
    | Other(step: StreamRun.Step)

  predicate Enabled(j: Joint, id: nat, step: Step) {
    match step
    case WriteHeaders(block, _) => |block| <= FRAME_BUF
    case WriteData(_, _) => true
    case Other(s) => StreamRun.Enabled(j.pair, s) && (s.Call? ==> s.id != id)
  }

  /** The pair once a call has left `out` and put `bytes` on the stream. */
  function Put(p: StreamRun.Pair, id: nat, out: Out, bytes: Bytes): StreamRun.Pair {
    p.(out := out, accepted := if id in p.accepted then p.accepted[id := p.accepted[id] + bytes] else p.accepted)
  }

  function Apply(j: Joint, id: nat, step: Step, z: Config): Joint
    requires Enabled(j, id, step) && Fits(j.pair.out.queue, z.send)
  {
    match step
    case WriteHeaders(block, end) =>
      var p := SendHeaders(j.pair.out, id, block, end, z.send);
      Joint(Put(j.pair, id, p.out, p.bytes), if p.result.Ok? then j.frames + [H3Frame(HEADERS, block)] else j.frames)
    case WriteData(data, end) =>
      var p := SendData(j.pair.out, id, data, end, z.send);
      DataWhole(j.pair.out, id, data, end, z.send);
      Joint(Put(j.pair, id, p.out, p.bytes),
            if p.bytes != [] then j.frames + [H3Frame(DATA, data[..p.result.value])] else j.frames)
    case Other(s) => Joint(StreamRun.Apply(j.pair, s, z), j.frames)
  }

  ghost predicate Run(js: seq<Joint>, id: nat, steps: seq<Step>, z: Config) {
    && |js| == |steps| + 1
    && js[0] == Joint(StreamRun.Init(), [])
    && forall i :: 0 <= i < |steps| ==>
                     && Enabled(js[i], id, steps[i]) && Fits(js[i].pair.out.queue, z.send)
                     && js[i + 1] == Apply(js[i], id, steps[i], z)
  }

  /** The pair is the last of a run of the two connections. */
  ghost predicate Reached(p: StreamRun.Pair, z: Config) {
    exists ss, steps :: StreamRun.Run(ss, steps, z) && ss[|steps|] == p
  }

  lemma ReachStep(p: StreamRun.Pair, step: StreamRun.Step, z: Config)
    requires Reached(p, z) && StreamRun.Enabled(p, step)
    ensures Fits(p.out.queue, z.send) && Reached(StreamRun.Apply(p, step, z), z)
  {
    hide StreamRun.Apply;
    var ss, steps :| StreamRun.Run(ss, steps, z) && ss[|steps|] == p;
    var ss', steps' := StreamRun.Extend(ss, steps, z, step);
    hide StreamRun.Run;
  }

  lemma ReachedInv(p: StreamRun.Pair, z: Config)
    requires Reached(p, z)
    ensures StreamRun.Inv(p, z)
  {
    var ss, steps :| StreamRun.Run(ss, steps, z) && ss[|steps|] == p;
    StreamRun.InvRun(ss, steps, z, |steps|);
  }

  /** One `stream_send` on the stream is one step of the pair. */
  lemma CallPuts(p: StreamRun.Pair, id: nat, data: Bytes, fin: bool, z: Config)
    requires Fits(p.out.queue, z.send)
    ensures var (o, r) := Send(p.out, id, data, fin, z.send);
            && (r.Ok? ==> r.value <= |data|)
            && StreamRun.Apply(p, StreamRun.Call(id, data, fin), z) == Put(p, id, o, if r.Ok? then data[..r.value] else [])
  {
    hide Send, Capacity, QueueRoom, RoomAfterFin;
    SendTakesCapacity(p.out, id, data, fin, z.send);
    var r := Send(p.out, id, data, fin, z.send).1;
    if r.Err? && id in p.accepted {
      assert p.accepted[id] + [] == p.accepted[id];
      assert p.accepted[id := p.accepted[id]] == p.accepted;
    }
  }

  lemma PutNothing(p: StreamRun.Pair, id: nat)
    ensures Put(p, id, p.out, []) == p
  {
    if id in p.accepted {
      assert p.accepted[id] + [] == p.accepted[id];
      assert p.accepted[id := p.accepted[id]] == p.accepted;
    }
  }

  lemma PutTwice(p: StreamRun.Pair, id: nat, o1: Out, a: Bytes, o2: Out, b: Bytes)
    ensures Put(Put(p, id, o1, a), id, o2, b) == Put(p, id, o2, a + b)
  {
    if id in p.accepted {
      assert p.accepted[id] + a + b == p.accepted[id] + (a + b);
    }
  }

  lemma HeadersReach(p: StreamRun.Pair, id: nat, block: Bytes, end: bool, z: Config)
    requires Reached(p, z) && Fits(p.out.queue, z.send) && |block| <= FRAME_BUF
    ensures var h := SendHeaders(p.out, id, block, end, z.send);
            Reached(Put(p, id, h.out, h.bytes), z) && (h.bytes != [] ==> id in p.out.sends)
  {
    hide Reached, Send, Capacity, H3Bytes, Put, StreamRun.Apply;
    var frame := H3Bytes(H3Frame(HEADERS, block));
    PutNothing(p, id);
    CallPuts(p, id, frame, end, z);
    ReachStep(p, StreamRun.Call(id, frame, end), z);
    SentNeedsStream(p.out, id, frame, end, z.send);
  }

  lemma SentNeedsStream(o: Out, id: nat, data: Bytes, fin: bool, z: Sizes)
    requires Fits(o.queue, z)
    ensures Send(o, id, data, fin, z).1.Ok? ==> id in o.sends && id in Send(o, id, data, fin, z).0.sends
  {
    hide Enqueue, Capacity;
  }

  lemma DataReach(p: StreamRun.Pair, id: nat, data: Bytes, end: bool, z: Config)
    requires Reached(p, z) && Fits(p.out.queue, z.send)
    ensures var d := SendData(p.out, id, data, end, z.send);
            Reached(Put(p, id, d.out, d.bytes), z) && (d.bytes != [] ==> id in p.out.sends)
  {
    hide Reached, Send, Capacity, Put, StreamRun.Apply, SendChunk, VarintLen;
    PutNothing(p, id);
    if data == [] && end {
      var none: Bytes := [];
      CallPuts(p, id, none, true, z);
      ReachStep(p, StreamRun.Call(id, none, true), z);
      var (o, r) := Send(p.out, id, none, true, z.send);
      assert (if r.Ok? then none[..r.value] else []) == none;
      assert SendData(p.out, id, data, end, z.send).out == o;
    } else {
      var chunk := Min(|data|, Capacity(p.out, id, z.send) - MAX_DATA_HEADER);
      if 0 <= chunk <= MAX_VARINT {
        ChunkReach(p, id, data[..chunk], end && chunk == |data|, z);
      }
    }
  }

  lemma ChunkReach(p: StreamRun.Pair, id: nat, chunk: Bytes, fin: bool, z: Config)
    requires Reached(p, z) && Fits(p.out.queue, z.send) && |chunk| <= MAX_VARINT
    ensures var d := SendChunk(p.out, id, chunk, fin, z.send);
            Reached(Put(p, id, d.out, d.bytes), z) && (d.bytes != [] ==> id in p.out.sends)
  {
    hide Reached, Send, Capacity, Head, Put, StreamRun.Apply;
    var head := Head(DATA, |chunk|);
    var (o1, r1) := Send(p.out, id, head, false, z.send);
    CallPuts(p, id, head, false, z);
    ReachStep(p, StreamRun.Call(id, head, false), z);
    SentNeedsStream(p.out, id, head, false, z.send);
    if r1.Ok? {
      var p1 := Put(p, id, o1, head[..r1.value]);
      PutOut(p, id, o1, head[..r1.value]);
      SendTakesCapacity(p.out, id, head, false, z.send);
      CallPuts(p1, id, chunk, fin, z);
      ReachStep(p1, StreamRun.Call(id, chunk, fin), z);
      var (o2, r2) := Send(o1, id, chunk, fin, z.send);
      PutTwice(p, id, o1, head[..r1.value], o2, if r2.Ok? then chunk[..r2.value] else []);
      assert head[..r1.value] + [] == head[..r1.value];
    }
  }

  lemma PutOut(p: StreamRun.Pair, id: nat, o: Out, bytes: Bytes)
    ensures Put(p, id, o, bytes).out == o
  {
  }

  ghost predicate Inv(j: Joint, id: nat, z: Config) {
    && Reached(j.pair, z)
    && (forall i :: 0 <= i < |j.frames| ==> Encodes(j.frames[i]))
    && StreamRun.Get(j.pair.accepted, id) == Wire(j.frames)
  }

  lemma InvStep(j: Joint, id: nat, step: Step, z: Config)
    requires Inv(j, id, z) && Enabled(j, id, step) && Fits(j.pair.out.queue, z.send)
    ensures Inv(Apply(j, id, step, z), id, z)
  {
    hide Inv, Apply;
    match step
    case WriteHeaders(block, end) => InvHeaders(j, id, block, end, z);
    case WriteData(data, end) => InvData(j, id, data, end, z);
    case Other(s) => InvOther(j, id, s, z);
  }

  lemma InvHeaders(j: Joint, id: nat, block: Bytes, end: bool, z: Config)
    requires Inv(j, id, z) && Enabled(j, id, WriteHeaders(block, end)) && Fits(j.pair.out.queue, z.send)
    ensures Inv(Apply(j, id, WriteHeaders(block, end), z), id, z)
  {
    hide Reached, SendHeaders, SendData, H3Bytes, Fits, StreamRun.Inv, StreamRun.Apply, Put;
    var p := j.pair;
    KeysAgree(p, z);
    HeadersReach(p, id, block, end, z);
    HeadersWhole(p.out, id, block, end, z.send);
    FrameNotEmpty(H3Frame(HEADERS, block));
    var h := SendHeaders(p.out, id, block, end, z.send);
    PutAdds(p, id, h.out, h.bytes);
    if h.bytes != [] { Extended(j.frames, H3Frame(HEADERS, block)); }
  }

  lemma InvData(j: Joint, id: nat, data: Bytes, end: bool, z: Config)
    requires Inv(j, id, z) && Enabled(j, id, WriteData(data, end)) && Fits(j.pair.out.queue, z.send)
    ensures Inv(Apply(j, id, WriteData(data, end), z), id, z)
  {
    hide Reached, SendHeaders, SendData, H3Bytes, Fits, StreamRun.Inv, StreamRun.Apply, Put;
    var p := j.pair;
    KeysAgree(p, z);
    DataReach(p, id, data, end, z);
    DataWhole(p.out, id, data, end, z.send);
    var d := SendData(p.out, id, data, end, z.send);
    PutAdds(p, id, d.out, d.bytes);
    if d.bytes != [] { Extended(j.frames, H3Frame(DATA, data[..d.result.value])); }
  }

  lemma InvOther(j: Joint, id: nat, s: StreamRun.Step, z: Config)
    requires Inv(j, id, z) && Enabled(j, id, Other(s)) && Fits(j.pair.out.queue, z.send)
    ensures Inv(Apply(j, id, Other(s), z), id, z)
  {
    hide Reached, Fits, StreamRun.Inv, StreamRun.Apply;
    KeysAgree(j.pair, z);
    ReachStep(j.pair, s, z);
    OthersKeep(j.pair, s, id, z);
  }

  lemma PutAdds(p: StreamRun.Pair, id: nat, out: Out, bytes: Bytes)
    requires bytes != [] ==> id in p.accepted
    ensures StreamRun.Get(Put(p, id, out, bytes).accepted, id) == StreamRun.Get(p.accepted, id) + bytes
  {
  }

  lemma FrameNotEmpty(f: H3Frame)
    requires Encodes(f)
    ensures H3Bytes(f) != []
  {
  }

  lemma KeysAgree(p: StreamRun.Pair, z: Config)
    requires Reached(p, z)
    ensures p.accepted.Keys == p.out.sends.Keys
  {
    ReachedInv(p, z);
  }

  /** Only calls on the stream add to what was accepted for it. */
  lemma OthersKeep(p: StreamRun.Pair, s: StreamRun.Step, id: nat, z: Config)
    requires StreamRun.Enabled(p, s) && (s.Call? ==> s.id != id) && Fits(p.out.queue, z.send)
    requires p.accepted.Keys == p.out.sends.Keys
    ensures StreamRun.Get(StreamRun.Apply(p, s, z).accepted, id) == StreamRun.Get(p.accepted, id)
  {
    hide Send;
  }

  lemma {:induction false} InvRun(js: seq<Joint>, id: nat, steps: seq<Step>, z: Config, n: nat)
    requires Run(js, id, steps, z) && n <= |steps|
    ensures Inv(js[n], id, z)
    decreases n
  {
    hide Apply, Inv;
    if n == 0 {
      StartInv(id, z);
    } else {
      InvRun(js, id, steps, z, n - 1);
      InvStep(js[n - 1], id, steps[n - 1], z);
    }
  }

  lemma StartInv(id: nat, z: Config)
    ensures Inv(Joint(StreamRun.Init(), []), id, z)
  {
    var ss, steps := [StreamRun.Init()], [];
    assert StreamRun.Run(ss, steps, z);
  }

  // --------------------------------------------------------------------------------
  // Parsing a stream that is still arriving
  // --------------------------------------------------------------------------------

  /** A varint that decodes does not change when more bytes come. */
  lemma DecodeGrows(s: Bytes, more: Bytes)
    requires DecodeVarint(s).Ok?
    ensures DecodeVarint(s + more) == DecodeVarint(s)
  {
    var n := WidthOf(s[0] / 64);
    assert (s + more)[..n] == s[..n];
  }

  /** Less than a frame parses to nothing. */
  lemma PartialFrame(f: H3Frame, s: Bytes)
    requires Encodes(f) && s < H3Bytes(f)
    ensures ParseH3(s) == ([], s)
  {
    hide DecodeVarint, VarintBytes;
    var a, b := VarintBytes(f.ty), VarintBytes(|f.payload|);
    var whole := H3Bytes(f);
    assert whole == a + (b + f.payload) && whole == s + whole[|s|..];
    if DecodeVarint(s).Ok? {
      VarintRoundTrip(f.ty, b + f.payload);
      DecodeGrows(s, whole[|s|..]);
      var t := s[|a|..];
      if DecodeVarint(t).Ok? {
        VarintRoundTrip(|f.payload|, f.payload);
        assert t + whole[|s|..] == b + f.payload;
        DecodeGrows(t, whole[|s|..]);
      }
    }
  }

  /** Any prefix of whole frames parses to the first of them, with the bytes after those left over. */
  lemma {:induction false} PrefixParses(fs: seq<H3Frame>, s: Bytes)
    requires (forall i :: 0 <= i < |fs| ==> Encodes(fs[i])) && s <= Wire(fs)
    ensures var (got, rest) := ParseH3(s);
            got <= fs && s == Wire(got) + rest
    decreases |fs|
  {
    if fs == [] {
      WireParses([]);
    } else {
      var head, tail := H3Bytes(fs[0]), Wire(fs[1..]);
      assert Wire(fs) == head + tail;
      hide H3Bytes, ParseH3, Encodes, Wire;
      if |s| < |head| {
        PartialFrame(fs[0], s);
        WireParses([]);
        NothingFirst(fs, s);
      } else {
        var more := s[|head|..];
        assert s == head + more && more <= tail;
        ParsesFirst(fs[0], more);
        PrefixParses(fs[1..], more);
        OneMoreFrame(fs, ParseH3(more).0, ParseH3(more).1);
      }
    }
  }

  lemma NothingFirst(fs: seq<H3Frame>, s: Bytes)
    ensures [] <= fs && s == Wire([]) + s
  {
  }

  lemma OneMoreFrame(fs: seq<H3Frame>, got: seq<H3Frame>, rest: Bytes)
    requires fs != [] && (forall i :: 0 <= i < |fs| ==> Encodes(fs[i])) && got <= fs[1..]
    ensures var all := [fs[0]] + got;
            all <= fs && Wire(all) + rest == H3Bytes(fs[0]) + (Wire(got) + rest)
  {
    hide H3Bytes, Encodes;
    assert ([fs[0]] + got)[1..] == got;
  }

  /**
   Whatever the network does, what the peer reads from the stream is a prefix of the frames
   written, in order; it parses to the first of those frames. If the end is reported and the
   frame with FIN was stored whole, it parses to all of them.
   */
  lemma PeerReadsFrames(js: seq<Joint>, id: nat, steps: seq<Step>, z: Config)
    requires Run(js, id, steps, z)
    ensures var j := js[|steps|];
            var read := StreamRun.Get(j.pair.read, id);
            && (forall i :: 0 <= i < |j.frames| ==> Encodes(j.frames[i]))
            && read <= Wire(j.frames)
            && ParseH3(read).0 <= j.frames && read == Wire(ParseH3(read).0) + ParseH3(read).1
            && (id in j.pair.ended && id !in j.pair.cut ==> ParseH3(read) == (j.frames, []))
  {
    InvRun(js, id, steps, z, |steps|);
    hide Run, ParseH3;
    var j := js[|steps|];
    var ss, qs :| StreamRun.Run(ss, qs, z) && ss[|qs|] == j.pair;
    StreamRun.ReadsPrefix(ss, qs, z, id);
    PrefixParses(j.frames, StreamRun.Get(j.pair.read, id));
    WireParses(j.frames);
  }

  /** Once as many bytes are read as were written, they are all the frames. */
  lemma PeerReadsAll(js: seq<Joint>, id: nat, steps: seq<Step>, z: Config)
    requires Run(js, id, steps, z)
    requires forall i :: 0 <= i < |js[|steps|].frames| ==> Encodes(js[|steps|].frames[i])
    requires |StreamRun.Get(js[|steps|].pair.read, id)| >= |Wire(js[|steps|].frames)|
    ensures ParseH3(StreamRun.Get(js[|steps|].pair.read, id)) == (js[|steps|].frames, [])
  {
    assert |js| == |steps| + 1;
    hide Run, ParseH3, Wire, Encodes;
    PeerReadsFrames(js, id, steps, z);
    WireParses(js[|steps|].frames);
    assert StreamRun.Get(js[|steps|].pair.read, id) == Wire(js[|steps|].frames);
  }
}
