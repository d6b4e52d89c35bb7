/**
 Writing HTTP/3 frames onto a QUIC stream (section 7.1 of RFC 9114): HEADERS go out whole or
 not at all, DATA frames are sized to what the send queue takes.
 */
module H3Writer {
  import opened Bytes
  import opened Varint
  import opened SendPath

  const DATA: nat := 0x00
  const HEADERS: nat := 0x01
  const FRAME_BUF: nat := 2048
  const MAX_DATA_HEADER: nat := 5

  /** A frame as it lies on the stream. */
  datatype H3Frame = H3Frame(ty: nat, payload: Bytes)

  predicate Encodes(f: H3Frame) { f.ty <= MAX_VARINT && |f.payload| <= MAX_VARINT }

  function Head(ty: nat, len: nat): (s: Bytes)
    requires ty <= MAX_VARINT && len <= MAX_VARINT
    ensures |s| == VarintLen(ty) + VarintLen(len)
  {
    VarintBytes(ty) + VarintBytes(len)
  }

  function H3Bytes(f: H3Frame): Bytes
    requires Encodes(f)
  {
    Head(f.ty, |f.payload|) + f.payload
  }

  function Wire(fs: seq<H3Frame>): Bytes
    requires forall i :: 0 <= i < |fs| ==> Encodes(fs[i])
  {
    if fs == [] then [] else H3Bytes(fs[0]) + Wire(fs[1..])
  }

  /** The type-length-value parse of a byte string, and what is left of it. */
  function ParseH3(s: Bytes): (seq<H3Frame>, Bytes)
    decreases |s|
  {
    match DecodeVarint(s)
    case Err(_) => ([], s)
    case Ok((ty, n1)) =>
      match DecodeVarint(s[n1..])
      case Err(_) => ([], s)
      case Ok((len, n2)) =>
        if |s| - n1 - n2 < len then ([], s)
        else
          var (fs, rest) := ParseH3(s[n1 + n2 + len..]);
          ([H3Frame(ty, s[n1 + n2..n1 + n2 + len])] + fs, rest)
  }

  /** What a call puts on the stream, besides its effect and result. */
  datatype Placed<T> = Placed(out: Out, result: Result<T>, bytes: Bytes)

  /** `send_headers` for an encoded field section `block`. */
  function SendHeaders(o: Out, id: nat, block: Bytes, end: bool, z: Sizes): Placed<()>
    requires Fits(o.queue, z) && |block| <= FRAME_BUF
  {
    var frame := H3Bytes(H3Frame(HEADERS, block));
    if |frame| > FRAME_BUF then Placed(o, Err(BufferTooSmall(|frame|)), [])
    else if Capacity(o, id, z) < |frame| then Placed(o, Err(BufferTooSmall(|frame|)), [])
    else
      var (o', r) := Send(o, id, frame, end, z);
      SendTakesCapacity(o, id, frame, end, z);
      if r.Err? then Placed(o', Err(r.error), []) else Placed(o', Ok(()), frame[..r.value])
  }

  /** `send_data`. */
  function SendData(o: Out, id: nat, data: Bytes, end: bool, z: Sizes): Placed<nat>
    requires Fits(o.queue, z)
  {
    SendTakesCapacity(o, id, [], true, z);
    if data == [] && end then
      var (o', r) := Send(o, id, [], true, z);
      Placed(o', if r.Err? then Err(r.error) else Ok(0), [])
    else
      var capacity := Capacity(o, id, z);
      if capacity <= MAX_DATA_HEADER then Placed(o, Ok(0), [])
      else
        var chunk := Min(|data|, capacity - MAX_DATA_HEADER);
        if chunk > MAX_VARINT || VarintLen(DATA) + VarintLen(chunk) > MAX_DATA_HEADER then
          Placed(o, Err(BufferTooSmall(VarintLen(DATA) + VarintLen(chunk))), [])
        else
          SendChunk(o, id, data[..chunk], end && chunk == |data|, z)
  }

  /** The header of a DATA frame, then its payload. */
  function SendChunk(o: Out, id: nat, chunk: Bytes, fin: bool, z: Sizes): Placed<nat>
    requires Fits(o.queue, z) && |chunk| <= MAX_VARINT
  {
    var head := Head(DATA, |chunk|);
    SendTakesCapacity(o, id, head, false, z);
    var (o1, r1) := Send(o, id, head, false, z);
    if r1.Err? then Placed(o1, Err(r1.error), [])
    else
      var (o2, r2) := Send(o1, id, chunk, fin, z);
      SendTakesCapacity(o1, id, chunk, fin, z);
      if r2.Err? then Placed(o2, Err(r2.error), head[..r1.value])
      else Placed(o2, Ok(|chunk|), head[..r1.value] + chunk[..r2.value])
  }

  /** The HTTP/3 side of a connection, writing through its QUIC streams. */
  class H3Connection {
    const quic: StreamSender

    constructor (z: Sizes)
      ensures quic.z == z && fresh(quic) && Fits(quic.queue, z)
    {
      quic := new StreamSender(z);
    }

    method SendHeadersFrame(id: nat, block: Bytes, end: bool) returns (r: Result<()>)
      requires Fits(quic.queue, quic.z) && |block| <= FRAME_BUF
      modifies quic
      ensures Fits(quic.queue, quic.z)
      ensures var p := SendHeaders(old(quic.Value()), id, block, end, quic.z);
              quic.Value() == p.out && r == p.result
    {
      hide Send, Capacity, H3Bytes;
      var frame := H3Bytes(H3Frame(HEADERS, block));
      if |frame| > FRAME_BUF {
        return Err(BufferTooSmall(|frame|));
      }
      if Capacity(quic.Value(), id, quic.z) < |frame| {
        return Err(BufferTooSmall(|frame|));
      }
      SendTakesCapacity(quic.Value(), id, frame, end, quic.z);
      var sent := quic.StreamSend(id, frame, end);
      if sent.Err? {
        return Err(sent.error);
      }
      assert sent.value == |frame|;
      return Ok(());
    }

    /** Both assertions are the `debug_assert_eq!` of the source. */
    method SendDataFrame(id: nat, data: Bytes, end: bool) returns (r: Result<nat>)
      requires Fits(quic.queue, quic.z)
      modifies quic
      ensures Fits(quic.queue, quic.z)
      ensures var p := SendData(old(quic.Value()), id, data, end, quic.z);
              quic.Value() == p.out && r == p.result
    {
      hide Send, Capacity, Head;
      if data == [] && end {
        var bare := quic.StreamSend(id, [], true);
        return if bare.Err? then Err(bare.error) else Ok(0);
      }
      var capacity := Capacity(quic.Value(), id, quic.z);
      if capacity <= MAX_DATA_HEADER {
        return Ok(0);
      }
      var chunk := Min(|data|, capacity - MAX_DATA_HEADER);
      if chunk > MAX_VARINT || VarintLen(DATA) + VarintLen(chunk) > MAX_DATA_HEADER {
        return Err(BufferTooSmall(VarintLen(DATA) + VarintLen(chunk)));
      }
      var head := Head(DATA, chunk);
      SendTakesCapacity(quic.Value(), id, head, false, quic.z);
      ghost var o := quic.Value();
      var sent := quic.StreamSend(id, head, false);
      if sent.Err? {
        return Err(sent.error);
      }
      assert sent.value == |head|;
      var fin := end && chunk == |data|;
      SendTakesCapacity(quic.Value(), id, data[..chunk], fin, quic.z);
      PayloadGoesThrough(o, id, head, data[..chunk], fin, quic.z);
      sent := quic.StreamSend(id, data[..chunk], fin);
      assert sent == Ok(chunk);
      return Ok(chunk);
    }
  }

  /** Once the header is on the stream, its payload follows whole: the capacity was there and nothing can refuse it. */
  lemma PayloadGoesThrough(o: Out, id: nat, head: Bytes, payload: Bytes, fin: bool, z: Sizes)
    requires Fits(o.queue, z) && head != [] && |head| + |payload| <= Capacity(o, id, z)
    requires Send(o, id, head, false, z).1.Ok? && (payload == [] ==> !fin)
    ensures Fits(Send(o, id, head, false, z).0.queue, z)
    ensures Send(Send(o, id, head, false, z).0, id, payload, fin, z).1 == Ok(|payload|)
  {
    SendTakesCapacity(o, id, head, false, z);
    hide QueueRoom, Enqueue;
  }

  // --------------------------------------------------------------------------------
  // Whole frames only
  // --------------------------------------------------------------------------------

  /** HEADERS: the whole frame or nothing. */
  lemma HeadersWhole(o: Out, id: nat, block: Bytes, end: bool, z: Sizes)
    requires Fits(o.queue, z) && |block| <= FRAME_BUF
    ensures var p := SendHeaders(o, id, block, end, z);
            p.bytes == if p.result.Ok? then H3Bytes(H3Frame(HEADERS, block)) else []
  {
    hide Send, Capacity, H3Bytes;
    var frame := H3Bytes(H3Frame(HEADERS, block));
    SendTakesCapacity(o, id, frame, end, z);
    var r := Send(o, id, frame, end, z).1;
    assert Capacity(o, id, z) >= |frame| && r.Ok? ==> r.value == |frame|;
    assert frame[..|frame|] == frame;
  }

  /** DATA: one whole frame carrying exactly the accepted prefix, or nothing at all. */
  lemma DataWhole(o: Out, id: nat, data: Bytes, end: bool, z: Sizes)
    requires Fits(o.queue, z)
    ensures var p := SendData(o, id, data, end, z);
            && (p.result.Ok? ==> p.result.value <= |data|)
            && (p.bytes == [] ==> p.result.Err? || p.result.value == 0)
            && (p.bytes != [] ==>
                  && p.result.Ok? && p.result.value <= MAX_VARINT
                  && p.bytes == H3Bytes(H3Frame(DATA, data[..p.result.value])))
  {
    hide Send, Capacity;
    var capacity := Capacity(o, id, z);
    if !(data == [] && end) && capacity > MAX_DATA_HEADER {
      var chunk := Min(|data|, capacity - MAX_DATA_HEADER);
      if chunk <= MAX_VARINT && VarintLen(DATA) + VarintLen(chunk) <= MAX_DATA_HEADER {
        var head := Head(DATA, chunk);
        SendTakesCapacity(o, id, head, false, z);
        if Send(o, id, head, false, z).1.Ok? {
          PayloadGoesThrough(o, id, head, data[..chunk], end && chunk == |data|, z);
          assert head[..|head|] == head && data[..chunk][..chunk] == data[..chunk];
        }
      }
    }
  }

  /** The stream is there and can be written to. */
  predicate Writable(o: Out, id: nat) { id in o.sends && (o.sends[id].state.Ready? || o.sends[id].state.Sending?) }

  lemma SendGoes(o: Out, id: nat, data: Bytes, fin: bool, z: Sizes)
    requires Fits(o.queue, z) && 0 < |data| <= Capacity(o, id, z)
    ensures Send(o, id, data, fin, z).1 == if Writable(o, id) then Ok(|data|) else Err(StreamStateError)
  {
    SendOutcome(o, id, data, fin, z);
    hide Send, QueueRoom;
  }

  /** HEADERS go out exactly if the frame fits the buffer it is built in and the stream's capacity, and the stream can be written to. */
  lemma HeadersExactly(o: Out, id: nat, block: Bytes, end: bool, z: Sizes)
    requires Fits(o.queue, z) && |block| <= FRAME_BUF
    ensures var total := 1 + VarintLen(|block|) + |block|;
            SendHeaders(o, id, block, end, z).result ==
            if total > FRAME_BUF || total > Capacity(o, id, z) then Err(BufferTooSmall(total))
            else if Writable(o, id) then Ok(()) else Err(StreamStateError)
  {
    hide Send, Capacity, VarintLen;
    var frame := H3Bytes(H3Frame(HEADERS, block));
    assert |frame| == 1 + VarintLen(|block|) + |block| by { ShortType(); }
    if |frame| <= Capacity(o, id, z) {
      SendGoes(o, id, frame, end, z);
    }
  }

  lemma ShortType()
    ensures VarintLen(DATA) == 1 && VarintLen(HEADERS) == 1
  {
  }

  /**
   How much of a body is taken: everything up to the capacity less five bytes for the frame
   header, none at all with five bytes or less; chunks of 2^30 bytes or more are refused, their
   header being longer than that.
   */
  lemma DataExactly(o: Out, id: nat, data: Bytes, end: bool, z: Sizes)
    requires Fits(o.queue, z) && !(data == [] && end)
    ensures var capacity := Capacity(o, id, z);
            var chunk := Min(|data|, capacity - 5);
            SendData(o, id, data, end, z).result ==
            if capacity <= 5 then Ok(0)
            else if chunk >= 0x4000_0000 then Err(BufferTooSmall(9))
            else if Writable(o, id) then Ok(chunk) else Err(StreamStateError)
  {
    hide Send, Capacity;
    var capacity := Capacity(o, id, z);
    var chunk := Min(|data|, capacity - MAX_DATA_HEADER);
    ShortType();
    if capacity > MAX_DATA_HEADER && chunk < 0x4000_0000 {
      var head := Head(DATA, chunk);
      SendGoes(o, id, head, false, z);
      if Writable(o, id) {
        PayloadGoesThrough(o, id, head, data[..chunk], end && chunk == |data|, z);
      }
    }
  }

  lemma FinWithAll(o: Out, id: nat, data: Bytes, fin: bool, z: Sizes)
    requires Fits(o.queue, z) && id in o.sends
    ensures var (o', r) := Send(o, id, data, fin, z);
            id in o'.sends && (o'.sends[id].finSent <==> o.sends[id].finSent || (fin && r == Ok(|data|)))
  {
    hide Capacity, Enqueue;
  }

  /** A call ends the stream exactly when it was asked to and took everything it was given. */
  lemma EndsWithAll(o: Out, id: nat, data: Bytes, end: bool, z: Sizes)
    requires Fits(o.queue, z) && id in o.sends && !o.sends[id].finSent
    ensures var p := SendData(o, id, data, end, z);
            id in p.out.sends && (p.out.sends[id].finSent <==> end && p.result == Ok(|data|))
    ensures |data| <= FRAME_BUF ==>
              var p := SendHeaders(o, id, data, end, z);
              id in p.out.sends && (p.out.sends[id].finSent <==> end && p.result.Ok?)
  {
    hide Send, Capacity, H3Bytes, Head;
    if |data| <= FRAME_BUF {
      var frame := H3Bytes(H3Frame(HEADERS, data));
      FinWithAll(o, id, frame, end, z);
      SendTakesCapacity(o, id, frame, end, z);
    }
    FinWithAll(o, id, [], true, z);
    SendTakesCapacity(o, id, [], true, z);
    var capacity := Capacity(o, id, z);
    var chunk := Min(|data|, capacity - MAX_DATA_HEADER);
    if !(data == [] && end) && capacity > MAX_DATA_HEADER && chunk <= MAX_VARINT
       && VarintLen(DATA) + VarintLen(chunk) <= MAX_DATA_HEADER {
      ChunkEnds(o, id, data[..chunk], end && chunk == |data|, z);
    }
  }

  lemma ChunkEnds(o: Out, id: nat, chunk: Bytes, fin: bool, z: Sizes)
    requires Fits(o.queue, z) && id in o.sends && !o.sends[id].finSent
    requires |chunk| <= MAX_VARINT && VarintLen(DATA) + VarintLen(|chunk|) + |chunk| <= Capacity(o, id, z)
    requires chunk == [] ==> !fin
    ensures var p := SendChunk(o, id, chunk, fin, z);
            id in p.out.sends && (p.out.sends[id].finSent <==> fin && p.result.Ok?)
  {
    hide Send, Capacity, Head;
    var head := Head(DATA, |chunk|);
    FinWithAll(o, id, head, false, z);
    SendTakesCapacity(o, id, head, false, z);
    var (o1, r1) := Send(o, id, head, false, z);
    if r1.Ok? {
      PayloadGoesThrough(o, id, head, chunk, fin, z);
      FinWithAll(o1, id, chunk, fin, z);
    }
  }

  /**
   One stream as the HTTP/3 layer has written it: the bytes on the QUIC stream, the frames
   they are meant to be, and the body bytes accepted from the application.
   */
  datatype Written = Written(out: Out, wire: Bytes, frames: seq<H3Frame>, body: Bytes)

  /** `Background` is everything else that happens to the connection: other streams, transmission, limits. */
  datatype Step = Headers(block: Bytes, end: bool) | Data(data: Bytes, end: bool) | Background(out: Out)

  predicate Enabled(step: Step, z: Sizes) {
    match step
    case Headers(block, _) => |block| <= FRAME_BUF
    case Data(_, _) => true
    case Background(out) => Fits(out.queue, z)
  }

  function Apply(w: Written, id: nat, step: Step, z: Sizes): Written
    requires Enabled(step, z) && Fits(w.out.queue, z)
  {
    match step
    case Headers(block, end) =>
      var p := SendHeaders(w.out, id, block, end, z);
      w.(out := p.out, wire := w.wire + p.bytes,
         frames := if p.result.Ok? then w.frames + [H3Frame(HEADERS, block)] else w.frames)
    case Data(data, end) =>
      var p := SendData(w.out, id, data, end, z);
      DataWhole(w.out, id, data, end, z);
      var n := if p.result.Ok? then p.result.value else 0;
      w.(out := p.out, wire := w.wire + p.bytes,
         frames := if p.bytes != [] then w.frames + [H3Frame(DATA, data[..n])] else w.frames,
         body := w.body + data[..n])
    case Background(out) => w.(out := out)
  }

  function Body(fs: seq<H3Frame>): Bytes {
    if fs == [] then [] else Body(fs[..|fs| - 1]) + if fs[|fs| - 1].ty == DATA then fs[|fs| - 1].payload else []
  }

  predicate Inv(w: Written, z: Sizes) {
    && Fits(w.out.queue, z)
    && (forall i :: 0 <= i < |w.frames| ==> Encodes(w.frames[i]))
    && w.wire == Wire(w.frames)
    && w.body == Body(w.frames)
  }

  lemma InvStep(w: Written, id: nat, step: Step, z: Sizes)
    requires Inv(w, z) && Enabled(step, z)
    ensures Inv(Apply(w, id, step, z), z)
  {
    hide SendHeaders, SendData, H3Bytes, Fits;
    assert w.wire + [] == w.wire && w.body + [] == w.body;
    match step
    case Headers(block, end) =>
      HeadersFits(w.out, id, block, end, z);
      HeadersWhole(w.out, id, block, end, z);
      Extended(w.frames, H3Frame(HEADERS, block));
    case Data(data, end) =>
      DataFits(w.out, id, data, end, z);
      DataWhole(w.out, id, data, end, z);
      var p := SendData(w.out, id, data, end, z);
      if p.bytes != [] { Extended(w.frames, H3Frame(DATA, data[..p.result.value])); }
    case Background(out) =>
  }

  lemma HeadersFits(o: Out, id: nat, block: Bytes, end: bool, z: Sizes)
    requires Fits(o.queue, z) && |block| <= FRAME_BUF
    ensures Fits(SendHeaders(o, id, block, end, z).out.queue, z)
  {
    hide Send, Capacity, H3Bytes;
    SendTakesCapacity(o, id, H3Bytes(H3Frame(HEADERS, block)), end, z);
  }

  lemma DataFits(o: Out, id: nat, data: Bytes, end: bool, z: Sizes)
    requires Fits(o.queue, z)
    ensures Fits(SendData(o, id, data, end, z).out.queue, z)
  {
    hide Send, Capacity, Fits, SendChunk;
    SendTakesCapacity(o, id, [], true, z);
    var chunk := Min(|data|, Capacity(o, id, z) - MAX_DATA_HEADER);
    if 0 <= chunk <= MAX_VARINT { ChunkFits(o, id, data[..chunk], end && chunk == |data|, z); }
  }

  lemma ChunkFits(o: Out, id: nat, chunk: Bytes, fin: bool, z: Sizes)
    requires Fits(o.queue, z) && |chunk| <= MAX_VARINT
    ensures Fits(SendChunk(o, id, chunk, fin, z).out.queue, z)
  {
    hide Send, Capacity, Fits, Head;
    var head := Head(DATA, |chunk|);
    SendTakesCapacity(o, id, head, false, z);
    SendTakesCapacity(Send(o, id, head, false, z).0, id, chunk, fin, z);
  }

  /** One more frame at the end of the list. */
  lemma Extended(fs: seq<H3Frame>, f: H3Frame)
    requires (forall i :: 0 <= i < |fs| ==> Encodes(fs[i])) && Encodes(f)
    ensures Wire(fs + [f]) == Wire(fs) + H3Bytes(f)
    ensures Body(fs + [f]) == Body(fs) + if f.ty == DATA then f.payload else []
  {
    WireSnoc(fs, f);
    assert (fs + [f])[..|fs|] == fs;
  }

  lemma {:induction false} WireSnoc(fs: seq<H3Frame>, f: H3Frame)
    requires (forall i :: 0 <= i < |fs| ==> Encodes(fs[i])) && Encodes(f)
    ensures Wire(fs + [f]) == Wire(fs) + H3Bytes(f)
    decreases |fs|
  {
    hide H3Bytes;
    if fs == [] {
      assert fs + [f] == [f] && [f][1..] == [];
    } else {
      assert (fs + [f])[1..] == fs[1..] + [f];
      WireSnoc(fs[1..], f);
    }
  }

  lemma ParsesFirst(f: H3Frame, rest: Bytes)
    requires Encodes(f)
    ensures ParseH3(H3Bytes(f) + rest) == ([f] + ParseH3(rest).0, ParseH3(rest).1)
  {
    hide DecodeVarint, VarintBytes;
    var s := H3Bytes(f) + rest;
    var a, b := VarintBytes(f.ty), VarintBytes(|f.payload|);
    assert s == a + (b + (f.payload + rest));
    VarintRoundTrip(f.ty, b + (f.payload + rest));
    VarintRoundTrip(|f.payload|, f.payload + rest);
    assert s[|a|..] == b + (f.payload + rest);
    var h := |a| + |b|;
    assert s[h..h + |f.payload|] == f.payload && s[h + |f.payload|..] == rest;
  }

  /** Whole frames parse back to themselves with nothing left over. */
  lemma {:induction false} WireParses(fs: seq<H3Frame>)
    requires forall i :: 0 <= i < |fs| ==> Encodes(fs[i])
    ensures ParseH3(Wire(fs)) == (fs, [])
    decreases |fs|
  {
    hide H3Bytes;
    if fs != [] {
      ParsesFirst(fs[0], Wire(fs[1..]));
      WireParses(fs[1..]);
      assert [fs[0]] + fs[1..] == fs;
    } else {
      assert DecodeVarint([]).Err?;
    }
  }

  /** `ws` are the states of a run of calls on stream `id`. */
  predicate Run(ws: seq<Written>, id: nat, steps: seq<Step>, z: Sizes) {
    && |ws| == |steps| + 1
    && ws[0].wire == [] && ws[0].frames == [] && ws[0].body == []
    && (forall i :: 0 <= i < |ws| ==> Fits(ws[i].out.queue, z))
    && forall i :: 0 <= i < |steps| ==> Enabled(steps[i], z) && ws[i + 1] == Apply(ws[i], id, steps[i], z)
  }

  lemma {:induction false} InvRun(ws: seq<Written>, id: nat, steps: seq<Step>, z: Sizes, n: nat)
    requires Run(ws, id, steps, z) && n <= |steps|
    ensures Inv(ws[n], z)
    decreases n
  {
    if n > 0 {
      InvRun(ws, id, steps, z, n - 1);
      InvStep(ws[n - 1], id, steps[n - 1], z);
    }
  }

  /**
   After any run of calls the QUIC stream holds a whole number of HTTP/3 frames, a parser
   reads back exactly those, and the DATA payloads are the body bytes accepted so far.
   */
  lemma WholeFrames(ws: seq<Written>, id: nat, steps: seq<Step>, z: Sizes)
    requires Run(ws, id, steps, z)
    ensures var w := ws[|steps|];
            ParseH3(w.wire) == (w.frames, []) && w.body == Body(w.frames)
  {
    InvRun(ws, id, steps, z, |steps|);
    WireParses(ws[|steps|].frames);
  }
}
