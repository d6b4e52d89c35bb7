/**
 The CRYPTO stream of one encryption level (section 19.6 of RFC 9000): the receiver's
 reassembly buffer, the cutting of whole TLS messages, and the sender's retained stream
 with its rewindable send offset.
 */
module CryptoStream {
  import opened Bytes
  import opened Varint
  import opened FrameCodec

  const MAX_SPANS: nat := 16
  const MAX_CRYPTO_OFFSET: nat := 0x10_0000
  const RETAINED: nat := 2048
  const FRAME_OVERHEAD: nat := 33

  /** Received bytes `lo..hi`, relative to the delivery frontier. */
  datatype Span = Span(lo: nat, hi: nat)

  /** A reassembly buffer: `buf[i]` is stream byte `delivered + i`. */
  datatype Reasm = Reasm(buf: Bytes, delivered: nat, spans: seq<Span>)

  predicate Covered(ss: seq<Span>, p: int) { exists i :: 0 <= i < |ss| && ss[i].lo <= p < ss[i].hi }

  /** Sorted, non-empty, with a gap between neighbours, inside the buffer. */
  predicate Ordered(ss: seq<Span>, size: nat) {
    && (forall i :: 0 <= i < |ss| ==> ss[i].lo < ss[i].hi <= size)
    && (forall i, j :: 0 <= i < j < |ss| ==> ss[i].hi < ss[j].lo)
  }

  predicate Valid(r: Reasm) { Ordered(r.spans, |r.buf|) && |r.spans| <= MAX_SPANS }

  function ContiguousLen(r: Reasm): nat {
    if r.spans != [] && r.spans[0].lo == 0 then r.spans[0].hi else 0
  }

  /** Sixteen spans are held and the new one touches none of them. */
  predicate Overflows(ss: seq<Span>, lo: nat, hi: nat) {
    |ss| == MAX_SPANS && forall i :: 0 <= i < |ss| ==> ss[i].hi < lo || hi < ss[i].lo
  }

  /** `ss'` covers what `ss` covers and `lo..hi`; a span too many is dropped instead. */
  ghost predicate Merged(ss: seq<Span>, lo: nat, hi: nat, ss': seq<Span>) {
    if Overflows(ss, lo, hi) then ss' == ss
    else forall p :: Covered(ss', p) <==> Covered(ss, p) || lo <= p < hi
  }

  /** What inserting a frame means: bytes before the frontier are skipped, the rest is stored and tracked. */
  ghost predicate Inserted(r: Reasm, offset: nat, data: Bytes, r': Reasm, res: Outcome) {
    var end := offset + |data|;
    if data == [] || end <= r.delivered then r' == r && res.Pass?
    else
      var skip := SaturatingSub(r.delivered, offset);
      var lo, hi := SaturatingSub(offset, r.delivered), end - r.delivered;
      if hi > |r.buf| then r' == r && res == Fail(CryptoBufferExceeded)
      else
        && res.Pass?
        && Valid(r')
        && r'.delivered == r.delivered
        && Spliced(r.buf, r'.buf, lo, data[skip..])
        && Merged(r.spans, lo, hi, r'.spans)
  }

  /** The spans once `n` bytes have left the front. */
  function Shift(ss: seq<Span>, n: nat): seq<Span> {
    if ss == [] then []
    else
      var s := ss[|ss| - 1];
      Shift(ss[..|ss| - 1], n) + if s.hi <= n then [] else [Span(SaturatingSub(s.lo, n), s.hi - n)]
  }

  function Zeros(n: nat): (s: Bytes)
    ensures |s| == n
  {
    seq(n, _ => 0)
  }

  function Advanced(r: Reasm, n: nat): Reasm
    requires n <= |r.buf|
  {
    if n == 0 then r else Reasm(r.buf[n..] + Zeros(n), r.delivered + n, Shift(r.spans, n))
  }

  class CryptoReassemblyBuf {
    const buf: array<Byte>
    var delivered: nat
    var spans: seq<Span>

    function Value(): Reasm
      reads this, buf
    {
      Reasm(buf[..], delivered, spans)
    }

    constructor (size: nat)
      ensures Value() == Reasm(Zeros(size), 0, []) && fresh(buf)
    {
      buf := new Byte[size](_ => 0);
      delivered, spans := 0, [];
      new;
      assert buf[..] == Zeros(size);
    }

    method MergeRange(start: nat, end: nat)
      requires Ordered(spans, buf.Length) && |spans| <= MAX_SPANS && start < end <= buf.Length
      modifies this`spans
      ensures Ordered(spans, buf.Length) && |spans| <= MAX_SPANS
      ensures Merged(old(spans), start, end, spans)
    {
      var newStart: nat, newEnd: nat, i := start, end, 0;
      while i < |spans|
        invariant 0 <= i <= |spans| <= |old(spans)|
        invariant Ordered(spans, buf.Length)
        invariant newStart <= start && end <= newEnd <= buf.Length
        invariant forall k :: 0 <= k < i ==> spans[k].hi < newStart
        invariant forall p :: Covered(spans, p) || newStart <= p < newEnd <==> Covered(old(spans), p) || start <= p < end
        invariant |spans| == |old(spans)| ==> spans == old(spans) && newStart == start && newEnd == end
        invariant |spans| < |old(spans)| ==> !Overflows(old(spans), start, end)
        decreases |spans| - i
      {
        var s := spans[i];
        if s.lo > newEnd {
          break;
        }
        if s.hi < newStart {
          i := i + 1;
          continue;
        }
        Absorbed(spans, i, newStart, newEnd, buf.Length);
        newStart, newEnd := Min(newStart, s.lo), Max(newEnd, s.hi);
        spans := spans[..i] + spans[i + 1..];
      }
      Placed(spans, i, Span(newStart, newEnd), buf.Length);
      if |spans| < MAX_SPANS {
        spans := spans[..i] + [Span(newStart, newEnd)] + spans[i..];
      }
    }

    method Insert(offset: nat, data: Bytes) returns (res: Outcome)
      requires Valid(Value())
      modifies this`spans, buf
      ensures Inserted(old(Value()), offset, data, Value(), res)
      ensures Valid(Value())
    {
      if data == [] {
        return Pass;
      }
      var end := offset + |data|;
      if end <= delivered {
        return Pass;
      }
      var rest, at := data, offset;
      if offset < delivered {
        rest, at := data[delivered - offset..], delivered;
      }
      var relStart := at - delivered;
      var relEnd := relStart + |rest|;
      if relEnd > buf.Length {
        return Fail(CryptoBufferExceeded);
      }
      CopyInto(buf, relStart, rest);
      MergeRange(relStart, relEnd);
      return Pass;
    }

    method Advance(n: nat)
      requires Valid(Value()) && n <= buf.Length
      modifies this, buf
      ensures Value() == Advanced(old(Value()), n)
    {
      if n == 0 {
        return;
      }
      ghost var was := buf[..];
      delivered := delivered + n;
      CopyWithin(buf, n, buf.Length, 0);
      var k := buf.Length - n;
      assert buf[..k] == was[n..];
      while k < buf.Length
        invariant buf.Length - n <= k <= buf.Length
        invariant buf[..buf.Length - n] == was[n..]
        invariant forall m :: buf.Length - n <= m < k ==> buf[m] == 0
        modifies buf
      {
        buf[k] := 0;
        k := k + 1;
      }
      ghost var now := was[n..] + Zeros(n);
      assert buf[..] == now;
      ShiftSpans(n);
      assert buf[..] == now;
    }

    /** Adjust every tracked span by `n`, dropping the consumed ones. */
    method ShiftSpans(n: nat)
      modifies this`spans
      ensures spans == Shift(old(spans), n)
    {
      ghost var all, c := spans, 0;
      var i := 0;
      while i < |spans|
        invariant 0 <= i <= |spans| && c <= |all|
        invariant spans[..i] == Shift(all[..c], n) && spans[i..] == all[c..]
        decreases |spans| - i
      {
        var s := spans[i];
        assert all[..c + 1][..c] == all[..c] && all[c] == s;
        assert all[c..][1..] == all[c + 1..];
        if s.hi <= n {
          spans := spans[..i] + spans[i + 1..];
        } else {
          spans := spans[i := Span(SaturatingSub(s.lo, n), s.hi - n)];
          i := i + 1;
        }
        c := c + 1;
      }
      assert all[..c] == all;
    }
  }

  /** Taking out a span that touches `lo..hi` and growing `lo..hi` by it covers the same bytes. */
  lemma Absorbed(ss: seq<Span>, i: nat, lo: nat, hi: nat, size: nat)
    requires Ordered(ss, size) && i < |ss| && lo < hi && ss[i].lo <= hi && lo <= ss[i].hi
    ensures var u := ss[..i] + ss[i + 1..];
            && Ordered(u, size)
            && forall p :: Covered(u, p) || Min(lo, ss[i].lo) <= p < Max(hi, ss[i].hi) <==> Covered(ss, p) || lo <= p < hi
  {
    var u := ss[..i] + ss[i + 1..];
    forall p ensures Covered(u, p) || Min(lo, ss[i].lo) <= p < Max(hi, ss[i].hi) <==> Covered(ss, p) || lo <= p < hi {
      hide Ordered;
      CoveredWithout(ss, i, p);
    }
  }

  lemma CoveredWithout(ss: seq<Span>, i: nat, p: int)
    requires i < |ss|
    ensures Covered(ss, p) <==> Covered(ss[..i] + ss[i + 1..], p) || ss[i].lo <= p < ss[i].hi
  {
    var u := ss[..i] + ss[i + 1..];
    if Covered(ss, p) {
      var k :| 0 <= k < |ss| && ss[k].lo <= p < ss[k].hi;
      if k < i { assert u[k] == ss[k]; }
      if k > i { assert u[k - 1] == ss[k]; }
    }
    if Covered(u, p) {
      var k :| 0 <= k < |u| && u[k].lo <= p < u[k].hi;
      assert u[k] == ss[if k < i then k else k + 1];
    }
  }

  lemma Placed(ss: seq<Span>, i: nat, s: Span, size: nat)
    requires Ordered(ss, size) && i <= |ss| && s.lo < s.hi <= size
    requires forall k :: 0 <= k < i ==> ss[k].hi < s.lo
    requires i < |ss| ==> s.hi < ss[i].lo
    ensures var u := ss[..i] + [s] + ss[i..];
            && Ordered(u, size)
            && (forall p :: Covered(u, p) <==> Covered(ss, p) || s.lo <= p < s.hi)
    ensures forall k :: 0 <= k < |ss| ==> ss[k].hi < s.lo || s.hi < ss[k].lo
  {
    var u := ss[..i] + [s] + ss[i..];
    forall k | i <= k < |ss| ensures s.hi < ss[k].lo {
      if k > i { assert ss[i].hi < ss[k].lo; }
    }
    forall a, b | 0 <= a < b < |u| ensures u[a].hi < u[b].lo {
      var a', b' := if a < i then a else a - 1, if b < i then b else b - 1;
      if a != i && b != i { assert ss[a'].hi < ss[b'].lo; }
    }
    forall p ensures Covered(u, p) <==> Covered(ss, p) || s.lo <= p < s.hi {
      CoveredWith(ss, i, s, p);
    }
  }

  lemma CoveredWith(ss: seq<Span>, i: nat, s: Span, p: int)
    requires i <= |ss|
    ensures Covered(ss[..i] + [s] + ss[i..], p) <==> Covered(ss, p) || s.lo <= p < s.hi
  {
    var u := ss[..i] + [s] + ss[i..];
    CoveredWithout(u, i, p);
    assert u[..i] + u[i + 1..] == ss;
  }

  // --------------------------------------------------------------------------------
  // What the spans say
  // --------------------------------------------------------------------------------

  /** The contiguous length is the first position not covered. */
  lemma Frontier(r: Reasm, p: int)
    requires Valid(r)
    ensures 0 <= p < ContiguousLen(r) ==> Covered(r.spans, p)
    ensures !Covered(r.spans, ContiguousLen(r))
    ensures ContiguousLen(r) <= |r.buf|
  {
    if 0 <= p < ContiguousLen(r) { assert r.spans[0].lo <= p < r.spans[0].hi; }
  }

  lemma {:induction false} ShiftOrdered(ss: seq<Span>, n: nat, size: nat)
    requires Ordered(ss, size) && n <= size
    ensures Ordered(Shift(ss, n), size) && |Shift(ss, n)| <= |ss|
    decreases |ss|
  {
    if ss != [] {
      var m := |ss| - 1;
      ShiftOrdered(ss[..m], n, size);
      ShiftBelow(ss[..m], n, ss[m].lo, size);
      var u := Shift(ss[..m], n);
      var s := ss[m];
      hide Shift;
      if s.hi > n {
        OrderedSnoc(u, Span(SaturatingSub(s.lo, n), s.hi - n), size);
      } else {
        assert u + [] == u;
      }
    }
  }

  lemma OrderedSnoc(ss: seq<Span>, s: Span, size: nat)
    requires Ordered(ss, size) && s.lo < s.hi <= size
    requires forall i :: 0 <= i < |ss| ==> ss[i].hi < s.lo
    ensures Ordered(ss + [s], size)
  {
  }

  lemma {:induction false} ShiftCovers(ss: seq<Span>, n: nat, p: int)
    ensures Covered(Shift(ss, n), p) && p >= 0 <==> p >= 0 && Covered(ss, p + n)
    decreases |ss|
  {
    if ss != [] {
      hide Covered;
      var m := |ss| - 1;
      ShiftCovers(ss[..m], n, p);
      CoveredSnoc(ss, p + n);
      var u := Shift(ss[..m], n);
      if ss[m].hi <= n {
        assert u + [] == u;
      } else {
        CoveredSnoc(Shift(ss, n), p);
        assert Shift(ss, n)[..|u|] == u;
      }
    }
  }

  lemma CoveredSnoc(ss: seq<Span>, p: int)
    requires ss != []
    ensures var m := |ss| - 1;
            Covered(ss, p) <==> Covered(ss[..m], p) || ss[m].lo <= p < ss[m].hi
  {
    var m := |ss| - 1;
    CoveredWithout(ss, m, p);
    assert ss[..m] + ss[m + 1..] == ss[..m];
  }

  /** Spans that end before `bound` still end before it once shifted. */
  lemma {:induction false} ShiftBelow(ss: seq<Span>, n: nat, bound: nat, size: nat)
    requires Ordered(ss, size) && forall i :: 0 <= i < |ss| ==> ss[i].hi < bound
    ensures forall i :: 0 <= i < |Shift(ss, n)| ==> Shift(ss, n)[i].hi < SaturatingSub(bound, n)
    decreases |ss|
  {
    if ss != [] { ShiftBelow(ss[..|ss| - 1], n, bound, size); }
  }

  // --------------------------------------------------------------------------------
  // Cutting whole TLS messages off the front
  // --------------------------------------------------------------------------------

  /** One byte of type, three of length, then the body. */
  function MessageLen(s: Bytes): nat
    requires |s| >= 4
  {
    4 + s[1] as int * 65536 + s[2] as int * 256 + s[3] as int
  }

  predicate IsMessage(m: Bytes) { |m| >= 4 && |m| == MessageLen(m) }

  /** The length-delimited parse of a byte string; a partial message at the end is left out. */
  function Messages(s: Bytes): seq<Bytes>
    decreases |s|
  {
    if |s| < 4 || |s| < MessageLen(s) then []
    else [s[..MessageLen(s)]] + Messages(s[MessageLen(s)..])
  }

  function Concat(ms: seq<Bytes>): Bytes { if ms == [] then [] else ms[0] + Concat(ms[1..]) }

  /** What the TLS engine and the key installation after it make of a message. */
  datatype Verdict =
    | Reject      // read_handshake fails
    | Accept      // message taken, handshake goes on
    | Release     // message taken, the handshake slot is released
    | KeyFailure  // message taken, installing the keys it produced fails

  /** The state of a level after a call: its buffer, the messages TLS has taken, whether it still has its slot. */
  datatype Level = Level(r: Reasm, accepted: seq<Bytes>, slotHeld: bool)

  /** Deliver messages from the frontier while `verdicts` last; a missing verdict is a rejection. */
  function Drain(l: Level, verdicts: seq<Verdict>): (Level, Outcome)
    requires Valid(l.r)
    decreases |verdicts|
  {
    Frontier(l.r, 0);
    var avail := ContiguousLen(l.r);
    if avail < 4 || avail < MessageLen(l.r.buf[..avail]) then (l, Pass)
    else if verdicts == [] || verdicts[0].Reject? then (l, Fail(Tls))
    else
      var n := MessageLen(l.r.buf[..avail]);
      AdvancedValid(l.r, n);
      var taken := Level(Advanced(l.r, n), l.accepted + [l.r.buf[..n]], !verdicts[0].Release?);
      if verdicts[0].Accept? then Drain(taken, verdicts[1..])
      else (taken, if verdicts[0].KeyFailure? then Fail(Crypto) else Pass)
  }

  /** What one CRYPTO frame does to a level; `mid` is the buffer between storing and delivering. */
  ghost predicate Handled(l: Level, offset: nat, data: Bytes, verdicts: seq<Verdict>, l': Level, res: Outcome, mid: Reasm) {
    if !l.slotHeld then l' == l && res.Pass?
    else if offset + |data| > MAX_CRYPTO_OFFSET then l' == l && res == Fail(CryptoBufferExceeded)
    else if Inserted(l.r, offset, data, l.r, Fail(CryptoBufferExceeded)) then l' == l && res == Fail(CryptoBufferExceeded)
    else
      && Valid(mid) && Inserted(l.r, offset, data, mid, Pass)
      && (l', res) == Drain(Level(mid, l.accepted, true), verdicts)
  }

  lemma AdvancedValid(r: Reasm, n: nat)
    requires Valid(r) && n <= |r.buf|
    ensures Valid(Advanced(r, n)) && |Advanced(r, n).buf| == |r.buf|
    ensures forall p :: p >= 0 ==> (Covered(Advanced(r, n).spans, p) <==> Covered(r.spans, p + n))
  {
    ShiftOrdered(r.spans, n, |r.buf|);
    forall p | p >= 0 ensures Covered(Advanced(r, n).spans, p) <==> Covered(r.spans, p + n) {
      ShiftCovers(r.spans, n, p);
    }
  }

  /** One level of a connection that may still hold its handshake slot. */
  class CryptoLevel {
    const reasm: CryptoReassemblyBuf
    var slotHeld: bool
    var accepted: seq<Bytes>

    function Value(): Level
      reads this, reasm, reasm.buf
    {
      Level(reasm.Value(), accepted, slotHeld)
    }

    constructor (size: nat)
      ensures Value() == Level(Reasm(Zeros(size), 0, []), [], true)
      ensures fresh(reasm) && fresh(reasm.buf)
    {
      reasm := new CryptoReassemblyBuf(size);
      slotHeld, accepted := true, [];
    }

    /**
     Buffer a CRYPTO frame, then hand every whole message at the frontier to TLS.
     `verdicts` says what TLS answers during this call, in order.
     */
    method HandleCryptoFrame(offset: nat, data: Bytes, verdicts: seq<Verdict>)
      returns (res: Outcome, ghost mid: Reasm)
      requires Valid(reasm.Value())
      modifies this, reasm, reasm.buf
      ensures Valid(reasm.Value())
      ensures Handled(old(Value()), offset, data, verdicts, Value(), res, mid)
    {
      mid := reasm.Value();
      if !slotHeld {
        return Pass, mid;
      }
      if offset > MAX_CRYPTO_OFFSET || offset + |data| > MAX_CRYPTO_OFFSET {
        return Fail(CryptoBufferExceeded), mid;
      }
      res := reasm.Insert(offset, data);
      mid := reasm.Value();
      if res.Fail? {
        return;
      }
      res := DeliverMessages(verdicts);
    }

    /** The delivery loop: peek at the length, and take the message if all of it is there and TLS accepts it. */
    method DeliverMessages(verdicts: seq<Verdict>) returns (res: Outcome)
      requires Valid(reasm.Value()) && slotHeld
      modifies this, reasm, reasm.buf
      ensures Valid(reasm.Value())
      ensures (Value(), res) == Drain(old(Value()), verdicts)
    {
      ghost var whole := Drain(Value(), verdicts);
      var k := 0;
      assert verdicts[0..] == verdicts;
      while slotHeld
        invariant 0 <= k <= |verdicts|
        invariant Valid(reasm.Value())
        invariant slotHeld ==> Drain(Value(), verdicts[k..]) == whole
        invariant !slotHeld ==> whole == (Value(), Pass)
        decreases slotHeld, |verdicts| - k
      {
        hide Advanced, MessageLen, Valid, ContiguousLen;
        ghost var before, rest := Value(), verdicts[k..];
        var n := NextMessage();
        if n.None? {
          return Pass;
        }
        if k == |verdicts| || verdicts[k].Reject? {
          return Fail(Tls);
        }
        assert rest[1..] == verdicts[k + 1..];
        TakeMessage(n.value, !verdicts[k].Release?);
        if verdicts[k].KeyFailure? {
          return Fail(Crypto);
        }
        k := k + 1;
      }
      return Pass;
    }

    /** The length of the message at the frontier, if the whole of it has arrived. */
    method NextMessage() returns (n: Option<nat>)
      requires Valid(reasm.Value())
      ensures ContiguousLen(reasm.Value()) <= reasm.buf.Length
      ensures var avail := ContiguousLen(reasm.Value());
              n == if avail < 4 || avail < MessageLen(reasm.Value().buf[..avail]) then None
                   else Some(MessageLen(reasm.Value().buf[..avail]))
      ensures n.Some? ==> n.value <= ContiguousLen(reasm.Value())
    {
      Frontier(reasm.Value(), 0);
      var avail := ContiguousLen(reasm.Value());
      if avail < 4 {
        return None;
      }
      assert reasm.buf[..avail] == reasm.Value().buf[..avail];
      var len := MessageLen(reasm.buf[..avail]);
      return if avail < len then None else Some(len);
    }

    method TakeMessage(n: nat, keepSlot: bool)
      requires Valid(reasm.Value()) && n <= reasm.buf.Length
      modifies this, reasm, reasm.buf
      ensures Valid(reasm.Value())
      ensures Value() == Level(Advanced(old(reasm.Value()), n), old(accepted) + [old(reasm.Value()).buf[..n]], keepSlot)
    {
      AdvancedValid(reasm.Value(), n);
      assert reasm.buf[..n] == reasm.Value().buf[..n];
      accepted := accepted + [reasm.buf[..n]];
      reasm.Advance(n);
      slotHeld := keepSlot;
    }
  }

  // --------------------------------------------------------------------------------
  // Sending
  // --------------------------------------------------------------------------------

  /** The sending half of a handshake context: per level, the whole stream so far and how much of it is sent. */
  class CryptoSender {
    var pending: seq<Bytes>
    var offset: seq<nat>

    ghost predicate Valid()
      reads this
    {
      |pending| == |offset| == 3 && forall l :: 0 <= l < 3 ==> offset[l] <= |pending[l]| <= RETAINED
    }

    constructor ()
      ensures Valid() && pending == [[], [], []] && offset == [0, 0, 0]
    {
      pending, offset := [[], [], []], [0, 0, 0];
    }

    /** A probe timeout fired: everything retained is sent again. */
    method Rewind()
      requires Valid()
      modifies this`offset
      ensures Valid() && offset == [0, 0, 0]
    {
      offset := [0, 0, 0];
    }

    /** Ask TLS for its next flight once everything of `level` is sent. */
    method StageFlight(level: nat, flight: Option<(Bytes, nat)>)
      requires Valid() && level < 3 && (flight.Some? ==> flight.value.1 < 3)
      modifies this`pending
      ensures Valid()
      ensures pending == if offset[level] == old(|pending[level]|) then Staged(old(pending), flight) else old(pending)
    {
      if offset[level] == |pending[level]| && flight.Some? && flight.value.0 != [] {
        var (bytes, l) := flight.value;
        if |pending[l]| + |bytes| <= RETAINED {
          pending := pending[l := pending[l] + bytes];
        }
      }
    }

    /**
     Write pending data of `level` as one CRYPTO frame into `out[lo..hi]`. `flight` is what
     TLS would hand out now: asked for only when the level has nothing unsent, and lost if
     the retention buffer of its own level cannot take all of it. Whatever is sent leaves
     the 16 bytes of the AEAD tag free in the slice, so the offset never moves in vain.
     */
    method WriteTlsCryptoData(level: nat, out: array<Byte>, lo: nat, hi: nat, flight: Option<(Bytes, nat)>)
      returns (written: nat)
      requires Valid() && level < 3 && lo <= hi <= out.Length
      requires flight.Some? ==> flight.value.1 < 3
      modifies this, out
      ensures Valid()
      ensures pending == if old(offset[level] == |pending[level]|) then Staged(old(pending), flight) else old(pending)
      ensures var unsent := |pending[level]| - old(offset)[level];
              if unsent == 0 || hi - lo <= FRAME_OVERHEAD then
                written == 0 && offset == old(offset) && out[..] == old(out[..])
              else
                var n := Min(hi - lo - FRAME_OVERHEAD, unsent);
                var f := Chunk(pending[level], old(offset)[level], n);
                && n > 0
                && offset == old(offset)[level := old(offset)[level] + n]
                && Encodable(f) && Spliced(old(out[..]), out[..], lo, FrameBytes(f))
                && n + 3 <= written == |FrameBytes(f)| <= hi - lo - 16
    {
      hide FrameBytes, Encodable, Staged, Chunk, Spliced;
      StageFlight(level, flight);
      var start := offset[level];
      var unsent := |pending[level]| - start;
      if unsent == 0 || hi - lo <= FRAME_OVERHEAD {
        return 0;
      }
      var n := Min(hi - lo - FRAME_OVERHEAD, unsent);
      written := WriteChunk(pending[level], start, n, out, lo, hi);
      offset := offset[level := start + n];
    }
  }

  /** The streams once TLS has handed out `flight`. */
  function Staged(pending: seq<Bytes>, flight: Option<(Bytes, nat)>): seq<Bytes>
    requires flight.Some? ==> flight.value.1 < |pending|
  {
    if flight.None? || flight.value.0 == [] then pending
    else
      var (bytes, l) := flight.value;
      if |pending[l]| + |bytes| <= RETAINED then pending[l := pending[l] + bytes] else pending
  }

  function Chunk(stream: Bytes, start: nat, n: nat): Frame
    requires start + n <= |stream| <= RETAINED
  {
    CryptoData(start, stream[start..start + n])
  }

  /** Encode `n` bytes of the stream; the allowance leaves room for the frame and the tag. */
  method WriteChunk(stream: Bytes, start: nat, n: nat, out: array<Byte>, lo: nat, hi: nat) returns (written: nat)
    requires start + n <= |stream| <= RETAINED && lo <= hi <= out.Length && n + FRAME_OVERHEAD <= hi - lo
    modifies out
    ensures var f := Chunk(stream, start, n);
            && Encodable(f) && Spliced(old(out[..]), out[..], lo, FrameBytes(f))
            && n + 3 <= written == |FrameBytes(f)| <= hi - lo - 16
  {
    ChunkSize(stream, start, n);
    hide FrameBytes, Encodable, Typed, Chunk, Spliced, Outside;
    var e := Encode(Chunk(stream, start, n), out, lo, hi);
    return e.value;
  }

  /** At most 17 bytes of frame around the data. */
  lemma ChunkSize(stream: Bytes, start: nat, n: nat)
    requires start + n <= |stream| <= RETAINED
    ensures var f := Chunk(stream, start, n);
            Typed(f) && Encodable(f) && n + 3 <= |FrameBytes(f)| <= n + 17
  {
    var f := Chunk(stream, start, n);
    var fs := [V(0x06), V(start), V(n), B(f.data)];
    assert Encodable(f) && Fields(f) == fs by { assert Fields(f) == fs; }
    hide VarintBytes, CountPairs, Encodable, Fields;
    NextPos(fs, 0);
    NextPos(fs, 1);
    NextPos(fs, 2);
    NextPos(fs, 3);
    assert fs[..4] == fs && fs[..0] == [];
  }

  /** The retained stream is all TLS produced for the level exactly when that is at most 2048 bytes. */
  lemma {:induction false} RetainedExactly(flights: seq<Bytes>)
    ensures |RetainedStream(flights)| <= RETAINED
    ensures RetainedStream(flights) == Concat(flights) <==> |Concat(flights)| <= RETAINED
    decreases |flights|
  {
    if flights != [] {
      var m := |flights| - 1;
      RetainedExactly(flights[..m]);
      ConcatSnoc(flights[..m], flights[m]);
      assert flights == flights[..m] + [flights[m]];
      var kept := RetainedStream(flights[..m]);
      RetainedShorter(flights[..m]);
    }
  }

  /** One level's stream after TLS handed out `flights` for it, in order. */
  function RetainedStream(flights: seq<Bytes>): Bytes {
    if flights == [] then []
    else
      var kept, last := RetainedStream(flights[..|flights| - 1]), flights[|flights| - 1];
      if |kept| + |last| <= RETAINED then kept + last else kept
  }

  /** After 2000 bytes the next flight of 100 is lost to the retained stream. */
  lemma FlightDropped()
    ensures RetainedStream([Zeros(2000), Zeros(100)]) == Zeros(2000) && Concat([Zeros(2000), Zeros(100)]) != Zeros(2000)
  {
    var fs: seq<Bytes> := [Zeros(2000), Zeros(100)];
    assert fs[..1] == [Zeros(2000)] && fs[..1][..0] == [] && fs[1..] == [Zeros(100)] && fs[1..][1..] == [];
    assert [] + Zeros(2000) == Zeros(2000);
    assert |Concat(fs)| == 2000 + |Concat(fs[1..])|;
  }

  lemma {:induction false} RetainedShorter(flights: seq<Bytes>)
    ensures |RetainedStream(flights)| <= |Concat(flights)|
    ensures |RetainedStream(flights)| == |Concat(flights)| ==> RetainedStream(flights) == Concat(flights)
    decreases |flights|
  {
    if flights != [] {
      var m := |flights| - 1;
      RetainedShorter(flights[..m]);
      ConcatSnoc(flights[..m], flights[m]);
      assert flights == flights[..m] + [flights[m]];
    }
  }

  lemma {:induction false} ConcatSnoc(ms: seq<Bytes>, m: Bytes)
    ensures Concat(ms + [m]) == Concat(ms) + m
    decreases |ms|
  {
    if ms == [] {
      assert [m][1..] == [] && ms + [m] == [m];
    } else {
      assert (ms + [m])[1..] == ms[1..] + [m];
      ConcatSnoc(ms[1..], m);
    }
  }

  lemma MessagesFront(m: Bytes, rest: Bytes)
    requires IsMessage(m)
    ensures Messages(m + rest) == [m] + Messages(rest)
  {
    var s := m + rest;
    assert MessageLen(s) == MessageLen(m);
    assert s[..|m|] == m && s[|m|..] == rest;
  }

  /** Whole messages parse back, and what follows them parses on its own. */
  lemma {:induction false} MessagesConcat(ms: seq<Bytes>, rest: Bytes)
    requires forall i :: 0 <= i < |ms| ==> IsMessage(ms[i])
    ensures Messages(Concat(ms) + rest) == ms + Messages(rest)
    decreases |ms|
  {
    hide Messages, IsMessage;
    if ms == [] {
      assert Concat(ms) + rest == rest;
    } else {
      var tail := Concat(ms[1..]) + rest;
      assert Concat(ms) + rest == ms[0] + tail;
      MessagesConcat(ms[1..], rest);
      MessagesFront(ms[0], tail);
    }
  }

  // --------------------------------------------------------------------------------
  // Nothing that is ready waits
  // --------------------------------------------------------------------------------

  /** The bytes at the frontier. */
  function Front(r: Reasm): Bytes
    requires Valid(r)
  {
    Frontier(r, 0);
    r.buf[..ContiguousLen(r)]
  }

  /** The whole messages at the frontier. */
  function Waiting(r: Reasm): seq<Bytes>
    requires Valid(r)
  {
    Messages(Front(r))
  }

  /** How many messages TLS takes before something other than a plain acceptance. */
  function Accepts(verdicts: seq<Verdict>): (k: nat)
    ensures k <= |verdicts| && (k < |verdicts| ==> !verdicts[k].Accept?)
    ensures forall i :: 0 <= i < k ==> verdicts[i].Accept?
  {
    if verdicts == [] || !verdicts[0].Accept? then 0 else 1 + Accepts(verdicts[1..])
  }

  /** What TLS says to message `k`; without an answer it is refused. */
  function Answer(verdicts: seq<Verdict>, k: nat): Verdict { if k < |verdicts| then verdicts[k] else Reject }

  lemma FrontAdvances(r: Reasm, n: nat)
    requires Valid(r) && n <= ContiguousLen(r)
    ensures n <= |r.buf| && Valid(Advanced(r, n)) && Front(Advanced(r, n)) == Front(r)[n..]
  {
    Frontier(r, 0);
    AdvancedValid(r, n);
    var r' := Advanced(r, n);
    var a, b := ContiguousLen(r), ContiguousLen(r');
    Frontier(r', 0);
    hide Covered, ContiguousLen, Valid;
    if b < a - n {
      Frontier(r, b + n);
    } else if a - n < b {
      Frontier(r', a - n);
    }
    assert r'.buf[..b] == r.buf[n..a];
  }

  /** The call took the first `k` waiting messages, in order; the others still wait. */
  predicate Took(l: Level, k: nat, l': Level)
    requires Valid(l.r)
  {
    && Valid(l'.r) && k <= |Waiting(l.r)|
    && l'.accepted == l.accepted + Waiting(l.r)[..k]
    && Waiting(l'.r) == Waiting(l.r)[k..]
  }

  /**
   How far one delivery goes, for any answers of TLS: every waiting message is taken up to the
   first that is not plainly accepted. A refused message stays; one that releases the slot or
   whose keys fail is the last one taken.
   */
  lemma {:induction false} DeliversExactly(l: Level, verdicts: seq<Verdict>)
    requires Valid(l.r) && l.slotHeld
    ensures var (l', res) := Drain(l, verdicts);
            var k, m := Accepts(verdicts), |Waiting(l.r)|;
            if m <= k then Took(l, m, l') && res.Pass? && l'.slotHeld
            else
              match Answer(verdicts, k)
              case Release => Took(l, k + 1, l') && res.Pass? && !l'.slotHeld
              case KeyFailure => Took(l, k + 1, l') && res == Fail(Crypto) && l'.slotHeld
              case _ => Took(l, k, l') && res == Fail(Tls) && l'.slotHeld
    decreases |verdicts|
  {
    hide Drain, Took, Waiting, Valid;
    TookNone(l);
    var taken := FirstOffered(l, verdicts);
    if Waiting(l.r) != [] && Answer(verdicts, 0).Accept? {
      TookValid(l, taken);
      DeliversExactly(taken, verdicts[1..]);
      TookMore(l, taken, Drain(taken, verdicts[1..]).0);
    }
  }

  lemma TookValid(l: Level, l': Level)
    requires Valid(l.r) && Took(l, 1, l')
    ensures Valid(l'.r) && |Waiting(l'.r)| + 1 == |Waiting(l.r)|
  {
    hide Valid, Waiting;
  }

  /** The first waiting message is offered, and what TLS says to it decides. */
  lemma FirstOffered(l: Level, verdicts: seq<Verdict>) returns (taken: Level)
    requires Valid(l.r) && l.slotHeld
    ensures var v := Answer(verdicts, 0);
            if Waiting(l.r) == [] then Drain(l, verdicts) == (l, Pass)
            else if v.Reject? then Drain(l, verdicts) == (l, Fail(Tls))
            else
              && Took(l, 1, taken) && Valid(taken.r) && taken.slotHeld == !v.Release?
              && Drain(l, verdicts) == if v.Accept? then Drain(taken, verdicts[1..])
                                       else (taken, if v.KeyFailure? then Fail(Crypto) else Pass)
  {
    hide Advanced;
    var front := Front(l.r);
    var ms := Waiting(l.r);
    taken := l;
    if |front| < 4 || |front| < MessageLen(front) {
      assert ms == [];
    } else {
      var n := MessageLen(front);
      FrontAdvances(l.r, n);
      assert ms == [front[..n]] + Messages(front[n..]);
      assert front[..n] == l.r.buf[..n];
      taken := Level(Advanced(l.r, n), l.accepted + [l.r.buf[..n]], !Answer(verdicts, 0).Release?);
      assert ms[..1] == [front[..n]] && ms[1..] == Waiting(taken.r);
    }
  }

  lemma TookNone(l: Level)
    requires Valid(l.r)
    ensures Took(l, 0, l)
  {
    var ms := Waiting(l.r);
    assert ms[..0] == [] && l.accepted + [] == l.accepted && ms[0..] == ms;
  }

  lemma TookMore(l: Level, mid: Level, l': Level)
    requires Valid(l.r) && Took(l, 1, mid)
    ensures forall k: nat :: k <= |Waiting(mid.r)| && Took(mid, k, l') ==> Took(l, k + 1, l')
  {
    forall k: nat | k <= |Waiting(mid.r)| && Took(mid, k, l') ensures Took(l, k + 1, l') {
      OneMoreTaken(l.accepted, Waiting(l.r), k);
    }
  }

  lemma OneMoreTaken(accepted: seq<Bytes>, ms: seq<Bytes>, k: nat)
    requires k < |ms|
    ensures accepted + ms[..1] + ms[1..][..k] == accepted + ms[..k + 1] && ms[1..][k..] == ms[k + 1..]
  {
    assert ms[..1] + ms[1..][..k] == ms[..k + 1];
    assert accepted + ms[..1] + ms[1..][..k] == accepted + (ms[..1] + ms[1..][..k]);
  }

  /**
   A CRYPTO frame, case by case: without a slot it is ignored, past the offset limit or the
   buffer it is refused without effect, and otherwise it is stored and everything then waiting
   is offered to TLS; a call that passes with the slot still held leaves nothing waiting.
   */
  lemma HandledExactly(l: Level, offset: nat, data: Bytes, verdicts: seq<Verdict>, l': Level, res: Outcome, mid: Reasm)
    requires Valid(l.r) && Handled(l, offset, data, verdicts, l', res, mid)
    ensures !l.slotHeld ==> l' == l && res.Pass?
    ensures l.slotHeld ==>
              var end := offset + |data|;
              if end > MAX_CRYPTO_OFFSET || (data != [] && end > l.r.delivered + |l.r.buf|) then
                l' == l && res == Fail(CryptoBufferExceeded)
              else
                && Valid(mid) && Inserted(l.r, offset, data, mid, Pass)
                && (res.Pass? && l'.slotHeld ==> Took(Level(mid, l.accepted, true), |Waiting(mid)|, l') && Waiting(l'.r) == [])
                && (Accepts(verdicts) >= |Waiting(mid)| ==> res.Pass? && l'.slotHeld && l'.accepted == l.accepted + Waiting(mid))
                && (res == Fail(Tls) ==> Took(Level(mid, l.accepted, true), Accepts(verdicts), l'))
  {
    if l.slotHeld && offset + |data| <= MAX_CRYPTO_OFFSET {
      hide Drain, Front, Messages;
      if Inserted(l.r, offset, data, l.r, Fail(CryptoBufferExceeded)) {
      } else {
        DeliversExactly(Level(mid, l.accepted, true), verdicts);
        var ms := Waiting(mid);
        assert ms[..|ms|] == ms && ms[|ms|..] == [];
      }
    }
  }

  // --------------------------------------------------------------------------------
  // Sender, network and receiver of one level
  // --------------------------------------------------------------------------------

  datatype Piece = Piece(offset: nat, data: Bytes)

  /** `net` is every frame ever sent: each may arrive late, repeatedly, or not at all. */
  datatype Link = Link(stream: Bytes, sendOffset: nat, net: set<Piece>, level: Level, stored: set<Piece>)

  datatype Step =
    | Stage(flight: Bytes)
    | Emit(n: nat)
    | RewindOffset
    | Arrive(piece: Piece, verdicts: seq<Verdict>)

  /** Whether the bytes of a frame end up delivered or tracked: always, but for a full buffer or a full span list. */
  predicate Stores(l: Level, p: Piece) {
    && l.slotHeld
    && p.offset + |p.data| <= MAX_CRYPTO_OFFSET
    && (p.data == [] || p.offset + |p.data| <= l.r.delivered ||
        (&& p.offset + |p.data| - l.r.delivered <= |l.r.buf|
         && !Overflows(l.r.spans, SaturatingSub(p.offset, l.r.delivered), p.offset + |p.data| - l.r.delivered)))
  }

  ghost predicate Next(s: Link, step: Step, s': Link) {
    match step
    case Stage(flight) =>
      s' == s.(stream := RetainedAfter(s.stream, flight))
    case Emit(n) =>
      && 0 < n <= |s.stream| - s.sendOffset
      && s' == s.(sendOffset := s.sendOffset + n,
                  net := s.net + {Piece(s.sendOffset, s.stream[s.sendOffset..s.sendOffset + n])})
    case RewindOffset =>
      s' == s.(sendOffset := 0)
    case Arrive(p, verdicts) =>
      && p in s.net
      && (exists res, mid :: Handled(s.level, p.offset, p.data, verdicts, s'.level, res, mid))
      && s' == s.(level := s'.level, stored := if Stores(s.level, p) then s.stored + {p} else s.stored)
  }

  function RetainedAfter(stream: Bytes, flight: Bytes): Bytes {
    if |stream| + |flight| <= RETAINED then stream + flight else stream
  }

  /** Staging a flight is what it does to the retained stream of its own level, and to no other. */
  lemma StagedRetains(pending: seq<Bytes>, bytes: Bytes, l: nat, history: seq<Bytes>)
    requires l < |pending| && pending[l] == RetainedStream(history)
    ensures Staged(pending, Some((bytes, l))) == pending[l := RetainedStream(history + [bytes])]
    ensures Staged(pending, Some((bytes, l)))[l] == RetainedAfter(pending[l], bytes)
  {
    assert (history + [bytes])[..|history|] == history;
    if bytes == [] {
      assert pending[l] + bytes == pending[l] && pending[l := pending[l]] == pending;
    }
    assert pending[l := pending[l]] == pending;
  }

  ghost predicate Run(ls: seq<Link>, steps: seq<Step>, size: nat) {
    && |ls| == |steps| + 1
    && ls[0] == Link([], 0, {}, Level(Reasm(Zeros(size), 0, []), [], true), {})
    && forall i :: 0 <= i < |steps| ==> Next(ls[i], steps[i], ls[i + 1])
  }

  predicate InStream(p: Piece, stream: Bytes) {
    p.offset + |p.data| <= |stream| && p.data == stream[p.offset..p.offset + |p.data|]
  }

  /** Every tracked byte is the stream's byte at that place. */
  ghost predicate Agrees(r: Reasm, stream: Bytes) {
    && Valid(r) && r.delivered <= |stream|
    && forall p :: Covered(r.spans, p) ==>
                     0 <= p < |r.buf| && r.delivered + p < |stream| && r.buf[p] == stream[r.delivered + p]
  }

  /** The messages taken by TLS are whole messages and are exactly the delivered bytes. */
  ghost predicate Taken(l: Level, stream: Bytes) {
    && Agrees(l.r, stream)
    && (forall i :: 0 <= i < |l.accepted| ==> IsMessage(l.accepted[i]))
    && Concat(l.accepted) == stream[..l.r.delivered]
  }

  /** Stream position `p` has been delivered or is tracked. */
  predicate Has(r: Reasm, p: nat) { p < r.delivered || Covered(r.spans, p - r.delivered) }

  ghost predicate Inv(s: Link) {
    && s.sendOffset <= |s.stream| <= RETAINED
    && (forall p :: p in s.net ==> InStream(p, s.stream))
    && Taken(s.level, s.stream)
    && (forall k: nat :: Has(s.level.r, k) <==> InSome(s.stored, k))
  }

  predicate InSome(ps: set<Piece>, k: int) { exists p :: p in ps && InPiece(p, k) }

  predicate InPiece(p: Piece, k: int) { p.offset <= k < p.offset + |p.data| }

  lemma InsertAgrees(r: Reasm, stream: Bytes, p: Piece, r': Reasm, res: Outcome)
    requires Agrees(r, stream) && InStream(p, stream) && Inserted(r, p.offset, p.data, r', res)
    ensures Agrees(r', stream) && r'.delivered == r.delivered
    ensures forall k: nat :: Has(r, k) ==> Has(r', k)
  {
    if r' != r {
      forall q | Covered(r'.spans, q)
        ensures 0 <= q < |r'.buf| && r'.delivered + q < |stream| && r'.buf[q] == stream[r'.delivered + q]
      {
        InsertAgreesAt(r, stream, p, r', res, q);
      }
      hide Covered;
    }
  }

  lemma InsertAgreesAt(r: Reasm, stream: Bytes, p: Piece, r': Reasm, res: Outcome, q: int)
    requires Agrees(r, stream) && InStream(p, stream) && Inserted(r, p.offset, p.data, r', res)
    requires r' != r && Covered(r'.spans, q)
    ensures 0 <= q < |r'.buf| && r'.delivered + q < |stream| && r'.buf[q] == stream[r'.delivered + q]
  {
    CoveredInside(r', q);
    var skip := SaturatingSub(r.delivered, p.offset);
    var lo, hi := SaturatingSub(p.offset, r.delivered), p.offset + |p.data| - r.delivered;
    SplicedAt(r.buf, r'.buf, lo, p.data[skip..], q);
    hide Covered, Ordered, Spliced;
    if !(lo <= q < hi) {
      assert Covered(r.spans, q);
    }
  }

  lemma CoveredInside(r: Reasm, q: int)
    requires Valid(r) && Covered(r.spans, q)
    ensures 0 <= q < |r.buf|
  {
  }

  /** Taking one message off the front. */
  lemma TakeOne(l: Level, stream: Bytes, n: nat, l': Level)
    requires Taken(l, stream)
    requires 4 <= n <= ContiguousLen(l.r) && MessageLen(l.r.buf[..ContiguousLen(l.r)]) == n
    requires l'.r == Advanced(l.r, n) && l'.accepted == l.accepted + [l.r.buf[..n]]
    ensures Taken(l', stream) && forall k: nat :: Has(l.r, k) <==> Has(l'.r, k)
  {
    Frontier(l.r, n - 1);
    AdvancedValid(l.r, n);
    AdvanceKeeps(l.r, n);
    FrontIsStream(l.r, stream, n);
    var m := l.r.buf[..n];
    var d := l.r.delivered;
    assert IsMessage(m) by { assert MessageLen(l.r.buf[..ContiguousLen(l.r)]) == MessageLen(m); }
    ConcatSnoc(l.accepted, m);
    assert stream[..d + n] == stream[..d] + stream[d..d + n];
    assert Agrees(l'.r, stream) by { AdvanceAgrees(l.r, stream, n); }
  }

  lemma AdvanceKeeps(r: Reasm, n: nat)
    requires Valid(r) && n <= ContiguousLen(r) && n <= |r.buf|
    ensures forall k: nat :: Has(r, k) <==> Has(Advanced(r, n), k)
  {
    AdvancedValid(r, n);
    var r' := Advanced(r, n);
    hide Covered, Advanced;
    forall k: nat ensures Has(r, k) <==> Has(r', k) {
      if r.delivered <= k < r.delivered + n {
        Frontier(r, k - r.delivered);
      } else if k >= r.delivered + n {
        assert Covered(r'.spans, k - r'.delivered) <==> Covered(r.spans, k - r'.delivered + n);
      }
    }
  }

  lemma FrontIsStream(r: Reasm, stream: Bytes, n: nat)
    requires Agrees(r, stream) && n <= ContiguousLen(r)
    ensures n <= |r.buf| && r.delivered + n <= |stream| && r.buf[..n] == stream[r.delivered..r.delivered + n]
  {
    Frontier(r, n - 1);
    forall p | 0 <= p < n ensures r.delivered + p < |stream| && r.buf[p] == stream[r.delivered + p] {
      Frontier(r, p);
    }
  }

  lemma AdvanceAgrees(r: Reasm, stream: Bytes, n: nat)
    requires Agrees(r, stream) && 0 < n <= ContiguousLen(r)
    ensures n <= |r.buf| && Agrees(Advanced(r, n), stream)
  {
    FrontIsStream(r, stream, n);
    AdvancedValid(r, n);
    var r' := Advanced(r, n);
    forall p | Covered(r'.spans, p)
      ensures 0 <= p < |r'.buf| && r'.delivered + p < |stream| && r'.buf[p] == stream[r'.delivered + p]
    {
      CoveredInside(r', p);
      assert Covered(r.spans, p + n);
      assert r'.buf[p] == r.buf[p + n];
    }
  }

  lemma {:induction false} DrainTakes(l: Level, verdicts: seq<Verdict>, stream: Bytes)
    requires Taken(l, stream)
    ensures var l' := Drain(l, verdicts).0;
            Taken(l', stream) && forall k: nat :: Has(l.r, k) <==> Has(l'.r, k)
    decreases |verdicts|
  {
    hide Taken, Has, Advanced, MessageLen;
    assert Valid(l.r) by { TakenValid(l, stream); }
    Frontier(l.r, 0);
    var avail := ContiguousLen(l.r);
    if avail >= 4 && avail >= MessageLen(l.r.buf[..avail]) && verdicts != [] && !verdicts[0].Reject? {
      var n := MessageLen(l.r.buf[..avail]);
      MessageLenBound(l.r.buf[..avail]);
      AdvancedValid(l.r, n);
      var taken := Level(Advanced(l.r, n), l.accepted + [l.r.buf[..n]], !verdicts[0].Release?);
      TakeOne(l, stream, n, taken);
      if verdicts[0].Accept? {
        DrainTakes(taken, verdicts[1..], stream);
      }
    }
  }

  lemma TakenValid(l: Level, stream: Bytes)
    requires Taken(l, stream)
    ensures Valid(l.r)
  {
  }

  lemma MessageLenBound(s: Bytes)
    requires |s| >= 4
    ensures MessageLen(s) >= 4
  {
  }

  /** Inserting adds the bytes of a frame that is stored, and no others. */
  lemma StoredHas(l: Level, p: Piece, mid: Reasm, k: nat)
    requires Valid(l.r) && l.slotHeld && p.offset + |p.data| <= MAX_CRYPTO_OFFSET && Inserted(l.r, p.offset, p.data, mid, Pass)
    ensures Has(mid, k) <==> Has(l.r, k) || (Stores(l, p) && InPiece(p, k))
  {
    if k >= l.r.delivered && mid != l.r {
      var lo, hi := SaturatingSub(p.offset, l.r.delivered), p.offset + |p.data| - l.r.delivered;
      assert Merged(l.r.spans, lo, hi, mid.spans);
    }
    hide Covered;
  }

  lemma InvArrive(s: Link, p: Piece, verdicts: seq<Verdict>, s': Link)
    requires Inv(s) && Next(s, Arrive(p, verdicts), s')
    ensures Inv(s')
  {
    var res, mid :| Handled(s.level, p.offset, p.data, verdicts, s'.level, res, mid);
    hide Taken, Agrees, Inserted, Has;
    if s'.level != s.level || Stores(s.level, p) {
      assert Valid(s.level.r) by { TakenValid(s.level, s.stream); }
      ArriveTakes(s, p, verdicts, s', res, mid);
      OneMore(s.stored, p);
    }
  }

  lemma OneMore(ps: set<Piece>, p: Piece)
    ensures forall k: nat :: InSome(ps + {p}, k) <==> InSome(ps, k) || InPiece(p, k)
  {
  }

  lemma ArriveTakes(s: Link, p: Piece, verdicts: seq<Verdict>, s': Link, res: Outcome, mid: Reasm)
    requires Inv(s) && p in s.net
    requires s'.level != s.level || Stores(s.level, p)
    requires Handled(s.level, p.offset, p.data, verdicts, s'.level, res, mid)
    ensures Taken(s'.level, s.stream)
    ensures forall k: nat :: Has(s'.level.r, k) <==> Has(s.level.r, k) || (Stores(s.level, p) && InPiece(p, k))
  {
    InsertAgrees(s.level.r, s.stream, p, mid, Pass);
    DrainTakes(Level(mid, s.level.accepted, true), verdicts, s.stream);
    hide Has, InPiece, Stores;
    forall k: nat ensures Has(s'.level.r, k) <==> Has(s.level.r, k) || (Stores(s.level, p) && InPiece(p, k)) {
      StoredHas(s.level, p, mid, k);
    }
  }

  lemma InvStage(s: Link, flight: Bytes, s': Link)
    requires Inv(s) && Next(s, Stage(flight), s')
    ensures Inv(s')
  {
    assert s.stream <= s'.stream;
    assert s'.stream[..s.level.r.delivered] == s.stream[..s.level.r.delivered];
    forall p | p in s.net ensures InStream(p, s'.stream) {
      assert s'.stream[p.offset..p.offset + |p.data|] == s.stream[p.offset..p.offset + |p.data|];
    }
  }

  lemma InvStep(s: Link, step: Step, s': Link)
    requires Inv(s) && Next(s, step, s')
    ensures Inv(s')
  {
    match step
    case Stage(flight) => InvStage(s, flight, s');
    case Emit(n) => hide Taken, Has;
    case RewindOffset =>
    case Arrive(p, verdicts) => InvArrive(s, p, verdicts, s');
  }

  lemma {:induction false} InvRun(ls: seq<Link>, steps: seq<Step>, size: nat, n: nat)
    requires Run(ls, steps, size) && n <= |steps|
    ensures Inv(ls[n])
    decreases n
  {
    if n > 0 {
      InvRun(ls, steps, size, n - 1);
      InvStep(ls[n - 1], steps[n - 1], ls[n]);
    }
  }

  /** The flights TLS handed out during a run. */
  function Flights(steps: seq<Step>): seq<Bytes> {
    if steps == [] then []
    else
      var last := steps[|steps| - 1];
      Flights(steps[..|steps| - 1]) + if last.Stage? then [last.flight] else []
  }

  lemma StreamStep(s: Link, step: Step, s': Link)
    requires Next(s, step, s')
    ensures s'.stream == if step.Stage? then RetainedAfter(s.stream, step.flight) else s.stream
  {
  }

  lemma {:induction false} StreamIsRetained(ls: seq<Link>, steps: seq<Step>, size: nat)
    requires Run(ls, steps, size)
    ensures ls[|steps|].stream == RetainedStream(Flights(steps))
    decreases |steps|
  {
    if steps != [] {
      var m := |steps| - 1;
      StreamIsRetained(ls[..m + 1], steps[..m], size);
      StreamStep(ls[m], steps[m], ls[m + 1]);
      hide Next;
      var before := Flights(steps[..m]);
      if steps[m].Stage? {
        assert Flights(steps)[..|before|] == before;
      } else {
        assert before + [] == before;
      }
    }
  }

  /**
   Whatever is lost, repeated, reordered, split differently after a rewind, or rejected by
   TLS for a while: the bytes delivered and the bytes ready behind them are a prefix of the
   sender's stream, and the messages TLS has taken are the parse of the delivered part and
   the first messages of the whole stream.
   */
  lemma DeliversPrefix(ls: seq<Link>, steps: seq<Step>, size: nat)
    requires Run(ls, steps, size)
    ensures var s := ls[|steps|];
            var r := s.level.r;
            var ready := ContiguousLen(r);
            && ready <= |r.buf| && r.delivered + ready <= |s.stream|
            && s.stream == RetainedStream(Flights(steps))
            && Concat(s.level.accepted) + r.buf[..ready] == s.stream[..r.delivered + ready]
            && s.level.accepted == Messages(s.stream[..r.delivered])
            && s.level.accepted <= Messages(s.stream)
  {
    var s := ls[|steps|];
    var r := s.level.r;
    InvRun(ls, steps, size, |steps|);
    StreamIsRetained(ls, steps, size);
    hide Run, RetainedStream, Flights, Messages, ContiguousLen;
    ParseOfPrefix(s.level, s.stream);
    ReadyIsNext(s.level, s.stream);
  }

  lemma ReadyIsNext(l: Level, stream: Bytes)
    requires Taken(l, stream)
    ensures var ready := ContiguousLen(l.r);
            && ready <= |l.r.buf| && l.r.delivered + ready <= |stream|
            && Concat(l.accepted) + l.r.buf[..ready] == stream[..l.r.delivered + ready]
  {
    FrontIsStream(l.r, stream, ContiguousLen(l.r));
  }

  lemma ParseOfPrefix(l: Level, stream: Bytes)
    requires Taken(l, stream)
    ensures l.accepted == Messages(stream[..l.r.delivered]) && l.accepted <= Messages(stream)
  {
    var d := l.r.delivered;
    MessagesConcat(l.accepted, []);
    assert Messages([]) == [] && stream[..d] + [] == stream[..d] && l.accepted + [] == l.accepted;
    MessagesConcat(l.accepted, stream[d..]);
    assert stream[..d] + stream[d..] == stream;
  }

  /** The frontier has reached `n` if and only if frames that were stored contain every byte below it. */
  lemma FrontierReached(ls: seq<Link>, steps: seq<Step>, size: nat, n: nat)
    requires Run(ls, steps, size)
    ensures var r := ls[|steps|].level.r;
            r.delivered + ContiguousLen(r) >= n <==> forall k :: 0 <= k < n ==> InSome(ls[|steps|].stored, k)
  {
    var s := ls[|steps|];
    var r := s.level.r;
    InvRun(ls, steps, size, |steps|);
    hide Run, InSome;
    Frontier(r, 0);
    var stop: nat := r.delivered + ContiguousLen(r);
    if stop < n {
      assert !Has(r, stop);
    } else {
      forall k: nat | k < n ensures InSome(s.stored, k) {
        Frontier(r, k - r.delivered);
        assert Has(r, k);
      }
    }
  }

  /** In every run, what TLS has taken and what waits for it are together the messages of the contiguous stream. */
  lemma WaitingIsRest(ls: seq<Link>, steps: seq<Step>, size: nat)
    requires Run(ls, steps, size)
    ensures var s := ls[|steps|];
            var upTo := s.level.r.delivered + ContiguousLen(s.level.r);
            && Valid(s.level.r) && upTo <= |s.stream|
            && s.level.accepted + Waiting(s.level.r) == Messages(s.stream[..upTo])
  {
    var s := ls[|steps|];
    InvRun(ls, steps, size, |steps|);
    hide Run, Messages;
    ReadyIsNext(s.level, s.stream);
    MessagesConcat(s.level.accepted, Front(s.level.r));
  }

  /** TLS takes every message it is offered; no call offers more messages than the buffer has bytes. */
  predicate Willing(steps: seq<Step>, size: nat) {
    forall i :: 0 <= i < |steps| && steps[i].Arrive? ==> Accepts(steps[i].verdicts) >= size
  }

  lemma {:induction false} FewMessages(s: Bytes)
    ensures |Messages(s)| <= |s|
    decreases |s|
  {
    if |s| >= 4 && |s| >= MessageLen(s) {
      FewMessages(s[MessageLen(s)..]);
    }
  }

  lemma WillingStep(s: Link, step: Step, s': Link)
    requires Inv(s) && Next(s, step, s') && s.level.slotHeld && Waiting(s.level.r) == []
    requires step.Arrive? ==> Accepts(step.verdicts) >= |s.level.r.buf|
    ensures s'.level.slotHeld && Valid(s'.level.r) && Waiting(s'.level.r) == [] && |s'.level.r.buf| == |s.level.r.buf|
  {
    hide Waiting, Accepts, InSome, Has, Taken;
    assert Valid(s.level.r) by { TakenValid(s.level, s.stream); }
    if step.Arrive? {
      var p := step.piece;
      var res, mid :| Handled(s.level, p.offset, p.data, step.verdicts, s'.level, res, mid);
      HandledExactly(s.level, p.offset, p.data, step.verdicts, s'.level, res, mid);
      if s'.level != s.level {
        MidSize(s.level, p, mid);
        DrainSize(Level(mid, s.level.accepted, true), step.verdicts);
      }
    }
  }

  lemma MidSize(l: Level, p: Piece, mid: Reasm)
    requires Valid(l.r) && Valid(mid) && Inserted(l.r, p.offset, p.data, mid, Pass)
    ensures |mid.buf| == |l.r.buf| && |Waiting(mid)| <= |l.r.buf|
  {
    FewMessages(Front(mid));
    hide Messages, Valid;
  }

  lemma {:induction false} DrainSize(l: Level, verdicts: seq<Verdict>)
    requires Valid(l.r)
    ensures |Drain(l, verdicts).0.r.buf| == |l.r.buf|
    decreases |verdicts|
  {
    hide MessageLen;
    Frontier(l.r, 0);
    var avail := ContiguousLen(l.r);
    if avail >= 4 && avail >= MessageLen(l.r.buf[..avail]) && verdicts != [] && verdicts[0].Accept? {
      var n := MessageLen(l.r.buf[..avail]);
      AdvancedValid(l.r, n);
      DrainSize(Level(Advanced(l.r, n), l.accepted + [l.r.buf[..n]], true), verdicts[1..]);
    }
  }

  lemma {:induction false} WillingRun(ls: seq<Link>, steps: seq<Step>, size: nat, n: nat)
    requires Run(ls, steps, size) && Willing(steps, size) && n <= |steps|
    ensures var l := ls[n].level;
            l.slotHeld && Valid(l.r) && Waiting(l.r) == [] && |l.r.buf| == size
    decreases n
  {
    hide Next, Accepts;
    if n > 0 {
      WillingRun(ls, steps, size, n - 1);
      InvRun(ls, steps, size, n - 1);
      assert steps[n - 1].Arrive? ==> Accepts(steps[n - 1].verdicts) >= size;
      WillingStep(ls[n - 1], steps[n - 1], ls[n]);
    }
  }

  /**
   If TLS takes what it is offered, then after any losses, repeats, overlaps and rewinds it has
   every message of the contiguous stream, and every message of the whole stream once stored
   frames hold all of its bytes.
   */
  lemma KeepsUp(ls: seq<Link>, steps: seq<Step>, size: nat)
    requires Run(ls, steps, size) && Willing(steps, size)
    ensures var s := ls[|steps|];
            var upTo := s.level.r.delivered + ContiguousLen(s.level.r);
            && upTo <= |s.stream| && s.level.accepted == Messages(s.stream[..upTo])
            && ((forall k :: 0 <= k < |s.stream| ==> InSome(s.stored, k)) ==> s.level.accepted == Messages(s.stream))
  {
    var s := ls[|steps|];
    WillingRun(ls, steps, size, |steps|);
    WaitingIsRest(ls, steps, size);
    FrontierReached(ls, steps, size, |s.stream|);
    hide Run, Willing, Messages, Waiting;
    assert s.level.accepted + [] == s.level.accepted;
    assert s.stream[..|s.stream|] == s.stream;
  }

  /** A frame that needs a seventeenth span is not tracked, even one that would move the frontier. */
  lemma FullSpanListLosesFront(r: Reasm, data: Bytes, r': Reasm, res: Outcome)
    requires Valid(r) && data != [] && |data| <= |r.buf| && Overflows(r.spans, 0, |data|)
    requires Inserted(r, r.delivered, data, r', res)
    ensures res.Pass? && ContiguousLen(r') == 0 && !Covered(r'.spans, 0)
  {
    Frontier(r', 0);
    assert r'.spans == r.spans;
    assert r.spans[0].hi < 0 || |data| < r.spans[0].lo;
  }

  // --------------------------------------------------------------------------------
  // A run that fills the span list: bytes 2, 4, ..., 32 arrive, then byte 0
  // --------------------------------------------------------------------------------

  function OneByte(i: nat): Piece { Piece(i, [0]) }

  function Sent(n: nat): set<Piece> { set i: nat | i < n :: OneByte(i) }

  function EvenSpans(k: nat): seq<Span> { seq(k, i requires 0 <= i < k => Span(2 * i + 2, 2 * i + 3)) }

  function EvenPieces(k: nat): set<Piece> { set i: nat | i < k :: OneByte(2 * i + 2) }

  function EvenReasm(k: nat): Reasm { Reasm(Zeros(64), 0, EvenSpans(k)) }

  function GappyLink(i: nat): Link {
    if i == 0 then Link([], 0, {}, Level(Reasm(Zeros(64), 0, []), [], true), {})
    else if i <= 34 then Link(Zeros(33), i - 1, Sent(i - 1), Level(EvenReasm(0), [], true), {})
    else if i <= 50 then Link(Zeros(33), 33, Sent(33), Level(EvenReasm(i - 34), [], true), EvenPieces(i - 34))
    else Link(Zeros(33), 33, Sent(33), Level(EvenReasm(16), [], true), EvenPieces(16))
  }

  function GappyStep(i: nat): Step {
    if i == 0 then Stage(Zeros(33))
    else if i < 34 then Emit(1)
    else if i < 50 then Arrive(OneByte(2 * (i - 34) + 2), [])
    else Arrive(OneByte(0), [])
  }

  lemma EvenValid(k: nat)
    requires k <= 16
    ensures Valid(EvenReasm(k)) && ContiguousLen(EvenReasm(k)) == 0
  {
  }

  lemma SameZeros(at: nat)
    requires at < 64
    ensures Spliced(Zeros(64), Zeros(64), at, [0][0..])
  {
  }

  lemma EvenNext(k: nat)
    requires k < 16
    ensures Inserted(EvenReasm(k), 2 * k + 2, [0], EvenReasm(k + 1), Pass) && !Overflows(EvenSpans(k), 2 * k + 2, 2 * k + 3)
  {
    EvenValid(k + 1);
    SameZeros(2 * k + 2);
    hide Valid, Spliced, Zeros;
    var ss, ss' := EvenSpans(k), EvenSpans(k + 1);
    assert ss'[..k] == ss;
    forall p ensures Covered(ss', p) <==> Covered(ss, p) || 2 * k + 2 <= p < 2 * k + 3 {
      CoveredSnoc(ss', p);
    }
    hide Covered;
  }

  lemma EvenFull()
    ensures Inserted(EvenReasm(16), 0, [0], EvenReasm(16), Pass) && Overflows(EvenSpans(16), 0, 1)
  {
    EvenValid(16);
    SameZeros(0);
    hide Valid, Spliced, Zeros;
  }

  lemma GappySends(i: nat)
    requires i < 34
    ensures Next(GappyLink(i), GappyStep(i), GappyLink(i + 1))
  {
    if i == 0 {
      assert [] + Zeros(33) == Zeros(33) && EvenSpans(0) == [] && Sent(0) == {};
    } else {
      assert Sent(i) == Sent(i - 1) + {OneByte(i - 1)};
      assert Zeros(33)[i - 1..i] == [0];
    }
  }

  /** A frame that stores and completes no message is handled by storing it. */
  lemma HandledByStoring(r: Reasm, p: Piece, r': Reasm)
    requires Valid(r') && ContiguousLen(r') == 0 && p.data != [] && r.delivered == 0
    requires p.offset + |p.data| <= |r.buf| && p.offset + |p.data| <= MAX_CRYPTO_OFFSET && Inserted(r, p.offset, p.data, r', Pass)
    ensures Handled(Level(r, [], true), p.offset, p.data, [], Level(r', [], true), Pass, r')
  {
    assert !Inserted(r, p.offset, p.data, r, Fail(CryptoBufferExceeded)) by { hide Valid, Spliced, Merged; }
    hide Inserted, Valid;
  }

  lemma GappyStores(k: nat)
    requires k < 16
    ensures Next(GappyLink(34 + k), GappyStep(34 + k), GappyLink(35 + k))
  {
    var s, s', p := GappyLink(34 + k), GappyLink(35 + k), OneByte(2 * k + 2);
    assert p in s.net;
    assert EvenPieces(0) == {} && EvenPieces(k + 1) == EvenPieces(k) + {p};
    hide Sent, EvenPieces;
    EvenNext(k);
    EvenValid(k + 1);
    hide Inserted, Overflows, Valid, EvenSpans;
    HandledByStoring(EvenReasm(k), p, EvenReasm(k + 1));
    hide Handled, Zeros;
  }

  lemma GappyLoses()
    ensures Next(GappyLink(50), GappyStep(50), GappyLink(51))
  {
    var s, p := GappyLink(50), OneByte(0);
    assert p in s.net;
    hide Sent, EvenPieces;
    EvenFull();
    EvenValid(16);
    hide Inserted, Overflows, Valid, EvenSpans;
    HandledByStoring(EvenReasm(16), p, EvenReasm(16));
    hide Handled, Zeros;
  }

  /** Byte 0 arrives, every byte below 1 has been received, and the frontier has not moved. */
  lemma SpanListFills() returns (ls: seq<Link>, steps: seq<Step>)
    ensures Run(ls, steps, 64) && steps != [] && steps[|steps| - 1] == Arrive(OneByte(0), [])
    ensures var r := ls[|steps|].level.r; r.delivered + ContiguousLen(r) == 0
    ensures !Stores(ls[|steps| - 1].level, OneByte(0)) && ls[|steps| - 1].level.slotHeld
  {
    ls := seq(52, i requires 0 <= i < 52 => GappyLink(i));
    steps := seq(51, i requires 0 <= i < 51 => GappyStep(i));
    forall i | 0 <= i < 51 ensures Next(ls[i], steps[i], ls[i + 1]) {
      if i < 34 {
        GappySends(i);
      } else if i < 50 {
        GappyStores(i - 34);
      } else {
        GappyLoses();
      }
    }
    EvenValid(16);
    EvenFull();
  }
}
