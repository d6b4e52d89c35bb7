/**
 From the tracked ranges to an ACK frame and back (section 19.3.1 of RFC 9000): the
 receiver of packets turns its ranges into gap and range varints, the sender of packets
 expands them again.
 */
module AckPath {
  import opened Bytes
  import opened Varint
  import opened FrameCodec
  import opened PnTracker

  const SCRATCH: nat := 256
  const MAX_PAIRS: nat := 16

  type Pair = (nat, nat)

  /** All numbers are varints, as every packet number accepted by `recv` is. */
  predicate InRange(rs: seq<Range>) { forall i :: 0 <= i < |rs| ==> rs[i].hi <= MAX_VARINT }

  /** The (gap, range) pairs for all ranges below the highest, downwards. */
  function Pairs(rs: seq<Range>): (ps: seq<Pair>)
    requires Canonical(rs) && InRange(rs)
    ensures |ps| == if rs == [] then 0 else |rs| - 1
    ensures forall i :: 0 <= i < |ps| ==> ps[i].0 <= MAX_VARINT && ps[i].1 <= MAX_VARINT
  {
    if |rs| <= 1 then []
    else
      var n := |rs|;
      [(rs[n - 1].lo - rs[n - 2].hi - 2, rs[n - 2].hi - rs[n - 2].lo)] + Pairs(rs[..n - 1])
  }

  predicate Encodables(ps: seq<Pair>) {
    forall i :: 0 <= i < |ps| ==> ps[i].0 <= MAX_VARINT && ps[i].1 <= MAX_VARINT
  }

  function PairBytes(p: Pair): Bytes
    requires p.0 <= MAX_VARINT && p.1 <= MAX_VARINT
  {
    VarintBytes(p.0) + VarintBytes(p.1)
  }

  function PairsBytes(ps: seq<Pair>): Bytes
    requires Encodables(ps)
  {
    if ps == [] then [] else PairsBytes(ps[..|ps| - 1]) + PairBytes(ps[|ps| - 1])
  }

  /** How many whole pairs go into a scratch buffer of `room` bytes. */
  function Fitting(ps: seq<Pair>, room: nat): (k: nat)
    requires Encodables(ps)
    ensures k <= |ps|
  {
    if ps == [] || |PairBytes(ps[0])| > room then 0
    else 1 + Fitting(ps[1..], room - |PairBytes(ps[0])|)
  }

  /** The pair after the last whole one loses its range but leaves its gap behind. */
  predicate Dangling(ps: seq<Pair>, room: nat)
    requires Encodables(ps)
  {
    if ps == [] then false
    else if |PairBytes(ps[0])| <= room then Dangling(ps[1..], room - |PairBytes(ps[0])|)
    else VarintLen(ps[0].0) <= room
  }

  /** The ACK that announces the `k + 1` highest ranges. */
  function AckOf(rs: seq<Range>, k: nat): Frame
    requires rs != [] && Canonical(rs) && InRange(rs) && k < |rs|
  {
    var top := rs[|rs| - 1];
    Ack(top.hi, 0, top.hi - top.lo, PairsBytes(Pairs(rs)[..k]), None)
  }

  /** The ACK a tracker holding `rs` produces, output space permitting. */
  function AckFor(rs: seq<Range>): Option<Frame>
    requires Canonical(rs) && InRange(rs)
  {
    if rs == [] || Dangling(Pairs(rs), SCRATCH) then None else Some(AckOf(rs, Fitting(Pairs(rs), SCRATCH)))
  }

  /** `AckRangeIter` run to its end. */
  function AckPairs(s: Bytes): (r: Result<seq<Pair>>)
    decreases |s|
  {
    if s == [] then Ok([])
    else
      var (gap, n1) :- DecodeVarint(s);
      var (range, n2) :- DecodeVarint(s[n1..]);
      var rest :- AckPairs(s[n1..][n2..]);
      Ok([(gap, range)] + rest)
  }

  /** The ranges below `smallest` that the pairs describe, highest first. */
  function ExpandBelow(smallest: nat, ps: seq<Pair>): seq<Range>
    decreases |ps|
  {
    if ps == [] || smallest < ps[0].0 + 2 then []
    else
      var hi := smallest - ps[0].0 - 2;
      var lo := SaturatingSub(hi, ps[0].1);
      [Range(lo, hi)] + ExpandBelow(lo, ps[1..])
  }

  /** What the sender marks as acknowledged on receiving `f`. */
  function Acked(f: Frame): (r: Result<seq<Range>>)
    requires f.Ack?
  {
    var ps :- AckPairs(f.ackRanges);
    var lo := SaturatingSub(f.largestAck, f.firstAckRange);
    Ok([Range(lo, f.largestAck)] + ExpandBelow(lo, ps[..Min(|ps|, MAX_PAIRS)]))
  }

  function Reverse(rs: seq<Range>): (s: seq<Range>)
    ensures |s| == |rs|
    ensures forall i :: 0 <= i < |rs| ==> s[i] == rs[|rs| - 1 - i]
  {
    if rs == [] then [] else [rs[|rs| - 1]] + Reverse(rs[..|rs| - 1])
  }

  // --------------------------------------------------------------------------------
  // Building
  // --------------------------------------------------------------------------------

  /**
   `build_ack_frame` for a tracker holding `rs`, into `out[lo..hi]`. The gap subtraction
   cannot underflow; pairs that do not fit the scratch are left out from the low end; the
   result is `None` exactly when there is nothing to announce, when the scratch ends in a
   gap without its range, or when the frame does not fit the output.
   */
  method BuildAckFrame(rs: seq<Range>, out: array<Byte>, lo: nat, hi: nat) returns (r: Option<nat>)
    requires Canonical(rs) && InRange(rs) && lo <= hi <= out.Length
    modifies out
    ensures Outside(old(out[..]), out[..], lo, hi)
    ensures AckFor(rs).None? ==> r.None?
    ensures AckFor(rs).Some? ==> Emitted(AckFor(rs).value, old(out[..]), out[..], lo, hi, r)
  {
    if rs == [] {
      return None;
    }
    hide AckFor, AckOf, Filled, Typed, Encodable, FrameBytes, Dangling, Fitting, Pairs, PairsBytes, VarintBytes, CountPairs,
         Canonical, InRange;
    var bytes := FillScratch(rs);
    TopInRange(rs);
    var top := rs[|rs| - 1];
    PlainAck(top, bytes);
    ScratchCounted(rs, bytes);
    var e := Encode(Ack(top.hi, 0, top.hi - top.lo, bytes, None), out, lo, hi);
    return if e.Ok? then Some(e.value) else None;
  }

  /** `f` has a wire form, and it is in `now` at `lo` if it fits before `hi`. */
  predicate Emitted(f: Frame, was: Bytes, now: Bytes, lo: nat, hi: nat, r: Option<nat>) {
    && Encodable(f)
    && (r.Some? <==> lo + |FrameBytes(f)| <= hi)
    && (r.Some? ==> r.value == |FrameBytes(f)| && Spliced(was, now, lo, FrameBytes(f)))
  }

  /** What the scratch holds after the loop: whole pairs, then possibly one gap. */
  ghost predicate Filled(rs: seq<Range>, bytes: Bytes)
    requires rs != [] && Canonical(rs) && InRange(rs)
  {
    var ps := Pairs(rs);
    var k := Fitting(ps, SCRATCH);
    && |bytes| <= SCRATCH
    && if Dangling(ps, SCRATCH) then k < |ps| && bytes == PairsBytes(ps[..k]) + VarintBytes(ps[k].0)
       else bytes == PairsBytes(ps[..k])
  }

  lemma ScratchCounted(rs: seq<Range>, bytes: Bytes)
    requires rs != [] && Canonical(rs) && InRange(rs) && Filled(rs, bytes)
    ensures CountPairs(bytes).Ok? <==> AckFor(rs).Some?
    ensures AckFor(rs).Some? ==>
              AckFor(rs).value == Ack(rs[|rs| - 1].hi, 0, rs[|rs| - 1].hi - rs[|rs| - 1].lo, bytes, None)
  {
    var ps := Pairs(rs);
    var k := Fitting(ps, SCRATCH);
    if Dangling(ps, SCRATCH) {
      GapUncounted(ps[..k], ps[k].0);
    } else {
      PairsCounted(ps[..k]);
    }
  }

  lemma TopInRange(rs: seq<Range>)
    requires rs != [] && Canonical(rs) && InRange(rs)
    ensures rs[|rs| - 1].lo <= rs[|rs| - 1].hi <= MAX_VARINT
  {
  }

  /** An ACK without ECN counts is encodable exactly when its ranges are whole pairs. */
  lemma PlainAck(top: Range, bytes: Bytes)
    requires top.lo <= top.hi <= MAX_VARINT && |bytes| <= SCRATCH
    ensures var f := Ack(top.hi, 0, top.hi - top.lo, bytes, None);
            Typed(f) && (Encodable(f) <==> CountPairs(bytes).Ok?)
  {
    hide CountPairs, VarintBytes;
  }

  lemma AckTyped(rs: seq<Range>)
    requires Canonical(rs) && InRange(rs)
    ensures AckFor(rs).Some? ==> Typed(AckFor(rs).value)
  {
    if rs != [] {
      hide PairsBytes, Pairs, Fitting, Dangling, Canonical, InRange;
      FitBound(Pairs(rs), SCRATCH);
    }
  }

  lemma AckIs(rs: seq<Range>) returns (top: Range, bytes: Bytes)
    requires Canonical(rs) && InRange(rs) && AckFor(rs).Some?
    ensures top.lo <= top.hi <= MAX_VARINT && |bytes| <= SCRATCH && CountPairs(bytes).Ok?
    ensures AckFor(rs).value == Ack(top.hi, 0, top.hi - top.lo, bytes, None)
  {
    hide Pairs, Fitting, PairsBytes, Canonical, InRange, Dangling, CountPairs;
    TopInRange(rs);
    var ps, k := Pairs(rs), Fitting(Pairs(rs), SCRATCH);
    top, bytes := rs[|rs| - 1], PairsBytes(ps[..k]);
    PairsCounted(ps[..k]);
    FitBound(ps, SCRATCH);
  }

  /** The ACK a tracker produces can be encoded, in five bytes or more. */
  lemma AckEncodable(rs: seq<Range>)
    requires Canonical(rs) && InRange(rs) && AckFor(rs).Some?
    ensures Encodable(AckFor(rs).value) && |FrameBytes(AckFor(rs).value)| >= 5
  {
    hide Encodable, FrameBytes, Canonical, InRange, CountPairs, AckFor, Typed;
    var top, bytes := AckIs(rs);
    PlainAck(top, bytes);
    PlainAckSize(top, bytes);
  }

  lemma PlainAckSize(top: Range, bytes: Bytes)
    requires top.lo <= top.hi <= MAX_VARINT && Encodable(Ack(top.hi, 0, top.hi - top.lo, bytes, None))
    ensures |FrameBytes(Ack(top.hi, 0, top.hi - top.lo, bytes, None))| >= 5
  {
    var f := Ack(top.hi, 0, top.hi - top.lo, bytes, None);
    var fs := [V(0x02), V(top.hi), V(0), V(CountPairs(bytes).value), V(top.hi - top.lo), B(bytes)];
    assert Encodable(f) && Fields(f) == fs by { assert Fields(f) == fs; }
    hide VarintBytes, CountPairs, Encodable, Fields;
    NextPos(fs, 0);
    NextPos(fs, 1);
    NextPos(fs, 2);
    NextPos(fs, 3);
    NextPos(fs, 4);
    NextPos(fs, 5);
    assert fs[..6] == fs && fs[..0] == [];
  }

  /** How long the tracker's ACK is. */
  function AckSize(rs: seq<Range>): (n: nat)
    requires Canonical(rs) && InRange(rs) && AckFor(rs).Some?
    ensures n >= 5
  {
    AckEncodable(rs);
    |FrameBytes(AckFor(rs).value)|
  }

  /** The loop that fills the scratch buffer, from the second-highest range down. */
  method FillScratch(rs: seq<Range>) returns (bytes: Bytes)
    requires rs != [] && Canonical(rs) && InRange(rs)
    ensures Filled(rs, bytes) && |bytes| <= SCRATCH
  {
    hide VarintBytes, VarintLen, Fitting, Dangling, PairsBytes, PairBytes, Pairs, Canonical, InRange;
    ghost var ps := Pairs(rs);
    var buf := new Byte[SCRATCH](_ => 0);
    var pos, n := 0, |rs|;
    var i := n - 1;
    var prevSmallest := rs[i].lo;
    FillStart(ps);
    while i > 0
      invariant 0 <= i <= n - 1 && 0 <= pos <= SCRATCH
      invariant prevSmallest == rs[i].lo
      invariant FillState(ps, n - 1 - i, pos, buf[..pos])
    {
      ghost var d, was := n - 1 - i, buf[..pos];
      i := i - 1;
      PairAt(rs, d);
      var gap := prevSmallest - rs[i].hi - 2;
      var range := rs[i].hi - rs[i].lo;
      FillStep(ps, d, pos, was);
      var g := EncodeVarint(gap, buf, pos, SCRATCH);
      if g.Err? {
        return buf[..pos];
      }
      assert buf[..g.value] == was + VarintBytes(gap);
      var r := EncodeVarint(range, buf, g.value, SCRATCH);
      if r.Err? {
        return buf[..g.value];
      }
      assert buf[..r.value] == was + VarintBytes(gap) + VarintBytes(range);
      pos := r.value;
      prevSmallest := rs[i].lo;
    }
    FillEnd(ps, pos, buf[..pos]);
    return buf[..pos];
  }

  /** After `d` pairs the scratch holds exactly those, and what comes next decides the outcome. */
  ghost predicate FillState(ps: seq<Pair>, d: nat, pos: nat, bytes: Bytes) {
    && Encodables(ps) && d <= |ps| && pos == |bytes| <= SCRATCH
    && bytes == PairsBytes(ps[..d])
    && Fitting(ps, SCRATCH) == d + Fitting(ps[d..], SCRATCH - pos)
    && Dangling(ps, SCRATCH) == Dangling(ps[d..], SCRATCH - pos)
  }

  lemma FillStart(ps: seq<Pair>)
    requires Encodables(ps)
    ensures FillState(ps, 0, 0, [])
  {
    assert ps[..0] == [] && ps[0..] == ps;
  }

  lemma FillEnd(ps: seq<Pair>, pos: nat, bytes: Bytes)
    requires FillState(ps, |ps|, pos, bytes)
    ensures Fitting(ps, SCRATCH) == |ps| && !Dangling(ps, SCRATCH) && bytes == PairsBytes(ps[..|ps|])
  {
    assert ps[|ps|..] == [];
  }

  /** One more pair: it goes in whole, or only its gap does, or nothing. */
  lemma FillStep(ps: seq<Pair>, d: nat, pos: nat, bytes: Bytes)
    requires FillState(ps, d, pos, bytes) && d < |ps|
    ensures var (gap, range) := ps[d];
            && gap <= MAX_VARINT && range <= MAX_VARINT
            && (pos + VarintLen(gap) > SCRATCH ==> Fitting(ps, SCRATCH) == d && !Dangling(ps, SCRATCH))
            && (pos + VarintLen(gap) <= SCRATCH < pos + VarintLen(gap) + VarintLen(range) ==>
                  Fitting(ps, SCRATCH) == d && Dangling(ps, SCRATCH))
            && (pos + VarintLen(gap) + VarintLen(range) <= SCRATCH ==>
                  FillState(ps, d + 1, pos + VarintLen(gap) + VarintLen(range), bytes + VarintBytes(gap) + VarintBytes(range)))
  {
    hide VarintBytes, VarintLen, Fitting, Dangling, PairsBytes;
    var (gap, range) := ps[d];
    assert gap <= MAX_VARINT && range <= MAX_VARINT;
    var (g, r) := (VarintBytes(gap), VarintBytes(range));
    assert PairBytes(ps[d]) == g + r && bytes + (g + r) == bytes + g + r;
    hide PairBytes, Encodables;
    FitStep(ps, d, SCRATCH - pos);
  }

  /** The pair written at each turn of the loop. */
  lemma {:induction false} PairAt(rs: seq<Range>, d: nat)
    requires Canonical(rs) && InRange(rs) && d + 1 < |rs|
    ensures var i := |rs| - 2 - d;
            && rs[i + 1].lo - rs[i].hi >= 2
            && Pairs(rs)[d] == (rs[i + 1].lo - rs[i].hi - 2, rs[i].hi - rs[i].lo)
    decreases d
  {
    hide Pairs, Canonical, InRange;
    PairsTop(rs);
    if d > 0 {
      var below := rs[..|rs| - 1];
      PairAt(below, d - 1);
      assert Pairs(rs)[d] == Pairs(below)[d - 1];
      assert below[|rs| - 2 - d] == rs[|rs| - 2 - d] && below[|rs| - 1 - d] == rs[|rs| - 1 - d];
    }
  }

  lemma FitStep(ps: seq<Pair>, d: nat, room: nat)
    requires Encodables(ps) && d < |ps|
    ensures var need := |PairBytes(ps[d])|;
            && Fitting(ps[d..], room) == (if need > room then 0 else 1 + Fitting(ps[d + 1..], room - need))
            && Dangling(ps[d..], room) == (if need > room then VarintLen(ps[d].0) <= room else Dangling(ps[d + 1..], room - need))
    ensures PairsBytes(ps[..d + 1]) == PairsBytes(ps[..d]) + PairBytes(ps[d])
  {
    hide PairBytes;
    assert ps[d..][0] == ps[d] && ps[d..][1..] == ps[d + 1..];
    assert ps[..d + 1][..d] == ps[..d];
  }

  lemma {:induction false} FitBound(ps: seq<Pair>, room: nat)
    requires Encodables(ps)
    ensures |PairsBytes(ps[..Fitting(ps, room)])| <= room
    decreases |ps|
  {
    hide PairBytes;
    if ps != [] && |PairBytes(ps[0])| <= room {
      var k := Fitting(ps[1..], room - |PairBytes(ps[0])|);
      FitBound(ps[1..], room - |PairBytes(ps[0])|);
      assert ps[..k + 1][0] == ps[0] && ps[..k + 1][1..] == ps[1..][..k];
      PairsFront(ps[..k + 1]);
      hide PairsBytes;
    }
  }

  /** The encoding of a list of pairs, opened from the front. */
  lemma {:induction false} PairsFront(ps: seq<Pair>)
    requires Encodables(ps) && ps != []
    ensures PairsBytes(ps) == PairBytes(ps[0]) + PairsBytes(ps[1..])
    decreases |ps|
  {
    hide PairBytes;
    if |ps| > 1 {
      var n := |ps| - 1;
      PairsFront(ps[..n]);
      assert ps[..n][1..] == ps[1..][..n - 1];
    } else {
      assert ps[..0] == [] && ps[1..] == [];
    }
  }

  // --------------------------------------------------------------------------------
  // Reading back
  // --------------------------------------------------------------------------------

  /** Iterating over encoded pairs gives the pairs, and they count as whole. */
  lemma {:induction false} PairsCounted(ps: seq<Pair>)
    requires Encodables(ps)
    ensures AckPairs(PairsBytes(ps)) == Ok(ps) && CountPairs(PairsBytes(ps)) == Ok(|ps|)
    decreases |ps|
  {
    hide AckPairs, CountPairs, PairBytes, PairsBytes;
    if ps == [] {
      NoPairs();
    } else {
      PairsFront(ps);
      PairsCounted(ps[1..]);
      OneMorePair(ps[0], PairsBytes(ps[1..]));
      assert [ps[0]] + ps[1..] == ps;
    }
  }

  lemma NoPairs()
    ensures PairsBytes([]) == [] && AckPairs([]) == Ok([]) && CountPairs([]) == Ok(0)
  {
  }

  lemma OneMorePair(p: Pair, rest: Bytes)
    requires p.0 <= MAX_VARINT && p.1 <= MAX_VARINT
    requires AckPairs(rest).Ok? && CountPairs(rest).Ok?
    ensures AckPairs(PairBytes(p) + rest) == Ok([p] + AckPairs(rest).value)
    ensures CountPairs(PairBytes(p) + rest) == Ok(1 + CountPairs(rest).value)
  {
    hide DecodeVarint, PairBytes, VarintBytes;
    ReadsPair(p, rest);
  }

  lemma ReadsPair(p: Pair, rest: Bytes)
    requires p.0 <= MAX_VARINT && p.1 <= MAX_VARINT
    ensures var s := PairBytes(p) + rest;
            var n1 := VarintLen(p.0);
            && s != [] && DecodeVarint(s) == Ok((p.0, n1))
            && DecodeVarint(s[n1..]) == Ok((p.1, VarintLen(p.1)))
            && s[n1..][VarintLen(p.1)..] == rest
  {
    hide DecodeVarint, VarintBytes;
    var s := PairBytes(p) + rest;
    assert s == VarintBytes(p.0) + (VarintBytes(p.1) + rest);
    VarintRoundTrip(p.0, VarintBytes(p.1) + rest);
    VarintRoundTrip(p.1, rest);
    assert s[VarintLen(p.0)..] == VarintBytes(p.1) + rest;
  }

  /** Whole pairs followed by a lone gap are not whole pairs. */
  lemma {:induction false} GapUncounted(ps: seq<Pair>, gap: U64)
    requires Encodables(ps) && gap <= MAX_VARINT
    ensures CountPairs(PairsBytes(ps) + VarintBytes(gap)).Err?
    decreases |ps|
  {
    hide VarintBytes, VarintLen, DecodeVarint, PairBytes;
    var s := PairsBytes(ps) + VarintBytes(gap);
    if ps == [] {
      VarintRoundTrip(gap, []);
      assert s == VarintBytes(gap) + [];
      assert s[VarintLen(gap)..] == [];
      NothingToDecode();
    } else {
      PairsFront(ps);
      GapUncounted(ps[1..], gap);
      var rest := PairsBytes(ps[1..]) + VarintBytes(gap);
      assert s == PairBytes(ps[0]) + rest;
      ReadsPair(ps[0], rest);
    }
  }

  lemma NothingToDecode()
    ensures DecodeVarint([]).Err?
  {
  }

  lemma PairsTop(rs: seq<Range>)
    requires Canonical(rs) && InRange(rs) && |rs| > 1
    ensures Canonical(rs[..|rs| - 1]) && InRange(rs[..|rs| - 1])
    ensures var a, b := rs[|rs| - 1], rs[|rs| - 2];
            && a.lo >= b.hi + 2 && b.lo <= b.hi
            && Pairs(rs) == [(a.lo - b.hi - 2, b.hi - b.lo)] + Pairs(rs[..|rs| - 1])
  {
  }

  /** Expanding the first `k` pairs below the highest range gives the next `k` ranges down. */
  lemma {:induction false} ExpandsBack(rs: seq<Range>, k: nat)
    requires rs != [] && Canonical(rs) && InRange(rs) && k < |rs|
    ensures [rs[|rs| - 1]] + ExpandBelow(rs[|rs| - 1].lo, Pairs(rs)[..k]) == Reverse(rs[|rs| - 1 - k..])
    decreases k
  {
    hide Canonical, InRange, Pairs;
    var n := |rs|;
    if k == 0 {
      assert Pairs(rs)[..0] == [];
      assert rs[n - 1..] == [rs[n - 1]];
    } else {
      var all, low := Pairs(rs), rs[..n - 1];
      var a, b := rs[n - 1], rs[n - 2];
      PairsTop(rs);
      ExpandsBack(low, k - 1);
      var ps := all[..k];
      assert ps[1..] == Pairs(low)[..k - 1];
      assert ps[0] == (a.lo - b.hi - 2, b.hi - b.lo);
      assert ExpandBelow(a.lo, ps) == [b] + ExpandBelow(b.lo, ps[1..]);
      var up := rs[n - 1 - k..];
      assert up[..k] == low[|low| - k..] && up[k] == a;
    }
  }

  /**
   An ACK built from a tracker, carried as bytes, decodes to itself, and what the peer then
   marks as acknowledged are exactly the highest ranges of the tracker: as many as the frame
   carries, but never more than seventeen.
   */
  lemma AckReadsBack(rs: seq<Range>, k: nat, rest: Bytes)
    requires rs != [] && Canonical(rs) && InRange(rs) && k < |rs|
    requires |AckOf(rs, k).ackRanges| <= SCRATCH
    ensures Encodable(AckOf(rs, k))
    ensures Decode(FrameBytes(AckOf(rs, k)) + rest) == Ok((AckOf(rs, k), |FrameBytes(AckOf(rs, k))|))
    ensures Acked(AckOf(rs, k)) == Ok(Reverse(rs[|rs| - 1 - Min(k, MAX_PAIRS)..]))
  {
    hide Encodable, Typed, Decode, FrameBytes, VarintBytes, Canonical, InRange, Pairs, PairsBytes, ExpandBelow, AckPairs, CountPairs;
    var ps := Pairs(rs)[..k];
    var m := Min(k, MAX_PAIRS);
    TopInRange(rs);
    PlainAck(rs[|rs| - 1], PairsBytes(ps));
    PairsCounted(ps);
    RoundTrip(AckOf(rs, k), rest);
    assert ps[..m] == Pairs(rs)[..m];
    ExpandsBack(rs, m);
  }

  /** Only packets really received are acknowledged: the acknowledged ranges are ranges of the tracker. */
  lemma AckSound(ts: seq<Tracker>, pns: seq<nat>, k: nat, p: nat)
    requires History(ts, pns) && InRange(ts[|pns|].ranges)
    requires Canonical(ts[|pns|].ranges) && k < |ts[|pns|].ranges|
    requires |AckOf(ts[|pns|].ranges, k).ackRanges| <= SCRATCH
    ensures var a := Acked(AckOf(ts[|pns|].ranges, k));
            a.Ok? && (Covers(a.value, p) ==> p in pns)
  {
    hide AckPairs, Pairs, PairsBytes, Canonical, InRange, Recorded, Covers, Encodable, Decode;
    var rs := ts[|pns|].ranges;
    assert Tracks(ts[|pns|], pns) by { TracksHistory(ts, pns); }
    assert Acked(AckOf(rs, k)) == Ok(Reverse(rs[|rs| - 1 - Min(k, MAX_PAIRS)..])) by { AckReadsBack(rs, k, []); }
    CoversReverse(rs, |rs| - 1 - Min(k, MAX_PAIRS), p);
  }

  lemma CoversReverse(rs: seq<Range>, i: nat, p: nat)
    requires i <= |rs|
    ensures Covers(Reverse(rs[i..]), p) ==> Covers(rs, p)
  {
    var up := rs[i..];
    if Covers(Reverse(up), p) {
      var j :| 0 <= j < |up| && Reverse(up)[j].lo <= p <= Reverse(up)[j].hi;
      assert rs[i + (|up| - 1 - j)] == Reverse(up)[j];
    }
  }

  /** Every gap and range short enough for a four-byte varint. */
  predicate Short(ps: seq<Pair>) { forall i :: 0 <= i < |ps| ==> ps[i].0 < 0x4000_0000 && ps[i].1 < 0x4000_0000 }

  /** At most 31 short pairs take at most 248 bytes, so all of them fit and none dangles. */
  lemma {:induction false} ShortFits(ps: seq<Pair>, room: nat)
    requires Encodables(ps) && Short(ps) && 8 * |ps| <= room
    ensures Fitting(ps, room) == |ps| && !Dangling(ps, room)
    decreases |ps|
  {
    if ps != [] {
      assert |PairBytes(ps[0])| <= 8;
      ShortFits(ps[1..], room - |PairBytes(ps[0])|);
    }
  }

  /**
   When every gap and range is below 2^30 the frame carries the whole tracked set, and the
   peer acknowledges exactly that set if and only if there are at most seventeen ranges.
   */
  lemma AckExact(rs: seq<Range>)
    requires rs != [] && Canonical(rs) && InRange(rs) && |rs| <= MAX_RANGES && Short(Pairs(rs))
    ensures Fitting(Pairs(rs), SCRATCH) == |rs| - 1 && !Dangling(Pairs(rs), SCRATCH)
    ensures |PairsBytes(Pairs(rs))| <= SCRATCH && Pairs(rs)[..|rs| - 1] == Pairs(rs)
    ensures AckPairs(AckOf(rs, |rs| - 1).ackRanges) == Ok(Pairs(rs))
    ensures [rs[|rs| - 1]] + ExpandBelow(rs[|rs| - 1].lo, Pairs(rs)) == Reverse(rs)
    ensures Acked(AckOf(rs, |rs| - 1)) == Ok(Reverse(rs)) <==> |rs| <= MAX_PAIRS + 1
  {
    hide VarintBytes, Canonical, InRange, Pairs, PairsBytes, Fitting, Dangling, AckPairs, ExpandBelow, Acked;
    var ps, n := Pairs(rs), |rs|;
    ShortFits(ps, SCRATCH);
    FitBound(ps, SCRATCH);
    assert ps[..n - 1] == ps;
    PairsCounted(ps);
    ExpandsBack(rs, n - 1);
    assert rs[0..] == rs;
    AckReadsBack(rs, n - 1, []);
    assert |Reverse(rs[n - 1 - Min(n - 1, MAX_PAIRS)..])| == 1 + Min(n - 1, MAX_PAIRS);
  }

  /** Eighteen packets received with gaps between them: the ACK announces all, the peer misses the lowest. */
  lemma EighteenRanges()
    ensures var rs := seq(18, i requires 0 <= i < 18 => Range(2 * i, 2 * i));
            && Canonical(rs) && InRange(rs) && Short(Pairs(rs))
            && AckPairs(AckOf(rs, 17).ackRanges) == Ok(Pairs(rs))
            && Acked(AckOf(rs, 17)) == Ok(Reverse(rs[1..])) && !Covers(Reverse(rs[1..]), 0)
  {
    var rs := seq(18, i requires 0 <= i < 18 => Range(2 * i, 2 * i));
    EvenPairs(rs);
    hide Pairs, Canonical, InRange, Acked, AckPairs, AckOf, Short, PairsBytes;
    AckExact(rs);
    LastReadsBack(rs);
  }

  lemma EvenPairs(rs: seq<Range>)
    requires |rs| == 18 && forall i :: 0 <= i < |rs| ==> rs[i] == Range(2 * i, 2 * i)
    ensures Canonical(rs) && InRange(rs) && Short(Pairs(rs))
  {
    forall d | 0 <= d < |Pairs(rs)| ensures Pairs(rs)[d] == (0, 0) {
      PairAt(rs, d);
    }
  }

  lemma LastReadsBack(rs: seq<Range>)
    requires |rs| == 18 && Canonical(rs) && InRange(rs) && |PairsBytes(Pairs(rs))| <= SCRATCH && Pairs(rs)[..17] == Pairs(rs)
    ensures Acked(AckOf(rs, 17)) == Ok(Reverse(rs[1..]))
  {
    hide Pairs, Canonical, InRange, Acked, PairsBytes;
    AckReadsBack(rs, 17, []);
  }
}
