/**
 The tracker of received packet numbers: at most 32 inclusive ranges and a floor below
 which everything counts as received (section 12.3 of RFC 9000).
 */
module PnTracker {
  import opened Bytes

  const MAX_RANGES: nat := 32

  datatype Range = Range(lo: nat, hi: nat)

  datatype Tracker = Tracker(ranges: seq<Range>, floor: Option<nat>)

  /** Ascending, disjoint and with at least one number missing between neighbours. */
  predicate Canonical(rs: seq<Range>) {
    && (forall i :: 0 <= i < |rs| ==> rs[i].lo <= rs[i].hi)
    && (forall i, j :: 0 <= i < j < |rs| ==> rs[i].hi + 1 < rs[j].lo)
  }

  predicate Covers(rs: seq<Range>, pn: int) {
    exists i :: 0 <= i < |rs| && rs[i].lo <= pn <= rs[i].hi
  }

  predicate AtOrBelow(floor: Option<nat>, pn: int) { floor.Some? && pn <= floor.value }

  /** `RecvPnTracker::contains`. */
  predicate Contains(t: Tracker, pn: int) { AtOrBelow(t.floor, pn) || Covers(t.ranges, pn) }

  /** `RecvPnTracker::largest`. */
  function Largest(t: Tracker): Option<nat> {
    if t.ranges == [] then None else Some(t.ranges[|t.ranges| - 1].hi)
  }

  function Empty(): Tracker { Tracker([], None) }

  predicate Valid(t: Tracker) { Canonical(t.ranges) && |t.ranges| <= MAX_RANGES }

  /** `pn` extends some range by one. */
  predicate Touches(rs: seq<Range>, pn: nat) {
    exists i :: 0 <= i < |rs| && (pn == rs[i].hi + 1 || pn + 1 == rs[i].lo)
  }

  /**
   What recording `pn` means, as sets. A number not yet counted as received joins the set;
   when it needs a 33rd range the lowest range leaves it and raises the floor to its end.
   */
  ghost predicate Recorded(t: Tracker, pn: nat, t': Tracker) {
    && Valid(t')
    && if Contains(t, pn) then t' == t
       else if |t.ranges| < MAX_RANGES || Touches(t.ranges, pn) then
         && t'.floor == t.floor
         && (forall p :: Covers(t'.ranges, p) <==> Covers(t.ranges, p) || p == pn)
       else
         var end := t.ranges[0].hi;
         && t'.floor == Some(if t.floor.Some? then Max(t.floor.value, end) else end)
         && (forall p :: Covers(t'.ranges, p) <==> (Covers(t.ranges, p) && p > end) || p == pn)
  }

  /** `pn` lies strictly clear of every range. */
  predicate Apart(rs: seq<Range>, r: Range) {
    forall i :: 0 <= i < |rs| ==> rs[i].hi + 1 < r.lo || r.hi + 1 < rs[i].lo
  }

  class RecvPnTracker {
    var ranges: seq<Range>
    var floor: Option<nat>

    function Value(): Tracker
      reads this
    {
      Tracker(ranges, floor)
    }

    constructor ()
      ensures Value() == Empty()
    {
      ranges, floor := [], None;
    }

    /** Insert a range that is clear of all others, keeping the order. */
    method InsertRange(lo: nat, hi: nat)
      requires lo <= hi && Canonical(ranges) && Apart(ranges, Range(lo, hi)) && |ranges| < MAX_RANGES
      modifies this`ranges
      ensures Valid(Value())
      ensures forall p :: Covers(ranges, p) <==> Covers(old(ranges), p) || lo <= p <= hi
    {
      var pos := 0;
      while pos < |ranges| && ranges[pos].lo <= lo
        invariant 0 <= pos <= |ranges|
        invariant forall i :: 0 <= i < pos ==> ranges[i].lo <= lo
      {
        pos := pos + 1;
      }
      Inserted(ranges, pos, Range(lo, hi));
      ranges := ranges[..pos] + [Range(lo, hi)] + ranges[pos..];
    }

    /** One pass over the ranges: is `pn` in one, does it follow one, does it precede one? */
    method Scan(pn: nat) returns (seen: bool, left: Option<nat>, right: Option<nat>)
      ensures seen <==> Covers(ranges, pn)
      ensures !seen && left.Some? ==> left.value < |ranges| && pn == ranges[left.value].hi + 1
      ensures !seen && right.Some? ==> right.value < |ranges| && pn + 1 == ranges[right.value].lo
      ensures !seen && left.None? ==> forall k :: 0 <= k < |ranges| ==> pn != ranges[k].hi + 1
      ensures !seen && right.None? ==> forall k :: 0 <= k < |ranges| ==> pn + 1 != ranges[k].lo
    {
      left, right := None, None;
      for i := 0 to |ranges|
        invariant forall k :: 0 <= k < i ==> !(ranges[k].lo <= pn <= ranges[k].hi)
        invariant left.Some? ==> left.value < i && pn == ranges[left.value].hi + 1
        invariant right.Some? ==> right.value < i && pn + 1 == ranges[right.value].lo
        invariant left.None? ==> forall k :: 0 <= k < i ==> pn != ranges[k].hi + 1
        invariant right.None? ==> forall k :: 0 <= k < i ==> pn + 1 != ranges[k].lo
      {
        if ranges[i].lo <= pn <= ranges[i].hi {
          return true, left, right;
        }
        if pn == ranges[i].hi + 1 {
          left := Some(i);
        }
        if pn + 1 == ranges[i].lo {
          right := Some(i);
        }
      }
      return false, left, right;
    }

    /** `pn` fills the gap between the ranges at `li` and `ri`: take both out and put their union back. */
    method Bridge(pn: nat, li: nat, ri: nat)
      requires Valid(Value()) && !Covers(ranges, pn) && li < |ranges| && ri < |ranges|
      requires pn == ranges[li].hi + 1 && pn + 1 == ranges[ri].lo
      modifies this`ranges
      ensures Valid(Value())
      ensures forall p :: Covers(ranges, p) <==> Covers(old(ranges), p) || p == pn
    {
      hide Covers;
      Neighbours(ranges, li, ri, pn);
      Bridged(ranges, pn, li);
      var lo, hi := ranges[li].lo, ranges[ri].hi;
      var (first, second) := if li < ri then (ri, li) else (li, ri);
      var kept := ranges[..li] + ranges[li + 2..];
      ranges := ranges[..first] + ranges[first + 1..];
      ranges := ranges[..second] + ranges[second + 1..];
      assert ranges == kept;
      InsertRange(lo, hi);
    }

    method Record(pn: nat)
      requires Valid(Value())
      modifies this
      ensures Recorded(old(Value()), pn, Value())
    {
      if floor.Some? && pn <= floor.value {
        return;
      }
      var seen, mergeLeft, mergeRight := Scan(pn);
      if seen {
        return;
      }
      hide Covers, Canonical, Apart;
      if mergeLeft.None? && mergeRight.None? {
        assert !Touches(ranges, pn);
        ClearOf(ranges, pn);
        hide Touches;
        AddAlone(pn);
      } else {
        assert Touches(ranges, pn);
        Join(pn, mergeLeft, mergeRight);
      }
    }

    /** `pn` extends the range at `left` upwards, the one at `right` downwards, or closes the gap between them. */
    method Join(pn: nat, left: Option<nat>, right: Option<nat>)
      requires Valid(Value()) && !Covers(ranges, pn) && (left.Some? || right.Some?)
      requires left.Some? ==> left.value < |ranges| && pn == ranges[left.value].hi + 1
      requires right.Some? ==> right.value < |ranges| && pn + 1 == ranges[right.value].lo
      requires left.None? ==> forall i :: 0 <= i < |ranges| ==> pn != ranges[i].hi + 1
      requires right.None? ==> forall i :: 0 <= i < |ranges| ==> pn + 1 != ranges[i].lo
      modifies this`ranges
      ensures Valid(Value())
      ensures forall p :: Covers(ranges, p) <==> Covers(old(ranges), p) || p == pn
    {
      hide Covers, Canonical;
      match (left, right)
      case (Some(li), Some(ri)) =>
        Bridge(pn, li, ri);
      case (Some(li), None) =>
        Extended(ranges, pn, li, Range(ranges[li].lo, pn));
        ranges := ranges[li := Range(ranges[li].lo, pn)];
      case (None, Some(ri)) =>
        Extended(ranges, pn, ri, Range(pn, ranges[ri].hi));
        ranges := ranges[ri := Range(pn, ranges[ri].hi)];
    }

    /** A number next to no range becomes one of its own; a full tracker first gives up its lowest range. */
    method AddAlone(pn: nat)
      requires Valid(Value()) && Apart(ranges, Range(pn, pn))
      modifies this
      ensures Valid(Value())
      ensures old(|ranges|) < MAX_RANGES ==>
                && floor == old(floor)
                && forall p :: Covers(ranges, p) <==> Covers(old(ranges), p) || p == pn
      ensures old(|ranges|) == MAX_RANGES ==>
                var end := old(ranges)[0].hi;
                && floor == Some(if old(floor).Some? then Max(old(floor).value, end) else end)
                && forall p :: Covers(ranges, p) <==> (Covers(old(ranges), p) && p > end) || p == pn
    {
      hide Covers;
      if |ranges| >= MAX_RANGES {
        var dropped := ranges[0];
        LowestDropped(ranges);
        ranges := ranges[1..];
        floor := Some(if floor.Some? then Max(floor.value, dropped.hi) else dropped.hi);
      }
      InsertRange(pn, pn);
    }
  }

  lemma ClearOf(rs: seq<Range>, pn: nat)
    requires !Covers(rs, pn) && !Touches(rs, pn)
    ensures Apart(rs, Range(pn, pn))
  {
    forall i | 0 <= i < |rs| ensures rs[i].hi + 1 < pn || pn + 1 < rs[i].lo {
      assert !(rs[i].lo <= pn <= rs[i].hi);
    }
  }

  lemma Inserted(rs: seq<Range>, pos: nat, r: Range)
    requires r.lo <= r.hi && Canonical(rs) && Apart(rs, r) && pos <= |rs|
    requires forall i :: 0 <= i < pos ==> rs[i].lo <= r.lo
    requires pos < |rs| ==> r.lo < rs[pos].lo
    ensures var s := rs[..pos] + [r] + rs[pos..];
            && Canonical(s)
            && forall p :: Covers(s, p) <==> Covers(rs, p) || r.lo <= p <= r.hi
  {
    var s := rs[..pos] + [r] + rs[pos..];
    forall p ensures Covers(s, p) <==> Covers(rs, p) || r.lo <= p <= r.hi {
      hide Canonical, Apart;
      CoversSplit(rs, pos, p);
      CoversSplit(s, pos, p);
      CoversSplit(s[pos..], 1, p);
      assert s[..pos] == rs[..pos] && s[pos..][..1] == [r] && s[pos..][1..] == rs[pos..];
      assert Covers([r], p) <==> r.lo <= p <= r.hi by { assert [r][0] == r; }
    }
  }

  lemma LowestDropped(rs: seq<Range>)
    requires Canonical(rs) && rs != []
    ensures Canonical(rs[1..])
    ensures forall p :: Covers(rs[1..], p) <==> Covers(rs, p) && p > rs[0].hi
  {
    forall p ensures Covers(rs[1..], p) <==> Covers(rs, p) && p > rs[0].hi {
      if Covers(rs[1..], p) {
        var i :| 0 <= i < |rs| - 1 && rs[1..][i].lo <= p <= rs[1..][i].hi;
        assert rs[i + 1].lo <= p <= rs[i + 1].hi && rs[0].hi < rs[i + 1].lo;
      }
      if Covers(rs, p) && p > rs[0].hi {
        var i :| 0 <= i < |rs| && rs[i].lo <= p <= rs[i].hi;
        assert rs[1..][i - 1] == rs[i];
      }
    }
  }

  /** Growing one range by the single number next to it. */
  lemma Extended(rs: seq<Range>, pn: nat, k: nat, r: Range)
    requires Canonical(rs) && !Covers(rs, pn) && k < |rs|
    requires || (r == Range(rs[k].lo, pn) && pn == rs[k].hi + 1 && forall i :: 0 <= i < |rs| ==> pn + 1 != rs[i].lo)
             || (r == Range(pn, rs[k].hi) && pn + 1 == rs[k].lo && forall i :: 0 <= i < |rs| ==> pn != rs[i].hi + 1)
    ensures Canonical(rs[k := r])
    ensures forall p :: Covers(rs[k := r], p) <==> Covers(rs, p) || p == pn
  {
    var s := rs[k := r];
    forall i, j | 0 <= i < j < |s| ensures s[i].hi + 1 < s[j].lo {
      assert rs[i].hi + 1 < rs[j].lo;
      assert !(rs[i].lo <= pn <= rs[i].hi) && !(rs[j].lo <= pn <= rs[j].hi);
    }
    forall p ensures Covers(s, p) <==> Covers(rs, p) || p == pn {
      if Covers(rs, p) {
        var i :| 0 <= i < |rs| && rs[i].lo <= p <= rs[i].hi;
        assert s[i].lo <= p <= s[i].hi;
      }
      if p == pn { assert s[k].lo <= p <= s[k].hi; }
    }
  }

  /** A number that follows one range and precedes another has no range between them. */
  lemma Neighbours(rs: seq<Range>, li: nat, ri: nat, pn: nat)
    requires Canonical(rs) && li < |rs| && ri < |rs|
    requires pn == rs[li].hi + 1 && pn + 1 == rs[ri].lo
    ensures ri == li + 1
  {
    if li < ri {
      Separated(rs, li, ri);
    } else if ri < li {
      Separated(rs, ri, li);
    }
  }

  lemma Separated(rs: seq<Range>, i: nat, j: nat)
    requires Canonical(rs) && i < j < |rs|
    ensures rs[i].hi + 1 < rs[j].lo && (i + 1 < j ==> rs[i].hi + 3 < rs[j].lo)
  {
    if i + 1 < j { assert rs[i].hi + 1 < rs[i + 1].lo && rs[i + 1].hi + 1 < rs[j].lo; }
  }

  /** Without the two ranges that `pn` joins, what is left is clear of their union. */
  lemma Bridged(rs: seq<Range>, pn: nat, li: nat)
    requires Canonical(rs) && li + 1 < |rs|
    requires pn == rs[li].hi + 1 && pn + 1 == rs[li + 1].lo
    ensures var u := rs[..li] + rs[li + 2..];
            && Canonical(u) && Apart(u, Range(rs[li].lo, rs[li + 1].hi))
            && forall p :: Covers(rs, p) || p == pn <==> Covers(u, p) || rs[li].lo <= p <= rs[li + 1].hi
  {
    forall p ensures Covers(rs, p) || p == pn <==>
                       Covers(rs[..li] + rs[li + 2..], p) || rs[li].lo <= p <= rs[li + 1].hi {
      CoversSplit(rs, li, p);
      CoversSplit(rs, li + 2, p);
      CoversSplit(rs[..li + 2], li, p);
      CoversSplit(rs[..li] + rs[li + 2..], li, p);
      assert rs[..li + 2][..li] == rs[..li];
      assert rs[..li + 2][li..] == [rs[li], rs[li + 1]];
      assert (rs[..li] + rs[li + 2..])[..li] == rs[..li] && (rs[..li] + rs[li + 2..])[li..] == rs[li + 2..];
      CoversTwo(rs[li], rs[li + 1], p);
    }
  }

  lemma CoversSplit(rs: seq<Range>, k: nat, p: int)
    requires k <= |rs|
    ensures Covers(rs, p) <==> Covers(rs[..k], p) || Covers(rs[k..], p)
  {
    if Covers(rs, p) {
      var i :| 0 <= i < |rs| && rs[i].lo <= p <= rs[i].hi;
      if i < k { assert rs[..k][i] == rs[i]; } else { assert rs[k..][i - k] == rs[i]; }
    }
  }

  lemma CoversTwo(a: Range, b: Range, p: int)
    ensures Covers([a, b], p) <==> a.lo <= p <= a.hi || b.lo <= p <= b.hi
  {
    assert [a, b][0] == a && [a, b][1] == b;
  }

  // --------------------------------------------------------------------------------
  // Every history
  // --------------------------------------------------------------------------------

  /** `ts` are the states a tracker goes through while `pns` are recorded in order. */
  ghost predicate History(ts: seq<Tracker>, pns: seq<nat>) {
    && |ts| == |pns| + 1
    && ts[0] == Empty()
    && forall i :: 0 <= i < |pns| ==> Recorded(ts[i], pns[i], ts[i + 1])
  }

  /** The tracker against the plain list of numbers it was given. */
  ghost predicate Tracks(t: Tracker, pns: seq<nat>) {
    && Valid(t)
    && (forall p :: Covers(t.ranges, p) ==> p in pns)
    && (forall p :: p in pns ==> Contains(t, p))
    && (t.floor.Some? ==> t.floor.value in pns)
    && (pns == [] ==> t == Empty())
    && (pns != [] ==> Largest(t).Some? && Largest(t).value in pns && forall p :: p in pns ==> p <= Largest(t).value)
    && (t.floor.Some? ==> t.floor.value < Largest(t).value)
  }

  lemma LargestIsTop(rs: seq<Range>, p: nat)
    requires Canonical(rs) && Covers(rs, p)
    ensures rs != [] && p <= rs[|rs| - 1].hi && Covers(rs, rs[|rs| - 1].hi)
  {
    var i :| 0 <= i < |rs| && rs[i].lo <= p <= rs[i].hi;
    if i < |rs| - 1 { assert rs[i].hi + 1 < rs[|rs| - 1].lo; }
    assert rs[|rs| - 1].lo <= rs[|rs| - 1].hi;
  }

  lemma TracksStep(t: Tracker, pns: seq<nat>, pn: nat, t': Tracker)
    requires Tracks(t, pns) && Recorded(t, pn, t')
    ensures Tracks(t', pns + [pn])
  {
    hide Covers;
    if Contains(t, pn) {
      if !AtOrBelow(t.floor, pn) {
        LargestIsTop(t.ranges, pn);
      }
    } else {
      LargestIsTop(t'.ranges, pn);
      if pns != [] {
        TopStays(t, pn, t');
      }
    }
  }

  /** Recording never loses the largest number, and a number that leaves the ranges stays below it. */
  lemma TopStays(t: Tracker, pn: nat, t': Tracker)
    requires Valid(t) && Recorded(t, pn, t') && !Contains(t, pn) && t.ranges != []
    ensures Covers(t'.ranges, Largest(t).value)
    ensures |t.ranges| == MAX_RANGES ==> t.ranges[0].hi < Largest(t).value && Covers(t.ranges, t.ranges[0].hi)
    ensures t'.ranges != [] && Largest(t).value <= Largest(t').value
  {
    var n := |t.ranges| - 1;
    assert t.ranges[n].lo <= t.ranges[n].hi;
    assert t.ranges[0].lo <= t.ranges[0].hi;
    assert Covers(t.ranges, Largest(t).value);
    if 0 < n { assert t.ranges[0].hi + 1 < t.ranges[n].lo; }
    LargestIsTop(t'.ranges, Largest(t).value);
  }

  /** After any history the tracker is exact above its floor, forgets nothing, and knows the maximum. */
  lemma {:induction false} TracksHistory(ts: seq<Tracker>, pns: seq<nat>)
    requires History(ts, pns)
    ensures Tracks(ts[|pns|], pns)
    decreases |pns|
  {
    hide Tracks, Recorded;
    if pns == [] {
      EmptyTracks();
    } else {
      var n := |pns| - 1;
      assert History(ts[..n + 1], pns[..n]);
      TracksHistory(ts[..n + 1], pns[..n]);
      TracksStep(ts[n], pns[..n], pns[n], ts[n + 1]);
      assert pns == pns[..n] + [pns[n]];
    }
  }

  /** Above the floor `contains` is membership; below it everything counts as received. */
  lemma ContainsExactly(ts: seq<Tracker>, pns: seq<nat>, p: nat)
    requires History(ts, pns)
    ensures Contains(ts[|pns|], p) <==> p in pns || AtOrBelow(ts[|pns|].floor, p)
    ensures Largest(ts[|pns|]).Some? <==> pns != []
    ensures pns != [] ==> var m := Largest(ts[|pns|]).value; m in pns && (p in pns ==> p <= m)
  {
    TracksHistory(ts, pns);
  }

  lemma ContainsStep(t: Tracker, pn: nat, t': Tracker, p: nat)
    requires Valid(t) && Recorded(t, pn, t')
    ensures Contains(t, p) || p == pn ==> Contains(t', p)
  {
  }

  /** Once contained, always contained. */
  lemma {:induction false} ContainsForever(ts: seq<Tracker>, pns: seq<nat>, i: nat, j: nat, p: nat)
    requires History(ts, pns) && i <= j <= |pns|
    ensures Contains(ts[i], p) ==> Contains(ts[j], p)
    decreases j
  {
    if i < j {
      ContainsForever(ts, pns, i, j - 1, p);
      assert Valid(ts[j - 1]) by {
        if j - 1 > 0 { assert Recorded(ts[j - 2], pns[j - 2], ts[j - 1]); }
      }
      ContainsStep(ts[j - 1], pns[j - 1], ts[j], p);
    }
  }

  /** The highest numbers of the ranges. */
  function Tops(rs: seq<Range>): (t: set<nat>)
    ensures forall x :: x in t ==> exists i :: 0 <= i < |rs| && rs[i].hi == x
  {
    if rs == [] then {} else Tops(rs[..|rs| - 1]) + {rs[|rs| - 1].hi}
  }

  lemma TopsBelow(rs: seq<Range>, x: nat)
    requires Canonical(rs) && rs != [] && x in Tops(rs[..|rs| - 1])
    ensures x < rs[|rs| - 1].hi
  {
    var n := |rs| - 1;
    var i :| 0 <= i < n && rs[..n][i].hi == x;
    assert rs[i].hi + 1 < rs[n].lo;
  }

  lemma {:induction false} TopsDistinct(rs: seq<Range>)
    requires Canonical(rs)
    ensures |Tops(rs)| == |rs|
    decreases |rs|
  {
    if rs != [] {
      var n := |rs| - 1;
      assert Canonical(rs[..n]);
      hide Canonical;
      TopsDistinct(rs[..n]);
      if rs[n].hi in Tops(rs[..n]) {
        TopsBelow(rs, rs[n].hi);
      }
    }
  }

  lemma {:induction false} SubsetSize(a: set<nat>, b: set<nat>)
    requires a <= b
    ensures |a| <= |b|
    decreases |a|
  {
    if a != {} {
      var x :| x in a;
      SubsetSize(a - {x}, b - {x});
    }
  }

  /** The numbers as a set. */
  function Listed(pns: seq<nat>): (t: set<nat>)
    ensures |t| <= |pns| && forall p :: p in pns ==> p in t
  {
    if pns == [] then {} else Listed(pns[..|pns| - 1]) + {pns[|pns| - 1]}
  }

  /** There are no more ranges than numbers recorded. */
  lemma RangesCounted(t: Tracker, pns: seq<nat>)
    requires Tracks(t, pns)
    ensures |t.ranges| <= |pns|
  {
    forall x | x in Tops(t.ranges) ensures x in Listed(pns) {
      var i :| 0 <= i < |t.ranges| && t.ranges[i].hi == x;
      assert t.ranges[i].lo <= x;
      assert Covers(t.ranges, x);
    }
    TopsDistinct(t.ranges);
    SubsetSize(Tops(t.ranges), Listed(pns));
  }

  /** Nothing is forgotten in the first 32 numbers, whatever they are: the ranges hold exactly the numbers recorded. */
  lemma {:induction false} NothingForgotten(ts: seq<Tracker>, pns: seq<nat>)
    requires History(ts, pns) && |pns| <= 32
    ensures ts[|pns|].floor.None? && forall p :: Covers(ts[|pns|].ranges, p) <==> p in pns
    decreases |pns|
  {
    hide Covers;
    TracksHistory(ts, pns);
    if pns != [] {
      var n := |pns| - 1;
      assert History(ts[..n + 1], pns[..n]);
      NothingForgotten(ts[..n + 1], pns[..n]);
      TracksHistory(ts[..n + 1], pns[..n]);
      RangesCounted(ts[n], pns[..n]);
      assert Recorded(ts[n], pns[n], ts[n + 1]);
    }
  }

  // --------------------------------------------------------------------------------
  // One packet-number space receiving packets
  // --------------------------------------------------------------------------------

  /** A packet that authenticated, and whether its frames are dispatched without error when they are. */
  datatype Arrival = Arrival(pn: nat, ok: bool)

  predicate Dispatches(t: Tracker, a: Arrival) { !Contains(t, a.pn) }

  /** A duplicate is recorded again, to no effect; a packet whose dispatch fails is not recorded. */
  ghost predicate Received(t: Tracker, a: Arrival, t': Tracker) {
    if Dispatches(t, a) && !a.ok then t' == t else Recorded(t, a.pn, t')
  }

  ghost predicate Reception(ts: seq<Tracker>, arrivals: seq<Arrival>) {
    && |ts| == |arrivals| + 1
    && ts[0] == Empty()
    && forall i :: 0 <= i < |arrivals| ==> Received(ts[i], arrivals[i], ts[i + 1])
  }

  /** Successfully dispatched numbers up to time `n`. */
  function Done(ts: seq<Tracker>, arrivals: seq<Arrival>, n: nat): seq<nat>
    requires n <= |arrivals| < |ts|
  {
    if n == 0 then []
    else
      var a := arrivals[n - 1];
      Done(ts, arrivals, n - 1) + if Dispatches(ts[n - 1], a) && a.ok then [a.pn] else []
  }

  lemma ReceivedTracks(t: Tracker, done: seq<nat>, a: Arrival, t': Tracker)
    requires Tracks(t, done) && Received(t, a, t')
    ensures Tracks(t', if Dispatches(t, a) && a.ok then done + [a.pn] else done)
  {
    hide Tracks;
    if Dispatches(t, a) && a.ok {
      TracksStep(t, done, a.pn, t');
    }
  }

  lemma {:induction false} ReceptionTracks(ts: seq<Tracker>, arrivals: seq<Arrival>, n: nat)
    requires Reception(ts, arrivals) && n <= |arrivals|
    ensures Tracks(ts[n], Done(ts, arrivals, n))
  {
    hide Tracks, Received, Dispatches;
    if n == 0 {
      EmptyTracks();
    } else {
      ReceptionTracks(ts, arrivals, n - 1);
      ReceivedTracks(ts[n - 1], Done(ts, arrivals, n - 1), arrivals[n - 1], ts[n]);
      DoneNext(ts, arrivals, n);
    }
  }

  lemma EmptyTracks()
    ensures Tracks(Empty(), [])
  {
  }

  lemma DoneNext(ts: seq<Tracker>, arrivals: seq<Arrival>, n: nat)
    requires |ts| == |arrivals| + 1 && 0 < n <= |arrivals|
    ensures Done(ts, arrivals, n) ==
            var a, done := arrivals[n - 1], Done(ts, arrivals, n - 1);
            if Dispatches(ts[n - 1], a) && a.ok then done + [a.pn] else done
  {
    hide Dispatches;
  }

  lemma {:induction false} DoneHas(ts: seq<Tracker>, arrivals: seq<Arrival>, i: nat, n: nat)
    requires Reception(ts, arrivals) && i < n <= |arrivals|
    requires Dispatches(ts[i], arrivals[i]) && arrivals[i].ok
    ensures arrivals[i].pn in Done(ts, arrivals, n)
    decreases n
  {
    if i < n - 1 { DoneHas(ts, arrivals, i, n - 1); }
  }

  /** A number whose frames were once dispatched without error is never dispatched again. */
  lemma DispatchedOnce(ts: seq<Tracker>, arrivals: seq<Arrival>, i: nat, j: nat)
    requires Reception(ts, arrivals) && i < j < |arrivals|
    requires Dispatches(ts[i], arrivals[i]) && arrivals[i].ok
    requires arrivals[j].pn == arrivals[i].pn
    ensures !Dispatches(ts[j], arrivals[j])
  {
    ReceptionTracks(ts, arrivals, j);
    DoneHas(ts, arrivals, i, j);
  }

  /** Above the floor, a packet is dispatched exactly when its number has not been done yet. */
  lemma DispatchedExactly(ts: seq<Tracker>, arrivals: seq<Arrival>, n: nat)
    requires Reception(ts, arrivals) && n < |arrivals|
    requires !AtOrBelow(ts[n].floor, arrivals[n].pn)
    ensures Dispatches(ts[n], arrivals[n]) <==> arrivals[n].pn !in Done(ts, arrivals, n)
  {
    ReceptionTracks(ts, arrivals, n);
  }
}
