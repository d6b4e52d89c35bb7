/**
 The bounded byte buffer with its two storages, a growable heap vector and a fixed slice,
 both refining one pair of sequences: what is visible and the hidden tail behind it.
 */
module BufModel {
  import opened Bytes

  datatype View = View(visible: Bytes, hidden: Bytes)

  datatype Op =
    | Extend(data: Bytes)
    | Push(b: Byte)
    | Truncate(len: nat)
    | DrainFront(n: nat)
    | HideTail(n: nat)
    | UnhideTail
    | Clear
    | ShrinkTo(min: nat, granted: bool)

  /** What the source asserts of its callers. */
  predicate Allowed(v: View, op: Op) {
    match op
    case HideTail(n) => n <= |v.visible|
    case DrainFront(n) => n <= |v.visible|
    case _ => true
  }

  function Append(v: View, data: Bytes, max: nat): (View, bool) {
    if |v.visible| + |v.hidden| + |data| > max then (v, false) else (v.(visible := v.visible + data), true)
  }

  /** One operation on the pair, and whether it was accepted, under the bound `max`. */
  function Apply(v: View, op: Op, max: nat): (View, bool)
    requires Allowed(v, op)
  {
    match op
    case Extend(data) => Append(v, data, max)
    case Push(b) => Append(v, [b], max)
    case Truncate(len) => (if len >= |v.visible| then v else v.(visible := v.visible[..len]), true)
    case DrainFront(n) => (v.(visible := v.visible[n..]), true)
    case HideTail(n) => var k := |v.visible| - n; (View(v.visible[..k], v.visible[k..] + v.hidden), true)
    case UnhideTail => (View(v.visible + v.hidden, []), true)
    case Clear => (View([], []), true)
    case ShrinkTo(_, _) => (v, true)
  }

  /** A heap vector with its allocation, or a caller's slice with a logical length. */
  datatype Storage = Heap(v: Bytes, capacity: nat) | Static(mem: array<Byte>, len: nat)

  class Buf {
    const max: nat
    var storage: Storage
    var hidden: nat

    ghost predicate Valid()
      reads this
    {
      && hidden <= PhysLen() <= max
      && (storage.Heap? ==> PhysLen() <= storage.capacity)
      && (storage.Static? ==> max <= storage.mem.Length)
    }

    ghost function Repr(): set<object>
      reads this
    {
      if storage.Static? then {storage.mem} else {}
    }

    function PhysLen(): nat
      reads this
    {
      match storage
      case Heap(v, _) => |v|
      case Static(_, len) => len
    }

    function Len(): (n: nat)
      reads this
      requires Valid()
    {
      PhysLen() - hidden
    }

    ghost function Physical(): (s: Bytes)
      reads this, Repr()
      requires Valid()
      ensures |s| == PhysLen()
    {
      match storage
      case Heap(v, _) => v
      case Static(mem, len) => mem[..len]
    }

    /** The abstract value. */
    ghost function Contents(): (v: View)
      reads this, Repr()
      requires Valid()
      ensures |v.visible| == Len() && |v.hidden| == hidden
    {
      View(Physical()[..Len()], Physical()[Len()..])
    }

    function Allocated(): nat
      reads this
    {
      match storage
      case Heap(_, capacity) => capacity
      case Static(mem, _) => mem.Length
    }

    /** `new`: empty, on the heap, nothing allocated. */
    constructor OnHeap(max: nat)
      ensures Valid() && storage.Heap? && Contents() == View([], []) && this.max == max && Allocated() == 0
    {
      this.max := max;
      storage := Heap([], 0);
      hidden := 0;
    }

    /** `from_static`: empty, over a slice of at least `max` bytes. */
    constructor FromStatic(max: nat, mem: array<Byte>)
      requires max <= mem.Length
      ensures Valid() && storage.Static? && storage.mem == mem && Contents() == View([], []) && this.max == max
    {
      this.max := max;
      storage := Static(mem, 0);
      hidden := 0;
    }

    /** `extend_from_slice`: the bytes go before the hidden tail. */
    method ExtendFromSlice(data: Bytes) returns (ok: bool)
      requires Valid()
      modifies this, Repr()
      ensures Valid() && Repr() == old(Repr()) && Allocated() <= Max(old(Allocated()), max)
      ensures (Contents(), ok) == Append(old(Contents()), data, max)
    {
      if storage.Heap? {
        ok := ExtendHeap(data);
      } else {
        ok := ExtendStatic(data);
      }
    }

    method ExtendHeap(data: Bytes) returns (ok: bool)
      requires Valid() && storage.Heap?
      modifies this
      ensures Valid() && storage.Heap? && Allocated() <= Max(old(Allocated()), max)
      ensures (Contents(), ok) == Append(old(Contents()), data, max)
    {
      hide RotateLeft;
      var v, capacity := storage.v, storage.capacity;
      if |v| + |data| > max {
        return false;
      }
      capacity := ReserveClamped(|v|, capacity, |data|, max);
      var grown := v + data;
      var vis := |v| - hidden;
      if hidden > 0 && data != [] {
        grown := grown[..vis] + RotateLeft(grown[vis..], hidden);
      }
      Rotated(v, data, hidden);
      ShowView(grown, vis + |data|, v[..vis] + data, v[vis..]);
      storage := Heap(grown, capacity);
      return true;
    }

    method ExtendStatic(data: Bytes) returns (ok: bool)
      requires Valid() && storage.Static?
      modifies this, storage.mem
      ensures Valid() && storage.Static? && storage.mem == old(storage.mem)
      ensures (Contents(), ok) == Append(old(Contents()), data, max)
    {
      var mem, len := storage.mem, storage.len;
      var cap := Min(max, mem.Length);
      if len + |data| > cap {
        return false;
      }
      var vis := len - hidden;
      InsertBefore(mem, vis, len, data);
      ShowView(mem[..len + |data|], vis + |data|, old(mem[..len][..vis]) + data, old(mem[..len][vis..]));
      storage := Static(mem, len + |data|);
      return true;
    }

    method PushByte(b: Byte) returns (ok: bool)
      requires Valid()
      modifies this, Repr()
      ensures Valid() && Repr() == old(Repr()) && Allocated() <= Max(old(Allocated()), max)
      ensures (Contents(), ok) == Append(old(Contents()), [b], max)
    {
      ok := ExtendFromSlice([b]);
    }

    /** `truncate`: only the visible part is cut; the hidden tail moves up to it. */
    method TruncateTo(len: nat)
      requires Valid()
      modifies this, Repr()
      ensures Valid() && Repr() == old(Repr()) && Allocated() == old(Allocated()) && hidden == old(hidden)
      ensures Contents() == Apply(old(Contents()), Truncate(len), max).0
    {
      var vis := Len();
      if len >= vis {
        return;
      }
      match storage
      case Heap(v, capacity) =>
        var moved := v;
        if hidden > 0 {
          moved := v[..len] + v[vis..vis + hidden] + v[len + hidden..];
        }
        moved := moved[..len + hidden];
        GapClosed(v, len, vis, hidden);
        ShowView(moved, len, v[..vis][..len], v[vis..]);
        storage := Heap(moved, capacity);
      case Static(mem, cur) =>
        CloseGap(mem, len, vis, hidden);
        ShowView(mem[..len + hidden], len, old(mem[..cur][..vis][..len]), old(mem[..cur][vis..]));
        storage := Static(mem, len + hidden);
    }

    /** `buf_drain_front`: shift the visible bytes down, then truncate. */
    method DrainFirst(n: nat)
      requires Valid() && n <= Len()
      modifies this, Repr()
      ensures Valid() && Repr() == old(Repr()) && Allocated() == old(Allocated())
      ensures Contents() == Apply(old(Contents()), DrainFront(n), max).0
    {
      var len := Len();
      match storage {
        case Heap(v, capacity) => storage := Heap(v[n..len] + v[len - n..], capacity);
        case Static(mem, cur) => ShiftDown(mem, n, len, cur);
      }
      assert Contents().hidden == old(Contents().hidden) && Contents().visible[..len - n] == old(Contents().visible[n..]);
      hide Contents;
      TruncateTo(len - n);
    }

    /** `hide_tail` */
    method Hide(n: nat)
      requires Valid() && n <= Len()
      modifies this
      ensures Valid() && storage == old(storage)
      ensures Contents() == Apply(old(Contents()), HideTail(n), max).0
    {
      hidden := hidden + n;
    }

    /** `unhide_tail` */
    method Unhide() returns (n: nat)
      requires Valid()
      modifies this
      ensures Valid() && storage == old(storage) && n == |old(Contents().hidden)|
      ensures Contents() == Apply(old(Contents()), UnhideTail, max).0
    {
      n := hidden;
      hidden := 0;
    }

    /** `clear` */
    method Reset()
      requires Valid()
      modifies this
      ensures Valid() && Repr() == old(Repr()) && Allocated() == old(Allocated())
      ensures Contents() == View([], [])
    {
      match storage {
        case Heap(_, capacity) => storage := Heap([], capacity);
        case Static(mem, _) => storage := Static(mem, 0);
      }
      hidden := 0;
    }

    /** `shrink_to`: give heap capacity back; `granted` is the allocator's answer to the smaller block. */
    method Shrink(min: nat, granted: bool)
      requires Valid()
      modifies this
      ensures Valid() && Repr() == old(Repr()) && Contents() == old(Contents())
      ensures Allocated() <= old(Allocated())
      ensures storage.Heap? && (granted || PhysLen() == 0) ==> Allocated() <= Max(PhysLen(), min)
    {
      if storage.Heap? {
        var v, capacity := storage.v, storage.capacity;
        if capacity <= min || (v != [] && !granted) {
          return;
        }
        storage := if v == [] then Heap([], 0) else Heap(v, Max(|v|, min));
        assert storage.v == v;
      }
    }

    /** Any one operation. */
    method Perform(op: Op) returns (ok: bool)
      requires Valid() && Allowed(Contents(), op)
      modifies this, Repr()
      ensures Valid() && Repr() == old(Repr()) && Allocated() <= Max(old(Allocated()), max)
      ensures (Contents(), ok) == Apply(old(Contents()), op, max)
    {
      ok := true;
      match op
      case Extend(data) => ok := ExtendFromSlice(data);
      case Push(b) => ok := PushByte(b);
      case Truncate(len) => TruncateTo(len);
      case DrainFront(n) => DrainFirst(n);
      case HideTail(n) => Hide(n);
      case UnhideTail => var _ := Unhide();
      case Clear => Reset();
      case ShrinkTo(min, granted) => Shrink(min, granted);
    }

    /**
     Any sequence of operations: contents and answers are those of the pair of sequences,
     whichever storage is underneath.
     */
    method Run(ops: seq<Op>) returns (oks: seq<bool>)
      requires Valid() && AllAllowed(Contents(), ops, max)
      modifies this, Repr()
      ensures Valid() && Repr() == old(Repr()) && Allocated() <= Max(old(Allocated()), max)
      ensures (Contents(), oks) == Fold(old(Contents()), ops, max)
    {
      hide Apply, Allowed, AllAllowed, Fold;
      oks := [];
      var i := 0;
      ghost var start := Contents();
      assert ops[0..] == ops;
      while i < |ops|
        invariant 0 <= i <= |ops| && Valid() && Repr() == old(Repr()) && Allocated() <= Max(old(Allocated()), max)
        invariant AllAllowed(Contents(), ops[i..], max)
        invariant Fold(start, ops, max).0 == Fold(Contents(), ops[i..], max).0
        invariant Fold(start, ops, max).1 == oks + Fold(Contents(), ops[i..], max).1
      {
        FoldNext(Contents(), ops, i, max);
        var ok := Perform(ops[i]);
        oks := oks + [ok];
        i := i + 1;
      }
      FoldEnd(Contents(), ops, max);
    }
  }

  predicate AllAllowed(v: View, ops: seq<Op>, max: nat)
    decreases |ops|
  {
    ops == [] || (Allowed(v, ops[0]) && AllAllowed(Apply(v, ops[0], max).0, ops[1..], max))
  }

  /** A sequence of operations on the pair, with their answers. */
  function Fold(v: View, ops: seq<Op>, max: nat): (View, seq<bool>)
    requires AllAllowed(v, ops, max)
    decreases |ops|
  {
    if ops == [] then (v, [])
    else
      var (w, ok) := Apply(v, ops[0], max);
      var (x, oks) := Fold(w, ops[1..], max);
      (x, [ok] + oks)
  }

  lemma FoldNext(v: View, ops: seq<Op>, i: nat, max: nat)
    requires i < |ops| && AllAllowed(v, ops[i..], max)
    ensures Allowed(v, ops[i])
    ensures var (w, ok) := Apply(v, ops[i], max);
            && AllAllowed(w, ops[i + 1..], max)
            && Fold(v, ops[i..], max).0 == Fold(w, ops[i + 1..], max).0
            && forall oks :: oks + Fold(v, ops[i..], max).1 == oks + [ok] + Fold(w, ops[i + 1..], max).1
  {
    assert ops[i..][0] == ops[i] && ops[i..][1..] == ops[i + 1..];
    var (w, ok) := Apply(v, ops[i], max);
    forall oks: seq<bool>
      ensures oks + Fold(v, ops[i..], max).1 == oks + [ok] + Fold(w, ops[i + 1..], max).1
    {
      assert oks + ([ok] + Fold(w, ops[i + 1..], max).1) == oks + [ok] + Fold(w, ops[i + 1..], max).1;
    }
  }

  lemma FoldEnd(v: View, ops: seq<Op>, max: nat)
    ensures AllAllowed(v, ops[|ops|..], max) && Fold(v, ops[|ops|..], max) == (v, [])
    ensures forall oks: seq<bool> :: oks + Fold(v, ops[|ops|..], max).1 == oks
  {
  }

  /** `reserve_clamped`: double, but at least to what is needed and never past the bound. */
  method ReserveClamped(len: nat, capacity: nat, additional: nat, max: nat) returns (r: nat)
    requires len + additional <= max
    ensures len + additional <= r && capacity <= r <= Max(capacity, max)
  {
    var needed := len + additional;
    if needed <= capacity {
      return capacity;
    }
    return Min(Max(2 * capacity, needed), max);
  }

  function RotateLeft(s: Bytes, k: nat): (r: Bytes)
    requires k <= |s|
    ensures |r| == |s|
  {
    s[k..] + s[..k]
  }

  lemma Rotated(v: Bytes, data: Bytes, hidden: nat)
    requires hidden <= |v|
    ensures var vis := |v| - hidden;
            (v + data)[..vis] + RotateLeft((v + data)[vis..], hidden) == v[..vis] + data + v[vis..]
    ensures hidden == 0 || data == [] ==> v + data == v[..|v| - hidden] + data + v[|v| - hidden..]
  {
  }

  lemma ShowView(s: Bytes, at: nat, visible: Bytes, hidden: Bytes)
    requires s == visible + hidden && at == |visible|
    ensures View(s[..at], s[at..]) == View(visible, hidden)
  {
  }

  lemma GapClosed(v: Bytes, len: nat, vis: nat, hidden: nat)
    requires len <= vis && vis + hidden == |v|
    ensures (v[..len] + v[vis..vis + hidden] + v[len + hidden..])[..len + hidden] == v[..vis][..len] + v[vis..]
    ensures hidden == 0 ==> v[..len + hidden] == v[..vis][..len] + v[vis..]
  {
  }

  /** Make room behind `vis` and put `data` there. */
  method InsertBefore(mem: array<Byte>, vis: nat, len: nat, data: Bytes)
    requires vis <= len && len + |data| <= mem.Length
    modifies mem
    ensures mem[..len + |data|] == old(mem[..len][..vis]) + data + old(mem[..len][vis..])
  {
    ghost var was := mem[..];
    if len > vis && data != [] {
      CopyWithin(mem, vis, len, vis + |data|);
    }
    ghost var mid := mem[..];
    CopyInto(mem, vis, data);
    MovedApart(was, mid, mem[..], vis, len, data);
  }

  lemma MovedApart(was: Bytes, mid: Bytes, now: Bytes, vis: nat, len: nat, data: Bytes)
    requires vis <= len && len + |data| <= |was| && Spliced(mid, now, vis, data)
    requires if len > vis && data != [] then Spliced(was, mid, vis + |data|, was[vis..len]) else mid == was
    ensures now[..len + |data|] == was[..len][..vis] + data + was[..len][vis..]
  {
    var to := vis + |data|;
    var front, tail := now[..to], now[to..len + |data|];
    assert front == was[..vis] + data;
    TailMoved(was, mid, now, vis, len, data);
    hide Spliced;
    assert now[..len + |data|] == front + tail;
    assert was[..len][..vis] == was[..vis] && was[..len][vis..] == was[vis..len];
  }

  lemma TailMoved(was: Bytes, mid: Bytes, now: Bytes, vis: nat, len: nat, data: Bytes)
    requires vis <= len && len + |data| <= |was| && Spliced(mid, now, vis, data)
    requires if len > vis && data != [] then Spliced(was, mid, vis + |data|, was[vis..len]) else mid == was
    ensures |now| == |was| && now[vis + |data|..len + |data|] == was[vis..len]
  {
    assert |now| == |was|;
    var to := vis + |data|;
    var tail, moved := now[to..len + |data|], was[vis..len];
    forall k | 0 <= k < |moved| ensures tail[k] == moved[k] {
      SplicedAt(mid, now, vis, data, to + k);
      if data != [] {
        SplicedAt(was, mid, to, moved, to + k);
      }
    }
    hide Spliced;
    assert tail == moved;
  }

  method ShiftDown(mem: array<Byte>, n: nat, len: nat, cur: nat)
    requires n <= len <= cur <= mem.Length
    modifies mem
    ensures mem[..cur][..len - n] == old(mem[..cur][..len][n..]) && mem[..cur][len..] == old(mem[..cur][len..])
  {
    ghost var was, moved := mem[..], mem[n..len];
    assert mem[..cur][..len][n..] == moved && was[len - n..][n..] == was[len..];
    CopyWithin(mem, n, len, 0);
    assert mem[..] == moved + was[len - n..];
    assert mem[..cur][..len - n] == mem[..][..len - n];
    assert mem[..cur][len..] == mem[..][len..][..cur - len] && was[..cur][len..] == was[len..][..cur - len];
  }

  /** Move the `hidden` bytes behind `vis` up to `len`. */
  method CloseGap(mem: array<Byte>, len: nat, vis: nat, hidden: nat)
    requires len < vis && vis + hidden <= mem.Length
    modifies mem
    ensures mem[..len + hidden] == old(mem[..vis + hidden][..vis][..len]) + old(mem[..vis + hidden][vis..])
  {
    if hidden > 0 {
      CopyWithin(mem, vis, vis + hidden, len);
    }
  }

  // --------------------------------------------------------------------------------
  // Whole runs
  // --------------------------------------------------------------------------------

  /** Visible and hidden bytes together never pass the bound, in any run. */
  lemma {:induction false} FoldBounded(v: View, ops: seq<Op>, max: nat)
    requires AllAllowed(v, ops, max) && |v.visible| + |v.hidden| <= max
    ensures var w := Fold(v, ops, max).0; |w.visible| + |w.hidden| <= max
    decreases |ops|
  {
    if ops != [] {
      FoldBounded(Apply(v, ops[0], max).0, ops[1..], max);
    }
  }

  /** Operations that neither hide, reveal nor clear. */
  predicate Quiet(ops: seq<Op>) {
    forall i :: 0 <= i < |ops| ==> !ops[i].HideTail? && !ops[i].UnhideTail? && !ops[i].Clear?
  }

  /**
   Behind a hidden tail a buffer works as one without it and with that much less capacity:
   same visible bytes, same answers, and the tail is kept as it was.
   */
  lemma {:induction false} HiddenUntouched(v: View, ops: seq<Op>, max: nat)
    requires Quiet(ops) && |v.hidden| <= max
    ensures var alone := View(v.visible, []);
            && (AllAllowed(v, ops, max) <==> AllAllowed(alone, ops, max - |v.hidden|))
            && (AllAllowed(v, ops, max) ==>
                  var (w, oks) := Fold(v, ops, max);
                  var (x, same) := Fold(alone, ops, max - |v.hidden|);
                  w == View(x.visible, v.hidden) && x.hidden == [] && oks == same)
    decreases |ops|
  {
    var alone := View(v.visible, []);
    if ops != [] {
      assert Allowed(v, ops[0]) <==> Allowed(alone, ops[0]);
      if Allowed(v, ops[0]) {
        var w := Apply(v, ops[0], max).0;
        assert Apply(alone, ops[0], max - |v.hidden|).0 == View(w.visible, []) && w.hidden == v.hidden;
        HiddenUntouched(w, ops[1..], max);
      }
    }
  }

  /** The bytes a run takes from the front. */
  function Drained(v: View, ops: seq<Op>, max: nat): Bytes
    requires AllAllowed(v, ops, max)
    decreases |ops|
  {
    if ops == [] then []
    else (if ops[0].DrainFront? then v.visible[..ops[0].n] else []) + Drained(Apply(v, ops[0], max).0, ops[1..], max)
  }

  /** The bytes a run adds at the back: those of the appends that were accepted. */
  function Accepted(ops: seq<Op>, oks: seq<bool>): Bytes
    requires |oks| == |ops|
  {
    if ops == [] then []
    else (if !oks[0] then [] else if ops[0].Extend? then ops[0].data else if ops[0].Push? then [ops[0].b] else [])
         + Accepted(ops[1..], oks[1..])
  }

  lemma {:induction false} AnswersCount(v: View, ops: seq<Op>, max: nat)
    requires AllAllowed(v, ops, max)
    ensures |Fold(v, ops, max).1| == |ops|
    decreases |ops|
  {
    if ops != [] {
      AnswersCount(Apply(v, ops[0], max).0, ops[1..], max);
    }
  }

  /** First in, first out: what is drained and what is left are what was there and what was accepted. */
  lemma {:induction false} FirstInFirstOut(v: View, ops: seq<Op>, max: nat)
    requires Quiet(ops) && AllAllowed(v, ops, max)
    requires forall i :: 0 <= i < |ops| ==> !ops[i].Truncate?
    ensures |Fold(v, ops, max).1| == |ops|
    ensures Drained(v, ops, max) + Fold(v, ops, max).0.visible == v.visible + Accepted(ops, Fold(v, ops, max).1)
    decreases |ops|
  {
    AnswersCount(v, ops, max);
    if ops != [] {
      var (w, ok) := Apply(v, ops[0], max);
      var (x, oks) := Fold(w, ops[1..], max);
      FirstInFirstOut(w, ops[1..], max);
      assert ([ok] + oks)[1..] == oks;
      Rejoin(v, ops[0], max, Drained(w, ops[1..], max), x.visible, Accepted(ops[1..], oks));
    }
  }

  lemma Rejoin(v: View, op: Op, max: nat, drained: Bytes, left: Bytes, accepted: Bytes)
    requires Allowed(v, op) && !op.HideTail? && !op.UnhideTail? && !op.Clear? && !op.Truncate?
    requires drained + left == Apply(v, op, max).0.visible + accepted
    ensures var out := if op.DrainFront? then v.visible[..op.n] else [];
            var put := if !Apply(v, op, max).1 then [] else if op.Extend? then op.data else if op.Push? then [op.b] else [];
            out + drained + left == v.visible + (put + accepted)
  {
    var w := Apply(v, op, max).0;
    if op.DrainFront? {
      assert v.visible == v.visible[..op.n] + w.visible;
      assert v.visible[..op.n] + drained + left == v.visible[..op.n] + (drained + left);
      assert v.visible[..op.n] + (w.visible + accepted) == v.visible + ([] + accepted);
    } else {
      assert [] + drained + left == drained + left;
    }
  }

  /**
   The use the TLS layer makes of it: hide a tail, append to and drain the rest, reveal. The
   tail comes back unchanged behind whatever is visible by then.
   */
  lemma ParkedTail(v: View, n: nat, ops: seq<Op>, max: nat)
    requires v.hidden == [] && n <= |v.visible| <= max && Quiet(ops)
    requires var k := |v.visible| - n; AllAllowed(View(v.visible[..k], []), ops, max - n)
    ensures var k := |v.visible| - n;
            var w := Apply(v, HideTail(n), max).0;
            && AllAllowed(w, ops, max)
            && Apply(Fold(w, ops, max).0, UnhideTail, max).0
               == View(Fold(View(v.visible[..k], []), ops, max - n).0.visible + v.visible[k..], [])
  {
    hide Fold, AllAllowed, Quiet;
    var k := |v.visible| - n;
    assert v.visible[k..] + [] == v.visible[k..];
    HiddenUntouched(View(v.visible[..k], v.visible[k..]), ops, max);
  }
}
