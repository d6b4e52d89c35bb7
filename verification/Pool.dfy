/** The handshake contexts that connections share, and who holds which. */
module Pool {
  import opened Bytes
  import opened CryptoStream

  /** The crypto state of a context, per encryption level; the TLS engine is replaced on every claim. */
  datatype Context = Context(pending: seq<Bytes>, reasm: seq<Reasm>, offset: seq<nat>, level: seq<nat>)

  datatype Slot = Slot(inUse: bool, ctx: Context)

  function EmptyContext(size: nat): Context {
    var r := Reasm(Zeros(size), 0, []);
    Context([[], [], []], [r, r, r], [0, 0, 0], [0, 0, 0])
  }

  /** The lowest free slot, or the number of slots. */
  function FirstFree(slots: seq<Slot>): (i: nat)
    ensures i <= |slots| && (i < |slots| ==> !slots[i].inUse)
    ensures forall j :: 0 <= j < i ==> slots[j].inUse
  {
    if slots == [] || !slots[0].inUse then 0 else 1 + FirstFree(slots[1..])
  }

  function Released(slots: seq<Slot>, b: Byte, size: nat): seq<Slot> {
    if b as nat < |slots| then slots[b as nat := Slot(false, EmptyContext(size))] else slots
  }

  function CountUsed(slots: seq<Slot>): (n: nat)
    ensures n <= |slots|
  {
    if slots == [] then 0
    else CountUsed(slots[..|slots| - 1]) + if slots[|slots| - 1].inUse then 1 else 0
  }

  predicate Fitted(slots: seq<Slot>) { forall i :: 0 <= i < |slots| ==> |slots[i].ctx.pending| == 3 }

  class HandshakePool {
    const slots: array<Slot>
    const size: nat

    ghost predicate Valid()
      reads slots
    {
      Fitted(slots[..])
    }

    /** All slots free, with empty contexts. */
    constructor (n: nat, size: nat)
      ensures fresh(slots) && this.size == size && slots[..] == seq(n, _ => Slot(false, EmptyContext(size)))
      ensures Valid()
    {
      this.size := size;
      slots := new Slot[n](_ => Slot(false, EmptyContext(size)));
    }

    /** Claim the first free slot; its index goes out as one byte. */
    method Claim() returns (r: Result<Byte>)
      requires Valid()
      modifies slots
      ensures Valid()
      ensures var i := FirstFree(old(slots[..]));
              if i == slots.Length then r == Err(PoolExhausted) && slots[..] == old(slots[..])
              else r == Ok(i % 256) && slots[..] == old(slots[..])[i := old(slots[i]).(inUse := true)]
    {
      ghost var was := slots[..];
      for i := 0 to slots.Length
        invariant slots[..] == was && forall j :: 0 <= j < i ==> was[j].inUse
      {
        if !slots[i].inUse {
          slots[i] := slots[i].(inUse := true);
          assert FirstFree(was) == i;
          return Ok(i % 256);
        }
      }
      return Err(PoolExhausted);
    }

    /** Free a slot and wipe its context; an index outside the pool is ignored. */
    method Release(b: Byte)
      requires Valid()
      modifies slots
      ensures Valid() && slots[..] == Released(old(slots[..]), b, size)
    {
      var idx := b as nat;
      if idx < slots.Length {
        var ctx := Reset(slots[idx].ctx, size);
        slots[idx] := Slot(false, ctx);
      }
    }

    method SlotsInUse() returns (n: nat)
      ensures n == CountUsed(slots[..])
    {
      n := 0;
      for i := 0 to slots.Length
        invariant n == CountUsed(slots[..i])
      {
        assert slots[..i + 1][..i] == slots[..i];
        if slots[i].inUse {
          n := n + 1;
        }
      }
      assert slots[..slots.Length] == slots[..];
    }
  }

  /** `reset`: clear the buffers one by one, then start the rest over. */
  method Reset(ctx: Context, size: nat) returns (r: Context)
    requires |ctx.pending| == 3
    ensures r == EmptyContext(size)
  {
    var pending := ctx.pending;
    for i := 0 to |pending|
      invariant |pending| == 3 && forall j :: 0 <= j < i ==> pending[j] == []
    {
      pending := pending[i := []];
    }
    var empty := Reasm(Zeros(size), 0, []);
    return Context(pending, [empty, empty, empty], [0, 0, 0], [0, 0, 0]);
  }

  // --------------------------------------------------------------------------------
  // Connections sharing a pool
  // --------------------------------------------------------------------------------

  /** `conns[c]` is the slot connection `c` holds; `leaked` are slots claimed by builds that then failed. */
  datatype System = System(slots: seq<Slot>, conns: seq<Option<Byte>>, leaked: set<nat>)

  datatype Step =
    | Build(ok: bool)
    | Drop(c: nat)
    | Touch(c: nat, ctx: Context)

  predicate Enabled(s: System, st: Step) {
    match st
    case Build(_) => true
    case Drop(c) => c < |s.conns|
    case Touch(c, _) => c < |s.conns| && s.conns[c].Some? && s.conns[c].value as nat < |s.slots|
  }

  /**
   Building a connection claims a slot, and keeps it claimed even if the build then fails;
   dropping gives back the slot if one is still held; a holder changes its context freely.
   */
  function Apply(s: System, st: Step, size: nat): System
    requires Enabled(s, st)
  {
    match st
    case Build(ok) =>
      var i := FirstFree(s.slots);
      if i == |s.slots| then s
      else
        var slots := s.slots[i := s.slots[i].(inUse := true)];
        if ok then System(slots, s.conns + [Some(i % 256)], s.leaked) else System(slots, s.conns, s.leaked + {i})
    case Drop(c) =>
      (match s.conns[c]
       case None => s
       case Some(b) => System(Released(s.slots, b, size), s.conns[c := None], s.leaked))
    case Touch(c, ctx) =>
      var b := s.conns[c].value as nat;
      s.(slots := s.slots[b := s.slots[b].(ctx := ctx)])
  }

  function Start(n: nat, size: nat): System {
    System(seq(n, _ => Slot(false, EmptyContext(size))), [], {})
  }

  ghost predicate Reachable(s: System, n: nat, size: nat, ss: seq<System>, steps: seq<Step>) {
    && |ss| == |steps| + 1 && ss[0] == Start(n, size) && ss[|steps|] == s
    && forall i :: 0 <= i < |steps| ==> Enabled(ss[i], steps[i]) && ss[i + 1] == Apply(ss[i], steps[i], size)
  }

  function Holders(conns: seq<Option<Byte>>): nat {
    if conns == [] then 0
    else Holders(conns[..|conns| - 1]) + if conns[|conns| - 1].Some? then 1 else 0
  }

  /** Slot `i` is the one connection `c` holds. */
  predicate Owns(s: System, c: int, i: int) {
    0 <= c < |s.conns| && s.conns[c].Some? && s.conns[c].value as int == i
  }

  /** What a connection holds is claimed, by it alone, and not a leaked slot. */
  ghost predicate Exclusive(s: System) {
    && (forall c, i :: Owns(s, c, i) ==> 0 <= i < |s.slots| && s.slots[i].inUse && i !in s.leaked)
    && (forall c, d, i :: Owns(s, c, i) && Owns(s, d, i) ==> c == d)
  }

  /** What is claimed has an owner or was leaked. */
  ghost predicate Accounted(s: System) {
    && (forall i :: 0 <= i < |s.slots| && s.slots[i].inUse && i !in s.leaked ==> exists c :: Owns(s, c, i))
    && (forall i :: i in s.leaked ==> i < |s.slots| && s.slots[i].inUse)
  }

  ghost predicate FreeAreEmpty(s: System, size: nat) {
    forall i :: 0 <= i < |s.slots| && !s.slots[i].inUse ==> s.slots[i].ctx == EmptyContext(size)
  }

  predicate Counted(s: System) { CountUsed(s.slots) == Holders(s.conns) + |s.leaked| }

  ghost predicate Inv(s: System, size: nat) {
    Exclusive(s) && Accounted(s) && FreeAreEmpty(s, size) && Counted(s)
  }

  lemma {:induction false} CountUpdate(slots: seq<Slot>, i: nat, x: Slot)
    requires i < |slots|
    ensures CountUsed(slots[i := x]) == CountUsed(slots) - (if slots[i].inUse then 1 else 0) + (if x.inUse then 1 else 0)
    decreases |slots|
  {
    var n := |slots| - 1;
    if i == n {
      assert slots[i := x][..n] == slots[..n];
    } else {
      assert slots[i := x][..n] == slots[..n][i := x];
      CountUpdate(slots[..n], i, x);
    }
  }

  lemma {:induction false} HoldersDrop(conns: seq<Option<Byte>>, c: nat)
    requires c < |conns| && conns[c].Some?
    ensures Holders(conns[c := None]) == Holders(conns) - 1
    decreases |conns|
  {
    var n := |conns| - 1;
    if c == n {
      assert conns[c := None][..n] == conns[..n];
    } else {
      assert conns[c := None][..n] == conns[..n][c := None];
      HoldersDrop(conns[..n], c);
    }
  }

  lemma {:induction false} NoneUsed(n: nat, size: nat)
    ensures CountUsed(Start(n, size).slots) == 0
  {
    if n > 0 {
      assert Start(n, size).slots[..n - 1] == Start(n - 1, size).slots;
      NoneUsed(n - 1, size);
    }
  }

  lemma BuildOwners(s: System, size: nat)
    requires FirstFree(s.slots) < |s.slots| <= 256
    ensures var t, i := Apply(s, Build(true), size), FirstFree(s.slots);
            forall c, j :: Owns(t, c, j) <==> Owns(s, c, j) || (c == |s.conns| && j == i)
  {
  }

  lemma BuildExclusive(s: System, size: nat)
    requires Exclusive(s) && FirstFree(s.slots) < |s.slots| <= 256 && FirstFree(s.slots) !in s.leaked
    ensures Exclusive(Apply(s, Build(true), size))
  {
    BuildOwners(s, size);
    hide Owns;
  }

  lemma BuildAccounted(s: System, size: nat)
    requires Accounted(s) && FirstFree(s.slots) < |s.slots| <= 256
    ensures Accounted(Apply(s, Build(true), size))
  {
    BuildOwners(s, size);
    assert Owns(Apply(s, Build(true), size), |s.conns|, FirstFree(s.slots));
    hide Owns;
  }

  lemma BuildCounted(s: System, size: nat)
    requires Counted(s) && FirstFree(s.slots) < |s.slots|
    ensures Counted(Apply(s, Build(true), size))
  {
    var i := FirstFree(s.slots);
    CountUpdate(s.slots, i, s.slots[i].(inUse := true));
    assert Apply(s, Build(true), size).conns[..|s.conns|] == s.conns;
  }

  lemma BuildKeeps(s: System, size: nat)
    requires Inv(s, size) && FirstFree(s.slots) < |s.slots| <= 256
    ensures Inv(Apply(s, Build(true), size), size)
  {
    assert FirstFree(s.slots) !in s.leaked;
    BuildExclusive(s, size);
    BuildAccounted(s, size);
    BuildCounted(s, size);
    hide Exclusive, Accounted, Counted;
  }

  lemma LeakKeeps(s: System, size: nat)
    requires Inv(s, size) && FirstFree(s.slots) < |s.slots|
    ensures Inv(Apply(s, Build(false), size), size)
  {
    assert FirstFree(s.slots) !in s.leaked;
    LeakOwners(s, size);
    LeakCounted(s, size);
    hide Exclusive, Accounted, Counted;
  }

  lemma LeakOwners(s: System, size: nat)
    requires Exclusive(s) && Accounted(s) && FirstFree(s.slots) < |s.slots|
    ensures Exclusive(Apply(s, Build(false), size)) && Accounted(Apply(s, Build(false), size))
  {
    var t := Apply(s, Build(false), size);
    assert forall c, j :: Owns(t, c, j) <==> Owns(s, c, j);
    hide Owns;
  }

  lemma LeakCounted(s: System, size: nat)
    requires Counted(s) && FirstFree(s.slots) < |s.slots| && FirstFree(s.slots) !in s.leaked
    ensures Counted(Apply(s, Build(false), size))
  {
    var i := FirstFree(s.slots);
    CountUpdate(s.slots, i, s.slots[i].(inUse := true));
  }

  lemma DropKeeps(s: System, c: nat, size: nat)
    requires Inv(s, size) && c < |s.conns|
    ensures Inv(Apply(s, Drop(c), size), size)
  {
    if s.conns[c].Some? {
      var b := s.conns[c].value as nat;
      var t := Apply(s, Drop(c), size);
      assert Owns(s, c, b);
      CountUpdate(s.slots, b, Slot(false, EmptyContext(size)));
      HoldersDrop(s.conns, c);
      assert forall d, j :: Owns(t, d, j) <==> Owns(s, d, j) && d != c;
    }
  }

  lemma TouchKeeps(s: System, c: nat, ctx: Context, size: nat)
    requires Inv(s, size) && Enabled(s, Touch(c, ctx))
    ensures Inv(Apply(s, Touch(c, ctx), size), size)
  {
    var b := s.conns[c].value as nat;
    var t := Apply(s, Touch(c, ctx), size);
    assert Owns(s, c, b);
    CountUpdate(s.slots, b, s.slots[b].(ctx := ctx));
    assert forall d, j :: Owns(t, d, j) <==> Owns(s, d, j);
  }

  lemma StepKeeps(s: System, st: Step, size: nat)
    requires Inv(s, size) && |s.slots| <= 256 && Enabled(s, st)
    ensures Inv(Apply(s, st, size), size) && |Apply(s, st, size).slots| == |s.slots|
    ensures s.leaked <= Apply(s, st, size).leaked
  {
    hide Inv;
    match st
    case Build(ok) =>
      if FirstFree(s.slots) < |s.slots| {
        if ok {
          BuildKeeps(s, size);
        } else {
          LeakKeeps(s, size);
        }
      }
    case Drop(c) => DropKeeps(s, c, size);
    case Touch(c, ctx) => TouchKeeps(s, c, ctx, size);
  }

  /**
   In any interleaving of any number of connections over a pool of at most 256 slots: every
   claimed slot belongs to exactly one connection or was leaked by a failed build, the number
   in use is the number of holders plus the leaks, and every free slot is empty.
   */
  lemma {:induction false} PoolInvariant(s: System, n: nat, size: nat, ss: seq<System>, steps: seq<Step>)
    requires Reachable(s, n, size, ss, steps) && n <= 256
    ensures Inv(s, size) && |s.slots| == n
    decreases |steps|
  {
    hide Inv, Apply;
    if steps == [] {
      StartInv(n, size);
    } else {
      var k := |steps| - 1;
      PoolInvariant(ss[k], n, size, ss[..k + 1], steps[..k]);
      StepKeeps(ss[k], steps[k], size);
    }
  }

  lemma StartInv(n: nat, size: nat)
    ensures Inv(Start(n, size), size)
  {
    NoneUsed(n, size);
  }

  /**
   What the invariant means to the next call: a build gets an empty context, and a connection
   that gives its slot back gives back one that is claimed and that nobody else holds.
   */
  lemma ClaimsEmptyReleasesOwn(s: System, n: nat, size: nat, ss: seq<System>, steps: seq<Step>)
    requires Reachable(s, n, size, ss, steps) && n <= 256
    ensures |s.slots| == n
    ensures FirstFree(s.slots) < n ==> s.slots[FirstFree(s.slots)].ctx == EmptyContext(size)
    ensures forall c :: 0 <= c < |s.conns| && s.conns[c].Some? ==>
              var b := s.conns[c].value as nat;
              b < n && s.slots[b].inUse && b !in s.leaked && forall d :: 0 <= d < |s.conns| && s.conns[d] == s.conns[c] ==> d == c
  {
    PoolInvariant(s, n, size, ss, steps);
    assert forall c :: 0 <= c < |s.conns| && s.conns[c].Some? ==> Owns(s, c, s.conns[c].value as int);
  }

  /** A slot claimed by a failed build stays claimed for good. */
  lemma {:induction false} LeakForever(n: nat, size: nat, ss: seq<System>, steps: seq<Step>, k: nat, i: nat)
    requires |ss| > 0 && Reachable(ss[|ss| - 1], n, size, ss, steps) && n <= 256
    requires k < |ss| && i in ss[k].leaked
    ensures var last := ss[|ss| - 1]; i in last.leaked && i < |last.slots| == n && last.slots[i].inUse
    decreases |ss| - k
  {
    hide Apply;
    PoolInvariant(ss[k], n, size, ss[..k + 1], steps[..k]);
    if k < |ss| - 1 {
      StepKeeps(ss[k], steps[k], size);
      LeakForever(n, size, ss, steps, k + 1, i);
    }
  }

  /** One slot, one build that fails after claiming it: the next build finds the pool exhausted, with no connection alive. */
  lemma LastSlotLeaks(size: nat) returns (ss: seq<System>, steps: seq<Step>)
    ensures |ss| == 3 && Reachable(ss[2], 1, size, ss, steps) && steps == [Build(false), Build(true)]
    ensures ss[2].conns == [] && ss[2].leaked == {0} && FirstFree(ss[2].slots) == |ss[2].slots|
  {
    var s0 := Start(1, size);
    var s1 := Apply(s0, Build(false), size);
    ss, steps := [s0, s1, Apply(s1, Build(true), size)], [Build(false), Build(true)];
    assert FirstFree(s0.slots) == 0 && s1.slots[0].inUse;
    assert FirstFree(s1.slots) == 1;
  }

  // --------------------------------------------------------------------------------
  // More than 256 slots
  // --------------------------------------------------------------------------------

  /** The pool after `k` builds and nothing else. */
  function Filled(n: nat, size: nat, k: nat): System
    requires k <= n
  {
    System(seq(n, i => Slot(i < k, EmptyContext(size))), seq(k, i => Some(i % 256)), {})
  }

  lemma {:induction false} FillNext(n: nat, size: nat, k: nat)
    requires k < n
    ensures Apply(Filled(n, size, k), Build(true), size) == Filled(n, size, k + 1)
  {
    var s := Filled(n, size, k);
    var i := FirstFree(s.slots);
    assert s.slots[k].inUse == false && (i < |s.slots| ==> s.slots[i].inUse == (i < k));
    assert i == k;
  }

  /** Slot numbers are bytes: with more than 256 slots two connections come to hold the same one. */
  lemma SharedBeyond256(n: nat, size: nat)
    requires n > 256
    ensures var ss := seq(258, k requires 0 <= k < 258 => Filled(n, size, k));
            var steps := seq(257, k => Build(true));
            && Reachable(Filled(n, size, 257), n, size, ss, steps)
            && Owns(Filled(n, size, 257), 0, 0) && Owns(Filled(n, size, 257), 256, 0)
  {
    var ss := seq(258, k requires 0 <= k < 258 => Filled(n, size, k));
    var steps := seq(257, k => Build(true));
    assert Filled(n, size, 0) == Start(n, size);
    forall k | 0 <= k < 257
      ensures Enabled(ss[k], steps[k]) && ss[k + 1] == Apply(ss[k], steps[k], size)
    {
      FillNext(n, size, k);
    }
  }
}
