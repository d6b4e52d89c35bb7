/** Byte strings, failure values and the bit operations shared by every component. */
module Bytes {
  type Byte = b: int | 0 <= b < 256
  type Bytes = seq<Byte>

  /** The unsigned 64-bit range of the fields that are `u64` on the wire and in memory. */
  type U64 = x: int | 0 <= x < 0x1_0000_0000_0000_0000

  datatype Option<+T> = None | Some(value: T)

  datatype Error =
    | BufferTooSmall(needed: nat)
    | Crypto
    | Closed
    | InvalidState
    | WouldBlock
    | PoolExhausted
    | InternalError
    | FrameEncodingError
    | FlowControlError
    | StreamStateError
    | FinalSizeError
    | ProtocolViolation
    | CryptoBufferExceeded
    | KeyUpdateError
    | Tls

  datatype Result<+T> = Ok(value: T) | Err(error: Error) {
    predicate IsFailure() { Err? }
    function PropagateFailure<U>(): Result<U>
      requires Err?
    {
      Err(error)
    }
    function Extract(): T
      requires Ok?
    {
      value
    }
  }

  /** The result of an operation that succeeds without a value. */
  datatype Outcome = Pass | Fail(error: Error) {
    predicate IsFailure() { Fail? }
    function PropagateFailure(): Outcome
      requires Fail?
    {
      this
    }
  }

  function Min(a: int, b: int): int { if a <= b then a else b }

  function Max(a: int, b: int): int { if a <= b then b else a }

  /** `a.saturating_sub(b)`. */
  function SaturatingSub(a: nat, b: nat): nat { if a <= b then 0 else a - b }

  /** Bitwise exclusive or. */
  function Xor(a: nat, b: nat): nat
    decreases a + b
  {
    if a == 0 && b == 0 then 0 else (a + b) % 2 + 2 * Xor(a / 2, b / 2)
  }

  /** The recurrence of `Xor`, for all arguments. */
  lemma XorStep(a: nat, b: nat)
    ensures Xor(a, b) / 2 == Xor(a / 2, b / 2) && Xor(a, b) % 2 == (a + b) % 2
  {
  }

  /** Exclusive or undoes itself. */
  lemma {:induction false} XorUndo(a: nat, b: nat)
    ensures Xor(Xor(a, b), b) == a
    decreases a + b
  {
    hide Xor;
    if a + b > 0 {
      var x := Xor(a, b);
      XorStep(a, b);
      XorStep(x, b);
      XorUndo(a / 2, b / 2);
      ParityUndo(a, b, x);
    } else {
      XorZero(0);
    }
  }

  lemma ParityUndo(a: nat, b: nat, x: nat)
    requires x % 2 == (a + b) % 2
    ensures (x + b) % 2 == a % 2
  {
  }

  lemma {:induction false} XorZero(a: nat)
    ensures Xor(a, 0) == a
  {
    if a > 0 { XorZero(a / 2); }
  }

  lemma XorKeepsHigh2(a: nat, m: nat)
    requires m < 4
    ensures Xor(a, m) / 4 == a / 4
  {
    XorStep(a, m);
    XorStep(a / 2, m / 2);
    XorZero(a / 2 / 2);
    assert Xor(a, m) / 4 == Xor(a, m) / 2 / 2;
  }

  /** A mask on the low four bits leaves the high bits alone. */
  lemma XorKeepsHighNibble(a: nat, m: nat)
    requires m < 16
    ensures Xor(a, m) / 16 == a / 16
  {
    XorKeepsHigh3(a / 2, m / 2);
    XorStep(a, m);
    var x := Xor(a, m);
    assert x / 16 == x / 2 / 8 && a / 16 == a / 2 / 8;
  }

  lemma XorKeepsHigh3(a: nat, m: nat)
    requires m < 8
    ensures Xor(a, m) / 8 == a / 8
  {
    XorKeepsHigh2(a / 2, m / 2);
    XorStep(a, m);
    var x := Xor(a, m);
    assert x / 8 == x / 2 / 4 && a / 8 == a / 2 / 4;
  }

  /** A mask on the low five bits leaves the top three bits alone. */
  lemma XorKeepsTopBits(a: nat, m: nat)
    requires m < 32
    ensures Xor(a, m) / 32 == a / 32
  {
    XorKeepsHighNibble(a / 2, m / 2);
    XorStep(a, m);
    var x := Xor(a, m);
    assert x / 32 == x / 2 / 16 && a / 32 == a / 2 / 16;
  }

  /** Exclusive or of two bytes is a byte. */
  lemma XorByte(a: Byte, b: Byte)
    ensures Xor(a, b) < 256
  {
    assert Pow2(8) == 256;
    XorBound(a, b, 8);
  }

  function Pow2(n: nat): nat { if n == 0 then 1 else 2 * Pow2(n - 1) }

  lemma {:induction false} XorBound(a: nat, b: nat, n: nat)
    requires a < Pow2(n) && b < Pow2(n)
    ensures Xor(a, b) < Pow2(n)
  {
    if n > 0 {
      XorStep(a, b);
      XorBound(a / 2, b / 2, n - 1);
    }
  }

  /** `now` is `was` with `s` written at `pos` and nothing else changed. */
  predicate Spliced(was: Bytes, now: Bytes, pos: nat, s: Bytes) {
    pos + |s| <= |was| && now == was[..pos] + s + was[pos + |s|..]
  }

  /** `now` differs from `was` at most inside `lo..hi`. */
  predicate Outside(was: Bytes, now: Bytes, lo: nat, hi: nat) {
    lo <= hi <= |was| == |now| && now[..lo] == was[..lo] && now[hi..] == was[hi..]
  }

  /** Any one byte after a write. */
  lemma SplicedAt(was: Bytes, now: Bytes, pos: nat, s: Bytes, q: nat)
    requires Spliced(was, now, pos, s) && q < |was|
    ensures |now| == |was| && now[q] == if pos <= q < pos + |s| then s[q - pos] else was[q]
  {
  }

  lemma SplicedOutside(was: Bytes, now: Bytes, pos: nat, s: Bytes, hi: nat)
    requires Spliced(was, now, pos, s) && pos + |s| <= hi <= |was|
    ensures Outside(was, now, pos, hi)
  {
  }

  /** Writing `t` right after `s` amounts to writing `s + t`. */
  lemma SplicedTwice(was: Bytes, mid: Bytes, now: Bytes, pos: nat, s: Bytes, t: Bytes)
    requires Spliced(was, mid, pos, s) && Spliced(mid, now, pos + |s|, t)
    ensures Spliced(was, now, pos, s + t)
  {
    assert mid[..pos + |s|] == was[..pos] + s;
    assert mid[pos + |s| + |t|..] == was[pos + |s| + |t|..];
  }

  /** `buf[pos..pos + data.len()].copy_from_slice(data)`. */
  method CopyInto(buf: array<Byte>, pos: nat, data: Bytes)
    requires pos + |data| <= buf.Length
    modifies buf
    ensures Spliced(old(buf[..]), buf[..], pos, data)
  {
    forall i | 0 <= i < |data| {
      buf[pos + i] := data[i];
    }
  }

  /** `buf.copy_within(lo..hi, dst)`: the ranges may overlap. */
  method CopyWithin(buf: array<Byte>, lo: nat, hi: nat, dst: nat)
    requires lo <= hi <= buf.Length && dst + (hi - lo) <= buf.Length
    modifies buf
    ensures Spliced(old(buf[..]), buf[..], dst, old(buf[lo..hi]))
  {
    forall i | 0 <= i < hi - lo {
      buf[dst + i] := buf[lo + i];
    }
  }
}
