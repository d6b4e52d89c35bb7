/**
 The life of one connection as its entry points move it: datagrams in, datagrams out, close
 and timers. What is followed is the connection state, address validation with its byte
 counts, the pending close and the Connected event.
 */
module Lifecycle {
  import opened Bytes
  import opened Varint
  import opened FrameCodec
  import opened SendPath
  import opened Protection
  import opened PacketBuild
  import opened ShortPacket

  datatype Level = Initial | Handshake | Application

  /**
   `lastActivity`, `received` and `sent` are the source's fields; `connected` and `closed` count
   the Connected and ConnectionClose events pushed.
   */
  datatype Life = Life(
    state: ConnState, isClient: bool, validated: bool, received: nat, sent: nat,
    close: Option<(U64, Bytes)>, connected: nat, closed: nat, lastActivity: nat)

  function Fresh(isClient: bool): Life {
    Life(Handshaking, isClient, isClient, 0, 0, None, 0, 0, 0)
  }

  const USIZE_MAX: nat := 0xFFFF_FFFF_FFFF_FFFF

  function SatAdd(a: nat, b: nat): nat { Min(a + b, USIZE_MAX) }

  predicate AmplificationAllows(l: Life, bytes: nat) {
    l.validated || l.sent + bytes <= 3 * l.received
  }

  /** Everything a datagram to send depends on besides the state above. */
  datatype Env = Env(
    updateFails: bool, keys: set<Level>, dcid: Bytes, scid: Bytes, pnLen: nat, bufLen: nat, data: nat)

  predicate EnvOk(e: Env) { CidsFit(e.dcid, e.scid) && 1 <= e.pnLen <= 4 }

  // --------------------------------------------------------------------------------
  // The close datagram
  // --------------------------------------------------------------------------------

  function CloseLevel(keys: set<Level>): Option<Level> {
    if Application in keys then Some(Application)
    else if Handshake in keys then Some(Handshake)
    else if Initial in keys then Some(Initial)
    else None
  }

  function CloseFrame(code: U64, reason: Bytes): Frame {
    ConnectionClose(false, code, 0, reason)
  }

  /** Length of a packet at `level` that carries `f` bytes of frames. */
  function ClosePacket(level: Level, e: Env, f: nat, isClient: bool): nat
    requires EnvOk(e)
  {
    var ids := |e.dcid| + |e.scid|;
    match level
    case Initial => PacketSize(8 + ids, e.pnLen, f + PaddingOf(8 + ids, e.pnLen, f, isClient))
    case Handshake => PacketSize(7 + ids, e.pnLen, f + ShortPadding(e.pnLen, f))
    case Application => 1 + |e.dcid| + e.pnLen + f + ShortPadding(e.pnLen, f) + TAG
  }

  /** The close datagram's length, 0 if it cannot be built. */
  function CloseBytes(level: Level, e: Env, code: U64, reason: Bytes, isClient: bool): nat
    requires EnvOk(e)
  {
    var frame := CloseFrame(code, reason);
    if !Encodable(frame) || |FrameBytes(frame)| > 128 then 0
    else
      var total := ClosePacket(level, e, |FrameBytes(frame)|, isClient);
      if total > e.bufLen then 0 else total
  }

  lemma CloseEncodable(code: U64, reason: Bytes)
    requires |reason| <= 64
    ensures Encodable(CloseFrame(code, reason)) <==> code <= MAX_VARINT
    ensures Fields(CloseFrame(code, reason)) == [V(0x1c), V(code), V(0), V(|reason|), B(reason)]
  {
    var fs := Fields(CloseFrame(code, reason));
    assert fs == [V(0x1c), V(code), V(0), V(|reason|), B(reason)];
    assert fs[1] == V(code);
  }

  lemma CloseFrameSize(code: U64, reason: Bytes)
    requires |reason| <= 64 && code <= MAX_VARINT
    ensures Encodable(CloseFrame(code, reason))
    ensures |FrameBytes(CloseFrame(code, reason))| == 2 + VarintLen(code) + VarintLen(|reason|) + |reason|
  {
    hide VarintBytes, Fields, Encodable;
    CloseEncodable(code, reason);
    var fs := [V(0x1c), V(code), V(0), V(|reason|), B(reason)];
    NextPos(fs, 0);
    NextPos(fs, 1);
    NextPos(fs, 2);
    NextPos(fs, 3);
    NextPos(fs, 4);
    assert fs[..5] == fs && fs[..0] == [];
  }

  /** A server's close datagram, which is not padded, has at most 146 bytes. */
  lemma CloseIsShort(level: Level, e: Env, code: U64, reason: Bytes)
    requires EnvOk(e) && |reason| <= 64
    ensures CloseBytes(level, e, code, reason, false) <= 146
  {
    hide FrameBytes, Encodable;
    CloseEncodable(code, reason);
    if code <= MAX_VARINT {
      CloseFrameSize(code, reason);
    }
  }

  // --------------------------------------------------------------------------------
  // Steps
  // --------------------------------------------------------------------------------

  function Establish(l: Life): Life {
    l.(state := Active, validated := true, connected := l.connected + 1)
  }

  /** What a datagram does to the connection, in the order it happens. */
  datatype Happening = FrameIn(f: Frame) | KeysReady(level: Level)

  function Happens(l: Life, h: Happening): Life {
    match h
    case FrameIn(f) =>
      if f.ConnectionClose? then l.(state := Draining, closed := l.closed + 1)
      else if f.HandshakeDone? && l.isClient && l.state.Handshaking? then Establish(l)
      else l
    case KeysReady(level) =>
      if level.Application? && !l.isClient && l.state.Handshaking? then Establish(l) else l
  }

  function AllHappens(l: Life, hs: seq<Happening>): Life
    decreases |hs|
  {
    if hs == [] then l else AllHappens(Happens(l, hs[0]), hs[1..])
  }

  /** A frame to dispatch; `keys` are the levels TLS has keys for once it has taken in a CRYPTO frame. */
  datatype Dispatch = Dispatch(f: Frame, keys: seq<Level>)

  function KeyHappenings(levels: seq<Level>): (hs: seq<Happening>)
    ensures |hs| == |levels|
  {
    seq(|levels|, i requires 0 <= i < |levels| => KeysReady(levels[i]))
  }

  /** Keys take effect inside the dispatch of the CRYPTO frame that brought them. */
  function Happenings(ds: seq<Dispatch>): seq<Happening>
    decreases |ds|
  {
    if ds == [] then []
    else [FrameIn(ds[0].f)] + (if ds[0].f.CryptoData? then KeyHappenings(ds[0].keys) else []) + Happenings(ds[1..])
  }

  /** `recv`: a datagram of `len` bytes that does `hs`. A closed connection refuses it. */
  function Received(l: Life, len: nat, now: nat, hs: seq<Happening>): Life {
    if l.state.ConnClosed? then l else AllHappens(Counted(l, len, now), hs)
  }

  function Counted(l: Life, len: nat, now: nat): Life {
    l.(lastActivity := now, received := if l.validated then l.received else SatAdd(l.received, len))
  }

  /** `poll_transmit`: the new state and the length of the datagram, 0 for none. */
  function Polled(l: Life, e: Env): (Life, nat)
    requires EnvOk(e)
  {
    if l.state.ConnClosed? || !AmplificationAllows(l, 1) then (l, 0)
    else if e.updateFails then (l.(state := ConnClosed), 0)
    else if l.close.Some? then
      match CloseLevel(e.keys)
      case None => (l, 0)
      case Some(level) =>
        (l.(state := ConnClosed), CloseBytes(level, e, l.close.value.0, l.close.value.1, l.isClient))
    else if e.data == 0 || !AmplificationAllows(l, e.data) then (l, 0)
    else (l.(sent := if l.validated then l.sent else SatAdd(l.sent, e.data)), e.data)
  }

  function CloseCalled(l: Life, code: U64, reason: Bytes): Life {
    if l.state.ConnClosed? || l.state.Draining? || l.state.Closing? then l
    else l.(close := Some((code, reason[..Min(|reason|, 64)])), state := Closing)
  }

  function TimedOut(l: Life, now: nat, drainPeriod: nat, idle: Option<nat>): Life {
    var quiet := SaturatingSub(now, l.lastActivity);
    if l.state.Draining? then (if quiet >= drainPeriod then l.(state := ConnClosed) else l)
    else if idle.Some? && quiet >= idle.value then l.(state := ConnClosed, closed := l.closed + 1)
    else l
  }

  class Connection {
    const isClient: bool
    var state: ConnState
    var validated: bool
    var received: nat
    var sent: nat
    var close: Option<(U64, Bytes)>
    var connected: nat
    var closed: nat
    var lastActivity: nat

    ghost function Value(): Life
      reads this
    {
      Life(state, isClient, validated, received, sent, close, connected, closed, lastActivity)
    }

    constructor (isClient: bool)
      ensures Value() == Fresh(isClient)
    {
      this.isClient := isClient;
      state, validated, received, sent := Handshaking, isClient, 0, 0;
      close, connected, closed, lastActivity := None, 0, 0, 0;
    }

    /**
     `ds` are the frames dispatched, of all packets in the datagram; `last` the levels TLS
     has keys for at the end, and `installs` whether all keys could be installed then.
     */
    method Recv(len: nat, now: nat, ds: seq<Dispatch>, last: seq<Level>, installs: bool) returns (r: Outcome)
      modifies this
      ensures Value() == Received(old(Value()), len, now, Happenings(ds) + KeyHappenings(last))
      ensures r.Fail? <==> old(state).ConnClosed? || !installs
    {
      if state.ConnClosed? {
        return Fail(Error.Closed);
      }
      lastActivity := now;
      if !validated {
        received := SatAdd(received, len);
      }
      HappensSplit(Counted(old(Value()), len, now), Happenings(ds), KeyHappenings(last));
      DispatchAll(ds);
      CheckTlsKeys(last);
      return if installs then Pass else Fail(Error.Crypto);
    }

    method DispatchAll(ds: seq<Dispatch>)
      modifies this
      ensures Value() == AllHappens(old(Value()), Happenings(ds))
    {
      hide Happens;
      var i := 0;
      assert ds[0..] == ds;
      while i < |ds|
        invariant 0 <= i <= |ds| && AllHappens(Value(), Happenings(ds[i..])) == AllHappens(old(Value()), Happenings(ds))
      {
        DispatchNext(Value(), ds, i);
        DispatchFrame(ds[i].f);
        if ds[i].f.CryptoData? {
          CheckTlsKeys(ds[i].keys);
        }
        i := i + 1;
      }
    }

    method DispatchFrame(f: Frame)
      modifies this
      ensures Value() == Happens(old(Value()), FrameIn(f))
    {
      match f
      case ConnectionClose(_, _, _, _) =>
        state, closed := Draining, closed + 1;
      case HandshakeDone =>
        if isClient && state.Handshaking? {
          state, validated, connected := Active, true, connected + 1;
        }
      case _ =>
    }

    method CheckTlsKeys(levels: seq<Level>)
      modifies this
      ensures Value() == AllHappens(old(Value()), KeyHappenings(levels))
    {
      var i := 0;
      ghost var hs := KeyHappenings(levels);
      assert hs[0..] == hs;
      while i < |levels|
        invariant 0 <= i <= |levels| && AllHappens(Value(), hs[i..]) == AllHappens(old(Value()), hs)
      {
        assert hs[i..][0] == KeysReady(levels[i]) && hs[i..][1..] == hs[i + 1..];
        if levels[i].Application? && !isClient && state.Handshaking? {
          state, validated, connected := Active, true, connected + 1;
        }
        i := i + 1;
      }
    }

    /** The checks before anything is built: closed, out of allowance, or unable to renew exhausted keys. */
    method MayTransmit(updateFails: bool) returns (go: bool)
      modifies this
      ensures go <==> !old(state).ConnClosed? && AmplificationAllows(old(Value()), 1) && !updateFails
      ensures Value() == if !old(state).ConnClosed? && AmplificationAllows(old(Value()), 1) && updateFails
                         then old(Value()).(state := ConnClosed) else old(Value())
    {
      if state.ConnClosed? || (!validated && sent + 1 > 3 * received) {
        return false;
      }
      if updateFails {
        state := ConnClosed;
        return false;
      }
      return true;
    }

    /** The check on a finished datagram of `n` bytes; what passes is counted. */
    method Departs(n: nat) returns (go: bool)
      modifies this
      ensures go <==> n > 0 && AmplificationAllows(old(Value()), n)
      ensures Value() == if go && !old(validated) then old(Value()).(sent := SatAdd(old(sent), n)) else old(Value())
    {
      if n == 0 || (!validated && sent + n > 3 * received) {
        return false;
      }
      if !validated {
        sent := SatAdd(sent, n);
      }
      return true;
    }

    method PollTransmit(e: Env) returns (n: nat)
      requires EnvOk(e)
      modifies this
      ensures (Value(), n) == Polled(old(Value()), e)
    {
      n := 0;
      var go := MayTransmit(e.updateFails);
      if !go {
        return;
      }
      if close.Some? {
        var level := CloseLevel(e.keys);
        if level.None? {
          return;
        }
        state := ConnClosed;
        return CloseBytes(level.value, e, close.value.0, close.value.1, isClient);
      }
      go := Departs(e.data);
      n := if go then e.data else 0;
    }

    method CloseWith(code: U64, reason: Bytes)
      modifies this
      ensures Value() == CloseCalled(old(Value()), code, reason)
    {
      if state.ConnClosed? || state.Draining? || state.Closing? {
        return;
      }
      close := Some((code, reason[..Min(|reason|, 64)]));
      state := Closing;
    }

    method HandleTimeout(now: nat, drainPeriod: nat, idle: Option<nat>)
      modifies this
      ensures Value() == TimedOut(old(Value()), now, drainPeriod, idle)
    {
      if state.Draining? {
        if SaturatingSub(now, lastActivity) >= drainPeriod {
          state := ConnClosed;
        }
        return;
      }
      if idle.Some? && SaturatingSub(now, lastActivity) >= idle.value {
        state, closed := ConnClosed, closed + 1;
      }
    }
  }

  // --------------------------------------------------------------------------------
  // Runs
  // --------------------------------------------------------------------------------

  datatype Step =
    | Recv(len: nat, now: nat, hs: seq<Happening>)
    | Poll(e: Env)
    | Close(code: U64, reason: Bytes)
    | Timeout(now: nat, drainPeriod: nat, idle: Option<nat>)

  predicate StepOk(s: Step) { s.Poll? ==> EnvOk(s.e) }

  /** The state after a step and the length of the datagram it put out. */
  function Next(l: Life, s: Step): (Life, nat)
    requires StepOk(s)
  {
    match s
    case Recv(len, now, hs) => (Received(l, len, now, hs), 0)
    case Poll(e) => Polled(l, e)
    case Close(code, reason) => (CloseCalled(l, code, reason), 0)
    case Timeout(now, period, idle) => (TimedOut(l, now, period, idle), 0)
  }

  predicate StepsOk(ss: seq<Step>) { forall i :: 0 <= i < |ss| ==> StepOk(ss[i]) }

  function Run(l: Life, ss: seq<Step>): Life
    requires StepsOk(ss)
    decreases |ss|
  {
    if ss == [] then l else Run(Next(l, ss[0]).0, ss[1..])
  }

  /** The order the states are passed through. */
  function Rank(s: ConnState): nat {
    match s
    case Handshaking => 0
    case Active => 1
    case Closing => 2
    case Draining => 3
    case ConnClosed => 4
  }

  /** One state is at or past another, and what went with it stayed. */
  predicate Onward(l: Life, m: Life) {
    && Rank(l.state) <= Rank(m.state)
    && (l.validated ==> m.validated)
    && l.isClient == m.isClient
    && l.connected <= m.connected
    && (m.connected > l.connected ==> l.state.Handshaking? && m.connected == l.connected + 1 && !m.state.Handshaking?)
  }

  /** What holds of every connection between two calls. */
  predicate Invariant(l: Life) {
    && l.connected <= 1 && (l.state.Handshaking? ==> l.connected == 0)
    && (l.state.Active? ==> l.connected == 1)
    && (l.connected == 1 || l.isClient ==> l.validated)
    && (l.close.Some? ==> Rank(l.state) >= 2 && |l.close.value.1| <= 64)
    && l.received <= USIZE_MAX && (!l.validated ==> l.sent <= 3 * l.received)
  }

  lemma {:induction false} HappensSplit(l: Life, hs: seq<Happening>, more: seq<Happening>)
    ensures AllHappens(l, hs + more) == AllHappens(AllHappens(l, hs), more)
    decreases |hs|
  {
    hide Happens;
    if hs == [] {
      assert hs + more == more;
    } else {
      assert (hs + more)[0] == hs[0] && (hs + more)[1..] == hs[1..] + more;
      HappensSplit(Happens(l, hs[0]), hs[1..], more);
    }
  }

  lemma DispatchNext(l: Life, ds: seq<Dispatch>, i: nat)
    requires i < |ds|
    ensures var m := Happens(l, FrameIn(ds[i].f));
            AllHappens(l, Happenings(ds[i..])) ==
            AllHappens(if ds[i].f.CryptoData? then AllHappens(m, KeyHappenings(ds[i].keys)) else m, Happenings(ds[i + 1..]))
  {
    hide Happens;
    var m, rest := Happens(l, FrameIn(ds[i].f)), Happenings(ds[i + 1..]);
    assert ds[i..][0] == ds[i] && ds[i..][1..] == ds[i + 1..];
    var keys := if ds[i].f.CryptoData? then KeyHappenings(ds[i].keys) else [];
    var all := [FrameIn(ds[i].f)] + keys + rest;
    assert all[0] == FrameIn(ds[i].f) && all[1..] == keys + rest;
    HappensSplit(m, keys, rest);
    assert AllHappens(m, []) == m;
  }

  lemma {:induction false} HappensOnward(l: Life, hs: seq<Happening>)
    requires !l.state.ConnClosed?
    ensures Onward(l, AllHappens(l, hs)) && !AllHappens(l, hs).state.ConnClosed?
    ensures Invariant(l) ==> Invariant(AllHappens(l, hs))
    ensures var m := AllHappens(l, hs); m.received == l.received && m.sent == l.sent && m.close == l.close
    decreases |hs|
  {
    if hs != [] {
      HappensOnward(Happens(l, hs[0]), hs[1..]);
    }
  }

  lemma StepOnward(l: Life, s: Step)
    requires StepOk(s) && Invariant(l)
    ensures Onward(l, Next(l, s).0) && Invariant(Next(l, s).0)
  {
    hide CloseBytes, CloseLevel;
    match s
    case Recv(len, now, hs) =>
      if !l.state.ConnClosed? {
        HappensOnward(Counted(l, len, now), hs);
      }
    case _ =>
  }

  /**
   Over any run the state never moves back in the order Handshaking, Active, Closing,
   Draining, Closed, and the invariant holds throughout.
   */
  lemma {:induction false} RunOnward(l: Life, ss: seq<Step>)
    requires StepsOk(ss) && Invariant(l)
    ensures Invariant(Run(l, ss)) && Rank(l.state) <= Rank(Run(l, ss).state)
    ensures l.connected <= Run(l, ss).connected && (l.validated ==> Run(l, ss).validated)
    decreases |ss|
  {
    hide Next, Invariant;
    if ss != [] {
      StepOnward(l, ss[0]);
      RunOnward(Next(l, ss[0]).0, ss[1..]);
    }
  }

  lemma {:induction false} RunSplit(l: Life, ss: seq<Step>, ts: seq<Step>)
    requires StepsOk(ss) && StepsOk(ts)
    ensures Run(l, ss + ts) == Run(Run(l, ss), ts)
    decreases |ss|
  {
    hide Next;
    if ss == [] {
      assert ss + ts == ts;
    } else {
      assert (ss + ts)[1..] == ss[1..] + ts && (ss + ts)[0] == ss[0];
      RunSplit(Next(l, ss[0]).0, ss[1..], ts);
    }
  }

  /** Of any two points of a run the later one has the higher state, and Connected is pushed at most once. */
  lemma StateOrder(isClient: bool, ss: seq<Step>, ts: seq<Step>)
    requires StepsOk(ss) && StepsOk(ts)
    ensures var early, late := Run(Fresh(isClient), ss), Run(Fresh(isClient), ss + ts);
            && Rank(early.state) <= Rank(late.state)
            && late.connected <= 1
            && (early.connected == 1 ==> early.validated && !late.state.Handshaking?)
  {
    RunOnward(Fresh(isClient), ss);
    RunSplit(Fresh(isClient), ss, ts);
    RunOnward(Run(Fresh(isClient), ss), ts);
  }

  /** What completes the handshake: HANDSHAKE_DONE for a client, Application keys for a server. */
  predicate Completes(h: Happening, isClient: bool) {
    if isClient then h.FrameIn? && h.f.HandshakeDone? else h.KeysReady? && h.level.Application?
  }

  predicate Ends(h: Happening) { h.FrameIn? && h.f.ConnectionClose? }

  /** Completion comes, and comes before any close. */
  predicate CompletesFirst(hs: seq<Happening>, isClient: bool) {
    exists i :: 0 <= i < |hs| && Completes(hs[i], isClient) && forall j :: 0 <= j < i ==> !Ends(hs[j])
  }

  lemma CompletesLater(hs: seq<Happening>, isClient: bool)
    requires hs != [] && !Completes(hs[0], isClient)
    ensures CompletesFirst(hs, isClient) <==> !Ends(hs[0]) && CompletesFirst(hs[1..], isClient)
  {
    hide Completes, Ends;
    if CompletesFirst(hs, isClient) {
      var i :| 0 <= i < |hs| && Completes(hs[i], isClient) && forall j :: 0 <= j < i ==> !Ends(hs[j]);
      assert hs[1..][i - 1] == hs[i];
    }
    if !Ends(hs[0]) && CompletesFirst(hs[1..], isClient) {
      var i :| 0 <= i < |hs[1..]| && Completes(hs[1..][i], isClient) && forall j :: 0 <= j < i ==> !Ends(hs[1..][j]);
      assert hs[i + 1] == hs[1..][i];
      assert forall j :: 0 < j < i + 1 ==> hs[j] == hs[1..][j - 1];
    }
  }

  lemma {:induction false} ConnectsDuring(l: Life, hs: seq<Happening>)
    ensures AllHappens(l, hs).connected ==
            l.connected + if l.state.Handshaking? && CompletesFirst(hs, l.isClient) then 1 else 0
    decreases |hs|
  {
    if hs != [] {
      var m := Happens(l, hs[0]);
      ConnectsDuring(m, hs[1..]);
      if Completes(hs[0], l.isClient) {
        assert CompletesFirst(hs, l.isClient);
      } else {
        CompletesLater(hs, l.isClient);
      }
      hide CompletesFirst;
    }
  }

  /**
   Who pushes Connected, and when: a handshaking client at HANDSHAKE_DONE, a handshaking server
   at its Application keys, in both cases unless a close took effect before; a close later in
   the same datagram comes too late.
   */
  lemma ConnectsExactly(l: Life, len: nat, now: nat, hs: seq<Happening>)
    requires Invariant(l)
    ensures Received(l, len, now, hs).connected == l.connected + 1
            <==> l.state.Handshaking? && CompletesFirst(hs, l.isClient)
  {
    hide CompletesFirst;
    ConnectsDuring(Counted(l, len, now), hs);
  }

  /** How many close frames there are. */
  function EndsIn(hs: seq<Happening>): nat
    decreases |hs|
  {
    if hs == [] then 0 else (if Ends(hs[0]) then 1 else 0) + EndsIn(hs[1..])
  }

  lemma {:induction false} EndsDuring(l: Life, hs: seq<Happening>)
    ensures var m := AllHappens(l, hs);
            && m.closed == l.closed + EndsIn(hs)
            && (m.state == Draining <==> l.state == Draining || EndsIn(hs) > 0)
            && (m.validated <==> l.validated || (l.state == Handshaking && CompletesFirst(hs, l.isClient)))
            && (m.state == Active <==> EndsIn(hs) == 0 && (l.state == Active || (l.state == Handshaking && CompletesFirst(hs, l.isClient))))
            && (m.state == l.state || m.state == Draining || m.state == Active)
    decreases |hs|
  {
    if hs != [] {
      EndsDuring(Happens(l, hs[0]), hs[1..]);
      if Completes(hs[0], l.isClient) {
        assert CompletesFirst(hs, l.isClient);
      } else {
        CompletesLater(hs, l.isClient);
      }
      hide CompletesFirst;
    }
  }

  /**
   What a datagram does to an open connection: it drains exactly if the peer closes in it, with
   one event for every close frame; it validates the address exactly if it completes the
   handshake; otherwise the state stays, and the idle time starts over.
   */
  lemma ReceivedExactly(l: Life, len: nat, now: nat, hs: seq<Happening>)
    requires !l.state.ConnClosed?
    ensures var m := Received(l, len, now, hs);
            var completes := l.state == Handshaking && CompletesFirst(hs, l.isClient);
            && m.lastActivity == now && m.sent == l.sent && m.close == l.close
            && m.received == (if l.validated then l.received else SatAdd(l.received, len))
            && m.closed == l.closed + EndsIn(hs)
            && m.state == (if EndsIn(hs) > 0 then Draining else if completes then Active else l.state)
            && (m.validated <==> l.validated || completes)
  {
    hide CompletesFirst, EndsIn;
    EndsDuring(Counted(l, len, now), hs);
    HappensOnward(Counted(l, len, now), hs);
    HappensClock(Counted(l, len, now), hs);
  }

  lemma {:induction false} HappensClock(l: Life, hs: seq<Happening>)
    ensures AllHappens(l, hs).lastActivity == l.lastActivity
    decreases |hs|
  {
    if hs != [] {
      HappensClock(Happens(l, hs[0]), hs[1..]);
    }
  }

  /** The last CRYPTO frame of the handshake and a close in one datagram: connected, validated and draining. */
  lemma ConnectsThenCloses(finished: Frame, code: U64)
    requires finished.CryptoData?
    ensures var ds := [Dispatch(finished, [Application]), Dispatch(CloseFrame(code, []), [])];
            var l := Received(Fresh(false), 100, 0, Happenings(ds));
            l.connected == 1 && l.validated && l.state == Draining
  {
    var ds := [Dispatch(finished, [Application]), Dispatch(CloseFrame(code, []), [])];
    var l := Counted(Fresh(false), 100, 0);
    DispatchNext(l, ds, 0);
    var m := AllHappens(Happens(l, FrameIn(finished)), KeyHappenings([Application]));
    assert KeyHappenings([Application]) == [KeysReady(Application)];
    assert m == Establish(l);
    DispatchNext(m, ds, 1);
    assert ds[0..] == ds && ds[2..] == [];
  }

  /** Bytes put on the wire by a run while the address was not validated. */
  function Wire(l: Life, ss: seq<Step>): nat
    requires StepsOk(ss)
    decreases |ss|
  {
    if ss == [] then 0
    else (if l.validated then 0 else Next(l, ss[0]).1) + Wire(Next(l, ss[0]).0, ss[1..])
  }

  /** Bytes a run took in while the address was not validated. */
  function Arrived(l: Life, ss: seq<Step>): nat
    requires StepsOk(ss)
    decreases |ss|
  {
    if ss == [] then 0
    else (if !l.validated && !l.state.ConnClosed? && ss[0].Recv? then ss[0].len else 0) + Arrived(Next(l, ss[0]).0, ss[1..])
  }

  /** The length of the close datagram, which a caller can work out before asking for it, is within the limit. */
  predicate CloseWithinLimit(l: Life, e: Env)
    requires EnvOk(e)
  {
    l.close.Some? && CloseLevel(e.keys).Some? ==>
      AmplificationAllows(l, CloseBytes(CloseLevel(e.keys).value, e, l.close.value.0, l.close.value.1, l.isClient))
  }

  /** The step cannot put out a close datagram: not a poll, nothing may be sent, or the keys cannot be renewed. */
  predicate Silent(l: Life, s: Step) {
    !s.Poll? || l.state.ConnClosed? || !AmplificationAllows(l, 1) || s.e.updateFails
  }

  /** Wherever a run puts out its close datagram, that is within the limit. */
  predicate Tight(l: Life, ss: seq<Step>)
    requires StepsOk(ss)
    decreases |ss|
  {
    ss == [] || ((Silent(l, ss[0]) || CloseWithinLimit(l, ss[0].e)) && Tight(Next(l, ss[0]).0, ss[1..]))
  }

  /** A closed connection stays as it is but for repeated ConnectionClose events, sends nothing and takes nothing in. */
  lemma {:induction false} ClosedForever(l: Life, ss: seq<Step>)
    requires StepsOk(ss) && l.state.ConnClosed?
    ensures Run(l, ss).(closed := l.closed) == l && Wire(l, ss) == 0 && Arrived(l, ss) == 0 && Tight(l, ss)
    decreases |ss|
  {
    hide CloseBytes, CloseLevel, CloseWithinLimit;
    if ss != [] {
      ClosedForever(Next(l, ss[0]).0, ss[1..]);
    }
  }

  /**
   When a timer closes a connection: a draining one silently once the draining period has passed
   since the last datagram, any other with a ConnectionClose event once the idle time has.
   Nothing else about the connection changes.
   */
  lemma TimeoutExactly(l: Life, now: nat, drainPeriod: nat, idle: Option<nat>)
    requires !l.state.ConnClosed?
    ensures var m := TimedOut(l, now, drainPeriod, idle);
            var wait := if l.state == Draining then Some(drainPeriod) else idle;
            && (m.state == ConnClosed <==> wait.Some? && (wait.value == 0 || l.lastActivity + wait.value <= now))
            && (m.state != ConnClosed ==> m == l)
            && (m.state == ConnClosed ==>
                  m == l.(state := ConnClosed, closed := if l.state == Draining then l.closed else l.closed + 1))
  {
  }

  /** A closed connection pushes ConnectionClose again exactly when its idle time is over once more. */
  lemma IdleAgain(l: Life, now: nat, drainPeriod: nat, idle: Option<nat>)
    requires l.state.ConnClosed?
    ensures TimedOut(l, now, drainPeriod, idle).closed == l.closed + 1
            <==> idle.Some? && SaturatingSub(now, l.lastActivity) >= idle.value
  {
  }

  /** A connection that should send but cannot renew its exhausted keys is closed and sends nothing. */
  lemma FailedUpdateCloses(l: Life, e: Env)
    requires EnvOk(e) && !l.state.ConnClosed? && e.updateFails
    ensures Polled(l, e) == if l.validated || l.sent + 1 <= 3 * l.received then (l.(state := ConnClosed), 0) else (l, 0)
  {
  }

  /** A server sent its close, without regard to the limit. */
  predicate SaidGoodbye(l: Life) { l.state.ConnClosed? && l.close.Some? }

  /** One step's effect on the counts, short of overflow. */
  lemma StepCounts(l: Life, s: Step)
    requires StepOk(s) && Invariant(l) && !l.validated && !l.state.ConnClosed?
    requires 3 * (l.received + Arrived(l, [s])) <= USIZE_MAX
    ensures var (m, n) := Next(l, s);
            && m.received == l.received + (if s.Recv? then s.len else 0)
            && (n == 0 ==> m.sent == l.sent) && (s.Recv? ==> n == 0)
            && (n > 0 && l.close.None? ==> m.sent == l.sent + n <= 3 * l.received)
            && (n > 0 && l.close.Some? ==> SaidGoodbye(m) && n <= 146 && l.sent < 3 * l.received)
            && (Silent(l, s) || CloseWithinLimit(l, s.e) <==> l.close.None? || AmplificationAllows(l, n))
  {
    hide CloseBytes, CloseLevel;
    match s
    case Recv(len, now, hs) =>
      assert Arrived(l, [s]) == len;
      HappensOnward(Counted(l, len, now), hs);
    case Poll(e) =>
      if l.close.Some? && CloseLevel(e.keys).Some? {
        CloseIsShort(CloseLevel(e.keys).value, e, l.close.value.0, l.close.value.1);
      }
    case _ =>
  }

  /**
   The anti-amplification limit of section 8.1 of RFC 9000 over any run: until the address is
   validated a server sends at most three times what it received, except that its one close
   datagram, of at most 146 bytes and the last it sends, may go over. It does exactly when the
   check made for every other datagram would have held it back.
   */
  lemma {:induction false} AmplificationRun(l: Life, ss: seq<Step>)
    requires StepsOk(ss) && Invariant(l) && !l.validated
    requires 3 * (l.received + Arrived(l, ss)) <= USIZE_MAX
    ensures l.sent + Wire(l, ss) <= 3 * (l.received + Arrived(l, ss)) + if SaidGoodbye(Run(l, ss)) then 146 else 0
    ensures l.sent + Wire(l, ss) <= 3 * (l.received + Arrived(l, ss)) <==> Tight(l, ss)
    decreases |ss|
  {
    hide Next, Invariant, Silent, CloseWithinLimit;
    if l.state.ConnClosed? {
      ClosedForever(l, ss);
      InvariantLimit(l);
    } else if ss == [] {
      InvariantLimit(l);
    } else {
      var (m, n) := Next(l, ss[0]);
      StepOnward(l, ss[0]);
      ArrivedFirst(l, ss);
      StepCounts(l, ss[0]);
      InvariantLimit(l);
      if m.state.ConnClosed? {
        ClosedForever(m, ss[1..]);
      } else if m.validated {
        NothingCounted(m, ss[1..]);
      } else {
        AmplificationRun(m, ss[1..]);
      }
    }
  }

  lemma InvariantLimit(l: Life)
    requires Invariant(l) && !l.validated
    ensures l.sent <= 3 * l.received
  {
  }

  lemma ArrivedFirst(l: Life, ss: seq<Step>)
    requires StepsOk(ss) && ss != []
    ensures Arrived(l, ss) == Arrived(l, [ss[0]]) + Arrived(Next(l, ss[0]).0, ss[1..])
  {
    hide Next;
    assert [ss[0]][1..] == [];
  }

  lemma {:induction false} NothingCounted(l: Life, ss: seq<Step>)
    requires StepsOk(ss) && Invariant(l) && l.validated
    ensures Wire(l, ss) == 0 && Arrived(l, ss) == 0 && Tight(l, ss)
    decreases |ss|
  {
    hide Next, Invariant, Silent, CloseLevel, CloseBytes;
    if ss != [] {
      StepOnward(l, ss[0]);
      NothingCounted(Next(l, ss[0]).0, ss[1..]);
    }
  }

  lemma AmplificationBound(ss: seq<Step>)
    requires StepsOk(ss) && 3 * Arrived(Fresh(false), ss) <= USIZE_MAX
    ensures Wire(Fresh(false), ss) <= 3 * Arrived(Fresh(false), ss) + if SaidGoodbye(Run(Fresh(false), ss)) then 146 else 0
    ensures Wire(Fresh(false), ss) <= 3 * Arrived(Fresh(false), ss) <==> Tight(Fresh(false), ss)
  {
    AmplificationRun(Fresh(false), ss);
  }

  /** The limit itself is not kept: one byte in, then a close, puts 30 bytes out. */
  lemma CloseGoesOver() returns (ss: seq<Step>)
    ensures StepsOk(ss) && Wire(Fresh(false), ss) == 30 && Arrived(Fresh(false), ss) == 1
  {
    hide CloseBytes, CloseLevel;
    var env := Env(false, {Initial}, [], [], 1, 1200, 0);
    ss := [Recv(1, 0, []), Close(0, []), Poll(env)];
    var l0 := Fresh(false);
    var l1 := l0.(received := 1);
    var l2 := l1.(close := Some((0, [])), state := Closing);
    ThirtyBytes(env);
    assert ss[1..] == [ss[1], ss[2]] && ss[1..][1..] == [ss[2]] && [ss[2]][1..] == [];
    assert Next(l0, ss[0]).0 == l1 && Next(l1, ss[1]).0 == l2 && Next(l2, ss[2]).1 == 30;
    assert Wire(l2, [ss[2]]) == 30 && Arrived(l2, [ss[2]]) == 0;
    assert Wire(l1, ss[1..]) == 30 && Arrived(l1, ss[1..]) == 0;
    assert StepsOk(ss) && Wire(l0, ss) == 30 && Arrived(l0, ss) == 1;
  }

  lemma ThirtyBytes(e: Env)
    requires e == Env(false, {Initial}, [], [], 1, 1200, 0)
    ensures CloseLevel(e.keys) == Some(Initial) && CloseBytes(Initial, e, 0, [], false) == 30
  {
    hide FrameBytes, Encodable;
    CloseFrameSize(0, []);
  }
}
