/**
 The 1-RTT key update protocol (section 6 of RFC 9001) as two endpoints run it over a
 network that drops, duplicates, reorders and re-addresses packets.

 A traffic secret is identified with its generation number: generation 0 is what TLS
 hands out and each "quic ku" derivation adds one. The AEAD is ideal: a ciphertext opens
 only under the direction, generation, packet number and header it was sealed with.
 */
module KeyUpdate {
  import opened Bytes

  const AEAD_CONFIDENTIALITY_LIMIT: nat := 0x80_0000

  /** What a `ConnectionKeys` object holds for the Application level. */
  datatype Keys = Keys(
    appSend: Option<nat>,
    appRecv: Option<nat>,
    prevRecv: Option<nat>,
    sendSecret: nat,
    recvSecret: nat,
    secretLen: nat,
    keyPhase: nat,
    updateConfirmed: bool,
    packetsEncrypted: nat,
    packetsDecrypted: nat)
  {
    predicate CanInitiate() {
      appSend.Some? && appRecv.Some? && updateConfirmed && secretLen > 0
    }

    predicate NeedsUpdate() {
      && CanInitiate()
      && (packetsEncrypted >= AEAD_CONFIDENTIALITY_LIMIT || packetsDecrypted >= AEAD_CONFIDENTIALITY_LIMIT)
    }
  }

  /** A sealed packet: who sealed it, under which generation and number, and the phase bit it authenticates. */
  datatype Sealed = Sealed(from: Side, gen: nat, pn: nat, phase: nat)

  datatype Side = Client | Server {
    function Peer(): Side { if Client? then Server else Client }
  }

  /** Ideal AEAD: `c` opens under this key, number and header only. */
  predicate Opens(c: Sealed, from: Side, gen: nat, pn: nat, phase: nat) {
    c == Sealed(from, gen, pn, phase)
  }

  /** The mutable key state of one connection. */
  class ConnectionKeys {
    var appSend: Option<nat>
    var appRecv: Option<nat>
    var prevRecv: Option<nat>
    var sendSecret: nat
    var recvSecret: nat
    var secretLen: nat
    var keyPhase: nat
    var updateConfirmed: bool
    var packetsEncrypted: nat
    var packetsDecrypted: nat

    function Value(): Keys
      reads this
    {
      Keys(appSend, appRecv, prevRecv, sendSecret, recvSecret, secretLen, keyPhase,
           updateConfirmed, packetsEncrypted, packetsDecrypted)
    }

    constructor ()
      ensures Value() == NoKeys()
    {
      appSend, appRecv, prevRecv := None, None, None;
      sendSecret, recvSecret, secretLen, keyPhase := 0, 0, 0, 0;
      updateConfirmed := true;
      packetsEncrypted, packetsDecrypted := 0, 0;
    }

    /** TLS has derived the Application secrets; `len` is 32 or 48. */
    method InstallDerived(len: nat)
      requires len > 0
      modifies this
      ensures Value() == Installed(old(Value()), len)
    {
      appSend, appRecv := Some(0), Some(0);
      sendSecret, recvSecret, secretLen := 0, 0, len;
      keyPhase := 0;
      updateConfirmed := true;
    }

    method PerformKeyUpdate() returns (r: Result<()>)
      modifies this
      ensures r.Ok? <==> old(Value()).CanInitiate()
      ensures r.Ok? ==> Value() == Initiated(old(Value()))
      ensures r.Err? ==> Value() == old(Value()) && r.error == KeyUpdateError
    {
      if !Value().CanInitiate() {
        return Err(KeyUpdateError);
      }
      var newSend, newRecv := sendSecret + 1, recvSecret + 1;
      prevRecv := appRecv;
      appSend, appRecv := Some(newSend), Some(newRecv);
      sendSecret, recvSecret := newSend, newRecv;
      keyPhase := (keyPhase + 1) % 2;
      updateConfirmed := false;
      packetsEncrypted, packetsDecrypted := 0, 0;
      return Ok(());
    }

    method ConfirmPeerKeyUpdate(newRecv: nat)
      requires newRecv == recvSecret + 1
      modifies this
      ensures Value() == Followed(old(Value()))
    {
      var newSend := sendSecret + 1;
      prevRecv := appRecv;
      appSend, appRecv := Some(newSend), Some(newRecv);
      sendSecret, recvSecret := newSend, recvSecret + 1;
      keyPhase := (keyPhase + 1) % 2;
      updateConfirmed := true;
      packetsEncrypted, packetsDecrypted := 0, 1;
    }

    /**
     The key-phase part of `recv_short`: open `c`, which arrived from `from` with the
     header bits `phase` and `pn`. `Ok(g)` reports the generation of the key that opened it.
     */
    method OpenShort(from: Side, phase: nat, pn: nat, c: Sealed) returns (r: Result<nat>)
      modifies this
      ensures r == Receive(old(Value()), from, phase, pn, c).1
      ensures Value() == Receive(old(Value()), from, phase, pn, c).0
    {
      if appRecv.None? {
        return Err(Crypto);
      }
      if phase == keyPhase {
        if Opens(c, from, appRecv.value, pn, phase) {
          packetsDecrypted := packetsDecrypted + 1;
          if !updateConfirmed {
            updateConfirmed := true;
          }
          return Ok(appRecv.value);
        }
        if prevRecv.Some? && Opens(c, from, prevRecv.value, pn, phase) {
          return Ok(prevRecv.value);
        }
        return Err(Crypto);
      }
      if secretLen == 0 {
        return Err(Crypto);
      }
      var next := recvSecret + 1;
      if !Opens(c, from, next, pn, phase) {
        return Err(Crypto);
      }
      ConfirmPeerKeyUpdate(next);
      return Ok(next);
    }

    /** The part of `poll_transmit` and `build_short_packet` that seals one 1-RTT packet. */
    method SealShort(from: Side, pn: nat) returns (c: Option<Sealed>)
      modifies this
      ensures c == Seal(old(Value()), from, pn).1
      ensures Value() == Seal(old(Value()), from, pn).0
    {
      if Value().NeedsUpdate() {
        var _ := PerformKeyUpdate();
      }
      if appSend.None? {
        return None;
      }
      c := Some(Sealed(from, appSend.value, pn, keyPhase % 2));
      packetsEncrypted := packetsEncrypted + 1;
    }
  }

  function NoKeys(): Keys { Keys(None, None, None, 0, 0, 0, 0, true, 0, 0) }

  function Installed(k: Keys, len: nat): Keys {
    k.(appSend := Some(0), appRecv := Some(0), sendSecret := 0, recvSecret := 0,
       secretLen := len, keyPhase := 0, updateConfirmed := true)
  }

  /** Both directions move one generation further and the current read key becomes the previous one. */
  function Rotated(k: Keys): Keys {
    k.(appSend := Some(k.sendSecret + 1), appRecv := Some(k.recvSecret + 1), prevRecv := k.appRecv,
       sendSecret := k.sendSecret + 1, recvSecret := k.recvSecret + 1,
       keyPhase := (k.keyPhase + 1) % 2, packetsEncrypted := 0)
  }

  function Initiated(k: Keys): Keys { Rotated(k).(updateConfirmed := false, packetsDecrypted := 0) }

  function Followed(k: Keys): Keys { Rotated(k).(updateConfirmed := true, packetsDecrypted := 1) }

  function Receive(k: Keys, from: Side, phase: nat, pn: nat, c: Sealed): (Keys, Result<nat>) {
    if k.appRecv.None? then (k, Err(Crypto))
    else if phase == k.keyPhase then
      if Opens(c, from, k.appRecv.value, pn, phase) then
        (k.(updateConfirmed := true, packetsDecrypted := k.packetsDecrypted + 1), Ok(k.appRecv.value))
      else if k.prevRecv.Some? && Opens(c, from, k.prevRecv.value, pn, phase) then (k, Ok(k.prevRecv.value))
      else (k, Err(Crypto))
    else if k.secretLen > 0 && Opens(c, from, k.recvSecret + 1, pn, phase) then
      (Followed(k), Ok(k.recvSecret + 1))
    else (k, Err(Crypto))
  }

  function Seal(k: Keys, from: Side, pn: nat): (Keys, Option<Sealed>) {
    SealWith(if k.NeedsUpdate() then Initiated(k) else k, from, pn)
  }

  function SealWith(k: Keys, from: Side, pn: nat): (Keys, Option<Sealed>) {
    if k.appSend.None? then (k, None)
    else (k.(packetsEncrypted := k.packetsEncrypted + 1), Some(Sealed(from, k.appSend.value, pn, k.keyPhase % 2)))
  }

  // --------------------------------------------------------------------------------
  // Two endpoints and a network
  // --------------------------------------------------------------------------------

  datatype Endpoint = Endpoint(keys: Keys, nextPn: nat)

  /** `sent` is everything ever put on the wire; nothing leaves it, so any packet may arrive late or repeatedly. */
  datatype System = System(client: Endpoint, server: Endpoint, sent: set<Sealed>) {
    function At(s: Side): Endpoint { if s.Client? then client else server }
    function With(s: Side, e: Endpoint): System {
      if s.Client? then this.(client := e) else this.(server := e)
    }
    function Gen(s: Side): nat { At(s).keys.recvSecret }
  }

  /**
   `Initiate` is the application's `initiate_key_update`; `Poll` is a `poll_transmit` that
   emits a 1-RTT packet, a closing one included; `Deliver` hands any ciphertext seen so
   far to either side under any header bits, so the network may also splice and reflect.
   */
  datatype Step =
    | Install(side: Side, len: nat)
    | Initiate(side: Side)
    | Poll(side: Side)
    | Deliver(to: Side, phase: nat, pn: nat, c: Sealed)

  function Init(): System { System(Endpoint(NoKeys(), 0), Endpoint(NoKeys(), 0), {}) }

  /** What each step needs: TLS derives the Application secrets once; only what was sent can arrive. */
  predicate Enabled(s: System, step: Step) {
    match step
    case Install(side, len) => len > 0 && s.At(side).keys.secretLen == 0
    case Initiate(side) => true
    case Poll(side) => true
    case Deliver(to, phase, pn, c) => c in s.sent
  }

  function Apply(s: System, step: Step): System {
    match step
    case Install(side, len) =>
      var e := s.At(side);
      s.With(side, e.(keys := Installed(e.keys, len)))
    case Initiate(side) =>
      var e := s.At(side);
      if e.keys.CanInitiate() then s.With(side, e.(keys := Initiated(e.keys))) else s
    case Poll(side) =>
      var e := s.At(side);
      var (k, c) := Seal(e.keys, side, e.nextPn);
      if c.None? then s.With(side, e.(keys := k))
      else s.With(side, Endpoint(k, e.nextPn + 1)).(sent := s.sent + {c.value})
    case Deliver(to, phase, pn, c) =>
      var e := s.At(to);
      s.With(to, e.(keys := Receive(e.keys, to.Peer(), phase, pn, c).0))
  }

  predicate IsRun(s: System, steps: seq<Step>)
    decreases |steps|
  {
    steps == [] || (Enabled(s, steps[0]) && IsRun(Apply(s, steps[0]), steps[1..]))
  }

  function Final(s: System, steps: seq<Step>): System
    decreases |steps|
  {
    if steps == [] then s else Final(Apply(s, steps[0]), steps[1..])
  }

  ghost predicate Reachable(s: System) {
    exists steps :: IsRun(Init(), steps) && Final(Init(), steps) == s
  }

  // --------------------------------------------------------------------------------
  // The invariant
  // --------------------------------------------------------------------------------

  predicate WellKeyed(k: Keys) {
    && k.sendSecret == k.recvSecret
    && k.keyPhase == k.recvSecret % 2
    && (if k.secretLen > 0 then k.appSend == k.appRecv == Some(k.recvSecret)
        else k.appSend.None? && k.appRecv.None? && k.recvSecret == 0 && k.updateConfirmed)
    && k.prevRecv == (if k.recvSecret == 0 then None else Some(k.recvSecret - 1))
  }

  ghost predicate Inv(s: System) {
    && WellKeyed(s.client.keys) && WellKeyed(s.server.keys)
    && s.Gen(Client) <= s.Gen(Server) + 1 && s.Gen(Server) <= s.Gen(Client) + 1
    && (s.client.keys.updateConfirmed ==> s.Gen(Client) <= s.Gen(Server))
    && (s.server.keys.updateConfirmed ==> s.Gen(Server) <= s.Gen(Client))
    && (forall c :: c in s.sent ==>
          c.gen <= s.Gen(c.from) && c.phase == c.gen % 2 && c.pn < s.At(c.from).nextPn)
    && (forall c, d :: c in s.sent && d in s.sent && c.from == d.from && c.pn == d.pn ==> c == d)
  }

  lemma InvInitiate(s: System, side: Side)
    requires Inv(s)
    ensures Inv(Apply(s, Initiate(side)))
  {
  }

  /** The second half of a `Poll`, once any automatic update has happened. */
  function Emit(s: System, side: Side): System {
    var e := s.At(side);
    var (k, c) := SealWith(e.keys, side, e.nextPn);
    if c.None? then s.With(side, e.(keys := k))
    else s.With(side, Endpoint(k, e.nextPn + 1)).(sent := s.sent + {c.value})
  }

  lemma InvEmit(s: System, side: Side)
    requires Inv(s)
    ensures Inv(Emit(s, side))
  {
    var e := s.At(side);
    var (k, c) := SealWith(e.keys, side, e.nextPn);
    assert WellKeyed(k) && (c.Some? ==> c.value.gen == k.recvSecret && c.value.phase == k.recvSecret % 2);
    hide WellKeyed, SealWith;
    assert c.Some? ==> c.value !in s.sent;
  }

  lemma InvPoll(s: System, side: Side)
    requires Inv(s)
    ensures Inv(Apply(s, Poll(side)))
  {
    var mid := if s.At(side).keys.NeedsUpdate() then Apply(s, Initiate(side)) else s;
    InvInitiate(s, side);
    InvEmit(mid, side);
    assert Apply(s, Poll(side)) == Emit(mid, side);
  }

  lemma InvDeliver(s: System, to: Side, phase: nat, pn: nat, c: Sealed)
    requires Inv(s) && c in s.sent
    ensures Inv(Apply(s, Deliver(to, phase, pn, c)))
  {
    InvAccepts(s, to, phase, pn, c);
    ReceiveKeeps(s.At(to).keys, to.Peer(), phase, pn, c);
    hide Receive, WellKeyed;
  }

  /** What receiving can do to the keys of one side. */
  lemma ReceiveKeeps(k: Keys, from: Side, phase: nat, pn: nat, c: Sealed)
    requires WellKeyed(k)
    ensures var k' := Receive(k, from, phase, pn, c).0;
            && WellKeyed(k')
            && k.recvSecret <= k'.recvSecret
            && (k'.recvSecret == k.recvSecret && !Receive(k, from, phase, pn, c).1.Ok? ==> k' == k)
  {
  }

  lemma InvStep(s: System, step: Step)
    requires Inv(s) && Enabled(s, step)
    ensures Inv(Apply(s, step))
  {
    match step
    case Install(side, len) =>
    case Initiate(side) => InvInitiate(s, side);
    case Poll(side) => InvPoll(s, side);
    case Deliver(to, phase, pn, c) => InvDeliver(s, to, phase, pn, c);
  }

  lemma {:induction false} InvRun(s: System, steps: seq<Step>)
    requires Inv(s) && IsRun(s, steps)
    ensures Inv(Final(s, steps))
    decreases |steps|
  {
    if steps != [] {
      InvStep(s, steps[0]);
      InvRun(Apply(s, steps[0]), steps[1..]);
    }
  }

  lemma ReachableInv(s: System)
    requires Reachable(s)
    ensures Inv(s)
  {
    var steps :| IsRun(Init(), steps) && Final(Init(), steps) == s;
    InvRun(Init(), steps);
  }

  // --------------------------------------------------------------------------------
  // What every run guarantees
  // --------------------------------------------------------------------------------

  /** Generations stay within one of each other, a confirmed side is never ahead, the phase bit is the parity. */
  lemma GenerationsAgree(s: System, side: Side)
    requires Reachable(s)
    ensures s.Gen(side) <= s.Gen(side.Peer()) + 1
    ensures s.At(side).keys.updateConfirmed ==> s.Gen(side) <= s.Gen(side.Peer())
    ensures s.At(side).keys.keyPhase == s.Gen(side) % 2
    ensures s.At(side).keys.secretLen > 0 ==> s.At(side).keys.appSend == s.At(side).keys.appRecv == Some(s.Gen(side))
    ensures s.At(side).keys.prevRecv == if s.Gen(side) == 0 then None else Some(s.Gen(side) - 1)
  {
    ReachableInv(s);
  }

  /**
   Which packets are accepted, exactly: the peer's own, under the header it was sealed
   with, sealed at our generation or a later one. The key used is the sealing generation,
   and it is the generation we are on afterwards, so the previous key opens nothing and a
   packet of an earlier generation is always lost.
   */
  lemma AcceptedExactly(s: System, to: Side, phase: nat, pn: nat, c: Sealed)
    requires Reachable(s) && c in s.sent
    ensures var (k, r) := Receive(s.At(to).keys, to.Peer(), phase, pn, c);
            && (r.Ok? <==>
                  && s.At(to).keys.secretLen > 0
                  && c.from == to.Peer() && phase == c.phase && pn == c.pn
                  && c.gen >= s.Gen(to))
            && (r.Ok? ==> r.value == c.gen && k.recvSecret == c.gen)
            && (r.Err? ==> k == s.At(to).keys)
  {
    ReachableInv(s);
    InvAccepts(s, to, phase, pn, c);
  }

  lemma InvAccepts(s: System, to: Side, phase: nat, pn: nat, c: Sealed)
    requires Inv(s) && c in s.sent
    ensures var (k, r) := Receive(s.At(to).keys, to.Peer(), phase, pn, c);
            && (r.Ok? <==>
                  && s.At(to).keys.secretLen > 0
                  && c.from == to.Peer() && phase == c.phase && pn == c.pn
                  && c.gen >= s.Gen(to))
            && (r.Ok? ==> r.value == c.gen && k.recvSecret == c.gen)
            && (r.Ok? ==> k.updateConfirmed && k.secretLen == s.At(to).keys.secretLen)
            && (r.Err? ==> k == s.At(to).keys)
  {
  }

  /** The previous read key is kept, and the late packet it is kept for is refused all the same. */
  lemma LatePacketRefused() returns (s: System, c: Sealed)
    ensures Reachable(s) && c in s.sent && c.from == Client
    ensures s.server.keys.prevRecv == Some(c.gen)
    ensures Receive(s.server.keys, Client, c.phase, c.pn, c).1.Err?
  {
    hide Reachable;
    ReachInit();
    ReachStep(Init(), Install(Client, 32));
    var s1 := Apply(Init(), Install(Client, 32));
    ReachStep(s1, Install(Server, 32));
    var s2 := Apply(s1, Install(Server, 32));
    ReachStep(s2, Poll(Client));
    var s3 := Apply(s2, Poll(Client));
    ReachStep(s3, Initiate(Server));
    s, c := Apply(s3, Initiate(Server)), Sealed(Client, 0, 0, 0);
  }

  /** A packet the side seals now, and the state after it. */
  ghost predicate Sends(s: System, side: Side, c: Sealed, s': System) {
    s' == Apply(s, Poll(side)) && Seal(s.At(side).keys, side, s.At(side).nextPn).1 == Some(c)
  }

  /** One packet sent and delivered: the receiver ends on the later of the two generations. */
  lemma OneHop(s: System, x: Side, c: Sealed, s1: System)
    requires Inv(s)
    requires s.client.keys.secretLen > 0 && s.server.keys.secretLen > 0
    requires Sends(s, x, c, s1)
    ensures var t := Apply(s1, Deliver(x.Peer(), c.phase, c.pn, c));
            && Inv(t)
            && t.client.keys.secretLen > 0 && t.server.keys.secretLen > 0
            && t.Gen(x) == c.gen >= s.Gen(x)
            && t.Gen(x.Peer()) == Max(s.Gen(x.Peer()), c.gen)
            && (t.Gen(x.Peer()) == c.gen ==> t.At(x.Peer()).keys.updateConfirmed)
  {
    SealsAtOwnGeneration(s, x, c, s1);
    InvDeliver(s1, x.Peer(), c.phase, c.pn, c);
    InvAccepts(s1, x.Peer(), c.phase, c.pn, c);
  }

  lemma SealsAtOwnGeneration(s: System, x: Side, c: Sealed, s1: System)
    requires Inv(s) && Sends(s, x, c, s1)
    ensures Inv(s1) && c in s1.sent
    ensures c.from == x && c.gen == s1.Gen(x) >= s.Gen(x)
    ensures s1.At(x.Peer()) == s.At(x.Peer()) && s1.At(x).keys.secretLen == s.At(x).keys.secretLen
  {
    InvPoll(s, x);
  }

  /** From any reachable state with keys on both sides, one packet each way brings both to one generation. */
  lemma RoundTripSynchronises(s: System, x: Side, c: Sealed, s1: System, d: Sealed, s2: System)
    requires Reachable(s)
    requires s.client.keys.secretLen > 0 && s.server.keys.secretLen > 0
    requires Sends(s, x, c, s1)
    requires Sends(Apply(s1, Deliver(x.Peer(), c.phase, c.pn, c)), x.Peer(), d, s2)
    ensures var s3 := Apply(s2, Deliver(x, d.phase, d.pn, d));
            && s3.Gen(x) == s3.Gen(x.Peer()) && s3.At(x).keys.updateConfirmed
  {
    ReachableInv(s);
    OneHop(s, x, c, s1);
    OneHop(Apply(s1, Deliver(x.Peer(), c.phase, c.pn, c)), x.Peer(), d, s2);
  }

  /** No two packets of one side ever carry the same number, whatever generations sealed them. */
  lemma PacketNumbersUnique(s: System, c: Sealed, d: Sealed)
    requires Reachable(s) && c in s.sent && d in s.sent
    requires c.from == d.from && c.pn == d.pn
    ensures c == d
  {
    ReachableInv(s);
  }

  /** A key seals past the confidentiality limit exactly when it is at the limit and its update is unconfirmed. */
  lemma LimitPassedOnlyUnconfirmed(s: System, side: Side)
    requires Reachable(s) && s.At(side).keys.secretLen > 0
    ensures var k := s.At(side).keys;
            Seal(k, side, s.At(side).nextPn).0.packetsEncrypted > AEAD_CONFIDENTIALITY_LIMIT
            <==> k.packetsEncrypted >= AEAD_CONFIDENTIALITY_LIMIT && !k.updateConfirmed
  {
    ReachableInv(s);
  }

  /** And nothing bounds it then: a side whose update the peer never answers seals any number of packets under one key. */
  lemma LimitUnbounded(n: nat)
    ensures exists s :: Reachable(s) && s.client.keys.packetsEncrypted == n && s.Gen(Client) == 1
  {
    var s := Unanswered(n);
  }

  lemma {:induction false} Unanswered(n: nat) returns (s: System)
    ensures Reachable(s) && s.client.keys.packetsEncrypted == n && s.Gen(Client) == 1
    ensures WellKeyed(s.client.keys) && s.client.keys.secretLen > 0 && !s.client.keys.updateConfirmed
  {
    if n == 0 {
      ReachInit();
      ReachStep(Init(), Install(Client, 32));
      s := Apply(Init(), Install(Client, 32));
      ReachStep(s, Initiate(Client));
      s := Apply(s, Initiate(Client));
    } else {
      s := Unanswered(n - 1);
      ReachStep(s, Poll(Client));
      s := Apply(s, Poll(Client));
    }
  }

  // --------------------------------------------------------------------------------
  // What the counters count
  // --------------------------------------------------------------------------------

  /** The step opens a packet at `side` with the key of generation `gen`. */
  predicate OpensNow(s: System, step: Step, side: Side, gen: nat) {
    && step.Deliver? && step.to == side
    && Receive(s.At(side).keys, side.Peer(), step.phase, step.pn, step.c).1 == Ok(gen)
  }

  /** The step seals a packet of `side` with the key of generation `gen`. */
  predicate SealsNow(s: System, step: Step, side: Side, gen: nat) {
    && step == Poll(side)
    && var c := Seal(s.At(side).keys, side, s.At(side).nextPn).1; c.Some? && c.value.gen == gen
  }

  /** How many packets a run opens at `side` with the key of `gen`. */
  function OpenedUnder(s: System, steps: seq<Step>, side: Side, gen: nat): nat
    decreases |steps|
  {
    if steps == [] then 0
    else (if OpensNow(s, steps[0], side, gen) then 1 else 0) + OpenedUnder(Apply(s, steps[0]), steps[1..], side, gen)
  }

  /** How many packets a run seals at `side` with the key of `gen`. */
  function SealedUnder(s: System, steps: seq<Step>, side: Side, gen: nat): nat
    decreases |steps|
  {
    if steps == [] then 0
    else (if SealsNow(s, steps[0], side, gen) then 1 else 0) + SealedUnder(Apply(s, steps[0]), steps[1..], side, gen)
  }

  /** One step's effect on the two counters: they count for the generation the side is on afterwards. */
  ghost predicate Counted(s: System, step: Step, side: Side, gen: nat) {
    var t := Apply(s, step);
    var k, k' := s.At(side).keys, t.At(side).keys;
    && s.Gen(side) <= t.Gen(side)
    && k'.packetsDecrypted == (if t.Gen(side) == s.Gen(side) then k.packetsDecrypted else 0)
                              + (if OpensNow(s, step, side, t.Gen(side)) then 1 else 0)
    && k'.packetsEncrypted == (if t.Gen(side) == s.Gen(side) then k.packetsEncrypted else 0)
                              + (if SealsNow(s, step, side, t.Gen(side)) then 1 else 0)
    && (OpensNow(s, step, side, gen) || SealsNow(s, step, side, gen) ==> gen == t.Gen(side))
  }

  lemma DeliverCounts(s: System, to: Side, phase: nat, pn: nat, c: Sealed, side: Side, gen: nat)
    requires Inv(s) && c in s.sent
    ensures Counted(s, Deliver(to, phase, pn, c), side, gen)
  {
    InvAccepts(s, to, phase, pn, c);
  }

  lemma PollCounts(s: System, x: Side, side: Side, gen: nat)
    requires WellKeyed(s.At(x).keys)
    ensures Counted(s, Poll(x), side, gen)
  {
  }

  lemma StepCounts(s: System, step: Step, side: Side, gen: nat)
    requires Inv(s) && Enabled(s, step)
    ensures Counted(s, step, side, gen)
  {
    hide Receive, Seal;
    match step
    case Install(_, _) =>
    case Initiate(_) =>
    case Poll(x) => PollCounts(s, x, side, gen);
    case Deliver(to, phase, pn, c) => DeliverCounts(s, to, phase, pn, c, side, gen);
  }

  lemma {:induction false} CountsRun(s: System, steps: seq<Step>, side: Side)
    requires Inv(s) && IsRun(s, steps)
    ensures var t := Final(s, steps);
            var k, k' := s.At(side).keys, t.At(side).keys;
            && s.Gen(side) <= t.Gen(side)
            && k'.packetsDecrypted == (if t.Gen(side) == s.Gen(side) then k.packetsDecrypted else 0)
                                      + OpenedUnder(s, steps, side, t.Gen(side))
            && k'.packetsEncrypted == (if t.Gen(side) == s.Gen(side) then k.packetsEncrypted else 0)
                                      + SealedUnder(s, steps, side, t.Gen(side))
    decreases |steps|
  {
    hide Inv, Enabled, Apply, OpensNow, SealsNow;
    if steps != [] {
      InvStep(s, steps[0]);
      CountsRun(Apply(s, steps[0]), steps[1..], side);
      StepCounts(s, steps[0], side, Final(s, steps).Gen(side));
    }
  }

  /** After every run the counters are the packets sealed, and opened, under the key in use. */
  lemma CountsExactly(steps: seq<Step>, side: Side)
    requires IsRun(Init(), steps)
    ensures var s := Final(Init(), steps);
            && s.At(side).keys.packetsEncrypted == SealedUnder(Init(), steps, side, s.Gen(side))
            && s.At(side).keys.packetsDecrypted == OpenedUnder(Init(), steps, side, s.Gen(side))
  {
    CountsRun(Init(), steps, side);
  }

  /**
   The automatic update, exactly: the next packet is sealed one generation further if and only if
   the last update is confirmed and the key in use has sealed, or opened, its limit of packets.
   */
  lemma UpdatesExactly(steps: seq<Step>, side: Side)
    requires IsRun(Init(), steps) && Final(Init(), steps).At(side).keys.secretLen > 0
    ensures var s := Final(Init(), steps);
            var k, gen := s.At(side).keys, s.Gen(side);
            var due := || SealedUnder(Init(), steps, side, gen) >= AEAD_CONFIDENTIALITY_LIMIT
                       || OpenedUnder(Init(), steps, side, gen) >= AEAD_CONFIDENTIALITY_LIMIT;
            var c := Seal(k, side, s.At(side).nextPn).1;
            c.Some? && c.value.gen == if k.updateConfirmed && due then gen + 1 else gen
  {
    InvRun(Init(), steps);
    CountsExactly(steps, side);
    hide IsRun, Final, SealedUnder, OpenedUnder;
  }

  lemma ReachInit()
    ensures Reachable(Init())
  {
    assert IsRun(Init(), []) && Final(Init(), []) == Init();
  }

  lemma ReachStep(s: System, step: Step)
    requires Reachable(s) && Enabled(s, step)
    ensures Reachable(Apply(s, step))
  {
    var steps :| IsRun(Init(), steps) && Final(Init(), steps) == s;
    RunSnoc(Init(), steps, step);
  }

  lemma {:induction false} RunSnoc(s: System, a: seq<Step>, step: Step)
    requires IsRun(s, a) && Enabled(Final(s, a), step)
    ensures IsRun(s, a + [step]) && Final(s, a + [step]) == Apply(Final(s, a), step)
    decreases |a|
  {
    if a == [] {
      assert a + [step] == [step] && [step][1..] == [];
    } else {
      assert (a + [step])[1..] == a[1..] + [step];
      RunSnoc(Apply(s, a[0]), a[1..], step);
    }
  }
}
