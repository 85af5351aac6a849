/** The handshake of two sockets over two byte streams. */
module NoiseConnect {
  import opened Wrappers
  import opened Sequences
  import opened Noise
  import opened NoiseSocket

  /** The initiator's and the responder's socket and the bytes on their way to each. */
  datatype Pair = Pair(s0: Socket, s1: Socket, f0: Bytes, f1: Bytes)

  datatype HandshakeEvent =
    | Connect                            // the initiator's TCP socket has connected
    | Fragment(atInitiator: bool, n: nat)  // a fragment of at most `n` bytes arrives, if there is any
    | Callback(atInitiator: bool)            // a scheduled callback calls _onData

  /** What a socket has written since it was `before`. */
  function Written(before: Socket, after: Socket): Bytes {
    if |before.output| <= |after.output| then after.output[|before.output|..] else []
  }

  function Initiator(y: Pair, s: Socket): Pair {
    y.(s0 := s, f1 := y.f1 + Written(y.s0, s))
  }

  function Responder(y: Pair, s: Socket): Pair {
    y.(s1 := s, f0 := y.f0 + Written(y.s1, s))
  }

  function Step(c: Crypto, ok: PushOk, y: Pair, e: HandshakeEvent): Pair {
    match e
    case Connect => if y.s0.handshake == InitiatorInitiating then Initiator(y, InitiateHandshake(c, y.s0)) else y
    case Fragment(true, n) =>
      if n == 0 || y.f0 == [] then y else var (s, f) := Arrived(y.s0, y.f0, n); y.(s0 := s, f0 := f)
    case Fragment(false, n) =>
      if n == 0 || y.f1 == [] then y else var (s, f) := Arrived(y.s1, y.f1, n); y.(s1 := s, f1 := f)
    case Callback(true) => Initiator(y, Fired(c, ok, y.s0))
    case Callback(false) => Responder(y, Fired(c, ok, y.s1))
  }

  function Run(c: Crypto, ok: PushOk, y: Pair, events: seq<HandshakeEvent>): Pair
    decreases |events|
  {
    if events == [] then y else Run(c, ok, Step(c, ok, y, events[0]), events[1..])
  }

  function Start(i: State, r: State): Pair {
    Pair(New(i, Some(r.lpk)), New(r, None), [], [])
  }

  // ---------------------------------------------------------------- the acts of an honest handshake

  /** The states after each act and the messages. */
  datatype Acts = Acts(i1: State, m1: Bytes, r1: State, r2: State, m2: Bytes, i2: State, i3: State, m3: Bytes,
      r3: State)

  predicate Honest(c: Crypto, i: State, r: State, a: Acts) {
    && InitiatorAct1(c, i, r.lpk) == (a.i1, a.m1) && |a.m1| == ACT_BYTES
    && ReceiveAct1(c, r, a.m1).0 == a.r1 && ReceiveAct1(c, r, a.m1).1.Ok?
    && ReceiveAct2(c, a.r1) == (a.r2, a.m2) && |a.m2| == ACT_BYTES
    && InitiatorAct2(c, a.i1, a.m2).0 == a.i2 && InitiatorAct2(c, a.i1, a.m2).1.Ok?
    && InitiatorAct3(c, a.i2) == (a.i3, a.m3) && |a.m3| == ACT3_BYTES
    && ReceiveAct3(c, a.r2, a.m3).0 == a.r3 && ReceiveAct3(c, a.r2, a.m3).1.Ok?
  }

  lemma HonestActs(c: Crypto, i: State, r: State) returns (a: Acts)
    requires Commutes(c) && Seals(c) && Fresh(c, i) && Fresh(c, r)
    ensures Honest(c, i, r, a) && Handshake(c, i, r) == (a.i3, a.r3, true)
  {
    hide Commutes, Seals, Agree, Fresh, InitiatorAct1, ReceiveAct1, ReceiveAct2, InitiatorAct2, InitiatorAct3,
      ReceiveAct3;
    var (i1, m1) := InitiatorAct1(c, i, r.lpk);
    var (r1, o1) := ReceiveAct1(c, r, m1);
    Act1Agrees(c, i, r);
    FreshKept(c, i, i1);
    FreshKept(c, r, r1);
    var (r2, m2) := ReceiveAct2(c, r1);
    var (i2, o2) := InitiatorAct2(c, i1, m2);
    Act2Agrees(c, i1, r1);
    FreshKept(c, i1, i2);
    FreshKept(c, r1, r2);
    var (i3, m3) := InitiatorAct3(c, i2);
    var (r3, o3) := ReceiveAct3(c, r2, m3);
    Act3Agrees(c, i2, r2);
    a := Acts(i1, m1, r1, r2, m2, i2, i3, m3, r3);
  }

  // ---------------------------------------------------------------- what every step keeps

  datatype Phase = Idle | Act1Sent | Act2Sent | Act3Sent | Done

  /** A socket that has not been destroyed and has not pushed anything. */
  predicate Quiet(s: Socket, handshake: HandshakeState, st: State) {
    s.handshake == handshake && s.st == st && !s.destroyed && s.readState == ReadyForLen && s.messagesReceived == 0 &&
      s.pushed == []
  }

  /** The socket waits for `m`, of which some has arrived and some is on its way. */
  predicate Waits(s: Socket, f: Bytes, m: Bytes) {
    s.input + f == m && (s.callbacks == 0 ==> |s.input| < |m|)
  }

  predicate Rests(s: Socket, f: Bytes) {
    s.input == [] && f == []
  }

  predicate Inv(i: State, r: State, a: Acts, y: Pair, phase: Phase) {
    match phase
    case Idle => y == Start(i, r)
    case Act1Sent =>
      Quiet(y.s0, AwaitingResponderReply, a.i1) && Rests(y.s0, y.f0) &&
      Quiet(y.s1, AwaitingInitiator, r) && Waits(y.s1, y.f1, a.m1)
    case Act2Sent =>
      Quiet(y.s0, AwaitingResponderReply, a.i1) && Waits(y.s0, y.f0, a.m2) &&
      Quiet(y.s1, AwaitingInitiatorReply, a.r2) && Rests(y.s1, y.f1)
    case Act3Sent =>
      Quiet(y.s0, Ready, a.i3) && Rests(y.s0, y.f0) &&
      Quiet(y.s1, AwaitingInitiatorReply, a.r2) && Waits(y.s1, y.f1, a.m3)
    case Done =>
      Quiet(y.s0, Ready, a.i3) && Rests(y.s0, y.f0) &&
      Quiet(y.s1, Ready, a.r3) && Rests(y.s1, y.f1)
  }

  /** How many bytes a socket in the state reads at once. */
  function Wanted(h: HandshakeState): nat {
    match h
    case InitiatorInitiating => 0
    case AwaitingInitiator => ACT_BYTES
    case AwaitingResponderReply => ACT_BYTES
    case AwaitingInitiatorReply => ACT3_BYTES
    case Ready => LEN_BYTES
  }

  /** With too few bytes a callback does nothing. */
  lemma NothingToRead(c: Crypto, ok: PushOk, s: Socket)
    requires s.handshake != InitiatorInitiating && s.readState == ReadyForLen && |s.input| < Wanted(s.handshake)
    ensures OnData(c, ok, s) == s && Process(c, ok, s) == (s, false)
  {}

  lemma IdleFire(c: Crypto, ok: PushOk, s: Socket)
    requires s.handshake != InitiatorInitiating && s.readState == ReadyForLen && |s.input| < Wanted(s.handshake)
    ensures Fired(c, ok, s) == s.(callbacks := if s.callbacks == 0 then 0 else s.callbacks - 1) &&
      Written(s, Fired(c, ok, s)) == []
  {
    if s.callbacks > 0 { NothingToRead(c, ok, s.(callbacks := s.callbacks - 1)); }
  }

  /** A turn that reads everything there is, is the last one. */
  lemma OneTurn(c: Crypto, ok: PushOk, s: Socket)
    requires var next := Process(c, ok, s).0;
      next.handshake != InitiatorInitiating && next.readState == ReadyForLen && next.input == []
    ensures OnData(c, ok, s) == Process(c, ok, s).0
  {
    var (next, readMore) := Process(c, ok, s);
    if readMore { NothingToRead(c, ok, next); }
    hide Process;
  }

  lemma Whole<T>(s: seq<T>, n: nat)
    requires n == |s|
    ensures s[..n] == s && s[n..] == []
  {}

  lemma WrittenIs(before: Socket, after: Socket, m: Bytes)
    requires after.output == before.output + m
    ensures Written(before, after) == m
  {}

  /** The responder reads act 1 and answers with act 2. */
  lemma FireAct1(c: Crypto, ok: PushOk, i: State, r: State, a: Acts, s: Socket)
    requires Honest(c, i, r, a) && Quiet(s, AwaitingInitiator, r) && s.input == a.m1 && s.callbacks > 0
    ensures var s' := Fired(c, ok, s);
      Quiet(s', AwaitingInitiatorReply, a.r2) && s'.input == [] && Written(s, s') == a.m2
  {
    hide ReceiveAct1, ReceiveAct2, InitiatorAct1, InitiatorAct2, InitiatorAct3, ReceiveAct3;
    var b := s.(callbacks := s.callbacks - 1);
    Whole(s.input, ACT_BYTES);
    var next := Process(c, ok, b).0;
    assert next == b.(st := a.r2, input := [], output := s.output + a.m2, handshake := AwaitingInitiatorReply);
    OneTurn(c, ok, b);
    WrittenIs(s, next, a.m2);
  }

  /** The initiator reads act 2 and answers with act 3. */
  lemma FireAct2(c: Crypto, ok: PushOk, i: State, r: State, a: Acts, s: Socket)
    requires Honest(c, i, r, a) && Quiet(s, AwaitingResponderReply, a.i1) && s.input == a.m2 && s.callbacks > 0
    ensures var s' := Fired(c, ok, s);
      Quiet(s', Ready, a.i3) && s'.input == [] && Written(s, s') == a.m3
  {
    hide ReceiveAct1, ReceiveAct2, InitiatorAct1, InitiatorAct2, InitiatorAct3, ReceiveAct3;
    var b := s.(callbacks := s.callbacks - 1);
    Whole(s.input, ACT_BYTES);
    var next := Process(c, ok, b).0;
    assert next == b.(st := a.i3, input := [], output := s.output + a.m3, handshake := Ready);
    OneTurn(c, ok, b);
    WrittenIs(s, next, a.m3);
  }

  /** The responder reads act 3. */
  lemma FireAct3(c: Crypto, ok: PushOk, i: State, r: State, a: Acts, s: Socket)
    requires Honest(c, i, r, a) && Quiet(s, AwaitingInitiatorReply, a.r2) && s.input == a.m3 && s.callbacks > 0
    ensures var s' := Fired(c, ok, s);
      Quiet(s', Ready, a.r3) && s'.input == [] && Written(s, s') == []
  {
    hide ReceiveAct1, ReceiveAct2, InitiatorAct1, InitiatorAct2, InitiatorAct3, ReceiveAct3;
    var b := s.(callbacks := s.callbacks - 1);
    Whole(s.input, ACT3_BYTES);
    var next := Process(c, ok, b).0;
    assert next == b.(st := a.r3, input := [], handshake := Ready, rpk := a.r3.rpk);
    OneTurn(c, ok, b);
    WrittenIs(s, next, []);
  }

  lemma ArriveWaits(s: Socket, f: Bytes, n: nat, m: Bytes)
    requires Waits(s, f, m)
    ensures var (s', f') := Arrived(s, f, n); Waits(s', f', m)
  {
    var k := if n <= |f| then n else |f|;
    assert s.input + f == (s.input + f[..k]) + f[k..];
  }

  lemma ConnectKeepsInv(c: Crypto, i: State, r: State, a: Acts)
    requires Honest(c, i, r, a)
    ensures Inv(i, r, a, Initiator(Start(i, r), InitiateHandshake(c, Start(i, r).s0)), Act1Sent)
  {
    hide ReceiveAct1, ReceiveAct2, InitiatorAct1, InitiatorAct2, InitiatorAct3, ReceiveAct3;
    assert [] + a.m1 == a.m1;
  }

  lemma ArriveKeepsInv(c: Crypto, ok: PushOk, i: State, r: State, a: Acts, y: Pair, phase: Phase, atInitiator: bool,
      n: nat)
    requires Inv(i, r, a, y, phase)
    ensures Inv(i, r, a, Step(c, ok, y, Fragment(atInitiator, n)), phase)
  {
    hide Waits;
    if atInitiator {
      if phase == Act2Sent { ArriveWaits(y.s0, y.f0, n, a.m2); }
    } else {
      if phase == Act1Sent { ArriveWaits(y.s1, y.f1, n, a.m1); }
      if phase == Act3Sent { ArriveWaits(y.s1, y.f1, n, a.m3); }
    }
  }

  /** A callback that finds too few bytes keeps the invariant. */
  lemma IdleInitiator(c: Crypto, ok: PushOk, i: State, r: State, a: Acts, y: Pair, phase: Phase)
    requires Inv(i, r, a, y, phase) && |a.m2| == ACT_BYTES
    requires phase == Act2Sent && y.s0.callbacks > 0 ==> |y.s0.input| < ACT_BYTES
    ensures Inv(i, r, a, Initiator(y, Fired(c, ok, y.s0)), phase)
  {
    hide OnData;
    if phase != Idle { IdleFire(c, ok, y.s0); }
    assert y.f1 + [] == y.f1;
  }

  lemma IdleResponder(c: Crypto, ok: PushOk, i: State, r: State, a: Acts, y: Pair, phase: Phase)
    requires Inv(i, r, a, y, phase) && |a.m1| == ACT_BYTES && |a.m3| == ACT3_BYTES
    requires phase == Act1Sent && y.s1.callbacks > 0 ==> |y.s1.input| < ACT_BYTES
    requires phase == Act3Sent && y.s1.callbacks > 0 ==> |y.s1.input| < ACT3_BYTES
    ensures Inv(i, r, a, Responder(y, Fired(c, ok, y.s1)), phase)
  {
    hide OnData;
    IdleFire(c, ok, y.s1);
    assert y.f0 + [] == y.f0;
  }

  lemma FireInitiator(c: Crypto, ok: PushOk, i: State, r: State, a: Acts, y: Pair, phase: Phase) returns (phase': Phase)
    requires Honest(c, i, r, a) && Inv(i, r, a, y, phase)
    ensures Inv(i, r, a, Initiator(y, Fired(c, ok, y.s0)), phase') && (phase != Idle ==> phase' != Idle)
  {
    hide Honest, Fired, Written, Quiet, Waits;
    ActLengths(c, i, r, a);
    phase' := phase;
    if phase == Act2Sent && y.s0.callbacks > 0 && |y.s0.input| >= ACT_BYTES {
      AllArrived(y.s0, y.f0, a.m2);
      FireAct2(c, ok, i, r, a, y.s0);
      phase' := Act3Sent;
      ReachesWaiting(y.s1, y.f1, a.m3);
    } else {
      IdleInitiator(c, ok, i, r, a, y, phase);
    }
  }

  lemma ReachesWaiting(s: Socket, f: Bytes, m: Bytes)
    requires Rests(s, f) && m != []
    ensures Waits(s, f + m, m)
  {}

  lemma AnswersAct1(c: Crypto, ok: PushOk, i: State, r: State, a: Acts, y: Pair)
    requires Honest(c, i, r, a) && Inv(i, r, a, y, Act1Sent) && y.s1.callbacks > 0 && |y.s1.input| >= |a.m1|
    ensures Inv(i, r, a, Responder(y, Fired(c, ok, y.s1)), Act2Sent)
  {
    ActLengths(c, i, r, a);
    AllArrived(y.s1, y.f1, a.m1);
    FireAct1(c, ok, i, r, a, y.s1);
    ReachesWaiting(y.s0, y.f0, a.m2);
    hide Honest, Fired, Written, Quiet, Waits;
  }

  lemma ReadsAct3(c: Crypto, ok: PushOk, i: State, r: State, a: Acts, y: Pair)
    requires Honest(c, i, r, a) && Inv(i, r, a, y, Act3Sent) && y.s1.callbacks > 0 && |y.s1.input| >= |a.m3|
    ensures Inv(i, r, a, Responder(y, Fired(c, ok, y.s1)), Done)
  {
    hide Honest, Fired, Written, Quiet, Waits;
    AllArrived(y.s1, y.f1, a.m3);
    FireAct3(c, ok, i, r, a, y.s1);
    assert y.f0 + [] == y.f0;
  }

  lemma FireResponder(c: Crypto, ok: PushOk, i: State, r: State, a: Acts, y: Pair, phase: Phase) returns (phase': Phase)
    requires Honest(c, i, r, a) && Inv(i, r, a, y, phase)
    ensures Inv(i, r, a, Responder(y, Fired(c, ok, y.s1)), phase') && (phase != Idle ==> phase' != Idle)
  {
    ActLengths(c, i, r, a);
    hide Honest, Inv, Responder;
    phase' := phase;
    if phase == Act1Sent && y.s1.callbacks > 0 && |y.s1.input| >= ACT_BYTES {
      AnswersAct1(c, ok, i, r, a, y);
      phase' := Act2Sent;
    } else if phase == Act3Sent && y.s1.callbacks > 0 && |y.s1.input| >= ACT3_BYTES {
      ReadsAct3(c, ok, i, r, a, y);
      phase' := Done;
    } else {
      IdleResponder(c, ok, i, r, a, y, phase);
    }
  }

  lemma AllArrived(s: Socket, f: Bytes, m: Bytes)
    requires Waits(s, f, m) && |s.input| >= |m|
    ensures s.input == m && f == []
  {
    assert |s.input| + |f| == |m|;
  }

  lemma ActLengths(c: Crypto, i: State, r: State, a: Acts)
    requires Honest(c, i, r, a)
    ensures |a.m1| == |a.m2| == ACT_BYTES && |a.m3| == ACT3_BYTES
  {}

  lemma StepKeepsInv(c: Crypto, ok: PushOk, i: State, r: State, a: Acts, y: Pair, phase: Phase, e: HandshakeEvent)
      returns (phase': Phase)
    requires Honest(c, i, r, a) && Inv(i, r, a, y, phase)
    ensures Inv(i, r, a, Step(c, ok, y, e), phase') && (e.Connect? || phase != Idle ==> phase' != Idle)
  {
    hide Honest;
    phase' := phase;
    match e
    case Connect =>
      if phase == Idle {
        ConnectKeepsInv(c, i, r, a);
        phase' := Act1Sent;
      }
    case Fragment(b, n) => ArriveKeepsInv(c, ok, i, r, a, y, phase, b, n);
    case Callback(true) => phase' := FireInitiator(c, ok, i, r, a, y, phase);
    case Callback(false) => phase' := FireResponder(c, ok, i, r, a, y, phase);
  }

  lemma {:induction false} RunKeepsInv(c: Crypto, ok: PushOk, i: State, r: State, a: Acts, y: Pair, phase: Phase,
      events: seq<HandshakeEvent>)
      returns (phase': Phase)
    requires Honest(c, i, r, a) && Inv(i, r, a, y, phase)
    ensures Inv(i, r, a, Run(c, ok, y, events), phase') && (Connect in events || phase != Idle ==> phase' != Idle)
    decreases |events|
  {
    hide Honest, Inv, Step;
    phase' := phase;
    if events != [] {
      phase' := StepKeepsInv(c, ok, i, r, a, y, phase, events[0]);
      phase' := RunKeepsInv(c, ok, i, r, a, Step(c, ok, y, events[0]), phase', events[1..]);
    }
  }

  /** However the acts are cut into fragments and whenever callbacks fire, an honest handshake never
      destroys a socket; once the initiator has connected, nothing is on its way and no callback is
      pending, both sockets are ready with the states of the handshake, and each one's receiving
      cipher is at the point of the other's sending one. */
  lemma HandshakeCompletes(c: Crypto, ok: PushOk, i: State, r: State, events: seq<HandshakeEvent>)
    requires Commutes(c) && Seals(c) && Fresh(c, i) && Fresh(c, r)
    ensures var end, (i3, r3, _) := Run(c, ok, Start(i, r), events), Handshake(c, i, r);
      !end.s0.destroyed && !end.s1.destroyed &&
      (Connect in events && end.f0 == end.f1 == [] && end.s0.callbacks == end.s1.callbacks == 0 ==>
         end.s0.st == i3 && end.s1.st == r3 && Connected(end.s0) && Connected(end.s1) &&
         Lockstep(end.s0.st, end.s1.st) && Lockstep(end.s1.st, end.s0.st))
  {
    HandshakeAgrees(c, i, r);
    var a := HonestActs(c, i, r);
    var phase := RunKeepsInv(c, ok, i, r, a, Start(i, r), Idle, events);
    hide Commutes, Seals, Fresh, Handshake, Honest, Run;
    QuiescentIsDone(i, r, a, Run(c, ok, Start(i, r), events), phase);
  }

  lemma QuiescentIsDone(i: State, r: State, a: Acts, y: Pair, phase: Phase)
    requires Inv(i, r, a, y, phase)
    ensures !y.s0.destroyed && !y.s1.destroyed
    ensures phase != Idle && y.f0 == y.f1 == [] && y.s0.callbacks == y.s1.callbacks == 0 ==> phase == Done
  {}
}
