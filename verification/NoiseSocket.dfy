/** packages/noise/lib/noise-socket.ts: the handshake over a byte stream and the splitting of the
    ciphertext stream into messages under backpressure. */
module NoiseSocket {
  import opened Wrappers
  import opened Sequences
  import opened Noise

  datatype HandshakeState =
    | InitiatorInitiating | AwaitingInitiator | AwaitingResponderReply | AwaitingInitiatorReply | Ready

  datatype ReadState = ReadyForLen | ReadyForBody | Blocked

  /** The socket's fields, the bytes that have arrived and not been read, the bytes written, the
      messages pushed to the consumer and the callbacks scheduled to call `_onData`. */
  datatype Socket = Socket(
    st: State, handshake: HandshakeState, readState: ReadState, l: Option<nat>, messagesReceived: nat,
    destroyed: bool, rpk: Bytes, input: Bytes, output: Bytes, pushed: seq<Bytes>, callbacks: nat)

  const LEN_BYTES: nat := 18

  /** The consumer's answer to the push of each message, by its number. */
  type PushOk = nat -> bool

  const ACT_BYTES: nat := 50
  const ACT3_BYTES: nat := 66

  /** `_socket.read(n)` gives nothing: too few bytes have arrived, or the stream has been destroyed. */
  predicate Short(s: Socket, n: nat) {
    s.destroyed || |s.input| < n
  }

  /** `_initiateHandshake` */
  function InitiateHandshake(c: Crypto, s: Socket): Socket {
    var (st, m) := InitiatorAct1(c, s.st, s.rpk);
    s.(st := st, output := s.output + m, handshake := AwaitingResponderReply)
  }

  /** `_processInitiator` */
  function ProcessInitiator(c: Crypto, s: Socket): (Socket, bool) {
    if Short(s, ACT_BYTES) then (s, false)
    else
      var (st, r) := ReceiveAct1(c, s.st, s.input[..ACT_BYTES]);
      var s1 := s.(st := st, input := s.input[ACT_BYTES..]);
      if r.Err? then (s1.(destroyed := true), false)
      else
        var (st2, m) := ReceiveAct2(c, st);
        (s1.(st := st2, output := s.output + m, handshake := AwaitingInitiatorReply), true)
  }

  /** `_processInitiatorReply` */
  function ProcessInitiatorReply(c: Crypto, s: Socket): (Socket, bool) {
    if Short(s, ACT3_BYTES) then (s, false)
    else
      var (st, r) := ReceiveAct3(c, s.st, s.input[..ACT3_BYTES]);
      var s1 := s.(st := st, input := s.input[ACT3_BYTES..]);
      if r.Err? then (s1.(destroyed := true), false) else (s1.(handshake := Ready, rpk := st.rpk), true)
  }

  /** `_processResponderReply` */
  function ProcessResponderReply(c: Crypto, s: Socket): (Socket, bool) {
    if Short(s, ACT_BYTES) then (s, false)
    else
      var (st, r) := InitiatorAct2(c, s.st, s.input[..ACT_BYTES]);
      var s1 := s.(st := st, input := s.input[ACT_BYTES..]);
      if r.Err? then (s1.(destroyed := true), false)
      else
        var (st2, m) := InitiatorAct3(c, st);
        (s1.(st := st2, output := s.output + m, handshake := Ready), true)
  }

  /** How many bytes the next read of a ready socket asks for; a missing length counts as zero. */
  function Needed(s: Socket): nat {
    if s.readState == ReadyForBody then (if s.l.Some? then s.l.value else 0) + MAC else LEN_BYTES
  }

  function ProcessPacketLength(c: Crypto, s: Socket): (Socket, bool) {
    if Short(s, LEN_BYTES) then (s, false)
    else
      var (st, l) := DecryptLength(c, s.st, s.input[..LEN_BYTES]);
      var s1 := s.(st := st, input := s.input[LEN_BYTES..]);
      match l
      case Err(_) => (s1.(destroyed := true), false)
      case Ok(n) => (s1.(l := Some(n), readState := ReadyForBody), true)
  }

  function ProcessPacketBody(c: Crypto, ok: PushOk, s: Socket): (Socket, bool) {
    var n := (if s.l.Some? then s.l.value else 0) + MAC;
    if Short(s, n) then (s, false)
    else
      var (st, m) := DecryptMessage(c, s.st, s.input[..n]);
      var s1 := s.(st := st, input := s.input[n..]);
      match m
      case Err(_) => (s1.(destroyed := true), false)
      case Ok(text) => Push(ok, s1.(l := None), text)
  }

  /** Pushes a message to the consumer, who may ask for no more. */
  function Push(ok: PushOk, s: Socket, text: Bytes): (Socket, bool) {
    var pushOk := ok(s.messagesReceived);
    (s.(messagesReceived := s.messagesReceived + 1, pushed := s.pushed + [text],
        readState := if pushOk then ReadyForLen else Blocked), pushOk)
  }

  /** One turn of the loop of `_onData`; before the handshake is initiated it throws. */
  function Process(c: Crypto, ok: PushOk, s: Socket): (Socket, bool) {
    match s.handshake
    case InitiatorInitiating => (s.(destroyed := true), false)
    case AwaitingInitiator => ProcessInitiator(c, s)
    case AwaitingInitiatorReply => ProcessInitiatorReply(c, s)
    case AwaitingResponderReply => ProcessResponderReply(c, s)
    case Ready => ProcessPacket(c, ok, s)
  }

  function ProcessPacket(c: Crypto, ok: PushOk, s: Socket): (Socket, bool) {
    match s.readState
    case ReadyForLen => ProcessPacketLength(c, s)
    case ReadyForBody => ProcessPacketBody(c, ok, s)
    case Blocked => (s, false)
  }

  /** `_onData` */
  function OnData(c: Crypto, ok: PushOk, s: Socket): Socket
    decreases |s.input|
  {
    var (next, readMore) := Process(c, ok, s);
    ReadMoreReads(c, ok, s);
    if readMore then OnData(c, ok, next) else next
  }

  /** `_read` */
  function Unblock(s: Socket): Socket {
    if s.handshake != Ready then s
    else s.(readState := if s.readState == Blocked then ReadyForLen else s.readState, callbacks := s.callbacks + 1)
  }

  /** `_write`; without keys or with a message that is too long it throws. */
  function Write(c: Crypto, s: Socket, m: Bytes): Socket {
    if s.handshake != Ready then s
    else match EncryptMessage(c, s.st, m)
         case Err(_) => s
         case Ok((st, ct)) => s.(st := st, output := s.output + ct)
  }

  class NoiseSocket {
    const noise: NoiseState
    const ok: PushOk
    var handshake: HandshakeState
    var readState: ReadState
    var l: Option<nat>
    var messagesReceived: nat
    var destroyed: bool
    var rpk: Bytes
    var input: Bytes
    var output: Bytes
    var pushed: seq<Bytes>
    var callbacks: nat

    ghost function Contents(): Socket
      reads this, noise
    {
      Socket(noise.Contents(), handshake, readState, l, messagesReceived, destroyed, rpk, input, output, pushed,
        callbacks)
    }

    /** The initiator knows the remote public key. */
    constructor (noise: NoiseState, rpk: Option<Bytes>, ok: PushOk)
      ensures this.noise == noise && this.ok == ok
      ensures Contents() == New(noise.Contents(), rpk)
    {
      this.noise, this.ok := noise, ok;
      handshake := if rpk.Some? then InitiatorInitiating else AwaitingInitiator;
      readState, l, messagesReceived, destroyed := ReadyForLen, None, 0, false;
      this.rpk := if rpk.Some? then rpk.value else [];
      input, output, pushed, callbacks := [], [], [], 0;
    }

    /** `_socket.read(n)` on a stream that has not ended */
    method ReadBytes(n: nat) returns (r: Option<Bytes>)
      modifies this`input
      ensures r == if !destroyed && n <= old(|input|) then Some(old(input)[..n]) else None
      ensures input == if r.Some? then old(input)[n..] else old(input)
    {
      if destroyed || |input| < n { return None; }
      r := Some(input[..n]);
      input := input[n..];
    }

    method DoInitiateHandshake()
      modifies this, noise
      ensures Contents() == InitiateHandshake(noise.c, old(Contents()))
    {
      var m := noise.DoInitiatorAct1(rpk);
      output := output + m;
      handshake := AwaitingResponderReply;
    }

    method DoProcessInitiator() returns (readMore: bool)
      modifies this, noise
      ensures (Contents(), readMore) == ProcessInitiator(noise.c, old(Contents()))
    {
      hide ReceiveAct1, ReceiveAct2;
      var m := ReadBytes(ACT_BYTES);
      if m.None? { return false; }
      var r := noise.DoReceiveAct1(m.value);
      if r.Err? {
        destroyed := true;
        return false;
      }
      var reply := noise.DoReceiveAct2();
      output := output + reply;
      handshake := AwaitingInitiatorReply;
      readMore := true;
    }

    method DoProcessInitiatorReply() returns (readMore: bool)
      modifies this, noise
      ensures (Contents(), readMore) == ProcessInitiatorReply(noise.c, old(Contents()))
    {
      hide ReceiveAct3;
      var m := ReadBytes(ACT3_BYTES);
      if m.None? { return false; }
      var r := noise.DoReceiveAct3(m.value);
      if r.Err? {
        destroyed := true;
        return false;
      }
      handshake := Ready;
      rpk := noise.rpk;
      readMore := true;
    }

    method DoProcessResponderReply() returns (readMore: bool)
      modifies this, noise
      ensures (Contents(), readMore) == ProcessResponderReply(noise.c, old(Contents()))
    {
      hide InitiatorAct2, InitiatorAct3;
      var m := ReadBytes(ACT_BYTES);
      if m.None? { return false; }
      var r := noise.DoInitiatorAct2(m.value);
      if r.Err? {
        destroyed := true;
        return false;
      }
      var reply := noise.DoInitiatorAct3();
      output := output + reply;
      handshake := Ready;
      readMore := true;
    }

    method DoPacketLength() returns (readMore: bool)
      modifies this, noise
      ensures (Contents(), readMore) == ProcessPacketLength(noise.c, old(Contents()))
    {
      hide DecryptLength;
      var lc := ReadBytes(LEN_BYTES);
      if lc.None? { return false; }
      var n := noise.DoDecryptLength(lc.value);
      if n.Err? {
        destroyed := true;
        return false;
      }
      l := Some(n.value);
      readState := ReadyForBody;
      readMore := true;
    }

    method DoPacketBody() returns (readMore: bool)
      modifies this, noise
      ensures (Contents(), readMore) == ProcessPacketBody(noise.c, ok, old(Contents()))
    {
      hide DecryptMessage, Push;
      var ct := ReadBytes((if l.Some? then l.value else 0) + MAC);
      if ct.None? { return false; }
      var m := noise.DoDecryptMessage(ct.value);
      if m.Err? {
        destroyed := true;
        return false;
      }
      l := None;
      readMore := DoPush(m.value);
    }

    method DoPush(text: Bytes) returns (pushOk: bool)
      modifies this`messagesReceived, this`pushed, this`readState
      ensures (Contents(), pushOk) == Push(ok, old(Contents()), text)
    {
      pushOk := ok(messagesReceived);
      messagesReceived := messagesReceived + 1;
      pushed := pushed + [text];
      readState := if pushOk then ReadyForLen else Blocked;
    }

    /** The switch in the loop of `_onData`. */
    method DoProcess() returns (readMore: bool)
      modifies this, noise
      ensures (Contents(), readMore) == Process(noise.c, ok, old(Contents()))
    {
      hide ProcessInitiator, ProcessInitiatorReply, ProcessResponderReply, ProcessPacketLength, ProcessPacketBody;
      match handshake {
        case InitiatorInitiating =>
          destroyed := true;
          readMore := false;
        case AwaitingInitiator => readMore := DoProcessInitiator();
        case AwaitingInitiatorReply => readMore := DoProcessInitiatorReply();
        case AwaitingResponderReply => readMore := DoProcessResponderReply();
        case Ready =>
          match readState {
            case ReadyForLen => readMore := DoPacketLength();
            case ReadyForBody => readMore := DoPacketBody();
            case Blocked => readMore := false;
          }
      }
    }

    method DoOnData()
      modifies this, noise
      ensures Contents() == OnData(noise.c, ok, old(Contents()))
    {
      var readMore := true;
      while readMore
        invariant OnData(noise.c, ok, old(Contents())) ==
          if readMore then OnData(noise.c, ok, Contents()) else Contents()
        decreases readMore, |input|
      {
        ReadMoreReads(noise.c, ok, Contents());
        hide Process;
        readMore := DoProcess();
      }
    }

    method DoRead()
      modifies this
      ensures Contents() == Unblock(old(Contents()))
    {
      if handshake != Ready { return; }
      if readState == Blocked { readState := ReadyForLen; }
      callbacks := callbacks + 1;
    }

    method DoWrite(data: Bytes)
      modifies this, noise
      ensures Contents() == Write(noise.c, old(Contents()), data)
    {
      hide EncryptMessage;
      if handshake != Ready { return; }
      var ct := noise.Encrypt(data);
      if ct.Ok? { output := output + ct.value; }
    }
  }

  /** A turn that asks for another one has read some bytes. */
  lemma ReadMoreReads(c: Crypto, ok: PushOk, s: Socket)
    ensures Process(c, ok, s).1 ==> |Process(c, ok, s).0.input| < |s.input|
  {
    hide ReceiveAct1, ReceiveAct2, ReceiveAct3, InitiatorAct2, InitiatorAct3, DecryptLength, DecryptMessage;
  }

  /** A socket that has not read or written anything. */
  function New(st: State, rpk: Option<Bytes>): Socket {
    Socket(st, if rpk.Some? then InitiatorInitiating else AwaitingInitiator, ReadyForLen, None, 0, false,
           if rpk.Some? then rpk.value else [], [], [], [], 0)
  }

  // ---------------------------------------------------------------- the sender's stream

  predicate Sendable(ms: seq<Bytes>) {
    forall i | 0 <= i < |ms| :: |ms[i]| <= MAX_MESSAGE
  }

  /** The length part and the body part of a message on the wire. */
  function LengthPart(c: Crypto, st: State, m: Bytes): Bytes
    requires |m| <= MAX_MESSAGE
  {
    SealNext(c, st, BE16(|m|)).1
  }

  function BodyPart(c: Crypto, st: State, m: Bytes): Bytes {
    SealNext(c, IncrementSending(c, st), m).1
  }

  /** The sender's state after a message. */
  function Sent(c: Crypto, st: State): State {
    IncrementSending(c, IncrementSending(c, st))
  }

  lemma EncryptIsParts(c: Crypto, st: State, m: Bytes)
    requires |m| <= MAX_MESSAGE
    ensures EncryptMessage(c, st, m) == Ok((Sent(c, st), LengthPart(c, st, m) + BodyPart(c, st, m)))
  {}

  /** All the ciphertext of a sequence of messages. */
  function Wire(c: Crypto, st: State, ms: seq<Bytes>): Bytes
    requires Sendable(ms)
    decreases |ms|
  {
    if ms == [] then []
    else
      match EncryptMessage(c, st, ms[0])
      case Ok((next, ct)) => ct + Wire(c, next, ms[1..])
  }

  // ---------------------------------------------------------------- what every event keeps

  /** The receiver's cipher is at the same point as the sender's. */
  predicate Lockstep(sender: State, receiver: State) {
    (sender.sk, sender.sn, sender.ck) == (receiver.rk, receiver.rn, receiver.ck)
  }

  lemma LockstepAdvances(c: Crypto, a: State, b: State)
    requires Lockstep(a, b)
    ensures Lockstep(IncrementSending(c, a), IncrementReceiving(c, b))
  {}

  /** The messages pushed are those sent so far, and the unread bytes, arrived or not, are
      exactly the rest of the stream. `a` is the sender's state before the next message. */
  ghost predicate Framed(c: Crypto, s: Socket, a: State, ms: seq<Bytes>, future: Bytes)
    requires Sendable(ms)
  {
    && s.handshake == Ready && !s.destroyed && s.messagesReceived == |s.pushed|
    && if s.readState == ReadyForBody then
         ms != [] && s.l == Some(|ms[0]|) && Lockstep(IncrementSending(c, a), s.st) &&
         s.input + future == BodyPart(c, a, ms[0]) + Wire(c, Sent(c, a), ms[1..])
       else
         Lockstep(a, s.st) && s.input + future == Wire(c, a, ms)
  }

  lemma SplitStream(x: Bytes, y: Bytes, part: Bytes, rest: Bytes)
    requires x + y == part + rest && |part| <= |x|
    ensures x[..|part|] == part && x[|part|..] + y == rest
  {
    assert (x + y)[..|part|] == part && (x + y)[|part|..] == rest;
  }

  lemma LengthFramed(c: Crypto, s: Socket, a: State, ms: seq<Bytes>, future: Bytes)
    requires Seals(c) && Sendable(ms) && Framed(c, s, a, ms, future)
    requires s.readState == ReadyForLen && |s.input| >= LEN_BYTES
    ensures ms != []
    ensures var (s', readMore) := ProcessPacketLength(c, s);
      readMore && Framed(c, s', a, ms, future) && s'.pushed == s.pushed
  {
    assert ms != [];
    var lc, rest := LengthPart(c, a, ms[0]), BodyPart(c, a, ms[0]) + Wire(c, Sent(c, a), ms[1..]);
    EncryptIsParts(c, a, ms[0]);
    assert Wire(c, a, ms) == lc + rest;
    assert |lc| == LEN_BYTES;
    SplitStream(s.input, future, lc, rest);
    LockstepAdvances(c, a, s.st);
    assert c.unseal(s.st.rk, Nonce(s.st.rn), [], lc) == Some(BE16(|ms[0]|));
  }

  lemma BodyFramed(c: Crypto, ok: PushOk, s: Socket, a: State, ms: seq<Bytes>, future: Bytes)
    requires Seals(c) && Sendable(ms) && Framed(c, s, a, ms, future)
    requires s.readState == ReadyForBody && |s.input| >= Needed(s)
    ensures var (s', readMore) := ProcessPacketBody(c, ok, s);
      Framed(c, s', Sent(c, a), ms[1..], future) && s'.pushed == s.pushed + [ms[0]] &&
      (readMore <==> s'.readState != Blocked)
  {
    var b := IncrementSending(c, a);
    var body, rest := BodyPart(c, a, ms[0]), Wire(c, Sent(c, a), ms[1..]);
    assert |body| == Needed(s);
    SplitStream(s.input, future, body, rest);
    LockstepAdvances(c, b, s.st);
    assert c.unseal(s.st.rk, Nonce(s.st.rn), [], body) == Some(ms[0]);
  }

  /** Nothing can be read until more bytes arrive. */
  predicate Starved(s: Socket) {
    s.readState != Blocked && |s.input| < Needed(s)
  }

  /** One pass of the loop reads a length, or a body and pushes its message. */
  lemma ProcessFramed(c: Crypto, ok: PushOk, s: Socket, a: State, ms: seq<Bytes>, future: Bytes)
    returns (a': State, k: nat)
    requires Seals(c) && Sendable(ms) && Framed(c, s, a, ms, future)
    requires s.readState != Blocked && |s.input| >= Needed(s)
    ensures k <= |ms| && Sendable(ms[k..])
    ensures var (next, readMore) := Process(c, ok, s);
      Framed(c, next, a', ms[k..], future) && next.pushed == s.pushed + ms[..k] &&
      |next.input| < |s.input| && (readMore <==> next.readState != Blocked)
  {
    if s.readState == ReadyForLen {
      LengthFramed(c, s, a, ms, future);
      a', k := a, 0;
      assert ms[0..] == ms && ms[..0] == [];
    } else {
      BodyFramed(c, ok, s, a, ms, future);
      a', k := Sent(c, a), 1;
      assert ms[..1] == [ms[0]];
    }
    hide Framed, DecryptLength, DecryptMessage, Wire, BodyPart, Sent, Seals;
  }

  lemma ProcessStopped(c: Crypto, ok: PushOk, s: Socket)
    requires s.handshake == Ready && (s.readState == Blocked || |s.input| < Needed(s))
    ensures Process(c, ok, s) == (s, false) && (s.readState == Blocked || Starved(s))
  {}

  /** One `_onData` pushes some further messages, `done` of them, and stops only when blocked
      or starved. */
  lemma {:induction false} OnDataFramed(c: Crypto, ok: PushOk, s: Socket, a: State, ms: seq<Bytes>, future: Bytes)
    returns (a': State, done: nat)
    requires Seals(c) && Sendable(ms) && Framed(c, s, a, ms, future)
    ensures done <= |ms| && Sendable(ms[done..])
    ensures var s' := OnData(c, ok, s);
      Framed(c, s', a', ms[done..], future) && s'.pushed == s.pushed + ms[..done] &&
      (s'.readState == Blocked || Starved(s'))
    decreases |s.input|
  {
    assert s.handshake == Ready;
    OnDataUnfolds(c, ok, s);
    NoPushes(s.pushed, ms);
    hide Framed, Process, Seals, Needed, OnData, Sendable, Starved;
    if s.readState == Blocked || |s.input| < Needed(s) {
      ProcessStopped(c, ok, s);
      a', done := a, 0;
    } else {
      var b, k := ProcessFramed(c, ok, s, a, ms, future);
      var (next, readMore) := Process(c, ok, s);
      if !readMore {
        a', done := b, k;
      } else {
        var more;
        a', more := OnDataFramed(c, ok, next, b, ms[k..], future);
        JoinFramed(c, s, next, OnData(c, ok, s), a', ms, k, more, future);
        done := k + more;
      }
    }
  }

  lemma OnDataUnfolds(c: Crypto, ok: PushOk, s: Socket)
    ensures var (next, readMore) := Process(c, ok, s);
      OnData(c, ok, s) == if readMore then OnData(c, ok, next) else next
  {}

  lemma NoPushes<T>(pushed: seq<T>, ms: seq<T>)
    ensures ms[0..] == ms && pushed + ms[..0] == pushed
  {}

  /** After `k` messages, `done` more. */
  lemma JoinFramed(c: Crypto, s: Socket, next: Socket, end: Socket, a: State, ms: seq<Bytes>, k: nat, done: nat,
      future: Bytes)
    requires k + done <= |ms| && Sendable(ms[k..][done..]) && Framed(c, end, a, ms[k..][done..], future)
    requires next.pushed == s.pushed + ms[..k] && end.pushed == next.pushed + ms[k..][..done]
    ensures Sendable(ms[k + done..]) && Framed(c, end, a, ms[k + done..], future)
    ensures end.pushed == s.pushed + ms[..k + done]
  {
    hide Sendable, Framed;
    TakeDrop(ms, k, done);
  }

  // ---------------------------------------------------------------- runs

  /** The socket and the bytes still to arrive. */
  datatype System = System(s: Socket, future: Bytes)

  datatype Event =
    | Arrive(n: nat)  // the next bytes arrive, in a fragment of any size; 'readable' will fire
    | Fire            // a scheduled callback calls _onData
    | Read            // the consumer calls _read, which schedules a callback
    | Send(m: Bytes)  // the consumer writes a message of its own

  /** The next `n` bytes of `future` arrive, or all there are. */
  function Arrived(s: Socket, future: Bytes, n: nat): (Socket, Bytes) {
    var k := if n <= |future| then n else |future|;
    (s.(input := s.input + future[..k], callbacks := s.callbacks + 1), future[k..])
  }

  /** A scheduled callback calls `_onData`. */
  function Fired(c: Crypto, ok: PushOk, s: Socket): Socket {
    if s.callbacks == 0 then s else OnData(c, ok, s.(callbacks := s.callbacks - 1))
  }

  function Step(c: Crypto, ok: PushOk, y: System, e: Event): System {
    match e
    case Arrive(n) => var (s, future) := Arrived(y.s, y.future, n); System(s, future)
    case Fire => y.(s := Fired(c, ok, y.s))
    case Read => y.(s := Unblock(y.s))
    case Send(m) => y.(s := Write(c, y.s, m))
  }

  function Run(c: Crypto, ok: PushOk, y: System, events: seq<Event>): System
    decreases |events|
  {
    if events == [] then y else Run(c, ok, Step(c, ok, y, events[0]), events[1..])
  }

  function Sends(events: seq<Event>): nat {
    if events == [] then 0 else (if events[0].Send? then 1 else 0) + Sends(events[1..])
  }

  /** Without a callback to come, the socket is blocked or waits for bytes. */
  ghost predicate Inv(c: Crypto, y: System, a: State, sent: seq<Bytes>, k: nat)
    requires Sendable(sent) && k <= |sent|
  {
    && y.s.pushed == sent[..k] && Framed(c, y.s, a, sent[k..], y.future)
    && (y.s.callbacks == 0 ==> y.s.readState == Blocked || Starved(y.s))
  }

  lemma ArriveKeepsInv(c: Crypto, y: System, a: State, sent: seq<Bytes>, k: nat, n: nat)
    requires Sendable(sent) && k <= |sent| && Inv(c, y, a, sent, k)
    ensures var (s, future) := Arrived(y.s, y.future, n); Inv(c, System(s, future), a, sent, k)
  {
    var j := if n <= |y.future| then n else |y.future|;
    assert y.s.input + y.future == (y.s.input + y.future[..j]) + y.future[j..];
    hide Wire, BodyPart;
  }

  /** `_onData` leaves the number of callbacks and the sending side as they are. */
  lemma {:induction false} OnDataKeeps(c: Crypto, ok: PushOk, s: Socket)
    requires s.handshake == Ready
    ensures var s' := OnData(c, ok, s); s'.callbacks == s.callbacks && s'.st.sn == s.st.sn && s'.handshake == Ready
    decreases |s.input|
  {
    ProcessKeeps(c, ok, s);
    ReadMoreReads(c, ok, s);
    hide Process;
    var (next, readMore) := Process(c, ok, s);
    if readMore { OnDataKeeps(c, ok, next); }
  }

  lemma ProcessKeeps(c: Crypto, ok: PushOk, s: Socket)
    requires s.handshake == Ready
    ensures var s' := Process(c, ok, s).0; s'.callbacks == s.callbacks && s'.st.sn == s.st.sn && s'.handshake == Ready
  {}

  lemma FireKeepsInv(c: Crypto, ok: PushOk, y: System, a: State, sent: seq<Bytes>, k: nat) returns (a': State, k': nat)
    requires Seals(c) && Sendable(sent) && k <= |sent| && Inv(c, y, a, sent, k)
    ensures k <= k' <= |sent| && Inv(c, y.(s := Fired(c, ok, y.s)), a', sent, k')
    ensures Fired(c, ok, y.s).st.sn == y.s.st.sn
  {
    a', k' := a, k;
    hide Framed, Seals, OnData, Starved;
    if y.s.callbacks == 0 {
      assert y.(s := Fired(c, ok, y.s)) == y;
    } else {
      var done;
      a', done := FiredFramed(c, ok, y.s, a, sent[k..], y.future);
      k' := k + done;
      TakeDrop(sent, k, done);
      hide Fired, Sendable;
    }
  }

  lemma FiredFramed(c: Crypto, ok: PushOk, s: Socket, a: State, ms: seq<Bytes>, future: Bytes)
    returns (a': State, done: nat)
    requires Seals(c) && Sendable(ms) && Framed(c, s, a, ms, future) && s.callbacks > 0
    ensures done <= |ms| && Sendable(ms[done..])
    ensures var s' := Fired(c, ok, s);
      Framed(c, s', a', ms[done..], future) && s'.pushed == s.pushed + ms[..done] &&
      (s'.readState == Blocked || Starved(s')) && s'.st.sn == s.st.sn
  {
    hide Framed, Seals, OnData, Starved, Sendable;
    var next := s.(callbacks := s.callbacks - 1);
    OtherFields(c, s, next, a, ms, future);
    OnDataKeeps(c, ok, next);
    a', done := OnDataFramed(c, ok, next, a, ms, future);
  }

  lemma OtherFields(c: Crypto, s: Socket, s': Socket, a: State, ms: seq<Bytes>, future: Bytes)
    requires Sendable(ms) && Framed(c, s, a, ms, future) && s' == s.(callbacks := s'.callbacks)
    ensures Framed(c, s', a, ms, future) && s'.handshake == Ready
  {
    hide Wire, BodyPart;
  }

  /** As long as its own sending key does not rotate, writing leaves what the socket receives alone. */
  lemma SendKeepsInv(c: Crypto, y: System, a: State, sent: seq<Bytes>, k: nat, m: Bytes)
    requires Sendable(sent) && k <= |sent| && Inv(c, y, a, sent, k) && y.s.st.sn + 2 < ROTATE_AT
    ensures Inv(c, y.(s := Write(c, y.s, m)), a, sent, k) && Write(c, y.s, m).st.sn <= y.s.st.sn + 2
  {
    hide Wire, BodyPart;
  }

  lemma StepKeepsInv(c: Crypto, ok: PushOk, y: System, a: State, sent: seq<Bytes>, k: nat, e: Event)
    returns (a': State, k': nat)
    requires Seals(c) && Sendable(sent) && k <= |sent| && Inv(c, y, a, sent, k)
    requires e.Send? ==> y.s.st.sn + 2 < ROTATE_AT
    ensures k <= k' <= |sent| && Inv(c, Step(c, ok, y, e), a', sent, k')
    ensures Step(c, ok, y, e).s.st.sn <= y.s.st.sn + if e.Send? then 2 else 0
  {
    a', k' := a, k;
    match e
    case Arrive(n) => ArriveKeepsInv(c, y, a, sent, k, n);
    case Read => ReadKeepsInv(c, y, a, sent, k);
    case Send(m) => SendKeepsInv(c, y, a, sent, k, m);
    case Fire => a', k' := FireKeepsInv(c, ok, y, a, sent, k);
  }

  lemma ReadKeepsInv(c: Crypto, y: System, a: State, sent: seq<Bytes>, k: nat)
    requires Sendable(sent) && k <= |sent| && Inv(c, y, a, sent, k)
    ensures Inv(c, y.(s := Unblock(y.s)), a, sent, k)
  {
    hide Wire, BodyPart;
  }

  lemma {:induction false} RunKeepsInv(c: Crypto, ok: PushOk, y: System, a: State, sent: seq<Bytes>, k: nat,
      events: seq<Event>)
    returns (a': State, k': nat)
    requires Seals(c) && Sendable(sent) && k <= |sent| && Inv(c, y, a, sent, k)
    requires y.s.st.sn + 2 * Sends(events) < ROTATE_AT
    ensures k <= k' <= |sent| && Inv(c, Run(c, ok, y, events), a', sent, k')
    decreases |events|
  {
    hide Inv, Seals, Step;
    a', k' := a, k;
    if events != [] {
      a', k' := StepKeepsInv(c, ok, y, a, sent, k, events[0]);
      a', k' := RunKeepsInv(c, ok, Step(c, ok, y, events[0]), a', sent, k', events[1..]);
    }
  }

  /** A connected socket before any ciphertext has arrived. */
  predicate Connected(s: Socket) {
    s.handshake == Ready && s.readState == ReadyForLen && s.input == [] && s.pushed == [] &&
      s.messagesReceived == 0 && !s.destroyed
  }

  lemma WireNonEmpty(c: Crypto, st: State, ms: seq<Bytes>)
    requires Seals(c) && Sendable(ms) && ms != []
    ensures |Wire(c, st, ms)| >= LEN_BYTES
  {
    EncryptIsParts(c, st, ms[0]);
    assert |LengthPart(c, st, ms[0])| == LEN_BYTES;
  }

  lemma BodyHasArrived(c: Crypto, s: Socket, a: State, ms: seq<Bytes>)
    requires Seals(c) && Sendable(ms) && Framed(c, s, a, ms, []) && s.readState == ReadyForBody
    ensures |s.input| >= Needed(s)
  {
    assert s.input + [] == s.input;
    assert |BodyPart(c, a, ms[0])| == Needed(s);
  }

  /** Once all bytes have arrived and been looked at, everything has been pushed. */
  lemma IdleIsDone(c: Crypto, y: System, a: State, sent: seq<Bytes>, k: nat)
    requires Seals(c) && Sendable(sent) && k <= |sent| && Inv(c, y, a, sent, k)
    requires y.future == [] && y.s.callbacks == 0 && y.s.readState != Blocked
    ensures k == |sent|
  {
    var ms := sent[k..];
    assert y.s.input + [] == y.s.input;
    if y.s.readState == ReadyForBody {
      BodyHasArrived(c, y.s, a, ms);
    } else if ms != [] {
      WireNonEmpty(c, a, ms);
    }
  }

  /** However the stream is cut into fragments, whenever the consumer blocks and resumes, and
      whatever it writes itself without using up its own sending key: the socket is not destroyed,
      the messages pushed are a prefix of those sent, and when all bytes have arrived, no callback
      is pending and reading is not blocked, they are all. */
  lemma SocketDelivers(c: Crypto, ok: PushOk, sender: State, s: Socket, sent: seq<Bytes>, events: seq<Event>)
    requires Seals(c) && Sendable(sent) && Lockstep(sender, s.st) && Connected(s)
    requires s.st.sn + 2 * Sends(events) < ROTATE_AT
    ensures var end := Run(c, ok, System(s, Wire(c, sender, sent)), events);
      !end.s.destroyed && end.s.pushed <= sent && end.s.messagesReceived == |end.s.pushed| &&
      (end.future == [] && end.s.callbacks == 0 && end.s.readState != Blocked ==> end.s.pushed == sent)
  {
    var y := System(s, Wire(c, sender, sent));
    assert sent[0..] == sent && sent[..0] == [] && s.input + y.future == y.future;
    assert Inv(c, y, sender, sent, 0);
    var a, k := RunKeepsInv(c, ok, y, sender, sent, 0, events);
    var end := Run(c, ok, y, events);
    hide Wire, BodyPart, Run, Seals, Step, Starved;
    if end.future == [] && end.s.callbacks == 0 && end.s.readState != Blocked {
      IdleIsDone(c, end, a, sent, k);
    }
  }
}
