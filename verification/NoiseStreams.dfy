/** What a socket does with an arbitrary stream of bytes: it gets past the handshake with genuine
    acts only, pushes what the holder of the keys has sealed, and is destroyed by anything else. */
module NoiseStreams {
  import opened Wrappers
  import opened Sequences
  import opened Noise
  import opened NoiseAuth
  import opened NoiseSocket

  // ---------------------------------------------------------------- packets

  /** The ciphertext of a length. */
  function Len(c: Crypto, a: State, l: nat): Bytes
    requires l <= MAX_MESSAGE
  {
    SealNext(c, a, BE16(l)).1
  }

  /** The sender's state after some messages. */
  function SentAll(c: Crypto, a: State, ms: seq<Bytes>): State
    decreases |ms|
  {
    if ms == [] then a else SentAll(c, Sent(c, a), ms[1..])
  }

  lemma {:induction false} WireAppend(c: Crypto, a: State, ms: seq<Bytes>, m: Bytes)
    requires Sendable(ms) && |m| <= MAX_MESSAGE
    ensures var b := SentAll(c, a, ms);
      Wire(c, a, ms + [m]) == Wire(c, a, ms) + (Len(c, b, |m|) + BodyPart(c, b, m)) &&
      SentAll(c, a, ms + [m]) == Sent(c, b)
    decreases |ms|
  {
    hide Sent, BodyPart, Len;
    if ms == [] {
      OneOnWire(c, a, m);
    } else {
      WireAppend(c, Sent(c, a), ms[1..], m);
      assert (ms + [m])[1..] == ms[1..] + [m];
      assert SentAll(c, a, ms + [m]) == SentAll(c, Sent(c, a), (ms + [m])[1..]);
      WireFirst(c, a, ms);
      WireFirst(c, a, ms + [m]);
      hide Wire, SentAll;
      var b := SentAll(c, a, ms);
      Regroup(Len(c, a, |ms[0]|) + BodyPart(c, a, ms[0]), Wire(c, Sent(c, a), ms[1..]),
        Len(c, b, |m|) + BodyPart(c, b, m));
    }
  }

  lemma Regroup(x: Bytes, y: Bytes, z: Bytes)
    ensures x + (y + z) == (x + y) + z
  {}

  lemma WireFirst(c: Crypto, a: State, ms: seq<Bytes>)
    requires Sendable(ms) && ms != []
    ensures Sendable(ms[1..])
    ensures Wire(c, a, ms) == (Len(c, a, |ms[0]|) + BodyPart(c, a, ms[0])) + Wire(c, Sent(c, a), ms[1..])
  {
    EncryptIsParts(c, a, ms[0]);
  }

  lemma OneOnWire(c: Crypto, a: State, m: Bytes)
    requires |m| <= MAX_MESSAGE
    ensures Wire(c, a, [m]) == [] + (Len(c, a, |m|) + BodyPart(c, a, m)) && SentAll(c, a, [m]) == Sent(c, a)
  {
    WireFirst(c, a, [m]);
    assert Wire(c, Sent(c, a), []) == [];
  }

  /** The stream goes on with something that the holder of the keys has not sealed. */
  ghost predicate Forged(c: Crypto, a: State, rest: Bytes) {
    |rest| >= LEN_BYTES &&
    ((forall l: nat | l <= MAX_MESSAGE :: rest[..LEN_BYTES] != Len(c, a, l)) ||
     exists l: nat | l <= MAX_MESSAGE :: ForgedBody(c, a, rest, l))
  }

  ghost predicate ForgedBody(c: Crypto, a: State, rest: Bytes, l: nat)
    requires l <= MAX_MESSAGE && |rest| >= LEN_BYTES
  {
    rest[..LEN_BYTES] == Len(c, a, l) && |rest| >= LEN_BYTES + (l + MAC) &&
    forall m: Bytes | |m| == l :: rest[LEN_BYTES..LEN_BYTES + (l + MAC)] != BodyPart(c, a, m)
  }

  /** The ready socket has pushed the messages whose packets begin the stream, and stands at what
      follows them: inside a packet, in front of one, or destroyed by a forged one. */
  ghost predicate Packets(c: Crypto, a0: State, stream: Bytes, s: Socket, future: Bytes) {
    var ms := s.pushed;
    Sendable(ms) && s.messagesReceived == |ms| && Wire(c, a0, ms) <= stream &&
    var a, rest := SentAll(c, a0, ms), stream[|Wire(c, a0, ms)|..];
    At(c, a, rest, s, future)
  }

  ghost predicate At(c: Crypto, a: State, rest: Bytes, s: Socket, future: Bytes) {
    if s.destroyed then Forged(c, a, rest)
    else if s.readState == ReadyForBody then
      s.l.Some? && s.l.value <= MAX_MESSAGE && Lockstep(IncrementSending(c, a), s.st) &&
      rest == Len(c, a, s.l.value) + (s.input + future)
    else Lockstep(a, s.st) && rest == s.input + future
  }

  /** Nothing can be done without more bytes or a further read. */
  predicate Stuck(s: Socket) {
    s.destroyed || match s.handshake
                   case InitiatorInitiating => false
                   case AwaitingInitiator => |s.input| < ACT_BYTES
                   case AwaitingResponderReply => |s.input| < ACT_BYTES
                   case AwaitingInitiatorReply => |s.input| < ACT3_BYTES
                   case Ready => s.readState == Blocked || |s.input| < Needed(s)
  }

  lemma LengthOpens(c: Crypto, a: State, st: State, lc: Bytes)
    requires Seals(c) && Authentic(c) && Lockstep(a, st) && |lc| == LEN_BYTES
    ensures var (st', r) := DecryptLength(c, st, lc);
      (r.Ok? ==> r.value <= MAX_MESSAGE && lc == Len(c, a, r.value) && Lockstep(IncrementSending(c, a), st')) &&
      (r.Err? ==> forall l: nat | l <= MAX_MESSAGE :: lc != Len(c, a, l)) && st'.sn == st.sn
  {
    var p := c.unseal(st.rk, Nonce(st.rn), [], lc);
    hide Nonce;
    LockstepAdvances(c, a, st);
    if p.Some? {
      OpensTo(c, st.rk, Nonce(st.rn), [], lc, p.value);
      assert |p.value| == 2;
      assert p.value == BE16(ReadBE16(p.value));
    } else {
      forall l: nat | l <= MAX_MESSAGE ensures lc != Len(c, a, l) {
        OpensTo(c, st.rk, Nonce(st.rn), [], lc, BE16(l));
      }
    }
  }

  lemma BodyOpens(c: Crypto, a: State, st: State, ct: Bytes)
    requires Seals(c) && Authentic(c) && Lockstep(IncrementSending(c, a), st)
    ensures var (st', r) := DecryptMessage(c, st, ct);
      (r.Ok? ==> |ct| == |r.value| + MAC && ct == BodyPart(c, a, r.value) && Lockstep(Sent(c, a), st')) &&
      (r.Err? ==> forall m: Bytes :: ct != BodyPart(c, a, m)) && st'.sn == st.sn
  {
    var b, p := IncrementSending(c, a), c.unseal(st.rk, Nonce(st.rn), [], ct);
    hide Nonce;
    LockstepAdvances(c, b, st);
    if p.Some? {
      OpensTo(c, st.rk, Nonce(st.rn), [], ct, p.value);
    } else {
      forall m: Bytes ensures ct != BodyPart(c, a, m) {
        OpensTo(c, st.rk, Nonce(st.rn), [], ct, m);
      }
    }
  }

  /** One turn reads a length, or destroys the socket. */
  lemma LengthTurn(c: Crypto, a: State, rest: Bytes, s: Socket, future: Bytes)
    requires Seals(c) && Authentic(c) && At(c, a, rest, s, future)
    requires !s.destroyed && s.readState == ReadyForLen && |s.input| >= LEN_BYTES
    ensures var (s', more) := ProcessPacketLength(c, s);
      At(c, a, rest, s', future) && s'.pushed == s.pushed && s'.messagesReceived == s.messagesReceived &&
      s'.st.sn == s.st.sn && (more <==> !s'.destroyed) && s'.readState != Blocked
  {
    var lc := s.input[..LEN_BYTES];
    assert rest[..LEN_BYTES] == lc && rest == lc + (s.input[LEN_BYTES..] + future);
    LengthOpens(c, a, s.st, lc);
    hide Seals, Authentic, Lockstep, DecryptLength, Len, ForgedBody;
  }

  /** One turn reads a body and pushes it, or destroys the socket. */
  lemma BodyTurn(c: Crypto, ok: PushOk, a: State, rest: Bytes, s: Socket, future: Bytes) returns (m: Option<Bytes>)
    requires Seals(c) && Authentic(c) && At(c, a, rest, s, future)
    requires !s.destroyed && s.readState == ReadyForBody && |s.input| >= Needed(s)
    ensures var (s', more) := ProcessPacketBody(c, ok, s);
      s'.st.sn == s.st.sn && (more <==> !s'.destroyed && s'.readState != Blocked) &&
      if m.None? then s'.destroyed && s'.pushed == s.pushed && s'.messagesReceived == s.messagesReceived &&
        Forged(c, a, rest)
      else
        !s'.destroyed && |m.value| <= MAX_MESSAGE && s'.pushed == s.pushed + [m.value] &&
        s'.messagesReceived == s.messagesReceived + 1 && s'.readState != ReadyForBody &&
        Lockstep(Sent(c, a), s'.st) &&
        rest == (Len(c, a, |m.value|) + BodyPart(c, a, m.value)) + (s'.input + future)
  {
    var l, n := s.l.value, s.l.value + MAC;
    var ct := s.input[..n];
    BodyOpens(c, a, s.st, ct);
    m := None;
    LenIs18(c, a, l);
    assert rest[..LEN_BYTES] == Len(c, a, l) && rest[LEN_BYTES..LEN_BYTES + n] == ct;
    hide Seals, Authentic, Lockstep, Len, BodyPart;
    var r := DecryptMessage(c, s.st, ct).1;
    hide DecryptMessage;
    if r.Ok? {
      m := Some(r.value);
      assert rest == Len(c, a, l) + (ct + (s.input[n..] + future));
    } else {
      assert ForgedBody(c, a, rest, l);
    }
  }

  lemma LenIs18(c: Crypto, a: State, l: nat)
    requires Seals(c) && l <= MAX_MESSAGE
    ensures |Len(c, a, l)| == LEN_BYTES
  {}

  /** One turn of a ready socket. */
  lemma PacketTurn(c: Crypto, ok: PushOk, a0: State, stream: Bytes, s: Socket, future: Bytes)
    requires Seals(c) && Authentic(c) && s.handshake == Ready && Packets(c, a0, stream, s, future)
    ensures var (s', more) := Process(c, ok, s);
      Packets(c, a0, stream, s', future) && s'.st.sn == s.st.sn && (more || Stuck(s'))
  {
    if !Stuck(s) {
      var ms := s.pushed;
      var a, rest := SentAll(c, a0, ms), stream[|Wire(c, a0, ms)|..];
      if s.readState == ReadyForLen {
        LengthTurn(c, a, rest, s, future);
      } else {
        BodyPacketTurn(c, ok, a0, stream, s, future);
      }
      hide At, Sendable, Wire, SentAll;
    } else {
      StuckStays(c, ok, s);
    }
  }

  lemma StuckStays(c: Crypto, ok: PushOk, s: Socket)
    requires Stuck(s) && s.handshake != InitiatorInitiating
    ensures Process(c, ok, s) == (s, false)
  {}

  lemma BodyPacketTurn(c: Crypto, ok: PushOk, a0: State, stream: Bytes, s: Socket, future: Bytes)
    requires Seals(c) && Authentic(c) && s.handshake == Ready && Packets(c, a0, stream, s, future)
    requires !Stuck(s) && s.readState == ReadyForBody
    ensures var (s', more) := ProcessPacketBody(c, ok, s);
      Packets(c, a0, stream, s', future) && s'.st.sn == s.st.sn && (more || Stuck(s'))
  {
    var ms := s.pushed;
    var w := Wire(c, a0, ms);
    var a, rest := SentAll(c, a0, ms), stream[|w|..];
    var m := BodyTurn(c, ok, a, rest, s, future);
    var (s', more) := ProcessPacketBody(c, ok, s);
    assert s'.handshake == Ready;
    hide ProcessPacketBody, Seals, Authentic, Lockstep, Len, BodyPart, Wire, SentAll, Forged;
    if m.Some? {
      WireAppend(c, a0, ms, m.value);
      Beyond(stream, w, Len(c, a, |m.value|) + BodyPart(c, a, m.value), s'.input + future);
    }
  }

  lemma Beyond(stream: Bytes, w: Bytes, packet: Bytes, tail: Bytes)
    requires w <= stream && stream[|w|..] == packet + tail
    ensures w + packet <= stream && stream[|w + packet|..] == tail
  {
    assert stream == w + stream[|w|..];
    assert stream == (w + packet) + tail;
  }

  // ---------------------------------------------------------------- the handshake in front of them

  /** An end of the connection before it has read anything; an initiator knows the other's key. */
  datatype Role = Initiator(st: State, rs: Bytes) | Responder(st: State)
  {
    function ActBytes(): nat {
      if Initiator? then ACT_BYTES else ACT_BYTES + ACT3_BYTES
    }
  }

  /** The first act of the stream is genuine. */
  predicate FirstGenuine(c: Crypto, role: Role, stream: Bytes)
    requires |stream| >= ACT_BYTES
  {
    match role
    case Initiator(i, rs) =>
      Genuine(c, After(c, Start(c, rs), i.epk, c.ecdh(rs, i.es)), i.es, stream[..ACT_BYTES])
    case Responder(r) => Genuine(c, Start(c, r.lpk), r.ls, stream[..ACT_BYTES])
  }

  /** The stream begins with genuine acts; for a responder with those of the owner of `peer`. */
  predicate Accepted(c: Crypto, role: Role, stream: Bytes, peer: Bytes) {
    |stream| >= role.ActBytes() &&
    match role
    case Initiator(_, rs) => FirstGenuine(c, role, stream) && peer == rs
    case Responder(r) =>
      GenuineActs(c, r, stream[..ACT_BYTES], stream[ACT_BYTES..ACT_BYTES + ACT3_BYTES], peer)
  }

  /** It begins with a whole act that is not genuine, perhaps behind one that is. */
  ghost predicate Refused(c: Crypto, role: Role, stream: Bytes) {
    |stream| >= ACT_BYTES &&
    (!FirstGenuine(c, role, stream) ||
     (|stream| >= role.ActBytes() && forall peer: Bytes :: !Accepted(c, role, stream, peer)))
  }

  /** The states between the acts. */
  function Opening(c: Crypto, role: Role): State {
    match role
    case Initiator(i, rs) => InitiatorAct1(c, i, rs).0
    case Responder(r) => r
  }

  function Replied(c: Crypto, r: State, stream: Bytes): State
    requires |stream| >= ACT_BYTES
  {
    ReceiveAct2(c, ReceiveAct1(c, r, stream[..ACT_BYTES]).0).0
  }

  function Final(c: Crypto, role: Role, stream: Bytes): State
    requires |stream| >= role.ActBytes()
  {
    match role
    case Initiator(i, rs) =>
      InitiatorAct3(c, InitiatorAct2(c, Opening(c, role), stream[..ACT_BYTES]).0).0
    case Responder(r) => ReceiveAct3(c, Replied(c, r, stream), stream[ACT_BYTES..ACT_BYTES + ACT3_BYTES]).0
  }

  /** The state of whoever seals what `st` opens. */
  function Mirror(st: State): State {
    st.(sk := st.rk, sn := st.rn)
  }

  predicate Unused(s: Socket) {
    s.readState == ReadyForLen && s.pushed == [] && s.messagesReceived == 0
  }

  ghost predicate Inv(c: Crypto, role: Role, stream: Bytes, s: Socket, future: Bytes) {
    match s.handshake
    case InitiatorInitiating => false
    case AwaitingInitiator =>
      role.Responder? && Unused(s) &&
      if s.destroyed then Refused(c, role, stream) else s.st == role.st && s.input + future == stream
    case AwaitingResponderReply =>
      role.Initiator? && Unused(s) && s.rpk == role.rs &&
      if s.destroyed then Refused(c, role, stream) else s.st == Opening(c, role) && s.input + future == stream
    case AwaitingInitiatorReply =>
      role.Responder? && Unused(s) && |stream| >= ACT_BYTES && FirstGenuine(c, role, stream) &&
      if s.destroyed then Refused(c, role, stream)
      else s.st == Replied(c, role.st, stream) && s.input + future == stream[ACT_BYTES..]
    case Ready =>
      Accepted(c, role, stream, s.rpk) &&
      Packets(c, Mirror(Final(c, role, stream)), stream[role.ActBytes()..], s, future)
  }

  /** A socket that has just become ready. */
  lemma Enters(c: Crypto, role: Role, stream: Bytes, s: Socket, future: Bytes)
    requires s.handshake == Ready && !s.destroyed && Unused(s) && Accepted(c, role, stream, s.rpk)
    requires s.st == Final(c, role, stream) && s.input + future == stream[role.ActBytes()..]
    ensures Inv(c, role, stream, s, future)
  {
    var a0 := Mirror(s.st);
    assert Wire(c, a0, []) == [] && SentAll(c, a0, []) == a0;
    assert stream[role.ActBytes()..][0..] == stream[role.ActBytes()..];
    hide Accepted, Final;
  }

  lemma FirstBytes(x: Bytes, y: Bytes, stream: Bytes, n: nat)
    requires x + y == stream && n <= |x|
    ensures |stream| >= n && stream[..n] == x[..n] && x[n..] + y == stream[n..]
  {}

  lemma Act1Turn(c: Crypto, r: State, stream: Bytes, s: Socket, future: Bytes)
    requires Seals(c) && Authentic(c) && s.handshake == AwaitingInitiator && !Stuck(s)
    requires Inv(c, Responder(r), stream, s, future)
    ensures var (s', more) := ProcessInitiator(c, s);
      Inv(c, Responder(r), stream, s', future) && (more <==> !s'.destroyed)
  {
    FirstBytes(s.input, future, stream, ACT_BYTES);
    AcceptsAct1(c, r, stream[..ACT_BYTES]);
    hide Seals, Authentic, ReceiveAct1, ReceiveAct2, Genuine, Start, Accepted;
  }

  lemma Act2Turn(c: Crypto, i: State, rs: Bytes, stream: Bytes, s: Socket, future: Bytes)
    requires Seals(c) && Authentic(c) && s.handshake == AwaitingResponderReply && !Stuck(s)
    requires Inv(c, Initiator(i, rs), stream, s, future)
    ensures var (s', more) := ProcessResponderReply(c, s);
      Inv(c, Initiator(i, rs), stream, s', future) && (more <==> !s'.destroyed) &&
      (s'.handshake == Ready ==> s'.st.sn == 0)
  {
    var role := Initiator(i, rs);
    FirstBytes(s.input, future, stream, ACT_BYTES);
    InitiatorIff(c, i, rs, stream[..ACT_BYTES]);
    var (s', more) := ProcessResponderReply(c, s);
    if more {
      SendsAct3(c, InitiatorAct2(c, Opening(c, role), stream[..ACT_BYTES]).0);
      hide Seals, Authentic, InitiatorAct1, InitiatorAct2, InitiatorAct3, Genuine, Start, After, Inv;
      Enters(c, role, stream, s', future);
    }
    hide Seals, Authentic, InitiatorAct1, InitiatorAct2, InitiatorAct3, Genuine, Start, After;
  }

  lemma Act3Turn(c: Crypto, r: State, stream: Bytes, s: Socket, future: Bytes)
    requires Seals(c) && Authentic(c) && s.handshake == AwaitingInitiatorReply && !Stuck(s)
    requires Inv(c, Responder(r), stream, s, future)
    ensures var (s', more) := ProcessInitiatorReply(c, s);
      Inv(c, Responder(r), stream, s', future) && (more <==> !s'.destroyed) &&
      (s'.handshake == Ready ==> s'.st.sn == 0)
  {
    var role := Responder(r);
    var m1, m3 := stream[..ACT_BYTES], stream[ACT_BYTES..ACT_BYTES + ACT3_BYTES];
    FirstBytes(s.input, future, stream[ACT_BYTES..], ACT3_BYTES);
    assert stream[ACT_BYTES..][..ACT3_BYTES] == m3;
    assert stream[ACT_BYTES..][ACT3_BYTES..] == stream[ACT_BYTES + ACT3_BYTES..];
    ResponderIff(c, r, m1, m3);
    AcceptsAct1(c, r, m1);
    AcceptsAct3(c, Replied(c, r, stream), m3);
    var (s', more) := ProcessInitiatorReply(c, s);
    hide Seals, Authentic, ReceiveAct1, ReceiveAct2, ReceiveAct3, Genuine, Start, GenuineActs, Genuine3;
    if more {
      hide Inv;
      Enters(c, role, stream, s', future);
    }
  }

  // ---------------------------------------------------------------- every run

  /** One turn, in whatever state the socket is. */
  lemma TurnKeeps(c: Crypto, ok: PushOk, role: Role, stream: Bytes, s: Socket, future: Bytes)
    requires Seals(c) && Authentic(c) && Inv(c, role, stream, s, future)
    ensures var (s', more) := Process(c, ok, s);
      Inv(c, role, stream, s', future) && (more || Stuck(s')) && s'.callbacks == s.callbacks &&
      (s.handshake == Ready ==> s'.handshake == Ready) &&
      (s'.handshake == Ready ==> s'.st.sn == if s.handshake == Ready then s.st.sn else 0)
  {
    TurnFields(c, ok, s);
    if s.handshake == Ready {
      ReadyTurn(c, ok, role, stream, s, future);
    } else if Stuck(s) {
      StuckStays(c, ok, s);
    } else {
      match s.handshake {
        case AwaitingInitiator => Act1Turn(c, role.st, stream, s, future);
        case AwaitingResponderReply => Act2Turn(c, role.st, role.rs, stream, s, future);
        case AwaitingInitiatorReply => Act3Turn(c, role.st, stream, s, future);
      }
      hide Inv, ProcessInitiator, ProcessInitiatorReply, ProcessResponderReply, Seals, Authentic;
    }
  }

  lemma TurnFields(c: Crypto, ok: PushOk, s: Socket)
    ensures var s' := Process(c, ok, s).0;
      s'.callbacks == s.callbacks && (s.handshake == AwaitingInitiator ==> s'.handshake != Ready)
  {
    hide ReceiveAct1, ReceiveAct2, ReceiveAct3, InitiatorAct2, InitiatorAct3, DecryptLength, DecryptMessage;
  }

  lemma ReadyTurn(c: Crypto, ok: PushOk, role: Role, stream: Bytes, s: Socket, future: Bytes)
    requires Seals(c) && Authentic(c) && Inv(c, role, stream, s, future) && s.handshake == Ready
    ensures var (s', more) := Process(c, ok, s);
      Inv(c, role, stream, s', future) && (more || Stuck(s')) && s'.handshake == Ready && s'.st.sn == s.st.sn
  {
    PacketTurn(c, ok, Mirror(Final(c, role, stream)), stream[role.ActBytes()..], s, future);
    ReadyStays(c, ok, s);
    hide Packets, Accepted, Final, Process, Seals, Authentic;
  }

  lemma ReadyStays(c: Crypto, ok: PushOk, s: Socket)
    requires s.handshake == Ready
    ensures var s' := Process(c, ok, s).0; s'.handshake == Ready && s'.rpk == s.rpk
  {
    hide DecryptLength, DecryptMessage;
  }

  lemma {:induction false} OnDataKeepsInv(c: Crypto, ok: PushOk, role: Role, stream: Bytes, s: Socket, future: Bytes)
    requires Seals(c) && Authentic(c) && Inv(c, role, stream, s, future)
    ensures var s' := OnData(c, ok, s);
      Inv(c, role, stream, s', future) && Stuck(s') && s'.callbacks == s.callbacks &&
      (s'.handshake == Ready ==> s'.st.sn == if s.handshake == Ready then s.st.sn else 0)
    decreases |s.input|
  {
    hide Inv, Process, Seals, Authentic, Stuck, OnData;
    TurnKeeps(c, ok, role, stream, s, future);
    ReadMoreReads(c, ok, s);
    OnDataUnfolds(c, ok, s);
    var (next, more) := Process(c, ok, s);
    if more { OnDataKeepsInv(c, ok, role, stream, next, future); }
  }

  /** After any part of a run: the socket stands where the stream says; it waits for a callback, for
      bytes or for a read; and it has sealed two packets for each message written. */
  ghost predicate RunInv(c: Crypto, role: Role, stream: Bytes, y: System, sends: nat) {
    Inv(c, role, stream, y.s, y.future) && (y.s.callbacks == 0 ==> Stuck(y.s)) &&
    (y.s.handshake == Ready ==> y.s.st.sn <= 2 * sends)
  }

  lemma ArrivalKeeps(c: Crypto, role: Role, stream: Bytes, s: Socket, future: Bytes, n: nat)
    requires Inv(c, role, stream, s, future)
    ensures var (s', future') := Arrived(s, future, n); Inv(c, role, stream, s', future')
  {
    var k := if n <= |future| then n else |future|;
    assert s.input + future == (s.input + future[..k]) + future[k..];
    hide Refused, Accepted, FirstGenuine, Opening, Replied, Final, Forged, Wire, SentAll, Len, Lockstep, Sendable;
  }

  lemma ReadKeeps(c: Crypto, role: Role, stream: Bytes, s: Socket, future: Bytes)
    requires Inv(c, role, stream, s, future)
    ensures Inv(c, role, stream, Unblock(s), future)
  {
    hide Refused, Accepted, FirstGenuine, Opening, Replied, Final, Forged, Wire, SentAll, Len;
  }

  lemma WriteKeeps(c: Crypto, role: Role, stream: Bytes, s: Socket, future: Bytes, m: Bytes)
    requires Inv(c, role, stream, s, future) && (s.handshake == Ready ==> s.st.sn + 2 < ROTATE_AT)
    ensures var s' := Write(c, s, m);
      Inv(c, role, stream, s', future) && s' == s.(st := s'.st, output := s'.output) &&
      (s.handshake == Ready ==> s'.st.sn <= s.st.sn + 2)
  {
    hide Refused, Accepted, FirstGenuine, Opening, Replied, Final, Forged, Wire, SentAll, Len;
  }

  lemma StepKeepsRunInv(c: Crypto, ok: PushOk, role: Role, stream: Bytes, y: System, sends: nat, e: Event)
    requires Seals(c) && Authentic(c) && RunInv(c, role, stream, y, sends)
    requires e.Send? ==> 2 * sends + 2 < ROTATE_AT
    ensures RunInv(c, role, stream, Step(c, ok, y, e), if e.Send? then sends + 1 else sends)
  {
    hide Inv, Seals, Authentic, OnData, Write;
    match e
    case Arrive(n) => ArrivalKeeps(c, role, stream, y.s, y.future, n);
    case Read => ReadKeeps(c, role, stream, y.s, y.future);
    case Send(m) => WriteKeeps(c, role, stream, y.s, y.future, m);
    case Fire =>
      if y.s.callbacks > 0 {
        var s := y.s.(callbacks := y.s.callbacks - 1);
        CallbacksApart(c, role, stream, y.s, s, y.future);
        OnDataKeepsInv(c, ok, role, stream, s, y.future);
      }
  }

  lemma CallbacksApart(c: Crypto, role: Role, stream: Bytes, s: Socket, s': Socket, future: Bytes)
    requires Inv(c, role, stream, s, future) && s' == s.(callbacks := s'.callbacks)
    ensures Inv(c, role, stream, s', future)
  {
    hide Refused, Accepted, FirstGenuine, Opening, Replied, Final, Forged, Wire, SentAll, Len;
  }

  lemma {:induction false} RunKeepsRunInv(c: Crypto, ok: PushOk, role: Role, stream: Bytes, y: System, sends: nat,
      events: seq<Event>)
    requires Seals(c) && Authentic(c) && RunInv(c, role, stream, y, sends)
    requires 2 * (sends + Sends(events)) < ROTATE_AT
    ensures RunInv(c, role, stream, Run(c, ok, y, events), sends + Sends(events))
    decreases |events|
  {
    hide RunInv, Seals, Authentic, Step;
    if events != [] {
      var k := if events[0].Send? then 1 else 0;
      StepKeepsRunInv(c, ok, role, stream, y, sends, events[0]);
      RunKeepsRunInv(c, ok, role, stream, Step(c, ok, y, events[0]), sends + k, events[1..]);
    }
  }

  /** The socket of an end that has just connected. */
  function Opened(c: Crypto, role: Role): Socket {
    match role
    case Initiator(i, rs) => InitiateHandshake(c, New(i, Some(rs)))
    case Responder(r) => New(r, None)
  }

  /** Whatever stream of bytes reaches a socket, in whatever fragments and with whatever callbacks,
      reads and writes of its own that do not use up its sending key: it is ready only if the stream
      begins with genuine acts, for a responder those of the owner of the key it then has for its
      peer; what it has pushed is what the messages sealed behind them say; and if it is destroyed,
      the stream goes on with an act or a packet that is not genuine. */
  lemma OnlyGenuine(c: Crypto, ok: PushOk, role: Role, stream: Bytes, events: seq<Event>)
    requires Seals(c) && Authentic(c) && 2 * Sends(events) < ROTATE_AT
    ensures var s := Run(c, ok, System(Opened(c, role), stream), events).s;
      (s.handshake == Ready ==>
        Accepted(c, role, stream, s.rpk) && Sealed(c, role, stream, s) &&
        (s.destroyed ==> ForgedNext(c, role, stream, s))) &&
      (s.handshake != Ready ==> s.pushed == [] && (s.destroyed ==> Refused(c, role, stream)))
  {
    Begins(c, role, stream);
    RunKeepsRunInv(c, ok, role, stream, System(Opened(c, role), stream), 0, events);
    hide Run, Seals, Authentic, Refused, Accepted, FirstGenuine, Opening, Replied, Final;
  }

  /** The messages that `s` has pushed are sealed, in order, behind the acts. */
  predicate Sealed(c: Crypto, role: Role, stream: Bytes, s: Socket) {
    |stream| >= role.ActBytes() && Sendable(s.pushed) &&
    Wire(c, Mirror(Final(c, role, stream)), s.pushed) <= stream[role.ActBytes()..]
  }

  /** A forged packet follows them. */
  ghost predicate ForgedNext(c: Crypto, role: Role, stream: Bytes, s: Socket)
    requires Sealed(c, role, stream, s)
  {
    var a0, rest := Mirror(Final(c, role, stream)), stream[role.ActBytes()..];
    Forged(c, SentAll(c, a0, s.pushed), rest[|Wire(c, a0, s.pushed)|..])
  }

  lemma Begins(c: Crypto, role: Role, stream: Bytes)
    ensures RunInv(c, role, stream, System(Opened(c, role), stream), 0)
  {
    hide InitiatorAct1, Refused, Accepted, FirstGenuine, Replied, Final, Packets;
    assert [] + stream == stream;
  }

  /** Once all bytes have arrived and no callback is pending, the socket is ready exactly if the
      stream begins with genuine acts, and destroyed in front of that exactly if it begins with
      others; a ready socket that is not blocked is destroyed exactly if a forged packet follows
      what it has pushed. */
  lemma GenuineOrDestroyed(c: Crypto, ok: PushOk, role: Role, stream: Bytes, events: seq<Event>)
    requires Seals(c) && Authentic(c) && 2 * Sends(events) < ROTATE_AT
    requires var end := Run(c, ok, System(Opened(c, role), stream), events);
      end.future == [] && end.s.callbacks == 0
    ensures var s := Run(c, ok, System(Opened(c, role), stream), events).s;
      (s.handshake == Ready <==> exists peer: Bytes :: Accepted(c, role, stream, peer)) &&
      (s.handshake != Ready ==> (s.destroyed <==> Refused(c, role, stream))) &&
      (s.handshake == Ready ==>
        Sealed(c, role, stream, s) &&
        (s.readState != Blocked ==> (s.destroyed <==> ForgedNext(c, role, stream, s))))
  {
    Begins(c, role, stream);
    RunKeepsRunInv(c, ok, role, stream, System(Opened(c, role), stream), 0, events);
    var s := Run(c, ok, System(Opened(c, role), stream), events).s;
    if s.handshake == Ready {
      QuietPackets(c, role, stream, s);
    } else {
      QuietHandshake(c, role, stream, s);
    }
    hide Run, Seals, Authentic, Inv, Stuck, Refused, Accepted, Sealed, ForgedNext;
  }

  lemma QuietHandshake(c: Crypto, role: Role, stream: Bytes, s: Socket)
    requires Inv(c, role, stream, s, []) && Stuck(s) && s.handshake != Ready
    ensures forall peer: Bytes :: !Accepted(c, role, stream, peer)
    ensures s.destroyed <==> Refused(c, role, stream)
  {
    assert s.input + [] == s.input;
    hide Genuine, Genuine3, Start, After, Answered, Opening, Replied;
  }

  lemma QuietPackets(c: Crypto, role: Role, stream: Bytes, s: Socket)
    requires Seals(c) && Inv(c, role, stream, s, []) && Stuck(s) && s.handshake == Ready
    ensures Accepted(c, role, stream, s.rpk) && Sealed(c, role, stream, s)
    ensures s.readState != Blocked ==> (s.destroyed <==> ForgedNext(c, role, stream, s))
  {
    assert |stream| >= role.ActBytes();
    hide Accepted, Final, Wire, SentAll;
    if !s.destroyed && s.readState != Blocked {
      var a0 := Mirror(Final(c, role, stream));
      var a, rest := SentAll(c, a0, s.pushed), stream[role.ActBytes()..][|Wire(c, a0, s.pushed)|..];
      NotForged(c, a, rest, s);
    }
  }

  /** What is left of the stream is too short to be forged. */
  lemma NotForged(c: Crypto, a: State, rest: Bytes, s: Socket)
    requires Seals(c) && At(c, a, rest, s, []) && Stuck(s) && s.handshake == Ready
    requires !s.destroyed && s.readState != Blocked
    ensures !Forged(c, a, rest)
  {
    assert s.input + [] == s.input;
    if s.readState == ReadyForBody {
      var l := s.l.value;
      LenIs18(c, a, l);
      assert rest[..LEN_BYTES] == Len(c, a, l);
      hide Lockstep;
      if k: nat :| k <= MAX_MESSAGE && ForgedBody(c, a, rest, k) {
        SameLength(c, a, k, l);
      }
    }
  }

  lemma SameLength(c: Crypto, a: State, k: nat, l: nat)
    requires Seals(c) && k <= MAX_MESSAGE && l <= MAX_MESSAGE && Len(c, a, k) == Len(c, a, l)
    ensures k == l
  {
    assert c.unseal(a.sk, Nonce(a.sn), [], Len(c, a, k)) == Some(BE16(k));
    assert c.unseal(a.sk, Nonce(a.sn), [], Len(c, a, l)) == Some(BE16(l));
    assert BE16(k)[0] == BE16(l)[0] && BE16(k)[1] == BE16(l)[1];
  }
}
