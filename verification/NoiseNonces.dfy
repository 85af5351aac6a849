/** No key and nonce is ever given to the cipher twice, from the first act of the handshake on. */
module NoiseNonces {
  import opened Wrappers
  import opened Noise
  import opened NoiseRuns

  // ---------------------------------------------------------------- one use

  /** The `x`-th use of direction `d`'s cipher by an end that made the rotations `w`. */
  function UseAt(c: Crypto, k: Keys, w: seq<Side>, d: Side, x: nat): CipherUse
    requires x / ROTATE_AT <= Count(w, d)
  {
    (EpochKey(c, k, w, d, x / ROTATE_AT), Nonce(x % ROTATE_AT))
  }

  lemma NoncesDiffer(n: nat, m: nat)
    requires n < ROTATE_AT && m < ROTATE_AT && Nonce(n) == Nonce(m)
    ensures n == m
  {
    assert Nonce(n)[4] == Nonce(m)[4] && Nonce(n)[5] == Nonce(m)[5];
  }

  /** Two uses share key and nonce only if they are the same use of the same direction, whichever
      histories the two ends have. */
  lemma UsesDiffer(c: Crypto, rank: Bytes -> nat, k: Keys, v: seq<Side>, d: Side, x: nat, w: seq<Side>, e: Side, y: nat)
    requires Free(c, rank) && Started(c, k)
    requires x / ROTATE_AT <= Count(v, d) && y / ROTATE_AT <= Count(w, e)
    requires UseAt(c, k, v, d, x) == UseAt(c, k, w, e, y)
    ensures d == e && x == y
  {
    hide Free, Started, Nonce, EpochKey, Count;
    EpochKeysDistinct(c, rank, k, v, d, x / ROTATE_AT, w, e, y / ROTATE_AT);
    NoncesDiffer(x % ROTATE_AT, y % ROTATE_AT);
  }

  /** What an end seals next with is the next use of its direction. */
  lemma SealUsesAre(c: Crypto, k: Keys, i: Side, p: Peer)
    requires EndInv(c, k, i, p)
    ensures var x := 2 * |p.sent|;
      x / ROTATE_AT <= Count(p.hist, i) && (x + 1) / ROTATE_AT <= Count(p.hist, i) &&
      SealUses(c, p.st) == [UseAt(c, k, p.hist, i, x), UseAt(c, k, p.hist, i, x + 1)]
  {
    CurrentKey(c, k, p.hist, i);
    CounterStep(|p.sent|);
    OddUse(|p.sent|);
    hide Nonce, Count, KeysAfter, EpochKey;
  }

  lemma OddUse(n: nat)
    ensures (2 * n + 1) / ROTATE_AT == Epoch(n) && (2 * n + 1) % ROTATE_AT == Counter(n) + 1
  {
    var q, r := 2 * n / ROTATE_AT, 2 * n % ROTATE_AT;
    assert 2 * n == 1000 * q + r;
    assert r < 999;
  }

  // ---------------------------------------------------------------- runs

  /** What the two ends give to the cipher in one step: only sending seals. */
  function StepUses(c: Crypto, w: World, e: Event): seq<CipherUse> {
    if e.Send? && |e.m| <= MAX_MESSAGE then SealUses(c, w.At(e.from).st) else []
  }

  /** What they give to it over a run; after a failed step there is nothing more. */
  function Used(c: Crypto, w: World, events: seq<Event>): seq<CipherUse>
    decreases |events|
  {
    if events == [] then []
    else
      match Step(c, w, events[0])
      case Err(_) => StepUses(c, w, events[0])
      case Ok(next) => StepUses(c, w, events[0]) + Used(c, next, events[1..])
  }

  /** Both ends have counted what they did; nothing is said of what is under way. */
  predicate Counted(c: Crypto, k: Keys, w: World) {
    EndInv(c, k, 0, w.p0) && EndInv(c, k, 1, w.p1)
  }

  lemma CountedSides(c: Crypto, k: Keys, w: World, i: Side)
    ensures Counted(c, k, w) <==> EndInv(c, k, i, w.At(i)) && EndInv(c, k, 1 - i, w.At(1 - i))
  {
    hide EndInv;
  }

  lemma SendKeepsCounted(c: Crypto, k: Keys, w: World, i: Side, m: Bytes)
    requires Counted(c, k, w) && |m| <= MAX_MESSAGE
    ensures var w' := SendStep(c, w, i, m);
      Counted(c, k, w') && |w'.At(i).sent| == |w.At(i).sent| + 1 && w'.At(1 - i).sent == w.At(1 - i).sent
  {
    CountedSides(c, k, w, i);
    var p, q := w.At(i), w.At(1 - i);
    SentKeepsEnd(c, k, p, i, m);
    CounterStep(|p.sent|);
    SendStepIsSent(c, w, i, m);
    var w' := SendStep(c, w, i, m);
    InboxIrrelevant(c, k, 1 - i, q, w'.At(1 - i));
    CountedSides(c, k, w', i);
    hide EndInv, Counted, SendStep, AfterSend;
  }

  /** A packet that is accepted, whatever it is, counts as a message received. */
  lemma AcceptedIsReceived(c: Crypto, w: World, i: Side) returns (m: Bytes)
    requires var st := w.At(i).st; st.rn % 2 == 0 && st.rn < ROTATE_AT
    requires w.At(i).inbox != [] && ReceiveStep(c, w, i).Ok?
    ensures ReceiveStep(c, w, i) == Ok(w.With(i, Received(c, w.At(i), 1 - i, m)))
  {
    var p := w.At(i);
    var s1 := DecryptLength(c, p.st, p.inbox[0][..LENGTH_BYTES]).0;
    assert s1 == p.st.(rn := p.st.rn + 1);
    m := DecryptMessage(c, s1, p.inbox[0][LENGTH_BYTES..]).1.value;
    assert p.hist + [] == p.hist;
  }

  lemma ReceiveKeepsCounted(c: Crypto, k: Keys, w: World, i: Side)
    requires Counted(c, k, w) && ReceiveStep(c, w, i).Ok?
    ensures var w' := ReceiveStep(c, w, i).value;
      Counted(c, k, w') && w'.p0.sent == w.p0.sent && w'.p1.sent == w.p1.sent
  {
    if w.At(i).inbox != [] {
      CountedSides(c, k, w, i);
      CounterStep(|w.At(i).got|);
      var m := AcceptedIsReceived(c, w, i);
      ReceivedKeepsEnd(c, k, w.At(i), i, m);
      hide EndInv, Counted, ReceiveStep, AfterReceive;
      CountedSides(c, k, w.With(i, Received(c, w.At(i), 1 - i, m)), i);
    }
  }

  /** Every step that succeeds keeps the counts, whatever the packets are. */
  lemma StepKeepsCounted(c: Crypto, k: Keys, w: World, e: Event)
    requires Counted(c, k, w) && Step(c, w, e).Ok?
    ensures Counted(c, k, Step(c, w, e).value)
    ensures forall d: Side :: |Step(c, w, e).value.At(d).sent| >= |w.At(d).sent|
    ensures StepUses(c, w, e) != [] ==> |Step(c, w, e).value.At(e.from).sent| == |w.At(e.from).sent| + 1
  {
    hide Counted, SendStep, ReceiveStep, SealUses;
    match e
    case Receive(i) => ReceiveKeepsCounted(c, k, w, i);
    case Send(i, m) =>
      if |m| <= MAX_MESSAGE { SendKeepsCounted(c, k, w, i, m); } else { LongSend(c, w, i, m); }
  }

  lemma LongSend(c: Crypto, w: World, i: Side, m: Bytes)
    requires |m| > MAX_MESSAGE
    ensures SendStep(c, w, i, m) == w
  {}

  /** Every use in a run is a use of its direction's cipher that is still to come at its start. */
  lemma {:induction false} UsedIsUse(c: Crypto, k: Keys, w: World, events: seq<Event>, n: nat)
      returns (d: Side, v: seq<Side>, x: nat)
    requires Counted(c, k, w) && n < |Used(c, w, events)|
    ensures x / ROTATE_AT <= Count(v, d) && x >= 2 * |w.At(d).sent|
    ensures Used(c, w, events)[n] == UseAt(c, k, v, d, x)
    decreases |events|
  {
    hide Counted, Step, UseAt, SealUses, Count;
    var first := StepUses(c, w, events[0]);
    if n < |first| {
      d, v, x := HeadIsUse(c, k, w, events[0], n);
    } else {
      StepKeepsCounted(c, k, w, events[0]);
      d, v, x := UsedIsUse(c, k, Step(c, w, events[0]).value, events[1..], n - |first|);
    }
  }

  lemma HeadIsUse(c: Crypto, k: Keys, w: World, e: Event, n: nat) returns (d: Side, v: seq<Side>, x: nat)
    requires Counted(c, k, w) && n < |StepUses(c, w, e)|
    ensures e.Send? && d == e.from && x == 2 * |w.At(d).sent| + n < 2 * |w.At(d).sent| + 2
    ensures x / ROTATE_AT <= Count(v, d) && StepUses(c, w, e)[n] == UseAt(c, k, v, d, x)
  {
    d := e.from;
    v, x := w.At(d).hist, 2 * |w.At(d).sent| + n;
    CountedSides(c, k, w, d);
    SealUsesAre(c, k, d, w.At(d));
  }

  /** In every run of the transport no key and nonce is used twice, by one end or by both. */
  lemma {:induction false} TransportUsesDiffer(c: Crypto, rank: Bytes -> nat, k: Keys, w: World, events: seq<Event>,
      a: nat, b: nat)
    requires Free(c, rank) && Started(c, k) && Counted(c, k, w) && a < b < |Used(c, w, events)|
    ensures Used(c, w, events)[a] != Used(c, w, events)[b]
    decreases |events|
  {
    hide Free, Started, Counted, Step, UseAt, SealUses, Count;
    var first := StepUses(c, w, events[0]);
    if a >= |first| {
      StepKeepsCounted(c, k, w, events[0]);
      TransportUsesDiffer(c, rank, k, Step(c, w, events[0]).value, events[1..], a - |first|, b - |first|);
    } else {
      var d, v, x := HeadIsUse(c, k, w, events[0], a);
      var e, u, y := LaterUse(c, k, w, events, a, b);
      if UseAt(c, k, v, d, x) == UseAt(c, k, u, e, y) { UsesDiffer(c, rank, k, v, d, x, u, e, y); }
    }
  }

  /** What follows a use of the first step is a use of the other direction or a later one. */
  lemma LaterUse(c: Crypto, k: Keys, w: World, events: seq<Event>, a: nat, b: nat)
      returns (e: Side, u: seq<Side>, y: nat)
    requires Counted(c, k, w) && events != [] && a < |StepUses(c, w, events[0])| && a < b < |Used(c, w, events)|
    ensures y / ROTATE_AT <= Count(u, e) && Used(c, w, events)[b] == UseAt(c, k, u, e, y)
    ensures events[0].Send? && (e == events[0].from ==> y > 2 * |w.At(e).sent| + a)
  {
    hide Counted, Step, UseAt, SealUses, Count;
    var first := StepUses(c, w, events[0]);
    assert |first| == 2 by { TwoUses(c, w, events[0]); }
    if b < |first| {
      e, u, y := HeadIsUse(c, k, w, events[0], b);
    } else {
      StepKeepsCounted(c, k, w, events[0]);
      e, u, y := UsedIsUse(c, k, Step(c, w, events[0]).value, events[1..], b - |first|);
    }
  }

  lemma TwoUses(c: Crypto, w: World, e: Event)
    ensures StepUses(c, w, e) != [] ==> |StepUses(c, w, e)| == 2
  {}

  // ---------------------------------------------------------------- the handshake before it

  /** What the acts seal with, in order: acts 1 and 2, and the two packets of act 3. */
  function HandshakeUses(c: Crypto, i: State, r: State): seq<CipherUse> {
    var (i1, m1) := InitiatorAct1(c, i, r.lpk);
    var (r2, m2) := ReceiveAct2(c, ReceiveAct1(c, r, m1).0);
    var i2 := InitiatorAct2(c, i1, m2).0;
    var i3 := InitiatorAct3(c, i2).0;
    [(i1.tempK, Nonce(0)), (r2.tempK, Nonce(0)), (i2.tempK, Nonce(1)), (i3.tempK, Nonce(0))]
  }

  /** The key derivations of the three acts, each from the chaining key of the one before. */
  datatype Chain = Chain(s1: Bytes, ck0: Bytes, s2: Bytes, ck1: Bytes, s3: Bytes, ck2: Bytes, ck3: Bytes)

  predicate Chained(c: Crypto, h: Chain) {
    h.ck1 == c.hkdf(h.s1, h.ck0).0 && h.ck2 == c.hkdf(h.s2, h.ck1).0 && h.ck3 == c.hkdf(h.s3, h.ck2).0
  }

  /** The keys that the four packets of the handshake are sealed with. */
  function ActKey(c: Crypto, h: Chain, a: nat): Bytes
    requires a < 4
  {
    if a == 0 then c.hkdf(h.s1, h.ck0).1 else if a < 3 then c.hkdf(h.s2, h.ck1).1 else c.hkdf(h.s3, h.ck2).1
  }

  function ActUse(c: Crypto, h: Chain, a: nat): CipherUse
    requires a < 4
  {
    (ActKey(c, h, a), Nonce(if a == 2 then 1 else 0))
  }

  lemma HandshakeChain(c: Crypto, i: State, r: State) returns (h: Chain)
    requires Commutes(c) && Seals(c) && Fresh(c, i) && Fresh(c, r)
    ensures Chained(c, h) && Handshake(c, i, r).0.ck == h.ck3
    ensures |HandshakeUses(c, i, r)| == 4 && forall a: nat | a < 4 :: HandshakeUses(c, i, r)[a] == ActUse(c, h, a)
  {
    var (i1, m1) := InitiatorAct1(c, i, r.lpk);
    var (r1, o1) := ReceiveAct1(c, r, m1);
    Act1Agrees(c, i, r);
    FreshKept(c, i, i1);
    FreshKept(c, r, r1);
    Act2Agrees(c, i1, r1);
    var (r2, m2) := ReceiveAct2(c, r1);
    var (i2, o2) := InitiatorAct2(c, i1, m2);
    var i3 := InitiatorAct3(c, i2).0;
    var s1, ck0 := Act1Derives(c, i, r.lpk);
    var s2 := Act2Derives(c, r1);
    var s3 := Act3Derives(c, i2);
    h := Chain(s1, ck0, s2, i1.ck, s3, i2.ck, i3.ck);
    hide Commutes, Seals, Fresh, InitiatorAct1, ReceiveAct1, ReceiveAct2, InitiatorAct2, InitiatorAct3, Nonce;
    assert HandshakeUses(c, i, r) == [ActUse(c, h, 0), ActUse(c, h, 1), ActUse(c, h, 2), ActUse(c, h, 3)];
  }

  lemma Act1Derives(c: Crypto, st: State, rpk: Bytes) returns (s: Bytes, ck: Bytes)
    ensures var s1 := InitiatorAct1(c, st, rpk).0; (s1.ck, s1.tempK) == c.hkdf(s, ck)
  {
    s, ck := c.ecdh(rpk, st.es), c.sha256(PROTOCOL_NAME);
  }

  lemma Act2Derives(c: Crypto, st: State) returns (s: Bytes)
    ensures var s1 := ReceiveAct2(c, st).0; (s1.ck, s1.tempK) == c.hkdf(s, st.ck)
  {
    s := c.ecdh(st.repk, st.es);
  }

  lemma Act3Derives(c: Crypto, st: State) returns (s: Bytes)
    ensures var s1 := InitiatorAct3(c, st).0; (s1.ck, s1.tempK) == c.hkdf(s, st.ck)
  {
    s := c.ecdh(st.repk, st.ls);
  }

  /** No transport key is a key derived from an older chaining key. */
  lemma OlderKeyDiffers(c: Crypto, rank: Bytes -> nat, k: Keys, v: seq<Side>, d: Side, q: nat, s: Bytes, older: Bytes)
    requires Free(c, rank) && Started(c, k) && q <= Count(v, d) && rank(older) < rank(k.ck)
    ensures EpochKey(c, k, v, d, q) != c.hkdf(s, older).1
  {
    if q == 0 {
      assert EpochKey(c, k, v, d, q) == k.Key(d);
      assert k.key0 == c.hkdf([], k.ck).0 && k.key1 == c.hkdf([], k.ck).1;
    } else {
      var u := LastRotation(c, k, v, d, q);
      ChainGrows(c, rank, k, u);
      var ku := KeysAfter(c, k, u);
      assert EpochKey(c, k, v, d, q) == c.hkdf(ku.Key(d), ku.ck).1;
    }
  }

  lemma ChainRises(c: Crypto, rank: Bytes -> nat, h: Chain)
    requires Free(c, rank) && Chained(c, h)
    ensures rank(h.ck0) < rank(h.ck1) < rank(h.ck2) < rank(h.ck3)
  {}

  lemma ActUsesDiffer(c: Crypto, rank: Bytes -> nat, h: Chain, a: nat, b: nat)
    requires Free(c, rank) && Chained(c, h) && a < b < 4
    ensures ActUse(c, h, a) != ActUse(c, h, b)
  {
    ChainRises(c, rank, h);
    NoncesDiffer01();
    hide Nonce;
  }

  /** From the first act of an honest handshake on and over every run after it, no key and nonce is
      given to the cipher twice, by one end or by both. */
  lemma NoPairUsedTwice(c: Crypto, rank: Bytes -> nat, i: State, r: State, events: seq<Event>, a: nat, b: nat)
    requires Commutes(c) && Seals(c) && Free(c, rank) && Fresh(c, i) && Fresh(c, r)
    requires var (i3, r3, _) := Handshake(c, i, r);
      a < b < |HandshakeUses(c, i, r) + Used(c, Connected(i3, r3), events)|
    ensures var (i3, r3, _) := Handshake(c, i, r);
      var used := HandshakeUses(c, i, r) + Used(c, Connected(i3, r3), events);
      used[a] != used[b]
  {
    hide Commutes, Seals, Free, Started, Fresh, Handshake, HandshakeUses, Used, Chained, EndInv, LinkInv, ActUse;
    var (i3, r3, ok) := Handshake(c, i, r);
    var k, w := Keys(i3.sk, i3.rk, i3.ck), Connected(i3, r3);
    HandshakeStarts(c, i, r);
    var h := HandshakeChain(c, i, r);
    UsesAfterChain(c, rank, k, w, events, h, HandshakeUses(c, i, r), a, b);
  }

  lemma UsesAfterChain(c: Crypto, rank: Bytes -> nat, k: Keys, w: World, events: seq<Event>,
      h: Chain, first: seq<CipherUse>, a: nat, b: nat)
    requires Free(c, rank) && Started(c, k) && Counted(c, k, w) && Chained(c, h) && k.ck == h.ck3
    requires |first| == 4 && forall n: nat | n < 4 :: first[n] == ActUse(c, h, n)
    requires a < b < 4 + |Used(c, w, events)|
    ensures (first + Used(c, w, events))[a] != (first + Used(c, w, events))[b]
  {
    hide Free, Started, Used, Chained, Counted, ActUse;
    if a >= 4 {
      TransportUsesDiffer(c, rank, k, w, events, a - 4, b - 4);
    } else if b >= 4 {
      TransportAfterHandshake(c, rank, k, w, events, b - 4, h, a);
    } else {
      ActUsesDiffer(c, rank, h, a, b);
    }
  }

  lemma NoncesDiffer01()
    ensures Nonce(0) != Nonce(1)
  {
    assert Nonce(0)[4] != Nonce(1)[4];
  }

  lemma TransportAfterHandshake(c: Crypto, rank: Bytes -> nat, k: Keys, w: World, events: seq<Event>, n: nat,
      h: Chain, a: nat)
    requires Free(c, rank) && Started(c, k) && Counted(c, k, w) && n < |Used(c, w, events)|
    requires Chained(c, h) && k.ck == h.ck3 && a < 4
    ensures Used(c, w, events)[n] != ActUse(c, h, a)
  {
    ChainRises(c, rank, h);
    hide Free, Started, Counted, Chained, Used;
    var d, v, x := UsedIsUse(c, k, w, events, n);
    if a == 0 {
      OlderKeyDiffers(c, rank, k, v, d, x / ROTATE_AT, h.s1, h.ck0);
    } else if a < 3 {
      OlderKeyDiffers(c, rank, k, v, d, x / ROTATE_AT, h.s2, h.ck1);
    } else {
      OlderKeyDiffers(c, rank, k, v, d, x / ROTATE_AT, h.s3, h.ck2);
    }
  }
}
