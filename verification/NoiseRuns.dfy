/** Two-party transport runs: who can decrypt what, and when both ends rotate to the same keys. */
module NoiseRuns {
  import opened Wrappers
  import opened Noise

  /** The party, 0 or 1, whose sending key is meant. */
  type Side = s: nat | s < 2

  // ---------------------------------------------------------------- the key chain

  /** The two sending keys and the chaining key that both directions share. */
  datatype Keys = Keys(key0: Bytes, key1: Bytes, ck: Bytes) {
    function Key(d: Side): Bytes {
      if d == 0 then key0 else key1
    }
  }

  function Rotate(c: Crypto, k: Keys, d: Side): Keys {
    var next := c.hkdf(k.Key(d), k.ck);
    if d == 0 then Keys(next.1, k.key1, next.0) else Keys(k.key0, next.1, next.0)
  }

  /** The keys after the rotations of `w`, in order. */
  function KeysAfter(c: Crypto, k: Keys, w: seq<Side>): Keys {
    if w == [] then k else Rotate(c, KeysAfter(c, k, w[..|w| - 1]), w[|w| - 1])
  }

  function Count(w: seq<Side>, d: Side): nat {
    if w == [] then 0 else Count(w[..|w| - 1], d) + (if w[|w| - 1] == d then 1 else 0)
  }

  /** The shortest prefix of `w` with `r` rotations of direction `d`. */
  function UpTo(w: seq<Side>, d: Side, r: nat): seq<Side>
    requires r <= Count(w, d)
  {
    if r == 0 then []
    else if w[|w| - 1] == d && r == Count(w, d) then w
    else UpTo(w[..|w| - 1], d, r)
  }

  /** Key number `r` of direction `d`, as an end that rotated in the order `w` knows it. */
  function EpochKey(c: Crypto, k: Keys, w: seq<Side>, d: Side, r: nat): Bytes
    requires r <= Count(w, d)
  {
    KeysAfter(c, k, UpTo(w, d, r)).Key(d)
  }

  lemma {:induction false} PrefixCount(v: seq<Side>, w: seq<Side>, d: Side)
    requires v <= w
    ensures Count(v, d) <= Count(w, d)
    decreases |w|
  {
    if |v| < |w| {
      PrefixCount(v, w[..|w| - 1], d);
    } else {
      assert v == w;
    }
  }

  lemma {:induction false} UpToOfPrefix(v: seq<Side>, w: seq<Side>, d: Side, r: nat)
    requires v <= w && r <= Count(v, d)
    ensures r <= Count(w, d) && UpTo(w, d, r) == UpTo(v, d, r)
    decreases |w|
  {
    PrefixCount(v, w, d);
    if |v| < |w| {
      PrefixCount(v, w[..|w| - 1], d);
      UpToOfPrefix(v, w[..|w| - 1], d, r);
    } else {
      assert v == w;
    }
  }

  /** The current key of a direction is the key of its last rotation. */
  lemma {:induction false} CurrentKey(c: Crypto, k: Keys, w: seq<Side>, d: Side)
    ensures KeysAfter(c, k, w).Key(d) == EpochKey(c, k, w, d, Count(w, d))
  {
    if w != [] && w[|w| - 1] != d {
      CurrentKey(c, k, w[..|w| - 1], d);
    }
  }

  lemma {:induction false} UpToEnds(w: seq<Side>, d: Side, r: nat)
    requires 0 < r <= Count(w, d)
    ensures var v := UpTo(w, d, r); v <= w && v != [] && v[|v| - 1] == d && Count(v, d) == r
  {
    if !(w[|w| - 1] == d && r == Count(w, d)) {
      UpToEnds(w[..|w| - 1], d, r);
    }
  }

  // ---------------------------------------------------------------- a free key chain

  /** HKDF as a free operation: different inputs give different outputs, the two halves never
      meet, and an output is never one of its own ancestors. */
  ghost predicate Free(c: Crypto, rank: Bytes -> nat) {
    && (forall x, y, x', y' {:trigger c.hkdf(x, y), c.hkdf(x', y')} ::
          c.hkdf(x, y).0 == c.hkdf(x', y').0 || c.hkdf(x, y).1 == c.hkdf(x', y').1 ==> x == x' && y == y')
    && (forall x, y, x', y' {:trigger c.hkdf(x, y), c.hkdf(x', y')} :: c.hkdf(x, y).0 != c.hkdf(x', y').1)
    && (forall x, y {:trigger c.hkdf(x, y)} ::
          rank(c.hkdf(x, y).0) > rank(y) && rank(c.hkdf(x, y).0) > rank(x) && rank(c.hkdf(x, y).1) > rank(x))
  }

  /** The keys as act 3 leaves them. */
  predicate Started(c: Crypto, k: Keys) {
    (k.key0, k.key1) == c.hkdf([], k.ck)
  }

  lemma {:induction false} ChainGrows(c: Crypto, rank: Bytes -> nat, k: Keys, w: seq<Side>)
    requires Free(c, rank)
    ensures rank(KeysAfter(c, k, w).ck) >= rank(k.ck)
    ensures w != [] ==> rank(KeysAfter(c, k, w).ck) > rank(k.ck)
  {
    if w != [] { ChainGrows(c, rank, k, w[..|w| - 1]); }
  }

  /** A key produced by a rotation is never one of the two first keys. */
  lemma FirstKeysNeverReturn(c: Crypto, rank: Bytes -> nat, k: Keys, u: seq<Side>, e: Side, d: Side)
    requires Free(c, rank) && Started(c, k)
    ensures var keys := KeysAfter(c, k, u);
      c.hkdf(keys.Key(e), keys.ck).1 != k.Key(d)
  {
    var keys := KeysAfter(c, k, u);
    ChainGrows(c, rank, k, u);
    assert k.key0 == c.hkdf([], k.ck).0 && k.key1 == c.hkdf([], k.ck).1;
    assert rank(k.key0) > rank([]) && rank(k.key1) > rank([]);
    assert keys.ck == k.ck ==> u == [];
  }

  /** The chaining key and the two keys determine the rotations that led to them. */
  lemma {:induction false} ChainDeterminesOrder(c: Crypto, rank: Bytes -> nat, k: Keys, v: seq<Side>, w: seq<Side>)
    requires Free(c, rank) && Started(c, k)
    requires KeysAfter(c, k, v).ck == KeysAfter(c, k, w).ck
    ensures v == w
    decreases |v| + |w|, 0
  {
    ChainGrows(c, rank, k, v);
    ChainGrows(c, rank, k, w);
    if v != [] && w != [] {
      var v', w', d, e := v[..|v| - 1], w[..|w| - 1], v[|v| - 1], w[|w| - 1];
      var kv, kw := KeysAfter(c, k, v'), KeysAfter(c, k, w');
      assert c.hkdf(kv.Key(d), kv.ck).0 == c.hkdf(kw.Key(e), kw.ck).0;
      ChainDeterminesOrder(c, rank, k, v', w');
      if d != e { DirectionsDiffer(c, rank, k, v'); }
      assert v == v' + [d] && w == w' + [e];
    }
  }

  /** The two directions never share a key. */
  lemma {:induction false} DirectionsDiffer(c: Crypto, rank: Bytes -> nat, k: Keys, w: seq<Side>)
    requires Free(c, rank) && Started(c, k)
    ensures KeysAfter(c, k, w).key0 != KeysAfter(c, k, w).key1
    decreases |w| + |w|, 1
  {
    if w == [] {
      assert c.hkdf([], k.ck).0 != c.hkdf([], k.ck).1;
    } else {
      var u, e := w[..|w| - 1], w[|w| - 1];
      OtherKeyDiffers(c, rank, k, u, u, e);
    }
  }

  lemma {:induction false} OtherKeyDiffers(c: Crypto, rank: Bytes -> nat, k: Keys, u: seq<Side>, v: seq<Side>, e: Side)
    requires Free(c, rank) && Started(c, k) && v <= u
    ensures c.hkdf(KeysAfter(c, k, u).Key(e), KeysAfter(c, k, u).ck).1 != KeysAfter(c, k, v).Key(1 - e)
    decreases |u| + |v| + 1, 0
  {
    if v == [] {
      FirstKeysNeverReturn(c, rank, k, u, e, 1 - e);
    } else {
      var v', d := v[..|v| - 1], v[|v| - 1];
      if d == e {
        OtherKeyDiffers(c, rank, k, u, v', e);
      } else {
        var ku, kv := KeysAfter(c, k, u), KeysAfter(c, k, v');
        if c.hkdf(ku.Key(e), ku.ck).1 == c.hkdf(kv.Key(d), kv.ck).1 {
          ChainDeterminesOrder(c, rank, k, u, v');
        }
      }
    }
  }

  /** Two ends agree on key number `r` of a direction exactly when they made the same
      rotations, in the same order, up to it. */
  lemma SameKeyIffSameOrder(c: Crypto, rank: Bytes -> nat, k: Keys, v: seq<Side>, w: seq<Side>, d: Side, r: nat)
    requires Free(c, rank) && Started(c, k)
    requires r <= Count(v, d) && r <= Count(w, d)
    ensures EpochKey(c, k, v, d, r) == EpochKey(c, k, w, d, r) <==> UpTo(v, d, r) == UpTo(w, d, r)
  {
    if r > 0 && EpochKey(c, k, v, d, r) == EpochKey(c, k, w, d, r) {
      hide Free, Started, Rotate, EpochKey, Count, UpTo, KeysAfter;
      var v0 := LastRotation(c, k, v, d, r);
      var w0 := LastRotation(c, k, w, d, r);
      SameOrigin(c, rank, k, v0, w0, d, d);
    }
  }

  /** No two keys coincide, neither within one end nor between two ends that rotated in
      different orders: not two epochs of one direction, not epochs of the two directions. */
  lemma EpochKeysDistinct(c: Crypto, rank: Bytes -> nat, k: Keys,
      v: seq<Side>, d: Side, r: nat, w: seq<Side>, e: Side, q: nat)
    requires Free(c, rank) && Started(c, k)
    requires r <= Count(v, d) && q <= Count(w, e)
    requires EpochKey(c, k, v, d, r) == EpochKey(c, k, w, e, q)
    ensures d == e && r == q
  {
    if r == 0 || q == 0 {
      DirectionsDiffer(c, rank, k, []);
      if r > 0 { RotatedKeyIsNew(c, rank, k, v, d, r, e); }
      if q > 0 { RotatedKeyIsNew(c, rank, k, w, e, q, d); }
    } else {
      var v0 := LastRotation(c, k, v, d, r);
      var w0 := LastRotation(c, k, w, e, q);
      SameOrigin(c, rank, k, v0, w0, d, e);
      hide Free, KeysAfter, UpTo;
    }
  }

  /** Every key but the first of a direction comes from the rotation that ends its epoch's history. */
  lemma LastRotation(c: Crypto, k: Keys, w: seq<Side>, d: Side, r: nat) returns (v: seq<Side>)
    requires 0 < r <= Count(w, d)
    ensures UpTo(w, d, r) == v + [d] && Count(v, d) == r - 1
    ensures EpochKey(c, k, w, d, r) == Rotate(c, KeysAfter(c, k, v), d).Key(d)
  {
    UpToEnds(w, d, r);
    var u := UpTo(w, d, r);
    v := u[..|u| - 1];
    assert u == v + [d];
  }

  /** A rotated key tells which direction rotated, and after which rotations. */
  lemma SameOrigin(c: Crypto, rank: Bytes -> nat, k: Keys, v: seq<Side>, w: seq<Side>, d: Side, e: Side)
    requires Free(c, rank) && Started(c, k)
    requires Rotate(c, KeysAfter(c, k, v), d).Key(d) == Rotate(c, KeysAfter(c, k, w), e).Key(e)
    ensures v == w && d == e
  {
    hide KeysAfter;
    var kv, kw := KeysAfter(c, k, v), KeysAfter(c, k, w);
    assert c.hkdf(kv.Key(d), kv.ck).1 == c.hkdf(kw.Key(e), kw.ck).1;
    ChainDeterminesOrder(c, rank, k, v, w);
    DirectionsDiffer(c, rank, k, v);
  }

  lemma RotatedKeyIsNew(c: Crypto, rank: Bytes -> nat, k: Keys, w: seq<Side>, d: Side, r: nat, e: Side)
    requires Free(c, rank) && Started(c, k)
    requires 0 < r <= Count(w, d)
    ensures EpochKey(c, k, w, d, r) != k.Key(e)
  {
    var v := UpTo(w, d, r);
    UpToEnds(w, d, r);
    FirstKeysNeverReturn(c, rank, k, v[..|v| - 1], d, e);
  }

  // ---------------------------------------------------------------- runs

  /** One end of the connection: its state, the rotations it has made, what it has sent and
      decrypted, and the packets on their way to it. */
  datatype Peer = Peer(st: State, hist: seq<Side>, sent: seq<Bytes>, got: seq<Bytes>, inbox: seq<Bytes>)

  datatype World = World(p0: Peer, p1: Peer) {
    function At(i: Side): Peer {
      if i == 0 then p0 else p1
    }

    function With(i: Side, p: Peer): World {
      if i == 0 then World(p, p1) else World(p0, p)
    }
  }

  datatype Event = Send(from: Side, m: Bytes) | Receive(at: Side)

  function SendStep(c: Crypto, w: World, i: Side, m: Bytes): World {
    var p, q := w.At(i), w.At(1 - i);
    match EncryptMessage(c, p.st, m)
    case Err(_) => w
    case Ok((st, ct)) =>
      var first := if p.st.sn + 1 >= ROTATE_AT then [i] else [];
      var second := if SealNext(c, p.st, BE16(|m|)).0.sn + 1 >= ROTATE_AT then [i] else [];
      w.With(i, p.(st := st, hist := p.hist + first + second, sent := p.sent + [m]))
       .With(1 - i, q.(inbox := q.inbox + [ct]))
  }

  const LENGTH_BYTES: nat := 18

  function ReceiveStep(c: Crypto, w: World, i: Side): Result<World, Error> {
    var p := w.At(i);
    if p.inbox == [] then Ok(w)
    else if |p.inbox[0]| < LENGTH_BYTES then Err(ReadFailed)
    else
      var (s1, l) := DecryptLength(c, p.st, p.inbox[0][..LENGTH_BYTES]);
      var (s2, m) := DecryptMessage(c, s1, p.inbox[0][LENGTH_BYTES..]);
      var first := if p.st.rn + 1 >= ROTATE_AT then [1 - i] else [];
      var second := if s1.rn + 1 >= ROTATE_AT then [1 - i] else [];
      match (l, m)
      case (Ok(_), Ok(text)) =>
        Ok(w.With(i, p.(st := s2, hist := p.hist + first + second, got := p.got + [text], inbox := p.inbox[1..])))
      case _ => Err(DecryptFailed)
  }

  function Step(c: Crypto, w: World, e: Event): Result<World, Error> {
    match e
    case Send(i, m) => Ok(SendStep(c, w, i, m))
    case Receive(i) => ReceiveStep(c, w, i)
  }

  function Run(c: Crypto, w: World, events: seq<Event>): Result<World, Error>
    decreases |events|
  {
    if events == [] then Ok(w)
    else
      match Step(c, w, events[0])
      case Err(e) => Err(e)
      case Ok(next) => Run(c, next, events[1..])
  }

  // ---------------------------------------------------------------- what every step keeps

  /** The wire form of a message under one key, its length at nonce `n` and its body at `n + 1`. */
  function Packet(c: Crypto, key: Bytes, n: nat, m: Bytes): Bytes
    requires |m| <= MAX_MESSAGE
  {
    c.seal(key, Nonce(n), [], BE16(|m|)) + c.seal(key, Nonce(n + 1), [], m)
  }

  /** A direction's nonce counter after `n` messages, two cipher uses each. */
  function Counter(n: nat): nat {
    2 * n % ROTATE_AT
  }

  /** The rotations of a direction after `n` messages. */
  function Epoch(n: nat): nat {
    2 * n / ROTATE_AT
  }

  lemma CounterStep(n: nat)
    ensures Counter(n) % 2 == 0 && Counter(n) < ROTATE_AT
    ensures Counter(n + 1) == if Counter(n) + 2 == ROTATE_AT then 0 else Counter(n) + 2
    ensures Epoch(n + 1) == if Counter(n) + 2 == ROTATE_AT then Epoch(n) + 1 else Epoch(n)
  {}

  /** Both ends count 1000 uses of a direction's cipher per rotation of its key. */
  predicate EndInv(c: Crypto, k: Keys, i: Side, p: Peer) {
    var keys := KeysAfter(c, k, p.hist);
    && (p.st.sk, p.st.rk, p.st.ck) == (keys.Key(i), keys.Key(1 - i), keys.ck)
    && p.st.sn == Counter(|p.sent|) && Count(p.hist, i) == Epoch(|p.sent|)
    && p.st.rn == Counter(|p.got|) && Count(p.hist, 1 - i) == Epoch(|p.got|)
    && (forall n | 0 <= n < |p.sent| :: |p.sent[n]| <= MAX_MESSAGE)
  }

  /** The packet of message `n` of direction `i`. */
  function SentPacket(c: Crypto, k: Keys, i: Side, p: Peer, n: nat): Bytes
    requires n < |p.sent| && |p.sent[n]| <= MAX_MESSAGE && Epoch(n) <= Count(p.hist, i)
  {
    Packet(c, EpochKey(c, k, p.hist, i, Epoch(n)), Counter(n), p.sent[n])
  }

  predicate LinkInv(c: Crypto, k: Keys, i: Side, p: Peer, q: Peer)
    requires EndInv(c, k, i, p)
  {
    && |q.got| + |q.inbox| == |p.sent|
    && q.got == p.sent[..|q.got|]
    && (forall n | 0 <= n < |q.inbox| :: q.inbox[n] == SentPacket(c, k, i, p, |q.got| + n))
  }

  predicate Inv(c: Crypto, k: Keys, w: World) {
    && EndInv(c, k, 0, w.p0) && EndInv(c, k, 1, w.p1)
    && LinkInv(c, k, 0, w.p0, w.p1) && LinkInv(c, k, 1, w.p1, w.p0)
  }

  // ---------------------------------------------------------------- sending

  /** After a message's two cipher operations the counter has moved by two, or the keys have
      rotated: a rotation never falls between a length and its body. */
  function AfterSend(c: Crypto, st: State): State {
    if st.sn + 2 == ROTATE_AT then
      var keys := c.hkdf(st.sk, st.ck);
      st.(ck := keys.0, sk := keys.1, sn := 0)
    else st.(sn := st.sn + 2)
  }

  function AfterReceive(c: Crypto, st: State): State {
    if st.rn + 2 == ROTATE_AT then
      var keys := c.hkdf(st.rk, st.ck);
      st.(ck := keys.0, rk := keys.1, rn := 0)
    else st.(rn := st.rn + 2)
  }

  lemma EncryptIsPacket(c: Crypto, st: State, m: Bytes)
    requires st.sn % 2 == 0 && st.sn < ROTATE_AT && |m| <= MAX_MESSAGE
    ensures EncryptMessage(c, st, m) == Ok((AfterSend(c, st), Packet(c, st.sk, st.sn, m)))
  {}

  /** A message's two cipher operations, as one step of the sender. */
  function Sent(c: Crypto, p: Peer, i: Side, m: Bytes): Peer {
    var rotated := if p.st.sn + 2 == ROTATE_AT then [i] else [];
    p.(st := AfterSend(c, p.st), hist := p.hist + rotated, sent := p.sent + [m])
  }

  lemma SendStepIsSent(c: Crypto, w: World, i: Side, m: Bytes)
    requires var st := w.At(i).st; st.sn % 2 == 0 && st.sn < ROTATE_AT
    requires |m| <= MAX_MESSAGE
    ensures var p, q := w.At(i), w.At(1 - i);
      SendStep(c, w, i, m) ==
      w.With(i, Sent(c, p, i, m)).With(1 - i, q.(inbox := q.inbox + [Packet(c, p.st.sk, p.st.sn, m)]))
  {
    var p := w.At(i);
    EncryptIsPacket(c, p.st, m);
    hide Packet, Count, KeysAfter;
    var s1 := SealNext(c, p.st, BE16(|m|)).0;
    assert s1.sn == p.st.sn + 1;
    assert p.hist + [] == p.hist;
    assert Sent(c, p, i, m).hist ==
      p.hist + (if p.st.sn + 1 >= ROTATE_AT then [i] else []) + (if s1.sn + 1 >= ROTATE_AT then [i] else []);
  }

  lemma RotationKept(c: Crypto, k: Keys, hist: seq<Side>, d: Side)
    ensures KeysAfter(c, k, hist + [d]) == Rotate(c, KeysAfter(c, k, hist), d)
    ensures Count(hist + [d], d) == Count(hist, d) + 1
    ensures Count(hist + [d], 1 - d) == Count(hist, 1 - d)
  {
    assert (hist + [d])[..|hist|] == hist;
  }

  lemma SentKeepsEnd(c: Crypto, k: Keys, p: Peer, i: Side, m: Bytes)
    requires EndInv(c, k, i, p) && |m| <= MAX_MESSAGE
    ensures EndInv(c, k, i, Sent(c, p, i, m)) && p.hist <= Sent(c, p, i, m).hist
  {
    hide KeysAfter, Count, Counter, Epoch;
    RotationKept(c, k, p.hist, i);
    CounterStep(|p.sent|);
    var p' := Sent(c, p, i, m);
    if p.st.sn + 2 == ROTATE_AT {
      assert p'.hist == p.hist + [i];
    } else {
      assert p'.hist == p.hist;
    }
  }

  lemma SentPacketKept(c: Crypto, k: Keys, i: Side, p: Peer, p': Peer, n: nat)
    requires EndInv(c, k, i, p) && EndInv(c, k, i, p')
    requires p.hist <= p'.hist && p.sent <= p'.sent && n < |p.sent|
    ensures SentPacket(c, k, i, p', n) == SentPacket(c, k, i, p, n)
  {
    UpToOfPrefix(p.hist, p'.hist, i, Epoch(n));
  }

  lemma NewPacket(c: Crypto, k: Keys, p: Peer, i: Side, m: Bytes)
    requires EndInv(c, k, i, p) && |m| <= MAX_MESSAGE && EndInv(c, k, i, Sent(c, p, i, m))
    requires p.hist <= Sent(c, p, i, m).hist
    ensures SentPacket(c, k, i, Sent(c, p, i, m), |p.sent|) == Packet(c, p.st.sk, p.st.sn, m)
  {
    CurrentKey(c, k, p.hist, i);
    UpToOfPrefix(p.hist, Sent(c, p, i, m).hist, i, Count(p.hist, i));
    hide Count, KeysAfter, UpTo, Packet;
  }

  /** The invariant, seen from either side. */
  lemma InvSides(c: Crypto, k: Keys, w: World, i: Side)
    ensures Inv(c, k, w) <==>
      EndInv(c, k, i, w.At(i)) && EndInv(c, k, 1 - i, w.At(1 - i)) &&
      LinkInv(c, k, i, w.At(i), w.At(1 - i)) && LinkInv(c, k, 1 - i, w.At(1 - i), w.At(i))
  {
    hide EndInv, LinkInv;
  }

  /** A sender's progress leaves the link on which it receives as it was. */
  lemma ReverseLinkKept(c: Crypto, k: Keys, i: Side, p: Peer, p': Peer, q: Peer, q': Peer)
    requires EndInv(c, k, i, p) && EndInv(c, k, i, p') && LinkInv(c, k, i, p, q)
    requires p.hist <= p'.hist && p.sent == p'.sent && q'.got == q.got && q'.inbox == q.inbox
    ensures LinkInv(c, k, i, p', q')
  {
    hide KeysAfter, Packet, UpTo;
    forall n | 0 <= n < |q.inbox|
      ensures q.inbox[n] == SentPacket(c, k, i, p', |q.got| + n)
    {
      SentPacketKept(c, k, i, p, p', |q.got| + n);
    }
  }

  lemma SendKeepsLink(c: Crypto, k: Keys, i: Side, p: Peer, q: Peer, p': Peer, q': Peer, ct: Bytes)
    requires EndInv(c, k, i, p) && EndInv(c, k, i, p') && LinkInv(c, k, i, p, q)
    requires p.hist <= p'.hist && p.sent <= p'.sent && |p'.sent| == |p.sent| + 1
    requires q'.got == q.got && q'.inbox == q.inbox + [ct] && ct == SentPacket(c, k, i, p', |p.sent|)
    ensures LinkInv(c, k, i, p', q')
  {
    hide KeysAfter, Packet, UpTo;
    forall n | 0 <= n < |q'.inbox|
      ensures q'.inbox[n] == SentPacket(c, k, i, p', |q'.got| + n)
    {
      if n < |q.inbox| { SentPacketKept(c, k, i, p, p', |q.got| + n); }
    }
  }

  lemma InboxIrrelevant(c: Crypto, k: Keys, i: Side, q: Peer, q': Peer)
    requires EndInv(c, k, i, q) && (q'.st, q'.hist, q'.sent, q'.got) == (q.st, q.hist, q.sent, q.got)
    ensures EndInv(c, k, i, q')
  {}

  lemma SendKeepsInv(c: Crypto, k: Keys, w: World, i: Side, m: Bytes)
    requires Inv(c, k, w)
    ensures Inv(c, k, SendStep(c, w, i, m))
    ensures var p, p', q, q' := w.At(i), SendStep(c, w, i, m).At(i), w.At(1 - i), SendStep(c, w, i, m).At(1 - i);
      p.hist <= p'.hist && p'.got == p.got && p'.inbox == p.inbox &&
      q'.hist == q.hist && q'.sent == q.sent && q'.got == q.got &&
      (|m| <= MAX_MESSAGE ==> |p'.sent| == |p.sent| + 1 && |q'.inbox| == |q.inbox| + 1)
  {
    if |m| <= MAX_MESSAGE {
      var p, q := w.At(i), w.At(1 - i);
      var p' := Sent(c, p, i, m);
      var ct := Packet(c, p.st.sk, p.st.sn, m);
      var q' := q.(inbox := q.inbox + [ct]);
      InvSides(c, k, w, i);
      SentKeepsEnd(c, k, p, i, m);
      NewPacket(c, k, p, i, m);
      CounterStep(|p.sent|);
      SendStepIsSent(c, w, i, m);
      hide LinkInv, Packet, SentPacket, Counter, Epoch, Inv, KeysAfter, SendStep;
      InboxIrrelevant(c, k, 1 - i, q, q');
      SendKeepsLink(c, k, i, p, q, p', q', ct);
      ReverseLinkKept(c, k, 1 - i, q, q', p, p');
      InvSides(c, k, SendStep(c, w, i, m), i);
    }
  }

  // ---------------------------------------------------------------- receiving

  lemma DecryptPacket(c: Crypto, st: State, m: Bytes)
    requires Seals(c) && st.rn % 2 == 0 && st.rn < ROTATE_AT && |m| <= MAX_MESSAGE
    ensures var ct := Packet(c, st.rk, st.rn, m);
      |ct| >= LENGTH_BYTES &&
      var (s1, l) := DecryptLength(c, st, ct[..LENGTH_BYTES]);
      l == Ok(|m|) && s1 == st.(rn := st.rn + 1) &&
      DecryptMessage(c, s1, ct[LENGTH_BYTES..]) == (AfterReceive(c, st), Ok(m))
  {
    var lc := c.seal(st.rk, Nonce(st.rn), [], BE16(|m|));
    var body := c.seal(st.rk, Nonce(st.rn + 1), [], m);
    assert |lc| == LENGTH_BYTES;
    assert (lc + body)[..LENGTH_BYTES] == lc && (lc + body)[LENGTH_BYTES..] == body;
    assert c.unseal(st.rk, Nonce(st.rn), [], lc) == Some(BE16(|m|));
    assert c.unseal(st.rk, Nonce(st.rn + 1), [], body) == Some(m);
  }

  /** The receiver at `i` and the sender made the same rotations up to the key of the packet
      that `i` reads next. */
  predicate SameOrder(w: World, i: Side) {
    var j, r := 1 - i, Epoch(|w.At(i).got|);
    r <= Count(w.At(j).hist, j) && r <= Count(w.At(i).hist, j) &&
    UpTo(w.At(j).hist, j, r) == UpTo(w.At(i).hist, j, r)
  }

  function Received(c: Crypto, p: Peer, j: Side, m: Bytes): Peer
    requires p.inbox != []
  {
    var rotated := if p.st.rn + 2 == ROTATE_AT then [j] else [];
    p.(st := AfterReceive(c, p.st), hist := p.hist + rotated, got := p.got + [m], inbox := p.inbox[1..])
  }

  lemma ReceiveStepIsReceived(c: Crypto, w: World, i: Side, m: Bytes)
    requires var st := w.At(i).st; st.rn % 2 == 0 && st.rn < ROTATE_AT
    requires Seals(c) && |m| <= MAX_MESSAGE && w.At(i).inbox != []
    requires w.At(i).inbox[0] == Packet(c, w.At(i).st.rk, w.At(i).st.rn, m)
    ensures ReceiveStep(c, w, i) == Ok(w.With(i, Received(c, w.At(i), 1 - i, m)))
  {
    var p := w.At(i);
    DecryptPacket(c, p.st, m);
    hide Packet, Count, KeysAfter, DecryptLength, DecryptMessage, Seals;
    assert p.hist + [] == p.hist;
  }

  lemma ReceivedKeepsEnd(c: Crypto, k: Keys, p: Peer, i: Side, m: Bytes)
    requires EndInv(c, k, i, p) && p.inbox != []
    ensures EndInv(c, k, i, Received(c, p, 1 - i, m)) && p.hist <= Received(c, p, 1 - i, m).hist
  {
    hide KeysAfter, Count, Counter, Epoch;
    RotationKept(c, k, p.hist, 1 - i);
    CounterStep(|p.got|);
    var p' := Received(c, p, 1 - i, m);
    if p.st.rn + 2 == ROTATE_AT {
      assert p'.hist == p.hist + [1 - i];
    } else {
      assert p'.hist == p.hist;
    }
  }

  /** The key of the packet that `i` reads next and the nonces of its two parts. */
  lemma NextPacket(c: Crypto, k: Keys, w: World, i: Side)
    requires Inv(c, k, w) && w.At(i).inbox != []
    ensures var j, p, q := 1 - i, w.At(i), w.At(1 - i);
      var r := Epoch(|p.got|);
      |p.got| < |q.sent| && |q.sent[|p.got|]| <= MAX_MESSAGE &&
      r <= Count(q.hist, j) && r == Count(p.hist, j) && p.st.rk == EpochKey(c, k, p.hist, j, r) &&
      p.inbox[0] == Packet(c, EpochKey(c, k, q.hist, j, r), p.st.rn, q.sent[|p.got|])
  {
    var j: Side := 1 - i;
    var p, q := w.At(i), w.At(j);
    CurrentKey(c, k, p.hist, j);
    hide Count, KeysAfter, UpTo, Packet;
    assert p.inbox[0] == SentPacket(c, k, j, q, |p.got| + 0);
  }

  lemma ReceiveOk(c: Crypto, k: Keys, w: World, i: Side)
    requires Seals(c) && Inv(c, k, w) && w.At(i).inbox != [] && SameOrder(w, i)
    ensures var p := w.At(i);
      |p.got| < |w.At(1 - i).sent| &&
      ReceiveStep(c, w, i) == Ok(w.With(i, Received(c, p, 1 - i, w.At(1 - i).sent[|p.got|])))
  {
    NextPacket(c, k, w, i);
    CounterStep(|w.At(i).got|);
    hide Packet, Seals, Count, KeysAfter, UpTo, ReceiveStep, Received, LinkInv, Counter, Epoch;
    ReceiveStepIsReceived(c, w, i, w.At(1 - i).sent[|w.At(i).got|]);
  }

  lemma ReceiveKeepsInv(c: Crypto, k: Keys, w: World, i: Side)
    requires Seals(c) && Inv(c, k, w) && w.At(i).inbox != [] && SameOrder(w, i)
    ensures ReceiveStep(c, w, i).Ok? && Inv(c, k, ReceiveStep(c, w, i).value)
    ensures var p, p' := w.At(i), ReceiveStep(c, w, i).value.At(i);
      p.hist <= p'.hist && |p'.got| == |p.got| + 1 && p'.sent == p.sent && p'.inbox == p.inbox[1..] &&
      ReceiveStep(c, w, i).value.At(1 - i) == w.At(1 - i)
  {
    var j: Side := 1 - i;
    var p, q := w.At(i), w.At(j);
    ReceiveOk(c, k, w, i);
    var m := q.sent[|p.got|];
    var p' := Received(c, p, j, m);
    InvSides(c, k, w, i);
    hide LinkInv, ReceiveStep, Packet, SentPacket, SameOrder, Seals, Counter, Epoch, Inv, EndInv, KeysAfter;
    ReceivedKeepsEnd(c, k, p, i, m);
    ReceivedKeepsLink(c, k, j, q, p, p');
    ReverseLinkKept(c, k, i, p, p', q, q);
    InvSides(c, k, ReceiveStep(c, w, i).value, i);
  }

  lemma ReceivedKeepsLink(c: Crypto, k: Keys, j: Side, q: Peer, p: Peer, p': Peer)
    requires EndInv(c, k, j, q) && LinkInv(c, k, j, q, p)
    requires p.inbox != [] && |p.got| < |q.sent|
    requires p'.got == p.got + [q.sent[|p.got|]] && p'.inbox == p.inbox[1..]
    ensures LinkInv(c, k, j, q, p')
  {
    forall n | 0 <= n < |p'.inbox|
      ensures p'.inbox[n] == SentPacket(c, k, j, q, |p'.got| + n)
    {
      assert p.inbox[n + 1] == SentPacket(c, k, j, q, |p.got| + (n + 1));
    }
  }

  /** A wrong key never opens a packet sealed with another one. */
  ghost predicate Distinguishes(c: Crypto, right: Bytes, wrong: Bytes) {
    right != wrong ==> forall n, ad, p :: c.unseal(wrong, n, ad, c.seal(right, n, ad, p)).None?
  }

  /** The next packet can be decrypted exactly when both ends rotated in the same order. */
  lemma ReceiveIffSameOrder(c: Crypto, rank: Bytes -> nat, k: Keys, w: World, i: Side)
    requires Seals(c) && Free(c, rank) && Started(c, k)
    requires Inv(c, k, w) && w.At(i).inbox != []
    requires var j, r := 1 - i, Epoch(|w.At(i).got|);
      r <= Count(w.At(j).hist, j) ==> Distinguishes(c, EpochKey(c, k, w.At(j).hist, j, r), w.At(i).st.rk)
    ensures ReceiveStep(c, w, i).Ok? <==> SameOrder(w, i)
  {
    var j: Side := 1 - i;
    var p, q := w.At(i), w.At(j);
    var r := Epoch(|p.got|);
    NextPacket(c, k, w, i);
    SameKeyIffSameOrder(c, rank, k, q.hist, p.hist, j, r);
    if SameOrder(w, i) {
      ReceiveOk(c, k, w, i);
    } else {
      WrongKeyFails(c, w, i, EpochKey(c, k, q.hist, j, r), q.sent[|p.got|]);
    }
  }

  lemma WrongKeyFails(c: Crypto, w: World, i: Side, key: Bytes, m: Bytes)
    requires Seals(c) && w.At(i).inbox != [] && |m| <= MAX_MESSAGE
    requires key != w.At(i).st.rk && Distinguishes(c, key, w.At(i).st.rk)
    requires w.At(i).inbox[0] == Packet(c, key, w.At(i).st.rn, m)
    ensures ReceiveStep(c, w, i).Err?
  {
    var st := w.At(i).st;
    var lc := c.seal(key, Nonce(st.rn), [], BE16(|m|));
    assert |lc| == LENGTH_BYTES;
    assert w.At(i).inbox[0][..LENGTH_BYTES] == lc;
    assert c.unseal(st.rk, Nonce(st.rn), [], lc).None?;
    assert DecryptLength(c, st, lc).1.Err?;
  }

  // ---------------------------------------------------------------- main results

  /** So far one end's rotations are a prefix of the other's. */
  predicate Compatible(w: World) {
    w.p0.hist <= w.p1.hist || w.p1.hist <= w.p0.hist
  }

  predicate StaysCompatible(c: Crypto, w: World, events: seq<Event>)
    decreases |events|
  {
    Compatible(w) &&
    (events != [] ==>
      match Step(c, w, events[0])
      case Err(_) => true
      case Ok(next) => StaysCompatible(c, next, events[1..]))
  }

  lemma CompatibleIsSameOrder(c: Crypto, k: Keys, w: World, i: Side)
    requires Inv(c, k, w) && w.At(i).inbox != [] && Compatible(w)
    ensures SameOrder(w, i)
  {
    var j: Side := 1 - i;
    var p, q := w.At(i), w.At(j);
    NextPacket(c, k, w, i);
    var r := Epoch(|p.got|);
    if p.hist <= q.hist {
      UpToOfPrefix(p.hist, q.hist, j, r);
    } else {
      UpToOfPrefix(q.hist, p.hist, j, r);
    }
  }

  /** If both ends rotate in the same order, no packet ever fails to decrypt, whatever the
      interleaving, and each end has decrypted a prefix of what the other has sent. */
  lemma {:induction false} SameOrderRun(c: Crypto, k: Keys, w: World, events: seq<Event>)
    requires Seals(c) && Inv(c, k, w) && StaysCompatible(c, w, events)
    ensures Run(c, w, events).Ok?
    ensures var end := Run(c, w, events).value;
      Inv(c, k, end) && end.p1.got <= end.p0.sent && end.p0.got <= end.p1.sent
    decreases |events|
  {
    if events != [] {
      StepKeepsInv(c, k, w, events[0]);
      SameOrderRun(c, k, Step(c, w, events[0]).value, events[1..]);
    }
  }

  lemma StepKeepsInv(c: Crypto, k: Keys, w: World, e: Event)
    requires Seals(c) && Inv(c, k, w) && Compatible(w)
    ensures Step(c, w, e).Ok? && Inv(c, k, Step(c, w, e).value)
  {
    hide Inv, Seals, Compatible, SendStep, SameOrder;
    match e
    case Send(i, m) => SendKeepsInv(c, k, w, i, m);
    case Receive(i) =>
      if w.At(i).inbox != [] {
        CompatibleIsSameOrder(c, k, w, i);
        ReceiveKeepsInv(c, k, w, i);
      }
  }

  /** The connection as the handshake leaves it, side 0 being the initiator. */
  function Connected(i: State, r: State): World {
    World(Peer(i, [], [], [], []), Peer(r, [], [], [], []))
  }

  lemma HandshakeStarts(c: Crypto, i: State, r: State)
    requires Commutes(c) && Seals(c) && Fresh(c, i) && Fresh(c, r)
    ensures var (i3, r3, ok) := Handshake(c, i, r);
      var k := Keys(i3.sk, i3.rk, i3.ck);
      ok && Started(c, k) && Inv(c, k, Connected(i3, r3))
  {
    HandshakeAgrees(c, i, r);
    hide Handshake, Fresh;
  }

  predicate OneWay(events: seq<Event>) {
    forall n | 0 <= n < |events| ::
      (events[n].Send? && events[n].from == 0) || (events[n].Receive? && events[n].at == 1)
  }

  lemma {:induction false} OnlyOwnRotations(w: seq<Side>, n: nat)
    requires Count(w, 1) == 0 && n < |w|
    ensures w[n] == 0
    decreases |w|
  {
    if n + 1 < |w| { OnlyOwnRotations(w[..|w| - 1], n); }
  }

  lemma OneWayCompatible(c: Crypto, k: Keys, w: World)
    requires Inv(c, k, w) && w.p1.sent == []
    ensures Compatible(w)
  {
    assert w.p0.got == [] && Epoch(0) == 0;
    forall n | 0 <= n < |w.p0.hist| ensures w.p0.hist[n] == 0 { OnlyOwnRotations(w.p0.hist, n); }
    forall n | 0 <= n < |w.p1.hist| ensures w.p1.hist[n] == 0 { OnlyOwnRotations(w.p1.hist, n); }
  }

  /** With traffic in one direction only, every message is decrypted exactly as sent, and the
      two ends rotate after the same thousand uses of the cipher. */
  lemma {:induction false} OneWayRun(c: Crypto, k: Keys, w: World, events: seq<Event>)
    requires Seals(c) && Inv(c, k, w) && w.p1.sent == [] && OneWay(events)
    ensures Run(c, w, events).Ok?
    ensures var end := Run(c, w, events).value;
      Inv(c, k, end) && end.p1.sent == [] && end.p1.got <= end.p0.sent &&
      (end.p1.inbox == [] ==> end.p1.got == end.p0.sent && end.p1.hist == end.p0.hist)
    decreases |events|
  {
    OneWayCompatible(c, k, w);
    if events == [] {
      if w.p1.inbox == [] { CountsDetermine(c, k, w); }
    } else {
      StepKeepsInv(c, k, w, events[0]);
      OneWayRun(c, k, Step(c, w, events[0]).value, events[1..]);
    }
  }

  lemma CountsDetermine(c: Crypto, k: Keys, w: World)
    requires Inv(c, k, w) && w.p1.sent == [] && w.p1.inbox == []
    ensures w.p1.got == w.p0.sent && w.p1.hist == w.p0.hist
  {
    assert w.p0.got == [] && Epoch(0) == 0;
    AllOneDirection(w.p0.hist);
    AllOneDirection(w.p1.hist);
    OneWayCompatible(c, k, w);
  }

  lemma {:induction false} AllOneDirection(w: seq<Side>)
    requires Count(w, 1) == 0
    ensures Count(w, 0) == |w|
  {
    if w != [] { AllOneDirection(w[..|w| - 1]); }
  }

  // ---------------------------------------------------------------- crossed rotations

  function Repeat(e: Event, n: nat): seq<Event> {
    seq(n, _ => e)
  }

  lemma {:induction false} RunConcat(c: Crypto, w: World, a: seq<Event>, b: seq<Event>)
    requires Run(c, w, a).Ok?
    ensures Run(c, w, a + b) == Run(c, Run(c, w, a).value, b)
    decreases |a|
  {
    if a == [] {
      assert a + b == b;
    } else {
      assert (a + b)[1..] == a[1..] + b;
      RunConcat(c, Step(c, w, a[0]).value, a[1..], b);
    }
  }

  lemma {:induction false} SendMany(c: Crypto, k: Keys, w: World, i: Side, m: Bytes, n: nat) returns (w': World)
    requires Inv(c, k, w) && |m| <= MAX_MESSAGE
    ensures Run(c, w, Repeat(Send(i, m), n)) == Ok(w') && Inv(c, k, w')
    ensures var p, p', q, q' := w.At(i), w'.At(i), w.At(1 - i), w'.At(1 - i);
      p.hist <= p'.hist && |p'.sent| == |p.sent| + n && p'.got == p.got && p'.inbox == p.inbox &&
      q'.hist == q.hist && q'.sent == q.sent && q'.got == q.got && |q'.inbox| == |q.inbox| + n
    decreases n
  {
    hide Inv, SendStep;
    w' := w;
    if n > 0 {
      var next := SendStep(c, w, i, m);
      SendKeepsInv(c, k, w, i, m);
      w' := SendMany(c, k, next, i, m, n - 1);
      assert Repeat(Send(i, m), n)[1..] == Repeat(Send(i, m), n - 1);
    }
  }

  lemma FirstEpochSameOrder(w: World, i: Side)
    requires |w.At(i).got| < ROTATE_AT / 2
    ensures SameOrder(w, i)
  {}

  /** Packets of the first keys are decrypted whatever the rotations. */
  lemma {:induction false} ReceiveMany(c: Crypto, k: Keys, w: World, i: Side, n: nat) returns (w': World)
    requires Seals(c) && Inv(c, k, w) && n <= |w.At(i).inbox| && |w.At(i).got| + n <= ROTATE_AT / 2
    ensures Run(c, w, Repeat(Receive(i), n)) == Ok(w') && Inv(c, k, w')
    ensures var p, p' := w.At(i), w'.At(i);
      p.hist <= p'.hist && |p'.got| == |p.got| + n && p'.sent == p.sent && |p'.inbox| == |p.inbox| - n &&
      w'.At(1 - i) == w.At(1 - i)
    decreases n
  {
    hide SameOrder, Inv, Seals, Received, Epoch;
    w' := w;
    if n > 0 {
      FirstEpochSameOrder(w, i);
      ReceiveKeepsInv(c, k, w, i);
      w' := ReceiveMany(c, k, ReceiveStep(c, w, i).value, i, n - 1);
      assert Repeat(Receive(i), n)[1..] == Repeat(Receive(i), n - 1);
    }
  }

  lemma {:induction false} CountTotal(w: seq<Side>)
    ensures Count(w, 0) + Count(w, 1) == |w|
  {
    if w != [] { CountTotal(w[..|w| - 1]); }
  }

  lemma SingleRotation(w: seq<Side>, d: Side)
    requires Count(w, d) == 1 && Count(w, 1 - d) == 0
    ensures w == [d]
  {
    CountTotal(w);
    assert w == [w[0]] && w[..0] == [];
  }

  lemma SecondRotation(w: seq<Side>)
    requires [1] <= w && |w| == 2 && Count(w, 0) == 1
    ensures w == [1, 0]
  {
    assert w[..1] == [1] && [1][..0] == [];
  }

  /** Two-way traffic on the shared chaining key: both ends send 500 messages before reading
      any, and so rotate in opposite orders. */
  function CrossedEvents(m: Bytes): seq<Event> {
    Repeat(Send(0, m), 500) + (Repeat(Send(1, m), 500) + (Repeat(Receive(0), 500) + Repeat(Receive(1), 500)))
  }

  lemma CrossedHistories(c: Crypto, k: Keys, w: World, m: Bytes) returns (end: World)
    requires Seals(c) && Inv(c, k, w) && |m| <= MAX_MESSAGE
    requires w.p0.sent == [] && w.p1.sent == [] && w.p0.hist == [] && w.p1.hist == []
    ensures Run(c, w, CrossedEvents(m)) == Ok(end) && Inv(c, k, end)
    ensures [0] <= end.p0.hist && end.p1.hist == [1, 0] && end.p1.inbox == []
    ensures |end.p0.sent| == |end.p1.got| == 500
  {
    hide Run;
    var w1 := SendMany(c, k, w, 0, m, 500);
    assert Epoch(500) == 1 && Epoch(0) == 0;
    SingleRotation(w1.p0.hist, 0);
    var w2 := SendMany(c, k, w1, 1, m, 500);
    SingleRotation(w2.p1.hist, 1);
    var w3 := ReceiveMany(c, k, w2, 0, 500);
    end := ReceiveMany(c, k, w3, 1, 500);
    CountTotal(end.p1.hist);
    SecondRotation(end.p1.hist);
    var e1, e2 := Repeat(Send(0, m), 500), Repeat(Send(1, m), 500);
    var e3, e4 := Repeat(Receive(0), 500), Repeat(Receive(1), 500);
    RunConcat(c, w, e1, e2 + (e3 + e4));
    RunConcat(c, w1, e2, e3 + e4);
    RunConcat(c, w2, e3, e4);
  }

  /** The cipher tells apart the keys that the two orders of the first two rotations give. */
  ghost predicate KeysDistinguished(c: Crypto, k: Keys) {
    Distinguishes(c, KeysAfter(c, k, [0]).key0, KeysAfter(c, k, [1, 0]).key0)
  }

  lemma CrossedReceiveFails(c: Crypto, rank: Bytes -> nat, k: Keys, w: World)
    requires Seals(c) && Free(c, rank) && Started(c, k) && KeysDistinguished(c, k)
    requires Inv(c, k, w) && [0] <= w.p0.hist && w.p1.hist == [1, 0]
    requires |w.p1.got| == 500 && w.p1.inbox != []
    ensures ReceiveStep(c, w, 1).Err?
  {
    assert Epoch(500) == 1;
    NextPacket(c, k, w, 1);
    UpToOfPrefix([0], w.p0.hist, 0, 1);
    assert UpTo(w.p0.hist, 0, 1) == [0];
    assert [1, 0][..1] == [1];
    assert UpTo(w.p1.hist, 0, 1) == [1, 0];
    ReceiveIffSameOrder(c, rank, k, w, 1);
  }

  /** After crossed rotations the next message cannot be decrypted. */
  lemma CrossedRotationsFail(c: Crypto, rank: Bytes -> nat, k: Keys, w: World, m: Bytes)
    requires Seals(c) && Free(c, rank) && Started(c, k)
    requires Inv(c, k, w) && |m| <= MAX_MESSAGE
    requires w.p0.sent == [] && w.p1.sent == [] && w.p0.hist == [] && w.p1.hist == []
    requires KeysDistinguished(c, k)
    ensures Run(c, w, CrossedEvents(m) + [Send(0, m), Receive(1)]).Err?
  {
    var end := CrossedHistories(c, k, w, m);
    var next := SendStep(c, end, 0, m);
    RunConcat(c, w, CrossedEvents(m), [Send(0, m), Receive(1)]);
    SendKeepsInv(c, k, end, 0, m);
    CrossedReceiveFails(c, rank, k, next);
  }
}
