/** packages/noise/lib/noise-state.ts: the BOLT #8 handshake acts and the transport cipher with
    its nonce counters and key rotation. */
module Noise {
  import opened Wrappers
  import opened Sequences

  type Bytes = seq<Byte>

  /** The cryptographic operations, of which only the laws below are used. */
  datatype Crypto = Crypto(
    sha256: Bytes -> Bytes,
    publicKey: Bytes -> Bytes,                          // secret
    ecdh: (Bytes, Bytes) -> Bytes,                      // public key, secret
    hkdf: (Bytes, Bytes) -> (Bytes, Bytes),             // input key, salt: first and second 32 bytes
    seal: (Bytes, Bytes, Bytes, Bytes) -> Bytes,        // key, nonce, associated data, plaintext
    unseal: (Bytes, Bytes, Bytes, Bytes) -> Option<Bytes>)

  const MAC: nat := 16

  ghost predicate Commutes(c: Crypto) {
    && (forall s, t :: c.ecdh(c.publicKey(s), t) == c.ecdh(c.publicKey(t), s))
    && (forall s :: |c.publicKey(s)| == 33)
  }

  ghost predicate Seals(c: Crypto) {
    && (forall k, n, ad, p :: c.unseal(k, n, ad, c.seal(k, n, ad, p)) == Some(p))
    && (forall k, n, ad, p :: |c.seal(k, n, ad, p)| == |p| + MAC)
  }

  /** Only what was sealed can be opened. */
  ghost predicate Authentic(c: Crypto) {
    forall k, n, ad, x, p :: c.unseal(k, n, ad, x) == Some(p) ==> x == c.seal(k, n, ad, p)
  }

  datatype Error = ReadFailed | BadVersion | DecryptFailed | TooLong

  // ---------------------------------------------------------------- state

  datatype State = State(
    ls: Bytes, lpk: Bytes, es: Bytes, epk: Bytes, rpk: Bytes, repk: Bytes,
    h: Bytes, ck: Bytes, sk: Bytes, rk: Bytes, sn: nat, rn: nat, tempK: Bytes)

  const PROTOCOL_NAME: Bytes  // Noise_XK_secp256k1_ChaChaPoly_SHA256
    := [78, 111, 105, 115, 101, 95, 88, 75, 95, 115, 101, 99, 112, 50, 53, 54, 107, 49, 95, 67, 104,
        97, 67, 104, 97, 80, 111, 108, 121, 95, 83, 72, 65, 50, 53, 54]

  const PROLOGUE: Bytes := [108, 105, 103, 104, 116, 110, 105, 110, 103]  // lightning

  /** The 12-byte nonce whose little-endian counter at offset 4 is `n`. */
  function Nonce(n: nat): Bytes {
    [0, 0, 0, 0, n % 256, (n / 256) % 256, 0, 0, 0, 0, 0, 0]
  }

  // ---------------------------------------------------------------- handshake acts

  function Initialize(c: Crypto, st: State, pubkey: Bytes): State {
    var h := c.sha256(PROTOCOL_NAME);
    st.(ck := h, h := c.sha256(c.sha256(h + PROLOGUE) + pubkey))
  }

  function MixHash(c: Crypto, st: State, data: Bytes): State {
    st.(h := c.sha256(st.h + data))
  }

  /** `ck, tempK = HKDF(ck, ss)` */
  function MixKey(c: Crypto, st: State, ss: Bytes): State {
    var keys := c.hkdf(ss, st.ck);
    st.(ck := keys.0, tempK := keys.1)
  }

  /** The keys of the transport; the first is the initiator's sending key. */
  function TransportKeys(c: Crypto, st: State, initiator: bool): State {
    var keys := c.hkdf([], st.ck);
    if initiator then st.(sk := keys.0, rk := keys.1, sn := 0, rn := 0)
    else st.(rk := keys.0, sk := keys.1, sn := 0, rn := 0)
  }

  /** Reads a 50-byte act of version 0: the sender's ephemeral key and a ciphertext. */
  function Act50(m: Bytes): Result<(Bytes, Bytes), Error> {
    if |m| != 50 then Err(ReadFailed) else Ok((m[1..34], m[34..]))
  }

  function InitiatorAct1(c: Crypto, st: State, rpk: Bytes): (State, Bytes) {
    var s1 := MixHash(c, Initialize(c, st.(rpk := rpk), rpk), st.epk);
    var s2 := MixKey(c, s1, c.ecdh(rpk, st.es));
    var tag := c.seal(s2.tempK, Nonce(0), s2.h, []);
    (MixHash(c, s2, tag), [0] + st.epk + tag)
  }

  function ReceiveAct1(c: Crypto, st: State, m: Bytes): (State, Result<(), Error>) {
    var s0 := Initialize(c, st, st.lpk);
    match Act50(m)
    case Err(e) => (s0, Err(e))
    case Ok((re, tag)) =>
      var s1 := s0.(repk := re);
      if m[0] != 0 then (s1, Err(BadVersion))
      else
        var s2 := MixKey(c, MixHash(c, s1, re), c.ecdh(re, st.ls));
        if c.unseal(s2.tempK, Nonce(0), s2.h, tag).None? then (s2, Err(DecryptFailed))
        else (MixHash(c, s2, tag), Ok(()))
  }

  function ReceiveAct2(c: Crypto, st: State): (State, Bytes) {
    var s1 := MixKey(c, MixHash(c, st, st.epk), c.ecdh(st.repk, st.es));
    var tag := c.seal(s1.tempK, Nonce(0), s1.h, []);
    (MixHash(c, s1, tag), [0] + st.epk + tag)
  }

  function InitiatorAct2(c: Crypto, st: State, m: Bytes): (State, Result<(), Error>) {
    match Act50(m)
    case Err(e) => (st, Err(e))
    case Ok((re, tag)) =>
      var s1 := st.(repk := re);
      if m[0] != 0 then (s1, Err(BadVersion))
      else
        var s2 := MixKey(c, MixHash(c, s1, re), c.ecdh(re, st.es));
        if c.unseal(s2.tempK, Nonce(0), s2.h, tag).None? then (s2, Err(DecryptFailed))
        else (MixHash(c, s2, tag), Ok(()))
  }

  function InitiatorAct3(c: Crypto, st: State): (State, Bytes) {
    var sealedKey := c.seal(st.tempK, Nonce(1), st.h, st.lpk);
    var s1 := MixKey(c, MixHash(c, st, sealedKey), c.ecdh(st.repk, st.ls));
    var tag := c.seal(s1.tempK, Nonce(0), s1.h, []);
    (TransportKeys(c, s1, true), [0] + sealedKey + tag)
  }

  function ReceiveAct3(c: Crypto, st: State, m: Bytes): (State, Result<(), Error>) {
    if |m| != 66 then (st, Err(ReadFailed))
    else if m[0] != 0 then (st, Err(BadVersion))
    else
      var sealedKey, tag := m[1..50], m[50..];
      match c.unseal(st.tempK, Nonce(1), st.h, sealedKey)
      case None => (st, Err(DecryptFailed))
      case Some(rs) =>
        var s1 := MixKey(c, MixHash(c, st.(rpk := rs), sealedKey), c.ecdh(rs, st.es));
        if c.unseal(s1.tempK, Nonce(0), s1.h, tag).None? then (s1, Err(DecryptFailed))
        else (TransportKeys(c, s1, false), Ok(()))
  }

  /** A party before the handshake holds matching key pairs. */
  predicate Fresh(c: Crypto, st: State) {
    st.lpk == c.publicKey(st.ls) && st.epk == c.publicKey(st.es)
  }

  /** The two parties' states after acts 1 to 3 and whether any act failed. */
  function Handshake(c: Crypto, i: State, r: State): (State, State, bool) {
    var (i1, m1) := InitiatorAct1(c, i, r.lpk);
    var (r1, o1) := ReceiveAct1(c, r, m1);
    var (r2, m2) := ReceiveAct2(c, r1);
    var (i2, o2) := InitiatorAct2(c, i1, m2);
    var (i3, m3) := InitiatorAct3(c, i2);
    var (r3, o3) := ReceiveAct3(c, r2, m3);
    (i3, r3, o1.Ok? && o2.Ok? && o3.Ok?)
  }

  /** What the two ends share after acts 1 and 2. */
  predicate Agree(i: State, r: State) {
    i.h == r.h && i.ck == r.ck && i.tempK == r.tempK
  }

  lemma Act1Agrees(c: Crypto, i: State, r: State)
    requires Commutes(c) && Seals(c) && Fresh(c, i) && Fresh(c, r)
    ensures var (i1, m1) := InitiatorAct1(c, i, r.lpk);
      var (r1, o1) := ReceiveAct1(c, r, m1);
      o1.Ok? && Agree(i1, r1) && r1.repk == i.epk && |m1| == 50 &&
      i1 == i.(rpk := r.lpk, h := i1.h, ck := i1.ck, tempK := i1.tempK) &&
      r1 == r.(repk := i.epk, h := r1.h, ck := r1.ck, tempK := r1.tempK)
  {
    var (i1, m1) := InitiatorAct1(c, i, r.lpk);
    assert m1[0] == 0 && m1[1..34] == i.epk && m1[34..] == m1[|m1| - MAC..];
    assert c.ecdh(r.lpk, i.es) == c.ecdh(i.epk, r.ls);
  }

  lemma Act2Agrees(c: Crypto, i: State, r: State)
    requires Commutes(c) && Seals(c) && Fresh(c, i) && Fresh(c, r)
    requires Agree(i, r) && r.repk == i.epk
    ensures var (r2, m2) := ReceiveAct2(c, r);
      var (i2, o2) := InitiatorAct2(c, i, m2);
      o2.Ok? && Agree(i2, r2) && i2.repk == r.epk && |m2| == 50 &&
      i2 == i.(repk := r.epk, h := i2.h, ck := i2.ck, tempK := i2.tempK) &&
      r2 == r.(h := r2.h, ck := r2.ck, tempK := r2.tempK)
  {
    var (r2, m2) := ReceiveAct2(c, r);
    assert m2[0] == 0 && m2[1..34] == r.epk && m2[34..] == m2[|m2| - MAC..];
    assert c.ecdh(r.epk, i.es) == c.ecdh(i.epk, r.es);
  }

  lemma Act3Agrees(c: Crypto, i: State, r: State)
    requires Commutes(c) && Seals(c) && Fresh(c, i) && Fresh(c, r)
    requires Agree(i, r) && i.repk == r.epk
    ensures var (i3, m3) := InitiatorAct3(c, i);
      var (r3, o3) := ReceiveAct3(c, r, m3);
      o3.Ok? && r3.rpk == i.lpk && |m3| == 66 && i3.rpk == i.rpk &&
      i3.ck == r3.ck && i3.h == r3.h &&
      i3.sk == r3.rk && i3.rk == r3.sk &&
      (i3.sk, i3.rk) == c.hkdf([], i3.ck) &&
      i3.sn == i3.rn == r3.sn == r3.rn == 0
  {
    var (i3, m3) := InitiatorAct3(c, i);
    assert m3[0] == 0 && m3[1..50] + m3[50..] == m3[1..];
    assert m3[1..50] == c.seal(i.tempK, Nonce(1), i.h, i.lpk);
    assert m3[50..] == m3[|m3| - MAC..];
    assert c.ecdh(r.epk, i.ls) == c.ecdh(i.lpk, r.es);
  }

  /** Between honest parties no act fails; the ends then share one chaining key and each one's
      sending key is the other's receiving key, and each has learnt the other's identity. */
  lemma HandshakeAgrees(c: Crypto, i: State, r: State)
    requires Commutes(c) && Seals(c) && Fresh(c, i) && Fresh(c, r)
    ensures var (i3, r3, ok) := Handshake(c, i, r);
      ok && i3.ck == r3.ck && i3.sk == r3.rk && i3.rk == r3.sk && i3.h == r3.h &&
      (i3.sk, i3.rk) == c.hkdf([], i3.ck) &&
      i3.sn == i3.rn == r3.sn == r3.rn == 0 &&
      i3.rpk == r.lpk && r3.rpk == i.lpk
  {
    hide Commutes, Seals, Agree, Fresh, InitiatorAct1, ReceiveAct1, ReceiveAct2, InitiatorAct2, InitiatorAct3,
      ReceiveAct3;
    var (i1, m1) := InitiatorAct1(c, i, r.lpk);
    var (r1, o1) := ReceiveAct1(c, r, m1);
    Act1Agrees(c, i, r);
    assert Fresh(c, i1) && Fresh(c, r1) by { FreshKept(c, i, i1); FreshKept(c, r, r1); }
    Act2Agrees(c, i1, r1);
    var (r2, m2) := ReceiveAct2(c, r1);
    var (i2, o2) := InitiatorAct2(c, i1, m2);
    assert Fresh(c, i2) && Fresh(c, r2) by { FreshKept(c, i1, i2); FreshKept(c, r1, r2); }
    Act3Agrees(c, i2, r2);
  }

  lemma FreshKept(c: Crypto, a: State, b: State)
    requires Fresh(c, a) && (a.ls, a.lpk, a.es, a.epk) == (b.ls, b.lpk, b.es, b.epk)
    ensures Fresh(c, b)
  {}

  // ---------------------------------------------------------------- transport cipher

  const ROTATE_AT: nat := 1000
  const MAX_MESSAGE: nat := 65535

  function BE16(n: nat): Bytes
    requires n <= MAX_MESSAGE
  {
    [n / 256, n % 256]
  }

  function ReadBE16(b: Bytes): nat
    requires |b| >= 2
  {
    (b[0] as int) * 256 + b[1]
  }

  function IncrementSending(c: Crypto, st: State): State {
    if st.sn + 1 >= ROTATE_AT then
      var keys := c.hkdf(st.sk, st.ck);
      st.(ck := keys.0, sk := keys.1, sn := 0)
    else st.(sn := st.sn + 1)
  }

  function IncrementReceiving(c: Crypto, st: State): State {
    if st.rn + 1 >= ROTATE_AT then
      var keys := c.hkdf(st.rk, st.ck);
      st.(ck := keys.0, rk := keys.1, rn := 0)
    else st.(rn := st.rn + 1)
  }

  /** One use of the sending cipher. */
  function SealNext(c: Crypto, st: State, p: Bytes): (State, Bytes) {
    (IncrementSending(c, st), c.seal(st.sk, Nonce(st.sn), [], p))
  }

  /** One use of the receiving cipher; a failure throws before the nonce moves. */
  function UnsealNext(c: Crypto, st: State, ct: Bytes): (State, Result<Bytes, Error>) {
    match c.unseal(st.rk, Nonce(st.rn), [], ct)
    case None => (st, Err(DecryptFailed))
    case Some(p) => (IncrementReceiving(c, st), Ok(p))
  }

  /** `encryptMessage`; a length that does not fit 16 bits throws before anything changes. */
  function EncryptMessage(c: Crypto, st: State, m: Bytes): Result<(State, Bytes), Error> {
    if |m| > MAX_MESSAGE then Err(TooLong)
    else
      var (s1, lc) := SealNext(c, st, BE16(|m|));
      var (s2, ct) := SealNext(c, s1, m);
      Ok((s2, lc + ct))
  }

  /** `decryptLength` */
  function DecryptLength(c: Crypto, st: State, lc: Bytes): (State, Result<nat, Error>) {
    var (s1, r) := UnsealNext(c, st, lc);
    match r
    case Err(e) => (s1, Err(e))
    case Ok(l) => (s1, if |l| < 2 then Err(ReadFailed) else Ok(ReadBE16(l)))
  }

  /** `decryptMessage` */
  function DecryptMessage(c: Crypto, st: State, ct: Bytes): (State, Result<Bytes, Error>) {
    UnsealNext(c, st, ct)
  }

  /** The key and nonce of one call of the cipher. */
  type CipherUse = (Bytes, Bytes)

  /** What `encryptMessage` seals the length and the body with. */
  function SealUses(c: Crypto, st: State): seq<CipherUse> {
    var s1 := IncrementSending(c, st);
    [(st.sk, Nonce(st.sn)), (s1.sk, Nonce(s1.sn))]
  }

  // ---------------------------------------------------------------- the class

  class NoiseState {
    const c: Crypto
    const ls: Bytes
    const lpk: Bytes
    const es: Bytes
    const epk: Bytes
    var rpk: Bytes
    var repk: Bytes
    var h: Bytes
    var ck: Bytes
    var sk: Bytes
    var rk: Bytes
    var sn: nat
    var rn: nat
    var tempK: Bytes
    /** Every key and nonce that was given to the cipher to seal with. */
    ghost var used: seq<CipherUse>

    ghost function Contents(): State
      reads this
    {
      State(ls, lpk, es, epk, rpk, repk, h, ck, sk, rk, sn, rn, tempK)
    }

    constructor (c: Crypto, ls: Bytes, es: Bytes)
      ensures this.c == c && Fresh(c, Contents()) && this.ls == ls && this.es == es && used == []
    {
      this.c := c;
      this.ls, this.lpk := ls, c.publicKey(ls);
      this.es, this.epk := es, c.publicKey(es);
      rpk, repk, h, ck, sk, rk, sn, rn, tempK := [], [], [], [], [], [], 0, 0, [];
      used := [];
    }

    /** `ccpEncrypt` */
    method CcpEncrypt(key: Bytes, nonce: Bytes, ad: Bytes, plaintext: Bytes) returns (sealed: Bytes)
      modifies this`used
      ensures sealed == c.seal(key, nonce, ad, plaintext) && used == old(used) + [(key, nonce)]
    {
      used := used + [(key, nonce)];
      sealed := c.seal(key, nonce, ad, plaintext);
    }

    method DoInitialize(pubkey: Bytes)
      modifies this
      ensures Contents() == Initialize(c, old(Contents()), pubkey)
      ensures used == old(used)
    {
      h := c.sha256(PROTOCOL_NAME);
      ck := h;
      h := c.sha256(h + PROLOGUE);
      h := c.sha256(h + pubkey);
    }

    method MixInHash(data: Bytes)
      modifies this`h
      ensures Contents() == MixHash(c, old(Contents()), data)
    {
      h := c.sha256(h + data);
    }

    method MixInKey(ss: Bytes)
      modifies this`ck, this`tempK
      ensures Contents() == MixKey(c, old(Contents()), ss)
    {
      var keys := c.hkdf(ss, ck);
      ck, tempK := keys.0, keys.1;
    }

    method TakeTransportKeys(initiator: bool)
      modifies this`sk, this`rk, this`sn, this`rn
      ensures Contents() == TransportKeys(c, old(Contents()), initiator)
    {
      var keys := c.hkdf([], ck);
      if initiator { sk, rk := keys.0, keys.1; } else { rk, sk := keys.0, keys.1; }
      sn, rn := 0, 0;
    }

    method DoInitiatorAct1(rpk: Bytes) returns (m: Bytes)
      modifies this
      ensures (Contents(), m) == InitiatorAct1(c, old(Contents()), rpk)
      ensures used == old(used) + [(tempK, Nonce(0))]
    {
      hide Nonce, MixHash, MixKey, TransportKeys;
      this.rpk := rpk;
      DoInitialize(rpk);
      MixInHash(epk);
      MixInKey(c.ecdh(rpk, es));
      var tag := CcpEncrypt(tempK, Nonce(0), h, []);
      MixInHash(tag);
      m := [0] + epk + tag;
    }

    method DoReceiveAct1(m: Bytes) returns (r: Result<(), Error>)
      modifies this
      ensures (Contents(), r) == ReceiveAct1(c, old(Contents()), m)
      ensures used == old(used)
    {
      hide Nonce, MixHash, MixKey, TransportKeys;
      DoInitialize(lpk);
      if |m| != 50 { return Err(ReadFailed); }
      var re, tag := m[1..34], m[34..];
      repk := re;
      if m[0] != 0 { return Err(BadVersion); }
      MixInHash(re);
      MixInKey(c.ecdh(re, ls));
      if c.unseal(tempK, Nonce(0), h, tag).None? { return Err(DecryptFailed); }
      MixInHash(tag);
      r := Ok(());
    }

    method DoReceiveAct2() returns (m: Bytes)
      modifies this
      ensures (Contents(), m) == ReceiveAct2(c, old(Contents()))
      ensures used == old(used) + [(tempK, Nonce(0))]
    {
      hide Nonce, MixHash, MixKey, TransportKeys;
      MixInHash(epk);
      MixInKey(c.ecdh(repk, es));
      var tag := CcpEncrypt(tempK, Nonce(0), h, []);
      MixInHash(tag);
      m := [0] + epk + tag;
    }

    method DoInitiatorAct2(m: Bytes) returns (r: Result<(), Error>)
      modifies this
      ensures (Contents(), r) == InitiatorAct2(c, old(Contents()), m)
      ensures used == old(used)
    {
      hide Nonce, MixHash, MixKey, TransportKeys;
      if |m| != 50 { return Err(ReadFailed); }
      var re, tag := m[1..34], m[34..];
      repk := re;
      if m[0] != 0 { return Err(BadVersion); }
      MixInHash(repk);
      MixInKey(c.ecdh(repk, es));
      if c.unseal(tempK, Nonce(0), h, tag).None? { return Err(DecryptFailed); }
      MixInHash(tag);
      r := Ok(());
    }

    method DoInitiatorAct3() returns (m: Bytes)
      modifies this
      ensures (Contents(), m) == InitiatorAct3(c, old(Contents()))
      ensures used == old(used) + [(old(tempK), Nonce(1)), (tempK, Nonce(0))]
    {
      hide Nonce, MixHash, MixKey, TransportKeys;
      var sealedKey := CcpEncrypt(tempK, Nonce(1), h, lpk);
      MixInHash(sealedKey);
      MixInKey(c.ecdh(repk, ls));
      var tag := CcpEncrypt(tempK, Nonce(0), h, []);
      TakeTransportKeys(true);
      m := [0] + sealedKey + tag;
    }

    method DoReceiveAct3(m: Bytes) returns (r: Result<(), Error>)
      modifies this
      ensures (Contents(), r) == ReceiveAct3(c, old(Contents()), m)
      ensures used == old(used)
    {
      hide Nonce, MixHash, MixKey, TransportKeys;
      if |m| != 66 { return Err(ReadFailed); }
      if m[0] != 0 { return Err(BadVersion); }
      var sealedKey, tag := m[1..50], m[50..];
      var rs := c.unseal(tempK, Nonce(1), h, sealedKey);
      if rs.None? { return Err(DecryptFailed); }
      rpk := rs.value;
      MixInHash(sealedKey);
      MixInKey(c.ecdh(rpk, es));
      if c.unseal(tempK, Nonce(0), h, tag).None? { return Err(DecryptFailed); }
      TakeTransportKeys(false);
      r := Ok(());
    }

    method IncrementSendingNonce() returns (newValue: nat)
      modifies this
      ensures Contents() == old(Contents()).(sn := newValue) && newValue == old(sn) + 1
      ensures used == old(used)
    {
      newValue := sn + 1;
      sn := newValue;
    }

    method IncrementReceivingNonce() returns (newValue: nat)
      modifies this
      ensures Contents() == old(Contents()).(rn := newValue) && newValue == old(rn) + 1
      ensures used == old(used)
    {
      newValue := rn + 1;
      rn := newValue;
    }

    method RotateSendingKeys()
      modifies this
      ensures var keys := c.hkdf(old(sk), old(ck));
        Contents() == old(Contents()).(ck := keys.0, sk := keys.1, sn := 0)
      ensures used == old(used)
    {
      var result := c.hkdf(sk, ck);
      sk := result.1;
      ck := result.0;
      sn := 0;
    }

    method RotateReceivingKeys()
      modifies this
      ensures var keys := c.hkdf(old(rk), old(ck));
        Contents() == old(Contents()).(ck := keys.0, rk := keys.1, rn := 0)
      ensures used == old(used)
    {
      var result := c.hkdf(rk, ck);
      rk := result.1;
      ck := result.0;
      rn := 0;
    }

    method Encrypt(m: Bytes) returns (r: Result<Bytes, Error>)
      modifies this
      ensures match EncryptMessage(c, old(Contents()), m)
              case Err(e) => r == Err(e) && Contents() == old(Contents())
              case Ok((st, ct)) => r == Ok(ct) && Contents() == st
      ensures used == if r.Ok? then old(used) + SealUses(c, old(Contents())) else old(used)
    {
      if |m| > MAX_MESSAGE { return Err(TooLong); }
      var lc := CcpEncrypt(sk, Nonce(sn), [], BE16(|m|));
      var n := IncrementSendingNonce();
      if n >= ROTATE_AT { RotateSendingKeys(); }
      var ct := CcpEncrypt(sk, Nonce(sn), [], m);
      n := IncrementSendingNonce();
      if n >= ROTATE_AT { RotateSendingKeys(); }
      r := Ok(lc + ct);
    }

    method DoDecryptLength(lc: Bytes) returns (r: Result<nat, Error>)
      modifies this
      ensures (Contents(), r) == DecryptLength(c, old(Contents()), lc)
      ensures used == old(used)
    {
      var l := c.unseal(rk, Nonce(rn), [], lc);
      if l.None? { return Err(DecryptFailed); }
      var n := IncrementReceivingNonce();
      if n >= ROTATE_AT { RotateReceivingKeys(); }
      if |l.value| < 2 { return Err(ReadFailed); }
      r := Ok(ReadBE16(l.value));
    }

    method DoDecryptMessage(ct: Bytes) returns (r: Result<Bytes, Error>)
      modifies this
      ensures (Contents(), r) == DecryptMessage(c, old(Contents()), ct)
      ensures used == old(used)
    {
      var m := c.unseal(rk, Nonce(rn), [], ct);
      if m.None? { return Err(DecryptFailed); }
      var n := IncrementReceivingNonce();
      if n >= ROTATE_AT { RotateReceivingKeys(); }
      r := Ok(m.value);
    }
  }
}
