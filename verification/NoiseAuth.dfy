/** The handshake as section "Authenticated Key Exchange" of BOLT #8 writes it, in hashes, key
    derivations and seals: what each act sends, and which messages a receiving act accepts. */
module NoiseAuth {
  import opened Wrappers
  import opened Sequences
  import opened Noise
  import opened Bufio

  // ---------------------------------------------------------------- the standard's terms

  function Ascii(s: string): Bytes
    requires forall i | 0 <= i < |s| :: s[i] < 128 as char
  {
    seq(|s|, i requires 0 <= i < |s| => s[i] as nat)
  }

  const NONCE_0: Bytes := [0, 0, 0, 0, 0, 0, 0, 0, 0, 0, 0, 0]
  const NONCE_1: Bytes := [0, 0, 0, 0, 1, 0, 0, 0, 0, 0, 0, 0]

  /** What both parties hold after an act: handshake hash, chaining key and temporary key. */
  datatype Shared = Shared(h: Bytes, ck: Bytes, key: Bytes)

  /** Before act 1, with the responder's static key `rs`. */
  function Start(c: Crypto, rs: Bytes): Shared {
    var ck := c.sha256(Ascii("Noise_XK_secp256k1_ChaChaPoly_SHA256"));
    Shared(c.sha256(c.sha256(ck + Ascii("lightning")) + rs), ck, [])
  }

  /** The tag of an act that transmits `part` and mixes in the shared secret `ss`. */
  function ActTag(c: Crypto, t: Shared, part: Bytes, ss: Bytes): Bytes {
    c.seal(c.hkdf(ss, t.ck).1, NONCE_0, c.sha256(t.h + part), [])
  }

  /** After that act. */
  function After(c: Crypto, t: Shared, part: Bytes, ss: Bytes): Shared {
    Shared(c.sha256(c.sha256(t.h + part) + ActTag(c, t, part, ss)), c.hkdf(ss, t.ck).0, c.hkdf(ss, t.ck).1)
  }

  /** Act 1 or 2 for a receiver that mixes in the sender's ephemeral key with `secret`. */
  predicate Genuine(c: Crypto, t: Shared, secret: Bytes, m: Bytes) {
    |m| == 50 && m[0] == 0 && m[34..] == ActTag(c, t, m[1..34], c.ecdh(m[1..34], secret))
  }

  /** What the receiver of act 1 or 2 holds after it. */
  function Received(c: Crypto, t: Shared, secret: Bytes, m: Bytes): Shared
    requires |m| == 50
  {
    After(c, t, m[1..34], c.ecdh(m[1..34], secret))
  }

  /** Act 3 from the owner of the static key `rs`. */
  predicate Genuine3(c: Crypto, t: Shared, es: Bytes, m: Bytes, rs: Bytes) {
    |m| == 66 && m[0] == 0 && m[1..50] == c.seal(t.key, NONCE_1, t.h, rs) &&
    m[50..] == ActTag(c, t, m[1..50], c.ecdh(rs, es))
  }

  /** The two keys of the transport, the initiator's sending key first. */
  function FinalKeys(c: Crypto, t: Shared, ss: Bytes): (Bytes, Bytes) {
    c.hkdf([], c.hkdf(ss, t.ck).0)
  }

  // ---------------------------------------------------------------- the acts

  function Of(st: State): Shared {
    Shared(st.h, st.ck, st.tempK)
  }

  function With(st: State, t: Shared): State {
    st.(h := t.h, ck := t.ck, tempK := t.key)
  }

  lemma Names()
    ensures PROTOCOL_NAME == Ascii("Noise_XK_secp256k1_ChaChaPoly_SHA256") && PROLOGUE == Ascii("lightning")
    ensures Nonce(0) == NONCE_0 && Nonce(1) == NONCE_1
  {}

  lemma Starts(c: Crypto, st: State, rs: Bytes)
    ensures With(Initialize(c, st, rs), Start(c, rs)).(tempK := st.tempK) == Initialize(c, st, rs)
  {
    Names();
  }

  /** An empty text is opened exactly when it was sealed so. */
  lemma OpensIff(c: Crypto, key: Bytes, n: Bytes, ad: Bytes, tag: Bytes)
    requires Seals(c) && Authentic(c) && |tag| == MAC
    ensures c.unseal(key, n, ad, tag).Some? <==> tag == c.seal(key, n, ad, [])
  {
    var p := c.unseal(key, n, ad, tag);
    if p.Some? {
      assert tag == c.seal(key, n, ad, p.value);
      assert p.value == [];
    }
  }

  lemma SendsAct1(c: Crypto, st: State, rs: Bytes)
    ensures var (s, m) := InitiatorAct1(c, st, rs);
      var t, ss := Start(c, rs), c.ecdh(rs, st.es);
      m == [0] + st.epk + ActTag(c, t, st.epk, ss) && s == With(st.(rpk := rs), After(c, t, st.epk, ss))
  {
    Names();
    Starts(c, st.(rpk := rs), rs);
  }

  /** A responder accepts as act 1 exactly the 50 bytes of version 0 whose tag seals the transcript
      under the key of its own static secret and the ephemeral key in them. */
  lemma AcceptsAct1(c: Crypto, st: State, m: Bytes)
    requires Seals(c) && Authentic(c)
    ensures var (s, r) := ReceiveAct1(c, st, m);
      (r.Ok? <==> Genuine(c, Start(c, st.lpk), st.ls, m)) &&
      (r.Ok? ==> s == With(st.(repk := m[1..34]), Received(c, Start(c, st.lpk), st.ls, m))) &&
      (r == Err(ReadFailed) <==> |m| != 50) && (r == Err(BadVersion) <==> |m| == 50 && m[0] != 0)
  {
    Names();
    Starts(c, st, st.lpk);
    if |m| == 50 {
      var t := Start(c, st.lpk);
      var keys := c.hkdf(c.ecdh(m[1..34], st.ls), t.ck);
      OpensIff(c, keys.1, NONCE_0, c.sha256(t.h + m[1..34]), m[34..]);
    }
  }

  lemma SendsAct2(c: Crypto, st: State)
    ensures var (s, m) := ReceiveAct2(c, st);
      var ss := c.ecdh(st.repk, st.es);
      m == [0] + st.epk + ActTag(c, Of(st), st.epk, ss) && s == With(st, After(c, Of(st), st.epk, ss))
  {
    Names();
  }

  /** An initiator accepts act 2 likewise, with its own ephemeral secret. */
  lemma AcceptsAct2(c: Crypto, st: State, m: Bytes)
    requires Seals(c) && Authentic(c)
    ensures var (s, r) := InitiatorAct2(c, st, m);
      (r.Ok? <==> Genuine(c, Of(st), st.es, m)) &&
      (r.Ok? ==> s == With(st.(repk := m[1..34]), Received(c, Of(st), st.es, m))) &&
      (r == Err(ReadFailed) <==> |m| != 50) && (r == Err(BadVersion) <==> |m| == 50 && m[0] != 0)
  {
    Names();
    if |m| == 50 {
      var keys := c.hkdf(c.ecdh(m[1..34], st.es), st.ck);
      OpensIff(c, keys.1, NONCE_0, c.sha256(st.h + m[1..34]), m[34..]);
    }
  }

  lemma SendsAct3(c: Crypto, st: State)
    ensures var (s, m) := InitiatorAct3(c, st);
      var part, ss := c.seal(st.tempK, NONCE_1, st.h, st.lpk), c.ecdh(st.repk, st.ls);
      m == [0] + part + ActTag(c, Of(st), part, ss) &&
      (s.sk, s.rk) == FinalKeys(c, Of(st), ss) && s.sn == s.rn == 0 && s.ck == c.hkdf(ss, st.ck).0
  {
    Names();
  }

  lemma OpensTo(c: Crypto, key: Bytes, n: Bytes, ad: Bytes, x: Bytes, p: Bytes)
    requires Seals(c) && Authentic(c)
    ensures c.unseal(key, n, ad, x) == Some(p) <==> x == c.seal(key, n, ad, p)
  {}

  /** What a responder holds and has learnt once it has accepted act 3. */
  predicate Established(c: Crypto, before: State, s: State) {
    var ss := c.ecdh(s.rpk, before.es);
    (s.rk, s.sk) == FinalKeys(c, Of(before), ss) && s.ck == c.hkdf(ss, before.ck).0 && s.sn == s.rn == 0
  }

  /** A responder accepts act 3 exactly if it carries some static key sealed under the transcript of
      act 2 and a tag sealed under the key of that static key and the responder's ephemeral secret;
      that static key is then the peer's, and the keys are those of the chain. */
  lemma AcceptsAct3(c: Crypto, st: State, m: Bytes)
    requires Seals(c) && Authentic(c)
    ensures var (s, r) := ReceiveAct3(c, st, m);
      (r.Ok? <==> exists rs: Bytes :: Genuine3(c, Of(st), st.es, m, rs)) &&
      (r.Ok? ==> Genuine3(c, Of(st), st.es, m, s.rpk) && Established(c, st, s)) &&
      (r == Err(ReadFailed) <==> |m| != 66) && (r == Err(BadVersion) <==> |m| == 66 && m[0] != 0)
  {
    Names();
    if |m| == 66 && m[0] == 0 {
      var part, tag := m[1..50], m[50..];
      var found := c.unseal(st.tempK, NONCE_1, st.h, part);
      forall rs: Bytes ensures Genuine3(c, Of(st), st.es, m, rs) <==>
        found == Some(rs) && c.unseal(c.hkdf(c.ecdh(rs, st.es), st.ck).1, NONCE_0, c.sha256(st.h + part), tag).Some?
      {
        OpensTo(c, st.tempK, NONCE_1, st.h, part, rs);
        OpensIff(c, c.hkdf(c.ecdh(rs, st.es), st.ck).1, NONCE_0, c.sha256(st.h + part), tag);
      }
      hide Seals, Authentic, Nonce, Genuine3;
      assert found.Some? ==> (Genuine3(c, Of(st), st.es, m, found.value) <==>
        c.unseal(c.hkdf(c.ecdh(found.value, st.es), st.ck).1, NONCE_0, c.sha256(st.h + part), tag).Some?);
    }
  }

  // ---------------------------------------------------------------- both ends

  /** The responder's transcript after its act 2, from the act 1 it has received. */
  function Answered(c: Crypto, r: State, m1: Bytes): Shared
    requires |m1| == 50
  {
    After(c, Received(c, Start(c, r.lpk), r.ls, m1), r.epk, c.ecdh(m1[1..34], r.es))
  }

  /** Acts 1 and 3 for the responder `r`, from the owner of the static key `rs`. */
  predicate GenuineActs(c: Crypto, r: State, m1: Bytes, m3: Bytes, rs: Bytes) {
    Genuine(c, Start(c, r.lpk), r.ls, m1) && Genuine3(c, Answered(c, r, m1), r.es, m3, rs)
  }

  /** Whatever two messages it gets, a responder ends the handshake exactly if they are genuine acts,
      and no other key than the one they carry becomes the peer's. */
  lemma ResponderIff(c: Crypto, r: State, m1: Bytes, m3: Bytes)
    requires Seals(c) && Authentic(c)
    ensures var (r1, o1) := ReceiveAct1(c, r, m1);
      var (r3, o3) := ReceiveAct3(c, ReceiveAct2(c, r1).0, m3);
      (o1.Ok? && o3.Ok? <==> exists rs: Bytes :: GenuineActs(c, r, m1, m3, rs)) &&
      (o1.Ok? && o3.Ok? ==> GenuineActs(c, r, m1, m3, r3.rpk))
  {
    AcceptsAct1(c, r, m1);
    var (r1, o1) := ReceiveAct1(c, r, m1);
    var r2 := ReceiveAct2(c, r1).0;
    AcceptsAct3(c, r2, m3);
    if o1.Ok? {
      Answers(c, r, m1);
      hide Seals, Authentic, Genuine, Genuine3, ReceiveAct1, ReceiveAct2, ReceiveAct3, Answered;
      assert Genuine(c, Start(c, r.lpk), r.ls, m1);
      forall rs: Bytes ensures GenuineActs(c, r, m1, m3, rs) <==> Genuine3(c, Of(r2), r2.es, m3, rs) {}
    }
  }

  lemma Answers(c: Crypto, r: State, m1: Bytes)
    requires Seals(c) && Authentic(c) && ReceiveAct1(c, r, m1).1.Ok?
    ensures |m1| == 50
    ensures var r2 := ReceiveAct2(c, ReceiveAct1(c, r, m1).0).0;
      r2 == With(r.(repk := m1[1..34]), Answered(c, r, m1))
  {
    AcceptsAct1(c, r, m1);
    SendsAct2(c, ReceiveAct1(c, r, m1).0);
    hide Seals, Authentic, ReceiveAct1, ReceiveAct2, Start, ActTag;
  }

  /** An initiator, which knows the responder's static key `rs`, ends it exactly if act 2 is genuine. */
  lemma InitiatorIff(c: Crypto, i: State, rs: Bytes, m2: Bytes)
    requires Seals(c) && Authentic(c)
    ensures InitiatorAct2(c, InitiatorAct1(c, i, rs).0, m2).1.Ok? <==>
      Genuine(c, After(c, Start(c, rs), i.epk, c.ecdh(rs, i.es)), i.es, m2)
  {
    SendsAct1(c, i, rs);
    AcceptsAct2(c, InitiatorAct1(c, i, rs).0, m2);
  }

  // ---------------------------------------------------------------- the transport

  /** A direction's key, the chaining key and how often the key has been used. */
  datatype Use = Use(key: Bytes, ck: Bytes, n: nat)

  /** The next use of the direction: a key is used a thousand times. */
  function Next(c: Crypto, u: Use): Use {
    if u.n == 999 then Use(c.hkdf(u.key, u.ck).1, c.hkdf(u.key, u.ck).0, 0) else Use(u.key, u.ck, u.n + 1)
  }

  /** 32 zero bits and the number of the use in 64 bits, lowest byte first. */
  predicate NonceOf(nonce: Bytes, n: nat) {
    |nonce| == 12 && nonce[..4] == [0, 0, 0, 0] && FromLE(nonce[4..]) == n
  }

  lemma NonceIs(n: nat)
    requires n < 1000
    ensures NonceOf(Nonce(n), n)
  {
    var s := Nonce(n)[4..];
    assert s == [n % 256, n / 256] + [0, 0, 0, 0, 0, 0];
    assert FromLE([0, 0, 0, 0, 0, 0]) == 0 by { LastZeros(); }
    assert s[1..] == [n / 256] + [0, 0, 0, 0, 0, 0] && s[1..][1..] == [0, 0, 0, 0, 0, 0];
  }

  lemma LastZeros()
    ensures FromLE([0, 0, 0, 0, 0, 0]) == 0
  {
    assert FromLE([0, 0]) == 0;
    assert FromLE([0, 0, 0]) == 0;
    assert FromLE([0, 0, 0, 0]) == 0;
    assert FromLE([0, 0, 0, 0, 0]) == 0;
  }

  function Sending(st: State): Use {
    Use(st.sk, st.ck, st.sn)
  }

  function Receiving(st: State): Use {
    Use(st.rk, st.ck, st.rn)
  }

  /** A message is sent as its length in two bytes, highest first, and itself, each sealed without
      associated data in the next use of the sending key. */
  lemma SendsMessage(c: Crypto, st: State, m: Bytes)
    requires st.sn < 1000 && |m| <= 65535
    ensures var u := Sending(st);
      var v := Next(c, u);
      var w := Next(c, v);
      EncryptMessage(c, st, m) ==
        Ok((st.(sk := w.key, ck := w.ck, sn := w.n),
            c.seal(u.key, Nonce(u.n), [], [|m| / 256, |m| % 256]) + c.seal(v.key, Nonce(v.n), [], m)))
  {}

  /** 18 bytes are read as a length exactly if they seal it in the next use of the receiving key. */
  lemma ReadsLength(c: Crypto, st: State, lc: Bytes, l: nat)
    requires Seals(c) && Authentic(c) && st.rn < 1000 && |lc| == 18
    ensures var (s, r) := DecryptLength(c, st, lc);
      var u := Receiving(st);
      var v := Next(c, u);
      (r == Ok(l) <==> l <= 65535 && lc == c.seal(u.key, Nonce(u.n), [], [l / 256, l % 256])) &&
      s == if r.Ok? then st.(rk := v.key, ck := v.ck, rn := v.n) else st
  {
    var u, p := Receiving(st), c.unseal(st.rk, Nonce(st.rn), [], lc);
    hide Nonce;
    if p.Some? {
      assert lc == c.seal(u.key, Nonce(u.n), [], p.value);
      assert |p.value| == 2;
      var k := p.value[0] as int * 256 + p.value[1];
      assert p.value == [k / 256, k % 256];
    }
    if l <= 65535 && lc == c.seal(u.key, Nonce(u.n), [], [l / 256, l % 256]) {
      assert p == Some([l / 256, l % 256]);
    }
  }

  /** And as a body exactly if they seal it so. */
  lemma ReadsBody(c: Crypto, st: State, ct: Bytes, m: Bytes)
    requires Seals(c) && Authentic(c) && st.rn < 1000
    ensures var (s, r) := DecryptMessage(c, st, ct);
      var u := Receiving(st);
      var v := Next(c, u);
      (r == Ok(m) <==> ct == c.seal(u.key, Nonce(u.n), [], m)) &&
      s == if r.Ok? then st.(rk := v.key, ck := v.ck, rn := v.n) else st
  {
    OpensTo(c, st.rk, Nonce(st.rn), [], ct, m);
  }
}
