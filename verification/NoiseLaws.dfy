/** The laws that the transport theorems ask of the cryptographic operations hold together: here is
    a symbolic instance of all of them. */
module NoiseLaws {
  import opened Wrappers
  import opened Noise
  import opened NoiseRuns

  /** Two byte strings in one, from which both can be told. */
  function Pair(x: Bytes, y: Bytes): Bytes {
    if x == [] then [0] + y else [1, x[0]] + Pair(x[1..], y)
  }

  lemma {:induction false} PairInjective(x: Bytes, y: Bytes, u: Bytes, v: Bytes)
    requires Pair(x, y) == Pair(u, v)
    ensures x == u && y == v
    decreases |x|
  {
    var p, q := Pair(x, y), Pair(u, v);
    assert p[0] == q[0];
    if x == [] {
      assert y == p[1..] && v == q[1..];
    } else {
      assert p[1] == x[0] && q[1] == u[0];
      assert Pair(x[1..], y) == p[2..] && Pair(u[1..], v) == q[2..];
      PairInjective(x[1..], y, u[1..], v);
      assert x == [x[0]] + x[1..] && u == [u[0]] + u[1..];
    }
  }

  lemma {:induction false} PairLength(x: Bytes, y: Bytes)
    ensures |Pair(x, y)| == 2 * |x| + 1 + |y|
    decreases |x|
  {
    if x != [] { PairLength(x[1..], y); }
  }

  /** The tag of a packet tells the length of its key. */
  function Tag(key: Bytes): (t: Bytes)
    ensures |t| == MAC
  {
    [|key| % 256, 0, 0, 0, 0, 0, 0, 0, 0, 0, 0, 0, 0, 0, 0, 0]
  }

  function Unseal(key: Bytes, packet: Bytes): Option<Bytes> {
    if |packet| >= MAC && packet[..MAC] == Tag(key) then Some(packet[MAC..]) else None
  }

  function Symbolic(): Crypto {
    Crypto(
      b => b,
      (s: Bytes) => seq(33, _ => 0),
      (p: Bytes, s: Bytes) => [],
      (x: Bytes, y: Bytes) => ([0] + Pair(x, y), [1] + Pair(x, y)),
      (key: Bytes, n: Bytes, ad: Bytes, p: Bytes) => Tag(key) + p,
      (key: Bytes, n: Bytes, ad: Bytes, packet: Bytes) => Unseal(key, packet))
  }

  lemma SealsHolds()
    ensures Seals(Symbolic())
  {
    forall k: Bytes, p: Bytes ensures Unseal(k, Tag(k) + p) == Some(p) {
      var s := Tag(k) + p;
      assert s[..MAC] == Tag(k) && s[MAC..] == p;
    }
  }

  lemma AuthenticHolds()
    ensures Authentic(Symbolic())
  {
    forall k: Bytes, x: Bytes, p: Bytes | Unseal(k, x) == Some(p) ensures x == Tag(k) + p {
      assert x == x[..MAC] + x[MAC..];
    }
  }

  lemma FreeHolds()
    ensures Free(Symbolic(), (b: Bytes) => |b|)
  {
    var c := Symbolic();
    forall x: Bytes, y: Bytes, u: Bytes, v: Bytes
      ensures c.hkdf(x, y).0 == c.hkdf(u, v).0 || c.hkdf(x, y).1 == c.hkdf(u, v).1 ==> x == u && y == v
      ensures c.hkdf(x, y).0 != c.hkdf(u, v).1
    {
      var p, q := Pair(x, y), Pair(u, v);
      assert ([0] + p)[1..] == p && ([0] + q)[1..] == q && ([1] + p)[1..] == p && ([1] + q)[1..] == q;
      assert ([0] + p)[0] == 0 && ([1] + q)[0] == 1;
      if p == q { PairInjective(x, y, u, v); }
    }
    forall x: Bytes, y: Bytes ensures |Pair(x, y)| == 2 * |x| + 1 + |y| { PairLength(x, y); }
  }

  /** All laws at once, with keys as the handshake leaves them. */
  lemma LawsHoldTogether() returns (c: Crypto, rank: Bytes -> nat, k: Keys)
    ensures Commutes(c) && Seals(c) && Authentic(c) && Free(c, rank) && Started(c, k) && KeysDistinguished(c, k)
  {
    c, rank := Symbolic(), (b: Bytes) => |b|;
    SealsHolds();
    AuthenticHolds();
    FreeHolds();
    k := Keys([0] + Pair([], []), [1] + Pair([], []), []);
    Lengths(k);
    hide Seals, Authentic, Free;
    TagsDistinguish(KeysAfter(c, k, [0]).key0, KeysAfter(c, k, [1, 0]).key0);
  }

  lemma TagsDistinguish(right: Bytes, wrong: Bytes)
    requires |right| == 6 && |wrong| == 12
    ensures Distinguishes(Symbolic(), right, wrong)
  {
    assert Tag(right)[0] == 6 && Tag(wrong)[0] == 12;
    forall p: Bytes ensures Unseal(wrong, Tag(right) + p).None? {
      assert (Tag(right) + p)[..MAC] == Tag(right);
    }
  }

  lemma Lengths(k: Keys)
    requires k == Keys([0] + Pair([], []), [1] + Pair([], []), [])
    ensures |KeysAfter(Symbolic(), k, [0]).key0| == 6 && |KeysAfter(Symbolic(), k, [1, 0]).key0| == 12
  {
    var c := Symbolic();
    var zero: seq<Side>, one: seq<Side>, both: seq<Side> := [0], [1], [1, 0];
    assert zero[..0] == [] && both[..1] == one && one[..0] == [];
    assert KeysAfter(c, k, []) == k;
    var k1 := KeysAfter(c, k, one);
    assert k1 == Rotate(c, k, 1) && KeysAfter(c, k, zero) == Rotate(c, k, 0) &&
      KeysAfter(c, k, both) == Rotate(c, k1, 0);
    PairLength([], []);
    PairLength(k.key0, k.ck);
    PairLength(k.key1, k.ck);
    PairLength(k1.key0, k1.ck);
  }
}
