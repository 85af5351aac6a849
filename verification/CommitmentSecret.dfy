/** packages/core/lib/lightning/CommitmentSecret.ts: the flip-and-hash walk of BOLT #3. */
module CommitmentSecret {
  import opened Numbers
  import opened Bits

  type Secret = seq<bv8>

  /** SHA-256 is a parameter: nothing but its being a function is used. */
  type Hash = Secret -> Secret

  /** Flips bit `b` of the buffer; a write outside a Buffer has no effect. */
  function Flip(p: Secret, b: nat): Secret {
    if b / 8 < |p| then p[b / 8 := p[b / 8] ^ ((1 as bv8) << (b % 8))] else p
  }

  function Step(h: Hash, p: Secret, i: nat, b: nat): Secret {
    if Bit(i, b) then h(Flip(p, b)) else p
  }

  /** The walk over bits `hi - 1` down to `lo` of index `i`. */
  function Walk(h: Hash, p: Secret, i: nat, hi: nat, lo: nat): Secret
    requires lo <= hi
    decreases hi
  {
    if hi == lo then p else Walk(h, Step(h, p, i, hi - 1), i, hi - 1, lo)
  }

  /** `CommitmentSecret.derive` */
  function Derive(h: Hash, base: Secret, i: nat, bits: nat): Secret {
    Walk(h, base, i, bits, 0)
  }

  // ---------------------------------------------------------------- which bit is flipped

  function Value(x: bv8): nat {
    x as nat
  }

  /** Bit `k` of a buffer, counted from the lowest bit of its first byte. */
  predicate BufferBit(p: Secret, k: nat)
    requires k < 8 * |p|
  {
    (Value(p[k / 8]) / Pow2(k % 8)) % 2 == 1
  }

  /** The buffers differ in bit `b` and in no other. */
  ghost predicate DifferAt(p: Secret, q: Secret, b: nat) {
    |p| == |q| && forall k | 0 <= k < 8 * |p| :: BufferBit(p, k) != BufferBit(q, k) <==> k == b
  }

  /** The buffer as a number, lowest byte first. */
  function Number(p: Secret): nat {
    if p == [] then 0 else Value(p[0]) + 256 * Number(p[1..])
  }

  /** Bit `m` of a byte. */
  predicate Has(x: bv8, m: nat)
    requires m < 8
  {
    x & ((1 as bv8) << m) != 0
  }

  function Toggle(x: bv8, m: nat): bv8
    requires m < 8
  {
    x ^ ((1 as bv8) << m)
  }

  lemma LowBit(x: bv8)
    ensures Has(x, 0) <==> Value(x) % 2 == 1
  {}

  lemma HalfByte(x: bv8)
    ensures Value(x >> 1) == Value(x) / 2
  {}

  lemma HasHalf(x: bv8, m: nat)
    requires 0 < m < 8
    ensures Has(x, m) == Has(x >> 1, m - 1)
  {}

  lemma ToggleLow(x: bv8)
    ensures Value(Toggle(x, 0)) == if Has(x, 0) then Value(x) - 1 else Value(x) + 1
  {}

  lemma ToggleHalf(x: bv8, m: nat)
    requires 0 < m < 8
    ensures Toggle(x, m) >> 1 == Toggle(x >> 1, m - 1) && (Has(Toggle(x, m), 0) <==> Has(x, 0))
  {
    KeepsLow(x, m);
    hide Has;
  }

  lemma KeepsLow(x: bv8, m: nat)
    requires 0 < m < 8
    ensures Has(Toggle(x, m), 0) <==> Has(x, 0)
  {}

  lemma {:induction false} HasIsDigit(x: bv8, m: nat)
    requires m < 8
    ensures Has(x, m) <==> (Value(x) / Pow2(m)) % 2 == 1
    decreases m
  {
    hide Has, Value;
    if m == 0 {
      LowBit(x);
    } else {
      HasHalf(x, m);
      HalfByte(x);
      HasIsDigit(x >> 1, m - 1);
      DivDiv(Value(x), 2, Pow2(m - 1));
    }
  }

  lemma {:induction false} ToggleAdds(x: bv8, m: nat)
    requires m < 8
    ensures Value(Toggle(x, m)) == if Has(x, m) then Value(x) - Pow2(m) else Value(x) + Pow2(m)
    decreases m
  {
    hide Has, Toggle, Value;
    if m == 0 {
      ToggleLow(x);
    } else {
      ToggleHalf(x, m);
      HasHalf(x, m);
      ToggleAdds(x >> 1, m - 1);
      HalfByte(x);
      HalfByte(Toggle(x, m));
      LowBit(x);
      LowBit(Toggle(x, m));
    }
  }

  lemma ToggleLowest(x: bv8)
    ensures Toggle(x, 0) >> 1 == x >> 1 && Has(Toggle(x, 0), 0) != Has(x, 0)
  {}

  lemma {:induction false} ToggledBit(x: bv8, m: nat, j: nat)
    requires m < 8 && j < 8
    ensures Has(x, j) != Has(Toggle(x, m), j) <==> j == m
    decreases m
  {
    hide Has, Toggle;
    if m == 0 { ToggleLowest(x); } else { ToggleHalf(x, m); }
    if j > 0 {
      HasHalf(x, j);
      HasHalf(Toggle(x, m), j);
      if m > 0 { ToggledBit(x >> 1, m - 1, j - 1); }
    }
  }

  lemma BitOfByte(p: Secret, k: nat)
    requires k < 8 * |p|
    ensures BufferBit(p, k) == Has(p[k / 8], k % 8)
  {
    HasIsDigit(p[k / 8], k % 8);
    hide Has;
  }

  /** Flipping bit `b` changes that bit and no other. */
  lemma FlipDiffers(p: Secret, b: nat)
    requires b < 8 * |p|
    ensures DifferAt(p, Flip(p, b), b)
  {
    hide Has, BufferBit;
    var q := Flip(p, b);
    assert q == p[b / 8 := Toggle(p[b / 8], b % 8)];
    hide Flip, Toggle;
    forall k | 0 <= k < 8 * |p| ensures BufferBit(p, k) != BufferBit(q, k) <==> k == b {
      BitOfByte(p, k);
      BitOfByte(q, k);
      ToggledBit(p[b / 8], b % 8, k % 8);
    }
  }

  /** The buffer's number changes by the power of two of the bit that is flipped. */
  lemma {:induction false} FlipAdds(p: Secret, b: nat)
    requires b < 8 * |p|
    ensures Number(Flip(p, b)) == if BufferBit(p, b) then Number(p) - Pow2(b) else Number(p) + Pow2(b)
    decreases |p|
  {
    BitOfByte(p, b);
    hide Has, BufferBit, Toggle, Pow2, Value;
    FlipToggles(p, b);
    hide Flip;
    if b < 8 {
      ToggleAdds(p[0], b);
      assert Flip(p, b)[1..] == p[1..];
    } else {
      var c := b - 8;
      assert c / 8 == b / 8 - 1 && c % 8 == b % 8;
      FlipAdds(p[1..], c);
      FlipToggles(p[1..], c);
      BitOfByte(p[1..], c);
      assert Flip(p, b)[1..] == Flip(p[1..], c);
      PowEight(c);
    }
  }

  lemma FlipToggles(p: Secret, b: nat)
    requires b < 8 * |p|
    ensures Flip(p, b) == p[b / 8 := Toggle(p[b / 8], b % 8)]
  {}

  lemma PowEight(c: nat)
    ensures Pow2(8 + c) == 256 * Pow2(c)
  {
    PowAdd(2, 8, c);
    PowAdd(2, 4, 4);
    assert Pow2(4) == 16;
  }

  /** Only one buffer differs from `p` in bit `b` alone. */
  lemma DifferUnique(p: Secret, q: Secret, b: nat)
    requires b < 8 * |p| && DifferAt(p, q, b)
    ensures q == Flip(p, b)
  {
    FlipDiffers(p, b);
    hide Flip, BufferBit, Has;
    var r := Flip(p, b);
    forall i | 0 <= i < |p| ensures q[i] == r[i] {
      forall m: nat | m < 8 ensures Has(q[i], m) == Has(r[i], m) {
        var k := 8 * i + m;
        assert k / 8 == i && k % 8 == m;
        assert BufferBit(p, k) != BufferBit(q, k) <==> k == b;
        BitOfByte(q, k);
        BitOfByte(r, k);
      }
      SameByte(q[i], r[i]);
    }
  }

  lemma SameByte(x: bv8, y: bv8)
    requires forall m: nat | m < 8 :: Has(x, m) == Has(y, m)
    ensures x == y
  {
    assert Has(x, 0) == Has(y, 0) && Has(x, 1) == Has(y, 1) && Has(x, 2) == Has(y, 2) && Has(x, 3) == Has(y, 3);
    assert Has(x, 4) == Has(y, 4) && Has(x, 5) == Has(y, 5) && Has(x, 6) == Has(y, 6) && Has(x, 7) == Has(y, 7);
  }

  // ---------------------------------------------------------------- the buffer in place

  /** Changes bit `b` of the buffer and no other; a write outside it has no effect. */
  method FlipInPlace(p: array<bv8>, b: nat)
    modifies p
    ensures p[..] == Flip(old(p[..]), b)
    ensures if b < 8 * p.Length then DifferAt(old(p[..]), p[..], b) else p[..] == old(p[..])
  {
    if b < 8 * p.Length { FlipDiffers(p[..], b); }
    var byteIndex := b / 8;
    var bitIndex := b % 8;
    if byteIndex < p.Length {
      p[byteIndex] := p[byteIndex] ^ ((1 as bv8) << bitIndex);
    }
  }

  method FromBuffer(s: Secret) returns (p: array<bv8>)
    ensures fresh(p) && p[..] == s
  {
    p := new bv8[|s|](k requires 0 <= k < |s| => s[k]);
  }

  method DeriveSecret(h: Hash, base: Secret, i: nat, bits: nat) returns (r: Secret)
    ensures r == Derive(h, base, i, bits)
  {
    var p := FromBuffer(base);
    for b := bits downto 0
      invariant fresh(p)
      invariant Derive(h, base, i, bits) == Walk(h, p[..], i, b, 0)
    {
      if Bit(i, b) {
        FlipInPlace(p, b);
        p := FromBuffer(h(p[..]));
      }
    }
    r := p[..];
  }

  lemma {:induction false} WalkSplit(h: Hash, p: Secret, i: nat, hi: nat, mid: nat, lo: nat)
    requires lo <= mid <= hi
    ensures Walk(h, p, i, hi, lo) == Walk(h, Walk(h, p, i, hi, mid), i, mid, lo)
    decreases hi
  {
    if hi > mid {
      WalkSplit(h, Step(h, p, i, hi - 1), i, hi - 1, mid, lo);
    }
  }

  lemma {:induction false} WalkAgrees(h: Hash, p: Secret, i: nat, j: nat, hi: nat, lo: nat)
    requires lo <= hi
    requires forall b | lo <= b < hi :: Bit(i, b) == Bit(j, b)
    ensures Walk(h, p, i, hi, lo) == Walk(h, p, j, hi, lo)
    decreases hi
  {
    if hi > lo {
      WalkAgrees(h, Step(h, p, i, hi - 1), i, j, hi - 1, lo);
    }
  }

  lemma {:induction false} WalkOverZeros(h: Hash, p: Secret, i: nat, hi: nat)
    requires forall b | 0 <= b < hi :: !Bit(i, b)
    ensures Walk(h, p, i, hi, 0) == p
    decreases hi
  {
    if hi > 0 {
      WalkOverZeros(h, p, i, hi - 1);
    }
  }

  /** `j` lies in the block of `2^b` indices that starts at `i`. */
  predicate InBlock(i: nat, b: nat, j: nat) {
    i % Pow2(b) == 0 && i <= j < i + Pow2(b)
  }

  lemma BlockBits(i: nat, b: nat, j: nat)
    requires InBlock(i, b, j)
    ensures forall c | c >= b :: Bit(i, c) == Bit(j, c)
    ensures forall c | 0 <= c < b :: !Bit(i, c)
  {
    var d := Pow2(b);
    var q := i / d;
    assert i == q * d;
    DivUnique(j, d, q);
    forall c | c >= b
      ensures Bit(i, c) == Bit(j, c)
    {
      PowAdd(2, b, c - b);
      DivDiv(i, d, Pow2(c - b));
      DivDiv(j, d, Pow2(c - b));
      BitIsDigit(i, c);
      BitIsDigit(j, c);
    }
    forall c | 0 <= c < b
      ensures !Bit(i, c)
    {
      ZeroBit(q, b, c);
    }
  }

  lemma ZeroBit(q: nat, b: nat, c: nat)
    requires c < b
    ensures !Bit(q * Pow2(b), c)
  {
    var i, w, half := q * Pow2(b), Pow2(c), Pow2(b - c - 1);
    BitIsDigit(i, c);
    PowAdd(2, c, b - c);
    assert Pow2(b - c) == 2 * half;
    hide Pow, Pow2, Bit;
    EvenQuotient(q, half, w);
  }

  lemma EvenQuotient(q: nat, half: nat, w: nat)
    requires w > 0
    ensures (q * (w * (2 * half)) / w) % 2 == 0
  {
    var k := q * half;
    MulPositive(q, half);
    assert q * (w * (2 * half)) == (2 * k) * w by {
      MulAssoc(q, w, 2 * half);
      MulAssoc(q, 2, half);
      MulAssoc(2, q, half);
      assert (q * w) * (2 * half) == (q * (2 * half)) * w;
    }
    DivUnique((2 * k) * w, w, 2 * k);
  }

  /** The composition law behind the compact store: the secret of `i` is a prefix of the
      secrets of every index in the block that starts at `i`. */
  lemma DeriveThroughPrefix(h: Hash, seed: Secret, i: nat, j: nat, bits: nat, b: nat)
    requires b <= bits
    requires InBlock(i, b, j)
    ensures Derive(h, seed, j, bits) == Derive(h, Derive(h, seed, i, bits), j, b)
  {
    BlockBits(i, b, j);
    WalkSplit(h, seed, j, bits, b, 0);
    WalkSplit(h, seed, i, bits, b, 0);
    WalkAgrees(h, seed, i, j, bits, b);
    WalkOverZeros(h, Walk(h, seed, i, bits, b), i, b);
  }

  // ---------------------------------------------------------------- what is hashed, and in which order

  /** An index below `2^bits` with `b` as its highest bit: bit `b` of the base secret is changed
      first, the buffer is hashed, and the lower bits of the index walk on from there. */
  lemma DeriveHighest(h: Hash, base: Secret, rest: nat, bits: nat, b: nat, q: Secret)
    requires b < bits && rest < Pow2(b) && b < 8 * |base| && DifferAt(base, q, b)
    ensures Derive(h, base, Pow2(b) + rest, bits) == Derive(h, h(q), rest, b)
  {
    var i := Pow2(b) + rest;
    DifferUnique(base, q, b);
    HighestBits(i, rest, b);
    WalkSplit(h, base, i, bits, b + 1, 0);
    WalkSplit(h, base, 0, bits, b + 1, 0);
    ZeroHasNoBits();
    WalkAgrees(h, base, i, 0, bits, b + 1);
    WalkOverZeros(h, base, 0, bits);
    WalkOverZeros(h, Walk(h, base, 0, bits, b + 1), 0, b + 1);
    WalkAgrees(h, h(q), i, rest, b, 0);
  }

  lemma ZeroHasNoBits()
    ensures forall c: nat :: !Bit(0, c)
  {}

  lemma HighestBits(i: nat, rest: nat, b: nat)
    requires i == Pow2(b) + rest && rest < Pow2(b)
    ensures Bit(i, b) && forall c: nat | c > b :: !Bit(i, c)
    ensures forall c: nat | c < b :: Bit(i, c) == Bit(rest, c)
  {
    hide Bit, Pow2;
    BitAt(rest, b);
    forall c: nat | c > b ensures !Bit(i, c) { BitAbove(rest, b, c); }
    forall c: nat | c < b ensures Bit(i, c) == Bit(rest, c) { BitBelow(rest, b, c); }
  }

  lemma BitAt(rest: nat, b: nat)
    requires rest < Pow2(b)
    ensures Bit(Pow2(b) + rest, b)
  {
    BitIsDigit(Pow2(b) + rest, b);
    hide Bit;
    DivUnique(Pow2(b) + rest, Pow2(b), 1);
  }

  lemma BitAbove(rest: nat, b: nat, c: nat)
    requires rest < Pow2(b) && b < c
    ensures !Bit(Pow2(b) + rest, c)
  {
    BitIsDigit(Pow2(b) + rest, c);
    PowersRise(b, c);
    hide Bit, Pow2;
    BelowDivisor(Pow2(b) + rest, Pow2(c));
  }

  lemma BelowDivisor(x: nat, d: nat)
    requires x < d
    ensures x / d == 0
  {}

  lemma {:induction false} PowersRise(b: nat, c: nat)
    requires b < c
    ensures 2 * Pow2(b) <= Pow2(c)
    decreases c
  {
    if c > b + 1 { PowersRise(b, c - 1); }
  }

  lemma BitBelow(rest: nat, b: nat, c: nat)
    requires rest < Pow2(b) && c < b
    ensures Bit(Pow2(b) + rest, c) == Bit(rest, c)
  {
    BitIsDigit(Pow2(b) + rest, c);
    BitIsDigit(rest, c);
    PowAdd(2, c, b - c);
    assert Pow2(b) == Pow2(c) * (2 * Pow2(b - c - 1));
    hide Bit, Pow2;
    SameParity(rest, Pow2(c), Pow2(b - c - 1));
  }

  lemma SameParity(x: nat, w: nat, half: nat)
    requires w > 0
    ensures ((w * (2 * half) + x) / w) % 2 == (x / w) % 2
  {
    var q, k := x / w, 2 * half;
    DivUnique(x, w, q);
    Distribute(q, k, w);
    assert k * w == w * k;
    DivUnique(w * k + x, w, q + k);
  }

  /** Index 0 is the base secret itself, and a power of two one hash of the buffer with one bit changed. */
  lemma DeriveSmallest(h: Hash, base: Secret, bits: nat, b: nat, q: Secret)
    ensures Derive(h, base, 0, bits) == base
    ensures b < bits && b < 8 * |base| && DifferAt(base, q, b) ==> Derive(h, base, Pow2(b), bits) == h(q)
  {
    ZeroHasNoBits();
    WalkOverZeros(h, base, 0, bits);
    if b < bits && b < 8 * |base| && DifferAt(base, q, b) {
      DeriveHighest(h, base, 0, bits, b, q);
      WalkOverZeros(h, h(q), 0, b);
    }
  }
}
