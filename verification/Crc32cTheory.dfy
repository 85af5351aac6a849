/** Facts about two fixed words. */
module Crc32cConstants {
  import opened Crc32c

  lemma FourBits(w: bv32, n: nat)
    requires n >= 4
    ensures BitsFrom(w, n) == [Odd(w), Odd(w >> 1), Odd(w >> 2), Odd(w >> 3)] + BitsFrom(w >> 4, n - 4)
  {
    assert Half(w) == w >> 1 && Half(w >> 1) == w >> 2 && Half(w >> 2) == w >> 3 && Half(w >> 3) == w >> 4;
    hide Half, Odd;
    assert BitsFrom(w, n) == [Odd(w)] + BitsFrom(w >> 1, n - 1);
    assert BitsFrom(w >> 1, n - 1) == [Odd(w >> 1)] + BitsFrom(w >> 2, n - 2);
    assert BitsFrom(w >> 2, n - 2) == [Odd(w >> 2)] + BitsFrom(w >> 3, n - 3);
    assert BitsFrom(w >> 3, n - 3) == [Odd(w >> 3)] + BitsFrom(w >> 4, n - 4);
  }

  lemma FourZeros(w: bv32, n: nat)
    requires w & 0xf == 0 && n >= 4
    ensures BitsFrom(w, n) == seq(4, _ => false) + BitsFrom(w >> 4, n - 4)
  {
    FourBits(w, n);
    assert !Odd(w) && !Odd(w >> 1) && !Odd(w >> 2) && !Odd(w >> 3);
    hide BitsFrom, Odd;
  }

  lemma FourOnes(w: bv32, n: nat)
    requires w & 0xf == 0xf && n >= 4
    ensures BitsFrom(w, n) == seq(4, _ => true) + BitsFrom(w >> 4, n - 4)
  {
    FourBits(w, n);
    assert Odd(w) && Odd(w >> 1) && Odd(w >> 2) && Odd(w >> 3);
    hide BitsFrom, Odd;
  }

  lemma TopBits()
    ensures BitsFrom(TOP, 32) == seq(31, _ => false) + [true]
  {
    FourBits(8, 4);
    assert BitsFrom(8, 4) == [false, false, false, true];
    hide BitsFrom, Odd;
    FourZeros(0x0000_0080, 8);
    assert BitsFrom(0x80, 8) == seq(7, _ => false) + [true];
    FourZeros(0x0000_0800, 12);
    FourZeros(0x0000_8000, 16);
    assert BitsFrom(0x8000, 16) == seq(15, _ => false) + [true];
    FourZeros(0x0008_0000, 20);
    FourZeros(0x0080_0000, 24);
    assert BitsFrom(0x80_0000, 24) == seq(23, _ => false) + [true];
    FourZeros(0x0800_0000, 28);
    FourZeros(0x8000_0000, 32);
  }

  lemma OnesBits()
    ensures BitsFrom(ONES, 32) == seq(32, _ => true)
  {
    assert BitsFrom(0, 0) == [];
    hide BitsFrom, Odd;
    FourOnes(0x0000_000f, 4);
    FourOnes(0x0000_00ff, 8);
    assert BitsFrom(0xff, 8) == seq(8, _ => true);
    FourOnes(0x0000_0fff, 12);
    FourOnes(0x0000_ffff, 16);
    assert BitsFrom(0xffff, 16) == seq(16, _ => true);
    FourOnes(0x000f_ffff, 20);
    FourOnes(0x00ff_ffff, 24);
    assert BitsFrom(0xff_ffff, 24) == seq(24, _ => true);
    FourOnes(0x0fff_ffff, 28);
    FourOnes(0xffff_ffff, 32);
  }

  /** The constant of the source, lowest bit first. */
  lemma PolynomialBits()
    ensures BitsFrom(POLYNOMIAL, 32) ==
      [false, false, false, true] + ([true, true, true, false] + ([true, true, false, true] +
      ([true, true, false, false] + ([false, true, true, false] + ([true, true, true, true] +
      ([false, true, false, false] + [false, false, false, true]))))))
  {
    assert BitsFrom(0, 0) == [];
    hide BitsFrom, Odd;
    Nibble(0x0000_0008, 4, false, false, false, true);
    Nibble(0x0000_0082, 8, false, true, false, false);
    Nibble(0x0000_082f, 12, true, true, true, true);
    Nibble(0x0000_82f6, 16, false, true, true, false);
    Nibble(0x0008_2f63, 20, true, true, false, false);
    Nibble(0x0082_f63b, 24, true, true, false, true);
    Nibble(0x082f_63b7, 28, true, true, true, false);
    Nibble(0x82f6_3b78, 32, false, false, false, true);
  }

  lemma Nibble(w: bv32, n: nat, b0: bool, b1: bool, b2: bool, b3: bool)
    requires n >= 4
    requires Odd(w) == b0 && Odd(w >> 1) == b1 && Odd(w >> 2) == b2 && Odd(w >> 3) == b3
    ensures BitsFrom(w, n) == [b0, b1, b2, b3] + BitsFrom(w >> 4, n - 4)
  {
    FourBits(w, n);
  }

  lemma TopReachesBottom()
    ensures Shifts(TOP, 31) == 1
  {
    hide Shifts, Shift;
    ShiftsAdd(TOP, 8, 23);
    ShiftsHigh(TOP);
    ShiftsAdd(0x0080_0000, 8, 15);
    ShiftsHigh(0x0080_0000);
    ShiftsAdd(0x0000_8000, 8, 7);
    ShiftsHigh(0x0000_8000);
    ShiftsAdd(0x80, 4, 3);
    FourEven(0x80);
    EightToOne();
  }

  lemma EightToOne()
    ensures Shifts(8, 3) == 1
  {
    assert Shift(8) == 4 && Shift(4) == 2 && Shift(2) == 1;
    hide Shift;
    assert Shifts(4, 2) == Shifts(2, 1);
  }
}

/** CRC32C as polynomial division, and what it detects. */
module Crc32cTheory {
  import opened Crc32c
  import opened Crc32cConstants

  // ---------------------------------------------------------------- burst errors

  function Double(w: bv32): bv32 {
    w << 1
  }

  function Append(b: bool, w: bv32): bv32 {
    Xor(Low(b), Double(w))
  }

  /** The word whose low bits, least significant first, are `bits`. */
  function Word(bits: Bits): bv32 {
    if bits == [] then 0 else Append(bits[0], Word(bits[1..]))
  }

  predicate TopClear(w: bv32) {
    w >> 31 == 0
  }

  function Right3(w: bv32): bv32 { w >> 3 }
  function Right4(w: bv32): bv32 { w >> 4 }
  function Right8(w: bv32): bv32 { w >> 8 }
  function Right15(w: bv32): bv32 { w >> 15 }
  function Right16(w: bv32): bv32 { w >> 16 }

  lemma Halves3(w: bv32)
    ensures Halves(w, 3) == Right3(w)
  {}

  lemma Halves4(w: bv32)
    ensures Halves(w, 4) == Right4(w)
  {}

  lemma RightTwice(w: bv32)
    ensures Right4(Right4(w)) == Right8(w)
  {}

  lemma Halves8(w: bv32)
    ensures Halves(w, 8) == Right8(w)
  {
    hide Halves, Right4, Right8;
    Halves4(w);
    Halves4(Right4(w));
    RightTwice(w);
    HalvesAdd(w, 4, 4);
  }

  lemma Right8Twice(w: bv32)
    ensures Right8(Right8(w)) == Right16(w)
  {}

  lemma Halves16(w: bv32)
    ensures Halves(w, 16) == Right16(w)
  {
    hide Halves, Right8, Right16;
    Halves8(w);
    Halves8(Right8(w));
    Right8Twice(w);
    HalvesAdd(w, 8, 8);
  }

  lemma RightThrice(w: bv32)
    ensures Right3(Right4(Right8(w))) == Right15(w)
  {}

  lemma Halves15(w: bv32)
    ensures Halves(w, 15) == Right15(w)
  {
    hide Halves, Right3, Right4, Right8, Right15;
    Halves8(w);
    Halves4(Right8(w));
    Halves3(Right4(Right8(w)));
    RightThrice(w);
    HalvesAdd(w, 8, 7);
    HalvesAdd(Right8(w), 4, 3);
  }

  lemma TopByShifts(w: bv32)
    ensures Right15(Right16(w)) == 0 <==> TopClear(w)
  {}

  lemma Halves31(w: bv32)
    ensures Halves(w, 31) == 0 <==> TopClear(w)
  {
    hide Halves, Right15, Right16, TopClear;
    Halves16(w);
    Halves15(Right16(w));
    TopByShifts(w);
    HalvesAdd(w, 16, 15);
  }

  lemma {:induction false} HalvesZero(n: nat)
    ensures Halves(0, n) == 0
    decreases n
  {
    if n > 0 { HalvesZero(n - 1); }
  }

  lemma HalfOfDouble(w: bv32)
    requires TopClear(w)
    ensures Half(Double(w)) == w
  {}

  lemma HalfOfLow(b: bool)
    ensures Half(Low(b)) == 0
  {}

  lemma AppendHalf(b: bool, w: bv32)
    requires TopClear(w)
    ensures Half(Append(b, w)) == w
  {
    HalfXor(Low(b), Double(w));
    HalfOfLow(b);
    HalfOfDouble(w);
    XorCommutes(0, w);
    XorZero(w);
    hide Half, Xor, Low, Double, TopClear;
  }

  lemma AppendOdd(b: bool, w: bv32)
    ensures Odd(Append(b, w)) <==> b
  {}

  /** Up to 32 bits fit in a word and can be read back from it. */
  lemma {:induction false} WordHolds(bits: Bits)
    requires |bits| <= 32
    ensures Halves(Word(bits), |bits|) == 0 && BitsFrom(Word(bits), |bits|) == bits
  {
    hide Half, Odd, Append, TopClear;
    if bits != [] {
      var rest := bits[1..];
      var v := Word(rest);
      WordHolds(rest);
      HalvesAdd(v, |rest|, 31 - |rest|);
      HalvesZero(31 - |rest|);
      Halves31(v);
      AppendHalf(bits[0], v);
      AppendOdd(bits[0], v);
      assert bits == [bits[0]] + rest;
    }
  }

  lemma {:induction false} SerialInjective(r: bv32, q: bv32, bits: Bits)
    requires Serial(r, bits) == Serial(q, bits)
    ensures r == q
    decreases |bits|
  {
    hide Shift, Xor, Low;
    if bits != [] {
      var b := Low(bits[0]);
      SerialInjective(Shift(Xor(r, b)), Shift(Xor(q, b)), bits[1..]);
      ShiftInjective(Xor(r, b), Xor(q, b));
      XorCancels(r, q, b);
    }
  }

  lemma ShortSerial(r: bv32, bits: Bits)
    requires |bits| <= 32
    ensures Serial(r, bits) == Shifts(Xor(r, Word(bits)), |bits|)
  {
    WordHolds(bits);
    WordAtOnce(r, Word(bits), |bits|);
    XorZero(Serial(r, bits));
    hide Serial, Shifts, Word, Xor, Halves, BitsFrom;
  }

  lemma ShortBurst(r: bv32, xs: Bits, ys: Bits)
    requires |xs| == |ys| <= 32 && Serial(r, xs) == Serial(r, ys)
    ensures xs == ys
  {
    ShortSerial(r, xs);
    ShortSerial(r, ys);
    WordHolds(xs);
    WordHolds(ys);
    ShiftsInjective(Xor(r, Word(xs)), Xor(r, Word(ys)), |xs|);
    XorCommutes(r, Word(xs));
    XorCommutes(r, Word(ys));
    XorCancels(Word(xs), Word(ys), r);
    hide Serial, Shifts, Word, Xor, Halves, BitsFrom;
  }

  /** Two messages that differ only within 32 consecutive bits have different checksums. */
  lemma BurstDetected(crc: bv32, pre: Bits, xs: Bits, ys: Bits, post: Bits)
    requires |xs| == |ys| <= 32 && xs != ys
    ensures Serial(crc, pre + xs + post) != Serial(crc, pre + ys + post)
  {
    var r := Serial(crc, pre);
    SerialConcat(crc, pre + xs, post);
    SerialConcat(crc, pre + ys, post);
    SerialConcat(crc, pre, xs);
    SerialConcat(crc, pre, ys);
    hide Serial;
    if Serial(crc, pre + xs + post) == Serial(crc, pre + ys + post) {
      SerialInjective(Serial(r, xs), Serial(r, ys), post);
      ShortBurst(r, xs, ys);
    }
  }

  lemma {:induction false} BufferBitsConcat(a: seq<bv8>, b: seq<bv8>)
    ensures BufferBits(a + b) == BufferBits(a) + BufferBits(b)
  {
    hide BitsFrom;
    if a == [] {
      assert a + b == b;
    } else {
      assert (a + b)[1..] == a[1..] + b;
      BufferBitsConcat(a[1..], b);
    }
  }

  lemma {:induction false} BufferBitsLength(a: seq<bv8>)
    ensures |BufferBits(a)| == 8 * |a|
  {
    if a != [] { BufferBitsLength(a[1..]); }
  }

  lemma ByteFromBits(x: bv8, y: bv8)
    requires BitsFrom(x as bv32, 8) == BitsFrom(y as bv32, 8)
    ensures x == y
  {
    var v, w := x as bv32, y as bv32;
    WordAtOnce(0, v, 8);
    WordAtOnce(0, w, 8);
    ByteHalves(x);
    ByteHalves(y);
    XorCommutes(0, v);
    XorCommutes(0, w);
    XorZero(v);
    XorZero(w);
    hide Xor, Shifts, Serial, Halves, BitsFrom;
    ShiftsInjective(v, w, 8);
  }

  lemma {:induction false} BufferFromBits(a: seq<bv8>, b: seq<bv8>)
    requires |a| == |b| && BufferBits(a) == BufferBits(b)
    ensures a == b
  {
    if a != [] {
      var x, y := BitsFrom(a[0] as bv32, 8), BitsFrom(b[0] as bv32, 8);
      assert BufferBits(a)[..8] == x && BufferBits(b)[..8] == y;
      assert BufferBits(a)[8..] == BufferBits(a[1..]) && BufferBits(b)[8..] == BufferBits(b[1..]);
      hide BitsFrom, BufferBits;
      ByteFromBits(a[0], b[0]);
      BufferFromBits(a[1..], b[1..]);
    }
  }

  /** Two buffers of equal length that differ only within four consecutive bytes never have
      the same checksum. */
  lemma FourByteErrorsDetected(pre: seq<bv8>, xs: seq<bv8>, ys: seq<bv8>, post: seq<bv8>)
    requires |xs| == |ys| <= 4 && xs != ys
    ensures Crc(pre + xs + post) != Crc(pre + ys + post)
  {
    BufferBitsConcat(pre + xs, post);
    BufferBitsConcat(pre, xs);
    BufferBitsConcat(pre + ys, post);
    BufferBitsConcat(pre, ys);
    BufferBitsLength(xs);
    BufferBitsLength(ys);
    if BufferBits(xs) == BufferBits(ys) { BufferFromBits(xs, ys); }
    hide BufferBits, Serial, Register, Xor;
    BurstDetected(ONES, BufferBits(pre), BufferBits(xs), BufferBits(ys), BufferBits(post));
    RegisterIsSerial(ONES, pre + xs + post);
    RegisterIsSerial(ONES, pre + ys + post);
    if Crc(pre + xs + post) == Crc(pre + ys + post) {
      XorCancels(Register(ONES, pre + xs + post), Register(ONES, pre + ys + post), ONES);
    }
  }

  // ---------------------------------------------------------------- polynomials over two elements

  /** Coefficients, highest degree first. */
  type Poly = Bits

  function Zeros(n: nat): (z: Poly)
    ensures |z| == n && forall i | 0 <= i < n :: !z[i]
  {
    seq(n, _ => false)
  }

  function Plus(a: Poly, b: Poly): (r: Poly)
    requires |a| == |b|
    ensures |r| == |a| && forall i | 0 <= i < |a| :: r[i] == (a[i] != b[i])
  {
    seq(|a|, i requires 0 <= i < |a| => a[i] != b[i])
  }

  /** The register's content as a polynomial of degree below 32. */
  function Content(r: bv32): (p: Poly)
    ensures |p| == 32
  {
    BitsFrom(r, 32)
  }

  /** The exponents of the generator of section 12.1 of RFC 3720, 11EDC6F41 in hexadecimal. */
  const EXPONENTS: set<nat> := {32, 28, 27, 26, 25, 23, 22, 20, 19, 18, 14, 13, 11, 10, 9, 8, 6, 0}

  /** The generator's 33 coefficients. */
  function Generator(): (g: Poly)
    ensures |g| == 33
  {
    seq(33, i requires 0 <= i < 33 => 32 - i in EXPONENTS)
  }

  /** The reflected constant of the source stands for the generator without its leading term. */
  lemma GeneratorIs()
    ensures Generator() == [true] + Content(POLYNOMIAL)
  {
    PolynomialBits();
    hide BitsFrom;
  }

  /** The product of `q` with the generator. */
  function Multiple(q: Poly): (p: Poly)
    ensures |p| == |q| + 32
  {
    if q == [] then Zeros(32)
    else
      var n := |q| - 1;
      Plus(Multiple(q[..n]) + [false], Zeros(n) + (if q[n] then Generator() else Zeros(33)))
  }

  /** One step of long division: shift in the next coefficient and, if the register's leading
      one leaves it, add the generator. */
  function DivideStep(r: bv32, b: bool): bv32 {
    Xor(Shift(r), if b then TOP else 0)
  }

  /** The register after dividing the polynomial `p`, starting from `r`. */
  function Divide(r: bv32, p: Poly): bv32 {
    if p == [] then r else DivideStep(Divide(r, p[..|p| - 1]), p[|p| - 1])
  }

  lemma {:induction false} ContentAt(r: bv32, n: nat, k: nat)
    requires k < n
    ensures BitsFrom(r, n)[k] == Odd(Halves(r, k))
    decreases k
  {
    hide Half, Odd;
    if k > 0 { ContentAt(Half(r), n - 1, k - 1); }
  }

  lemma {:induction false} ContentXor(x: bv32, y: bv32, n: nat)
    ensures BitsFrom(Xor(x, y), n) == Plus(BitsFrom(x, n), BitsFrom(y, n))
    decreases n
  {
    hide Half, Odd, Xor;
    if n > 0 {
      HalfXor(x, y);
      OddXor(x, y);
      ContentXor(Half(x), Half(y), n - 1);
      assert BitsFrom(x, n)[1..] == BitsFrom(Half(x), n - 1) && BitsFrom(y, n)[1..] == BitsFrom(Half(y), n - 1);
    }
  }

  lemma Right16Twice(w: bv32)
    ensures Right16(Right16(w)) == 0
  {}

  lemma Halves32(w: bv32)
    ensures Halves(w, 32) == 0
  {
    hide Halves, Right16;
    Halves16(w);
    Halves16(Right16(w));
    Right16Twice(w);
    HalvesAdd(w, 16, 16);
  }

  lemma ContentHalf(r: bv32)
    ensures Content(Half(r)) == Content(r)[1..] + [false]
  {
    forall k | 0 <= k < 32
      ensures Content(Half(r))[k] == (Content(r)[1..] + [false])[k]
    {
      ContentAt(Half(r), 32, k);
      if k < 31 { ContentAt(r, 32, k + 1); } else { Halves32(r); }
    }
  }

  lemma ContentTop()
    ensures Content(TOP) == Zeros(31) + [true]
  {
    TopBits();
    hide BitsFrom;
    assert Zeros(31) == seq(31, _ => false);
  }

  lemma ContentZero()
    ensures Content(0) == Zeros(32)
  {
    forall k | 0 <= k < 32
      ensures !Content(0)[k]
    {
      ContentAt(0, 32, k);
      HalvesZero(k);
    }
  }

  function If(b: bool, p: Poly): (r: Poly)
    ensures |r| == |p|
  {
    if b then p else Zeros(|p|)
  }

  /** A division step drops the leading coefficient, appends the new one and adds the
      generator's lower part if the dropped coefficient was one. */
  lemma ContentStep(r: bv32, b: bool)
    ensures Content(DivideStep(r, b)) == Plus(Content(r)[1..] + [b], If(Odd(r), Content(POLYNOMIAL)))
  {
    hide Xor, Half, Odd, Content, Shift;
    var top: bv32 := if b then TOP else 0;
    ContentOfXor(Shift(r), top);
    ContentShift(r);
    ContentBit(b);
    StepSum(Content(r)[1..], If(Odd(r), Content(POLYNOMIAL)), b);
  }

  lemma ContentOfXor(x: bv32, y: bv32)
    ensures Content(Xor(x, y)) == Plus(Content(x), Content(y))
  {
    hide BitsFrom, Xor;
    ContentXor(x, y, 32);
  }

  lemma ContentBit(b: bool)
    ensures Content(if b then TOP else 0) == Zeros(31) + [b]
  {
    hide Content;
    ContentTop();
    ContentZero();
    assert Zeros(32) == Zeros(31) + [false];
  }

  lemma ContentShift(r: bv32)
    ensures Content(Shift(r)) == Plus(Content(r)[1..] + [false], If(Odd(r), Content(POLYNOMIAL)))
  {
    hide Xor, Half, Odd, Content;
    ContentHalf(r);
    ContentOfXor(Half(r), POLYNOMIAL);
  }

  lemma StepSum(high: Poly, p: Poly, b: bool)
    requires |high| == 31 && |p| == 32
    ensures Plus(Plus(high + [false], p), Zeros(31) + [b]) == Plus(high + [b], p)
  {}

  lemma ContentHead(r: bv32)
    ensures Content(r)[0] == Odd(r)
  {}

  /** Dividing `p`, written with 32 more leading zeros, by the generator gives `q` and leaves `rem`. */
  ghost predicate Divides(p: Poly, q: Poly, rem: Poly) {
    |q| == |p| && |rem| == 32 && Zeros(32) + p == Plus(Multiple(q), Zeros(|p|) + rem)
  }

  /** The register holds the remainder: adding it to some multiple of the generator gives the
      dividend, written with 32 more leading zeros. */
  lemma {:induction false} DivideIsRemainder(p: Poly) returns (q: Poly)
    ensures Divides(p, q, Content(Divide(0, p)))
  {
    hide Divides, Content, DivideStep;
    if p == [] {
      q := [];
      NothingDivides();
    } else {
      var n := |p| - 1;
      var r := Divide(0, p[..n]);
      q := DivideIsRemainder(p[..n]);
      DivisionStep(p[..n], p[n], q, r);
      q := q + [Odd(r)];
      assert p == p[..n] + [p[n]];
    }
  }

  lemma NothingDivides()
    ensures Divides([], [], Content(0))
  {
    ContentZero();
  }

  lemma DivisionStep(p: Poly, b: bool, q: Poly, r: bv32)
    requires Divides(p, q, Content(r))
    ensures Divides(p + [b], q + [Odd(r)], Content(DivideStep(r, b)))
  {
    ContentStep(r, b);
    ContentHead(r);
    RemainderStep(p, b, q, Odd(r), Content(r));
    hide Content, DivideStep, Generator, Odd;
    assert (q + [Odd(r)])[..|p|] == q;
  }

  lemma RemainderStep(p: Poly, b: bool, q: Poly, t: bool, c: Poly)
    requires |q| == |p| && |c| == 32 && c[0] == t
    requires Zeros(32) + p == Plus(Multiple(q), Zeros(|p|) + c)
    ensures Zeros(32) + (p + [b]) ==
      Plus(Plus(Multiple(q) + [false], Zeros(|p|) + (if t then Generator() else Zeros(33))),
           Zeros(|p| + 1) + Plus(c[1..] + [b], If(t, Content(POLYNOMIAL))))
  {
    GeneratorIs();
    hide BitsFrom, Multiple, Generator;
    var n := |p|;
    var g := if t then Generator() else Zeros(33);
    var c' := Plus(c[1..] + [b], If(t, Content(POLYNOMIAL)));
    var rhs := Plus(Plus(Multiple(q) + [false], Zeros(n) + g), Zeros(n + 1) + c');
    forall i | 0 <= i < n + 33
      ensures (Zeros(32) + (p + [b]))[i] == rhs[i]
    {
      if i < n + 32 {
        assert (Zeros(32) + p)[i] == (Multiple(q)[i] != (Zeros(n) + c)[i]);
      }
    }
  }

  // ---------------------------------------------------------------- the standard's definition

  /** The first 32 coefficients complemented. */
  function ComplementFirst32(p: Poly): (r: Poly)
    requires |p| >= 32
    ensures |r| == |p|
  {
    Plus(p, seq(32, _ => true) + Zeros(|p| - 32))
  }

  lemma {:induction false} DivideConcat(r: bv32, a: Poly, b: Poly)
    ensures Divide(r, a + b) == Divide(Divide(r, a), b)
    decreases |b|
  {
    hide DivideStep;
    if b == [] {
      assert a + b == a;
    } else {
      var n := |b| - 1;
      assert (a + b)[..|a + b| - 1] == a + b[..n];
      DivideConcat(r, a, b[..n]);
    }
  }

  lemma {:induction false} DivideZeros(r: bv32, n: nat)
    ensures Divide(r, Zeros(n)) == Shifts(r, n)
  {
    hide Shift, Xor;
    if n > 0 {
      DivideZeros(r, n - 1);
      assert Zeros(n)[..n - 1] == Zeros(n - 1);
      XorZero(Shift(Shifts(r, n - 1)));
      ShiftsAdd(r, n - 1, 1);
      assert Shifts(Shifts(r, n - 1), 1) == Shift(Shifts(r, n - 1));
    }
  }

  lemma StepLinear(r: bv32, s: bv32, b: bool, d: bool)
    ensures DivideStep(Xor(r, s), b != d) == Xor(DivideStep(r, b), DivideStep(s, d))
  {
    var x, y: bv32 := if b then TOP else 0, if d then TOP else 0;
    ShiftLinear(r, s);
    assert (if b != d then TOP else 0) == Xor(x, y);
    XorShuffle(Shift(r), Shift(s), x, y);
    hide Shift, Xor;
  }

  lemma XorShuffle(a: bv32, b: bv32, x: bv32, y: bv32)
    ensures Xor(Xor(a, b), Xor(x, y)) == Xor(Xor(a, x), Xor(b, y))
  {
    hide Xor;
    XorAssociates(Xor(a, b), x, y);
    XorSwaps(a, x, b);
    XorAssociates(Xor(a, x), b, y);
  }

  lemma {:induction false} DivideLinear(r: bv32, s: bv32, a: Poly, b: Poly)
    requires |a| == |b|
    ensures Divide(Xor(r, s), Plus(a, b)) == Xor(Divide(r, a), Divide(s, b))
  {
    hide DivideStep, Xor;
    if a != [] {
      var n := |a| - 1;
      assert Plus(a, b)[..n] == Plus(a[..n], b[..n]);
      DivideLinear(r, s, a[..n], b[..n]);
      StepLinear(Divide(r, a[..n]), Divide(s, b[..n]), a[n], b[n]);
    }
  }

  /** Before 32 coefficients are in, nothing leaves the register. */
  lemma {:induction false} Loading(p: Poly)
    requires |p| <= 32
    ensures Content(Divide(0, p)) == Zeros(32 - |p|) + p
  {
    hide BitsFrom, Xor, Half, Odd, Shift;
    if p == [] {
      ContentZero();
    } else {
      var n := |p| - 1;
      var r := Divide(0, p[..n]);
      Loading(p[..n]);
      ContentHead(r);
      ContentStep(r, p[n]);
      assert Content(r)[1..] + [p[n]] == Zeros(31 - n) + p;
    }
  }

  lemma ContentInjective(x: bv32, y: bv32)
    requires Content(x) == Content(y)
    ensures x == y
  {
    WordAtOnce(0, x, 32);
    WordAtOnce(0, y, 32);
    Halves32(x);
    Halves32(y);
    XorCommutes(0, x);
    XorCommutes(0, y);
    XorZero(x);
    XorZero(y);
    hide Xor, Shifts, Serial, Halves, BitsFrom;
    ShiftsInjective(x, y, 32);
  }

  lemma ContentOnes()
    ensures Content(ONES) == seq(32, _ => true)
  {
    OnesBits();
    hide BitsFrom;
  }

  lemma LoadOnes()
    ensures Divide(0, seq(32, _ => true)) == ONES
  {
    var ones := seq(32, _ => true);
    Loading(ones);
    ContentOnes();
    assert Zeros(0) + ones == ones;
    hide Divide, BitsFrom;
    ContentInjective(Divide(0, ones), ONES);
  }

  lemma ShiftsTop()
    ensures Shifts(TOP, 32) == Shift(1)
  {
    TopReachesBottom();
    ShiftsAdd(TOP, 31, 1);
    assert Shifts(1, 1) == Shift(1);
  }

  /** Thirty-two shifts turn the long-division register into the serial one. */
  lemma {:induction false} DivideIsSerial(r: bv32, p: Poly)
    ensures Shifts(Divide(r, p), 32) == Serial(Shifts(r, 32), p)
  {
    hide Shifts, Shift, Xor, Low;
    if p != [] {
      var n := |p| - 1;
      var d := Divide(r, p[..n]);
      var top: bv32 := if p[n] then TOP else 0;
      DivideIsSerial(r, p[..n]);
      ShiftsLinear(Shift(d), top, 32);
      ShiftsOfShift(d);
      ShiftsOfTop(p[n]);
      ShiftLinear(Shifts(d, 32), Low(p[n]));
      SerialConcat(Shifts(r, 32), p[..n], [p[n]]);
      assert p == p[..n] + [p[n]];
      assert Serial(Serial(Shifts(r, 32), p[..n]), [p[n]]) == Shift(Xor(Shifts(d, 32), Low(p[n])));
    }
  }

  lemma ShiftsOfShift(d: bv32)
    ensures Shifts(Shift(d), 32) == Shift(Shifts(d, 32))
  {
    hide Shift;
    ShiftsAdd(d, 1, 32);
    ShiftsAdd(d, 32, 1);
    assert Shifts(d, 1) == Shift(d) && Shifts(Shifts(d, 32), 1) == Shift(Shifts(d, 32));
  }

  lemma ShiftsOfTop(b: bool)
    ensures Shifts(if b then TOP else 0, 32) == Shift(Low(b))
  {
    ShiftsTop();
    ShiftsZero(32);
  }

  lemma {:induction false} ShiftsZero(n: nat)
    ensures Shifts(0, n) == 0
  {
    if n > 0 { ShiftsZero(n - 1); }
  }

  lemma {:induction false} SerialLinear(r: bv32, s: bv32, p: Bits)
    ensures Serial(Xor(r, s), p) == Xor(Serial(r, p), Shifts(s, |p|))
    decreases |p|
  {
    hide Shift, Xor, Low;
    if p != [] {
      var b := Low(p[0]);
      XorSwaps(r, b, s);
      ShiftLinear(Xor(r, b), s);
      SerialLinear(Shift(Xor(r, b)), Shift(s), p[1..]);
    }
  }

  /** Quotients that differ have multiples that differ in front of the remainder. */
  lemma {:induction false} MultiplesDiffer(q: Poly, q': Poly) returns (j: nat)
    requires |q| == |q'| && q != q'
    ensures j < |q| && Multiple(q)[j] != Multiple(q')[j]
  {
    GeneratorIs();
    hide Generator;
    var n := |q| - 1;
    if q[..n] != q'[..n] {
      j := MultiplesDiffer(q[..n], q'[..n]);
    } else {
      assert q == q[..n] + [q[n]] && q' == q'[..n] + [q'[n]];
      assert Generator()[0];
      j := n;
    }
  }

  lemma InFrontOfRemainder(p: Poly, q: Poly, rem: Poly, j: nat)
    requires Divides(p, q, rem) && j < |p|
    ensures Multiple(q)[j] == (Zeros(32) + p)[j]
  {
    hide Multiple;
    assert (Zeros(32) + p)[j] == (Multiple(q)[j] != (Zeros(|p|) + rem)[j]);
  }

  /** There is only one remainder. */
  lemma RemainderUnique(p: Poly, q: Poly, rem: Poly, q': Poly, rem': Poly)
    requires Divides(p, q, rem) && Divides(p, q', rem')
    ensures rem == rem'
  {
    hide Multiple;
    var n := |p|;
    var x, y := Zeros(n) + rem, Zeros(n) + rem';
    if q != q' {
      var j := MultiplesDiffer(q, q');
      InFrontOfRemainder(p, q, rem, j);
      InFrontOfRemainder(p, q', rem', j);
    }
    forall i | 0 <= i < 32 ensures rem[i] == rem'[i] {
      assert (Zeros(32) + p)[n + i] == (Multiple(q)[n + i] != x[n + i]);
      assert (Zeros(32) + p)[n + i] == (Multiple(q')[n + i] != y[n + i]);
    }
  }

  /** The checksum is the standard's: append 32 zeros to the message, complement its first 32 bits
      and divide by the generator; the checksum is the complement of the remainder. */
  lemma CrcIsStandard(buf: seq<bv8>, rem: Poly)
    requires |rem| == 32
    ensures (exists q: Poly :: Divides(ComplementFirst32(BufferBits(buf) + Zeros(32)), q, rem)) <==>
      forall i | 0 <= i < 32 :: Content(Crc(buf))[i] == !rem[i]
  {
    var p := ComplementFirst32(BufferBits(buf) + Zeros(32));
    var r := Divide(0, p);
    var q := DivideIsRemainder(p);
    CrcDivides(buf);
    ContentOfXor(r, ONES);
    ContentOnes();
    hide Content, Xor, Divide, Crc, Multiple;
    assert Divides(p, q, Content(r));
    hide Divides;
    if q' :| Divides(p, q', rem) { RemainderUnique(p, q, Content(r), q', rem); }
    if forall i | 0 <= i < 32 :: Content(Crc(buf))[i] == !rem[i] {
      assert rem == Content(r);
    }
  }

  lemma CrcDivides(buf: seq<bv8>)
    ensures Crc(buf) == Xor(Divide(0, ComplementFirst32(BufferBits(buf) + Zeros(32))), ONES)
  {
    var m := BufferBits(buf);
    var ones, rest := seq(32, _ => true), Zeros(|m|);
    hide BitsFrom, Shift, Shifts, Xor, Serial, Divide, Register;
    assert Zeros(|m| + 32 - 32) == rest;
    DivideLinear(0, 0, m + Zeros(32), ones + rest);
    XorZero(0);
    DivideConcat(0, m, Zeros(32));
    DivideZeros(Divide(0, m), 32);
    DivideIsSerial(0, m);
    ShiftsZero(32);
    DivideConcat(0, ones, rest);
    LoadOnes();
    DivideZeros(ONES, |m|);
    SerialLinear(0, ONES, m);
    XorCommutes(0, ONES);
    XorZero(ONES);
    RegisterIsSerial(ONES, buf);
  }
}
