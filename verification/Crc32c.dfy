/** packages/checksum/lib/crc32c.ts: the table-driven CRC32C of RFC 3720, section 12.1. */
module Crc32c {

  const POLYNOMIAL: bv32 := 0x82f63b78
  const ONES: bv32 := 0xffff_ffff
  const TOP: bv32 := 0x8000_0000

  // ---------------------------------------------------------------- words

  function Xor(a: bv32, b: bv32): bv32 {
    a ^ b
  }

  function Half(x: bv32): bv32 {
    x >> 1
  }

  predicate Odd(x: bv32) {
    x & 1 != 0
  }

  function Low(b: bool): bv32 {
    if b then 1 else 0
  }

  lemma XorCommutes(x: bv32, y: bv32)
    ensures Xor(x, y) == Xor(y, x)
  {}

  lemma XorAssociates(x: bv32, y: bv32, z: bv32)
    ensures Xor(Xor(x, y), z) == Xor(x, Xor(y, z))
  {}

  lemma XorZero(x: bv32)
    ensures Xor(x, 0) == x && Xor(x, x) == 0
  {}

  lemma XorSwaps(x: bv32, y: bv32, z: bv32)
    ensures Xor(Xor(x, z), y) == Xor(Xor(x, y), z)
  {
    XorAssociates(x, z, y);
    XorCommutes(z, y);
    XorAssociates(x, y, z);
    hide Xor;
  }

  lemma XorDrops(x: bv32, y: bv32, z: bv32)
    ensures Xor(Xor(x, z), Xor(y, z)) == Xor(x, y)
  {
    XorSwaps(x, Xor(y, z), z);
    XorAssociates(x, Xor(y, z), z);
    XorUndo(y, z);
    hide Xor;
  }

  lemma XorCancels(x: bv32, y: bv32, z: bv32)
    requires Xor(x, z) == Xor(y, z)
    ensures x == y
  {
    XorUndo(x, z);
    XorUndo(y, z);
    hide Xor;
  }

  lemma XorUndo(x: bv32, z: bv32)
    ensures Xor(Xor(x, z), z) == x
  {}

  lemma HalfXor(x: bv32, y: bv32)
    ensures Half(Xor(x, y)) == Xor(Half(x), Half(y))
  {}

  lemma OddXor(x: bv32, y: bv32)
    ensures Odd(Xor(x, y)) <==> Odd(x) != Odd(y)
  {}

  // ---------------------------------------------------------------- the implementation

  /** One shift of the reflected register. */
  function Shift(x: bv32): bv32 {
    if Odd(x) then Xor(Half(x), POLYNOMIAL) else Half(x)
  }

  function Shifts(x: bv32, n: nat): bv32
    decreases n
  {
    if n == 0 then x else Shifts(Shift(x), n - 1)
  }

  method TableEntry(i: bv32) returns (byte: bv32)
    ensures byte == Shifts(i, 8)
  {
    byte := i;
    for bit := 0 to 8
      invariant Shifts(byte, 8 - bit) == Shifts(i, 8)
    {
      hide Shifts;
      ShiftsStep(byte, 8 - bit);
      if byte & 1 != 0 {
        byte := byte >> 1;
        byte := byte ^ POLYNOMIAL;
      } else {
        byte := byte >> 1;
      }
    }
  }

  lemma ShiftsStep(x: bv32, n: nat)
    requires n > 0
    ensures Shifts(x, n) == Shifts(Shift(x), n - 1)
  {}

  method GenerateReversedTable() returns (table: array<bv32>)
    ensures fresh(table) && table.Length == 256
    ensures forall i: bv32 | i < 256 :: table[i as nat] == Shifts(i, 8)
  {
    hide Shifts;
    table := new bv32[256];
    var i: bv32 := 0;
    while i < 256
      invariant i <= 256
      invariant forall j: bv32 | j < i :: table[j as nat] == Shifts(j, 8)
      decreases 256 - i
    {
      var byte := TableEntry(i);
      table[i as nat] := byte;
      i := i + 1;
    }
  }

  function Index(crc: bv32, b: bv8): (i: bv32)
    ensures i < 256
  {
    (crc & 0xff) ^ (b as bv32)
  }

  /** The register after a byte, by table look-up. */
  function Update(crc: bv32, b: bv8): bv32 {
    Xor(Shifts(Index(crc, b), 8), crc >> 8)
  }

  function Register(crc: bv32, buf: seq<bv8>): bv32
    decreases |buf|
  {
    if buf == [] then crc else Register(Update(crc, buf[0]), buf[1..])
  }

  /** `crc32c` */
  function Crc(buf: seq<bv8>): bv32 {
    Xor(Register(ONES, buf), ONES)
  }

  method Crc32c(buf: seq<bv8>) returns (r: bv32)
    ensures r == Crc(buf)
  {
    hide Shifts, Index, Xor;
    var constants := GenerateReversedTable();
    var crc := ONES;
    for i := 0 to |buf|
      invariant Register(ONES, buf) == Register(crc, buf[i..])
    {
      var constantIdx := Index(crc, buf[i]);
      var constant := constants[constantIdx as nat];
      assert buf[i..][1..] == buf[i + 1..];
      crc := Xor(constant, crc >> 8);
    }
    r := Xor(crc, ONES);
  }

  // ---------------------------------------------------------------- the register is linear

  lemma ShiftLinear(x: bv32, y: bv32)
    ensures Shift(Xor(x, y)) == Xor(Shift(x), Shift(y))
  {
    HalfXor(x, y);
    OddXor(x, y);
    XorDrops(Half(x), Half(y), POLYNOMIAL);
    XorSwaps(Half(x), Half(y), POLYNOMIAL);
    XorAssociates(Half(x), Half(y), POLYNOMIAL);
    hide Xor, Half, Odd;
  }

  lemma {:induction false} ShiftsLinear(x: bv32, y: bv32, n: nat)
    ensures Shifts(Xor(x, y), n) == Xor(Shifts(x, n), Shifts(y, n))
    decreases n
  {
    hide Shift, Xor;
    if n > 0 {
      ShiftLinear(x, y);
      ShiftsLinear(Shift(x), Shift(y), n - 1);
    }
  }

  /** The top bit of a shifted word tells whether the polynomial was added. */
  lemma TopTells(x: bv32)
    ensures Shift(x) & TOP != 0 <==> Odd(x)
  {}

  lemma HalfAndOdd(x: bv32, y: bv32)
    requires Half(x) == Half(y) && Odd(x) == Odd(y)
    ensures x == y
  {}

  lemma ShiftInjective(x: bv32, y: bv32)
    requires Shift(x) == Shift(y)
    ensures x == y
  {
    TopTells(x);
    TopTells(y);
    hide Xor, Half, Odd;
    if Odd(x) { XorCancels(Half(x), Half(y), POLYNOMIAL); }
    HalfAndOdd(x, y);
  }

  lemma {:induction false} ShiftsInjective(x: bv32, y: bv32, n: nat)
    requires Shifts(x, n) == Shifts(y, n)
    ensures x == y
    decreases n
  {
    hide Shift;
    if n > 0 {
      ShiftsInjective(Shift(x), Shift(y), n - 1);
      ShiftInjective(x, y);
    }
  }

  lemma {:induction false} ShiftsAdd(x: bv32, m: nat, n: nat)
    ensures Shifts(x, m + n) == Shifts(Shifts(x, m), n)
    decreases m
  {
    hide Shift;
    if m > 0 { ShiftsAdd(Shift(x), m - 1, n); }
  }

  // ---------------------------------------------------------------- bit-serial form

  type Bits = seq<bool>

  /** The low `n` bits of a word, least significant first. */
  function BitsFrom(w: bv32, n: nat): (b: Bits)
    ensures |b| == n
    decreases n
  {
    if n == 0 then [] else [Odd(w)] + BitsFrom(Half(w), n - 1)
  }

  /** A buffer in transmission order. */
  function BufferBits(buf: seq<bv8>): Bits {
    if buf == [] then [] else BitsFrom(buf[0] as bv32, 8) + BufferBits(buf[1..])
  }

  /** The register fed one message bit at a time. */
  function Serial(crc: bv32, bits: Bits): bv32
    decreases |bits|
  {
    if bits == [] then crc else Serial(Shift(Xor(crc, Low(bits[0]))), bits[1..])
  }

  function Halves(w: bv32, n: nat): bv32
    decreases n
  {
    if n == 0 then w else Halves(Half(w), n - 1)
  }

  lemma {:induction false} HalvesAdd(w: bv32, m: nat, n: nat)
    ensures Halves(w, m + n) == Halves(Halves(w, m), n)
    decreases m
  {
    hide Half;
    if m > 0 { HalvesAdd(Half(w), m - 1, n); }
  }

  /** A word as its low bit and the rest. */
  lemma LowAndRest(w: bv32)
    ensures w == Xor(Low(Odd(w)), Twice(Half(w)))
  {}

  function Twice(h: bv32): bv32 {
    h << 1
  }

  lemma ShiftTwiceHalf(w: bv32)
    ensures Shift(Twice(Half(w))) == Half(w)
  {}

  lemma ShiftSplits(r: bv32, w: bv32)
    ensures Shift(Xor(r, w)) == Xor(Shift(Xor(r, Low(Odd(w)))), Half(w))
  {
    hide Xor, Half, Odd, Low, Shift, Twice;
    var low, rest := Low(Odd(w)), Twice(Half(w));
    LowAndRest(w);
    ShiftTwiceHalf(w);
    XorAssociates(r, low, rest);
    ShiftLinear(Xor(r, low), rest);
  }

  /** Feeding the bits of a word one by one is feeding the word at once. */
  lemma {:induction false} WordAtOnce(r: bv32, w: bv32, n: nat)
    ensures Shifts(Xor(r, w), n) == Xor(Serial(r, BitsFrom(w, n)), Halves(w, n))
    decreases n
  {
    hide Xor, Half, Odd, Low, Shift;
    if n > 0 {
      var r' := Shift(Xor(r, Low(Odd(w))));
      ShiftSplits(r, w);
      WordAtOnce(r', Half(w), n - 1);
      assert BitsFrom(w, n)[1..] == BitsFrom(Half(w), n - 1);
    }
  }

  // ---------------------------------------------------------------- the table form is the serial form

  lemma HighPart(crc: bv32, b: bv8)
    ensures Xor(crc, b as bv32) == Xor(Index(crc, b), crc & 0xffff_ff00)
  {}

  lemma HighNibbles(x: bv32)
    ensures (x & 0xffff_ff00) & 0xf == 0 && ((x & 0xffff_ff00) >> 4) & 0xf == 0
    ensures ((x & 0xffff_ff00) >> 4) >> 4 == x >> 8
  {}

  lemma ShiftsHigh(x: bv32)
    ensures Shifts(x & 0xffff_ff00, 8) == x >> 8
  {
    hide Shifts;
    var y := x & 0xffff_ff00;
    HighNibbles(x);
    FourEven(y);
    ShiftsAdd(y, 4, 4);
    FourEven(y >> 4);
  }

  lemma FourEven(y: bv32)
    requires y & 0xf == 0
    ensures Shifts(y, 4) == y >> 4
  {
    assert !Odd(y) && !Odd(y >> 1) && !Odd(y >> 2) && !Odd(y >> 3);
    assert Half(y) == y >> 1 && Half(y >> 1) == y >> 2 && Half(y >> 2) == y >> 3 && Half(y >> 3) == y >> 4;
    hide Odd, Half, Xor;
    assert Shifts(y, 4) == Shifts(y >> 1, 3);
    assert Shifts(y >> 1, 3) == Shifts(y >> 2, 2);
  }

  lemma ByteHalves(b: bv8)
    ensures Halves(b as bv32, 8) == 0
  {
    var w := b as bv32;
    assert Halves(w, 4) == w >> 4 && Halves(w >> 4, 4) == 0;
    HalvesAdd(w, 4, 4);
  }

  lemma UpdateIsSerial(crc: bv32, b: bv8)
    ensures Update(crc, b) == Serial(crc, BitsFrom(b as bv32, 8))
  {
    var w := b as bv32;
    HighPart(crc, b);
    ShiftsLinear(Index(crc, b), crc & 0xffff_ff00, 8);
    ShiftsHigh(crc);
    WordAtOnce(crc, w, 8);
    ByteHalves(b);
    XorZero(Serial(crc, BitsFrom(w, 8)));
    hide Xor, Shifts, Serial, Halves, BitsFrom, Index;
  }

  lemma {:induction false} SerialConcat(r: bv32, a: Bits, b: Bits)
    ensures Serial(r, a + b) == Serial(Serial(r, a), b)
    decreases |a|
  {
    hide Shift, Xor, Low;
    if a == [] {
      assert a + b == b;
    } else {
      assert (a + b)[1..] == a[1..] + b;
      SerialConcat(Shift(Xor(r, Low(a[0]))), a[1..], b);
    }
  }

  /** The table-driven register equals the one fed bit by bit, for every buffer. */
  lemma {:induction false} RegisterIsSerial(crc: bv32, buf: seq<bv8>)
    ensures Register(crc, buf) == Serial(crc, BufferBits(buf))
    decreases |buf|
  {
    hide Update, BitsFrom, Serial;
    if buf == [] {
      SerialEmpty(crc);
    } else {
      UpdateIsSerial(crc, buf[0]);
      RegisterIsSerial(Update(crc, buf[0]), buf[1..]);
      SerialConcat(crc, BitsFrom(buf[0] as bv32, 8), BufferBits(buf[1..]));
    }
  }

  lemma SerialEmpty(crc: bv32)
    ensures Serial(crc, []) == crc
  {}
}
