/** Base32 as section 6 of RFC 4648 tabulates it: the characters, a group of five bytes, and the
    shorter groups at the end. */
module Base32Groups {
  import opened Numbers
  import opened Bits
  import opened Sequences
  import opened Base32

  /** Table 3 of the RFC: A to Z stand for 0 to 25, 2 to 7 for 26 to 31. */
  function Symbol(v: nat): char
    requires v < 32
  {
    if v < 26 then 'A' + v as char else '2' + (v - 26) as char
  }

  lemma AlphabetIs(v: nat)
    requires v < 32
    ensures |Alphabet| == 32 && Alphabet[v] == Symbol(v)
  {}

  /** The eight 5-bit words of five bytes. */
  function Words(b0: Byte, b1: Byte, b2: Byte, b3: Byte, b4: Byte): (w: seq<nat>)
    ensures |w| == 8 && DigitsOf(32, w)
  {
    [b0 / 8, b0 % 8 * 4 + b1 / 64, b1 / 2 % 32, b1 % 2 * 16 + b2 / 16,
     b2 % 16 * 2 + b3 / 128, b3 / 4 % 32, b3 % 4 * 8 + b4 / 32, b4 % 32]
  }

  lemma {:induction false} NumSnoc(base: nat, s: seq<nat>, d: nat)
    requires base > 0
    ensures Num(base, s + [d]) == Num(base, s) * base + d
  {
    if s == [] {
      assert [d][1..] == [];
      assert Num(base, [d]) == d * Pow(base, 0) + Num(base, []);
    } else {
      NumSnoc(base, s[1..], d);
      var n := |s|;
      assert (s + [d])[1..] == s[1..] + [d];
      assert Pow(base, n) == base * Pow(base, n - 1);
      Scaled(s[0], base, Pow(base, n - 1), Num(base, s[1..]));
    }
  }

  lemma Scaled(x: int, base: int, p: int, y: int)
    ensures x * (base * p) + y * base == (x * p + y) * base
  {
    assert x * (base * p) == (x * p) * base;
  }

  lemma NumNone(base: nat)
    requires base > 0
    ensures Num(base, []) == 0
  {}

  lemma NumFive(a: nat, b: nat, c: nat, d: nat, e: nat)
    ensures Num(256, [a, b, c, d, e]) == (((a * 256 + b) * 256 + c) * 256 + d) * 256 + e
  {
    hide Num;
    NumNone(256);
    NumSnoc(256, [], a);
    NumSnoc(256, [a], b);
    NumSnoc(256, [a, b], c);
    NumSnoc(256, [a, b, c], d);
    NumSnoc(256, [a, b, c, d], e);
    assert [] + [a] == [a] && [a] + [b] == [a, b] && [a, b] + [c] == [a, b, c] && [a, b, c] + [d] == [a, b, c, d];
    assert [a, b, c, d] + [e] == [a, b, c, d, e];
  }

  lemma NumPrefix(w: seq<nat>, k: nat)
    requires k < |w|
    ensures Num(32, w[..k + 1]) == Num(32, w[..k]) * 32 + w[k]
  {
    NumSnoc(32, w[..k], w[k]);
    assert w[..k + 1] == w[..k] + [w[k]];
  }

  lemma WordsAreDigits(b0: Byte, b1: Byte, b2: Byte, b3: Byte, b4: Byte)
    ensures Num(32, Words(b0, b1, b2, b3, b4)) == Num(256, [b0, b1, b2, b3, b4])
  {
    hide Num;
    var w := Words(b0, b1, b2, b3, b4);
    UpperWords(b0, b1, b2);
    LowerWords(b2, b3, b4);
    NumFive(b0, b1, b2, b3, b4);
    NumNone(32);
    assert w[..0] == [] && w[..8] == w;
    hide Words;
    NumPrefix(w, 0);
    NumPrefix(w, 1);
    NumPrefix(w, 2);
    NumPrefix(w, 3);
    NumPrefix(w, 4);
    NumPrefix(w, 5);
    NumPrefix(w, 6);
    NumPrefix(w, 7);
  }

  lemma UpperWords(b0: Byte, b1: Byte, b2: Byte)
    ensures b0 / 8 * 32 + (b0 % 8 * 4 + b1 / 64) == b0 * 4 + b1 / 64
    ensures (b1 / 64) * 32 + b1 / 2 % 32 == b1 / 2
    ensures (b1 / 2) * 32 + (b1 % 2 * 16 + b2 / 16) == b1 * 16 + b2 / 16
  {}

  lemma LowerWords(b2: Byte, b3: Byte, b4: Byte)
    ensures (b2 / 16) * 32 + (b2 % 16 * 2 + b3 / 128) == b2 * 2 + b3 / 128
    ensures (b3 / 128) * 32 + b3 / 4 % 32 == b3 / 4
    ensures (b3 / 4) * 32 + (b3 % 4 * 8 + b4 / 32) == b3 * 8 + b4 / 32
    ensures (b4 / 32) * 32 + b4 % 32 == b4
  {}

  /** Five bytes are encoded as the characters of their eight words. */
  lemma FiveBytes(b0: Byte, b1: Byte, b2: Byte, b3: Byte, b4: Byte)
    ensures var r, w := Encoded([b0, b1, b2, b3, b4]), Words(b0, b1, b2, b3, b4);
      |r| == 8 && forall i | 0 <= i < 8 :: r[i] == Symbol(w[i])
  {
    var w := Words(b0, b1, b2, b3, b4);
    WordsAreDigits(b0, b1, b2, b3, b4);
    LowDigits(32, w, 0, Num(32, w));
    assert Pow2(0) == 1;
    forall i | 0 <= i < 8 ensures Alphabet[w[i]] == Symbol(w[i]) { AlphabetIs(w[i]); }
    hide Words, Num, ToDigits, Symbol;
  }

  /** Digits of a multiple of a power of the base, without the zeros at the end. */
  lemma {:induction false} LeadingDigits(base: nat, v: nat, k: nat, j: nat)
    requires base > 0
    ensures v * Pow(base, j) >= 0
    ensures ToDigits(base, v * Pow(base, j), k + j)[..k] == ToDigits(base, v, k)
    decreases k
  {
    MulPositive(v, Pow(base, j));
    if k > 0 {
      LeadingDigits(base, v, k - 1, j);
      PowAdd(base, k - 1, j);
      SameQuotient(v, Pow(base, k - 1), Pow(base, j));
      hide Pow;
      var all := ToDigits(base, v * Pow(base, j), k + j);
      assert all[..k] == [all[0]] + ToDigits(base, v * Pow(base, j), k + j - 1)[..k - 1];
    }
  }

  lemma SameQuotient(v: nat, p: nat, q: nat)
    requires p > 0 && q > 0
    ensures p * q > 0 && v * q / (p * q) == v / p
  {
    MulPositive(p, q);
    DivUnique(v * q, q, v);
    DivDiv(v * q, q, p);
    assert q * p == p * q;
  }

  function Zeros(n: nat): (z: seq<Byte>)
    ensures |z| == n && forall i | 0 <= i < n :: z[i] == 0
  {
    seq(n, _ => 0)
  }

  lemma {:induction false} NumZeros(s: seq<nat>, n: nat)
    ensures Num(256, s + Zeros(n)) == Num(256, s) * Pow(256, n)
  {
    if n == 0 {
      assert s + Zeros(0) == s;
    } else {
      NumZeros(s, n - 1);
      NumSnoc(256, s + Zeros(n - 1), 0);
      assert s + Zeros(n) == s + Zeros(n - 1) + [0];
      assert Pow(256, n) == 256 * Pow(256, n - 1);
      hide Num, Pow;
      MulAssoc(Num(256, s), Pow(256, n - 1), 256);
    }
  }

  /** One to four bytes are encoded as with zero bytes behind them up to five, with only the characters
      that hold one of their bits, and padding for the others. */
  lemma ShortGroup(buf: seq<Byte>)
    requires 1 <= |buf| <= 4
    ensures var k := (8 * |buf| + 4) / 5;
      |Encoded(buf + Zeros(5 - |buf|))| == 8 &&
      Encoded(buf) == Encoded(buf + Zeros(5 - |buf|))[..k] + seq(8 - k, _ => '=')
  {
    hide Num, Pow, Pow2, ToDigits, Text, PadBits, PadChars, Encoded;
    var m := |buf|;
    var k, d := DataChars(m), PadBits(PadChars(m));
    Filling(m);
    LongAs(buf, k, d);
    LeadingDigits(32, Num(256, buf) * Pow2(d), k, 8 - k);
    EncodedAs(buf, k, d);
    FiveFill();
    EncodedAs(buf + Zeros(5 - m), 8, 0);
    Characters(ToDigits(32, Num(256, buf) * Pow2(d) * Pow(32, 8 - k), 8), k);
  }

  lemma FiveFill()
    ensures DataChars(5) == 8 && PadChars(5) == 0 && PadBits(0) == 0 && Pow2(0) == 1
  {}

  lemma EncodedAs(buf: seq<Byte>, k: nat, d: nat)
    requires k == DataChars(|buf|) && d == PadBits(PadChars(|buf|))
    ensures Num(256, buf) * Pow2(d) >= 0
    ensures Encoded(buf) == Text(ToDigits(32, Num(256, buf) * Pow2(d), k)) + Pads(PadChars(|buf|))
  {
    MulPositive(Num(256, buf), Pow2(d));
  }

  lemma Characters(digits: seq<nat>, k: nat)
    requires DigitsOf(32, digits) && k <= |digits|
    ensures Text(digits)[..k] == Text(digits[..k])
  {}

  /** The number of five bytes is that of the characters' words with zero characters behind them. */
  lemma LongAs(buf: seq<Byte>, k: nat, d: nat)
    requires 1 <= |buf| <= 4 && k <= 8 && Pow2(d) * Pow(32, 8 - k) == Pow(256, 5 - |buf|)
    ensures Num(256, buf) * Pow2(d) >= 0
    ensures Num(256, buf + Zeros(5 - |buf|)) == Num(256, buf) * Pow2(d) * Pow(32, 8 - k)
  {
    hide Num, Pow, Pow2;
    NumZeros(buf, 5 - |buf|);
    MulPositive(Num(256, buf), Pow2(d));
    MulAssoc(Num(256, buf), Pow2(d), Pow(32, 8 - k));
  }

  /** Zero bits to a whole character and zero characters to eight are zero bytes to five. */
  lemma Filling(m: nat)
    requires 1 <= m <= 4
    ensures DataChars(m) <= 8 && PadChars(m) == 8 - DataChars(m)
    ensures Pow2(PadBits(PadChars(m))) * Pow(32, 8 - DataChars(m)) == Pow(256, 5 - m)
  {
    hide Pow, Pow2;
    var j, k := 8 - DataChars(m), 5 - m;
    PowPow(5, j);
    PowPow(8, k);
    SmallPowers();
    PowsAdd(PadBits(PadChars(m)), 5 * j);
    assert PadBits(PadChars(m)) + 5 * j == 8 * k;
  }

  lemma PowsAdd(m: nat, n: nat)
    ensures Pow2(m) * Pow2(n) == Pow2(m + n)
  {
    PowAdd(2, m, n);
  }
}
