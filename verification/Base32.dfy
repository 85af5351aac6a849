/** packages/common/lib/Base32.ts: Base32 with padding, section 6 of RFC 4648, by a bit accumulator
    that runs from the last byte to the first. */
module Base32 {
  import opened Numbers
  import opened Bits
  import opened Sequences

  const Alphabet: string := "ABCDEFGHIJKLMNOPQRSTUVWXYZ234567"
  const Pad: char := '='

  // ---------------------------------------------------------------- numbers in a base

  /** The number whose digits in `base`, the most significant first, are `s`. */
  function Num(base: nat, s: seq<nat>): nat
    requires base > 0
  {
    if s == [] then 0
    else
      MulPositive(s[0], Pow(base, |s| - 1));
      s[0] * Pow(base, |s| - 1) + Num(base, s[1..])
  }

  /** The lowest `len` digits of `v`. */
  function ToDigits(base: nat, v: nat, len: nat): (s: seq<nat>)
    requires base > 0
    ensures |s| == len && forall i | 0 <= i < len :: s[i] < base
  {
    if len == 0 then []
    else
      DivMonotone(0, v, Pow(base, len - 1));
      [(v / Pow(base, len - 1)) % base] + ToDigits(base, v, len - 1)
  }

  predicate DigitsOf(base: nat, s: seq<nat>) {
    forall i | 0 <= i < |s| :: s[i] < base
  }

  lemma {:induction false} NumBelow(base: nat, s: seq<nat>)
    requires base > 0 && DigitsOf(base, s)
    ensures Num(base, s) < Pow(base, |s|)
    decreases |s|
  {
    if s != [] {
      NumBelow(base, s[1..]);
      var p := Pow(base, |s| - 1);
      MulMono(s[0] + 1, base, p);
      assert (s[0] + 1) * p == s[0] * p + p;
    }
  }

  /** Adding a multiple of `base^len` does not change the lowest `len` digits. */
  lemma {:induction false} LowDigits(base: nat, s: seq<nat>, high: nat, v: nat)
    requires base > 0 && DigitsOf(base, s) && v == Num(base, s) + high * Pow(base, |s|)
    ensures ToDigits(base, v, |s|) == s
    decreases |s|
  {
    if s != [] {
      var p := Pow(base, |s| - 1);
      NumBelow(base, s[1..]);
      var q := high * base + s[0];
      MulPositive(high, base);
      TopDigit(base, s[0], Num(base, s[1..]), high, p, v);
      LowDigits(base, s[1..], q, v);
      assert ToDigits(base, v, |s|)[1..] == s[1..];
    }
  }

  lemma TopDigit(base: nat, d: nat, rest: nat, high: nat, p: nat, v: nat)
    requires d < base && rest < p && v == d * p + rest + high * (base * p)
    ensures v == rest + (high * base + d) * p && (v / p) % base == d
  {
    MulAssoc(high, base, p);
    Distribute(high * base, d, p);
    DivUnique(v, p, high * base + d);
    DivUnique(high * base + d, base, high);
  }

  // ---------------------------------------------------------------- the encoding

  /** The number of padding characters for `n` bytes. */
  function PadChars(n: nat): nat {
    match n % 5
    case 0 => 0
    case 1 => 6
    case 2 => 4
    case 3 => 3
    case _ => 1
  }

  /** The number of bits that padding adds to the last data character. */
  function PadBits(padChars: nat): (r: nat)
    ensures r <= 4
  {
    match padChars
    case 6 => 2
    case 4 => 4
    case 3 => 1
    case 1 => 3
    case _ => 0
  }

  function DataChars(n: nat): nat {
    (8 * n + 4) / 5
  }

  function Text(digits: seq<nat>): (r: string)
    requires DigitsOf(32, digits)
    ensures |r| == |digits| && forall i | 0 <= i < |r| :: r[i] == Alphabet[digits[i]]
  {
    seq(|digits|, i requires 0 <= i < |digits| => Alphabet[digits[i]])
  }

  function Pads(n: nat): (r: string)
    ensures |r| == n && forall i | 0 <= i < n :: r[i] == Pad
  {
    seq(n, _ => Pad)
  }

  /** The bits of the bytes as one number, filled with zero bits to a whole number of characters,
      and that number in base 32; then the padding. */
  function Encoded(buf: seq<Byte>): string {
    Text(ToDigits(32, Num(256, buf) * Pow2(PadBits(PadChars(|buf|))), DataChars(|buf|))) + Pads(PadChars(|buf|))
  }

  // ---------------------------------------------------------------- the decoding

  /** `alphabet.indexOf` */
  function IndexOf(alphabet: string, c: char): (r: int)
    ensures -1 <= r < |alphabet|
    ensures r >= 0 ==> alphabet[r] == c
    ensures r < 0 <==> c !in alphabet
  {
    if alphabet == [] then -1
    else if alphabet[0] == c then 0
    else
      var r := IndexOf(alphabet[1..], c);
      if r < 0 then -1 else r + 1
  }

  /** The value of a character, or -1 outside the alphabet. */
  function CharValue(c: char): (r: int)
    ensures -1 <= r < 32
  {
    AlphabetSize();
    IndexOf(Alphabet, c)
  }

  lemma AlphabetSize()
    ensures |Alphabet| == 32
  {}

  function TrailingPads(s: string): (r: nat)
    ensures r <= |s|
  {
    if s == [] || s[|s| - 1] != Pad then 0 else 1 + TrailingPads(s[..|s| - 1])
  }

  function Data(s: string): string {
    s[..|s| - TrailingPads(s)]
  }

  /** All characters from `i` on are in the alphabet. */
  predicate Clean(s: string, i: nat) {
    forall j | i <= j < |s| :: CharValue(s[j]) >= 0
  }

  /** The 5-bit words of the characters. The bits of a character outside the alphabet are all set,
      and so are those of every character in front of it: its index is -1, and an accumulator that
      has become negative stays so. */
  function Digits(s: string): (r: seq<nat>)
    ensures |r| == |s| && DigitsOf(32, r)
    ensures forall i | 0 <= i < |s| :: r[i] == if Clean(s, i) then CharValue(s[i]) else 31
  {
    seq(|s|, i requires 0 <= i < |s| => if Clean(s, i) then CharValue(s[i]) else 31)
  }

  /** The digits from `j` on as a number, without its `drop` lowest bits. */
  function Rest(digits: seq<nat>, j: nat, drop: nat): nat
    requires j <= |digits|
  {
    DivMonotone(0, Num(32, digits[j..]), Pow2(drop));
    Num(32, digits[j..]) / Pow2(drop)
  }

  /** The number of the data characters without its padding bits, in bytes. */
  function Decoded(s: string): seq<nat> {
    var n, drop := |Data(s)|, PadBits(TrailingPads(s));
    if n == 0 then [] else ToDigits(256, Rest(Digits(Data(s)), 0, drop), (5 * n - drop) / 8)
  }

  // ---------------------------------------------------------------- bit operators on small integers

  function Abs(a: int): nat {
    if a < 0 then -a else a
  }

  /** `a | b`, in two's complement. */
  function JsOr(a: int, b: int): int
    decreases Abs(a)
  {
    if a == 0 then b
    else if a == -1 then -1
    else (if a % 2 == 1 || b % 2 == 1 then 1 else 0) + 2 * JsOr(a / 2, b / 2)
  }

  /** `a << n` */
  function JsShl(a: int, n: nat): int {
    a * Pow2(n)
  }

  /** `a >> n` */
  function JsShr(a: int, n: nat): int {
    a / Pow2(n)
  }

  /** `a & b` for a mask `b`. */
  function JsAnd(a: int, b: nat): nat
    decreases b
  {
    if b == 0 then 0 else (if a % 2 == 1 && b % 2 == 1 then 1 else 0) + 2 * JsAnd(a / 2, b / 2)
  }

  lemma {:induction false} JsAndLowMask(v: int, k: nat)
    ensures JsAnd(v, Pow2(k) - 1) == v % Pow2(k)
    decreases k
  {
    if k > 0 {
      JsAndLowMask(v / 2, k - 1);
      var p := Pow2(k - 1);
      assert Pow2(k) == 2 * p;
      assert (2 * p - 1) % 2 == 1 && (2 * p - 1) / 2 == p - 1;
      ModTwoP(v, p);
    }
  }

  /** Or of a value that fits below a shift with the shifted value is their sum. */
  lemma {:induction false} JsOrDisjoint(v: nat, c: int, k: nat)
    requires v < Pow2(k)
    ensures JsOr(v, c * Pow2(k)) == v + c * Pow2(k)
    decreases k
  {
    if k > 0 {
      var h := c * Pow2(k - 1);
      MulAssoc(c, 2, Pow2(k - 1));
      MulAssoc(2, c, Pow2(k - 1));
      PowSucc(2, k - 1);
      assert c * Pow2(k) == 2 * h;
      JsOrDisjoint(v / 2, c, k - 1);
      JsOrDouble(v, h);
    } else {
      assert v == 0 && JsOr(0, c * Pow2(k)) == c * Pow2(k);
    }
  }

  lemma JsOrDouble(v: int, h: int)
    ensures v != -1 ==> JsOr(v, 2 * h) == v % 2 + 2 * JsOr(v / 2, h)
    ensures v == -1 ==> JsOr(v, 2 * h) == -1
  {
    assert (2 * h) % 2 == 0 && (2 * h) / 2 == h;
  }

  /** Or changes nothing where all the bits are set. */
  lemma {:induction false} JsOrAllSet(u: nat, c: int, k: nat)
    requires u < Pow2(k)
    ensures JsOr(u - Pow2(k), c * Pow2(k)) == u - Pow2(k)
    decreases k
  {
    if k > 0 {
      var h := c * Pow2(k - 1);
      MulAssoc(c, 2, Pow2(k - 1));
      MulAssoc(2, c, Pow2(k - 1));
      PowSucc(2, k - 1);
      assert c * Pow2(k) == 2 * h;
      var v := u - Pow2(k);
      assert v / 2 == u / 2 - Pow2(k - 1) && v % 2 == u % 2;
      JsOrAllSet(u / 2, c, k - 1);
      JsOrDouble(v, h);
    }
  }

  lemma SmallPowers()
    ensures Pow2(5) == 32 && Pow2(8) == 256
  {
    PowAdd(2, 4, 4);
    assert Pow2(4) == 16;
  }

  // ---------------------------------------------------------------- the accumulator

  lemma {:induction false} PowPow(j: nat, k: nat)
    ensures Pow(Pow2(j), k) == Pow2(j * k)
    decreases k
  {
    if k > 0 {
      PowPow(j, k - 1);
      PowAdd(2, j, j * (k - 1));
      assert j + j * (k - 1) == j * k;
    }
  }

  /** `out` words of `w` bits have been produced from the lowest digits of `total`, and `val` holds the
      `valBits` bits that come next. */
  ghost predicate Holds(w: nat, out: seq<nat>, val: int, valBits: nat, total: int) {
    DigitsOf(Pow2(w), out) && 0 <= val < Pow2(valBits) &&
    Num(Pow2(w), out) + val * Pow(Pow2(w), |out|) == total
  }

  lemma TakeIn(w: nat, out: seq<nat>, val: int, valBits: nat, total: int, x: nat, bits: nat, place: nat)
    requires Holds(w, out, val, valBits, total) && x < Pow2(bits) && place == valBits + w * |out|
    ensures Holds(w, out, JsOr(val, x * Pow2(valBits)), valBits + bits, total + x * Pow2(place))
  {
    hide Pow, JsOr, Num;
    JsOrDisjoint(val, x, valBits);
    PowAdd(2, bits, valBits);
    PowPow(w, |out|);
    PowAdd(2, valBits, w * |out|);
    var s, p := Pow2(valBits), Pow(Pow2(w), |out|);
    MulPositive(x, s);
    MulStrict(x, Pow2(bits), s);
    MulAssoc(x, s, p);
    Distribute(val, x * s, p);
  }

  lemma GiveOut(w: nat, out: seq<nat>, val: nat, valBits: nat, total: int)
    requires Holds(w, out, val, valBits, total) && valBits >= w
    ensures JsAnd(val, Pow2(w) - 1) < Pow2(w)
    ensures Holds(w, [JsAnd(val, Pow2(w) - 1)] + out, val / Pow2(w), valBits - w, total)
  {
    hide Pow, Num, JsAnd;
    JsAndLowMask(val, w);
    var b, p := Pow2(w), Pow(Pow2(w), |out|);
    var low, high := val % b, val / b;
    NumCons(b, low, out);
    PowAdd(2, valBits - w, w);
    DivMonotone(0, val, b);
    assert val == high * b + low;
    HighBelow(val, Pow2(valBits - w), b);
    MulAssoc(high, b, p);
    Distribute(high * b, low, p);
  }

  lemma NumCons(b: nat, d: nat, s: seq<nat>)
    requires b > 0
    ensures Num(b, [d] + s) == d * Pow(b, |s|) + Num(b, s) && Pow(b, |s| + 1) == b * Pow(b, |s|)
  {
    assert ([d] + s)[1..] == s;
    hide Pow;
    assert Pow(b, |s| + 1) == b * Pow(b, |s|) by { PowSucc(b, |s|); }
  }

  lemma PowSucc(b: nat, n: nat)
    ensures Pow(b, n + 1) == b * Pow(b, n)
  {}

  lemma HighBelow(val: nat, h: nat, b: nat)
    requires b > 0 && val < h * b
    ensures val / b < h
  {
    if val / b >= h { MulMono(h, val / b, b); }
  }

  /** When less than a word is left, the words are the lowest digits of the total. */
  lemma Finished(w: nat, out: seq<nat>, val: nat, valBits: nat, total: nat)
    requires Holds(w, out, val, valBits, total)
    ensures ToDigits(Pow2(w), total, |out|) == out
  {
    LowDigits(Pow2(w), out, val, total);
  }

  // ---------------------------------------------------------------- encode and decode

  method Encode(buf: seq<Byte>) returns (result: string)
    ensures result == Encoded(buf)
  {
    if buf == [] {
      EncodedNothing();
      return "";
    }
    hide Pow, Num, JsOr, JsAnd, Holds, DigitsOf, Encoded, PadChars, PadBits, DataChars, Pads, Text, WithPad;
    var val: int, valBits: nat := 0, 0;
    result, valBits := Padding(|buf|);
    ghost var pad, pads: nat := valBits, |result|;
    ghost var digits: seq<nat> := [];
    Starts(buf, 5, pad);
    for i := |buf| downto 0
      invariant Holds(5, digits, val, valBits, WithPad(buf, i, pad)) && DigitsOf(32, digits) && 0 <= valBits < 5
      invariant result == Text(digits) + Pads(pads)
      invariant valBits + 5 * |digits| == pad + 8 * (|buf| - i)
    {
      ByteAdds(buf, i, pad);
      SmallPowers();
      TakeIn(5, digits, val, valBits, WithPad(buf, i + 1, pad), buf[i], 8, valBits + 5 * |digits|);
      var msbs := JsShl(buf[i], valBits);
      val := JsOr(val, msbs);
      valBits := valBits + 8;
      result, val, valBits, digits := PrependChars(result, val, valBits, digits, WithPad(buf, i, pad), pads);
    }
    PadsFit(|buf|);
    assert |digits| == DataChars(|buf|);
    SmallPowers();
    Finished(5, digits, val, valBits, WithPad(buf, 0, pad));
    EncodedIs(buf, digits);
  }

  /** The padding characters for `n` bytes, and the number of bits left over in the last data character. */
  method Padding(n: nat) returns (result: string, valBits: nat)
    ensures result == Pads(PadChars(n)) && valBits == PadBits(PadChars(n))
  {
    result, valBits := "", 0;
    var dataBits := n * 8;
    var padBits := if dataBits % 40 == 0 then 0 else 40 - dataBits % 40;
    match padBits {
      case 32 => result, valBits := Pads(6), 2;
      case 24 => result, valBits := Pads(4), 4;
      case 16 => result, valBits := Pads(3), 1;
      case 8 => result, valBits := Pads(1), 3;
      case _ =>
    }
  }

  /** Reads 5-bit chunks until another byte has to be read. The value never has more than 12 bits. */
  method PrependChars(result0: string, val0: int, valBits0: nat, ghost digits0: seq<nat>, ghost total: int,
      ghost pads: nat)
      returns (result: string, val: int, valBits: nat, ghost digits: seq<nat>)
    requires Holds(5, digits0, val0, valBits0, total) && DigitsOf(32, digits0) && valBits0 <= 12
    requires result0 == Text(digits0) + Pads(pads)
    ensures Holds(5, digits, val, valBits, total) && DigitsOf(32, digits) && valBits < 5
    ensures result == Text(digits) + Pads(pads)
    ensures valBits + 5 * |digits| == valBits0 + 5 * |digits0|
  {
    hide Pow, Num, JsOr, JsAnd, Holds, Pads, Text;
    result, val, valBits, digits := result0, val0, valBits0, digits0;
    SmallPowers();
    while valBits >= 5
      invariant Holds(5, digits, val, valBits, total) && DigitsOf(32, digits) && valBits <= 12
      invariant result == Text(digits) + Pads(pads)
      invariant valBits + 5 * |digits| == valBits0 + 5 * |digits0|
    {
      HoldsBounds(5, digits, val, valBits, total);
      GiveOut(5, digits, val, valBits, total);
      var index := JsAnd(val, 31);
      TextPrepend(index, digits, pads);
      result := [Alphabet[index]] + result;
      val := val / 32;
      valBits := valBits - 5;
      digits := [index] + digits;
    }
  }

  lemma TextPrepend(index: nat, digits: seq<nat>, pads: nat)
    requires index < 32 && DigitsOf(32, digits)
    ensures index < |Alphabet| && DigitsOf(32, [index] + digits)
    ensures [Alphabet[index]] + (Text(digits) + Pads(pads)) == Text([index] + digits) + Pads(pads)
  {
    hide Pads;
    AlphabetSize();
    assert Text([index] + digits) == [Alphabet[index]] + Text(digits);
  }

  /** The padding fills the bytes to whole characters. */
  lemma PadsFit(n: nat)
    ensures PadBits(PadChars(n)) + 8 * n == 5 * DataChars(n)
  {}

  lemma EncodedIs(buf: seq<Byte>, digits: seq<nat>)
    requires digits == ToDigits(32, WithPad(buf, 0, PadBits(PadChars(|buf|))), DataChars(|buf|))
    ensures DigitsOf(32, digits) && Encoded(buf) == Text(digits) + Pads(PadChars(|buf|))
  {
    assert buf[0..] == buf;
  }

  /** The bytes from `i` on as a number, with `pad` zero bits below. */
  function WithPad(buf: seq<Byte>, i: nat, pad: nat): nat
    requires i <= |buf|
  {
    MulPositive(Num(256, buf[i..]), Pow2(pad));
    Num(256, buf[i..]) * Pow2(pad)
  }

  /** The accumulator never exceeds its bits. */
  lemma HoldsBounds(w: nat, out: seq<nat>, val: int, valBits: nat, total: int)
    requires Holds(w, out, val, valBits, total)
    ensures DigitsOf(Pow2(w), out) && 0 <= val < Pow2(valBits)
  {}

  lemma Starts(buf: seq<Byte>, w: nat, pad: nat)
    ensures Holds(w, [], 0, pad, WithPad(buf, |buf|, pad)) && DigitsOf(32, []) && Text([]) == ""
  {
    assert buf[|buf|..] == [];
  }

  lemma EncodedNothing()
    ensures Encoded([]) == ""
  {}

  /** The next byte's weight above the bytes that follow it and the padding bits. */
  lemma ByteAdds(buf: seq<Byte>, i: nat, pad: nat)
    requires i < |buf|
    ensures WithPad(buf, i, pad) == WithPad(buf, i + 1, pad) + buf[i] * Pow2(pad + 8 * (|buf| - i - 1))
  {
    var m := |buf| - i - 1;
    assert buf[i..][1..] == buf[i + 1..];
    SmallPowers();
    PowPow(8, m);
    PowAdd(2, 8 * m, pad);
    hide Pow;
    Distribute(buf[i] * Pow(256, m), Num(256, buf[i + 1..]), Pow2(pad));
    MulAssoc(buf[i], Pow(256, m), Pow2(pad));
  }

  /** Decodes any string; `Digits` tells what a character outside the alphabet counts as. */
  method Decode(input: string) returns (words: seq<nat>)
    ensures words == Decoded(input)
  {
    if input == "" {
      NothingDecoded(input);
      return [];
    }
    ghost var data := Data(input);
    assert data <= input;
    hide Pow, Reached, Decoded, PadBits, Rest, Digits, Data, TrailingPads;
    var i, val, valBits := DecodePadding(input);
    words := DecodeChars(input, i, val, valBits, data, PadBits(TrailingPads(input)));
    if data == "" { NothingDecoded(input); } else { SomeDecoded(input); }
  }

  /** Skips the padding and takes in the bits that it leaves of the last character. */
  method DecodePadding(input: string) returns (i: int, val: int, valBits: nat)
    requires input != ""
    ensures Data(input) == "" ==> i < 0
    ensures Data(input) != "" ==>
      -1 <= i < |Data(input)| && valBits < 8 &&
        Reached(Data(input), PadBits(TrailingPads(input)), i + 1, [], val, valBits)
  {
    ghost var data := Data(input);
    assert data <= input;
    hide Pow, Reached, CharValue, JsShr, PadBits, Data, TrailingPads;
    var padChars;
    i, padChars := CountPads(input);
    val, valBits := 0, 0;
    if padChars > 0 {
      var padBits := PadBits(padChars);
      var index := if i >= 0 then CharValue(input[i]) else -1;
      val := JsShr(index, padBits);
      valBits := 5 - padBits;
      if data != "" { StartsInside(data, padBits); }
      i := i - 1;
    } else {
      NoPadNoDrop();
      StartsOutside(data);
    }
  }

  /** The loop of `Decode` over the characters up to `i0`. */
  method DecodeChars(input: string, i0: int, val0: int, valBits0: nat, ghost data: string, ghost drop: nat)
      returns (words: seq<nat>)
    requires data <= input && drop <= 4
    requires data == "" ==> i0 < 0
    requires data != "" ==> -1 <= i0 < |data| && valBits0 < 8
    requires data != "" ==> Reached(data, drop, i0 + 1, [], val0, valBits0)
    ensures words == if data == "" then [] else ToDigits(256, Rest(Digits(data), 0, drop), (5 * |data| - drop) / 8)
  {
    words := [];
    hide Reached, CharValue, ToDigits, Rest, Digits;
    var i, val := i0, val0;
    var valBits: nat := valBits0;
    while i >= 0
      invariant data == "" ==> i < 0 && words == []
      invariant data != "" ==> -1 <= i < |data| && valBits < 8 && Reached(data, drop, i + 1, words, val, valBits)
    {
      words, val, valBits := AddWord(words, val, valBits, CharValue(input[i]), data, i, drop);
      i := i - 1;
    }
    if data != "" { AllDecoded(data, drop, words, val, valBits); }
  }

  /** The bytes so far and the accumulator hold `total`; in a poisoned accumulator all bits above
      its own are set. */
  ghost predicate Keeps(words: seq<nat>, val: int, valBits: nat, poisoned: bool, total: int) {
    Holds(8, words, if poisoned then val + Pow2(valBits) else val, valBits, total)
  }

  /** The characters from `i` on have been decoded. */
  ghost predicate Reached(data: string, drop: nat, i: nat, words: seq<nat>, val: int, valBits: nat)
    requires i <= |data|
  {
    valBits + 8 * |words| == 5 * (|data| - i) - drop &&
    Keeps(words, val, valBits, !Clean(data, i), Rest(Digits(data), i, drop))
  }

  lemma AllDecoded(data: string, drop: nat, words: seq<nat>, val: int, valBits: nat)
    requires Reached(data, drop, 0, words, val, valBits) && valBits < 8
    ensures words == ToDigits(256, Rest(Digits(data), 0, drop), (5 * |data| - drop) / 8)
  {
    hide Pow, Holds, Clean, Digits, Rest, ToDigits;
    SmallPowers();
    var total := Rest(Digits(data), 0, drop);
    var u := if Clean(data, 0) then val else val + Pow2(valBits);
    HoldsBounds(8, words, u, valBits, total);
    Finished(8, words, u, valBits, total);
    assert (5 * |data| - drop) / 8 == |words|;
  }

  /** One turn of the loop of `decode` over the characters. */
  method AddWord(words0: seq<nat>, val0: int, valBits0: nat, index: int, ghost data: string, ghost i: nat,
      ghost drop: nat)
      returns (words: seq<nat>, val: int, valBits: nat)
    requires i < |data| && index == CharValue(data[i])
    requires valBits0 < 8 && Reached(data, drop, i + 1, words0, val0, valBits0)
    ensures valBits < 8 && Reached(data, drop, i, words, val, valBits)
  {
    ReachNext(data, drop, i, words0, val0, valBits0);
    hide JsOr, JsShl, Keeps, Rest, Clean, CharValue, Digits;
    var msbs := JsShl(index, valBits0);
    val := JsOr(val0, msbs);
    valBits := valBits0 + 5;
    words, val, valBits := UnshiftWords(words0, val, valBits, !Clean(data, i), Rest(Digits(data), i, drop));
  }

  lemma ReachNext(data: string, drop: nat, i: nat, words: seq<nat>, val: int, valBits: nat)
    requires i < |data| && Reached(data, drop, i + 1, words, val, valBits)
    ensures Reached(data, drop, i, words, JsOr(val, JsShl(CharValue(data[i]), valBits)), valBits + 5)
  {
    CleanStep(data, i);
    hide JsOr, JsShl, Keeps, Rest, Clean, CharValue, Digits, Word;
    var poisoned, index, place := !Clean(data, i + 1), CharValue(data[i]), valBits + 8 * |words|;
    var total, total' := Rest(Digits(data), i + 1, drop), Rest(Digits(data), i, drop);
    assert total' == total + JsShl(Word(index, poisoned), place) by { DigitAdds(Digits(data), i, drop, place); }
    TakeAny(words, val, valBits, poisoned, total, index, place);
    assert Keeps(words, JsOr(val, JsShl(index, valBits)), valBits + 5, !Clean(data, i), total');
  }

  lemma CleanStep(data: string, i: nat)
    requires i < |data|
    ensures Clean(data, i) <==> Clean(data, i + 1) && CharValue(data[i]) >= 0
    ensures Digits(data)[i] == Word(CharValue(data[i]), !Clean(data, i + 1))
  {
    hide CharValue;
  }

  /** The five bits that a character with this index adds to the accumulator. */
  function Word(index: int, poisoned: bool): nat
    requires -1 <= index < 32
  {
    if poisoned || index < 0 then 31 else index
  }

  /** Or-ing in an index adds its word, or poisons the accumulator. */
  lemma TakeAny(words: seq<nat>, val: int, valBits: nat, poisoned: bool, total: int, index: int, place: nat)
    requires Keeps(words, val, valBits, poisoned, total) && -1 <= index < 32 && place == valBits + 8 * |words|
    ensures Keeps(words, JsOr(val, JsShl(index, valBits)), valBits + 5, poisoned || index < 0,
                  total + JsShl(Word(index, poisoned), place))
  {
    var p, u, word := Pow2(valBits), if poisoned then val + Pow2(valBits) else val, Word(index, poisoned);
    HoldsBounds(8, words, u, valBits, total);
    SmallPowers();
    PowAdd(2, 5, valBits);
    hide Pow, JsOr, Holds;
    TakeIn(8, words, u, valBits, total, word, 5, place);
    JsOrDisjoint(u, word, valBits);
    if poisoned {
      JsOrAllSet(u, index, valBits);
    } else {
      JsOrDisjoint(u, index, valBits);
    }
    assert Pow2(valBits + 5) == 32 * p;
  }

  method CountPads(input: string) returns (i: int, padChars: nat)
    ensures padChars == TrailingPads(input) && i == |Data(input)| - 1
  {
    i, padChars := |input| - 1, 0;
    assert input[..|input|] == input;
    while i >= 0 && input[i] == Pad
      invariant -1 <= i < |input| && padChars == |input| - 1 - i
      invariant TrailingPads(input) == padChars + TrailingPads(input[..i + 1])
    {
      assert input[..i + 1][..i] == input[..i];
      padChars := padChars + 1;
      i := i - 1;
    }
  }

  /** Outputs bytes while the value has eight bits. The value never has more than 12 bits. */
  method UnshiftWords(words0: seq<nat>, val0: int, valBits0: nat, ghost poisoned: bool, ghost total: int)
      returns (words: seq<nat>, val: int, valBits: nat)
    requires Keeps(words0, val0, valBits0, poisoned, total) && valBits0 <= 12
    ensures Keeps(words, val, valBits, poisoned, total) && valBits < 8
    ensures valBits + 8 * |words| == valBits0 + 8 * |words0|
  {
    hide Keeps, JsAnd;
    words, val, valBits := words0, val0, valBits0;
    while valBits >= 8
      invariant Keeps(words, val, valBits, poisoned, total) && valBits <= 12
      invariant valBits + 8 * |words| == valBits0 + 8 * |words0|
    {
      GiveAny(words, val, valBits, poisoned, total);
      var word := JsAnd(val, 255);
      words := [word] + words;
      val := val / 256;
      valBits := valBits - 8;
    }
  }

  lemma GiveAny(words: seq<nat>, val: int, valBits: nat, poisoned: bool, total: int)
    requires Keeps(words, val, valBits, poisoned, total) && valBits >= 8
    ensures Keeps([JsAnd(val, 255)] + words, val / 256, valBits - 8, poisoned, total)
  {
    var u := if poisoned then val + Pow2(valBits) else val;
    HoldsBounds(8, words, u, valBits, total);
    GiveOutByte(words, u, valBits, total);
    if poisoned { ShiftPoisoned(val, valBits); }
    hide Pow, JsAnd, Holds;
  }

  lemma GiveOutByte(words: seq<nat>, u: nat, valBits: nat, total: int)
    requires Holds(8, words, u, valBits, total) && valBits >= 8
    ensures Holds(8, [JsAnd(u, 255)] + words, u / 256, valBits - 8, total)
  {
    hide Pow, JsAnd, Holds;
    SmallPowers();
    GiveOut(8, words, u, valBits, total);
  }

  lemma ShiftPoisoned(val: int, valBits: nat)
    requires valBits >= 8
    ensures JsAnd(val, 255) == JsAnd(val + Pow2(valBits), 255)
    ensures (val + Pow2(valBits)) / 256 == val / 256 + Pow2(valBits - 8)
  {
    hide Pow, JsAnd;
    SmallPowers();
    PowAdd(2, valBits - 8, 8);
    var q := Pow2(valBits - 8);
    assert Pow2(valBits) == q * 256;
    DivPlus(q, val, 256);
    LowByte(val);
    LowByte(val + Pow2(valBits));
  }

  lemma LowByte(v: int)
    ensures JsAnd(v, 255) == v - 256 * (v / 256)
  {
    hide JsAnd;
    SmallPowers();
    JsAndLowMask(v, 8);
  }

  lemma NoPadNoDrop()
    ensures PadBits(0) == 0
  {}

  lemma StartsOutside(data: string)
    ensures Reached(data, 0, |data|, [], 0, 0)
  {
    var digits := Digits(data);
    assert digits[|digits|..] == [];
  }

  lemma StartsInside(data: string, drop: nat)
    requires data != "" && drop <= 4
    ensures var n := |data| - 1;
      Reached(data, drop, n, [], JsShr(CharValue(data[n]), drop), 5 - drop)
  {
    var n, digits := |data| - 1, Digits(data);
    var d := digits[n];
    assert digits[n..] == [d];
    assert Num(32, [d]) == d by { NumCons(32, d, []); }
    CleanStep(data, n);
    assert Clean(data, n + 1);
    SmallPowers();
    PowAdd(2, 5 - drop, drop);
    hide Num, Clean, CharValue, Pow;
    HighBelow(d, Pow2(5 - drop), Pow2(drop));
    DivMonotone(0, d, Pow2(drop));
    EmptyHolds(d / Pow2(drop), 5 - drop);
    AllSetShifted(Pow2(5 - drop), Pow2(drop));
  }

  /** 31 and -1 differ by 32, before and after the shift. */
  lemma AllSetShifted(q: nat, p: nat)
    requires q * p == 32 && p > 0
    ensures -1 / p + q == 31 / p
  {
    DivUnique(31, p, 31 / p);
    assert (31 / p - q) * p == (31 / p) * p - q * p;
    DivUnique(-1, p, 31 / p - q);
  }

  lemma EmptyHolds(val: nat, valBits: nat)
    requires val < Pow2(valBits)
    ensures Holds(8, [], val, valBits, val)
  {}

  lemma DigitAdds(digits: seq<nat>, j: nat, drop: nat, place: nat)
    requires j < |digits| && place + drop == 5 * (|digits| - 1 - j)
    ensures Rest(digits, j, drop) == Rest(digits, j + 1, drop) + JsShl(digits[j], place)
  {
    var m := |digits| - 1 - j;
    assert digits[j..][1..] == digits[j + 1..];
    SmallPowers();
    PowPow(5, m);
    PowAdd(2, place, drop);
    hide Pow;
    var low, q, p := Num(32, digits[j + 1..]), digits[j] * Pow2(place), Pow2(drop);
    MulAssoc(digits[j], Pow2(place), p);
    assert Num(32, digits[j..]) == q * p + low;
    DivPlus(q, low, p);
  }

  lemma DivPlus(q: int, low: int, p: int)
    requires p > 0
    ensures (q * p + low) / p == q + low / p
  {
    DivUnique(low, p, low / p);
    Distribute(q, low / p, p);
    DivUnique(q * p + low, p, q + low / p);
  }

  lemma NothingDecoded(input: string)
    requires Data(input) == ""
    ensures Decoded(input) == []
  {}

  lemma SomeDecoded(input: string)
    requires Data(input) != ""
    ensures var n, drop := |Data(input)|, PadBits(TrailingPads(input));
      Decoded(input) == ToDigits(256, Rest(Digits(Data(input)), 0, drop), (5 * n - drop) / 8)
  {
    hide TrailingPads, Data, ToDigits, Num, Pow, Digits, Rest, PadBits;
  }

  // ---------------------------------------------------------------- round trip

  lemma {:induction false} NumOfDigits(base: nat, v: nat, len: nat)
    requires base > 0 && v < Pow(base, len)
    ensures Num(base, ToDigits(base, v, len)) == v
    decreases len
  {
    if len > 0 {
      var p := Pow(base, len - 1);
      var d, rest := v / p, v % p;
      PowSucc(base, len - 1);
      HighBelow(v, base, p);
      hide Num, Pow;
      DivMonotone(0, v, p);
      assert v == d * p + rest;
      NumOfDigits(base, rest, len - 1);
      var low := ToDigits(base, rest, len - 1);
      LowDigits(base, low, d, v);
      TopOfDigits(base, v, len);
      NumCons(base, d, low);
    }
  }

  lemma TopOfDigits(base: nat, v: nat, len: nat)
    requires len > 0 && base > 0 && v / Pow(base, len - 1) < base
    ensures ToDigits(base, v, len) == [(v / Pow(base, len - 1)) % base] + ToDigits(base, v, len - 1)
    ensures v / Pow(base, len - 1) >= 0 ==> (v / Pow(base, len - 1)) % base == v / Pow(base, len - 1)
  {
    hide Pow;
    var d := v / Pow(base, len - 1);
    if d >= 0 { SmallMod(d, base); }
  }

  lemma SmallMod(d: nat, base: nat)
    requires d < base
    ensures d % base == d
  {}

  lemma {:induction false} IndexOfChar(alphabet: string, k: nat)
    requires k < |alphabet| && forall i, j | 0 <= i < j < |alphabet| :: alphabet[i] != alphabet[j]
    ensures IndexOf(alphabet, alphabet[k]) == k
    decreases k
  {
    if k > 0 {
      assert alphabet[1..][k - 1] == alphabet[k];
      IndexOfChar(alphabet[1..], k - 1);
    }
  }

  lemma AlphabetDistinct()
    ensures |Alphabet| == 32
    ensures forall i, j | 0 <= i < j < |Alphabet| :: Alphabet[i] != Alphabet[j]
    ensures Pad !in Alphabet
  {
    assert forall i | 0 <= i < 32 :: Alphabet[i] as int == if i < 26 then 'A' as int + i else '2' as int + (i - 26);
  }

  lemma DigitsOfText(digits: seq<nat>)
    requires DigitsOf(32, digits)
    ensures Digits(Text(digits)) == digits && forall i | 0 <= i < |digits| :: Text(digits)[i] != Pad
  {
    AlphabetDistinct();
    forall i | 0 <= i < |digits| ensures CharValue(Text(digits)[i]) == digits[i] {
      IndexOfChar(Alphabet, digits[i]);
    }
    hide CharValue;
    assert forall i | 0 <= i < |digits| :: Clean(Text(digits), i);
  }

  lemma {:induction false} PadsTrail(text: string, p: nat)
    requires text == "" || text[|text| - 1] != Pad
    ensures TrailingPads(text + Pads(p)) == p
    decreases p
  {
    var s := text + Pads(p);
    if p > 0 {
      assert s[..|s| - 1] == text + Pads(p - 1);
      PadsTrail(text, p - 1);
    }
  }

  lemma FilledBelow(buf: seq<Byte>)
    ensures WithPad(buf, 0, PadBits(PadChars(|buf|))) < Pow(32, DataChars(|buf|))
  {
    var n := |buf|;
    var d := PadBits(PadChars(n));
    SmallPowers();
    NumBelow(256, buf);
    PadsFit(n);
    PowPow(8, n);
    PowPow(5, DataChars(n));
    PowAdd(2, 8 * n, d);
    assert buf[0..] == buf;
    hide Pow, Num;
    MulStrict(Num(256, buf), Pow2(8 * n), Pow2(d));
  }

  /** Decoding gives back every encoded buffer. */
  lemma RoundTrip(buf: seq<Byte>)
    ensures Decoded(Encoded(buf)) == buf
  {
    var n, p := |buf|, PadChars(|buf|);
    var d, total := PadBits(p), WithPad(buf, 0, PadBits(PadChars(|buf|)));
    var digits := ToDigits(32, total, DataChars(n));
    EncodedIs(buf, digits);
    DigitsOfText(digits);
    PadsTrail(Text(digits), p);
    assert Data(Encoded(buf)) == Text(digits);
    PadsFit(n);
    FilledBelow(buf);
    hide Pow, Num, ToDigits, Encoded, Text, Digits, PadBits, PadChars, Pads, IndexOf, TrailingPads, DigitsOf;
    if n > 0 {
      NumOfDigits(32, total, DataChars(n));
      assert buf[0..] == buf;
      DivUnique(total, Pow2(d), Num(256, buf));
      BytesBack(buf);
    }
  }

  lemma BytesBack(buf: seq<Byte>)
    ensures ToDigits(256, Num(256, buf), |buf|) == buf
  {
    LowDigits(256, buf, 0, Num(256, buf));
  }

  /** The encoding has eight characters for every five bytes begun. */
  lemma EncodedLength(buf: seq<Byte>)
    ensures |Encoded(buf)| == 8 * ((|buf| + 4) / 5)
  {
    hide ToDigits, Num, Pow;
  }

  /** Groups of five bytes are encoded each on its own, as section 6 of RFC 4648 describes. */
  lemma EncodesByGroups(a: seq<Byte>, b: seq<Byte>)
    requires |a| % 5 == 0
    ensures Encoded(a + b) == Encoded(a) + Encoded(b)
  {
    hide Encoded, Text, PadChars, PadBits, DataChars, Pow, Num, ToDigits, DigitsOf, WithPad, Pads;
    var d := PadBits(PadChars(|b|));
    var da, db := ToDigits(32, WithPad(a, 0, 0), DataChars(|a|)), ToDigits(32, WithPad(b, 0, d), DataChars(|b|));
    WholeGroups(|a|, |b|);
    EncodedIs(a, da);
    EncodedIs(b, db);
    DigitsJoin(a, b);
    EncodedIs(a + b, da + db);
    JoinTexts(da, db, PadChars(|b|));
  }

  lemma JoinTexts(s: seq<nat>, t: seq<nat>, p: nat)
    requires DigitsOf(32, s) && DigitsOf(32, t) && DigitsOf(32, s + t)
    ensures Text(s + t) + Pads(p) == (Text(s) + Pads(0)) + (Text(t) + Pads(p))
  {
    hide Text, Pads;
    TextConcat(s, t);
    assert Pads(0) == "";
  }

  lemma WholeGroups(m: nat, n: nat)
    requires m % 5 == 0
    ensures PadChars(m) == PadBits(0) == 0 && PadChars(m + n) == PadChars(n)
    ensures DataChars(m + n) == DataChars(m) + DataChars(n)
  {
    var q := m / 5;
    assert m == 5 * q;
    assert (m + n) % 5 == n % 5;
    assert DataChars(m) == 8 * q;
    assert 8 * (m + n) + 4 == 5 * (8 * q) + (8 * n + 4);
  }

  lemma DigitsJoin(a: seq<Byte>, b: seq<Byte>)
    requires |a| % 5 == 0
    ensures var d := PadBits(PadChars(|b|));
      ToDigits(32, WithPad(a + b, 0, d), DataChars(|a + b|)) ==
      ToDigits(32, WithPad(a, 0, 0), DataChars(|a|)) + ToDigits(32, WithPad(b, 0, d), DataChars(|b|))
  {
    var d, la, lb := PadBits(PadChars(|b|)), DataChars(|a|), DataChars(|b|);
    var ta, tb := WithPad(a, 0, 0), WithPad(b, 0, d);
    WholeGroups(|a|, |b|);
    FilledBelow(a);
    FilledBelow(b);
    PadsFit(|b|);
    hide PadChars, PadBits, DataChars, Pow, Num, ToDigits, WithPad;
    NumOfDigits(32, ta, la);
    NumOfDigits(32, tb, lb);
    GroupsTotal(a, b, d, lb);
    var da, db := ToDigits(32, ta, la), ToDigits(32, tb, lb);
    NumConcat(32, da, db);
    JoinDigits(da, db, WithPad(a + b, 0, d));
  }

  lemma JoinDigits(da: seq<nat>, db: seq<nat>, total: nat)
    requires DigitsOf(32, da) && DigitsOf(32, db) && total == Num(32, da + db)
    ensures DigitsOf(32, da + db) && ToDigits(32, total, |da| + |db|) == da + db
  {
    hide Num, Pow, ToDigits;
    LowDigits(32, da + db, 0, total);
  }

  lemma {:induction false} NumConcat(base: nat, s: seq<nat>, t: seq<nat>)
    requires base > 0
    ensures Num(base, s + t) == Num(base, s) * Pow(base, |t|) + Num(base, t)
    decreases |s|
  {
    if s == [] {
      assert s + t == t;
    } else {
      NumConcat(base, s[1..], t);
      assert s == [s[0]] + s[1..] && s + t == [s[0]] + (s[1..] + t);
      NumCons(base, s[0], s[1..]);
      NumCons(base, s[0], s[1..] + t);
      PowAdd(base, |s| - 1, |t|);
      hide Num, Pow;
      var p := Pow(base, |t|);
      MulAssoc(s[0], Pow(base, |s| - 1), p);
      Distribute(s[0] * Pow(base, |s| - 1), Num(base, s[1..]), p);
    }
  }

  lemma GroupsTotal(a: seq<Byte>, b: seq<Byte>, d: nat, lb: nat)
    requires d + 8 * |b| == 5 * lb
    ensures WithPad(a + b, 0, d) == WithPad(a, 0, 0) * Pow(32, lb) + WithPad(b, 0, d)
  {
    assert (a + b)[0..] == a + b && a[0..] == a && b[0..] == b;
    NumConcat(256, a, b);
    SmallPowers();
    PowPow(8, |b|);
    PowPow(5, lb);
    PowAdd(2, 8 * |b|, d);
    assert Pow2(0) == 1;
    hide Num, Pow;
    var na := Num(256, a);
    Distribute(na * Pow(256, |b|), Num(256, b), Pow2(d));
    MulAssoc(na, Pow(256, |b|), Pow2(d));
  }

  lemma TextConcat(s: seq<nat>, t: seq<nat>)
    requires DigitsOf(32, s) && DigitsOf(32, t)
    ensures DigitsOf(32, s + t) && Text(s + t) == Text(s) + Text(t)
  {}
}
