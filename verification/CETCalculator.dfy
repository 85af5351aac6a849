/** packages/core/lib/dlc/CETCalculator.ts: compression of an outcome interval into digit
    prefixes (dlcspecs, CET compression). */
module CETCalculator {
  import opened Numbers
  import opened Sequences

  type Digits = seq<nat>

  // ---------------------------------------------------------------- digits of a number

  /** Truncating division of a non-negative bigint. */
  function Div(num: nat, base: nat): nat
    requires base > 0
  {
    DivMonotone(0, num, base);
    num / base
  }

  /** `decompose` */
  function Decompose(num: nat, base: nat, numDigits: nat): (d: Digits)
    requires base > 0
    ensures |d| == numDigits
    decreases numDigits
  {
    if numDigits == 0 then [] else Decompose(Div(num, base), base, numDigits - 1) + [num % base]
  }

  method DecomposeNumber(num: nat, base: nat, numDigits: nat) returns (d: Digits)
    requires base > 0
    ensures d == Decompose(num, base, numDigits)
  {
    var currentNumber: nat, n := num, numDigits;
    d := [];
    while n > 0
      invariant Decompose(num, base, numDigits) == Decompose(currentNumber, base, n) + Reverse(d)
    {
      assert Reverse(d + [currentNumber % base]) == [currentNumber % base] + Reverse(d);
      d := d + [currentNumber % base];
      currentNumber := Div(currentNumber, base);
      n := n - 1;
    }
    d := Reverse(d);
  }

  function CommonPrefix(a: Digits, b: Digits): (n: nat)
    ensures n <= |a| && n <= |b|
  {
    if a == [] || b == [] || a[0] != b[0] then 0 else 1 + CommonPrefix(a[1..], b[1..])
  }

  /** `separatePrefix` */
  method SeparatePrefix(start: nat, end: nat, base: nat, numDigits: nat)
    returns (prefixDigits: Digits, startDigits: Digits, endDigits: Digits)
    requires base > 0
    ensures var s, e := Decompose(start, base, numDigits), Decompose(end, base, numDigits);
      var k := CommonPrefix(s, e);
      prefixDigits == s[..k] && startDigits == s[k..] && endDigits == e[k..]
  {
    startDigits := DecomposeNumber(start, base, numDigits);
    endDigits := DecomposeNumber(end, base, numDigits);
    ghost var k := CommonPrefix(startDigits, endDigits);
    prefixDigits := [];
    var i := 0;
    while i < |startDigits| && startDigits[i] == endDigits[i]
      invariant i <= |startDigits| && i <= |endDigits| && prefixDigits == startDigits[..i]
      invariant k == i + CommonPrefix(startDigits[i..], endDigits[i..])
    {
      prefixDigits := prefixDigits + [startDigits[i]];
      i := i + 1;
    }
    startDigits := startDigits[i..];
    endDigits := endDigits[i..];
  }

  // ---------------------------------------------------------------- what digits denote

  /** The number that digits, most significant first, denote. */
  function Value(d: Digits, base: nat): nat {
    if d == [] then 0
    else
      MulPositive(Value(d[..|d| - 1], base), base);
      Value(d[..|d| - 1], base) * base + d[|d| - 1]
  }

  predicate AllDigits(d: Digits, base: nat) {
    forall i | 0 <= i < |d| :: d[i] < base
  }

  lemma ValueAppend(d: Digits, x: nat, base: nat)
    ensures Value(d + [x], base) == Value(d, base) * base + x
  {
    assert (d + [x])[..|d|] == d;
  }

  lemma {:induction false} DecomposeDigits(num: nat, base: nat, n: nat)
    requires base > 0
    ensures AllDigits(Decompose(num, base, n), base)
    decreases n
  {
    if n > 0 { DecomposeDigits(Div(num, base), base, n - 1); }
  }

  lemma {:induction false} DecomposeValue(num: nat, base: nat, n: nat)
    requires base > 0 && num < Pow(base, n)
    ensures Value(Decompose(num, base, n), base) == num
    decreases n
  {
    if n > 0 {
      hide Pow, Value, Div;
      var q := Div(num, base);
      LastDigit(num, base, n);
      DecomposeValue(q, base, n - 1);
      ValueAppend(Decompose(q, base, n - 1), num % base, base);
    }
  }

  lemma LastDigit(num: nat, base: nat, n: nat)
    requires base > 0 && n > 0 && num < Pow(base, n)
    ensures Div(num, base) < Pow(base, n - 1) && num == Div(num, base) * base + num % base
  {
    DivBelow(num, base, Pow(base, n - 1));
    hide Pow;
  }

  lemma {:induction false} CommonPrefixAgrees(a: Digits, b: Digits)
    ensures var k := CommonPrefix(a, b);
      a[..k] == b[..k] && (k < |a| && k < |b| ==> a[k] != b[k])
  {
    if a != [] && b != [] && a[0] == b[0] {
      CommonPrefixAgrees(a[1..], b[1..]);
      var j := CommonPrefix(a[1..], b[1..]);
      assert a[..j + 1] == [a[0]] + a[1..][..j] && b[..j + 1] == [b[0]] + b[1..][..j];
    }
  }

  lemma DifferentDigits(start: nat, end: nat, base: nat, n: nat)
    requires base > 0 && start < Pow(base, n) && end < Pow(base, n) && start != end
    ensures CommonPrefix(Decompose(start, base, n), Decompose(end, base, n)) < n
  {
    var s, e := Decompose(start, base, n), Decompose(end, base, n);
    DecomposeValue(start, base, n);
    DecomposeValue(end, base, n);
    CommonPrefixAgrees(s, e);
    assert s[..n] == s && e[..n] == e;
  }

  // ---------------------------------------------------------------- groupings

  /** `fixed` followed by each digit from `from` up to, not including, `stop`. */
  function Range(fixed: Digits, from: nat, stop: nat): seq<Digits>
    decreases stop - from
  {
    if from >= stop then [] else [fixed + [from]] + Range(fixed, from + 1, stop)
  }

  /** How many digits at the end equal `z`. */
  function Trailing(digits: Digits, z: nat): (n: nat)
    ensures n <= |digits|
  {
    if digits == [] || digits[|digits| - 1] != z then 0
    else 1 + Trailing(digits[..|digits| - 1], z)
  }

  /** The groupings above `digits`, from the `i`-th digit from the right to the second digit. */
  function FromFront(digits: Digits, base: nat, i: nat): seq<Digits>
    decreases |digits| - i
  {
    var m := |digits|;
    if i + 1 >= m then []
    else Range(digits[..m - 1 - i], digits[m - 1 - i] + 1, base) + FromFront(digits, base, i + 1)
  }

  /** The groupings below `digits`, from the second digit to the `i`-th digit from the right. */
  function FromBack(digits: Digits, i: nat): seq<Digits>
    decreases |digits| - i
  {
    var m := |digits|;
    if i + 1 >= m then []
    else FromBack(digits, i + 1) + Range(digits[..m - 1 - i], 0, digits[m - 1 - i])
  }

  /** `frontGroupings` */
  function FrontGroupings(digits: Digits, base: nat): seq<Digits> {
    var z := Trailing(digits, 0);
    if z == |digits| then [[0]]
    else [digits[..|digits| - z]] + FromFront(digits, base, z)
  }

  /** `backGroupings` */
  function BackGroupings(digits: Digits, base: nat): seq<Digits>
    requires base > 0
  {
    var z := Trailing(digits, base - 1);
    if z == |digits| then [[base - 1]]
    else FromBack(digits, z) + [digits[..|digits| - z]]
  }

  predicate Every(digits: Digits, z: nat) {
    forall i | 0 <= i < |digits| :: digits[i] == z
  }

  function WithPrefix(prefix: Digits, groups: seq<Digits>): seq<Digits> {
    seq(|groups|, i requires 0 <= i < |groups| => prefix + groups[i])
  }

  /** `groupByIgnoringDigits` for two different outcomes, after `separatePrefix`. */
  function Group(p: Digits, s: Digits, e: Digits, base: nat): seq<Digits>
    requires base > 0 && |s| == |e| > 0
  {
    if Every(s, 0) && Every(e, base - 1) && p != [] then [p]
    else if |s| == 1 then Range(p, s[0], e[0] + 1)
    else WithPrefix(p, FrontGroupings(s, base) + Range([], s[0] + 1, e[0]) + BackGroupings(e, base))
  }

  // ---------------------------------------------------------------- the loops

  function ZipWithIndex<T>(arr: seq<T>): (r: seq<(T, nat)>)
    ensures |r| == |arr| && forall i | 0 <= i < |arr| :: r[i] == (arr[i], i)
  {
    seq(|arr|, i requires 0 <= i < |arr| => (arr[i], i))
  }

  method DropUntil<T>(data: seq<T>, check: T -> bool) returns (r: seq<T>)
    ensures |r| <= |data| && r == data[|data| - |r|..]
    ensures forall i | 0 <= i < |data| - |r| :: !check(data[i])
    ensures r != [] ==> check(r[0])
  {
    for i := 0 to |data|
      invariant forall j | 0 <= j < i :: !check(data[j])
    {
      if check(data[i]) { return data[i..]; }
    }
    return [];
  }

  lemma {:induction false} TrailingDigits(digits: Digits, z: nat)
    ensures var k := Trailing(digits, z);
      (forall i | |digits| - k <= i < |digits| :: digits[i] == z) &&
      (k < |digits| ==> digits[|digits| - 1 - k] != z)
  {
    if digits != [] && digits[|digits| - 1] == z {
      TrailingDigits(digits[..|digits| - 1], z);
    }
  }

  /** The digits that are left, paired with their position from the right, when the trailing
      `z`s are dropped from the reversed digits. */
  method DropTrailing(digits: Digits, z: nat) returns (r: seq<(nat, nat)>)
    ensures var k := Trailing(digits, z);
      |r| == |digits| - k && forall i | 0 <= i < |r| :: r[i] == (digits[|digits| - 1 - k - i], k + i)
  {
    r := DropUntil(ZipWithIndex(Reverse(digits)), (a: (nat, nat)) => a.0 != z);
    var zipped := ZipWithIndex(Reverse(digits));
    TrailingDigits(digits, z);
    ghost var t := Trailing(digits, z);
    assert t < |digits| ==> zipped[t].0 == digits[|digits| - 1 - t];
    assert forall i | 0 <= i < t :: zipped[i].0 == digits[|digits| - 1 - i];
    assert |r| == |digits| - t;
  }

  function Firsts(pairs: seq<(nat, nat)>): Digits {
    seq(|pairs|, i requires 0 <= i < |pairs| => pairs[i].0)
  }

  method RangeUp(fixed: Digits, from: nat, stop: nat) returns (r: seq<Digits>)
    ensures r == Range(fixed, from, stop)
  {
    r := [];
    var n := from;
    while n < stop
      invariant Range(fixed, from, stop) == r + Range(fixed, n, stop)
    {
      assert Range(fixed, n, stop) == [fixed + [n]] + Range(fixed, n + 1, stop);
      r := r + [fixed + [n]];
      n := n + 1;
    }
  }

  method RangeDown(fixed: Digits, d: nat) returns (r: seq<Digits>)
    ensures Reverse(r) == Range(fixed, 0, d)
  {
    r := [];
    var n: nat := d;
    while n > 0
      invariant n <= d && Range(fixed, n, d) == Reverse(r)
    {
      n := n - 1;
      assert Reverse(r + [fixed + [n]]) == [fixed + [n]] + Reverse(r);
      r := r + [fixed + [n]];
    }
  }

  lemma JoinThree<T>(a: seq<T>, b: seq<T>, c: seq<T>)
    ensures a + (b + c) == (a + b) + c
  {}

  lemma FromFrontStep(digits: Digits, base: nat, i: nat)
    requires i + 1 < |digits|
    ensures FromFront(digits, base, i) ==
      Range(digits[..|digits| - (i + 1)], digits[|digits| - 1 - i] + 1, base) + FromFront(digits, base, i + 1)
  {
    hide Range;
  }

  lemma FromFrontEnd(digits: Digits, base: nat)
    requires digits != []
    ensures FromFront(digits, base, |digits| - 1) == []
  {}

  method FrontGroupingsOf(digits: Digits, base: nat) returns (r: seq<Digits>)
    ensures r == FrontGroupings(digits, base)
  {
    hide Trailing, Range, Reverse, FromFront;
    var nonZeroDigits := DropTrailing(digits, 0);
    if nonZeroDigits == [] { return [[0]]; }
    ghost var z := Trailing(digits, 0);
    var fromFront := [];
    for k := 0 to |nonZeroDigits| - 1
      invariant FromFront(digits, base, z) == fromFront + FromFront(digits, base, z + k)
    {
      var (d, i) := nonZeroDigits[k];
      var result := RangeUp(digits[..|digits| - (i + 1)], d + 1, base);
      FromFrontStep(digits, base, i);
      JoinThree(fromFront, result, FromFront(digits, base, i + 1));
      fromFront := fromFront + result;
    }
    FromFrontEnd(digits, base);
    assert fromFront + [] == fromFront;
    var first := Reverse(Firsts(nonZeroDigits));
    assert first == digits[..|digits| - z];
    r := [first] + fromFront;
  }

  method BackGroupingsOf(digits: Digits, base: nat) returns (r: seq<Digits>)
    requires base > 0
    ensures r == BackGroupings(digits, base)
  {
    hide Trailing, Range, Reverse;
    var nonMaxDigits := DropTrailing(digits, base - 1);
    if nonMaxDigits == [] { return [[base - 1]]; }
    ghost var z := Trailing(digits, base - 1);
    var fromBack := [];
    for k := 0 to |nonMaxDigits| - 1
      invariant FromBack(digits, z) == FromBack(digits, z + k) + Reverse(fromBack)
    {
      var (d, i) := nonMaxDigits[k];
      var result := RangeDown(digits[..|digits| - (i + 1)], d);
      assert FromBack(digits, i) == FromBack(digits, i + 1) + Reverse(result);
      assert Reverse(fromBack + result) == Reverse(result) + Reverse(fromBack);
      fromBack := fromBack + result;
    }
    var last := Reverse(Firsts(nonMaxDigits));
    assert last == digits[..|digits| - z];
    r := Reverse(fromBack) + [last];
  }

  /** `middleGroupings` */
  method MiddleGroupings(firstDigitStart: nat, firstDigitEnd: nat) returns (r: seq<Digits>)
    ensures r == Range([], firstDigitStart + 1, firstDigitEnd)
  {
    r := [];
    var first := firstDigitStart + 1;
    while first < firstDigitEnd
      invariant Range([], firstDigitStart + 1, firstDigitEnd) == r + Range([], first, firstDigitEnd)
    {
      assert Range([], first, firstDigitEnd) == [[first]] + Range([], first + 1, firstDigitEnd) by {
        assert [] + [first] == [first];
      }
      r := r + [[first]];
      first := first + 1;
    }
  }

  /** The interval's groupings, as a function of the interval. */
  function Groupings(start: nat, end: nat, base: nat, numDigits: nat): seq<Digits>
    requires base >= 2 && start <= end < Pow(base, numDigits)
  {
    var s, e := Decompose(start, base, numDigits), Decompose(end, base, numDigits);
    var k := CommonPrefix(s, e);
    if start == end then [s[..k]]
    else
      DifferentDigits(start, end, base, numDigits);
      Group(s[..k], s[k..], e[k..], base)
  }

  method GroupByIgnoringDigits(start: nat, end: nat, base: nat, numDigits: nat) returns (r: seq<Digits>)
    requires base >= 2 && start <= end < Pow(base, numDigits)
    ensures r == Groupings(start, end, base, numDigits)
  {
    var prefixDigits, startDigits, endDigits := SeparatePrefix(start, end, base, numDigits);
    if start == end ||
       (Every(startDigits, 0) && Every(endDigits, base - 1) && |prefixDigits| != 0) {
      return [prefixDigits];
    }
    DifferentDigits(start, end, base, numDigits);
    if |prefixDigits| == numDigits - 1 {
      r := RangeUp(prefixDigits, startDigits[|startDigits| - 1], endDigits[|endDigits| - 1] + 1);
    } else {
      var front := FrontGroupingsOf(startDigits, base);
      var middle := MiddleGroupings(startDigits[0], endDigits[0]);
      var back := BackGroupingsOf(endDigits, base);
      r := WithPrefix(prefixDigits, front + middle + back);
    }
  }
}
