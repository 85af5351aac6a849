/** The groupings of an outcome interval: an exact, ordered partition into maximal digit
    prefixes, and no smaller set of prefixes covers the interval. */
module CETPartition {
  import opened Numbers
  import opened CETCalculator

  // ---------------------------------------------------------------- blocks

  /** The number of `n`-digit outcomes that start with `g`. */
  function Width(g: Digits, base: nat, n: nat): nat
    requires |g| <= n
  {
    Pow(base, n - |g|)
  }

  /** The first `n`-digit outcome that starts with `g`. */
  function Lo(g: Digits, base: nat, n: nat): nat
    requires |g| <= n
  {
    MulPositive(Value(g, base), Width(g, base, n));
    Value(g, base) * Width(g, base, n)
  }

  /** One past the last `n`-digit outcome that starts with `g`. */
  function Hi(g: Digits, base: nat, n: nat): nat
    requires |g| <= n
  {
    Lo(g, base, n) + Width(g, base, n)
  }

  /** The blocks of `gs` follow one another without gap or overlap from `lo` to `hi`. */
  predicate Chain(gs: seq<Digits>, base: nat, n: nat, lo: nat, hi: nat) {
    if gs == [] then lo == hi
    else
      |gs[0]| <= n && Lo(gs[0], base, n) == lo && Chain(gs[1..], base, n, Hi(gs[0], base, n), hi)
  }

  function Parent(g: Digits): Digits
    requires g != []
  {
    g[..|g| - 1]
  }

  /** Dropping the last digit of `g` leaves the interval from `lo` to `hi`. */
  predicate Maximal(g: Digits, base: nat, n: nat, lo: nat, hi: nat) {
    g != [] && |g| <= n && (Lo(Parent(g), base, n) < lo || Hi(Parent(g), base, n) > hi)
  }

  predicate AllMaximal(gs: seq<Digits>, base: nat, n: nat, lo: nat, hi: nat) {
    forall i | 0 <= i < |gs| :: Maximal(gs[i], base, n, lo, hi)
  }

  // ---------------------------------------------------------------- block arithmetic

  lemma DigitTimes(v: nat, base: nat, x: nat, w: nat)
    ensures (v * base + x) * w == v * (base * w) + x * w
  {
    MulAssoc(v, base, w);
  }

  /** The blocks of `f + [x]` cut the block of `f` into `base` equal parts. */
  lemma ChildBlock(f: Digits, x: nat, base: nat, n: nat)
    requires |f| < n
    ensures var w := Pow(base, n - |f| - 1);
      Lo(f + [x], base, n) == Lo(f, base, n) + x * w &&
      Hi(f + [x], base, n) == Lo(f, base, n) + x * w + w &&
      Hi(f, base, n) == Lo(f, base, n) + base * w
  {
    var w := Pow(base, n - |f| - 1);
    ValueAppend(f, x, base);
    DigitTimes(Value(f, base), base, x, w);
    assert Width(f, base, n) == base * w;
    assert Width(f + [x], base, n) == w;
  }

  lemma {:induction false} ChainConcat(a: seq<Digits>, b: seq<Digits>, base: nat, n: nat, lo: nat, mid: nat, hi: nat)
    requires Chain(a, base, n, lo, mid) && Chain(b, base, n, mid, hi)
    ensures Chain(a + b, base, n, lo, hi)
    decreases |a|
  {
    if a == [] {
      assert a + b == b;
    } else {
      assert (a + b)[1..] == a[1..] + b;
      ChainConcat(a[1..], b, base, n, Hi(a[0], base, n), mid, hi);
    }
  }

  lemma {:induction false} RangeChain(f: Digits, from: nat, stop: nat, base: nat, n: nat)
    requires |f| < n && from <= stop
    ensures var w := Pow(base, n - |f| - 1);
      from * w >= 0 && stop * w >= 0 &&
      Chain(Range(f, from, stop), base, n, Lo(f, base, n) + from * w, Lo(f, base, n) + stop * w)
    decreases stop - from
  {
    var w := Pow(base, n - |f| - 1);
    MulPositive(from, w);
    MulPositive(stop, w);
    if from < stop {
      ChildBlock(f, from, base, n);
      assert (from + 1) * w == from * w + w;
      RangeChain(f, from + 1, stop, base, n);
      assert Range(f, from, stop)[1..] == Range(f, from + 1, stop);
    }
  }

  lemma {:induction false} RangeMembers(f: Digits, from: nat, stop: nat)
    ensures |Range(f, from, stop)| == if from <= stop then stop - from else 0
    ensures forall i | 0 <= i < |Range(f, from, stop)| :: Range(f, from, stop)[i] == f + [from + i]
    decreases stop - from
  {
    if from < stop { RangeMembers(f, from + 1, stop); }
  }

  lemma PrefixStep(d: Digits, i: nat)
    requires i < |d|
    ensures d[..|d| - i] == d[..|d| - i - 1] + [d[|d| - 1 - i]]
  {}

  lemma {:induction false} FromFrontChain(d: Digits, base: nat, i: nat)
    requires i < |d| && AllDigits(d, base)
    ensures Chain(FromFront(d, base, i), base, |d|, Hi(d[..|d| - i], base, |d|), Hi(d[..1], base, |d|))
    decreases |d| - i
  {
    hide Range, Value, Pow;
    var m := |d|;
    if i + 1 < m {
      var f, x := d[..m - 1 - i], d[m - 1 - i];
      var w := Pow(base, i);
      PrefixStep(d, i);
      ChildBlock(f, x, base, m);
      assert (x + 1) * w == x * w + w;
      RangeChain(f, x + 1, base, base, m);
      FromFrontChain(d, base, i + 1);
      ChainConcat(Range(f, x + 1, base), FromFront(d, base, i + 1), base, m,
                  Hi(d[..m - i], base, m), Hi(f, base, m), Hi(d[..1], base, m));
    }
  }

  lemma {:induction false} FromBackChain(d: Digits, base: nat, i: nat)
    requires i < |d| && AllDigits(d, base)
    ensures Chain(FromBack(d, i), base, |d|, Lo(d[..1], base, |d|), Lo(d[..|d| - i], base, |d|))
    decreases |d| - i
  {
    hide Range, Value;
    var m := |d|;
    if i + 1 < m {
      var f, x := d[..m - 1 - i], d[m - 1 - i];
      PrefixStep(d, i);
      ChildBlock(f, x, base, m);
      RangeChain(f, 0, x, base, m);
      FromBackChain(d, base, i + 1);
      ChainConcat(FromBack(d, i + 1), Range(f, 0, x), base, m,
                  Lo(d[..1], base, m), Lo(f, base, m), Lo(d[..m - i], base, m));
    }
  }

  /** Widening a prefix by the `i`-th digit from the right moves its block's lower end down,
      strictly once a non-zero digit has been dropped. */
  lemma {:induction false} LoOfPrefix(d: Digits, base: nat, i: nat)
    requires i <= |d| && base > 0
    ensures Lo(d[..|d| - i], base, |d|) <= Lo(d, base, |d|)
    ensures Lo(d[..|d| - i], base, |d|) == Lo(d, base, |d|) <==> i <= Trailing(d, 0)
  {
    if i == 0 {
      assert d[..|d|] == d;
    } else {
      LoOfPrefix(d, base, i - 1);
      TrailingDigits(d, 0);
      PrefixStep(d, i - 1);
      ChildBlock(d[..|d| - i], d[|d| - i], base, |d|);
      MulPositive(d[|d| - i], Pow(base, i - 1));
    }
  }

  lemma LastPart(x: nat, base: nat, w: nat)
    requires x < base && w > 0
    ensures x * w + w <= base * w
    ensures x * w + w == base * w <==> x == base - 1
  {
    if x < base - 1 { MulStrict(x + 1, base, w); } else { assert (base - 1) * w == base * w - w; }
    assert (x + 1) * w == x * w + w;
  }

  /** The same for the upper end and digits other than the greatest. */
  lemma {:induction false} HiOfPrefix(d: Digits, base: nat, i: nat)
    requires i <= |d| && base > 0 && AllDigits(d, base)
    ensures Hi(d[..|d| - i], base, |d|) >= Hi(d, base, |d|)
    ensures Hi(d[..|d| - i], base, |d|) == Hi(d, base, |d|) <==> i <= Trailing(d, base - 1)
  {
    if i == 0 {
      assert d[..|d|] == d;
    } else {
      HiOfPrefix(d, base, i - 1);
      TrailingDigits(d, base - 1);
      PrefixStep(d, i - 1);
      var x, w := d[|d| - i], Pow(base, i - 1);
      ChildBlock(d[..|d| - i], x, base, |d|);
      LastPart(x, base, w);
    }
  }

  // ---------------------------------------------------------------- the three kinds of groupings

  lemma FrontChain(d: Digits, base: nat)
    requires base >= 2 && AllDigits(d, base) && d != []
    ensures Chain(FrontGroupings(d, base), base, |d|, Lo(d, base, |d|), Hi(d[..1], base, |d|))
  {
    var z := Trailing(d, 0);
    TrailingDigits(d, 0);
    if z == |d| {
      LoOfPrefix(d, base, |d| - 1);
      assert d[..1] == [0];
    } else {
      LoOfPrefix(d, base, z);
      FromFrontChain(d, base, z);
      var first := [d[..|d| - z]];
      assert FrontGroupings(d, base)[1..] == FromFront(d, base, z);
    }
  }

  lemma BackChain(d: Digits, base: nat)
    requires base >= 2 && AllDigits(d, base) && d != []
    ensures Chain(BackGroupings(d, base), base, |d|, Lo(d[..1], base, |d|), Hi(d, base, |d|))
  {
    var z := Trailing(d, base - 1);
    TrailingDigits(d, base - 1);
    if z == |d| {
      HiOfPrefix(d, base, |d| - 1);
      assert d[..1] == [base - 1];
    } else {
      HiOfPrefix(d, base, z);
      FromBackChain(d, base, z);
      var last := d[..|d| - z];
      ChainConcat(FromBack(d, z), [last], base, |d|,
                  Lo(d[..1], base, |d|), Lo(last, base, |d|), Hi(d, base, |d|));
    }
  }

  lemma {:induction false} FromFrontMaximal(d: Digits, base: nat, i: nat, hi: nat)
    requires base > 0 && Trailing(d, 0) <= i < |d|
    ensures AllMaximal(FromFront(d, base, i), base, |d|, Lo(d, base, |d|), hi)
    decreases |d| - i
  {
    if i + 1 < |d| {
      var f := d[..|d| - 1 - i];
      LoOfPrefix(d, base, i + 1);
      RangeMembers(f, d[|d| - 1 - i] + 1, base);
      FromFrontMaximal(d, base, i + 1, hi);
      assert forall x :: Parent(f + [x]) == f;
    }
  }

  lemma {:induction false} FromBackMaximal(d: Digits, base: nat, i: nat, lo: nat)
    requires base > 0 && AllDigits(d, base) && Trailing(d, base - 1) <= i < |d|
    ensures AllMaximal(FromBack(d, i), base, |d|, lo, Hi(d, base, |d|))
    decreases |d| - i
  {
    if i + 1 < |d| {
      var f := d[..|d| - 1 - i];
      HiOfPrefix(d, base, i + 1);
      RangeMembers(f, 0, d[|d| - 1 - i]);
      FromBackMaximal(d, base, i + 1, lo);
      assert forall x :: Parent(f + [x]) == f;
    }
  }

  /** The interval does not hold the whole block of the empty prefix. */
  predicate NotWhole(base: nat, n: nat, lo: nat, hi: nat) {
    lo > 0 || hi < Pow(base, n)
  }

  lemma FrontMaximal(d: Digits, base: nat, hi: nat)
    requires base >= 2 && d != [] && NotWhole(base, |d|, Lo(d, base, |d|), hi)
    ensures AllMaximal(FrontGroupings(d, base), base, |d|, Lo(d, base, |d|), hi)
  {
    var z := Trailing(d, 0);
    if z == |d| {
      assert Parent([0]) == [];
    } else {
      LoOfPrefix(d, base, z + 1);
      assert Parent(d[..|d| - z]) == d[..|d| - z - 1];
      FromFrontMaximal(d, base, z, hi);
    }
  }

  lemma BackMaximal(d: Digits, base: nat, lo: nat)
    requires base >= 2 && d != [] && AllDigits(d, base) && NotWhole(base, |d|, lo, Hi(d, base, |d|))
    ensures AllMaximal(BackGroupings(d, base), base, |d|, lo, Hi(d, base, |d|))
  {
    var z := Trailing(d, base - 1);
    if z == |d| {
      assert Parent([base - 1]) == [];
    } else {
      HiOfPrefix(d, base, z + 1);
      assert Parent(d[..|d| - z]) == d[..|d| - z - 1];
      FromBackMaximal(d, base, z, lo);
    }
  }

  lemma RangeMaximal(f: Digits, from: nat, stop: nat, base: nat, n: nat, lo: nat, hi: nat)
    requires |f| < n && (Lo(f, base, n) < lo || Hi(f, base, n) > hi)
    ensures AllMaximal(Range(f, from, stop), base, n, lo, hi)
  {
    RangeMembers(f, from, stop);
    assert forall x :: Parent(f + [x]) == f;
  }

  // ---------------------------------------------------------------- below a common prefix

  lemma {:induction false} ValueConcat(p: Digits, g: Digits, base: nat)
    ensures Value(p, base) * Pow(base, |g|) >= 0
    ensures Value(p + g, base) == Value(p, base) * Pow(base, |g|) + Value(g, base)
  {
    MulPositive(Value(p, base), Pow(base, |g|));
    if g == [] {
      assert p + g == p;
    } else {
      var f, x := g[..|g| - 1], g[|g| - 1];
      var w := Pow(base, |f|);
      assert g == f + [x] && p + g == (p + f) + [x];
      ValueAppend(f, x, base);
      ValueAppend(p + f, x, base);
      ValueConcat(p, f, base);
      DigitTimes(Value(p, base), w, Value(f, base), base);
      assert base * w == w * base;
    }
  }

  lemma PrefixedBlock(p: Digits, g: Digits, base: nat, m: nat)
    requires |g| <= m
    ensures Lo(p + g, base, |p| + m) == Lo(p, base, |p| + m) + Lo(g, base, m)
    ensures Hi(p + g, base, |p| + m) == Lo(p, base, |p| + m) + Hi(g, base, m)
  {
    ValueConcat(p, g, base);
    var v, w := Pow(base, |g|), Width(g, base, m);
    DigitTimes(Value(p, base), v, Value(g, base), w);
    PowAdd(base, |g|, m - |g|);
  }

  lemma {:induction false} PrefixedChain(p: Digits, gs: seq<Digits>, base: nat, m: nat, lo: nat, hi: nat)
    requires Chain(gs, base, m, lo, hi)
    ensures var c := Lo(p, base, |p| + m);
      Chain(WithPrefix(p, gs), base, |p| + m, c + lo, c + hi)
    decreases |gs|
  {
    if gs != [] {
      PrefixedBlock(p, gs[0], base, m);
      PrefixedChain(p, gs[1..], base, m, Hi(gs[0], base, m), hi);
      assert WithPrefix(p, gs)[1..] == WithPrefix(p, gs[1..]);
    }
  }

  lemma PrefixedMaximal(p: Digits, gs: seq<Digits>, base: nat, m: nat, lo: nat, hi: nat)
    requires AllMaximal(gs, base, m, lo, hi)
    ensures var c := Lo(p, base, |p| + m);
      AllMaximal(WithPrefix(p, gs), base, |p| + m, c + lo, c + hi)
  {
    var c := Lo(p, base, |p| + m);
    forall i | 0 <= i < |gs|
      ensures Maximal(WithPrefix(p, gs)[i], base, |p| + m, c + lo, c + hi)
    {
      var g := gs[i];
      assert Maximal(g, base, m, lo, hi);
      PrefixedBlock(p, Parent(g), base, m);
      assert Parent(p + g) == p + Parent(g);
    }
  }

  lemma FullLength(d: Digits, base: nat)
    ensures Lo(d, base, |d|) == Value(d, base) && Hi(d, base, |d|) == Value(d, base) + 1
  {}

  lemma FirstDigitBlock(d: Digits, base: nat)
    requires d != []
    ensures var w := Pow(base, |d| - 1);
      Lo(d[..1], base, |d|) == d[0] * w && Hi(d[..1], base, |d|) == (d[0] + 1) * w
  {
    assert d[..1] == [] + [d[0]];
    ValueAppend([], d[0], base);
    assert (d[0] + 1) * Pow(base, |d| - 1) == d[0] * Pow(base, |d| - 1) + Pow(base, |d| - 1);
  }

  /** The interval's ends, measured from the start of the common prefix's block. */
  lemma SeparatedEnds(p: Digits, s: Digits, e: Digits, base: nat)
    requires |s| == |e|
    ensures var c := Lo(p, base, |p| + |s|);
      Value(p + s, base) == c + Lo(s, base, |s|) && Value(p + e, base) + 1 == c + Hi(e, base, |e|)
  {
    FullLength(p + s, base);
    FullLength(p + e, base);
    PrefixedBlock(p, s, base, |s|);
    PrefixedBlock(p, e, base, |s|);
  }

  /** The first digits that differ are in the order of the numbers. */
  lemma FirstDigitsOrdered(s: Digits, e: Digits, base: nat)
    requires base >= 2 && |s| == |e| > 0 && s[0] != e[0] && AllDigits(e, base)
    requires Lo(s, base, |s|) < Hi(e, base, |e|)
    ensures s[0] < e[0]
  {
    LoOfPrefix(s, base, |s| - 1);
    HiOfPrefix(e, base, |e| - 1);
    FirstDigitBlock(s, base);
    FirstDigitBlock(e, base);
    if e[0] < s[0] { MulMono(e[0] + 1, s[0], Pow(base, |s| - 1)); }
  }

  /** The groups of the first digits strictly between tile what lies between the two blocks. */
  lemma MiddleChain(s: Digits, e: Digits, base: nat)
    requires |s| == |e| > 0 && s[0] < e[0]
    ensures Chain(Range([], s[0] + 1, e[0]), base, |s|, Hi(s[..1], base, |s|), Lo(e[..1], base, |s|))
  {
    hide Range, Chain, Lo, Hi, Pow;
    FirstDigitBlock(s, base);
    FirstDigitBlock(e, base);
    RangeChain([], s[0] + 1, e[0], base, |s|);
    LoOfNothing(base, |s|);
  }

  lemma LoOfNothing(base: nat, n: nat)
    ensures Lo([], base, n) == 0
  {}

  lemma SuffixChain(s: Digits, e: Digits, base: nat)
    requires base >= 2 && |s| == |e| > 0 && s[0] < e[0]
    requires AllDigits(s, base) && AllDigits(e, base)
    ensures Chain(FrontGroupings(s, base) + Range([], s[0] + 1, e[0]) + BackGroupings(e, base),
                  base, |s|, Lo(s, base, |s|), Hi(e, base, |e|))
  {
    hide FrontGroupings, BackGroupings, Range, Chain, Lo, Hi, AllDigits;
    var m := |s|;
    var front, middle := FrontGroupings(s, base), Range([], s[0] + 1, e[0]);
    var a, b := Hi(s[..1], base, m), Lo(e[..1], base, m);
    FrontChain(s, base);
    BackChain(e, base);
    MiddleChain(s, e, base);
    ChainConcat(front, middle, base, m, Lo(s, base, m), a, b);
    ChainConcat(front + middle, BackGroupings(e, base), base, m, Lo(s, base, m), b, Hi(e, base, m));
  }

  lemma SuffixMaximal(s: Digits, e: Digits, base: nat)
    requires base >= 2 && |s| == |e| > 0 && AllDigits(e, base)
    requires NotWhole(base, |s|, Lo(s, base, |s|), Hi(e, base, |e|))
    ensures AllMaximal(FrontGroupings(s, base) + Range([], s[0] + 1, e[0]) + BackGroupings(e, base),
                       base, |s|, Lo(s, base, |s|), Hi(e, base, |e|))
  {
    hide FrontGroupings, BackGroupings, Maximal;
    FrontMaximal(s, base, Hi(e, base, |e|));
    BackMaximal(e, base, Lo(s, base, |s|));
    RangeMaximal([], s[0] + 1, e[0], base, |s|, Lo(s, base, |s|), Hi(e, base, |e|));
  }

  /** The interval is a whole block exactly when all low digits are least at its start and
      greatest at its end, the test that `groupByIgnoringDigits` makes. */
  lemma WholeBlockTest(s: Digits, e: Digits, base: nat)
    requires base >= 2 && |s| == |e| && AllDigits(e, base)
    ensures Every(s, 0) && Every(e, base - 1) <==> !NotWhole(base, |s|, Lo(s, base, |s|), Hi(e, base, |e|))
  {
    TrailingDigits(s, 0);
    TrailingDigits(e, base - 1);
    LoOfPrefix(s, base, |s|);
    HiOfPrefix(e, base, |e|);
    assert Every(s, 0) <==> Trailing(s, 0) == |s|;
    assert Every(e, base - 1) <==> Trailing(e, base - 1) == |e|;
  }

  lemma SingletonDigit(d: Digits, base: nat)
    requires |d| == 1
    ensures Lo(d, base, 1) == d[0] && Hi(d, base, 1) == d[0] + 1
  {
    assert d == [] + [d[0]];
    ValueAppend([], d[0], base);
  }

  lemma WholeBlockEnds(s: Digits, e: Digits, base: nat)
    requires base >= 2 && |s| == |e| && AllDigits(e, base) && Every(s, 0) && Every(e, base - 1)
    ensures Lo(s, base, |s|) == 0 && Hi(e, base, |e|) == Pow(base, |e|)
  {
    WholeBlockTest(s, e, base);
    HiOfPrefix(e, base, |e|);
    assert e[..0] == [];
  }

  lemma SingleChain(g: Digits, base: nat, n: nat)
    requires |g| <= n
    ensures Chain([g], base, n, Lo(g, base, n), Hi(g, base, n))
  {
    assert [g][1..] == [];
  }

  lemma UnitRangeChain(p: Digits, from: nat, stop: nat, base: nat)
    requires from <= stop
    ensures var n := |p| + 1;
      Chain(Range(p, from, stop), base, n, Lo(p, base, n) + from, Lo(p, base, n) + stop)
  {
    RangeChain(p, from, stop, base, |p| + 1);
    assert Pow(base, 0) == 1;
    assert from * 1 == from && stop * 1 == stop;
  }

  lemma GroupChain(p: Digits, s: Digits, e: Digits, base: nat, c: nat)
    requires base >= 2 && |s| == |e| > 0 && s[0] < e[0]
    requires AllDigits(s, base) && AllDigits(e, base) && c == Lo(p, base, |p| + |s|)
    ensures Chain(Group(p, s, e, base), base, |p| + |s|, c + Lo(s, base, |s|), c + Hi(e, base, |e|))
  {
    hide Chain, FrontGroupings, BackGroupings;
    var lo, hi := Lo(s, base, |s|), Hi(e, base, |e|);
    if Every(s, 0) && Every(e, base - 1) && p != [] {
      WholeBlockEnds(s, e, base);
      SingleChain(p, base, |p| + |s|);
    } else if |s| == 1 {
      UnitRangeChain(p, s[0], e[0] + 1, base);
      SingletonDigit(s, base);
      SingletonDigit(e, base);
    } else {
      SuffixChain(s, e, base);
      var gs := FrontGroupings(s, base) + Range([], s[0] + 1, e[0]) + BackGroupings(e, base);
      PrefixedChain(p, gs, base, |s|, lo, hi);
      assert Group(p, s, e, base) == WithPrefix(p, gs);
    }
  }

  lemma UnitRangeMaximal(p: Digits, s: Digits, e: Digits, base: nat, c: nat)
    requires |s| == |e| == 1 && c == Lo(p, base, |p| + 1)
    requires NotWhole(base, 1, Lo(s, base, 1), Hi(e, base, 1))
    ensures AllMaximal(Range(p, s[0], e[0] + 1), base, |p| + 1, c + Lo(s, base, 1), c + Hi(e, base, 1))
  {
    hide Lo, Hi, Range, AllMaximal, NotWhole;
    var lo, hi := Lo(s, base, 1), Hi(e, base, 1);
    WiderThan(p, base, |p| + 1, lo, hi);
    RangeMaximal(p, s[0], e[0] + 1, base, |p| + 1, c + lo, c + hi);
  }

  lemma WholePrefixMaximal(p: Digits, s: Digits, e: Digits, base: nat, c: nat)
    requires base >= 2 && |s| == |e| && AllDigits(e, base) && Every(s, 0) && Every(e, base - 1)
    requires p != [] && c == Lo(p, base, |p| + |s|)
    ensures AllMaximal([p], base, |p| + |s|, c + Lo(s, base, |s|), c + Hi(e, base, |e|))
  {
    WholeBlockEnds(s, e, base);
    ParentWider(p, base, |p| + |s|);
  }

  lemma GroupMaximal(p: Digits, s: Digits, e: Digits, base: nat, c: nat)
    requires base >= 2 && |s| == |e| > 0 && s[0] < e[0]
    requires AllDigits(s, base) && AllDigits(e, base) && c == Lo(p, base, |p| + |s|)
    requires p == [] ==> NotWhole(base, |s|, Lo(s, base, |s|), Hi(e, base, |e|))
    ensures AllMaximal(Group(p, s, e, base), base, |p| + |s|, c + Lo(s, base, |s|), c + Hi(e, base, |e|))
  {
    hide Lo, Hi, FrontGroupings, BackGroupings, Maximal;
    WholeBlockTest(s, e, base);
    if Every(s, 0) && Every(e, base - 1) && p != [] {
      WholePrefixMaximal(p, s, e, base, c);
    } else if |s| == 1 {
      UnitRangeMaximal(p, s, e, base, c);
    } else {
      SuffixMaximal(s, e, base);
      var gs := FrontGroupings(s, base) + Range([], s[0] + 1, e[0]) + BackGroupings(e, base);
      PrefixedMaximal(p, gs, base, |s|, Lo(s, base, |s|), Hi(e, base, |e|));
    }
  }

  lemma WiderThan(p: Digits, base: nat, n: nat, lo: nat, hi: nat)
    requires |p| <= n && NotWhole(base, n - |p|, lo, hi)
    ensures var c := Lo(p, base, n); c < c + lo || Hi(p, base, n) > c + hi
  {}

  lemma ParentWider(g: Digits, base: nat, n: nat)
    requires base >= 2 && 0 < |g| <= n
    ensures Maximal(g, base, n, Lo(g, base, n), Hi(g, base, n))
  {
    var f := Parent(g);
    var w := Pow(base, n - |f| - 1);
    assert g == f + [g[|g| - 1]];
    ChildBlock(f, g[|g| - 1], base, n);
    MulStrict(1, base, w);
  }

  // ---------------------------------------------------------------- the whole algorithm

  ghost predicate Interval(start: nat, end: nat, base: nat, n: nat) {
    base >= 2 && start <= end < Pow(base, n)
  }

  lemma SplitDigits(start: nat, end: nat, base: nat, n: nat) returns (p: Digits, s: Digits, e: Digits)
    requires Interval(start, end, base, n) && start < end
    ensures |p| + |s| == n && |s| == |e| > 0 && s[0] != e[0]
    ensures Groupings(start, end, base, n) == Group(p, s, e, base)
    ensures p + s == Decompose(start, base, n) && p + e == Decompose(end, base, n)
  {
    hide Group, Decompose, CommonPrefix;
    var ds, de := Decompose(start, base, n), Decompose(end, base, n);
    var k := CommonPrefix(ds, de);
    DifferentDigits(start, end, base, n);
    CommonPrefixAgrees(ds, de);
    p, s, e := ds[..k], ds[k..], de[k..];
  }

  /** The parts of the two ends' digits that the groupings are computed from. */
  lemma EndDigits(start: nat, end: nat, base: nat, n: nat) returns (p: Digits, s: Digits, e: Digits)
    requires Interval(start, end, base, n) && start < end
    ensures |p| + |s| == n && |s| == |e| > 0 && AllDigits(s, base) && AllDigits(e, base)
    ensures Groupings(start, end, base, n) == Group(p, s, e, base)
    ensures s[0] < e[0]
    ensures start == Lo(p, base, n) + Lo(s, base, |s|) && end + 1 == Lo(p, base, n) + Hi(e, base, |e|)
  {
    p, s, e := SplitDigits(start, end, base, n);
    DecomposeDigits(start, base, n);
    DecomposeDigits(end, base, n);
    SuffixDigits(p, s, base);
    SuffixDigits(p, e, base);
    DecomposeValue(start, base, n);
    DecomposeValue(end, base, n);
    SeparatedEnds(p, s, e, base);
    FirstDigitsOrdered(s, e, base);
  }

  lemma SuffixDigits(p: Digits, s: Digits, base: nat)
    requires AllDigits(p + s, base)
    ensures AllDigits(s, base)
  {
    assert forall i | 0 <= i < |s| :: s[i] == (p + s)[|p| + i];
  }

  lemma SinglePoint(x: nat, base: nat, n: nat)
    requires Interval(x, x, base, n)
    ensures Groupings(x, x, base, n) == [Decompose(x, base, n)]
    ensures Lo(Decompose(x, base, n), base, n) == x && Hi(Decompose(x, base, n), base, n) == x + 1
  {
    var d := Decompose(x, base, n);
    CommonPrefixSelf(d);
    assert d[..n] == d;
    DecomposeValue(x, base, n);
    FullLength(d, base);
  }

  lemma PointChain(x: nat, base: nat, n: nat)
    requires Interval(x, x, base, n)
    ensures Chain(Groupings(x, x, base, n), base, n, x, x + 1)
  {
    var d := Decompose(x, base, n);
    SinglePoint(x, base, n);
    SingleChain(d, base, n);
  }

  lemma GroupChainAt(p: Digits, s: Digits, e: Digits, base: nat, gs: seq<Digits>, n: nat, lo: nat, hi: nat)
    requires base >= 2 && |s| == |e| > 0 && s[0] < e[0] && n == |p| + |s|
    requires AllDigits(s, base) && AllDigits(e, base) && gs == Group(p, s, e, base)
    requires lo == Lo(p, base, n) + Lo(s, base, |s|) && hi == Lo(p, base, n) + Hi(e, base, |e|)
    ensures Chain(gs, base, n, lo, hi)
  {
    hide Group, Lo, Hi, Chain;
    GroupChain(p, s, e, base, Lo(p, base, n));
  }

  /** The returned prefixes are in ascending order and their blocks tile exactly the interval. */
  lemma GroupingsPartition(start: nat, end: nat, base: nat, n: nat)
    requires Interval(start, end, base, n)
    ensures Chain(Groupings(start, end, base, n), base, n, start, end + 1)
  {
    hide Groupings, Group, Lo, Hi, Chain;
    if start == end {
      PointChain(start, base, n);
    } else {
      var p, s, e := EndDigits(start, end, base, n);
      GroupChainAt(p, s, e, base, Groupings(start, end, base, n), n, start, end + 1);
    }
  }

  lemma {:induction false} CommonPrefixSelf(d: Digits)
    ensures CommonPrefix(d, d) == |d|
  {
    if d != [] { CommonPrefixSelf(d[1..]); }
  }

  /** Unless the interval is the whole outcome space, no returned prefix can be shortened. */
  lemma GroupingsMaximal(start: nat, end: nat, base: nat, n: nat)
    requires Interval(start, end, base, n) && NotWhole(base, n, start, end + 1)
    ensures AllMaximal(Groupings(start, end, base, n), base, n, start, end + 1)
  {
    hide Groupings, Group, Lo, Hi, Decompose;
    if start == end {
      SinglePoint(start, base, n);
      ParentWider(Decompose(start, base, n), base, n);
    } else {
      var p, s, e := EndDigits(start, end, base, n);
      GroupMaximal(p, s, e, base, Lo(p, base, n));
    }
  }
}
