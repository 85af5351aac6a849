/** What the groupings mean for outcomes: a digit prefix stands for the outcomes whose digits
    start with it. */
module CETCover {
  import opened Numbers
  import opened CETCalculator
  import opened CETPartition

  /** The outcome `x`, written with `n` digits, starts with `g`. */
  predicate StartsWith(x: nat, g: Digits, base: nat, n: nat)
    requires base > 0
  {
    g <= Decompose(x, base, n)
  }

  // ---------------------------------------------------------------- prefixes and blocks

  lemma {:induction false} ValueBound(g: Digits, base: nat)
    requires base > 0 && AllDigits(g, base)
    ensures Value(g, base) < Pow(base, |g|)
  {
    if g != [] {
      var f, x := Parent(g), g[|g| - 1];
      ValueBound(f, base);
      LastDigit(f, x, base);
      assert g == f + [x];
      DivBelow(Value(g, base), base, Pow(base, |f|));
    }
  }

  lemma LastDigit(f: Digits, x: nat, base: nat)
    requires x < base
    ensures Value(f + [x], base) / base == Value(f, base) && Value(f + [x], base) % base == x
  {
    ValueAppend(f, x, base);
    DivUnique(Value(f + [x], base), base, Value(f, base));
  }

  lemma {:induction false} DecomposeOfValue(g: Digits, base: nat)
    requires base > 0 && AllDigits(g, base)
    ensures Decompose(Value(g, base), base, |g|) == g
  {
    if g != [] {
      var f, x := Parent(g), g[|g| - 1];
      DecomposeOfValue(f, base);
      LastDigit(f, x, base);
      assert g == f + [x];
    }
  }

  lemma {:induction false} DecomposePrefix(x: nat, base: nat, n: nat, k: nat)
    requires base > 0 && k <= n
    ensures x / Pow(base, n - k) >= 0
    ensures Decompose(x, base, n)[..k] == Decompose(x / Pow(base, n - k), base, k)
    decreases n
  {
    var p := Pow(base, n - k);
    DivMonotone(0, x, p);
    if k == n {
      assert x / 1 == x;
    } else {
      var q := Pow(base, n - 1 - k);
      DecomposePrefix(Div(x, base), base, n - 1, k);
      DivDiv(x, base, q);
      assert p == base * q;
      assert Decompose(x, base, n)[..k] == Decompose(Div(x, base), base, n - 1)[..k];
    }
  }

  /** The outcomes that start with `g` are exactly the ones of its block. */
  lemma PrefixIsBlock(x: nat, g: Digits, base: nat, n: nat)
    requires base > 0 && AllDigits(g, base) && |g| <= n && x < Pow(base, n)
    ensures StartsWith(x, g, base, n) <==> Lo(g, base, n) <= x < Hi(g, base, n)
  {
    var k, w := |g|, Width(g, base, n);
    var d := Decompose(x, base, n);
    DecomposePrefix(x, base, n, k);
    PowAdd(base, n - k, k);
    DivBelow(x, w, Pow(base, k));
    ValueBound(g, base);
    DecomposeOfValue(g, base);
    DecomposeValue(x / w, base, k);
    DivUnique(x, w, Value(g, base));
    assert g <= d <==> d[..k] == g;
  }

  lemma BlockInSpace(g: Digits, base: nat, n: nat)
    requires base > 0 && AllDigits(g, base) && |g| <= n
    ensures Lo(g, base, n) < Hi(g, base, n) <= Pow(base, n)
  {
    var w := Width(g, base, n);
    ValueBound(g, base);
    PowAdd(base, |g|, n - |g|);
    MulStrict(Value(g, base), Pow(base, |g|), w);
  }

  // ---------------------------------------------------------------- chains

  lemma {:induction false} ChainBlocks(gs: seq<Digits>, base: nat, n: nat, lo: nat, hi: nat, i: nat)
    requires Chain(gs, base, n, lo, hi) && i < |gs|
    ensures |gs[i]| <= n && lo <= Lo(gs[i], base, n) && Hi(gs[i], base, n) <= hi
    decreases |gs|
  {
    if i > 0 {
      ChainBlocks(gs[1..], base, n, Hi(gs[0], base, n), hi, i - 1);
    } else {
      ChainRises(gs[1..], base, n, Hi(gs[0], base, n), hi);
    }
  }

  lemma {:induction false} ChainRises(gs: seq<Digits>, base: nat, n: nat, lo: nat, hi: nat)
    requires Chain(gs, base, n, lo, hi)
    ensures lo <= hi
    decreases |gs|
  {
    if gs != [] { ChainRises(gs[1..], base, n, Hi(gs[0], base, n), hi); }
  }

  /** Later blocks lie above earlier ones. */
  lemma {:induction false} ChainAscends(gs: seq<Digits>, base: nat, n: nat, lo: nat, hi: nat, i: nat, j: nat)
    requires Chain(gs, base, n, lo, hi) && i < j < |gs|
    ensures |gs[i]| <= n && |gs[j]| <= n && Hi(gs[i], base, n) <= Lo(gs[j], base, n)
    decreases |gs|
  {
    if i > 0 {
      ChainAscends(gs[1..], base, n, Hi(gs[0], base, n), hi, i - 1, j - 1);
    } else {
      ChainBlocks(gs[1..], base, n, Hi(gs[0], base, n), hi, j - 1);
    }
  }

  lemma {:induction false} ChainHits(gs: seq<Digits>, base: nat, n: nat, lo: nat, hi: nat, x: nat)
    returns (i: nat)
    requires Chain(gs, base, n, lo, hi) && lo <= x < hi
    ensures i < |gs| && |gs[i]| <= n && Lo(gs[i], base, n) <= x < Hi(gs[i], base, n)
    decreases |gs|
  {
    if x < Hi(gs[0], base, n) {
      i := 0;
    } else {
      var j := ChainHits(gs[1..], base, n, Hi(gs[0], base, n), hi, x);
      i := j + 1;
    }
  }

  // ---------------------------------------------------------------- the returned digits are digits

  predicate AllGroups(gs: seq<Digits>, base: nat) {
    forall i | 0 <= i < |gs| :: AllDigits(gs[i], base)
  }

  lemma RangeDigits(f: Digits, from: nat, stop: nat, base: nat)
    requires AllDigits(f, base) && stop <= base
    ensures AllGroups(Range(f, from, stop), base)
  {
    RangeMembers(f, from, stop);
  }

  lemma {:induction false} FromFrontDigits(d: Digits, base: nat, i: nat)
    requires AllDigits(d, base)
    ensures AllGroups(FromFront(d, base, i), base)
    decreases |d| - i
  {
    if i + 1 < |d| {
      RangeDigits(d[..|d| - 1 - i], d[|d| - 1 - i] + 1, base, base);
      FromFrontDigits(d, base, i + 1);
    }
  }

  lemma {:induction false} FromBackDigits(d: Digits, base: nat, i: nat)
    requires AllDigits(d, base)
    ensures AllGroups(FromBack(d, i), base)
    decreases |d| - i
  {
    if i + 1 < |d| {
      RangeDigits(d[..|d| - 1 - i], 0, d[|d| - 1 - i], base);
      FromBackDigits(d, base, i + 1);
    }
  }

  lemma SuffixGroupDigits(s: Digits, e: Digits, base: nat)
    requires base >= 2 && |s| == |e| > 0 && AllDigits(s, base) && AllDigits(e, base)
    ensures AllGroups(FrontGroupings(s, base), base)
    ensures AllGroups(BackGroupings(e, base), base)
    ensures AllGroups(Range([], s[0] + 1, e[0]), base)
  {
    hide FromFront, FromBack, Range, Trailing;
    FromFrontDigits(s, base, Trailing(s, 0));
    FromBackDigits(e, base, Trailing(e, base - 1));
    RangeDigits([], s[0] + 1, e[0], base);
  }

  lemma PrefixedDigits(p: Digits, gs: seq<Digits>, base: nat)
    requires AllDigits(p, base) && AllGroups(gs, base)
    ensures AllGroups(WithPrefix(p, gs), base)
  {}

  lemma GroupDigits(p: Digits, s: Digits, e: Digits, base: nat)
    requires base >= 2 && |s| == |e| > 0
    requires AllDigits(p, base) && AllDigits(s, base) && AllDigits(e, base)
    ensures AllGroups(Group(p, s, e, base), base)
  {
    SuffixGroupDigits(s, e, base);
    RangeDigits(p, s[0], e[0] + 1, base);
    PrefixedDigits(p, FrontGroupings(s, base) + Range([], s[0] + 1, e[0]) + BackGroupings(e, base), base);
  }

  lemma GroupingsDigits(start: nat, end: nat, base: nat, n: nat)
    requires Interval(start, end, base, n)
    ensures AllGroups(Groupings(start, end, base, n), base)
  {
    DecomposeDigits(start, base, n);
    DecomposeDigits(end, base, n);
    if start == end {
      SinglePoint(start, base, n);
    } else {
      var p, s, e := SplitDigits(start, end, base, n);
      SuffixDigits(p, s, base);
      SuffixDigits(p, e, base);
      assert AllDigits(p, base) by { assert forall i | 0 <= i < |p| :: p[i] == (p + s)[i]; }
      GroupDigits(p, s, e, base);
    }
  }

  // ---------------------------------------------------------------- main results

  /** The outcome `x` starts with one of the prefixes. */
  ghost predicate Covered(x: nat, gs: seq<Digits>, base: nat, n: nat)
    requires base > 0
  {
    exists i | 0 <= i < |gs| :: StartsWith(x, gs[i], base, n)
  }

  /** A returned prefix stands for a block of its own within the interval. */
  lemma ReturnedBlock(start: nat, end: nat, base: nat, n: nat, i: nat)
    requires Interval(start, end, base, n) && i < |Groupings(start, end, base, n)|
    ensures var g := Groupings(start, end, base, n)[i];
      AllDigits(g, base) && |g| <= n &&
      start <= Lo(g, base, n) < Hi(g, base, n) <= end + 1 &&
      forall x: nat | x < Pow(base, n) :: StartsWith(x, g, base, n) <==> Lo(g, base, n) <= x < Hi(g, base, n)
  {
    hide Groupings, Lo, Hi, StartsWith, Chain;
    var gs := Groupings(start, end, base, n);
    GroupingsPartition(start, end, base, n);
    GroupingsDigits(start, end, base, n);
    ChainBlocks(gs, base, n, start, end + 1, i);
    BlockInSpace(gs[i], base, n);
    forall x: nat | x < Pow(base, n)
      ensures StartsWith(x, gs[i], base, n) <==> Lo(gs[i], base, n) <= x < Hi(gs[i], base, n)
    {
      PrefixIsBlock(x, gs[i], base, n);
    }
  }

  /** The outcomes that start with a returned prefix are exactly those of the interval. */
  lemma GroupingsExact(start: nat, end: nat, base: nat, n: nat, x: nat)
    requires Interval(start, end, base, n) && x < Pow(base, n)
    ensures Covered(x, Groupings(start, end, base, n), base, n) <==> start <= x <= end
  {
    hide Groupings, Lo, Hi, StartsWith, Chain;
    var gs := Groupings(start, end, base, n);
    if Covered(x, gs, base, n) {
      var i :| 0 <= i < |gs| && StartsWith(x, gs[i], base, n);
      ReturnedBlock(start, end, base, n, i);
    }
    if start <= x <= end {
      GroupingsPartition(start, end, base, n);
      var i := ChainHits(gs, base, n, start, end + 1, x);
      ReturnedBlock(start, end, base, n, i);
    }
  }

  /** No outcome starts with two of the returned prefixes. */
  lemma GroupingsDisjoint(start: nat, end: nat, base: nat, n: nat, x: nat, i: nat, j: nat)
    requires Interval(start, end, base, n) && x < Pow(base, n)
    requires i <= j < |Groupings(start, end, base, n)|
    requires StartsWith(x, Groupings(start, end, base, n)[i], base, n)
    requires StartsWith(x, Groupings(start, end, base, n)[j], base, n)
    ensures i == j
  {
    hide Groupings, Lo, Hi, StartsWith, Chain;
    ReturnedBlock(start, end, base, n, i);
    ReturnedBlock(start, end, base, n, j);
    GroupingsPartition(start, end, base, n);
    if i < j {
      ChainAscends(Groupings(start, end, base, n), base, n, start, end + 1, i, j);
    }
  }

  /** `cover` stands for exactly the outcomes of the interval. */
  ghost predicate Covers(cover: seq<Digits>, start: nat, end: nat, base: nat, n: nat)
    requires base > 0
  {
    && (forall j | 0 <= j < |cover| :: AllDigits(cover[j], base) && |cover[j]| <= n)
    && (forall x: nat | x < Pow(base, n) :: Covered(x, cover, base, n) <==> start <= x <= end)
  }

  /** Beyond the interval, the parent of a maximal prefix has an outcome. */
  lemma ParentEscapes(g: Digits, start: nat, end: nat, base: nat, n: nat) returns (y: nat)
    requires Interval(start, end, base, n)
    requires AllDigits(g, base) && Maximal(g, base, n, start, end + 1)
    ensures y < Pow(base, n) && !(start <= y <= end) && StartsWith(y, Parent(g), base, n)
  {
    var f := Parent(g);
    BlockInSpace(f, base, n);
    y := if Lo(f, base, n) < start then Lo(f, base, n) else Hi(f, base, n) - 1;
    PrefixIsBlock(y, f, base, n);
  }

  /** In any cover, the first outcome of a maximal prefix is covered by an extension of it. */
  lemma CoverExtends(cover: seq<Digits>, g: Digits, start: nat, end: nat, base: nat, n: nat) returns (j: nat)
    requires Interval(start, end, base, n) && Covers(cover, start, end, base, n)
    requires AllDigits(g, base) && Maximal(g, base, n, start, end + 1)
    requires start <= Lo(g, base, n) <= end
    ensures j < |cover| && g <= cover[j]
  {
    var x := Lo(g, base, n);
    BlockInSpace(g, base, n);
    PrefixIsBlock(x, g, base, n);
    assert Covered(x, cover, base, n);
    j :| 0 <= j < |cover| && StartsWith(x, cover[j], base, n);
    var y := ParentEscapes(g, start, end, base, n);
    assert !Covered(y, cover, base, n);
    assert !StartsWith(y, cover[j], base, n);
  }

  lemma {:induction false} Pigeonhole(f: seq<nat>, m: nat)
    requires forall i | 0 <= i < |f| :: f[i] < m
    requires forall i, j | 0 <= i < j < |f| :: f[i] != f[j]
    ensures |f| <= m
    decreases m
  {
    assert f != [] ==> f[0] < m;
    if m > 0 {
      if k :| 0 <= k < |f| && f[k] == m - 1 {
        Pigeonhole(f[..k] + f[k + 1..], m - 1);
      } else {
        Pigeonhole(f, m - 1);
      }
    }
  }

  /** Two returned prefixes have no common extension. */
  lemma NoSharedExtension(c: Digits, start: nat, end: nat, base: nat, n: nat, i: nat, j: nat)
    requires Interval(start, end, base, n) && i <= j < |Groupings(start, end, base, n)|
    requires AllDigits(c, base) && |c| <= n
    requires Groupings(start, end, base, n)[i] <= c && Groupings(start, end, base, n)[j] <= c
    ensures i == j
  {
    var x := Lo(c, base, n);
    BlockInSpace(c, base, n);
    PrefixIsBlock(x, c, base, n);
    GroupingsDisjoint(start, end, base, n, x, i, j);
  }

  lemma ExtendingIndex(cover: seq<Digits>, start: nat, end: nat, base: nat, n: nat, i: nat) returns (j: nat)
    requires Interval(start, end, base, n) && NotWhole(base, n, start, end + 1)
    requires Covers(cover, start, end, base, n) && i < |Groupings(start, end, base, n)|
    ensures j < |cover| && Groupings(start, end, base, n)[i] <= cover[j]
  {
    ReturnedBlock(start, end, base, n, i);
    GroupingsMaximal(start, end, base, n);
    j := CoverExtends(cover, Groupings(start, end, base, n)[i], start, end, base, n);
  }

  /** An index of an extension of each of the first `k` returned prefixes. */
  lemma {:induction false} Extensions(cover: seq<Digits>, start: nat, end: nat, base: nat, n: nat, k: nat)
    returns (f: seq<nat>)
    requires Interval(start, end, base, n) && NotWhole(base, n, start, end + 1)
    requires Covers(cover, start, end, base, n) && k <= |Groupings(start, end, base, n)|
    ensures |f| == k
    ensures forall i | 0 <= i < k :: f[i] < |cover| && Groupings(start, end, base, n)[i] <= cover[f[i]]
    decreases k
  {
    hide Lo, Hi, Groupings, StartsWith, Covers;
    f := [];
    if k > 0 {
      var before := Extensions(cover, start, end, base, n, k - 1);
      var j := ExtendingIndex(cover, start, end, base, n, k - 1);
      f := before + [j];
    }
  }

  /** No smaller set of digit prefixes stands for the same outcomes. */
  lemma GroupingsMinimal(cover: seq<Digits>, start: nat, end: nat, base: nat, n: nat)
    requires Interval(start, end, base, n) && NotWhole(base, n, start, end + 1)
    requires Covers(cover, start, end, base, n)
    ensures |Groupings(start, end, base, n)| <= |cover|
  {
    var f := Extensions(cover, start, end, base, n, |Groupings(start, end, base, n)|);
    forall i, j | 0 <= i < j < |f|
      ensures f[i] != f[j]
    {
      if f[i] == f[j] { NoSharedExtension(cover[f[i]], start, end, base, n, i, j); }
    }
    Pigeonhole(f, |cover|);
  }
}
