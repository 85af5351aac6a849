/** The groupings of the whole outcome space, and empty prefixes. */
module CETWhole {
  import opened Numbers
  import opened CETCalculator
  import opened CETPartition
  import opened CETCover

  lemma {:induction false} LowestDigits(base: nat, n: nat)
    requires base >= 2
    ensures |Decompose(0, base, n)| == n && Every(Decompose(0, base, n), 0)
    decreases n
  {
    if n > 0 {
      LowestDigits(base, n - 1);
      DivUnique(0, base, 0);
    }
  }

  lemma {:induction false} HighestDigits(base: nat, n: nat)
    requires base >= 2
    ensures Pow(base, n) >= 1 && |Decompose(Pow(base, n) - 1, base, n)| == n
    ensures Every(Decompose(Pow(base, n) - 1, base, n), base - 1)
    decreases n
  {
    if n > 0 {
      HighestDigits(base, n - 1);
      var p := Pow(base, n - 1);
      assert Pow(base, n) == base * p;
      LastOfHighest(base, p);
      hide Pow;
    }
  }

  lemma LastOfHighest(base: nat, p: nat)
    requires base >= 2 && p >= 1
    ensures base * p >= 1 && Div(base * p - 1, base) == p - 1 && (base * p - 1) % base == base - 1
  {
    assert base * p - 1 == (p - 1) * base + (base - 1);
    DivUnique(base * p - 1, base, p - 1);
  }

  lemma {:induction false} AllTrailing(digits: Digits, z: nat)
    requires Every(digits, z)
    ensures Trailing(digits, z) == |digits|
  {
    if digits != [] { AllTrailing(digits[..|digits| - 1], z); }
  }

  lemma WholeGroup(s: Digits, e: Digits, base: nat)
    requires base >= 2 && |s| == |e| > 0 && Every(s, 0) && Every(e, base - 1)
    ensures var gs := Group([], s, e, base); |gs| == base && forall d | 0 <= d < base :: gs[d] == [d]
  {
    hide Range, Trailing;
    RangeMembers([], 0, base);
    RangeMembers([], 1, base - 1);
    AllTrailing(s, 0);
    AllTrailing(e, base - 1);
    if |s| > 1 {
      var inner := [[0]] + Range([], 1, base - 1) + [[base - 1]];
      assert Group([], s, e, base) == WithPrefix([], inner);
      forall d | 0 <= d < base ensures WithPrefix([], inner)[d] == [d] {
        assert d == 0 || d == base - 1 || inner[d] == Range([], 1, base - 1)[d - 1];
      }
    }
  }

  /** The whole outcome space of at least one digit is grouped by the first digit. */
  lemma WholeSpace(base: nat, n: nat)
    requires base >= 2 && n > 0
    ensures Pow(base, n) >= 1
    ensures var gs := Groupings(0, Pow(base, n) - 1, base, n);
      |gs| == base && forall d | 0 <= d < base :: gs[d] == [d]
  {
    hide Decompose, Pow, Group;
    LowestDigits(base, n);
    HighestDigits(base, n);
    PowAtLeast(base, n);
    var s, e := Decompose(0, base, n), Decompose(Pow(base, n) - 1, base, n);
    assert CommonPrefix(s, e) == 0;
    assert s[0..] == s && e[0..] == e && s[..0] == [];
    WholeGroup(s, e, base);
  }

  lemma PowAtLeast(base: nat, n: nat)
    requires base >= 2 && n > 0
    ensures Pow(base, n) >= 2
  {
    MulMono(1, Pow(base, n - 1), base);
  }

  /** With at least one digit no returned prefix is empty, whatever the interval. */
  lemma NoEmptyPrefix(start: nat, end: nat, base: nat, n: nat, i: nat)
    requires Interval(start, end, base, n) && n > 0 && i < |Groupings(start, end, base, n)|
    ensures Groupings(start, end, base, n)[i] != []
  {
    hide Groupings, Pow, Lo, Hi;
    if NotWhole(base, n, start, end + 1) {
      GroupingsMaximal(start, end, base, n);
    } else {
      WholeSpace(base, n);
    }
  }

  /** The first outcome with first digit `d`. */
  lemma FirstDigit(d: nat, base: nat, n: nat) returns (x: nat)
    requires base >= 2 && n > 0 && d < base
    ensures x < Pow(base, n) && StartsWith(x, [d], base, n)
  {
    x := Lo([d], base, n);
    BlockInSpace([d], base, n);
    PrefixIsBlock(x, [d], base, n);
  }

  /** An index of a prefix of the cover with first digit `i`, for each `i` below `k`. */
  lemma {:induction false} Firsts(cover: seq<Digits>, base: nat, n: nat, k: nat) returns (f: seq<nat>)
    requires base >= 2 && n > 0 && k <= base && (forall j | 0 <= j < |cover| :: cover[j] != [])
    requires forall x: nat | x < Pow(base, n) :: Covered(x, cover, base, n)
    ensures |f| == k && forall i | 0 <= i < k :: f[i] < |cover| && cover[f[i]] != [] && cover[f[i]][0] == i
    decreases k
  {
    hide StartsWith, Pow;
    f := [];
    if k > 0 {
      var before := Firsts(cover, base, n, k - 1);
      var x := FirstDigit(k - 1, base, n);
      assert Covered(x, cover, base, n);
      var j :| 0 <= j < |cover| && StartsWith(x, cover[j], base, n);
      SameFirst(x, [k - 1], cover[j], base, n);
      f := before + [j];
    }
  }

  lemma SameFirst(x: nat, g: Digits, h: Digits, base: nat, n: nat)
    requires base > 0 && g != [] && h != [] && StartsWith(x, g, base, n) && StartsWith(x, h, base, n)
    ensures g[0] == h[0]
  {}

  /** Whatever the interval, no smaller set of prefixes without the empty one stands for it. */
  lemma MinimalWithoutEmpty(cover: seq<Digits>, start: nat, end: nat, base: nat, n: nat)
    requires Interval(start, end, base, n) && n > 0
    requires Covers(cover, start, end, base, n) && forall j | 0 <= j < |cover| :: cover[j] != []
    ensures |Groupings(start, end, base, n)| <= |cover|
  {
    hide Groupings, Pow, Covered;
    if NotWhole(base, n, start, end + 1) {
      GroupingsMinimal(cover, start, end, base, n);
    } else {
      WholeSpace(base, n);
      var f := Firsts(cover, base, n, base);
      Pigeonhole(f, |cover|);
    }
  }
}
