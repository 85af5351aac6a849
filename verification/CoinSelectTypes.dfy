/** For which script types the greedy selection is a smallest one. */
module CoinSelectTypes {
  import opened Sorting
  import opened TxFinalizer
  import opened Wrappers
  import opened CoinSelect

  /** The selection is no larger than any non-empty choice that pays, and is empty only if there is none. */
  ghost predicate Smallest(utxos: seq<UTXO>, collaterals: seq<nat>, feeRate: nat) {
    forall sub: seq<UTXO> | sub != [] && multiset(sub) <= multiset(utxos) && Funds(sub, collaterals, feeRate) ::
      0 < |Select(utxos, collaterals, feeRate)| <= |sub|
  }

  function Types(utxos: seq<UTXO>): (types: seq<ScriptType>)
    ensures |types| == |utxos| && forall i | 0 <= i < |utxos| :: types[i] == utxos[i].Type()
  {
    seq(|utxos|, i requires 0 <= i < |utxos| => utxos[i].Type())
  }

  // ---------------------------------------------------------------- small sums

  lemma SumTwo<T>(a: T, b: T, f: T -> int)
    ensures Sum([a, b], f) == f(a) + f(b)
  {
    hide Sum;
    assert [a, b] == [a] + [b];
    SumConcat([a], [b], f);
    SumSingle(a, f);
    SumSingle(b, f);
  }

  function AsInput(x: UTXO): FundingInput {
    FundingInput(0, 0, MaxWitnessLen(x.Type()), 0, "")
  }

  lemma FeeOfOne(x: UTXO, collaterals: seq<nat>, feeRate: nat)
    ensures FeeOf([x], collaterals, feeRate) ==
      feeRate * VBytes(337 * |collaterals|) +
      feeRate * VBytes(145 + 86 * |collaterals| + 164 + MaxWitnessLen(x.Type()))
  {
    hide Sum, MaxWitnessLen;
    assert WitnessInputs(WitnessLens([x])) == [AsInput(x)];
    SumSingle(AsInput(x), InputWeight);
  }

  lemma FeeOfTwo(x: UTXO, y: UTXO, collaterals: seq<nat>, feeRate: nat)
    ensures FeeOf([x, y], collaterals, feeRate) ==
      feeRate * VBytes(337 * |collaterals|) +
      feeRate * VBytes(145 + 86 * |collaterals| + 328 + MaxWitnessLen(x.Type()) + MaxWitnessLen(y.Type()))
  {
    hide Sum, MaxWitnessLen;
    assert WitnessInputs(WitnessLens([x, y])) == [AsInput(x), AsInput(y)];
    SumTwo(AsInput(x), AsInput(y), InputWeight);
  }

  lemma FundsOne(x: UTXO, collaterals: seq<nat>, feeRate: nat)
    ensures Funds([x], collaterals, feeRate) <==>
      x.value >= Sum(collaterals, Collateral) + 68 * feeRate + FeeOf([x], collaterals, feeRate)
  {
    hide Sum, FeeOf;
    SumSingle(x, Amount);
  }

  lemma FundsTwo(x: UTXO, y: UTXO, collaterals: seq<nat>, feeRate: nat)
    ensures Funds([x, y], collaterals, feeRate) <==>
      x.value + y.value >= Sum(collaterals, Collateral) + 68 * feeRate + FeeOf([x, y], collaterals, feeRate)
  {
    hide Sum, FeeOf;
    SumTwo(x, y, Amount);
  }

  // ---------------------------------------------------------------- a single output

  /** Whoever pays for everything is not detrimental. */
  lemma PayerScores(x: UTXO, collaterals: seq<nat>, feeRate: nat)
    requires Funds([x], collaterals, feeRate)
    ensures UtxoScore(x, feeRate) >= 0
  {
    FundsOne(x, collaterals, feeRate);
    FeeOfOne(x, collaterals, feeRate);
    SumNonNegative(collaterals, Collateral);
    var weight := 145 + 86 * |collaterals| + 164 + MaxWitnessLen(x.Type());
    assert InputBytes(x) <= VBytes(weight);
    MulMore(feeRate, VBytes(337 * |collaterals|), VBytes(weight), InputBytes(x));
  }

  lemma MulMore(rate: nat, a: nat, b: nat, less: nat)
    requires less <= b
    ensures rate * a >= 0 && rate * less <= rate * b
  {
    MulNat(rate, a);
    MulNat(rate, b - less);
    assert rate * b == rate * less + rate * (b - less);
  }

  lemma SingleSmallest(x: UTXO, collaterals: seq<nat>, feeRate: nat)
    ensures Smallest([x], collaterals, feeRate)
  {
    forall sub: seq<UTXO> | sub != [] && multiset(sub) <= multiset([x]) && Funds(sub, collaterals, feeRate)
      ensures |Select([x], collaterals, feeRate)| == 1 <= |sub|
    {
      SubOfSingle(x, sub);
      PayerScores(x, collaterals, feeRate);
      SortedSingle(x, feeRate);
      hide Funds, UtxoScore, ByScore;
      assert [x][..1] == [x];
    }
  }

  lemma SubOfSingle<T>(x: T, sub: seq<T>)
    requires sub != [] && multiset(sub) <= multiset([x])
    ensures sub == [x]
  {
    assert |multiset(sub)| == |sub|;
    assert multiset([x])[x] == 1 && |multiset([x])| == 1;
    assert sub[0] in multiset(sub);
    MultisetCard(multiset(sub), multiset([x]));
  }

  lemma MultisetCard<T>(a: multiset<T>, b: multiset<T>)
    requires a <= b
    ensures |a| <= |b|
  {
    assert b == a + (b - a);
  }

  lemma SortedSingle(x: UTXO, feeRate: nat)
    ensures ByScore([x], feeRate) == [x]
  {
    var one := [x];
    assert one[..|one| - 1] == [];
    assert SortBy(one, Key(feeRate)) == Insert([], x, Key(feeRate)) == [x];
  }

  // ---------------------------------------------------------------- where it fails

  /** Only one output is not detrimental: the selection considers it and nothing else. */
  lemma OneCandidate(a: seq<UTXO>, x: UTXO, b: seq<UTXO>, feeRate: nat) returns (rest: seq<UTXO>)
    requires UtxoScore(x, feeRate) >= 0 && forall u | u in a + b :: UtxoScore(u, feeRate) < 0
    ensures ByScore(a + [x] + b, feeRate) == [x] + rest
    ensures rest == [] || UtxoScore(rest[0], feeRate) < 0
  {
    var utxos := a + [x] + b;
    var sorted := ByScore(utxos, feeRate);
    hide UtxoScore, ByScore;
    FirstIsBest(utxos, x, feeRate);
    ByScoreSorts(utxos, feeRate);
    rest := sorted[1..];
    assert sorted == [x] + rest;
    assert multiset(sorted) == multiset{x} + multiset(rest);
    assert multiset(utxos) == multiset(a + b) + multiset{x};
    SubBag(multiset(rest), multiset(a + b), x);
    if rest != [] {
      assert rest[0] in multiset(rest);
      assert rest[0] in multiset(a + b);
    }
  }

  lemma ByScoreSorts(utxos: seq<UTXO>, feeRate: nat)
    ensures multiset(ByScore(utxos, feeRate)) == multiset(utxos) && Sorted(ByScore(utxos, feeRate), Key(feeRate))
  {
    SortPermutes(utxos, Key(feeRate));
    SortSorts(utxos, Key(feeRate));
  }

  /** An output that scores higher than all others comes first. */
  lemma FirstIsBest(utxos: seq<UTXO>, x: UTXO, feeRate: nat)
    requires x in utxos && forall u | u in utxos && u != x :: UtxoScore(u, feeRate) < UtxoScore(x, feeRate)
    ensures ByScore(utxos, feeRate) != [] && ByScore(utxos, feeRate)[0] == x
  {
    hide UtxoScore, ByScore, Sorted;
    var sorted := ByScore(utxos, feeRate);
    ByScoreSorts(utxos, feeRate);
    assert x in multiset(utxos);
    assert x in multiset(sorted);
    var p :| 0 <= p < |sorted| && sorted[p] == x;
    ScoresDescend(sorted, feeRate, 0, p);
    assert sorted[0] in multiset(sorted);
  }

  /** One taproot output would do, but one with a 108-byte witness scores a little higher and does
      not: each input's size is rounded up on its own in the score and all together in the fee. */
  lemma MixedTypesNotSmallest(utxos: seq<UTXO>, x: UTXO, y: UTXO, collaterals: seq<nat>)
    requires x in utxos && y in utxos && forall u | u in utxos :: u == x || u == y || u.value == 0
    requires x.value == 584500 && x.Type() != P2tr && y.value == 574000 && y.Type() == P2tr
    requires collaterals == [100000, 100000]
    ensures Funds([y], collaterals, 1000) && |Select(utxos, collaterals, 1000)| != 1
  {
    AloneFor200000(x, collaterals);
    AloneFor200000(y, collaterals);
    assert UtxoScore(x, 1000) == 516500 && UtxoScore(y, 1000) == 516000;
    hide Funds, FeeOf, ByScore, SelectFrom;
    FirstIsBest(utxos, x, 1000);
    NotAlone(ByScore(utxos, 1000), collaterals, 1000);
  }

  /** What one output must be worth to pay for two collaterals of 100000. */
  lemma AloneFor200000(x: UTXO, collaterals: seq<nat>)
    requires collaterals == [100000, 100000]
    ensures Funds([x], collaterals, 1000) <==> x.value >= if x.Type() == P2tr then 574000 else 585000
  {
    SumTwo<nat>(100000, 100000, Collateral);
    FundsOne(x, collaterals, 1000);
    FeeOfOne(x, collaterals, 1000);
    hide FeeOf, Sum, Funds;
  }

  lemma NotAlone(sorted: seq<UTXO>, collaterals: seq<nat>, feeRate: nat)
    requires sorted != [] && !Funds([sorted[0]], collaterals, feeRate)
    ensures |SelectFrom(sorted, 0, collaterals, feeRate)| != 1
  {
    assert sorted[..1] == [sorted[0]];
    if UtxoScore(sorted[0], feeRate) >= 0 {
      LaterSelection(sorted, 1, collaterals, feeRate);
    }
  }

  lemma {:induction false} LaterSelection(sorted: seq<UTXO>, k: nat, collaterals: seq<nat>, feeRate: nat)
    requires k <= |sorted|
    ensures var r := SelectFrom(sorted, k, collaterals, feeRate); r == [] || |r| > k
    decreases |sorted| - k
  {
    hide Funds, UtxoScore;
    if k < |sorted| { LaterSelection(sorted, k + 1, collaterals, feeRate); }
  }

  /** Two taproot outputs pay together, but the second one's own fee, rounded up, is more than its
      value: it is passed over and nothing is selected. */
  lemma TaprootNotSmallest(a: seq<UTXO>, x: UTXO, b: seq<UTXO>, y: UTXO, collaterals: seq<nat>)
    requires x.value == 368500 && y.value == 57500 && x.Type() == y.Type() == P2tr
    requires y in a + b && forall u | u in a + b :: u == y || u.value == 0
    requires collaterals == [100000]
    ensures Funds([x, y], collaterals, 1000) && Select(a + [x] + b, collaterals, 1000) == []
  {
    SumSingle<nat>(100000, Collateral);
    FundsTwo(x, y, collaterals, 1000);
    FeeOfTwo(x, y, collaterals, 1000);
    FundsOne(x, collaterals, 1000);
    FeeOfOne(x, collaterals, 1000);
    var rest := OneCandidate(a, x, b, 1000);
    SecondDetrimental(x, rest, collaterals, 1000);
  }

  lemma SecondDetrimental(x: UTXO, rest: seq<UTXO>, collaterals: seq<nat>, feeRate: nat)
    requires !Funds([x], collaterals, feeRate) && (rest == [] || UtxoScore(rest[0], feeRate) < 0)
    ensures SelectFrom([x] + rest, 0, collaterals, feeRate) == []
  {
    hide Funds, UtxoScore;
    var sorted := [x] + rest;
    assert sorted[..1] == [x];
    assert SelectFrom(sorted, 1, collaterals, feeRate) == [];
  }

  // ---------------------------------------------------------------- the condition

  function Outputs(types: seq<ScriptType>, i: nat, x: nat, j: nat, y: nat): (utxos: seq<UTXO>)
    ensures Types(utxos) == types
  {
    seq(|types|, q requires 0 <= q < |types| => 
      UTXO("", q, if q == i then x else if q == j then y else 0, "", [], Some(types[q])))
  }

  /** With a taproot output and another one there are values for which the selection is not smallest. */
  lemma FailsSomewhere(types: seq<ScriptType>) returns (utxos: seq<UTXO>, collaterals: seq<nat>)
    requires P2tr in types && |types| >= 2
    ensures Types(utxos) == types && !Smallest(utxos, collaterals, 1000)
  {
    var i :| 0 <= i < |types| && types[i] == P2tr;
    var j := if i == 0 then 1 else 0;
    if types[j] == P2tr {
      utxos, collaterals := Outputs(types, i, 368500, j, 57500), [100000];
      TaprootFails(utxos, i, j, collaterals);
    } else {
      utxos, collaterals := Outputs(types, i, 574000, j, 584500), [100000, 100000];
      MixedFails(utxos, i, j, collaterals);
    }
  }

  lemma TaprootFails(utxos: seq<UTXO>, i: nat, j: nat, collaterals: seq<nat>)
    requires i < |utxos| && j < |utxos| && i != j && collaterals == [100000]
    requires utxos[i].value == 368500 && utxos[j].value == 57500 && utxos[i].Type() == utxos[j].Type() == P2tr
    requires forall q | 0 <= q < |utxos| && q != i && q != j :: utxos[q].value == 0
    ensures !Smallest(utxos, collaterals, 1000)
  {
    hide Select, Funds;
    var a, x, b, y := utxos[..i], utxos[i], utxos[i + 1..], utxos[j];
    assert utxos == a + [x] + b;
    assert y in a + b by { assert if j < i then a[j] == y else b[j - i - 1] == y; }
    TaprootNotSmallest(a, x, b, y, collaterals);
    PairWithin(utxos, i, j);
  }

  lemma MixedFails(utxos: seq<UTXO>, i: nat, j: nat, collaterals: seq<nat>)
    requires i < |utxos| && j < |utxos| && collaterals == [100000, 100000]
    requires utxos[i].value == 574000 && utxos[j].value == 584500 && utxos[i].Type() == P2tr != utxos[j].Type()
    requires forall q | 0 <= q < |utxos| && q != i && q != j :: utxos[q].value == 0
    ensures !Smallest(utxos, collaterals, 1000)
  {
    hide Select, Funds;
    MixedTypesNotSmallest(utxos, utxos[j], utxos[i], collaterals);
    assert multiset([utxos[i]]) <= multiset(utxos);
  }

  lemma PairWithin<T>(s: seq<T>, i: nat, j: nat)
    requires i < |s| && j < |s| && i != j
    ensures multiset([s[i], s[j]]) <= multiset(s)
    decreases i
  {
    if i > j { PairWithin(s, j, i); } else {
      var front := s[..j];
      assert s == front + [s[j]] + s[j + 1..];
      assert multiset(front) >= multiset{front[i]};
    }
  }

  /** The selection is a smallest one, for all values, collaterals and fee rates, exactly when there
      is no taproot output or there are fewer than two outputs. */
  lemma SmallestIff(types: seq<ScriptType>)
    ensures (forall utxos: seq<UTXO>, collaterals: seq<nat>, feeRate: nat | Types(utxos) == types ::
               Smallest(utxos, collaterals, feeRate))
      <==> P2tr !in types || |types| < 2
  {
    if P2tr in types && |types| >= 2 {
      var utxos, collaterals := FailsSomewhere(types);
    } else {
      forall utxos: seq<UTXO>, collaterals: seq<nat>, feeRate: nat | Types(utxos) == types
        ensures Smallest(utxos, collaterals, feeRate)
      {
        SmallestFor(utxos, collaterals, feeRate);
      }
    }
  }

  lemma SmallestFor(utxos: seq<UTXO>, collaterals: seq<nat>, feeRate: nat)
    requires P2tr !in Types(utxos) || |utxos| < 2
    ensures Smallest(utxos, collaterals, feeRate)
  {
    if P2tr !in Types(utxos) {
      assert forall i | 0 <= i < |utxos| :: utxos[i].Type() == Types(utxos)[i];
      assert Uniform(utxos);
      forall sub: seq<UTXO> | sub != [] && multiset(sub) <= multiset(utxos) && Funds(sub, collaterals, feeRate)
        ensures 0 < |Select(utxos, collaterals, feeRate)| <= |sub|
      {
        SelectSmallest(utxos, collaterals, feeRate, sub);
      }
    } else {
      assert utxos == [utxos[0]];
      SingleSmallest(utxos[0], collaterals, feeRate);
    }
  }
}
