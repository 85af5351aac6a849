/** packages/core/lib/dlc/CoinSelect.ts: greedy selection of funding inputs. */
module CoinSelect {
  import opened Sorting
  import opened TxFinalizer
  import opened Wrappers

  datatype ScriptType = P2wpkh | P2wsh | P2tr

  type Bytes = seq<bv8>

  /** A spendable output. `scriptPubKey` is empty when the source has none, and stands for the bytes
      that a hexadecimal text spells. */
  datatype UTXO = UTXO(
    txid: string, vout: nat, value: nat, address: string, scriptPubKey: Bytes, scriptType: Option<ScriptType>)
  {
    /** `scriptTypeFromUtxo`: as stated, else by the pattern of the script, else by the address. */
    function Type(): ScriptType {
      if scriptType.Some? then scriptType.value
      else if |scriptPubKey| == 34 && scriptPubKey[..2] == [0x51, 0x20] then P2tr
      else if |scriptPubKey| == 34 && scriptPubKey[..2] == [0x00, 0x20] then P2wsh
      else if TaprootAddress(address) then P2tr
      else P2wpkh
    }
  }

  function Lower(c: char): char {
    if 'A' <= c <= 'Z' then c - 'A' + 'a' else c
  }

  function LowerAll(s: string): string {
    seq(|s|, i requires 0 <= i < |s| => Lower(s[i]))
  }

  /** The address starts with bc1p, tb1p or bcrt1p in any case. */
  predicate TaprootAddress(address: string) {
    var a := LowerAll(address);
    "bc1p" <= a || "tb1p" <= a || "bcrt1p" <= a
  }

  /** Scripts of a version and a 32-byte program, and others, when no type is stated. */
  lemma TypeOfScript(x: UTXO, program: Bytes)
    requires x.scriptType.None? && |program| == 32
    ensures x.scriptPubKey == [0x51, 0x20] + program ==> x.Type() == P2tr
    ensures x.scriptPubKey == [0x00, 0x20] + program ==> x.Type() == P2wsh
  {}

  /** Taproot addresses of the main, test and regression networks, in either case. */
  lemma TypeOfAddress(x: UTXO, rest: string)
    requires x.scriptType.None? && x.scriptPubKey == []
    ensures (exists head: string | head in {"bc1p", "BC1P", "tb1p", "TB1P", "bcrt1p", "BCRT1P"} ::
               x.address == head + rest) ==> x.Type() == P2tr
    ensures x.address == "bc1q" + rest || x.address == "tb1q" + rest || x.address == "bcrt1q" + rest ==>
      x.Type() == P2wpkh
  {
    var a := LowerAll(x.address);
    if x.address == "bc1q" + rest { assert a[3] == 'q'; }
    if x.address == "tb1q" + rest { assert a[3] == 'q' && a[0] == 't'; }
    if x.address == "bcrt1q" + rest { assert a[5] == 'q' && a[2] == 'r'; }
    if head :| head in {"bc1p", "BC1P", "tb1p", "TB1P", "bcrt1p", "BCRT1P"} && x.address == head + rest {
      assert LowerAll(head) <= a;
    }
  }

  function MaxWitnessLen(t: ScriptType): nat {
    match t
    case P2wpkh => 108
    case P2wsh => 108
    case P2tr => 66
  }

  function InputBytes(x: UTXO): nat {
    InputVBytes(MaxWitnessLen(x.Type()))
  }

  function Fee(x: UTXO, feeRate: nat): nat {
    MulNat(feeRate, InputBytes(x));
    feeRate * InputBytes(x)
  }

  /** `dustThreshold` without a UTXO */
  function DustThreshold(feeRate: nat): nat {
    MulNat(feeRate, InputVBytes(DEFAULT_MAX_WITNESS_LEN));
    InputVBytes(DEFAULT_MAX_WITNESS_LEN) * feeRate
  }

  function UtxoScore(x: UTXO, feeRate: nat): int {
    x.value - Fee(x, feeRate)
  }

  const FAKE_SPK_LEN: nat := 22

  function WitnessInputs(lens: seq<nat>): seq<FundingInput> {
    seq(|lens|, i requires 0 <= i < |lens| => FundingInput(0, 0, lens[i], 0, ""))
  }

  /** `dualFees` */
  function DualFees(feeRate: nat, lens: seq<nat>, numContracts: nat): nat {
    var inputs := WitnessInputs(lens);
    FutureFee(inputs, FAKE_SPK_LEN, feeRate, numContracts) + FundingFee(inputs, FAKE_SPK_LEN, feeRate, numContracts)
  }

  function WitnessLens(inputs: seq<UTXO>): seq<nat> {
    seq(|inputs|, i requires 0 <= i < |inputs| => MaxWitnessLen(inputs[i].Type()))
  }

  function Amount(x: UTXO): int {
    x.value
  }

  function Collateral(c: nat): int {
    c
  }

  function FeeOf(inputs: seq<UTXO>, collaterals: seq<nat>, feeRate: nat): nat {
    DualFees(feeRate, WitnessLens(inputs), |collaterals|)
  }

  /** The inputs pay for the collaterals, the dust threshold and their own fee. */
  predicate Funds(inputs: seq<UTXO>, collaterals: seq<nat>, feeRate: nat) {
    Sum(inputs, Amount) >= Sum(collaterals, Collateral) + DustThreshold(feeRate) + FeeOf(inputs, collaterals, feeRate)
  }

  function Key(feeRate: nat): UTXO -> int {
    x => -UtxoScore(x, feeRate)
  }

  function ByScore(utxos: seq<UTXO>, feeRate: nat): seq<UTXO> {
    SortBy(utxos, Key(feeRate))
  }

  /** The first `k` candidates do not suffice: go on until they do, or only detrimental ones are left. */
  function SelectFrom(sorted: seq<UTXO>, k: nat, collaterals: seq<nat>, feeRate: nat): seq<UTXO>
    requires k <= |sorted|
    decreases |sorted| - k
  {
    if k == |sorted| || UtxoScore(sorted[k], feeRate) < 0 then []
    else if Funds(sorted[..k + 1], collaterals, feeRate) then sorted[..k + 1]
    else SelectFrom(sorted, k + 1, collaterals, feeRate)
  }

  function Select(utxos: seq<UTXO>, collaterals: seq<nat>, feeRate: nat): seq<UTXO> {
    SelectFrom(ByScore(utxos, feeRate), 0, collaterals, feeRate)
  }

  method DualFundingCoinSelect(utxos: seq<UTXO>, collaterals: seq<nat>, feeRate: nat)
    returns (inputs: seq<UTXO>, fee: nat)
    ensures inputs == Select(utxos, collaterals, feeRate)
    ensures fee == if inputs == [] then DualFees(feeRate, [DEFAULT_MAX_WITNESS_LEN], |collaterals|)
                   else FeeOf(inputs, collaterals, feeRate)
  {
    var sorted := ByScore(utxos, feeRate);
    SortSorts(utxos, Key(feeRate));
    hide FeeOf, DustThreshold, SortBy, DualFees, InputBytes;
    var inAccum := 0;
    inputs := [];
    var outAccum := Sum(collaterals, Collateral) + DustThreshold(feeRate);
    var noFee := DualFees(feeRate, [DEFAULT_MAX_WITNESS_LEN], |collaterals|);
    for i := 0 to |sorted|
      invariant |inputs| <= i && inputs == sorted[..|inputs|] && inAccum == Sum(inputs, Amount)
      invariant |inputs| < i ==> UtxoScore(sorted[|inputs|], feeRate) < 0
      invariant Select(utxos, collaterals, feeRate) == SelectFrom(sorted, |inputs|, collaterals, feeRate)
    {
      var utxo := sorted[i];
      // skip detrimental input
      if Fee(utxo, feeRate) > utxo.value {
        if i == |sorted| - 1 { return [], noFee; }
        continue;
      }
      ScoresDescend(sorted, feeRate, |inputs|, i);
      assert sorted[..i + 1] == sorted[..i] + [utxo];
      SumConcat(sorted[..i], [utxo], Amount);
      SumSingle(utxo, Amount);
      inAccum := inAccum + utxo.value;
      inputs := inputs + [utxo];
      fee := FeeOf(inputs, collaterals, feeRate);
      // go again?
      if inAccum < outAccum + fee { continue; }
      return inputs, fee;
    }
    return [], noFee;
  }

  lemma ScoresDescend(sorted: seq<UTXO>, feeRate: nat, i: nat, j: nat)
    requires Sorted(sorted, Key(feeRate)) && i <= j < |sorted|
    ensures UtxoScore(sorted[i], feeRate) >= UtxoScore(sorted[j], feeRate)
  {
    assert i < j ==> Key(feeRate)(sorted[i]) <= Key(feeRate)(sorted[j]);
  }

  // ---------------------------------------------------------------- the selection pays

  lemma {:induction false} SelectFromFunds(sorted: seq<UTXO>, k: nat, collaterals: seq<nat>, feeRate: nat)
    requires k <= |sorted|
    ensures var r := SelectFrom(sorted, k, collaterals, feeRate);
      r != [] ==> r <= sorted && Funds(r, collaterals, feeRate)
    decreases |sorted| - k
  {
    hide Funds, UtxoScore;
    if k < |sorted| { SelectFromFunds(sorted, k + 1, collaterals, feeRate); }
  }

  /** A non-empty selection is drawn from the given outputs and pays for itself, whatever the
      script types. */
  lemma SelectFunds(utxos: seq<UTXO>, collaterals: seq<nat>, feeRate: nat)
    ensures var r := Select(utxos, collaterals, feeRate);
      r != [] ==> Funds(r, collaterals, feeRate) && multiset(r) <= multiset(utxos)
  {
    var sorted := ByScore(utxos, feeRate);
    var r := Select(utxos, collaterals, feeRate);
    SelectFromFunds(sorted, 0, collaterals, feeRate);
    SortPermutes(utxos, Key(feeRate));
    hide Funds, SortBy;
    if r != [] { assert sorted == r + sorted[|r|..]; }
  }

  // ---------------------------------------------------------------- the selection is smallest

  /** `sorted` holds the given outputs, those worth most after their own fee first. */
  ghost predicate Ranked(sorted: seq<UTXO>, utxos: seq<UTXO>, feeRate: nat) {
    multiset(sorted) == multiset(utxos) &&
    forall i, j | 0 <= i < j < |sorted| :: UtxoScore(sorted[i], feeRate) >= UtxoScore(sorted[j], feeRate)
  }

  /** The first `k` outputs are worth their own fees and pay, and fewer of them do not. */
  predicate FirstToPay(sorted: seq<UTXO>, k: nat, collaterals: seq<nat>, feeRate: nat)
    requires k <= |sorted|
  {
    k > 0 && Funds(sorted[..k], collaterals, feeRate) &&
    (forall i | 0 <= i < k :: UtxoScore(sorted[i], feeRate) >= 0) &&
    (forall i | 0 < i < k :: !Funds(sorted[..i], collaterals, feeRate))
  }

  lemma {:induction false} SelectFromExact(sorted: seq<UTXO>, k: nat, collaterals: seq<nat>, feeRate: nat)
    requires k <= |sorted|
    requires forall i | 0 <= i < k :: UtxoScore(sorted[i], feeRate) >= 0
    requires forall i | 0 < i <= k :: !Funds(sorted[..i], collaterals, feeRate)
    ensures var r := SelectFrom(sorted, k, collaterals, feeRate);
      if r == [] then forall i | 0 <= i <= |sorted| :: !FirstToPay(sorted, i, collaterals, feeRate)
      else |r| <= |sorted| && r == sorted[..|r|] && FirstToPay(sorted, |r|, collaterals, feeRate)
    decreases |sorted| - k
  {
    hide Funds, UtxoScore;
    if !(k == |sorted| || UtxoScore(sorted[k], feeRate) < 0 || Funds(sorted[..k + 1], collaterals, feeRate)) {
      SelectFromExact(sorted, k + 1, collaterals, feeRate);
    }
  }

  /** The selection is the shortest beginning of the ranking that pays and has no output that costs
      more than it brings; it is empty exactly if there is none. */
  lemma SelectExact(utxos: seq<UTXO>, collaterals: seq<nat>, feeRate: nat) returns (sorted: seq<UTXO>)
    ensures Ranked(sorted, utxos, feeRate)
    ensures var r := Select(utxos, collaterals, feeRate);
      if r == [] then forall k | 0 <= k <= |sorted| :: !FirstToPay(sorted, k, collaterals, feeRate)
      else |r| <= |sorted| && r == sorted[..|r|] && FirstToPay(sorted, |r|, collaterals, feeRate)
  {
    sorted := ByScore(utxos, feeRate);
    SortPermutes(utxos, Key(feeRate));
    SortSorts(utxos, Key(feeRate));
    hide Funds, UtxoScore, SortBy;
    forall i, j | 0 <= i < j < |sorted| ensures UtxoScore(sorted[i], feeRate) >= UtxoScore(sorted[j], feeRate) {
      ScoresDescend(sorted, feeRate, i, j);
    }
    hide Sorted;
    SelectFromExact(sorted, 0, collaterals, feeRate);
  }

  lemma SubBag<T>(a: multiset<T>, b: multiset<T>, z: T)
    requires a + multiset{z} <= b + multiset{z}
    ensures a <= b
  {
    assert a == (a + multiset{z}) - multiset{z};
    assert b == (b + multiset{z}) - multiset{z};
  }

  /** A choice that needs the last element of `s` is one from the others and that element. */
  lemma WithoutLast<T>(s: seq<T>, sub: seq<T>, f: T -> int) returns (rest: seq<T>)
    requires s != [] && Within(sub, s) && !Within(sub, s[..|s| - 1])
    ensures Within(rest, s[..|s| - 1]) && |rest| + 1 == |sub|
    ensures Sum(sub, f) == Sum(rest, f) + f(s[|s| - 1])
  {
    hide Sum;
    var front, z := s[..|s| - 1], s[|s| - 1];
    assert s == front + [z];
    assert multiset(front + [z]) == multiset(front) + multiset{z};
    assert z in multiset(sub);
    var p :| 0 <= p < |sub| && sub[p] == z;
    assert sub == sub[..p] + [z] + sub[p + 1..];
    rest := sub[..p] + sub[p + 1..];
    assert multiset(sub) == multiset(rest) + multiset{z};
    SubBag(multiset(rest), multiset(front), z);
    TakeOut(sub, p, f);
  }

  /** A choice from the elements of `s`. */
  ghost predicate Within<T>(sub: seq<T>, s: seq<T>) {
    multiset(sub) <= multiset(s)
  }

  ghost predicate Descending<T>(s: seq<T>, f: T -> int) {
    forall i, j | 0 <= i < j < |s| :: f(s[i]) >= f(s[j])
  }

  lemma DescendingParts<T>(s: seq<T>, f: T -> int, i: nat)
    requires Descending(s, f) && i < |s|
    ensures Descending(s[..|s| - 1], f) && f(s[i]) >= f(s[|s| - 1])
  {}

  lemma SumTake<T>(s: seq<T>, k: nat, f: T -> int)
    requires k < |s|
    ensures Sum(s[..k + 1], f) == Sum(s[..k], f) + f(s[k])
  {
    assert s[..k + 1][..k] == s[..k];
  }

  lemma NonEmptyBag<T>(sorted: seq<T>, sub: seq<T>)
    requires Within(sub, sorted) && sub != []
    ensures sorted != []
  {
    assert sub[0] in multiset(sub);
  }

  lemma TakeTake<T>(s: seq<T>, k: nat)
    requires k < |s|
    ensures s[..|s| - 1][..k] == s[..k]
  {}

  lemma TopStep<T>(sorted: seq<T>, k: nat, f: T -> int)
    requires Descending(sorted, f) && k < |sorted|
    ensures Sum(sorted[..k], f) + f(sorted[|sorted| - 1]) <= Sum(sorted[..k + 1], f)
  {
    DescendingParts(sorted, f, k);
    SumTake(sorted, k, f);
  }

  /** Of all ways to pick as many elements, the first ones of a sorted sequence weigh most. */
  lemma {:induction false} TopWeighsMost<T>(sorted: seq<T>, sub: seq<T>, f: T -> int)
    requires Descending(sorted, f)
    requires Within(sub, sorted)
    ensures |sub| <= |sorted| && Sum(sub, f) <= Sum(sorted[..|sub|], f)
    decreases |sorted|
  {
    assert Sum<T>([], f) == 0;
    hide Sum, Descending, Within;
    if sub == [] {
      assert sorted[..0] == [];
    } else {
      NonEmptyBag(sorted, sub);
      var front := sorted[..|sorted| - 1];
      DescendingParts(sorted, f, 0);
      if Within(sub, front) {
        TopWeighsMost(front, sub, f);
        TakeTake(sorted, |sub|);
      } else {
        var rest := WithoutLast(sorted, sub, f);
        TopWeighsMost(front, rest, f);
        TakeTake(sorted, |rest|);
        TopStep(sorted, |rest|, f);
      }
    }
  }

  lemma TakeOut<T>(s: seq<T>, p: nat, f: T -> int)
    requires p < |s|
    ensures Sum(s, f) == Sum(s[..p] + s[p + 1..], f) + f(s[p])
  {
    hide Sum;
    assert s == s[..p] + ([s[p]] + s[p + 1..]);
    SumConcat(s[..p], [s[p]] + s[p + 1..], f);
    SumConcat([s[p]], s[p + 1..], f);
    SumConcat(s[..p], s[p + 1..], f);
    SumSingle(s[p], f);
  }

  /** Every input has the default witness length of 108 bytes, as all types but taproot have. */
  predicate Uniform(inputs: seq<UTXO>) {
    forall i | 0 <= i < |inputs| :: MaxWitnessLen(inputs[i].Type()) == DEFAULT_MAX_WITNESS_LEN
  }

  function Score(feeRate: nat): UTXO -> int {
    x => UtxoScore(x, feeRate)
  }

  lemma {:induction false} UniformWeight(inputs: seq<FundingInput>)
    requires forall i | 0 <= i < |inputs| :: InputWeight(inputs[i]) == 272
    ensures Sum(inputs, InputWeight) == 272 * |inputs|
  {
    if inputs != [] { UniformWeight(inputs[..|inputs| - 1]); }
  }

  /** The part of the fee that does not depend on the number of inputs. */
  function BaseFee(feeRate: nat, numContracts: nat): int {
    feeRate * VBytes((249 + 4 * FAKE_SPK_LEN) * numContracts) + feeRate * VBytes(145 + 86 * numContracts)
  }

  lemma UniformFee(inputs: seq<UTXO>, collaterals: seq<nat>, feeRate: nat)
    requires Uniform(inputs) && inputs != []
    ensures FeeOf(inputs, collaterals, feeRate) == BaseFee(feeRate, |collaterals|) + (feeRate * 68) * |inputs|
  {
    var n := |collaterals|;
    var fs := WitnessInputs(WitnessLens(inputs));
    UniformWeight(fs);
    var weight := FundingWeight(fs, FAKE_SPK_LEN, n);
    assert weight == 145 + 86 * n + 272 * |inputs|;
    assert VBytes(weight) == VBytes(145 + 86 * n) + 68 * |inputs|;
    var v := VBytes(145 + 86 * n);
    assert feeRate * (v + 68 * |inputs|) == feeRate * v + (feeRate * 68) * |inputs|;
  }

  lemma {:induction false} ScoreSum(inputs: seq<UTXO>, feeRate: nat)
    requires Uniform(inputs)
    ensures Sum(inputs, Score(feeRate)) == Sum(inputs, Amount) - (feeRate * 68) * |inputs|
  {
    if inputs != [] {
      var n := |inputs| - 1;
      ScoreSum(inputs[..n], feeRate);
      assert InputBytes(inputs[n]) == 68;
      assert (feeRate * 68) * (n + 1) == (feeRate * 68) * n + feeRate * 68;
    }
  }

  /** What the net value of the inputs must reach. */
  function Target(collaterals: seq<nat>, feeRate: nat): int {
    Sum(collaterals, Collateral) + DustThreshold(feeRate) + BaseFee(feeRate, |collaterals|)
  }

  lemma FundsByScore(inputs: seq<UTXO>, collaterals: seq<nat>, feeRate: nat)
    requires Uniform(inputs) && inputs != []
    ensures Funds(inputs, collaterals, feeRate) <==> Sum(inputs, Score(feeRate)) >= Target(collaterals, feeRate)
  {
    UniformFee(inputs, collaterals, feeRate);
    ScoreSum(inputs, feeRate);
    hide FeeOf, Sum, BaseFee;
  }

  lemma TargetNonNegative(collaterals: seq<nat>, feeRate: nat)
    ensures Target(collaterals, feeRate) >= 0
  {
    SumNonNegative(collaterals, Collateral);
    MulNat(feeRate, VBytes((249 + 4 * FAKE_SPK_LEN) * |collaterals|));
    MulNat(feeRate, VBytes(145 + 86 * |collaterals|));
    hide DustThreshold;
  }

  /** If the first `s` candidates reach a non-negative target, so do the first ones without a
      detrimental candidate. */
  lemma {:induction false} DropDetrimental(sorted: seq<UTXO>, s: nat, feeRate: nat, target: int) returns (m: nat)
    requires Sorted(sorted, Key(feeRate)) && 0 < s <= |sorted| && target >= 0
    requires Sum(sorted[..s], Score(feeRate)) >= target
    ensures 0 < m <= s && UtxoScore(sorted[m - 1], feeRate) >= 0
    ensures Sum(sorted[..m], Score(feeRate)) >= target
  {
    hide UtxoScore;
    m := s;
    assert sorted[..s][..s - 1] == sorted[..s - 1];
    if UtxoScore(sorted[s - 1], feeRate) < 0 {
      m := DropDetrimental(sorted, s - 1, feeRate, target);
    }
  }

  lemma {:induction false} SelectFromStops(sorted: seq<UTXO>, k: nat, m: nat, collaterals: seq<nat>, feeRate: nat)
    requires Sorted(sorted, Key(feeRate)) && k < m <= |sorted|
    requires UtxoScore(sorted[m - 1], feeRate) >= 0 && Funds(sorted[..m], collaterals, feeRate)
    ensures 0 < |SelectFrom(sorted, k, collaterals, feeRate)| <= m
    decreases m - k
  {
    ScoresDescend(sorted, feeRate, k, m - 1);
    hide UtxoScore, Funds;
    if !Funds(sorted[..k + 1], collaterals, feeRate) {
      SelectFromStops(sorted, k + 1, m, collaterals, feeRate);
    }
  }

  /** When every output has the 108-byte witness length, no non-empty choice that pays has fewer
      inputs; in particular an empty selection means that no choice pays. */
  lemma SelectSmallest(utxos: seq<UTXO>, collaterals: seq<nat>, feeRate: nat, sub: seq<UTXO>)
    requires Uniform(utxos)
    requires sub != [] && multiset(sub) <= multiset(utxos) && Funds(sub, collaterals, feeRate)
    ensures 0 < |Select(utxos, collaterals, feeRate)| <= |sub|
  {
    var sorted := ByScore(utxos, feeRate);
    var target := Target(collaterals, feeRate);
    SortPermutes(utxos, Key(feeRate));
    SortSorts(utxos, Key(feeRate));
    UniformMembers(utxos, sorted);
    UniformMembers(utxos, sub);
    assert Descending(sorted, Score(feeRate)) by {
      forall i, j | 0 <= i < j < |sorted|
        ensures Score(feeRate)(sorted[i]) >= Score(feeRate)(sorted[j])
      {
        ScoresDescend(sorted, feeRate, i, j);
      }
    }
    TopWeighsMost(sorted, sub, Score(feeRate));
    FundsByScore(sub, collaterals, feeRate);
    TargetNonNegative(collaterals, feeRate);
    hide Target, Funds, UtxoScore, SelectFrom, ByScore, Sum, Sorted, Score, Key;
    var m := DropDetrimental(sorted, |sub|, feeRate, target);
    assert Uniform(sorted[..m]);
    FundsByScore(sorted[..m], collaterals, feeRate);
    SelectFromStops(sorted, 0, m, collaterals, feeRate);
  }

  lemma UniformMembers(utxos: seq<UTXO>, sub: seq<UTXO>)
    requires Uniform(utxos) && multiset(sub) <= multiset(utxos)
    ensures Uniform(sub)
  {
    forall i | 0 <= i < |sub|
      ensures MaxWitnessLen(sub[i].Type()) == DEFAULT_MAX_WITNESS_LEN
    {
      assert sub[i] in multiset(sub);
      assert sub[i] in utxos;
    }
  }
}
