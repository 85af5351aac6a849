/** To whom the outputs of a funding transaction belong and in which order they stand. */
module TxBuilderOutputs {
  import opened Wrappers
  import opened Numbers
  import opened Sequences
  import opened Sorting
  import opened TxFinalizer
  import opened TxBuilder
  import Script

  // ---------------------------------------------------------------- byte order

  /** `a` and `b` first differ at byte `k`, where `a` is the smaller one or ends. */
  predicate FirstDiffers(a: Bytes, b: Bytes, k: nat) {
    k <= |a| && k < |b| && a[..k] == b[..k] && (k == |a| || a[k] < b[k])
  }

  lemma {:induction false} BeforeIff(a: Bytes, b: Bytes)
    ensures Before(a, b) <==> exists k: nat :: FirstDiffers(a, b, k)
    decreases |a|
  {
    if a == [] {
      assert b != [] ==> FirstDiffers(a, b, 0);
    } else if b != [] {
      BeforeIff(a[1..], b[1..]);
      if a[0] < b[0] {
        assert FirstDiffers(a, b, 0);
      } else if a[0] == b[0] {
        if k: nat :| FirstDiffers(a[1..], b[1..], k) { Shifted(a, b, k); }
      }
      if k: nat :| FirstDiffers(a, b, k) {
        assert k > 0 ==> a[..k][0] == b[..k][0];
        if k > 0 { Unshifted(a, b, k); }
      }
    }
  }

  lemma Shifted(a: Bytes, b: Bytes, k: nat)
    requires a != [] && b != [] && a[0] == b[0] && FirstDiffers(a[1..], b[1..], k)
    ensures FirstDiffers(a, b, k + 1)
  {
    assert a[..k + 1] == [a[0]] + a[1..][..k] && b[..k + 1] == [b[0]] + b[1..][..k];
  }

  lemma Unshifted(a: Bytes, b: Bytes, k: nat)
    requires k > 0 && a != [] && FirstDiffers(a, b, k)
    ensures FirstDiffers(a[1..], b[1..], k - 1)
  {
    assert a[1..][..k - 1] == a[..k][1..] && b[1..][..k - 1] == b[..k][1..];
  }

  /** Of two different keys one comes first. */
  lemma {:induction false} OneComesFirst(a: Bytes, b: Bytes)
    ensures !(Before(a, b) && Before(b, a)) && (a != b ==> Before(a, b) || Before(b, a))
    decreases |a|
  {
    if a != [] && b != [] {
      OneComesFirst(a[1..], b[1..]);
      assert a == [a[0]] + a[1..] && b == [b[0]] + b[1..];
    }
  }

  // ---------------------------------------------------------------- the outputs

  /** Both keys must sign, the smaller one stands first. */
  ghost predicate SharedBy(script: LockScript, x: Bytes, y: Bytes) {
    script.Multisig? && script.needed == 2 && |script.keys| == 2 && multiset(script.keys) == multiset{x, y} &&
    (x != y ==> exists k: nat :: FirstDiffers(script.keys[0], script.keys[1], k))
  }

  lemma LockIsShared(o: Offer, a: Accept)
    ensures SharedBy(FundingScript(o, a), o.fundingPubkey, a.fundingPubkey)
  {
    var x, y := o.fundingPubkey, a.fundingPubkey;
    OneComesFirst(x, y);
    BeforeIff(x, y);
    BeforeIff(y, x);
    hide Before, FirstDiffers;
    assert multiset([x, y]) == multiset{x, y} == multiset([y, x]);
  }

  /** There is one such script. */
  lemma SharedUnique(s: LockScript, t: LockScript, x: Bytes, y: Bytes)
    requires SharedBy(s, x, y) && SharedBy(t, x, y)
    ensures s == t
  {
    var p, q := s.keys, t.keys;
    assert p == [p[0], p[1]] && q == [q[0], q[1]];
    assert p[0] in multiset(p) && p[1] in multiset(p) && q[0] in multiset(q) && q[1] in multiset(q);
    if x == y {
      assert p == q;
    } else {
      BothKeys(p, x, y);
      BothKeys(q, x, y);
      BeforeIff(x, y);
      BeforeIff(y, x);
      OneComesFirst(x, y);
      hide FirstDiffers, Before;
    }
  }

  lemma BothKeys(p: seq<Bytes>, x: Bytes, y: Bytes)
    requires |p| == 2 && multiset(p) == multiset{x, y} && x != y
    ensures p == [x, y] || p == [y, x]
  {
    assert p == [p[0], p[1]];
    assert p[0] in multiset(p) && p[1] in multiset(p);
    assert p[0] == p[1] ==> multiset(p)[p[0]] == 2;
    assert multiset{x, y}[x] == 1 && multiset{x, y}[y] == 1;
  }

  /** The output of one contract: both its collaterals and its share of the closing fees. */
  ghost predicate PaysContract(out: Output, o: Offer, a: Accept, share: nat) {
    SharedBy(out.script, o.fundingPubkey, a.fundingPubkey) && out.serialId == o.fundOutputSerialId &&
    out.value == o.offerCollateral + a.acceptCollateral + share
  }

  /** A change output for the owner of the script `spk`. */
  predicate PaysOwner(out: Output, value: int, spk: Bytes, serialId: nat) {
    out.script.Raw? && Script.ParseCmds(spk) == Some(out.script.cmds) && out.value == value && out.serialId == serialId
  }

  /** What is left of a side's inputs, or nothing when that would be dust. */
  predicate Change(outs: seq<Output>, value: int, spk: Bytes, serialId: nat) {
    if value >= 1000 then |outs| == 1 && PaysOwner(outs[0], value, spk, serialId) else outs == []
  }

  ghost predicate Ascending<T>(s: seq<T>, serial: T -> int) {
    forall i, j | 0 <= i < j < |s| :: serial(s[i]) <= serial(s[j])
  }

  /** `n` shares pay the fees, and less than two satoshi each too much. */
  predicate Covers(share: int, n: nat, fees: nat) {
    fees <= n * share <= fees + 2 * (n - 1)
  }

  /** The transaction has these inputs and outputs and no others, both in the order of their serial ids. */
  ghost predicate Consists(tx: Tx, inputs: seq<FundingInput>, outputs: seq<Output>) {
    multiset(tx.inputs) == multiset(inputs) && multiset(tx.outputs) == multiset(outputs) &&
    Ascending(tx.outputs, OutputSerial) && Ascending(tx.inputs, InputSerial)
  }

  /** Every built transaction has one output for each contract, locked to precisely the keys of its
      offer and its accept and holding its two collaterals and an equal share of the closing fees; a
      change output for each side to which 1000 satoshi or more are left, to that side's script; and
      no other. Inputs and outputs stand in the order of their serial ids. */
  lemma BuiltOutputs(offers: seq<Offer>, accepts: seq<Accept>)
      returns (funding: seq<Output>, offerChange: seq<Output>, acceptChange: seq<Output>, share: nat)
    requires Build(offers, accepts).Ok?
    ensures Consists(Build(offers, accepts).value, offers[0].fundingInputs + accepts[0].fundingInputs,
      funding + offerChange + acceptChange)
    ensures |funding| == |offers| == |accepts| > 0
    ensures forall i | 0 <= i < |funding| :: PaysContract(funding[i], offers[i], accepts[i], share)
    ensures var t := TermsOf(offers, accepts);
      Change(offerChange, t.OfferChange(), offers[0].changeSpk, offers[0].changeSerialId) &&
      Change(acceptChange, t.AcceptChange(), accepts[0].changeSpk, accepts[0].changeSerialId)
    ensures var t := TermsOf(offers, accepts);
      Covers(share, |offers|, t.offerFuture + t.acceptFuture)
  {
    hide Check, TermsOf, CeilDiv, FundingOutputs, PaysContract, ChangeOutput, ChangeParses, Change, Covers, Consists,
      SortBy;
    Checked(offers, accepts);
    InOrder(offers, accepts);
    hide Build;
    var t := TermsOf(offers, accepts);
    funding := FundingOutputs(offers, accepts, t);
    offerChange := ChangeOutput(t.OfferChange(), offers[0].changeSpk, offers[0].changeSerialId);
    acceptChange := ChangeOutput(t.AcceptChange(), accepts[0].changeSpk, accepts[0].changeSerialId);
    share := CeilDiv(t.offerFuture, t.n) + CeilDiv(t.acceptFuture, t.n);
    ClosingShare(t.offerFuture, t.acceptFuture, t.n);
    FundingPays(offers, accepts, t, share);
    ChangePays(t.OfferChange(), offers[0].changeSpk, offers[0].changeSerialId);
    ChangePays(t.AcceptChange(), accepts[0].changeSpk, accepts[0].changeSerialId);
  }

  lemma Checked(offers: seq<Offer>, accepts: seq<Accept>)
    requires Check(offers, accepts).Ok?
    ensures |offers| == |accepts| > 0
    ensures var t := TermsOf(offers, accepts);
      ChangeParses(t.OfferChange(), offers[0].changeSpk) && ChangeParses(t.AcceptChange(), accepts[0].changeSpk)
  {
    hide TermsOf, ChangeParses;
  }

  lemma InOrder(offers: seq<Offer>, accepts: seq<Accept>)
    requires Check(offers, accepts).Ok?
    ensures Consists(Build(offers, accepts).value, offers[0].fundingInputs + accepts[0].fundingInputs,
      Outputs(offers, accepts))
  {
    hide TermsOf, SortBy, FundingOutputs, ChangeOutput, ChangeParses, Ascending;
    Sorts(offers[0].fundingInputs + accepts[0].fundingInputs, InputSerial);
    Sorts(Outputs(offers, accepts), OutputSerial);
  }

  lemma FundingPays(offers: seq<Offer>, accepts: seq<Accept>, t: Terms, share: nat)
    requires |offers| == |accepts| && t.n > 0 && share == CeilDiv(t.offerFuture, t.n) + CeilDiv(t.acceptFuture, t.n)
    ensures |FundingOutputs(offers, accepts, t)| == |offers|
    ensures forall i | 0 <= i < |offers| ::
      PaysContract(FundingOutputs(offers, accepts, t)[i], offers[i], accepts[i], share)
  {
    hide CeilDiv, SharedBy, FundingScript;
    forall i | 0 <= i < |offers|
      ensures PaysContract(FundingOutputs(offers, accepts, t)[i], offers[i], accepts[i], share)
    {
      LockIsShared(offers[i], accepts[i]);
    }
  }

  lemma ChangePays(value: int, spk: Bytes, serialId: nat)
    requires ChangeParses(value, spk)
    ensures Change(ChangeOutput(value, spk, serialId), value, spk, serialId)
  {
    hide Script.ParseCmds;
  }

  lemma ClosingShare(x: nat, y: nat, n: nat)
    requires n > 0
    ensures CeilDiv(x, n) + CeilDiv(y, n) >= 0
    ensures Covers(CeilDiv(x, n) + CeilDiv(y, n), n, x + y)
  {
    CeilDivBounds(x, n);
    CeilDivBounds(y, n);
    hide CeilDiv;
  }

  lemma Sorts<T>(s: seq<T>, key: T -> int)
    ensures multiset(SortBy(s, key)) == multiset(s) && Ascending(SortBy(s, key), key)
  {
    SortPermutes(s, key);
    SortSorts(s, key);
  }

  // ---------------------------------------------------------------- how many outputs a script locks

  function LockedTo(script: LockScript): Output -> int {
    (o: Output) => if o.script == script then 1 else 0
  }

  /** How many of the contracts are between the keys `x` and `y`. */
  ghost function Contracts(offers: seq<Offer>, accepts: seq<Accept>, x: Bytes, y: Bytes): nat
    requires |offers| == |accepts|
  {
    if offers == [] then 0
    else
      var k := |offers| - 1;
      var mine := multiset{offers[k].fundingPubkey, accepts[k].fundingPubkey} == multiset{x, y};
      Contracts(offers[..k], accepts[..k], x, y) + if mine then 1 else 0
  }

  /** As many outputs are locked to two keys as there are contracts between them, whichever side has
      which key: exactly one if they are the keys of one contract. */
  lemma LockedToKeys(offers: seq<Offer>, accepts: seq<Accept>, script: LockScript, x: Bytes, y: Bytes)
    requires Build(offers, accepts).Ok? && SharedBy(script, x, y)
    ensures Sum(Build(offers, accepts).value.outputs, LockedTo(script)) == Contracts(offers, accepts, x, y)
  {
    var t := TermsOf(offers, accepts);
    var funding := FundingOutputs(offers, accepts, t);
    var oc := ChangeOutput(t.OfferChange(), offers[0].changeSpk, offers[0].changeSerialId);
    var ac := ChangeOutput(t.AcceptChange(), accepts[0].changeSpk, accepts[0].changeSerialId);
    hide TermsOf, SortBy, SharedBy, FundingScript, Sum, Script.FromRaw;
    SortSum(funding + oc + ac, OutputSerial, LockedTo(script));
    SumConcat(funding + oc, ac, LockedTo(script));
    SumConcat(funding, oc, LockedTo(script));
    ChangeNotLocked(t.OfferChange(), offers[0].changeSpk, offers[0].changeSerialId, script, x, y);
    ChangeNotLocked(t.AcceptChange(), accepts[0].changeSpk, accepts[0].changeSerialId, script, x, y);
    FundingLocked(offers, accepts, t, script, x, y);
  }

  lemma ChangeNotLocked(value: int, spk: Bytes, serialId: nat, script: LockScript, x: Bytes, y: Bytes)
    requires ChangeParses(value, spk) && SharedBy(script, x, y)
    ensures Sum(ChangeOutput(value, spk, serialId), LockedTo(script)) == 0
  {
    hide Script.FromRaw;
    if value >= DUST_LIMIT { SumSingle(Output(value, Raw(Script.FromRaw(spk).value), serialId), LockedTo(script)); }
  }

  lemma {:induction false} FundingLocked(offers: seq<Offer>, accepts: seq<Accept>, t: Terms, script: LockScript,
      x: Bytes, y: Bytes)
    requires |offers| == |accepts| && t.n > 0 && SharedBy(script, x, y)
    ensures Sum(FundingOutputs(offers, accepts, t), LockedTo(script)) == Contracts(offers, accepts, x, y)
    decreases |offers|
  {
    hide CeilDiv, SharedBy, FundingScript;
    if offers != [] {
      var k := |offers| - 1;
      FundingLocked(offers[..k], accepts[..k], t, script, x, y);
      var all := FundingOutputs(offers, accepts, t);
      assert all[..|all| - 1] == FundingOutputs(offers[..k], accepts[..k], t);
      SameKeysSameLock(offers[k], accepts[k], script, x, y);
    }
  }

  lemma SameKeysSameLock(o: Offer, a: Accept, script: LockScript, x: Bytes, y: Bytes)
    requires SharedBy(script, x, y)
    ensures FundingScript(o, a) == script <==> multiset{o.fundingPubkey, a.fundingPubkey} == multiset{x, y}
  {
    LockIsShared(o, a);
    hide FundingScript, FirstDiffers;
    if multiset{o.fundingPubkey, a.fundingPubkey} == multiset{x, y} {
      EqualKeys(o.fundingPubkey, a.fundingPubkey, x, y);
      SharedUnique(FundingScript(o, a), script, x, y);
    }
  }

  lemma EqualKeys(p: Bytes, q: Bytes, x: Bytes, y: Bytes)
    requires multiset{p, q} == multiset{x, y}
    ensures p == q <==> x == y
  {
    assert p == q ==> multiset{p, q}[p] == 2;
    assert x == y ==> multiset{x, y}[x] == 2;
    assert x != y ==> multiset{x, y}[x] == 1 && multiset{x, y}[y] == 1;
    assert p in multiset{x, y};
    assert x in multiset{p, q};
    assert p != q ==> multiset{p, q}[p] == 1 && multiset{p, q}[q] == 1;
  }

  // ---------------------------------------------------------------- which side has which key

  lemma {:induction false} SameSum<T>(s: seq<T>, t: seq<T>, f: T -> int)
    requires |s| == |t| && forall i | 0 <= i < |s| :: f(s[i]) == f(t[i])
    ensures Sum(s, f) == Sum(t, f)
  {
    if s != [] { SameSum(s[..|s| - 1], t[..|t| - 1], f); }
  }

  /** The sides have exchanged their keys. */
  predicate Exchanged(offers: seq<Offer>, accepts: seq<Accept>, offers': seq<Offer>, accepts': seq<Accept>) {
    && |offers'| == |offers| && |accepts'| == |accepts| && |offers| == |accepts|
    && (forall i | 0 <= i < |offers| :: offers'[i] == offers[i].(fundingPubkey := accepts[i].fundingPubkey))
    && forall i | 0 <= i < |accepts| :: accepts'[i] == accepts[i].(fundingPubkey := offers[i].fundingPubkey)
  }

  /** It does not matter which side has which of the two keys of a contract. */
  lemma KeysExchanged(offers: seq<Offer>, accepts: seq<Accept>, offers': seq<Offer>, accepts': seq<Accept>)
    requires Exchanged(offers, accepts, offers', accepts')
    ensures Build(offers', accepts') == Build(offers, accepts)
  {
    if offers != [] {
      SameTerms(offers, accepts, offers', accepts');
      hide TermsOf, SortBy, Script.FromRaw, FundingScript, SameInputs;
      forall i | 0 <= i < |offers|
        ensures FundingScript(offers'[i], accepts'[i]) == FundingScript(offers[i], accepts[i])
      {
        SameLock(offers[i], accepts[i], offers'[i], accepts'[i]);
      }
      var t := TermsOf(offers, accepts);
      assert FundingOutputs(offers', accepts', t) == FundingOutputs(offers, accepts, t);
    }
  }

  lemma SameLock(o: Offer, a: Accept, o': Offer, a': Accept)
    requires o'.fundingPubkey == a.fundingPubkey && a'.fundingPubkey == o.fundingPubkey
    ensures FundingScript(o', a') == FundingScript(o, a)
  {
    OneComesFirst(o.fundingPubkey, a.fundingPubkey);
  }

  lemma SameTerms(offers: seq<Offer>, accepts: seq<Accept>, offers': seq<Offer>, accepts': seq<Accept>)
    requires Exchanged(offers, accepts, offers', accepts') && offers != []
    ensures TermsOf(offers', accepts') == TermsOf(offers, accepts)
    ensures SameInputs(offers', accepts') == SameInputs(offers, accepts)
  {
    SameSum(offers', offers, OfferCollateral);
    SameSum(accepts', accepts, AcceptCollateral);
    hide Sum, FutureFee, FundingFee;
  }

  // ---------------------------------------------------------------- when there is a transaction

  /** A change output of a side can be written, or is none. */
  predicate ChangeReadable(value: int, spk: Bytes) {
    value >= 1000 ==> spk != [] && Script.ParseCmds(spk).Some?
  }

  /** A transaction is built if and only if there are as many accepts as offers and at least one, all
      offers and all accepts list the same inputs, each side's inputs pay for its collaterals and fees,
      or the accepter's are worth nothing, and the scripts of the change outputs can be read. Otherwise
      the first of these that fails is the error. */
  lemma BuildsIff(offers: seq<Offer>, accepts: seq<Accept>)
    ensures var r := Build(offers, accepts);
      if |offers| != |accepts| then r == Err(LengthMismatch)
      else if offers == [] then r == Err(Empty)
      else if exists i | 0 <= i < |offers| ::
        offers[i].fundingInputs != offers[0].fundingInputs || accepts[i].fundingInputs != accepts[0].fundingInputs
      then r == Err(DifferentInputs)
      else
        var t := TermsOf(offers, accepts);
        if t.OfferChange() < 0 then r == Err(OfferInsufficient)
        else if t.AcceptChange() < 0 && Sum(accepts[0].fundingInputs, Value) > 0 then r == Err(AcceptInsufficient)
        else if !ChangeReadable(t.OfferChange(), offers[0].changeSpk) then r == Err(BadScript)
        else if !ChangeReadable(t.AcceptChange(), accepts[0].changeSpk) then r == Err(BadScript)
        else r.Ok?
  {
    hide Sum, FutureFee, FundingFee, SortBy, Outputs, Script.ParseCmds;
  }

  // ---------------------------------------------------------------- the amounts

  /** A weight in virtual bytes. */
  function Virtual(weight: nat): nat {
    if weight % 4 == 0 then weight / 4 else weight / 4 + 1
  }

  /** What an input weighs with its witness and the script that a nested one carries. */
  function Weighs(input: FundingInput): int {
    164 + input.maxWitnessLen + if input.redeemScriptLen > 0 then input.redeemScriptLen + 1 else 0
  }

  /** One side's fees for closing `n` contracts, by the length of its payout script, and for its half of
      the funding transaction, by that of its change script and its inputs; without inputs none. */
  predicate Owes(closing: int, funding: int, inputs: seq<FundingInput>, payoutLen: nat, changeLen: nat, rate: nat,
      n: nat)
  {
    if inputs == [] then closing == funding == 0
    else
      SumNonNegative(inputs, Weighs);
      closing == rate * Virtual((249 + 4 * payoutLen) * n) &&
      funding == rate * Virtual(57 + 86 * n + 4 * changeLen + Sum(inputs, Weighs))
  }

  /** What the two sides bring, owe and get back, written out. */
  lemma TermsWrittenOut(offers: seq<Offer>, accepts: seq<Accept>)
    requires |offers| == |accepts| > 0
    ensures var t, o, a, n := TermsOf(offers, accepts), offers[0], accepts[0], |offers|;
      Owes(t.offerFuture, t.offerFunding, o.fundingInputs, |o.payoutSpk|, |o.changeSpk|, o.feeRatePerVb, n) &&
      Owes(t.acceptFuture, t.acceptFunding, a.fundingInputs, |a.payoutSpk|, |a.changeSpk|, o.feeRatePerVb, n) &&
      t.OfferChange() == Sum(o.fundingInputs, Value) - Sum(offers, OfferCollateral) - t.offerFuture - t.offerFunding &&
      t.AcceptChange() ==
        Sum(a.fundingInputs, Value) - Sum(accepts, AcceptCollateral) - t.acceptFuture - t.acceptFunding
  {
    var o, a, n := offers[0], accepts[0], |offers|;
    SideOwes(o.fundingInputs, |o.payoutSpk|, |o.changeSpk|, o.feeRatePerVb, n);
    SideOwes(a.fundingInputs, |a.payoutSpk|, |a.changeSpk|, o.feeRatePerVb, n);
    hide Sum, FutureFee, FundingFee, Owes;
  }

  lemma SideOwes(inputs: seq<FundingInput>, payoutLen: nat, changeLen: nat, rate: nat, n: nat)
    ensures Owes(FutureFee(inputs, payoutLen, rate, n), FundingFee(inputs, changeLen, rate, n), inputs, payoutLen,
      changeLen, rate, n)
  {
    SameWeights(inputs);
    hide Sum;
  }

  lemma {:induction false} SameWeights(inputs: seq<FundingInput>)
    ensures Sum(inputs, Weighs) == Sum(inputs, InputWeight)
  {
    if inputs != [] { SameWeights(inputs[..|inputs| - 1]); }
  }

  /** A side with one input of a 108-byte witness and scripts of 22 bytes owes 94950 satoshi for a single
      contract at 450 satoshi a virtual byte: 38250 for closing and 56700 for funding. */
  lemma OneInputOwes(input: FundingInput)
    requires input.maxWitnessLen == 108 && input.redeemScriptLen == 0
    ensures FutureFee([input], 22, 450, 1) == 38250 && FundingFee([input], 22, 450, 1) == 56700
  {
    SumSingle(input, InputWeight);
    hide Sum;
  }
}
