/** packages/core/lib/dlc/TxBuilder.ts: the funding transaction of one or several DLCs. */
module TxBuilder {
  import opened Wrappers
  import opened Numbers
  import opened Sorting
  import opened TxFinalizer
  import opened Sequences
  import Script

  type Bytes = seq<Byte>

  const DUST_LIMIT: nat := 1000

  datatype Offer = Offer(
    fundingInputs: seq<FundingInput>, payoutSpk: Bytes, changeSpk: Bytes, feeRatePerVb: nat, offerCollateral: nat,
    fundingPubkey: Bytes, fundOutputSerialId: nat, changeSerialId: nat)

  datatype Accept = Accept(
    fundingInputs: seq<FundingInput>, payoutSpk: Bytes, changeSpk: Bytes, acceptCollateral: nat,
    fundingPubkey: Bytes, changeSerialId: nat)

  /** The hash of a witness script that asks for `needed` signatures by the keys, or the commands of
      a side's own script. */
  datatype LockScript = Multisig(needed: nat, keys: seq<Bytes>) | Raw(cmds: seq<Script.Cmd>)

  datatype Output = Output(value: int, script: LockScript, serialId: nat)

  datatype Tx = Tx(inputs: seq<FundingInput>, outputs: seq<Output>)

  datatype Error = LengthMismatch | Empty | DifferentInputs | OfferInsufficient | AcceptInsufficient | BadScript

  // ---------------------------------------------------------------- parts

  /** `Buffer.compare(a, b) === -1` */
  predicate Before(a: Bytes, b: Bytes)
    decreases |a|
  {
    if a == [] then b != []
    else b != [] && (a[0] < b[0] || (a[0] == b[0] && Before(a[1..], b[1..])))
  }

  function FundingScript(o: Offer, a: Accept): LockScript {
    if Before(o.fundingPubkey, a.fundingPubkey) then Multisig(2, [o.fundingPubkey, a.fundingPubkey])
    else Multisig(2, [a.fundingPubkey, o.fundingPubkey])
  }

  function Value(input: FundingInput): int {
    input.value
  }

  function OutputValue(o: Output): int {
    o.value
  }

  function InputSerial(input: FundingInput): int {
    input.inputSerialId
  }

  function OutputSerial(o: Output): int {
    o.serialId
  }

  function OfferCollateral(o: Offer): int {
    o.offerCollateral
  }

  function AcceptCollateral(a: Accept): int {
    a.acceptCollateral
  }

  function CeilDiv(x: nat, n: nat): nat
    requires n > 0
  {
    (x + n - 1) / n
  }

  predicate SameInputs(offers: seq<Offer>, accepts: seq<Accept>) {
    && (forall i | 1 <= i < |offers| :: offers[i].fundingInputs == offers[0].fundingInputs)
    && (forall i | 1 <= i < |accepts| :: accepts[i].fundingInputs == accepts[0].fundingInputs)
  }

  /** What the two sides bring and owe. */
  datatype Terms = Terms(
    offerTotal: int, acceptTotal: int, offerInput: int, acceptInput: int,
    offerFuture: nat, offerFunding: nat, acceptFuture: nat, acceptFunding: nat, n: nat)
  {
    function OfferChange(): int {
      offerTotal - offerInput - (offerFuture + offerFunding)
    }

    function AcceptChange(): int {
      acceptTotal - acceptInput - (acceptFuture + acceptFunding)
    }
  }

  function TermsOf(offers: seq<Offer>, accepts: seq<Accept>): (t: Terms)
    requires |offers| == |accepts| > 0
    ensures t.n == |offers|
  {
    var o, a, n := offers[0], accepts[0], |offers|;
    Terms(Sum(o.fundingInputs, Value), Sum(a.fundingInputs, Value),
          Sum(offers, OfferCollateral), Sum(accepts, AcceptCollateral),
          FutureFee(o.fundingInputs, |o.payoutSpk|, o.feeRatePerVb, n),
          FundingFee(o.fundingInputs, |o.changeSpk|, o.feeRatePerVb, n),
          FutureFee(a.fundingInputs, |a.payoutSpk|, o.feeRatePerVb, n),
          FundingFee(a.fundingInputs, |a.changeSpk|, o.feeRatePerVb, n), n)
  }

  function FundingOutput(o: Offer, a: Accept, t: Terms): Output
    requires t.n > 0
  {
    Output(o.offerCollateral + a.acceptCollateral + CeilDiv(t.offerFuture, t.n) + CeilDiv(t.acceptFuture, t.n),
           FundingScript(o, a), o.fundOutputSerialId)
  }

  function FundingOutputs(offers: seq<Offer>, accepts: seq<Accept>, t: Terms): seq<Output>
    requires |offers| == |accepts| && t.n > 0
  {
    seq(|offers|, i requires 0 <= i < |offers| => FundingOutput(offers[i], accepts[i], t))
  }

  /** A change output, unless it would be dust. */
  function ChangeOutput(value: int, spk: Bytes, serialId: nat): seq<Output>
    requires ChangeParses(value, spk)
  {
    if value >= DUST_LIMIT then [Output(value, Raw(Script.FromRaw(spk).value), serialId)] else []
  }

  /** `Script.fromRaw` accepts the script of a change output that is made. */
  predicate ChangeParses(value: int, spk: Bytes) {
    value >= DUST_LIMIT ==> Script.FromRaw(spk).Some?
  }

  function Check(offers: seq<Offer>, accepts: seq<Accept>): Result<(), Error> {
    if |offers| != |accepts| then Err(LengthMismatch)
    else if offers == [] then Err(Empty)
    else if !SameInputs(offers, accepts) then Err(DifferentInputs)
    else
      var t := TermsOf(offers, accepts);
      if t.OfferChange() < 0 then Err(OfferInsufficient)
      else if t.AcceptChange() < 0 && t.acceptTotal > 0 then Err(AcceptInsufficient)
      else if !ChangeParses(t.OfferChange(), offers[0].changeSpk) then Err(BadScript)
      else if !ChangeParses(t.AcceptChange(), accepts[0].changeSpk) then Err(BadScript)
      else Ok(())
  }

  function Outputs(offers: seq<Offer>, accepts: seq<Accept>): seq<Output>
    requires Check(offers, accepts).Ok?
  {
    var t := TermsOf(offers, accepts);
    FundingOutputs(offers, accepts, t)
    + ChangeOutput(t.OfferChange(), offers[0].changeSpk, offers[0].changeSerialId)
    + ChangeOutput(t.AcceptChange(), accepts[0].changeSpk, accepts[0].changeSerialId)
  }

  /** `BatchDlcTxBuilder.buildFundingTransaction` */
  function Build(offers: seq<Offer>, accepts: seq<Accept>): Result<Tx, Error> {
    match Check(offers, accepts)
    case Err(e) => Err(e)
    case Ok(_) =>
      Ok(Tx(SortBy(offers[0].fundingInputs + accepts[0].fundingInputs, InputSerial),
            SortBy(Outputs(offers, accepts), OutputSerial)))
  }

  class BatchDlcTxBuilder {
    const dlcOffers: seq<Offer>
    const dlcAccepts: seq<Accept>

    constructor (dlcOffers: seq<Offer>, dlcAccepts: seq<Accept>)
      ensures this.dlcOffers == dlcOffers && this.dlcAccepts == dlcAccepts
    {
      this.dlcOffers, this.dlcAccepts := dlcOffers, dlcAccepts;
    }

    method EnsureSameFundingInputs() returns (same: bool)
      requires |dlcOffers| == |dlcAccepts| > 0
      ensures same == SameInputs(dlcOffers, dlcAccepts)
    {
      for i := 1 to |dlcOffers|
        invariant forall j | 1 <= j < i :: dlcOffers[j].fundingInputs == dlcOffers[0].fundingInputs
      {
        if dlcOffers[i].fundingInputs != dlcOffers[0].fundingInputs { return false; }
      }
      for i := 1 to |dlcAccepts|
        invariant forall j | 1 <= j < i :: dlcAccepts[j].fundingInputs == dlcAccepts[0].fundingInputs
      {
        if dlcAccepts[i].fundingInputs != dlcAccepts[0].fundingInputs { return false; }
      }
      return true;
    }

    method BuildFundingTransaction() returns (r: Result<Tx, Error>)
      ensures r == Build(dlcOffers, dlcAccepts)
    {
      hide Sum, FutureFee, FundingFee, SortBy, CeilDiv, Before;
      if |dlcOffers| != |dlcAccepts| { return Err(LengthMismatch); }
      if |dlcOffers| == 0 { return Err(Empty); }
      var same := EnsureSameFundingInputs();
      if !same { return Err(DifferentInputs); }
      var witScripts: seq<LockScript> := [];
      for i := 0 to |dlcOffers|
        invariant |witScripts| == i
        invariant forall j | 0 <= j < i :: witScripts[j] == FundingScript(dlcOffers[j], dlcAccepts[j])
      {
        var offer, accept := dlcOffers[i], dlcAccepts[i];
        witScripts := witScripts + [
          if Before(offer.fundingPubkey, accept.fundingPubkey)
          then Multisig(2, [offer.fundingPubkey, accept.fundingPubkey])
          else Multisig(2, [accept.fundingPubkey, offer.fundingPubkey])];
      }
      var t := TermsOf(dlcOffers, dlcAccepts);
      var fundingInputs := SortBy(dlcOffers[0].fundingInputs + dlcAccepts[0].fundingInputs, InputSerial);
      var offerChangeValue := t.offerTotal - t.offerInput - (t.offerFuture + t.offerFunding);
      var acceptChangeValue := t.acceptTotal - t.acceptInput - (t.acceptFuture + t.acceptFunding);
      if offerChangeValue < 0 { return Err(OfferInsufficient); }
      if acceptChangeValue < 0 && t.acceptTotal > 0 { return Err(AcceptInsufficient); }
      var outputs: seq<Output> := [];
      for i := 0 to |witScripts|
        invariant outputs == FundingOutputs(dlcOffers, dlcAccepts, t)[..i]
      {
        var value := dlcOffers[i].offerCollateral + dlcAccepts[i].acceptCollateral
          + CeilDiv(t.offerFuture, t.n) + CeilDiv(t.acceptFuture, t.n);
        outputs := outputs + [Output(value, witScripts[i], dlcOffers[i].fundOutputSerialId)];
      }
      if offerChangeValue >= DUST_LIMIT {
        var script := Script.ParseRaw(dlcOffers[0].changeSpk);
        if script.None? { return Err(BadScript); }
        outputs := outputs + [Output(offerChangeValue, Raw(script.value), dlcOffers[0].changeSerialId)];
      }
      if acceptChangeValue >= DUST_LIMIT {
        var script := Script.ParseRaw(dlcAccepts[0].changeSpk);
        if script.None? { return Err(BadScript); }
        outputs := outputs + [Output(acceptChangeValue, Raw(script.value), dlcAccepts[0].changeSerialId)];
      }
      assert outputs == Outputs(dlcOffers, dlcAccepts);
      outputs := SortBy(outputs, OutputSerial);
      return Ok(Tx(fundingInputs, outputs));
    }
  }

  // ---------------------------------------------------------------- what the transaction pays

  function TxFee(tx: Tx): int {
    Sum(tx.inputs, Value) - Sum(tx.outputs, OutputValue)
  }

  /** What one side leaves to the fee: what it brings, less its collateral, its share of the
      contracts' future fees, rounded up per contract, and its change. */
  function SidePays(total: int, collateral: int, future: nat, change: int, n: nat): int
    requires n > 0
  {
    total - collateral - n * CeilDiv(future, n) - (if change >= DUST_LIMIT then change else 0)
  }

  lemma CeilDivBounds(x: nat, n: nat)
    requires n > 0
    ensures x <= n * CeilDiv(x, n) <= x + n - 1
  {
    var y := x + n - 1;
    assert y == n * (y / n) + y % n;
  }

  lemma {:induction false} FundingOutputsSum(offers: seq<Offer>, accepts: seq<Accept>, t: Terms)
    requires |offers| == |accepts| && t.n > 0
    ensures Sum(FundingOutputs(offers, accepts, t), OutputValue) ==
      Sum(offers, OfferCollateral) + Sum(accepts, AcceptCollateral) +
      |offers| * (CeilDiv(t.offerFuture, t.n) + CeilDiv(t.acceptFuture, t.n))
    decreases |offers|
  {
    hide CeilDiv;
    if offers != [] {
      var k := |offers| - 1;
      var c := CeilDiv(t.offerFuture, t.n) + CeilDiv(t.acceptFuture, t.n);
      FundingOutputsSum(offers[..k], accepts[..k], t);
      var all := FundingOutputs(offers, accepts, t);
      assert all[..|all| - 1] == FundingOutputs(offers[..k], accepts[..k], t);
      assert (k + 1) * c == k * c + c;
    }
  }

  lemma ChangeSum(value: int, spk: Bytes, serialId: nat)
    requires ChangeParses(value, spk)
    ensures Sum(ChangeOutput(value, spk, serialId), OutputValue) == if value >= DUST_LIMIT then value else 0
  {
    hide Script.FromRaw;
    if value >= DUST_LIMIT {
      SumSingle(Output(value, Raw(Script.FromRaw(spk).value), serialId), OutputValue);
    }
  }

  lemma InputsSum(offers: seq<Offer>, accepts: seq<Accept>)
    requires Build(offers, accepts).Ok?
    ensures var t := TermsOf(offers, accepts);
      Sum(Build(offers, accepts).value.inputs, Value) == t.offerTotal + t.acceptTotal
  {
    SortSum(offers[0].fundingInputs + accepts[0].fundingInputs, InputSerial, Value);
    SumConcat(offers[0].fundingInputs, accepts[0].fundingInputs, Value);
    hide Sum, SortBy, Check, Outputs;
  }

  lemma OutputsSum(offers: seq<Offer>, accepts: seq<Accept>)
    requires Check(offers, accepts).Ok?
    ensures var t := TermsOf(offers, accepts);
      Sum(Outputs(offers, accepts), OutputValue) ==
        Sum(FundingOutputs(offers, accepts, t), OutputValue)
        + (if t.OfferChange() >= DUST_LIMIT then t.OfferChange() else 0)
        + (if t.AcceptChange() >= DUST_LIMIT then t.AcceptChange() else 0)
  {
    var t := TermsOf(offers, accepts);
    hide Sum, TermsOf, FundingOutputs, ChangeOutput, ChangeParses;
    var funding := FundingOutputs(offers, accepts, t);
    var oc := ChangeOutput(t.OfferChange(), offers[0].changeSpk, offers[0].changeSerialId);
    var ac := ChangeOutput(t.AcceptChange(), accepts[0].changeSpk, accepts[0].changeSerialId);
    SumConcat(funding + oc, ac, OutputValue);
    SumConcat(funding, oc, OutputValue);
    ChangeSum(t.OfferChange(), offers[0].changeSpk, offers[0].changeSerialId);
    ChangeSum(t.AcceptChange(), accepts[0].changeSpk, accepts[0].changeSerialId);
  }

  /** The fee is what the two sides pay, each on its own. */
  lemma FeeIsTwoSides(offers: seq<Offer>, accepts: seq<Accept>)
    requires Build(offers, accepts).Ok?
    ensures var t := TermsOf(offers, accepts);
      TxFee(Build(offers, accepts).value) ==
        SidePays(t.offerTotal, t.offerInput, t.offerFuture, t.OfferChange(), t.n) +
        SidePays(t.acceptTotal, t.acceptInput, t.acceptFuture, t.AcceptChange(), t.n)
  {
    var t := TermsOf(offers, accepts);
    InputsSum(offers, accepts);
    OutputsSum(offers, accepts);
    SortSum(Outputs(offers, accepts), OutputSerial, OutputValue);
    FundingOutputsSum(offers, accepts, t);
    var x, y := CeilDiv(t.offerFuture, t.n), CeilDiv(t.acceptFuture, t.n);
    Distribute(x, y, t.n);
    hide Sum, SortBy, CeilDiv, FundingOutputs, Outputs, Check;
  }

  /** A side whose change is not negative pays its funding fee, short at most of a satoshi per
      contract beyond the first and over by less than the dust limit. */
  lemma SideBounds(total: int, collateral: int, future: nat, funding: nat, n: nat)
    requires n > 0
    ensures var change := total - collateral - (future + funding);
      change >= 0 ==>
      funding - (n - 1) <= SidePays(total, collateral, future, change, n) <= funding + (DUST_LIMIT - 1)
  {
    CeilDivBounds(future, n);
  }

  /** A side with a non-negative change never pays a negative amount. */
  lemma SideNonNegative(inputs: seq<FundingInput>, total: int, collateral: int, payoutLen: nat, changeLen: nat,
      feeRate: nat, n: nat)
    requires n > 0
    ensures var future, funding := FutureFee(inputs, payoutLen, feeRate, n), FundingFee(inputs, changeLen, feeRate, n);
      var change := total - collateral - (future + funding);
      change >= 0 ==> SidePays(total, collateral, future, change, n) >= 0
  {
    var future, funding := FutureFee(inputs, payoutLen, feeRate, n), FundingFee(inputs, changeLen, feeRate, n);
    SideBounds(total, collateral, future, funding, n);
    if inputs != [] && feeRate > 0 {
      FundingFeePerContract(inputs, changeLen, feeRate, n);
    } else {
      CeilDivZero(n);
    }
    hide FutureFee, FundingFee, CeilDiv;
  }

  lemma CeilDivZero(n: nat)
    requires n > 0
    ensures CeilDiv(0, n) == 0 && n * CeilDiv(0, n) == 0
  {
    var y := n - 1;
    assert y / n == 0;
  }

  /** The accepter brings value, or owes nothing. */
  predicate AcceptSolvent(offers: seq<Offer>, accepts: seq<Accept>)
    requires |offers| == |accepts| > 0
  {
    var t := TermsOf(offers, accepts);
    t.acceptTotal > 0 || (t.acceptInput == 0 && (accepts[0].fundingInputs == [] || offers[0].feeRatePerVb == 0))
  }

  lemma SolventChange(offers: seq<Offer>, accepts: seq<Accept>)
    requires Build(offers, accepts).Ok? && AcceptSolvent(offers, accepts)
    ensures TermsOf(offers, accepts).AcceptChange() >= 0
  {
    SumNonNegative(accepts[0].fundingInputs, Value);
  }

  /** The fee is never negative and lies within a satoshi per extra contract and side below,
      and less than the dust limit per side above, the two funding fees. */
  lemma FundingFeeBounds(offers: seq<Offer>, accepts: seq<Accept>)
    requires Build(offers, accepts).Ok? && AcceptSolvent(offers, accepts)
    ensures var t := TermsOf(offers, accepts);
      var fee := TxFee(Build(offers, accepts).value);
      fee >= 0 &&
      t.offerFunding + t.acceptFunding - 2 * (|offers| - 1) <= fee <=
      t.offerFunding + t.acceptFunding + 2 * (DUST_LIMIT - 1)
  {
    var t := TermsOf(offers, accepts);
    var o, a, n := offers[0], accepts[0], |offers|;
    FeeIsTwoSides(offers, accepts);
    SolventChange(offers, accepts);
    SideBounds(t.offerTotal, t.offerInput, t.offerFuture, t.offerFunding, n);
    SideBounds(t.acceptTotal, t.acceptInput, t.acceptFuture, t.acceptFunding, n);
    SideNonNegative(o.fundingInputs, t.offerTotal, t.offerInput, |o.payoutSpk|, |o.changeSpk|, o.feeRatePerVb, n);
    SideNonNegative(a.fundingInputs, t.acceptTotal, t.acceptInput, |a.payoutSpk|, |a.changeSpk|, o.feeRatePerVb, n);
    hide Sum, FutureFee, FundingFee, SidePays, TxFee, SortBy, FundingOutputs, AcceptSolvent, Outputs;
  }

  lemma FutureFeePositive(inputs: seq<FundingInput>, payoutLen: nat, feeRate: nat, n: nat)
    requires n > 0 && inputs != [] && feeRate > 0
    ensures FutureFee(inputs, payoutLen, feeRate, n) > 0
  {
    var w := (249 + 4 * payoutLen) * n;
    assert w >= 249 by { MulNat(n, 249 + 4 * payoutLen); }
    MulNat(feeRate, VBytes(w));
  }

  /** The accepter pays a non-negative share exactly when it brings value or owes nothing: with
      nothing but worthless inputs, or none, its collateral is paid out of thin air. */
  lemma AcceptPaysIff(offers: seq<Offer>, accepts: seq<Accept>)
    requires Build(offers, accepts).Ok?
    ensures var t := TermsOf(offers, accepts);
      SidePays(t.acceptTotal, t.acceptInput, t.acceptFuture, t.AcceptChange(), t.n) >= 0 <==>
      AcceptSolvent(offers, accepts)
  {
    var t := TermsOf(offers, accepts);
    var a, n := accepts[0], |offers|;
    SumNonNegative(a.fundingInputs, Value);
    SumNonNegative(accepts, AcceptCollateral);
    CeilDivBounds(t.acceptFuture, n);
    if AcceptSolvent(offers, accepts) {
      SolventChange(offers, accepts);
      SideNonNegative(a.fundingInputs, t.acceptTotal, t.acceptInput, |a.payoutSpk|, |a.changeSpk|,
        offers[0].feeRatePerVb, n);
    } else if a.fundingInputs != [] && offers[0].feeRatePerVb > 0 {
      FutureFeePositive(a.fundingInputs, |a.payoutSpk|, offers[0].feeRatePerVb, n);
    }
    hide Sum, FutureFee, FundingFee, CeilDiv, SortBy, Build;
  }

  /** The fee of the whole transaction is negative exactly when the accepter pays nothing and what
      the offerer leaves to the fee does not cover the accepter's collateral and closing fees. */
  lemma FeeNonNegativeIff(offers: seq<Offer>, accepts: seq<Accept>)
    requires Build(offers, accepts).Ok?
    ensures var t := TermsOf(offers, accepts);
      TxFee(Build(offers, accepts).value) >= 0 <==>
        AcceptSolvent(offers, accepts) ||
        t.acceptInput + t.n * CeilDiv(t.acceptFuture, t.n) <=
          t.offerFuture + t.offerFunding - t.n * CeilDiv(t.offerFuture, t.n)
          + (if t.OfferChange() < DUST_LIMIT then t.OfferChange() else 0)
  {
    FeeIsTwoSides(offers, accepts);
    SumNonNegative(accepts[0].fundingInputs, Value);
    InsolventTerms(offers, accepts);
    if AcceptSolvent(offers, accepts) { FundingFeeBounds(offers, accepts); }
    hide Sum, FutureFee, FundingFee, CeilDiv, SortBy, AcceptSolvent, TermsOf;
  }

  lemma InsolventTerms(offers: seq<Offer>, accepts: seq<Accept>)
    requires Build(offers, accepts).Ok?
    ensures var t := TermsOf(offers, accepts);
      !AcceptSolvent(offers, accepts) ==> t.acceptTotal == 0 && t.AcceptChange() <= 0
  {
    SumNonNegative(accepts[0].fundingInputs, Value);
    SumNonNegative(accepts, AcceptCollateral);
    hide Sum, FutureFee, FundingFee;
  }

  lemma SingleTerms(offers: seq<Offer>, accepts: seq<Accept>, input: FundingInput)
    requires |offers| == |accepts| == 1
    requires offers[0].fundingInputs == [input] && accepts[0].fundingInputs == [] && offers[0].feeRatePerVb == 0
    ensures TermsOf(offers, accepts) ==
      Terms(input.value, 0, offers[0].offerCollateral, accepts[0].acceptCollateral, 0, 0, 0, 0, 1)
  {
    assert offers == [offers[0]] && accepts == [accepts[0]];
    SumSingle(input, Value);
    SumSingle(offers[0], OfferCollateral);
    SumSingle(accepts[0], AcceptCollateral);
    hide InputsWeight, SortBy, InputWeight;
  }

  lemma NoFutureSide(total: int, collateral: int, change: int)
    requires change < DUST_LIMIT
    ensures SidePays(total, collateral, 0, change, 1) == total - collateral
  {
    CeilDivZero(1);
  }

  /** An accepter without inputs can put up a collateral that no input pays for: whatever it
      is, the outputs exceed the inputs by it. */
  lemma CollateralFromNowhere(offers: seq<Offer>, accepts: seq<Accept>, input: FundingInput)
    requires |offers| == |accepts| == 1
    requires offers[0].fundingInputs == [input] && accepts[0].fundingInputs == [] && offers[0].feeRatePerVb == 0
    requires input.value == offers[0].offerCollateral
    ensures Build(offers, accepts).Ok? && TxFee(Build(offers, accepts).value) + accepts[0].acceptCollateral == 0
  {
    SingleTerms(offers, accepts, input);
    hide TermsOf, Sum, SortBy, TxFee, Outputs, SidePays;
    var t := TermsOf(offers, accepts);
    NoFutureSide(t.offerTotal, t.offerInput, 0);
    NoFutureSide(0, t.acceptInput, t.AcceptChange());
    FeeIsTwoSides(offers, accepts);
  }

  // ---------------------------------------------------------------- the same output twice

  function OutPoints(inputs: seq<FundingInput>): set<string> {
    set x | x in inputs :: x.outpoint
  }

  /** No output is spent twice: there are as many outpoints as inputs. */
  predicate SpendsOnce(inputs: seq<FundingInput>) {
    |OutPoints(inputs)| == |inputs|
  }

  lemma {:induction false} OutPointsAtMost(inputs: seq<FundingInput>)
    ensures |OutPoints(inputs)| <= |inputs|
  {
    if inputs != [] {
      var front, last := inputs[..|inputs| - 1], inputs[|inputs| - 1];
      OutPointsAtMost(front);
      assert inputs == front + [last];
      assert OutPoints(inputs) == OutPoints(front) + {last.outpoint};
    }
  }

  lemma UnionSize<T>(a: set<T>, b: set<T>)
    ensures |a + b| == |a| + |b| - |a * b|
  {}

  /** The transaction spends every output once exactly when each side's inputs do and the two sides
      have none in common; nothing in the source checks it. */
  lemma SpendsOnceIff(offers: seq<Offer>, accepts: seq<Accept>)
    requires Build(offers, accepts).Ok?
    ensures var o, a := offers[0].fundingInputs, accepts[0].fundingInputs;
      SpendsOnce(Build(offers, accepts).value.inputs) <==>
        SpendsOnce(o) && SpendsOnce(a) && OutPoints(o) !! OutPoints(a)
  {
    var o, a := offers[0].fundingInputs, accepts[0].fundingInputs;
    var inputs := Build(offers, accepts).value.inputs;
    assert inputs == SortBy(o + a, InputSerial);
    SortPermutes(o + a, InputSerial);
    hide SortBy, Build;
    SameMembers(inputs, o + a);
    assert OutPoints(o + a) == OutPoints(o) + OutPoints(a);
    UnionSize(OutPoints(o), OutPoints(a));
    OutPointsAtMost(o);
    OutPointsAtMost(a);
  }

  lemma SameMembers(s: seq<FundingInput>, t: seq<FundingInput>)
    requires multiset(s) == multiset(t)
    ensures OutPoints(s) == OutPoints(t)
  {
    forall x ensures x in s <==> x in t {
      assert x in multiset(s) <==> x in multiset(t);
    }
  }

  /** Two sides that offer the same output are not refused. */
  lemma SharedOutpointBuilds(offers: seq<Offer>, accepts: seq<Accept>, input: FundingInput)
    requires |offers| == |accepts| == 1 && offers[0].feeRatePerVb == 0
    requires offers[0].fundingInputs == accepts[0].fundingInputs == [input]
    requires input.value == offers[0].offerCollateral == accepts[0].acceptCollateral
    ensures Build(offers, accepts).Ok? && !SpendsOnce(Build(offers, accepts).value.inputs)
  {
    SumSingle(input, Value);
    assert offers == [offers[0]] && accepts == [accepts[0]];
    SumSingle(offers[0], OfferCollateral);
    SumSingle(accepts[0], AcceptCollateral);
    hide Sum, SortBy, Outputs, VBytes, FundingWeight;
    assert TermsOf(offers, accepts).OfferChange() == 0 == TermsOf(offers, accepts).AcceptChange();
    assert input.outpoint in OutPoints([input]);
    SpendsOnceIff(offers, accepts);
  }

  lemma SortedMember<T>(s: seq<T>, key: T -> int, i: nat)
    requires i < |SortBy(s, key)|
    ensures SortBy(s, key)[i] in s
  {
    SortPermutes(s, key);
    hide SortBy;
    assert SortBy(s, key)[i] in multiset(SortBy(s, key));
  }

  lemma OutputMember(offers: seq<Offer>, accepts: seq<Accept>, o: Output)
    requires Check(offers, accepts).Ok? && o in Outputs(offers, accepts)
    ensures if o.script.Raw? then o.value >= DUST_LIMIT
            else o in FundingOutputs(offers, accepts, TermsOf(offers, accepts))
  {
    hide Check, TermsOf, Before;
  }

  /** No change output is dust, and the rest are one funding output per contract. */
  lemma OutputKinds(offers: seq<Offer>, accepts: seq<Accept>, i: nat)
    requires Build(offers, accepts).Ok? && i < |Build(offers, accepts).value.outputs|
    ensures var o := Build(offers, accepts).value.outputs[i];
      if o.script.Raw? then o.value >= DUST_LIMIT else o in FundingOutputs(offers, accepts, TermsOf(offers, accepts))
  {
    hide SortBy, Outputs, FundingOutputs, TermsOf, Check;
    SortedMember(Outputs(offers, accepts), OutputSerial, i);
    OutputMember(offers, accepts, Build(offers, accepts).value.outputs[i]);
  }

  // ---------------------------------------------------------------- exact amounts

  const FAKE_SPK_LEN: nat := 22

  /** `calculateMaxCollateral` */
  function MaxCollateral(inputs: seq<FundingInput>, feeRate: nat, numContracts: nat): nat {
    var rest := Sum(inputs, Value) - FutureFee(inputs, FAKE_SPK_LEN, feeRate, numContracts)
      - FundingFee(inputs, FAKE_SPK_LEN, feeRate, numContracts);
    if rest > 0 then rest else 0
  }

  /** A single-funded offer of the maximal collateral is built without any change output. */
  lemma MaxCollateralIsExact(offers: seq<Offer>, accepts: seq<Accept>)
    requires |offers| == |accepts| > 0 && SameInputs(offers, accepts)
    requires |offers[0].payoutSpk| == |offers[0].changeSpk| == FAKE_SPK_LEN
    requires accepts[0].fundingInputs == [] && Sum(accepts, AcceptCollateral) == 0
    requires var max := MaxCollateral(offers[0].fundingInputs, offers[0].feeRatePerVb, |offers|);
      max > 0 && Sum(offers, OfferCollateral) == max
    ensures Build(offers, accepts).Ok?
    ensures Outputs(offers, accepts) == FundingOutputs(offers, accepts, TermsOf(offers, accepts))
  {
    var t := TermsOf(offers, accepts);
    assert t.acceptTotal == 0 && t.acceptFuture == t.acceptFunding == 0;
    assert t.OfferChange() == 0 && t.AcceptChange() == 0;
    hide Sum, FutureFee, FundingFee, SortBy, FundingOutputs;
  }
}
