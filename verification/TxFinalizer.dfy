/** packages/core/lib/dlc/TxFinalizer.ts: the fees of the dual-funding transaction. */
module TxFinalizer {
  import opened Sorting

  datatype FundingInput =
    FundingInput(inputSerialId: nat, value: nat, maxWitnessLen: nat, redeemScriptLen: nat, outpoint: string)

  const BATCH_FUND_TX_BASE_WEIGHT: nat := 42
  const FUNDING_OUTPUT_SIZE: nat := 43
  const DEFAULT_MAX_WITNESS_LEN: nat := 108

  /** A weight in virtual bytes, rounded up. */
  function VBytes(weight: nat): nat {
    (weight + 3) / 4
  }

  function ScriptSigLength(input: FundingInput): nat {
    if input.redeemScriptLen > 0 then 1 + input.redeemScriptLen else 0
  }

  function InputWeight(input: FundingInput): int {
    164 + input.maxWitnessLen + ScriptSigLength(input)
  }

  function InputsWeight(inputs: seq<FundingInput>): nat {
    SumNonNegative(inputs, InputWeight);
    Sum(inputs, InputWeight)
  }

  /** `fundingInputVBytes` for an input without a redeem script */
  function InputVBytes(maxWitnessLen: nat): nat {
    VBytes(164 + maxWitnessLen)
  }

  function FutureFee(inputs: seq<FundingInput>, payoutSpkLen: nat, feeRate: nat, numContracts: nat): nat {
    if inputs == [] then 0 else feeRate * VBytes((249 + 4 * payoutSpkLen) * numContracts)
  }

  function FundingWeight(inputs: seq<FundingInput>, changeSpkLen: nat, numContracts: nat): nat {
    var contractWeight := (BATCH_FUND_TX_BASE_WEIGHT + FUNDING_OUTPUT_SIZE * numContracts * 4) / 2;
    36 + 4 * changeSpkLen + contractWeight + InputsWeight(inputs)
  }

  function FundingFee(inputs: seq<FundingInput>, changeSpkLen: nat, feeRate: nat, numContracts: nat): nat {
    if inputs == [] then 0 else feeRate * VBytes(FundingWeight(inputs, changeSpkLen, numContracts))
  }

  lemma MulNat(x: nat, y: nat)
    ensures x * y >= 0 && (x > 0 ==> x * y >= y)
  {
    if x > 0 { assert x * y == (x - 1) * y + y; }
  }

  /** The funding fee pays at least 21 satoshi a contract, unless it is zero. */
  lemma FundingFeePerContract(inputs: seq<FundingInput>, changeSpkLen: nat, feeRate: nat, numContracts: nat)
    requires inputs != [] && feeRate > 0
    ensures FundingFee(inputs, changeSpkLen, feeRate, numContracts) >= 21 * numContracts
  {
    MulNat(feeRate, VBytes(FundingWeight(inputs, changeSpkLen, numContracts)));
  }
}
