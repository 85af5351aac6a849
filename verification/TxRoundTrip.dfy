/** What `Tx.decode` makes of what `Tx.serialize` writes. */
module TxRoundTrip {
  import opened Wrappers
  import opened Numbers
  import opened Sequences
  import opened Bufio
  import opened Script
  import opened Tx

  // ---------------------------------------------------------------- lists

  function AllSome<T>(xs: seq<Option<T>>): Option<seq<T>> {
    if xs == [] then Some([])
    else
      var x :- xs[0];
      var more :- AllSome(xs[1..]);
      Some([x] + more)
  }

  lemma {:induction false} AllSomeIff<T>(xs: seq<Option<T>>, ys: seq<T>)
    requires |xs| == |ys|
    ensures AllSome(xs) == Some(ys) <==> forall i | 0 <= i < |xs| :: xs[i] == Some(ys[i])
    decreases |xs|
  {
    if xs != [] {
      AllSomeIff(xs[1..], ys[1..]);
      assert ys == [ys[0]] + ys[1..];
      assert (forall i | 0 <= i < |xs| :: xs[i] == Some(ys[i])) <==>
        xs[0] == Some(ys[0]) && forall i | 0 <= i < |xs[1..]| :: xs[1..][i] == Some(ys[1..][i]);
    }
  }

  function With<T>(x: Option<T>, rest: seq<Byte>): Parsed<T> {
    if x.None? then None else Some((x.value, rest))
  }

  /** If each part is read back as `backs` says and leaves the reader at its end, so is the list. */
  lemma {:induction false} ManyReadBack<T>(p: seq<Byte> -> Parsed<T>, parts: seq<seq<Byte>>, backs: seq<Option<T>>,
      rest: seq<Byte>)
    requires |parts| == |backs|
    requires forall i, t | 0 <= i < |parts| :: p(parts[i] + t) == With(backs[i], t)
    ensures ParseMany(p, Concat(parts) + rest, |parts|) == With(AllSome(backs), rest)
    decreases |parts|
  {
    if parts == [] {
      assert [] + rest == rest;
    } else {
      var tail := Concat(parts[1..]) + rest;
      assert Concat(parts) + rest == parts[0] + tail;
      assert p(parts[0] + tail) == With(backs[0], tail);
      forall i, t | 0 <= i < |parts[1..]| ensures p(parts[1..][i] + t) == With(backs[1..][i], t) {
        assert p(parts[i + 1] + t) == With(backs[i + 1], t);
      }
      ManyReadBack(p, parts[1..], backs[1..], rest);
    }
  }

  // ---------------------------------------------------------------- the parts

  function ScriptBack(cmds: seq<Cmd>): Option<seq<Cmd>>
    requires Serializable(cmds)
  {
    ParseCmds(SerCmds(cmds))
  }

  function InBack(i: TxIn): Option<TxIn>
    requires Serializable(i.scriptSig)
  {
    var script :- ScriptBack(i.scriptSig);
    Some(i.(scriptSig := script, stack := []))
  }

  function OutBack(o: TxOut): Option<TxOut>
    requires Serializable(o.scriptPubKey)
  {
    var script :- ScriptBack(o.scriptPubKey);
    Some(o.(scriptPubKey := script))
  }

  lemma U32ReadBack(v: U32, rest: seq<Byte>)
    ensures ParseU32(LE(v, 4) + rest) == Some((v, rest))
  {
    Widths();
    UIntReadBack(v, 4, rest);
    hide LE, FromLE, Pow;
  }

  lemma U64ReadBack(v: U64, rest: seq<Byte>)
    ensures ParseU64(LE(v, 8) + rest) == Some((v, rest))
  {
    Widths();
    UIntReadBack(v, 8, rest);
    hide LE, FromLE, Pow;
  }

  lemma InReadBack(i: TxIn, rest: seq<Byte>)
    requires CountableIn(i) && Serializable(i.scriptSig)
    ensures ParseIn(SerIn(i) + rest) == With(InBack(i), rest)
  {
    hide ParseBytes, ParseU32, ParseScript, SerScript, Serializable, CountableStack, ParseCmds, SerCmds, LE;
    var t3 := LE(i.sequence, 4) + rest;
    var t2 := SerScript(i.scriptSig) + t3;
    var t1 := LE(i.index, 4) + t2;
    U32ReadBack(i.sequence, rest);
    ScriptReadBack(i.scriptSig, t3);
    U32ReadBack(i.index, t2);
    BytesReadBack(i.txid, t1);
    assert SerIn(i) + rest == i.txid + t1;
  }

  lemma OutReadBack(o: TxOut, rest: seq<Byte>)
    requires |o.scriptPubKey| < 0x1_0000_0000 && Serializable(o.scriptPubKey)
    ensures ParseOut(SerOut(o) + rest) == With(OutBack(o), rest)
  {
    hide ParseU64, ParseScript, SerScript, Serializable, ParseCmds, SerCmds, LE;
    var t1 := SerScript(o.scriptPubKey) + rest;
    ScriptReadBack(o.scriptPubKey, rest);
    U64ReadBack(o.value, t1);
    assert SerOut(o) + rest == LE(o.value, 8) + t1;
  }

  lemma ItemReadBack(w: seq<Byte>, rest: seq<Byte>)
    requires |w| < 0x20_0000_0000_0000
    ensures ParseItem(SerItem(w) + rest) == Some((w, rest))
  {
    hide VarInt, ParseVarInt, ParseBytes;
    VarIntReadBack(|w|, w + rest);
    BytesReadBack(w, rest);
    assert SerItem(w) + rest == VarInt(|w|) + (w + rest);
  }

  function Somes<T>(xs: seq<T>): (r: seq<Option<T>>)
    ensures |r| == |xs| && forall i | 0 <= i < |r| :: r[i] == Some(xs[i])
  {
    seq(|xs|, i requires 0 <= i < |xs| => Some(xs[i]))
  }

  lemma StackReadBack(stack: seq<seq<Byte>>, rest: seq<Byte>)
    requires CountableStack(stack)
    ensures ParseStack(SerStack(stack) + rest) == Some((stack, rest))
  {
    var parts := seq(|stack|, k requires 0 <= k < |stack| => SerItem(stack[k]));
    hide VarInt, ParseVarInt, ParseItem, SerItem;
    VarIntReadBack(|stack|, Concat(parts) + rest);
    forall k, t | 0 <= k < |parts| ensures ParseItem(parts[k] + t) == With(Somes(stack)[k], t) {
      ItemReadBack(stack[k], t);
    }
    ManyReadBack(ParseItem, parts, Somes(stack), rest);
    AllSomeIff(Somes(stack), stack);
    assert SerStack(stack) + rest == VarInt(|stack|) + (Concat(parts) + rest);
  }

  function InBacks(tx: Tx): (r: seq<Option<TxIn>>)
    requires Good(tx)
    ensures |r| == |tx.inputs| && forall i | 0 <= i < |r| :: r[i] == InBack(tx.inputs[i])
  {
    seq(|tx.inputs|, i requires 0 <= i < |tx.inputs| => InBack(tx.inputs[i]))
  }

  function OutBacks(tx: Tx): (r: seq<Option<TxOut>>)
    requires Good(tx)
    ensures |r| == |tx.outputs| && forall i | 0 <= i < |r| :: r[i] == OutBack(tx.outputs[i])
  {
    seq(|tx.outputs|, i requires 0 <= i < |tx.outputs| => OutBack(tx.outputs[i]))
  }

  function Stacks(tx: Tx): (r: seq<seq<seq<Byte>>>)
    ensures |r| == |tx.inputs| && forall i | 0 <= i < |r| :: r[i] == tx.inputs[i].stack
  {
    seq(|tx.inputs|, i requires 0 <= i < |tx.inputs| => tx.inputs[i].stack)
  }

  lemma InsReadBack(tx: Tx, rest: seq<Byte>)
    requires Good(tx)
    ensures ParseIns(SerIns(tx) + rest) == With(AllSome(InBacks(tx)), rest)
  {
    hide VarInt, ParseVarInt, ParseIn, SerIn, InBack, Serializable, CountableIn;
    var parts := InParts(tx);
    VarIntReadBack(|parts|, Concat(parts) + rest);
    forall k, t | 0 <= k < |parts| ensures ParseIn(parts[k] + t) == With(InBacks(tx)[k], t) {
      InReadBack(tx.inputs[k], t);
    }
    ManyReadBack(ParseIn, parts, InBacks(tx), rest);
    assert SerIns(tx) + rest == VarInt(|parts|) + (Concat(parts) + rest);
  }

  lemma OutsReadBack(tx: Tx, rest: seq<Byte>)
    requires Good(tx)
    ensures ParseOuts(SerOuts(tx) + rest) == With(AllSome(OutBacks(tx)), rest)
  {
    hide VarInt, ParseVarInt, ParseOut, SerOut, OutBack, Serializable, CountableIn;
    var parts := OutParts(tx);
    VarIntReadBack(|parts|, Concat(parts) + rest);
    forall k, t | 0 <= k < |parts| ensures ParseOut(parts[k] + t) == With(OutBacks(tx)[k], t) {
      OutReadBack(tx.outputs[k], t);
    }
    ManyReadBack(ParseOut, parts, OutBacks(tx), rest);
    assert SerOuts(tx) + rest == VarInt(|parts|) + (Concat(parts) + rest);
  }

  lemma StacksReadBack(tx: Tx, rest: seq<Byte>)
    requires Good(tx)
    ensures ParseMany(ParseStack, Concat(StackParts(tx)) + rest, |tx.inputs|) == Some((Stacks(tx), rest))
  {
    hide ParseStack, SerStack, Serializable;
    var parts := StackParts(tx);
    forall k, t | 0 <= k < |parts| ensures ParseStack(parts[k] + t) == With(Somes(Stacks(tx))[k], t) {
      StackReadBack(tx.inputs[k].stack, t);
    }
    ManyReadBack(ParseStack, parts, Somes(Stacks(tx)), rest);
    AllSomeIff(Somes(Stacks(tx)), Stacks(tx));
  }

  // ---------------------------------------------------------------- transactions

  lemma {:induction false} AllSomeCount<T>(xs: seq<Option<T>>)
    ensures AllSome(xs).Some? ==> |AllSome(xs).value| == |xs|
    decreases |xs|
  {
    if xs != [] { AllSomeCount(xs[1..]); }
  }

  /** What the parser reads: the transaction with every script as its bytes are parsed. */
  function ReadBack(tx: Tx): Option<Tx>
    requires Good(tx)
  {
    var ins :- AllSome(InBacks(tx));
    AllSomeCount(InBacks(tx));
    var outs :- AllSome(OutBacks(tx));
    Some(Tx(tx.version, WithStacks(ins, Stacks(tx)), outs, tx.locktime))
  }

  /** No script has an opcode in the range of the pushes. */
  predicate CanonicalTx(tx: Tx) {
    && (forall i | 0 <= i < |tx.inputs| :: Canonical(tx.inputs[i].scriptSig))
    && (forall i | 0 <= i < |tx.outputs| :: Canonical(tx.outputs[i].scriptPubKey))
  }

  lemma {:induction false} AllSomeEach<T>(xs: seq<Option<T>>, i: nat)
    requires AllSome(xs).Some? && i < |xs|
    ensures |AllSome(xs).value| == |xs| && xs[i] == Some(AllSome(xs).value[i])
    decreases |xs|
  {
    AllSomeCount(xs);
    if i > 0 { AllSomeEach(xs[1..], i - 1); }
  }

  /** What is read back of an input has no witness yet. */
  lemma BacksHaveNoStack(tx: Tx)
    requires Good(tx) && AllSome(InBacks(tx)).Some?
    ensures |AllSome(InBacks(tx)).value| == |tx.inputs|
    ensures forall i | 0 <= i < |tx.inputs| :: AllSome(InBacks(tx)).value[i].stack == []
  {
    AllSomeCount(InBacks(tx));
    forall i | 0 <= i < |tx.inputs| ensures AllSome(InBacks(tx)).value[i].stack == [] {
      AllSomeEach(InBacks(tx), i);
    }
  }

  /** Without witnesses nothing is to be pushed. */
  lemma NoStacks(tx: Tx)
    requires Good(tx) && !tx.IsSegWit() && AllSome(InBacks(tx)).Some?
    ensures var ins := AllSome(InBacks(tx)).value;
      |ins| == |tx.inputs| && WithStacks(ins, Stacks(tx)) == ins
  {
    BacksHaveNoStack(tx);
    var ins := AllSome(InBacks(tx)).value;
    hide Good, AllSome, InBacks;
    forall i | 0 <= i < |ins| ensures WithStacks(ins, Stacks(tx))[i] == ins[i] {
      assert Stacks(tx)[i] == [] && ins[i].stack == [];
      assert [] + Stacks(tx)[i] == [];
    }
  }

  lemma LegacyReadBack(tx: Tx, allowWitness: bool)
    requires Good(tx) && tx.inputs != [] && !tx.IsSegWit()
    ensures ParseTx(Legacy(tx), allowWitness) == ReadBack(tx)
  {
    var t2 := SerOuts(tx) + LE(tx.locktime, 4);
    var t1 := SerIns(tx) + t2;
    hide Good, ParseU32, ParseIns, ParseBody, ParseEnd, SerIns, SerOuts, AllSome, InBacks, OutBacks, LE, WithStacks,
        Stacks;
    U32ReadBack(tx.version, t1);
    InsReadBack(tx, t2);
    var ins, outs := AllSome(InBacks(tx)), AllSome(OutBacks(tx));
    if ins.Some? {
      NoStacks(tx);
      LegacyBody(tx, ins.value, LE(tx.locktime, 4), allowWitness);
      if outs.Some? { LegacyEnd(tx.version, Body(0, ins.value, outs.value), tx.locktime, allowWitness); }
    }
  }

  lemma LegacyBody(tx: Tx, ins: seq<TxIn>, rest: seq<Byte>, allowWitness: bool)
    requires Good(tx) && ins != []
    ensures var outs := AllSome(OutBacks(tx));
      ParseBody(SerOuts(tx) + rest, ins, allowWitness) ==
        if outs.None? then None else Some((Body(0, ins, outs.value), rest))
  {
    hide Good, ParseOuts, SerOuts, AllSome, OutBacks;
    OutsReadBack(tx, rest);
  }

  lemma LegacyEnd(version: U32, body: Body, locktime: U32, allowWitness: bool)
    requires body.flags % 2 == 0
    ensures ParseEnd(LE(locktime, 4), version, body, allowWitness) ==
      Some(Tx(version, body.inputs, body.outputs, locktime))
  {
    hide ParseU32, LE, ParseWitness;
    U32ReadBack(locktime, []);
    assert LE(locktime, 4) + [] == LE(locktime, 4);
  }

  lemma NoInputs(rest: seq<Byte>)
    ensures ParseIns([0] + rest) == Some(([], rest))
  {
    hide ParseIn;
    VarIntReadBack(0, rest);
    assert VarInt(0) == [0];
  }

  /** The segwit form with a flag and with or without the witnesses in front of the lock time. */
  function Flagged(tx: Tx, flag: Byte, stacks: seq<Byte>): seq<Byte>
    requires Good(tx)
  {
    LE(tx.version, 4) + ([0] + ([flag] + (SerIns(tx) + (SerOuts(tx) + (stacks + LE(tx.locktime, 4))))))
  }

  /** Behind the marker any flag but 0 is read; witnesses follow exactly if it is odd. */
  lemma FlagReadBack(tx: Tx, flag: Byte)
    requires Good(tx) && flag != 0
    ensures ParseTx(Flagged(tx, flag, if flag % 2 == 1 then Concat(StackParts(tx)) else []), true) ==
      if flag % 2 == 1 then ReadBack(tx) else BareReadBack(tx)
  {
    var stacks := if flag % 2 == 1 then Concat(StackParts(tx)) else [];
    var t4 := stacks + LE(tx.locktime, 4);
    var t1 := [flag] + (SerIns(tx) + (SerOuts(tx) + t4));
    var ins, outs := AllSome(InBacks(tx)), AllSome(OutBacks(tx));
    AllSomeCount(InBacks(tx));
    hide Good, ParseU32, ParseIns, ParseBody, ParseEnd, SerIns, SerOuts, AllSome, InBacks, OutBacks, LE, Concat,
      StackParts, WithStacks, Stacks;
    U32ReadBack(tx.version, [0] + t1);
    NoInputs(t1);
    BodyReadBack(tx, flag, t4);
    if ins.Some? && outs.Some? {
      if flag % 2 == 1 {
        EndReadBack(tx, flag, ins.value, outs.value);
      } else {
        LegacyEnd(tx.version, Body(flag, ins.value, outs.value), tx.locktime, true);
        assert t4 == LE(tx.locktime, 4);
      }
    }
  }

  /** What is read without the witnesses. */
  function BareReadBack(tx: Tx): Option<Tx>
    requires Good(tx)
  {
    var ins :- AllSome(InBacks(tx));
    var outs :- AllSome(OutBacks(tx));
    Some(Tx(tx.version, ins, outs, tx.locktime))
  }

  lemma SegWitReadBack(tx: Tx)
    requires Good(tx) && tx.IsSegWit()
    ensures ParseTx(SegWit(tx), true) == ReadBack(tx)
  {
    hide ParseTx, ReadBack, Good, SerIns, SerOuts, LE, StackParts, Concat;
    FlagReadBack(tx, 1);
  }

  lemma EndReadBack(tx: Tx, flag: Byte, ins: seq<TxIn>, outs: seq<TxOut>)
    requires Good(tx) && |ins| == |tx.inputs| && flag % 2 == 1
    ensures ParseEnd(Concat(StackParts(tx)) + LE(tx.locktime, 4), tx.version, Body(flag, ins, outs), true)
      == Some(Tx(tx.version, WithStacks(ins, Stacks(tx)), outs, tx.locktime))
  {
    hide Good, ParseU32, LE, Concat, StackParts, WithStacks, Stacks, ParseWitness;
    WitnessReadBack(tx, LE(tx.locktime, 4), ins);
    U32ReadBack(tx.locktime, []);
    assert LE(tx.locktime, 4) + [] == LE(tx.locktime, 4);
  }

  lemma BodyReadBack(tx: Tx, flag: Byte, rest: seq<Byte>)
    requires Good(tx) && flag != 0
    ensures var ins, outs := AllSome(InBacks(tx)), AllSome(OutBacks(tx));
      ParseBody([flag] + (SerIns(tx) + (SerOuts(tx) + rest)), [], true) ==
        if ins.None? || outs.None? then None else Some((Body(flag, ins.value, outs.value), rest))
  {
    hide Good, ParseUInt, ParseIns, ParseOuts, SerIns, SerOuts, AllSome, InBacks, OutBacks;
    FirstByte(flag, SerIns(tx) + (SerOuts(tx) + rest));
    InsReadBack(tx, SerOuts(tx) + rest);
    OutsReadBack(tx, rest);
  }

  lemma WitnessReadBack(tx: Tx, rest: seq<Byte>, ins: seq<TxIn>)
    requires Good(tx) && |ins| == |tx.inputs|
    ensures ParseWitness(Concat(StackParts(tx)) + rest, ins) == Some((WithStacks(ins, Stacks(tx)), rest))
  {
    StacksReadBack(tx, rest);
    hide Good, Concat, StackParts, ParseMany, Stacks, WithStacks;
  }

  /** Without witnesses the marker reads as a transaction without inputs. */
  lemma SegWitAsLegacy(tx: Tx)
    requires Good(tx)
    ensures ParseTx(SegWit(tx), false).Some? ==> ParseTx(SegWit(tx), false).value.inputs == []
  {
    hide Good, ParseTx, SerIns, SerOuts, LE, SerWitness;
    var t1 := [1] + (SerIns(tx) + (SerOuts(tx) + (SerWitness(tx) + LE(tx.locktime, 4))));
    U32ReadBack(tx.version, [0] + t1);
    NoInputs(t1);
    LegacyWithoutInputs(SegWit(tx), tx.version, [0] + t1, t1);
  }

  lemma LegacyWithoutInputs(s: seq<Byte>, version: U32, t: seq<Byte>, u: seq<Byte>)
    requires ParseU32(s) == Some((version, t)) && ParseIns(t) == Some(([], u))
    ensures ParseTx(s, false).Some? ==> ParseTx(s, false).value.inputs == []
  {
    hide ParseU32, ParseIns, ParseOuts;
  }

  lemma InBackIff(i: TxIn)
    requires Serializable(i.scriptSig)
    ensures InBack(i) == Some(i.(stack := [])) <==> Canonical(i.scriptSig)
  {
    ScriptRoundTripIff(i.scriptSig);
    hide ParseCmds, SerCmds, Canonical;
  }

  lemma OutBackIff(o: TxOut)
    requires Serializable(o.scriptPubKey)
    ensures OutBack(o) == Some(o) <==> Canonical(o.scriptPubKey)
  {
    ScriptRoundTripIff(o.scriptPubKey);
    hide ParseCmds, SerCmds, Canonical;
  }

  function Bare(tx: Tx): (r: seq<TxIn>)
    ensures |r| == |tx.inputs| && forall i | 0 <= i < |r| :: r[i] == tx.inputs[i].(stack := [])
  {
    seq(|tx.inputs|, i requires 0 <= i < |tx.inputs| => tx.inputs[i].(stack := []))
  }

  lemma ReadBackIff(tx: Tx)
    requires Good(tx)
    ensures ReadBack(tx) == Some(tx) <==> CanonicalTx(tx)
  {
    forall i | 0 <= i < |tx.inputs|
      ensures InBacks(tx)[i] == Some(Bare(tx)[i]) <==> Canonical(tx.inputs[i].scriptSig)
    {
      InBackIff(tx.inputs[i]);
    }
    forall i | 0 <= i < |tx.outputs|
      ensures OutBacks(tx)[i] == Some(tx.outputs[i]) <==> Canonical(tx.outputs[i].scriptPubKey)
    {
      OutBackIff(tx.outputs[i]);
    }
    AllSomeIff(InBacks(tx), Bare(tx));
    AllSomeIff(OutBacks(tx), tx.outputs);
    hide Canonical, Serializable, InBack, OutBack, ParseCmds, SerCmds;
    var ins := AllSome(InBacks(tx));
    if ins.Some? {
      BacksHaveNoStack(tx);
      BareWithStacks(tx, ins.value);
    }
    hide Good, AllSome, InBacks, OutBacks, WithStacks, Stacks;
  }

  lemma BareWithStacks(tx: Tx, ins: seq<TxIn>)
    requires |ins| == |tx.inputs| && forall i | 0 <= i < |ins| :: ins[i].stack == []
    ensures WithStacks(ins, Stacks(tx)) == tx.inputs <==> ins == Bare(tx)
  {
    var r := WithStacks(ins, Stacks(tx));
    forall i | 0 <= i < |ins| ensures r[i] == tx.inputs[i] <==> ins[i] == Bare(tx)[i] {
      assert r[i] == ins[i].(stack := tx.inputs[i].stack);
      assert ins[i] == r[i].(stack := []);
    }
  }

  /** `Tx.decode(tx.serialize())` gives back the transaction exactly when no script has an opcode in
      the range of the pushes. */
  lemma RoundTripIff(tx: Tx)
    requires Good(tx) && tx.inputs != []
    ensures Decode(Serialize(tx)) == Some(tx) <==> CanonicalTx(tx)
  {
    ReadBackIff(tx);
    hide ParseTx, ReadBack, Good, CanonicalTx;
    if tx.IsSegWit() {
      SegWitReadBack(tx);
      SegWitAsLegacy(tx);
    } else {
      LegacyReadBack(tx, true);
      LegacyReadBack(tx, false);
    }
  }
}
