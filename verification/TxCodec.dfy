/** packages/bitcoin/lib/Tx.ts: the methods that write, measure and read transactions. */
module TxCodec {
  import opened Wrappers
  import opened Sequences
  import opened Bufio
  import opened Script
  import opened Tx

  // ---------------------------------------------------------------- writing

  lemma {:induction false} ConcatAppend(parts: seq<seq<Byte>>, i: nat)
    requires i < |parts|
    ensures Concat(parts[..i + 1]) == Concat(parts[..i]) + parts[i]
    decreases i
  {
    if i > 0 {
      ConcatAppend(parts[1..], i - 1);
      assert parts[..i + 1][1..] == parts[1..][..i] && parts[..i][1..] == parts[1..][..i - 1];
    } else {
      assert parts[..1] == [parts[0]];
      assert Concat([parts[0]]) == parts[0] + Concat([]);
    }
  }

  lemma ConcatAll(parts: seq<seq<Byte>>)
    ensures Concat(parts[..0]) == [] && Concat(parts[..|parts|]) == Concat(parts)
  {
    assert parts[..|parts|] == parts;
  }

  /** `TxIn.serialize` */
  method SerializeInput(i: TxIn) returns (r: Result<seq<Byte>, Error>)
    requires CountableIn(i)
    ensures r.Ok? <==> Serializable(i.scriptSig)
    ensures r.Ok? ==> r.value == SerIn(i)
  {
    hide LE, VarInt, SerCmds, Serializable;
    var script := SerializeScript(i.scriptSig);
    if script.Err? { return script; }
    var writer := new BufferWriter();
    writer.WriteBytes(i.txid);
    writer.WriteUInt32LE(i.index);
    writer.WriteBytes(script.value);
    writer.WriteUInt32LE(i.sequence);
    assert writer.buf == SerIn(i);
    return Ok(writer.buf);
  }

  /** `TxOut.serialize` */
  method SerializeOutput(o: TxOut) returns (r: Result<seq<Byte>, Error>)
    requires |o.scriptPubKey| < 0x1_0000_0000
    ensures r.Ok? <==> Serializable(o.scriptPubKey)
    ensures r.Ok? ==> r.value == SerOut(o)
  {
    hide LE, VarInt, SerCmds, Serializable;
    var script := SerializeScript(o.scriptPubKey);
    if script.Err? { return script; }
    var writer := new BufferWriter();
    writer.WriteUInt64LE(o.value);
    writer.WriteBytes(script.value);
    return Ok(writer.buf);
  }

  /** `Script.serialize` */
  method SerializeScript(cmds: seq<Cmd>) returns (r: Result<seq<Byte>, Error>)
    requires |cmds| < 0x1_0000_0000
    ensures r.Ok? <==> Serializable(cmds)
    ensures r.Ok? ==> r.value == SerScript(cmds)
  {
    r := SerializeCmds(cmds);
    if r.Ok? { r := Ok(VarInt(|r.value|) + r.value); }
  }

  method WriteInputs(writer: BufferWriter, tx: Tx) returns (r: Result<(), Error>)
    requires Countable(tx)
    modifies writer
    ensures r.Ok? <==> forall i | 0 <= i < |tx.inputs| :: Serializable(tx.inputs[i].scriptSig)
    ensures r.Ok? && Good(tx) ==> writer.buf == old(writer.buf) + SerIns(tx)
  {
    hide VarInt, SerIn, Serializable, CountableIn;
    var count := |tx.inputs|;
    writer.WriteVarInt(count);
    ghost var start := writer.buf;
    if Good(tx) { ConcatAll(InParts(tx)); }
    for i := 0 to count
      invariant forall k | 0 <= k < i :: Serializable(tx.inputs[k].scriptSig)
      invariant Good(tx) ==> writer.buf == start + Concat(InParts(tx)[..i])
    {
      var input := SerializeInput(tx.inputs[i]);
      if input.Err? { return Err(input.error); }
      writer.WriteBytes(input.value);
      if Good(tx) { ConcatAppend(InParts(tx), i); }
    }
    return Ok(());
  }

  method WriteOutputs(writer: BufferWriter, tx: Tx) returns (r: Result<(), Error>)
    requires Countable(tx)
    modifies writer
    ensures r.Ok? <==> forall i | 0 <= i < |tx.outputs| :: Serializable(tx.outputs[i].scriptPubKey)
    ensures r.Ok? && Good(tx) ==> writer.buf == old(writer.buf) + SerOuts(tx)
  {
    hide VarInt, SerOut, Serializable, CountableIn;
    var count := |tx.outputs|;
    writer.WriteVarInt(count);
    ghost var start := writer.buf;
    if Good(tx) { ConcatAll(OutParts(tx)); }
    for i := 0 to count
      invariant forall k | 0 <= k < i :: Serializable(tx.outputs[k].scriptPubKey)
      invariant Good(tx) ==> writer.buf == start + Concat(OutParts(tx)[..i])
    {
      var output := SerializeOutput(tx.outputs[i]);
      if output.Err? { return Err(output.error); }
      writer.WriteBytes(output.value);
      if Good(tx) { ConcatAppend(OutParts(tx), i); }
    }
    return Ok(());
  }

  function ItemParts(stack: seq<seq<Byte>>): (r: seq<seq<Byte>>)
    requires CountableStack(stack)
    ensures |r| == |stack| && forall k | 0 <= k < |r| :: r[k] == SerItem(stack[k])
  {
    seq(|stack|, k requires 0 <= k < |stack| => SerItem(stack[k]))
  }

  method WriteStack(writer: BufferWriter, stack: seq<seq<Byte>>)
    requires CountableStack(stack)
    modifies writer
    ensures writer.buf == old(writer.buf) + SerStack(stack)
  {
    hide VarInt;
    ghost var parts := ItemParts(stack);
    assert SerStack(stack) == VarInt(|stack|) + Concat(parts);
    writer.WriteVarInt(|stack|);
    ghost var start := writer.buf;
    ConcatAll(parts);
    for k := 0 to |stack|
      invariant writer.buf == start + Concat(parts[..k])
    {
      writer.WriteVarInt(|stack[k]|);
      writer.WriteBytes(stack[k]);
      ConcatAppend(parts, k);
    }
  }

  /** `_serializeLegacy` */
  method SerializeLegacy(tx: Tx) returns (r: Result<seq<Byte>, Error>)
    requires Countable(tx)
    ensures r.Ok? <==> Writable(tx)
    ensures r.Ok? ==> r.value == Legacy(tx)
  {
    hide LE, SerIns, SerOuts, Serializable, Countable;
    var writer := new BufferWriter();
    writer.WriteUInt32LE(tx.version);
    var ok := WriteInputs(writer, tx);
    if ok.Err? { return Err(ok.error); }
    ok := WriteOutputs(writer, tx);
    if ok.Err? { return Err(ok.error); }
    writer.WriteUInt32LE(tx.locktime);
    assert writer.buf == Legacy(tx);
    return Ok(writer.buf);
  }

  /** `_serializeSegWit` */
  method SerializeSegWit(tx: Tx) returns (r: Result<seq<Byte>, Error>)
    requires Countable(tx)
    ensures r.Ok? <==> Writable(tx)
    ensures r.Ok? ==> r.value == SegWit(tx)
  {
    hide LE, SerIns, SerOuts, StackParts, Concat, SegWit, Serializable, Countable;
    var writer := new BufferWriter();
    writer.WriteUInt32LE(tx.version);
    writer.WriteBytes([0, 1]);
    var ok := WriteInputs(writer, tx);
    if ok.Err? { return Err(ok.error); }
    ok := WriteOutputs(writer, tx);
    if ok.Err? { return Err(ok.error); }
    var segwit := IsSegWit(tx);
    if segwit { WriteStacks(writer, tx); }
    writer.WriteUInt32LE(tx.locktime);
    SegWitSplit(tx);
    return Ok(writer.buf);
  }

  lemma SegWitSplit(tx: Tx)
    requires Good(tx)
    ensures SegWit(tx) == LE(tx.version, 4) + [0, 1] + SerIns(tx) + SerOuts(tx) + SerWitness(tx) + LE(tx.locktime, 4)
  {
    hide LE, SerIns, SerOuts, SerWitness;
  }

  method WriteStacks(writer: BufferWriter, tx: Tx)
    requires Good(tx)
    modifies writer
    ensures writer.buf == old(writer.buf) + Concat(StackParts(tx))
  {
    ghost var parts := StackParts(tx);
    ConcatAll(parts);
    hide SerStack;
    for i := 0 to |tx.inputs|
      invariant writer.buf == old(writer.buf) + Concat(parts[..i])
    {
      WriteStack(writer, tx.inputs[i].stack);
      ConcatAppend(parts, i);
    }
  }

  method IsSegWit(tx: Tx) returns (r: bool)
    ensures r == tx.IsSegWit()
  {
    for i := 0 to |tx.inputs|
      invariant forall k | 0 <= k < i :: tx.inputs[k].stack == []
    {
      if |tx.inputs[i].stack| > 0 { return true; }
    }
    return false;
  }

  /** `serialize` */
  method SerializeTx(tx: Tx) returns (r: Result<seq<Byte>, Error>)
    requires Countable(tx)
    ensures r.Ok? <==> Writable(tx)
    ensures r.Ok? ==> r.value == Serialize(tx)
  {
    hide Legacy, SegWit;
    var segwit := IsSegWit(tx);
    if segwit { r := SerializeSegWit(tx); } else { r := SerializeLegacy(tx); }
  }

  // ---------------------------------------------------------------- reading

  method ReadIn(reader: StreamReader) returns (r: Option<TxIn>)
    modifies reader
    ensures Reads(ParseIn(old(reader.rest)), r, reader.rest)
  {
    hide ParseScript, FromLE;
    var txid :- reader.ReadBytes(32);
    var index :- reader.ReadU32();
    var script :- Parse(reader);
    var sequence :- reader.ReadU32();
    return Some(TxIn(txid, index, script, sequence, []));
  }

  method ReadOut(reader: StreamReader) returns (r: Option<TxOut>)
    modifies reader
    ensures Reads(ParseOut(old(reader.rest)), r, reader.rest)
  {
    hide ParseScript, FromLE;
    var value :- reader.ReadU64();
    var script :- Parse(reader);
    return Some(TxOut(value, script));
  }

  /** `Witness.parse` */
  method ReadItem(reader: StreamReader) returns (r: Option<seq<Byte>>)
    modifies reader
    ensures Reads(ParseItem(old(reader.rest)), r, reader.rest)
  {
    hide ParseVarInt;
    var len :- reader.ReadVarInt();
    r := reader.ReadBytes(len);
  }

  /** The loop that has collected `done` reads what the list parser reads. */
  predicate Reading<T(==)>(whole: Parsed<seq<T>>, done: seq<T>, more: Parsed<seq<T>>) {
    if more.None? then whole.None? else whole == Some((done + more.value.0, more.value.1))
  }

  lemma ReadingStarts<T>(p: seq<Byte> -> Parsed<T>, s: seq<Byte>, n: nat)
    ensures Reading(ParseMany(p, s, n), [], ParseMany(p, s, n))
  {
    var r := ParseMany(p, s, n);
    assert r.Some? ==> [] + r.value.0 == r.value.0;
  }

  lemma ReadingStep<T>(p: seq<Byte> -> Parsed<T>, whole: Parsed<seq<T>>, done: seq<T>, s: seq<Byte>, n: nat)
    requires n > 0 && Reading(whole, done, ParseMany(p, s, n))
    ensures p(s).None? ==> whole.None?
    ensures p(s).Some? ==> Reading(whole, done + [p(s).value.0], ParseMany(p, p(s).value.1, n - 1))
  {
    if p(s).Some? {
      var more := ParseMany(p, p(s).value.1, n - 1);
      assert more.Some? ==> done + ([p(s).value.0] + more.value.0) == done + [p(s).value.0] + more.value.0;
    }
  }

  lemma ReadingEnds<T>(p: seq<Byte> -> Parsed<T>, whole: Parsed<seq<T>>, done: seq<T>, s: seq<Byte>)
    requires Reading(whole, done, ParseMany(p, s, 0))
    ensures whole == Some((done, s))
  {
    assert done + [] == done;
  }

  /** `parseInputs` */
  method ParseInputs(reader: StreamReader) returns (r: Option<seq<TxIn>>)
    modifies reader
    ensures Reads(ParseIns(old(reader.rest)), r, reader.rest)
  {
    hide ParseVarInt, ParseIn, ParseMany, Reading;
    var vinLen :- reader.ReadVarInt();
    var inputs: seq<TxIn> := [];
    ghost var whole := ParseMany(ParseIn, reader.rest, vinLen);
    ReadingStarts(ParseIn, reader.rest, vinLen);
    for idx := 0 to vinLen
      invariant Reading(whole, inputs, ParseMany(ParseIn, reader.rest, vinLen - idx))
    {
      ReadingStep(ParseIn, whole, inputs, reader.rest, vinLen - idx);
      var input := ReadIn(reader);
      if input.None? { return None; }
      inputs := inputs + [input.value];
    }
    ReadingEnds(ParseIn, whole, inputs, reader.rest);
    return Some(inputs);
  }

  /** `parseOutputs` */
  method ParseOutputs(reader: StreamReader) returns (r: Option<seq<TxOut>>)
    modifies reader
    ensures Reads(ParseOuts(old(reader.rest)), r, reader.rest)
  {
    hide ParseVarInt, ParseOut, ParseMany, Reading;
    var voutLen :- reader.ReadVarInt();
    var outputs: seq<TxOut> := [];
    ghost var whole := ParseMany(ParseOut, reader.rest, voutLen);
    ReadingStarts(ParseOut, reader.rest, voutLen);
    for idx := 0 to voutLen
      invariant Reading(whole, outputs, ParseMany(ParseOut, reader.rest, voutLen - idx))
    {
      ReadingStep(ParseOut, whole, outputs, reader.rest, voutLen - idx);
      var output := ReadOut(reader);
      if output.None? { return None; }
      outputs := outputs + [output.value];
    }
    ReadingEnds(ParseOut, whole, outputs, reader.rest);
    return Some(outputs);
  }

  method ReadStack(reader: StreamReader) returns (r: Option<seq<seq<Byte>>>)
    modifies reader
    ensures Reads(ParseStack(old(reader.rest)), r, reader.rest)
  {
    hide ParseVarInt, ParseItem, ParseMany, Reading;
    var items :- reader.ReadVarInt();
    var stack: seq<seq<Byte>> := [];
    ghost var whole := ParseMany(ParseItem, reader.rest, items);
    ReadingStarts(ParseItem, reader.rest, items);
    for item := 0 to items
      invariant Reading(whole, stack, ParseMany(ParseItem, reader.rest, items - item))
    {
      ReadingStep(ParseItem, whole, stack, reader.rest, items - item);
      var w := ReadItem(reader);
      if w.None? { return None; }
      stack := stack + [w.value];
    }
    ReadingEnds(ParseItem, whole, stack, reader.rest);
    return Some(stack);
  }

  /** Reads the witness of every input. */
  method ReadWitness(reader: StreamReader, ins: seq<TxIn>) returns (r: Option<seq<TxIn>>)
    modifies reader
    ensures Reads(ParseWitness(old(reader.rest), ins), r, reader.rest)
  {
    var vins := ins;
    ghost var stacks: seq<seq<seq<Byte>>> := [];
    ghost var whole := ParseMany(ParseStack, reader.rest, |ins|);
    ManyCount(ParseStack, reader.rest, |ins|);
    ReadingStarts(ParseStack, reader.rest, |ins|);
    hide ParseStack, ParseMany, Reading, Filled;
    FilledStarts(ins);
    for i := 0 to |ins|
      invariant |vins| == |ins| && |stacks| == i && Filled(ins, vins, stacks)
      invariant Reading(whole, stacks, ParseMany(ParseStack, reader.rest, |ins| - i))
    {
      ReadingStep(ParseStack, whole, stacks, reader.rest, |ins| - i);
      var stack := ReadStack(reader);
      if stack.None? { return None; }
      FilledStep(ins, vins, stacks, stack.value);
      vins := vins[i := vins[i].(stack := vins[i].stack + stack.value)];
      stacks := stacks + [stack.value];
    }
    ReadingEnds(ParseStack, whole, stacks, reader.rest);
    FilledEnds(ins, vins, stacks);
    return Some(vins);
  }

  /** The first inputs have got their witness, the others are as they were. */
  ghost predicate Filled(ins: seq<TxIn>, vins: seq<TxIn>, stacks: seq<seq<seq<Byte>>>) {
    |vins| == |ins| && |stacks| <= |ins| &&
    forall k | 0 <= k < |ins| ::
      vins[k] == if k < |stacks| then ins[k].(stack := ins[k].stack + stacks[k]) else ins[k]
  }

  lemma FilledStarts(ins: seq<TxIn>)
    ensures Filled(ins, ins, [])
  {}

  lemma FilledStep(ins: seq<TxIn>, vins: seq<TxIn>, stacks: seq<seq<seq<Byte>>>, stack: seq<seq<Byte>>)
    requires Filled(ins, vins, stacks) && |stacks| < |ins|
    ensures var i := |stacks|;
      Filled(ins, vins[i := vins[i].(stack := vins[i].stack + stack)], stacks + [stack])
  {}

  lemma FilledEnds(ins: seq<TxIn>, vins: seq<TxIn>, stacks: seq<seq<seq<Byte>>>)
    requires Filled(ins, vins, stacks) && |stacks| == |ins|
    ensures vins == WithStacks(ins, stacks)
  {}

  /** `parse` */
  method ParseTransaction(reader: StreamReader, allowWitness: bool) returns (r: Option<Tx>)
    modifies reader
    ensures r == ParseTx(old(reader.rest), allowWitness)
  {
    hide ParseIns, ParseOuts, ParseWitness, FromLE;
    var version :- reader.ReadU32();
    var vins :- ParseInputs(reader);
    var vouts: seq<TxOut> := [];
    var flags := 0;
    if allowWitness && |vins| == 0 {
      flags :- reader.ReadUInt(1);
      if flags != 0 {
        vins :- ParseInputs(reader);
        vouts :- ParseOutputs(reader);
      }
    } else {
      vouts :- ParseOutputs(reader);
    }
    if allowWitness && flags % 2 == 1 {
      vins :- ReadWitness(reader, vins);
    }
    var locktime :- reader.ReadU32();
    return Some(Tx(version, vins, vouts, locktime));
  }

  /** `decode` */
  method DecodeTx(data: seq<Byte>) returns (r: Option<Tx>)
    ensures r == Decode(data)
  {
    hide ParseTx;
    var reader := new StreamReader(data);
    r := ParseTransaction(reader, true);
    if r.None? {
      reader := new StreamReader(data);
      r := ParseTransaction(reader, false);
    }
  }

  // ---------------------------------------------------------------- measuring

  datatype SizeResult = SizeResult(size: nat, vsize: nat, weight: nat)

  /** The bytes that `_calcSize` counts for one input, without its witness. */
  lemma InLength(i: TxIn)
    requires CountableIn(i) && Serializable(i.scriptSig)
    ensures |SerIn(i)| == 40 + VarIntBytes(|SerCmds(i.scriptSig)|) + |SerCmds(i.scriptSig)|
  {
    hide VarInt, SerCmds, LE;
    VarIntReadBack(|SerCmds(i.scriptSig)|, []);
  }

  lemma OutLength(o: TxOut)
    requires |o.scriptPubKey| < 0x1_0000_0000 && Serializable(o.scriptPubKey)
    ensures |SerOut(o)| == 8 + VarIntBytes(|SerCmds(o.scriptPubKey)|) + |SerCmds(o.scriptPubKey)|
  {
    hide VarInt, SerCmds, LE;
    VarIntReadBack(|SerCmds(o.scriptPubKey)|, []);
  }

  method StackBytes(stack: seq<seq<Byte>>) returns (bytes: nat)
    requires CountableStack(stack)
    ensures bytes == |SerStack(stack)|
  {
    hide VarInt, VarIntBytes;
    ghost var parts := ItemParts(stack);
    assert SerStack(stack) == VarInt(|stack|) + Concat(parts);
    VarIntReadBack(|stack|, []);
    ConcatAll(parts);
    bytes := VarIntBytes(|stack|);
    for k := 0 to |stack|
      invariant bytes == VarIntBytes(|stack|) + |Concat(parts[..k])|
    {
      VarIntReadBack(|stack[k]|, []);
      ConcatAppend(parts, k);
      bytes := bytes + VarIntBytes(|stack[k]|);
      bytes := bytes + |stack[k]|;
    }
  }

  /** The bytes of the list of inputs outside and, if `hasWitness`, inside the witness. */
  method InputBytes(tx: Tx, hasWitness: bool) returns (r: Result<(nat, nat), Error>)
    requires Countable(tx)
    ensures r.Ok? <==> forall i | 0 <= i < |tx.inputs| :: Serializable(tx.inputs[i].scriptSig)
    ensures r.Ok? && Good(tx) ==> r.value == (|SerIns(tx)|, if hasWitness then |Concat(StackParts(tx))| else 0)
  {
    hide VarInt, VarIntBytes, Serializable, SerCmds, SerIn, SerStack, CountableStack;
    VarIntReadBack(|tx.inputs|, []);
    var standardBytes: nat, witnessBytes: nat := VarIntBytes(|tx.inputs|), 0;
    if Good(tx) {
      ConcatAll(InParts(tx));
      ConcatAll(StackParts(tx));
    }
    for i := 0 to |tx.inputs|
      invariant forall k | 0 <= k < i :: Serializable(tx.inputs[k].scriptSig)
      invariant Good(tx) ==> standardBytes == VarIntBytes(|tx.inputs|) + |Concat(InParts(tx)[..i])|
      invariant Good(tx) ==> witnessBytes == if hasWitness then |Concat(StackParts(tx)[..i])| else 0
    {
      var input := tx.inputs[i];
      standardBytes := standardBytes + 32;
      standardBytes := standardBytes + 4;
      var scriptSig := SerializeCmds(input.scriptSig);
      if scriptSig.Err? { return Err(scriptSig.error); }
      standardBytes := standardBytes + VarIntBytes(|scriptSig.value|);
      standardBytes := standardBytes + |scriptSig.value|;
      standardBytes := standardBytes + 4;
      if hasWitness {
        var stack := StackBytes(input.stack);
        witnessBytes := witnessBytes + stack;
      }
      InLength(input);
      if Good(tx) {
        ConcatAppend(InParts(tx), i);
        ConcatAppend(StackParts(tx), i);
      }
    }
    return Ok((standardBytes, witnessBytes));
  }

  method OutputBytes(tx: Tx) returns (r: Result<nat, Error>)
    requires Countable(tx)
    ensures r.Ok? <==> forall i | 0 <= i < |tx.outputs| :: Serializable(tx.outputs[i].scriptPubKey)
    ensures r.Ok? && Good(tx) ==> r.value == |SerOuts(tx)|
  {
    hide VarInt, VarIntBytes, Serializable, SerCmds, SerOut, CountableIn;
    VarIntReadBack(|tx.outputs|, []);
    var standardBytes: nat := VarIntBytes(|tx.outputs|);
    if Good(tx) { ConcatAll(OutParts(tx)); }
    for i := 0 to |tx.outputs|
      invariant forall k | 0 <= k < i :: Serializable(tx.outputs[k].scriptPubKey)
      invariant Good(tx) ==> standardBytes == VarIntBytes(|tx.outputs|) + |Concat(OutParts(tx)[..i])|
    {
      var output := tx.outputs[i];
      standardBytes := standardBytes + 8;
      var scriptPubKey := SerializeCmds(output.scriptPubKey);
      if scriptPubKey.Err? { return Err(scriptPubKey.error); }
      standardBytes := standardBytes + VarIntBytes(|scriptPubKey.value|);
      standardBytes := standardBytes + |scriptPubKey.value|;
      OutLength(output);
      if Good(tx) { ConcatAppend(OutParts(tx), i); }
    }
    return Ok(standardBytes);
  }

  /** `_calcSize`: the size is the length of the serialization, the weight three times the length of
      the form without witnesses and once the whole, and the virtual size a quarter of it, rounded up. */
  method CalcSize(tx: Tx) returns (r: Result<SizeResult, Error>)
    requires Countable(tx)
    ensures r.Ok? <==> Writable(tx)
    ensures r.Ok? ==> r.value.size == |Serialize(tx)| && r.value.weight == 3 * |Legacy(tx)| + |Serialize(tx)|
    ensures r.Ok? ==> 4 * r.value.vsize - 4 < r.value.weight <= 4 * r.value.vsize
  {
    hide SerIns, SerOuts, StackParts, Concat, LE, Serializable, Countable;
    var hasWitness := IsSegWit(tx);
    var standardBytes, witnessBytes := 4, 0;
    if hasWitness { witnessBytes := witnessBytes + 2; }
    var ins := InputBytes(tx, hasWitness);
    if ins.Err? { return Err(ins.error); }
    standardBytes, witnessBytes := standardBytes + ins.value.0, witnessBytes + ins.value.1;
    var outs := OutputBytes(tx);
    if outs.Err? { return Err(outs.error); }
    standardBytes := standardBytes + outs.value;
    standardBytes := standardBytes + 4;
    var size := standardBytes + witnessBytes;
    var weight := standardBytes * 4 + witnessBytes;
    var vsize := (weight + 3) / 4;
    return Ok(SizeResult(size, vsize, weight));
  }
}
