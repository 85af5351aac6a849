/** packages/bitcoin/lib/Tx.ts: transactions in the legacy and the segwit form. */
module Tx {
  import opened Wrappers
  import opened Sequences
  import opened Bufio
  import opened Script

  type Hash = h: seq<Byte> | |h| == 32 witness seq(32, _ => 0)

  datatype TxIn = TxIn(txid: Hash, index: U32, scriptSig: seq<Cmd>, sequence: U32, stack: seq<seq<Byte>>)

  datatype TxOut = TxOut(value: U64, scriptPubKey: seq<Cmd>)

  datatype Tx = Tx(version: U32, inputs: seq<TxIn>, outputs: seq<TxOut>, locktime: U32)
  {
    predicate IsSegWit() {
      exists i | 0 <= i < |inputs| :: inputs[i].stack != []
    }
  }

  /** Arrays and buffers are as short as the platform's. */
  predicate Countable(tx: Tx) {
    && |tx.inputs| < 0x1_0000_0000 && |tx.outputs| < 0x1_0000_0000
    && (forall i | 0 <= i < |tx.inputs| :: CountableIn(tx.inputs[i]))
    && (forall i | 0 <= i < |tx.outputs| :: |tx.outputs[i].scriptPubKey| < 0x1_0000_0000)
  }

  predicate CountableIn(i: TxIn) {
    |i.scriptSig| < 0x1_0000_0000 && CountableStack(i.stack)
  }

  predicate CountableStack(stack: seq<seq<Byte>>) {
    |stack| < 0x1_0000_0000 && forall k | 0 <= k < |stack| :: |stack[k]| < 0x20_0000_0000_0000
  }

  /** No push is empty or longer than 520 bytes. */
  predicate Writable(tx: Tx) {
    && (forall i | 0 <= i < |tx.inputs| :: Serializable(tx.inputs[i].scriptSig))
    && (forall i | 0 <= i < |tx.outputs| :: Serializable(tx.outputs[i].scriptPubKey))
  }

  predicate Good(tx: Tx) {
    Countable(tx) && Writable(tx)
  }

  // ---------------------------------------------------------------- the format

  function Concat(parts: seq<seq<Byte>>): seq<Byte> {
    if parts == [] then [] else parts[0] + Concat(parts[1..])
  }

  function SerIn(i: TxIn): seq<Byte>
    requires CountableIn(i) && Serializable(i.scriptSig)
  {
    i.txid + (LE(i.index, 4) + (SerScript(i.scriptSig) + LE(i.sequence, 4)))
  }

  function SerOut(o: TxOut): seq<Byte>
    requires |o.scriptPubKey| < 0x1_0000_0000 && Serializable(o.scriptPubKey)
  {
    LE(o.value, 8) + SerScript(o.scriptPubKey)
  }

  function SerItem(w: seq<Byte>): seq<Byte>
    requires |w| < 0x20_0000_0000_0000
  {
    VarInt(|w|) + w
  }

  function SerStack(stack: seq<seq<Byte>>): seq<Byte>
    requires CountableStack(stack)
  {
    VarInt(|stack|) + Concat(seq(|stack|, k requires 0 <= k < |stack| => SerItem(stack[k])))
  }

  function InParts(tx: Tx): (r: seq<seq<Byte>>)
    requires Good(tx)
    ensures |r| == |tx.inputs| && forall i | 0 <= i < |r| :: r[i] == SerIn(tx.inputs[i])
  {
    seq(|tx.inputs|, i requires 0 <= i < |tx.inputs| => SerIn(tx.inputs[i]))
  }

  function OutParts(tx: Tx): (r: seq<seq<Byte>>)
    requires Good(tx)
    ensures |r| == |tx.outputs| && forall i | 0 <= i < |r| :: r[i] == SerOut(tx.outputs[i])
  {
    seq(|tx.outputs|, i requires 0 <= i < |tx.outputs| => SerOut(tx.outputs[i]))
  }

  function StackParts(tx: Tx): (r: seq<seq<Byte>>)
    requires Good(tx)
    ensures |r| == |tx.inputs| && forall i | 0 <= i < |r| :: r[i] == SerStack(tx.inputs[i].stack)
  {
    seq(|tx.inputs|, i requires 0 <= i < |tx.inputs| => SerStack(tx.inputs[i].stack))
  }

  function SerIns(tx: Tx): seq<Byte>
    requires Good(tx)
  {
    VarInt(|tx.inputs|) + Concat(InParts(tx))
  }

  function SerOuts(tx: Tx): seq<Byte>
    requires Good(tx)
  {
    VarInt(|tx.outputs|) + Concat(OutParts(tx))
  }

  /** The form without witnesses. */
  function Legacy(tx: Tx): seq<Byte>
    requires Good(tx)
  {
    LE(tx.version, 4) + (SerIns(tx) + (SerOuts(tx) + LE(tx.locktime, 4)))
  }

  /** The witnesses, which are left out when no input has one. */
  function SerWitness(tx: Tx): seq<Byte>
    requires Good(tx)
  {
    if tx.IsSegWit() then Concat(StackParts(tx)) else []
  }

  /** The form of BIP 144: a marker and a flag, and the witnesses in front of the lock time. */
  function SegWit(tx: Tx): seq<Byte>
    requires Good(tx)
  {
    LE(tx.version, 4) + ([0] + ([1] + (SerIns(tx) + (SerOuts(tx) + (SerWitness(tx) + LE(tx.locktime, 4))))))
  }

  /** `serialize` */
  function Serialize(tx: Tx): seq<Byte>
    requires Good(tx)
  {
    if tx.IsSegWit() then SegWit(tx) else Legacy(tx)
  }

  // ---------------------------------------------------------------- the parser

  /** `n` values one after the other. */
  function ParseMany<T>(p: seq<Byte> -> Parsed<T>, s: seq<Byte>, n: nat): Parsed<seq<T>>
    decreases n
  {
    if n == 0 then Some(([], s))
    else
      var (x, t) :- p(s);
      var (more, u) :- ParseMany(p, t, n - 1);
      Some(([x] + more, u))
  }

  function ParseIn(s: seq<Byte>): Parsed<TxIn> {
    var (txid, s1) :- ParseBytes(s, 32);
    var (index, s2) :- ParseU32(s1);
    var (script, s3) :- ParseScript(s2);
    var (sequence, s4) :- ParseU32(s3);
    Some((TxIn(txid, index, script, sequence, []), s4))
  }

  function ParseOut(s: seq<Byte>): Parsed<TxOut> {
    var (value, s1) :- ParseU64(s);
    var (script, s2) :- ParseScript(s1);
    Some((TxOut(value, script), s2))
  }

  function ParseItem(s: seq<Byte>): Parsed<seq<Byte>> {
    var (len, s1) :- ParseVarInt(s);
    ParseBytes(s1, len)
  }

  function ParseStack(s: seq<Byte>): Parsed<seq<seq<Byte>>> {
    var (n, s1) :- ParseVarInt(s);
    ParseMany(ParseItem, s1, n)
  }

  /** `parseInputs` */
  function ParseIns(s: seq<Byte>): Parsed<seq<TxIn>> {
    var (n, s1) :- ParseVarInt(s);
    ParseMany(ParseIn, s1, n)
  }

  /** `parseOutputs` */
  function ParseOuts(s: seq<Byte>): Parsed<seq<TxOut>> {
    var (n, s1) :- ParseVarInt(s);
    ParseMany(ParseOut, s1, n)
  }

  datatype Body = Body(flags: nat, inputs: seq<TxIn>, outputs: seq<TxOut>)

  /** What follows the first list of inputs, up to the outputs. */
  function ParseBody(s: seq<Byte>, vins: seq<TxIn>, allowWitness: bool): Parsed<Body> {
    if allowWitness && vins == [] then
      var (flags, s1) :- ParseUInt(s, 1);
      if flags != 0 then
        var (ins, s2) :- ParseIns(s1);
        var (outs, s3) :- ParseOuts(s2);
        Some((Body(flags, ins, outs), s3))
      else Some((Body(0, [], []), s1))
    else
      var (outs, s1) :- ParseOuts(s);
      Some((Body(0, vins, outs), s1))
  }

  /** `vins[i].witness.push` for the items of every input. */
  function WithStacks(ins: seq<TxIn>, stacks: seq<seq<seq<Byte>>>): (r: seq<TxIn>)
    requires |ins| == |stacks|
    ensures |r| == |ins| && forall i | 0 <= i < |r| :: r[i] == ins[i].(stack := ins[i].stack + stacks[i])
  {
    seq(|ins|, i requires 0 <= i < |ins| => ins[i].(stack := ins[i].stack + stacks[i]))
  }

  function ParseWitness(s: seq<Byte>, ins: seq<TxIn>): Parsed<seq<TxIn>> {
    var (stacks, s1) :- ParseMany(ParseStack, s, |ins|);
    ManyCount(ParseStack, s, |ins|);
    Some((WithStacks(ins, stacks), s1))
  }

  lemma {:induction false} ManyCount<T>(p: seq<Byte> -> Parsed<T>, s: seq<Byte>, n: nat)
    ensures var r := ParseMany(p, s, n); r.Some? ==> |r.value.0| == n
    decreases n
  {
    if n > 0 && p(s).Some? {
      ManyCount(p, p(s).value.1, n - 1);
    }
  }

  /** `parse` */
  function ParseTx(s: seq<Byte>, allowWitness: bool): Option<Tx> {
    var (version, s1) :- ParseU32(s);
    var (vins, s2) :- ParseIns(s1);
    var (body, s3) :- ParseBody(s2, vins, allowWitness);
    ParseEnd(s3, version, body, allowWitness)
  }

  /** The witnesses, if any, and the lock time. */
  function ParseEnd(s: seq<Byte>, version: U32, body: Body, allowWitness: bool): Option<Tx> {
    var (ins, t) :-
      if allowWitness && body.flags % 2 == 1 then ParseWitness(s, body.inputs) else Some((body.inputs, s));
    var (locktime, u) :- ParseU32(t);
    Some(Tx(version, ins, body.outputs, locktime))
  }

  /** `decode` */
  function Decode(data: seq<Byte>): Option<Tx> {
    var tx := ParseTx(data, true);
    if tx.Some? then tx else ParseTx(data, false)
  }
}
