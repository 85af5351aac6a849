/** The bytes of transactions, scripts and their integers, written out and read at their places. */
module TxBytes {
  import opened Wrappers
  import opened Numbers
  import opened Sequences
  import opened Bufio
  import opened Script
  import opened Tx

  // ---------------------------------------------------------------- integers

  function Two(v: nat): seq<Byte>
    requires v < 0x1_0000
  {
    [v % 0x100, v / 0x100]
  }

  function Four(v: U32): seq<Byte> {
    [v % 0x100, v / 0x100 % 0x100, v / 0x1_0000 % 0x100, v / 0x100_0000]
  }

  function Eight(v: U64): seq<Byte> {
    Four(v % 0x1_0000_0000) + Four(v / 0x1_0000_0000)
  }

  lemma LESteps(v: nat, n: nat)
    requires n > 0
    ensures LE(v, n) == [v % 256] + LE(v / 256, n - 1)
  {}

  lemma {:induction false} LESplit(v: nat, m: nat, n: nat)
    ensures Pow(256, m) > 0 && v / Pow(256, m) >= 0 && LE(v, m + n) == LE(v, m) + LE(v / Pow(256, m), n)
    decreases m
  {
    DivMonotone(0, v, Pow(256, m));
    if m == 0 {
      assert LE(v, n) == [] + LE(v / 1, n);
    } else {
      LESplit(v / 256, m - 1, n);
      DivDiv(v, 256, Pow(256, m - 1));
    }
  }

  lemma TwoIs(v: nat)
    requires v < 0x1_0000
    ensures LE(v, 2) == Two(v)
  {
    LESteps(v, 2);
    LESteps(v / 256, 1);
  }

  lemma FourIs(v: U32)
    ensures LE(v, 4) == Four(v)
  {
    LESteps(v, 4);
    LESteps(v / 256, 3);
    LESteps(v / 256 / 256, 2);
    LESteps(v / 256 / 256 / 256, 1);
    hide LE;
    assert LE(v / 256 / 256 / 256 / 256, 0) == [] by { LENone(v / 256 / 256 / 256 / 256); }
  }

  lemma LENone(v: nat)
    ensures LE(v, 0) == []
  {}

  /** The lowest four bytes depend on the lowest 32 bits only. */
  lemma {:induction false} LowBytes(v: nat, n: nat)
    ensures Pow(256, n) > 0 && LE(v, n) == LE(v % Pow(256, n), n)
    decreases n
  {
    if n > 0 {
      LowBytes(v / 256, n - 1);
      var p := Pow(256, n - 1);
      ModSplit(v, p);
      hide Pow;
    }
  }

  lemma ModSplit(v: nat, p: nat)
    requires p > 0
    ensures v % (256 * p) % 256 == v % 256 && v % (256 * p) / 256 == v / 256 % p
  {
    var q := v / 256;
    var w := q % p;
    DivUnique(q, p, q / p);
    assert q == (q / p) * p + w;
    assert v == (q / p) * (256 * p) + (256 * w + v % 256) by { assert (q / p) * (256 * p) == 256 * ((q / p) * p); }
    DivUnique(v, 256 * p, q / p);
    assert v % (256 * p) == 256 * w + v % 256;
  }

  lemma EightIs(v: U64)
    ensures LE(v, 8) == Eight(v)
  {
    LESplit(v, 4, 4);
    LowBytes(v, 4);
    Widths();
    FourIs(v % 0x1_0000_0000);
    FourIs(v / 0x1_0000_0000);
    hide LE, Pow, Four;
  }

  /** The variable-length integer of the Bitcoin format. */
  function CompactSize(i: U64): seq<Byte> {
    if i <= 252 then [i]
    else if i <= 0xffff then [0xfd] + Two(i)
    else if i <= 0xffff_ffff then [0xfe] + Four(i)
    else [0xff] + Eight(i)
  }

  lemma CompactSizeIs(i: U64)
    ensures VarInt(i) == CompactSize(i)
  {
    if i < 0x1_0000 { TwoIs(i); }
    if i < 0x1_0000_0000 { FourIs(i); }
    EightIs(i);
    hide LE, Two, Four, Eight;
  }

  /** Each of the four forms is read, whether or not a shorter one would do. */
  lemma ReadsCompactSize(s: seq<Byte>)
    ensures ParseVarInt(s) ==
      if s == [] then None
      else
        var n := if s[0] < 0xfd then 0 else if s[0] == 0xfd then 2 else if s[0] == 0xfe then 4 else 8;
        if |s| < 1 + n then None
        else Some((if n == 0 then s[0] else FromLE(s[1..1 + n]), s[1 + n..]))
  {
    if s != [] {
      assert s == [s[0]] + s[1..];
      FirstByte(s[0], s[1..]);
      hide FromLE;
      var n := if s[0] < 0xfd then 0 else if s[0] == 0xfd then 2 else if s[0] == 0xfe then 4 else 8;
      if |s| >= 1 + n { assert s[1..][..n] == s[1..1 + n] && s[1..][n..] == s[1 + n..]; }
    }
  }

  // ---------------------------------------------------------------- scripts

  /** A push in its shortest form. */
  function Push(b: seq<Byte>): seq<Byte>
    requires 1 <= |b| <= 520
  {
    if |b| <= 75 then [|b|] + b
    else if |b| <= 255 then [0x4c, |b|] + b
    else [0x4d] + Two(|b|) + b
  }

  lemma CommandIs(c: Cmd)
    requires Pushable(c)
    ensures SerCmd(c) == if c.Op? then [c.code] else Push(c.bytes)
  {
    if c.Data? {
      TwoIs(|c.bytes|);
      hide LE;
    }
  }

  /** Commands can be written if and only if each push is of 1 to 520 bytes. */
  lemma WritableIff(cmds: seq<Cmd>)
    ensures Serializable(cmds) <==> forall b: seq<Byte> | Data(b) in cmds :: b != [] && |b| <= 520
  {
    if forall b: seq<Byte> | Data(b) in cmds :: b != [] && |b| <= 520 {
      forall i | 0 <= i < |cmds| ensures Pushable(cmds[i]) {
        assert cmds[i].Data? ==> Data(cmds[i].bytes) in cmds;
      }
    }
  }

  /** Where the data of a push begins and how long it is; each form is read at any length. */
  function DataAt(s: seq<Byte>): Option<(nat, nat)>
    requires s != []
  {
    if 1 <= s[0] <= 75 then Some((1, s[0]))
    else if s[0] == 0x4c && |s| >= 2 then Some((2, s[1]))
    else if s[0] == 0x4d && |s| >= 3 then Some((3, s[1] + (s[2] as int) * 256))
    else None
  }

  lemma ReadsCommand(s: seq<Byte>)
    requires s != []
    ensures ParseCmd(s) ==
      if s[0] == 0 || s[0] > 0x4d then Some((Op(s[0]), s[1..]))
      else match DataAt(s)
           case None => None
           case Some((at, n)) => if at + n <= |s| then Some((Data(s[at..at + n]), s[at + n..])) else None
  {
    assert s == [s[0]] + s[1..];
    FirstByte(s[0], s[1..]);
    var t := s[1..];
    if s[0] == 0x4c && |s| >= 2 {
      assert t == [s[1]] + s[2..];
      FirstByte(s[1], s[2..]);
    }
    if s[0] == 0x4d && |s| >= 3 { ReadsTwo(s); }
    hide FromLE;
    if DataAt(s).Some? { Cuts(s, DataAt(s).value.0, DataAt(s).value.1); }
  }

  lemma ReadsTwo(s: seq<Byte>)
    requires |s| >= 3
    ensures ParseUInt(s[1..], 2) == Some((s[1] + (s[2] as int) * 256, s[3..]))
  {
    assert s[1..][..2] == [s[1], s[2]] && s[1..][2..] == s[3..];
    assert [s[1], s[2]][1..] == [s[2]];
    assert FromLE([s[2]]) == s[2];
  }

  lemma Cuts<T>(s: seq<T>, at: nat, n: nat)
    requires at <= |s|
    ensures at + n <= |s| ==> s[at..][..n] == s[at..at + n] && s[at..][n..] == s[at + n..]
  {}

  // ---------------------------------------------------------------- transactions

  /** A script of one opcode behind its length. */
  lemma OneOp(code: Byte)
    ensures SerScript([Op(code)]) == [1, code]
  {
    assert [Op(code)][1..] == [];
    assert SerCmds([Op(code)]) == [code] + [];
    CompactSizeIs(1);
  }

  lemma TwoParts(a: seq<Byte>, b: seq<Byte>)
    ensures Concat([a, b]) == a + b && Concat([a]) == a
  {
    assert [a, b][1..] == [b] && [b][1..] == [] && [a][1..] == [];
    assert Concat([b]) == b + [];
    assert Concat([a]) == a + [];
  }

  function InputBytes(i: TxIn, code: Byte): seq<Byte> {
    i.txid + Four(i.index) + [1, code] + Four(i.sequence)
  }

  function OutputBytes(o: TxOut, code: Byte): seq<Byte> {
    Eight(o.value) + [1, code]
  }

  /** Two inputs and two outputs whose scripts are one opcode each. */
  predicate Small(tx: Tx, a: Byte, b: Byte, c: Byte, d: Byte) {
    |tx.inputs| == |tx.outputs| == 2 && tx.inputs[0].scriptSig == [Op(a)] && tx.inputs[1].scriptSig == [Op(b)] &&
    tx.outputs[0].scriptPubKey == [Op(c)] && tx.outputs[1].scriptPubKey == [Op(d)]
  }

  lemma SmallInput(i: TxIn, code: Byte)
    requires i.scriptSig == [Op(code)] && CountableIn(i)
    ensures SerIn(i) == InputBytes(i, code)
  {
    OneOp(code);
    FourIs(i.index);
    FourIs(i.sequence);
    hide LE, Four, SerScript;
  }

  lemma SmallOutput(o: TxOut, code: Byte)
    requires o.scriptPubKey == [Op(code)]
    ensures SerOut(o) == OutputBytes(o, code)
  {
    OneOp(code);
    EightIs(o.value);
    hide LE, Eight, SerScript;
  }

  /** Version, counted inputs, counted outputs and lock time. */
  lemma LegacyBytes(tx: Tx, a: Byte, b: Byte, c: Byte, d: Byte)
    requires Small(tx, a, b, c, d) && Good(tx)
    ensures Legacy(tx) ==
      Four(tx.version) + [2] + InputBytes(tx.inputs[0], a) + InputBytes(tx.inputs[1], b)
      + [2] + OutputBytes(tx.outputs[0], c) + OutputBytes(tx.outputs[1], d) + Four(tx.locktime)
  {
    hide LE, Four, SerIns, SerOuts, InputBytes, OutputBytes, Good;
    SmallLists(tx, a, b, c, d);
    FourIs(tx.version);
    FourIs(tx.locktime);
    FlattenLegacy(Four(tx.version), InputBytes(tx.inputs[0], a), InputBytes(tx.inputs[1], b),
      OutputBytes(tx.outputs[0], c), OutputBytes(tx.outputs[1], d), Four(tx.locktime));
  }

  lemma FlattenLegacy(v: seq<Byte>, i: seq<Byte>, j: seq<Byte>, o: seq<Byte>, p: seq<Byte>, t: seq<Byte>)
    ensures v + ([2] + (i + j) + ([2] + (o + p) + t)) == v + [2] + i + j + [2] + o + p + t
  {}

  lemma SmallLists(tx: Tx, a: Byte, b: Byte, c: Byte, d: Byte)
    requires Small(tx, a, b, c, d) && Good(tx)
    ensures SerIns(tx) == [2] + (InputBytes(tx.inputs[0], a) + InputBytes(tx.inputs[1], b))
    ensures SerOuts(tx) == [2] + (OutputBytes(tx.outputs[0], c) + OutputBytes(tx.outputs[1], d))
  {
    CompactSizeIs(2);
    SmallInput(tx.inputs[0], a);
    SmallInput(tx.inputs[1], b);
    SmallOutput(tx.outputs[0], c);
    SmallOutput(tx.outputs[1], d);
    hide SerIn, SerOut, InputBytes, OutputBytes, Concat, VarInt;
    assert InParts(tx) == [SerIn(tx.inputs[0]), SerIn(tx.inputs[1])];
    assert OutParts(tx) == [SerOut(tx.outputs[0]), SerOut(tx.outputs[1])];
    TwoParts(SerIn(tx.inputs[0]), SerIn(tx.inputs[1]));
    TwoParts(SerOut(tx.outputs[0]), SerOut(tx.outputs[1]));
  }

  /** BIP 144 puts a marker 0 and a flag 1 behind the version, and in front of the lock time the counted
      items of each input's witness, each behind its length. */
  lemma SegWitBytes(tx: Tx, a: Byte, b: Byte, c: Byte, d: Byte, w: seq<Byte>)
    requires Small(tx, a, b, c, d) && Good(tx) && |w| <= 252
    requires tx.inputs[0].stack == [w] && tx.inputs[1].stack == []
    ensures Serialize(tx) ==
      Four(tx.version) + [0, 1] + [2] + InputBytes(tx.inputs[0], a) + InputBytes(tx.inputs[1], b)
      + [2] + OutputBytes(tx.outputs[0], c) + OutputBytes(tx.outputs[1], d)
      + [1, |w|] + w + [0] + Four(tx.locktime)
  {
    hide LE, Four, SerIns, SerOuts, SerWitness, InputBytes, OutputBytes, Good, Legacy;
    SmallLists(tx, a, b, c, d);
    SmallWitness(tx, w);
    FourIs(tx.version);
    FourIs(tx.locktime);
    assert tx.inputs[0].stack != [];
    Flatten(Four(tx.version), InputBytes(tx.inputs[0], a), InputBytes(tx.inputs[1], b), OutputBytes(tx.outputs[0], c),
      OutputBytes(tx.outputs[1], d), [1, |w|] + w + [0], Four(tx.locktime));
    Regroup(Four(tx.version) + [0, 1] + [2] + InputBytes(tx.inputs[0], a) + InputBytes(tx.inputs[1], b)
      + [2] + OutputBytes(tx.outputs[0], c) + OutputBytes(tx.outputs[1], d), [1, |w|], w, [0]);
  }

  lemma Flatten(v: seq<Byte>, i: seq<Byte>, j: seq<Byte>, o: seq<Byte>, p: seq<Byte>, w: seq<Byte>, t: seq<Byte>)
    ensures v + ([0] + ([1] + ([2] + (i + j) + ([2] + (o + p) + (w + t))))) ==
      v + [0, 1] + [2] + i + j + [2] + o + p + w + t
  {}

  lemma Regroup(x: seq<Byte>, a: seq<Byte>, b: seq<Byte>, c: seq<Byte>)
    ensures x + (a + b + c) == x + a + b + c
  {}

  lemma SmallWitness(tx: Tx, w: seq<Byte>)
    requires Good(tx) && |tx.inputs| == 2 && |w| <= 252 && tx.inputs[0].stack == [w] && tx.inputs[1].stack == []
    ensures SerWitness(tx) == [1, |w|] + w + [0]
  {
    assert tx.inputs[0].stack != [];
    assert StackParts(tx) == [SerStack(tx.inputs[0].stack), SerStack(tx.inputs[1].stack)];
    CompactSizeIs(0);
    CompactSizeIs(1);
    CompactSizeIs(|w|);
    var items := seq(|[w]|, k requires 0 <= k < |[w]| => SerItem([w][k]));
    assert items == [SerItem(w)];
    TwoParts(SerItem(w), []);
    hide Good, Concat, VarInt;
    assert SerStack([w]) == [1] + SerItem(w);
    assert SerStack([]) == [0] by { NoItems(); }
    TwoParts(SerStack(tx.inputs[0].stack), SerStack(tx.inputs[1].stack));
  }

  lemma NoItems()
    ensures SerStack([]) == [0]
  {
    CompactSizeIs(0);
    assert Concat([]) == [];
  }
}
