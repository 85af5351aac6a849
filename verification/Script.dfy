/** packages/bitcoin/lib/Script.ts: the command codec of Bitcoin scripts. */
module Script {
  import opened Wrappers
  import opened Numbers
  import opened Sequences
  import opened Bufio

  /** An opcode or a push of data. */
  datatype Cmd = Op(code: Byte) | Data(bytes: seq<Byte>)

  const OP_PUSHDATA1: Byte := 0x4c
  const OP_PUSHDATA2: Byte := 0x4d

  // ---------------------------------------------------------------- the format

  predicate Pushable(c: Cmd) {
    c.Data? ==> 1 <= |c.bytes| <= 520
  }

  predicate Serializable(cmds: seq<Cmd>) {
    forall i | 0 <= i < |cmds| :: Pushable(cmds[i])
  }

  function SerCmd(c: Cmd): seq<Byte>
    requires Pushable(c)
  {
    if c.Op? then [c.code]
    else if |c.bytes| <= 75 then [|c.bytes|] + c.bytes
    else if |c.bytes| <= 255 then [OP_PUSHDATA1] + [|c.bytes|] + c.bytes
    else [OP_PUSHDATA2] + LE(|c.bytes|, 2) + c.bytes
  }

  function SerCmds(cmds: seq<Cmd>): (r: seq<Byte>)
    requires Serializable(cmds)
    ensures |r| <= 523 * |cmds|
  {
    if cmds == [] then [] else SerCmd(cmds[0]) + SerCmds(cmds[1..])
  }

  /** One command off the front of a script. */
  function ParseCmd(s: seq<Byte>): (r: Parsed<Cmd>)
    ensures r.Some? ==> |r.value.1| < |s|
  {
    var (op, t) :- ParseUInt(s, 1);
    if 0x01 <= op <= 0x4b then
      var (bytes, u) :- ParseBytes(t, op);
      Some((Data(bytes), u))
    else if op == OP_PUSHDATA1 then
      var (n, t2) :- ParseUInt(t, 1);
      var (bytes, u) :- ParseBytes(t2, n);
      Some((Data(bytes), u))
    else if op == OP_PUSHDATA2 then
      var (n, t2) :- ParseUInt(t, 2);
      var (bytes, u) :- ParseBytes(t2, n);
      Some((Data(bytes), u))
    else Some((Op(s[0]), t))
  }

  function ParseCmds(s: seq<Byte>): Option<seq<Cmd>>
    decreases |s|
  {
    if s == [] then Some([])
    else
      var (c, t) :- ParseCmd(s);
      var more :- ParseCmds(t);
      Some([c] + more)
  }

  /** `fromRaw`: the commands of a script without its length; there is no empty one. */
  function FromRaw(buf: seq<Byte>): Option<seq<Cmd>> {
    if buf == [] then None else ParseCmds(buf)
  }

  /** `serialize`: the commands after their length. */
  function SerScript(cmds: seq<Cmd>): seq<Byte>
    requires Serializable(cmds) && |cmds| < 0x1_0000_0000
  {
    VarInt(|SerCmds(cmds)|) + SerCmds(cmds)
  }

  /** `parse` */
  function ParseScript(s: seq<Byte>): Parsed<seq<Cmd>> {
    var (len, t) :- ParseVarInt(s);
    var (buf, u) :- ParseBytes(t, len);
    var cmds :- ParseCmds(buf);
    Some((cmds, u))
  }

  // ---------------------------------------------------------------- round trip

  /** The opcodes that the parser takes for pushes. */
  predicate Clashes(c: Cmd) {
    c.Op? && 0x01 <= c.code <= 0x4d
  }

  predicate Canonical(cmds: seq<Cmd>) {
    forall i | 0 <= i < |cmds| :: !Clashes(cmds[i])
  }

  lemma OpReadBack(c: Cmd, rest: seq<Byte>)
    requires c.Op?
    ensures var r := ParseCmd(SerCmd(c) + rest);
      if Clashes(c) then r.None? || r.value.0.Data? else r == Some((c, rest))
  {
    FirstByte(c.code, rest);
  }

  lemma DataReadBack(c: Cmd, rest: seq<Byte>)
    requires c.Data? && Pushable(c)
    ensures ParseCmd(SerCmd(c) + rest) == Some((c, rest))
  {
    hide LE, FromLE, Pow, ParseUInt, ParseBytes;
    var n, b := |c.bytes|, c.bytes;
    BytesReadBack(b, rest);
    if n <= 75 {
      FirstByte(n, b + rest);
      assert SerCmd(c) + rest == [n] + (b + rest);
    } else if n <= 255 {
      FirstByte(n, b + rest);
      FirstByte(OP_PUSHDATA1, [n] + (b + rest));
      assert SerCmd(c) + rest == [OP_PUSHDATA1] + ([n] + (b + rest));
    } else {
      Widths();
      UIntReadBack(n, 2, b + rest);
      FirstByte(OP_PUSHDATA2, LE(n, 2) + (b + rest));
      assert SerCmd(c) + rest == [OP_PUSHDATA2] + (LE(n, 2) + (b + rest));
    }
  }

  /** A script reads back exactly when none of its opcodes is in the range of the pushes. */
  lemma {:induction false} ScriptRoundTripIff(cmds: seq<Cmd>)
    requires Serializable(cmds)
    ensures ParseCmds(SerCmds(cmds)) == Some(cmds) <==> Canonical(cmds)
    decreases |cmds|
  {
    if cmds != [] {
      var c, rest := cmds[0], cmds[1..];
      ScriptRoundTripIff(rest);
      if c.Op? { OpReadBack(c, SerCmds(rest)); } else { DataReadBack(c, SerCmds(rest)); }
      hide ParseCmd, SerCmd;
      assert cmds == [c] + rest;
      assert Canonical(cmds) <==> !Clashes(c) && Canonical(rest);
    }
  }

  /** A length-prefixed script leaves the reader at its end, whatever its commands are read as. */
  lemma ScriptReadBack(cmds: seq<Cmd>, rest: seq<Byte>)
    requires Serializable(cmds) && |cmds| < 0x1_0000_0000
    ensures var back := ParseCmds(SerCmds(cmds));
      ParseScript(SerScript(cmds) + rest) == if back.None? then None else Some((back.value, rest))
  {
    hide ParseCmds, SerCmds, VarInt, ParseVarInt, ParseBytes, Serializable;
    var buf := SerCmds(cmds);
    VarIntReadBack(|buf|, buf + rest);
    BytesReadBack(buf, rest);
    assert SerScript(cmds) + rest == VarInt(|buf|) + (buf + rest);
  }

  // ---------------------------------------------------------------- the methods

  datatype Error = DataTooLong

  method SerializeCmds(cmds: seq<Cmd>) returns (r: Result<seq<Byte>, Error>)
    ensures r.Ok? <==> Serializable(cmds)
    ensures r.Ok? ==> r.value == SerCmds(cmds)
  {
    var results: seq<Byte> := [];
    assert cmds[..0] == [] && SerCmds([]) == [];
    hide SerCmd, SerCmds, Pushable;
    for i := 0 to |cmds|
      invariant Serializable(cmds[..i]) && results == SerCmds(cmds[..i])
    {
      var encoded := Encode(cmds[i]);
      if encoded.Err? { return Err(encoded.error); }
      SerCmdsAppend(cmds[..i], cmds[i]);
      assert cmds[..i + 1] == cmds[..i] + [cmds[i]];
      results := results + encoded.value;
    }
    assert cmds[..|cmds|] == cmds;
    return Ok(results);
  }

  /** What one turn of the loop of `serializeCmds` appends. */
  method Encode(op: Cmd) returns (r: Result<seq<Byte>, Error>)
    ensures r.Ok? <==> Pushable(op)
    ensures r.Ok? ==> r.value == SerCmd(op)
  {
    hide LE;
    if op.Op? {
      return Ok([op.code]);
    } else if 1 <= |op.bytes| <= 75 {
      return Ok([|op.bytes|] + op.bytes);
    } else if 76 <= |op.bytes| <= 255 {
      return Ok([OP_PUSHDATA1] + [|op.bytes|] + op.bytes);
    } else if 256 <= |op.bytes| <= 520 {
      return Ok([OP_PUSHDATA2] + LE(|op.bytes|, 2) + op.bytes);
    } else {
      return Err(DataTooLong);
    }
  }

  lemma {:induction false} SerCmdsAppend(cmds: seq<Cmd>, c: Cmd)
    requires Serializable(cmds) && Pushable(c)
    ensures Serializable(cmds + [c]) && SerCmds(cmds + [c]) == SerCmds(cmds) + SerCmd(c)
    decreases |cmds|
  {
    hide SerCmd, Pushable;
    if cmds == [] {
      assert cmds + [c] == [c];
      assert SerCmds([c]) == SerCmd(c) + SerCmds([]);
    } else {
      SerCmdsAppend(cmds[1..], c);
      assert (cmds + [c])[1..] == cmds[1..] + [c];
    }
  }

  method ParseCommands(buf: seq<Byte>) returns (r: Option<seq<Cmd>>)
    ensures r == ParseCmds(buf)
  {
    hide ParseUInt, ParseBytes, ParseVarInt;
    var br := new StreamReader(buf);
    var cmds: seq<Cmd> := [];
    AfterNone(ParseCmds(buf));
    while br.rest != []
      invariant ParseCmds(buf) == After(cmds, ParseCmds(br.rest))
      decreases |br.rest|
    {
      ghost var before := br.rest;
      var cmd := ReadCmd(br);
      if cmd.None? { return None; }
      AfterOne(cmds, cmd.value, ParseCmds(br.rest));
      cmds := cmds + [cmd.value];
    }
    assert cmds + [] == cmds;
    return Some(cmds);
  }

  /** Both ends of a loop that collects what it reads: those read already and what is still to come. */
  function After<T>(done: seq<T>, more: Option<seq<T>>): Option<seq<T>> {
    if more.None? then None else Some(done + more.value)
  }

  lemma AfterNone<T>(more: Option<seq<T>>)
    ensures After([], more) == more
  {
    assert more.Some? ==> [] + more.value == more.value;
  }

  lemma AfterOne<T>(done: seq<T>, x: T, more: Option<seq<T>>)
    ensures After(done, After([x], more)) == After(done + [x], more)
  {
    assert more.Some? ==> done + ([x] + more.value) == done + [x] + more.value;
  }

  /** One turn of the loop of `parseCmds`. */
  method ReadCmd(br: StreamReader) returns (r: Option<Cmd>)
    modifies br
    ensures Reads(ParseCmd(old(br.rest)), r, br.rest)
  {
    hide FromLE;
    var op :- br.ReadUInt(1);
    if 0x01 <= op <= 0x4b {
      var bytes :- br.ReadBytes(op);
      return Some(Data(bytes));
    } else if op == OP_PUSHDATA1 {
      var n :- br.ReadUInt(1);
      var bytes :- br.ReadBytes(n);
      return Some(Data(bytes));
    } else if op == OP_PUSHDATA2 {
      var n :- br.ReadUInt(2);
      var bytes :- br.ReadBytes(n);
      return Some(Data(bytes));
    }
    OneByte(old(br.rest));
    return Some(Op(op));
  }

  lemma OneByte(s: seq<Byte>)
    requires s != []
    ensures ParseUInt(s, 1) == Some((s[0], s[1..]))
  {
    assert s[..1] == [s[0]];
    assert FromLE([s[0]]) == s[0];
  }

  /** `fromRaw` */
  method ParseRaw(buf: seq<Byte>) returns (r: Option<seq<Cmd>>)
    ensures r == FromRaw(buf)
  {
    if |buf| == 0 { return None; }
    r := ParseCommands(buf);
  }

  /** `parse` */
  method Parse(reader: StreamReader) returns (r: Option<seq<Cmd>>)
    modifies reader
    ensures Reads(ParseScript(old(reader.rest)), r, reader.rest)
  {
    hide ParseVarInt, ParseBytes, ParseCmds;
    var len :- reader.ReadVarInt();
    var buf :- reader.ReadBytes(len);
    r := ParseCommands(buf);
  }
}
