/** packages/bufio/lib: the little-endian and variable-length integers of the Bitcoin format, the
    stream reader and the buffer writer. */
module Bufio {
  import opened Wrappers
  import opened Numbers
  import opened Sequences

  type U32 = n: nat | n < 0x1_0000_0000
  type U64 = n: nat | n < 0x1_0000_0000_0000_0000

  /** A value read from the front of a stream and the bytes after it; nothing when the source throws. */
  type Parsed<T> = Option<(T, seq<Byte>)>

  // ---------------------------------------------------------------- formats

  /** `v` in `n` bytes, the lowest first. */
  function LE(v: nat, n: nat): (s: seq<Byte>)
    ensures |s| == n
    decreases n
  {
    if n == 0 then [] else [v % 256] + LE(v / 256, n - 1)
  }

  function FromLE(s: seq<Byte>): nat {
    if s == [] then 0 else s[0] + 256 * FromLE(s[1..])
  }

  /** `encodeVarInt` and `writeVarInt` */
  function VarInt(i: U64): seq<Byte> {
    if i < 0xfd then [i]
    else if i < 0x1_0000 then [0xfd] + LE(i, 2)
    else if i < 0x1_0000_0000 then [0xfe] + LE(i, 4)
    else [0xff] + LE(i, 8)
  }

  /** `varIntBytes` */
  function VarIntBytes(val: U64): nat {
    if val < 0xfd then 1 else if val <= 0xffff then 3 else if val <= 0xffff_ffff then 5 else 9
  }

  function ParseBytes(s: seq<Byte>, n: nat): Parsed<seq<Byte>> {
    if n <= |s| then Some((s[..n], s[n..])) else None
  }

  function ParseUInt(s: seq<Byte>, n: nat): Parsed<nat> {
    if n <= |s| then Some((FromLE(s[..n]), s[n..])) else None
  }

  function ParseU32(s: seq<Byte>): Parsed<U32> {
    if |s| < 4 then None
    else
      FromLEBelow(s[..4]);
      Widths();
      Some((FromLE(s[..4]), s[4..]))
  }

  function ParseU64(s: seq<Byte>): Parsed<U64> {
    if |s| < 8 then None
    else
      FromLEBelow(s[..8]);
      Widths();
      Some((FromLE(s[..8]), s[8..]))
  }

  lemma {:induction false} FromLEBelow(s: seq<Byte>)
    ensures FromLE(s) < Pow(256, |s|)
    decreases |s|
  {
    if s != [] { FromLEBelow(s[1..]); }
  }

  /** `readVarInt` */
  function ParseVarInt(s: seq<Byte>): Parsed<nat> {
    var (first, t) :- ParseUInt(s, 1);
    if first < 0xfd then Some((first, t))
    else if first == 0xfd then ParseUInt(t, 2)
    else if first == 0xfe then ParseUInt(t, 4)
    else ParseUInt(t, 8)
  }

  lemma {:induction false} FromLEOfLE(v: nat, n: nat)
    requires v < Pow(256, n)
    ensures FromLE(LE(v, n)) == v
    decreases n
  {
    if n > 0 {
      DivBelow(v, 256, Pow(256, n - 1));
      FromLEOfLE(v / 256, n - 1);
      assert LE(v, n)[1..] == LE(v / 256, n - 1);
    }
  }

  lemma Widths()
    ensures Pow(256, 1) == 0x100 && Pow(256, 2) == 0x1_0000
    ensures Pow(256, 4) == 0x1_0000_0000 && Pow(256, 8) == 0x1_0000_0000_0000_0000
  {
    assert Pow(256, 1) == 256;
    PowAdd(256, 1, 1);
    PowAdd(256, 2, 2);
    PowAdd(256, 4, 4);
  }

  /** An integer that fits its width is read back. */
  lemma UIntReadBack(v: nat, n: nat, rest: seq<Byte>)
    requires v < Pow(256, n)
    ensures ParseUInt(LE(v, n) + rest, n) == Some((v, rest))
  {
    FromLEOfLE(v, n);
    var s := LE(v, n) + rest;
    assert s[..n] == LE(v, n) && s[n..] == rest;
  }

  lemma BytesReadBack(b: seq<Byte>, rest: seq<Byte>)
    ensures ParseBytes(b + rest, |b|) == Some((b, rest))
  {}

  lemma VarIntReadBack(i: U64, rest: seq<Byte>)
    ensures ParseVarInt(VarInt(i) + rest) == Some((i, rest))
    ensures |VarInt(i)| == VarIntBytes(i)
  {
    hide Pow, LE, FromLE;
    Widths();
    var width := if i < 0xfd then 0 else if i < 0x1_0000 then 2 else if i < 0x1_0000_0000 then 4 else 8;
    var first := if width == 0 then i else if width == 2 then 0xfd else if width == 4 then 0xfe else 0xff;
    FirstByte(first, if width == 0 then rest else LE(i, width) + rest);
    if width > 0 {
      UIntReadBack(i, width, rest);
      assert VarInt(i) + rest == [first] + (LE(i, width) + rest);
    }
  }

  lemma FirstByte(b: Byte, rest: seq<Byte>)
    ensures ParseUInt([b] + rest, 1) == Some((b, rest))
  {
    var s := [b] + rest;
    assert s[..1] == [b] && s[1..] == rest && FromLE([b]) == b;
  }

  // ---------------------------------------------------------------- reader and writer

  /** A read returned `r` and left `after` on the stream as `p` says; a read that throws promises
      nothing about the stream. */
  predicate Reads<T(==)>(p: Parsed<T>, r: Option<T>, after: seq<Byte>) {
    if p.None? then r.None? else r == Some(p.value.0) && after == p.value.1
  }

  class StreamReader {
    /** The bytes that are left. */
    var rest: seq<Byte>

    constructor (buf: seq<Byte>)
      ensures rest == buf
    {
      rest := buf;
    }

    method ReadBytes(n: nat) returns (r: Option<seq<Byte>>)
      modifies this
      ensures Reads(ParseBytes(old(rest), n), r, rest)
    {
      if n > |rest| { return None; }
      r := Some(rest[..n]);
      rest := rest[n..];
    }

    /** `readUInt8`, `readUInt16LE`, `readUInt32LE` and `readBigUInt64LE`, by width. */
    method ReadUInt(n: nat) returns (r: Option<nat>)
      modifies this
      ensures Reads(ParseUInt(old(rest), n), r, rest)
    {
      var bytes :- ReadBytes(n);
      return Some(FromLE(bytes));
    }

    method ReadU32() returns (r: Option<U32>)
      modifies this
      ensures Reads(ParseU32(old(rest)), r, rest)
    {
      var bytes :- ReadBytes(4);
      FromLEBelow(bytes);
      Widths();
      return Some(FromLE(bytes));
    }

    method ReadU64() returns (r: Option<U64>)
      modifies this
      ensures Reads(ParseU64(old(rest)), r, rest)
    {
      var bytes :- ReadBytes(8);
      FromLEBelow(bytes);
      Widths();
      return Some(FromLE(bytes));
    }

    method ReadVarInt() returns (r: Option<nat>)
      modifies this
      ensures Reads(ParseVarInt(old(rest)), r, rest)
    {
      var byte :- ReadUInt(1);
      if byte < 0xfd { return Some(byte); }
      if byte == 0xfd { r := ReadUInt(2); return; }
      if byte == 0xfe { r := ReadUInt(4); return; }
      r := ReadUInt(8);
    }
  }

  class BufferWriter {
    var buf: seq<Byte>

    constructor ()
      ensures buf == []
    {
      buf := [];
    }

    method WriteBytes(b: seq<Byte>)
      modifies this
      ensures buf == old(buf) + b
    {
      buf := buf + b;
    }

    method WriteUInt32LE(v: U32)
      modifies this
      ensures buf == old(buf) + LE(v, 4)
    {
      WriteBytes(LE(v, 4));
    }

    method WriteUInt64LE(v: U64)
      modifies this
      ensures buf == old(buf) + LE(v, 8)
    {
      WriteBytes(LE(v, 8));
    }

    method WriteVarInt(v: U64)
      modifies this
      ensures buf == old(buf) + VarInt(v)
    {
      hide LE;
      ghost var was := buf;
      if v < 0xfd {
        WriteBytes([v]);
      } else if v < 0x1_0000 {
        WriteBytes([0xfd]);
        WriteBytes(LE(v, 2));
        assert buf == was + ([0xfd] + LE(v, 2));
      } else if v < 0x1_0000_0000 {
        WriteBytes([0xfe]);
        WriteUInt32LE(v);
        assert buf == was + ([0xfe] + LE(v, 4));
      } else {
        WriteBytes([0xff]);
        WriteUInt64LE(v);
        assert buf == was + ([0xff] + LE(v, 8));
      }
    }
  }
}
