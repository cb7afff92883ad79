/**
 * The byte-level encodings a coin is written with: a compact-size VarInt length prefix,
 * a little-endian signed 64-bit integer and a little-endian unsigned 48-bit integer,
 * together with the output stream and the read buffer that apply them step by step.
 * The encodings that VarInt, SerializeUtils, NulsOutputStreamBuffer and NulsByteBuffer
 * implement are modelled here; those classes themselves are not part of this model.
 */
module Codec {
  import opened Wrappers
  import opened Kernel

  /** 256 to the power `w`: how many values `w` bytes can hold. */
  function Pow256(w: nat): (r: nat)
    ensures r > 0
  {
    if w == 0 then 1 else 256 * Pow256(w - 1)
  }

  lemma Pow256Values()
    ensures Pow256(2) == 0x1_0000
    ensures Pow256(4) == 0x1_0000_0000
    ensures Pow256(6) == 0x1_0000_0000_0000
    ensures Pow256(8) == 0x1_0000_0000_0000_0000
  {
    assert Pow256(1) == 0x100;
    assert Pow256(3) == 0x100_0000;
    assert Pow256(5) == 0x100_0000_0000;
    assert Pow256(7) == 0x100_0000_0000_0000;
  }

  /** The `w` low-order bytes of `n`, least significant first. */
  function LittleEndian(n: nat, w: nat): (r: Bytes)
    ensures |r| == w
  {
    if w == 0 then [] else [n % 256] + LittleEndian(n / 256, w - 1)
  }

  /** The unsigned number whose little-endian bytes are `b`. */
  function FromLittleEndian(b: Bytes): (r: nat)
    ensures r < Pow256(|b|)
  {
    if |b| == 0 then 0 else b[0] + 256 * FromLittleEndian(b[1..])
  }

  lemma {:induction false} LittleEndianRoundTrip(n: nat, w: nat)
    requires n < Pow256(w)
    ensures FromLittleEndian(LittleEndian(n, w)) == n
  {
    if w > 0 {
      LittleEndianRoundTrip(n / 256, w - 1);
      assert LittleEndian(n, w)[1..] == LittleEndian(n / 256, w - 1);
    }
  }

  // ---- VarInt (compact size) ----

  function VarIntSize(n: nat): nat {
    if n < 0xfd then 1 else if n <= 0xffff then 3 else if n <= 0xffff_ffff then 5 else 9
  }

  /** A count as 1, 3, 5 or 9 bytes: one byte below 0xfd, else a marker byte and 2, 4 or 8 bytes. */
  function EncodeVarInt(n: nat): (r: Bytes)
    ensures |r| == VarIntSize(n)
  {
    if n < 0xfd then [n]
    else if n <= 0xffff then [0xfd] + LittleEndian(n, 2)
    else if n <= 0xffff_ffff then [0xfe] + LittleEndian(n, 4)
    else [0xff] + LittleEndian(n, 8)
  }

  /** Reads a VarInt at the front of `b`: its value and the number of bytes it took. */
  function DecodeVarInt(b: Bytes): (r: Option<(nat, nat)>)
    ensures r.Some? ==> r.value.1 <= |b|
  {
    if |b| == 0 then None
    else if b[0] < 0xfd then Some((b[0], 1))
    else if b[0] == 0xfd then (if |b| < 3 then None else Some((FromLittleEndian(b[1..3]), 3)))
    else if b[0] == 0xfe then (if |b| < 5 then None else Some((FromLittleEndian(b[1..5]), 5)))
    else if |b| < 9 then None else Some((FromLittleEndian(b[1..9]), 9))
  }

  lemma VarIntRoundTrip(n: nat, rest: Bytes)
    requires n < Pow256(8)
    ensures DecodeVarInt(EncodeVarInt(n) + rest) == Some((n, VarIntSize(n)))
  {
    Pow256Values();
    var b := EncodeVarInt(n) + rest;
    if n < 0xfd {
    } else if n <= 0xffff {
      assert b[1..3] == LittleEndian(n, 2);
      LittleEndianRoundTrip(n, 2);
    } else if n <= 0xffff_ffff {
      assert b[1..5] == LittleEndian(n, 4);
      LittleEndianRoundTrip(n, 4);
    } else {
      assert b[1..9] == LittleEndian(n, 8);
      LittleEndianRoundTrip(n, 8);
    }
  }

  // ---- the three field encodings a coin uses ----

  /** SerializeUtils.sizeOfBytes: the length prefix plus the bytes. */
  function SizeOfBytes(b: Bytes): nat {
    VarIntSize(|b|) + |b|
  }

  const SizeOfInt64: nat := 8
  const SizeOfUint48: nat := 6

  function EncodeBytesWithLength(b: Bytes): (r: Bytes)
    ensures |r| == SizeOfBytes(b)
  {
    EncodeVarInt(|b|) + b
  }

  function DecodeBytesWithLength(b: Bytes): (r: Option<(Bytes, nat)>)
    ensures r.Some? ==> r.value.1 <= |b|
  {
    match DecodeVarInt(b)
    case None => None
    case Some((n, k)) => if n <= |b| - k then Some((b[k..k + n], k + n)) else None
  }

  lemma BytesWithLengthRoundTrip(v: Bytes, rest: Bytes)
    requires |v| < Pow256(8)
    ensures DecodeBytesWithLength(EncodeBytesWithLength(v) + rest) == Some((v, SizeOfBytes(v)))
  {
    var b := EncodeBytesWithLength(v) + rest;
    assert b == EncodeVarInt(|v|) + (v + rest);
    VarIntRoundTrip(|v|, v + rest);
    var k := VarIntSize(|v|);
    assert b[k..k + |v|] == v;
  }

  /** writeInt64: the two's-complement image of `x`, little-endian. */
  function EncodeInt64(x: int): (r: Bytes)
    ensures |r| == SizeOfInt64
  {
    LittleEndian(x % Pow256(8), 8)
  }

  /** readInt64: eight bytes read back as a signed value. */
  function DecodeInt64(b: Bytes): (r: Option<(int, nat)>)
    ensures r.Some? ==> r.value.1 <= |b|
  {
    if |b| < 8 then None
    else
      var v := FromLittleEndian(b[..8]);
      Some((if v > Int64Max then v - Pow256(8) else v, 8))
  }

  lemma Int64RoundTrip(x: int, rest: Bytes)
    requires IsInt64(x)
    ensures DecodeInt64(EncodeInt64(x) + rest) == Some((x, 8))
  {
    Pow256Values();
    var b := EncodeInt64(x) + rest;
    assert b[..8] == EncodeInt64(x);
    LittleEndianRoundTrip(x % Pow256(8), 8);
  }

  /** writeUint48: the low 48 bits of `x`, little-endian. */
  function EncodeUint48(x: int): (r: Bytes)
    ensures |r| == SizeOfUint48
  {
    LittleEndian(x % Pow256(6), 6)
  }

  /** readUint48: six bytes read back as an unsigned value. */
  function DecodeUint48(b: Bytes): (r: Option<(int, nat)>)
    ensures r.Some? ==> r.value.1 <= |b|
  {
    if |b| < 6 then None else Some((FromLittleEndian(b[..6]), 6))
  }

  lemma Uint48RoundTrip(x: int, rest: Bytes)
    requires 0 <= x < Pow256(6)
    ensures DecodeUint48(EncodeUint48(x) + rest) == Some((x, 6))
  {
    var b := EncodeUint48(x) + rest;
    assert b[..6] == EncodeUint48(x);
    LittleEndianRoundTrip(x, 6);
  }

  /** A value outside the unsigned 48-bit range does not survive: it reads back as its low 48 bits. */
  lemma Uint48ReadsLowBits(x: int, rest: Bytes)
    ensures DecodeUint48(EncodeUint48(x) + rest) == Some((x % Pow256(6), 6))
  {
    var b := EncodeUint48(x) + rest;
    assert b[..6] == EncodeUint48(x);
    LittleEndianRoundTrip(x % Pow256(6), 6);
  }

  /** NulsOutputStreamBuffer: a sink the serializers append to. */
  class OutputBuffer {
    var written: Bytes

    constructor ()
      ensures written == []
    {
      written := [];
    }

    method WriteBytesWithLength(b: Bytes)
      modifies this
      ensures written == old(written) + EncodeBytesWithLength(b)
    {
      written := written + EncodeBytesWithLength(b);
    }

    method WriteInt64(x: int)
      modifies this
      ensures written == old(written) + EncodeInt64(x)
    {
      written := written + EncodeInt64(x);
    }

    method WriteUint48(x: int)
      modifies this
      ensures written == old(written) + EncodeUint48(x)
    {
      written := written + EncodeUint48(x);
    }
  }

  /** NulsByteBuffer: a payload read from a moving cursor; a read past the end fails. */
  class InputBuffer {
    const payload: Bytes
    var cursor: nat

    constructor (payload: Bytes)
      ensures this.payload == payload && cursor == 0
    {
      this.payload := payload;
      cursor := 0;
    }

    ghost predicate Valid()
      reads this
    {
      cursor <= |payload|
    }

    /** What is left to read. */
    ghost function Remaining(): Bytes
      reads this
      requires Valid()
    {
      payload[cursor..]
    }

    method ReadByLengthByte() returns (r: Option<Bytes>)
      requires Valid()
      modifies this
      ensures Valid()
      ensures var d := DecodeBytesWithLength(old(Remaining()));
        && (d.None? ==> r.None? && cursor == old(cursor))
        && (d.Some? ==> r == Some(d.value.0) && cursor == old(cursor) + d.value.1)
    {
      var d := DecodeBytesWithLength(payload[cursor..]);
      if d.None? {
        r := None;
      } else {
        r := Some(d.value.0);
        cursor := cursor + d.value.1;
      }
    }

    method ReadInt64() returns (r: Option<int>)
      requires Valid()
      modifies this
      ensures Valid()
      ensures var d := DecodeInt64(old(Remaining()));
        && (d.None? ==> r.None? && cursor == old(cursor))
        && (d.Some? ==> r == Some(d.value.0) && cursor == old(cursor) + d.value.1)
    {
      var d := DecodeInt64(payload[cursor..]);
      if d.None? {
        r := None;
      } else {
        r := Some(d.value.0);
        cursor := cursor + d.value.1;
      }
    }

    method ReadUint48() returns (r: Option<int>)
      requires Valid()
      modifies this
      ensures Valid()
      ensures var d := DecodeUint48(old(Remaining()));
        && (d.None? ==> r.None? && cursor == old(cursor))
        && (d.Some? ==> r == Some(d.value.0) && cursor == old(cursor) + d.value.1)
    {
      var d := DecodeUint48(payload[cursor..]);
      if d.None? {
        r := None;
      } else {
        r := Some(d.value.0);
        cursor := cursor + d.value.1;
      }
    }
  }
}
