/**
 * Byte-level integer codings that the key format is built on: the fixed-width
 * little-endian integers read by DecodeFixed64 and the varint32 length prefix of
 * a memtable key. Both follow LevelDB's conventions (util/coding.h).
 */
module Coding {
  import opened Wrappers

  type Byte = b: int | 0 <= b < 0x100

  const TWO_TO_64: int := 0x1_0000_0000_0000_0000
  const TWO_TO_32: int := 0x1_0000_0000

  /** An unsigned 64-bit integer (uint64_t). */
  type U64 = n: int | 0 <= n < 0x1_0000_0000_0000_0000

  function Pow256(k: nat): (p: nat)
    ensures p >= 1
  {
    if k == 0 then 1 else 256 * Pow256(k - 1)
  }

  /** The `width` low-order bytes of `v`, least significant first. */
  function EncodeFixed(v: nat, width: nat): (s: seq<Byte>)
    ensures |s| == width
  {
    if width == 0 then [] else [v % 256] + EncodeFixed(v / 256, width - 1)
  }

  /** The unsigned integer whose little-endian bytes are `s`. */
  function DecodeFixed(s: seq<Byte>): (v: nat)
    ensures v < Pow256(|s|)
  {
    if s == [] then 0 else s[0] + 256 * DecodeFixed(s[1..])
  }

  lemma {:induction false} DecodeEncodeFixed(v: nat, width: nat)
    requires v < Pow256(width)
    ensures DecodeFixed(EncodeFixed(v, width)) == v
  {
    if width > 0 {
      var s := EncodeFixed(v, width);
      assert s[1..] == EncodeFixed(v / 256, width - 1);
      DecodeEncodeFixed(v / 256, width - 1);
    }
  }

  lemma {:induction false} EncodeDecodeFixed(s: seq<Byte>)
    ensures EncodeFixed(DecodeFixed(s), |s|) == s
  {
    if s != [] {
      var d := DecodeFixed(s[1..]);
      assert DecodeFixed(s) == s[0] + 256 * d;
      assert DecodeFixed(s) % 256 == s[0];
      assert DecodeFixed(s) / 256 == d;
      EncodeDecodeFixed(s[1..]);
    }
  }

  lemma Pow256Of8()
    ensures Pow256(8) == TWO_TO_64
  {
  }

  /** EncodeFixed64: the eight little-endian bytes of `v`. */
  function EncodeFixed64(v: U64): (s: seq<Byte>)
    ensures |s| == 8
    ensures s[0] == v % 256
  {
    EncodeFixed(v, 8)
  }

  /** DecodeFixed64: the 64-bit integer stored little-endian in `s`. */
  function DecodeFixed64(s: seq<Byte>): (v: U64)
    requires |s| == 8
    ensures v % 256 == s[0]
    ensures v / 256 == DecodeFixed(s[1..])
  {
    Pow256Of8();
    DecodeFixed(s)
  }

  lemma {:induction false} EncodeFixedZero(width: nat)
    ensures EncodeFixed(0, width) == seq(width, _ => 0)
  {
    if width > 0 {
      EncodeFixedZero(width - 1);
    }
  }

  /** A value below 2^16 has two significant bytes, then six zero bytes. */
  lemma EncodeFixed64TwoBytes(v: U64)
    requires v < 0x1_0000
    ensures EncodeFixed64(v) == [v % 256, v / 256, 0, 0, 0, 0, 0, 0]
  {
    EncodeFixedZero(6);
    assert EncodeFixed(v, 8) == [v % 256] + EncodeFixed(v / 256, 7);
    assert EncodeFixed(v / 256, 7) == [v / 256] + EncodeFixed(0, 6);
  }

  /** Decoding undoes encoding for every 64-bit value. */
  lemma Fixed64DecodeEncode(v: U64)
    ensures DecodeFixed64(EncodeFixed64(v)) == v
  {
    Pow256Of8();
    DecodeEncodeFixed(v, 8);
  }

  /** Encoding undoes decoding for every eight-byte string. */
  lemma Fixed64EncodeDecode(s: seq<Byte>)
    requires |s| == 8
    ensures EncodeFixed64(DecodeFixed64(s)) == s
  {
    EncodeDecodeFixed(s);
  }

  /** Two eight-byte strings with the same 64-bit value are equal. */
  lemma Fixed64Injective(s: seq<Byte>, t: seq<Byte>)
    requires |s| == 8 && |t| == 8
    ensures DecodeFixed64(s) == DecodeFixed64(t) <==> s == t
  {
    Fixed64EncodeDecode(s);
    Fixed64EncodeDecode(t);
  }

  /**
   * EncodeVarint32: seven bits per byte, least significant group first, the high
   * bit of every byte but the last set.
   */
  function EncodeVarint32(v: nat): (s: seq<Byte>)
    requires v < TWO_TO_32
    ensures 1 <= |s|
    ensures s[|s| - 1] < 128
    ensures forall i :: 0 <= i < |s| - 1 ==> s[i] >= 128
    ensures v < 128 ==> s == [v]
  {
    if v < 128 then [v] else [v % 128 + 128] + EncodeVarint32(v / 128)
  }

  /** Reads a varint from the front of `s`: its value and how many bytes it took. */
  function DecodeVarint(s: seq<Byte>): Option<(nat, nat)>
  {
    if s == [] then None
    else if s[0] < 128 then Some((s[0], 1))
    else match DecodeVarint(s[1..])
      case None => None
      case Some((v, k)) => Some((s[0] - 128 + 128 * v, k + 1))
  }

  /** A varint32 is self-delimiting: whatever follows it, it reads back exactly. */
  lemma {:induction false} DecodeVarintPrefix(v: nat, rest: seq<Byte>)
    requires v < TWO_TO_32
    ensures DecodeVarint(EncodeVarint32(v) + rest) == Some((v, |EncodeVarint32(v)|))
  {
    var s := EncodeVarint32(v) + rest;
    if v >= 128 {
      assert s[1..] == EncodeVarint32(v / 128) + rest;
      DecodeVarintPrefix(v / 128, rest);
    }
  }

  /** GetLengthPrefixedSlice: a varint length followed by that many bytes. */
  function GetLengthPrefixedSlice(s: seq<Byte>): Option<seq<Byte>>
  {
    var prefix := DecodeVarint(s);
    if prefix.None? then None
    else
      var len, k := prefix.value.0, prefix.value.1;
      if k <= |s| && len <= |s| - k then Some(s[k..k + len]) else None
  }

  /** A varint32 length followed by exactly that many bytes reads back as those bytes. */
  lemma LengthPrefixedRoundTrip(data: seq<Byte>)
    requires |data| < TWO_TO_32
    ensures GetLengthPrefixedSlice(EncodeVarint32(|data|) + data) == Some(data)
  {
    var prefix := EncodeVarint32(|data|);
    var s := prefix + data;
    DecodeVarintPrefix(|data|, data);
    LengthPrefixedSliceAt(s, |data|, |prefix|);
    assert s[|prefix|..] == data;
  }

  lemma LengthPrefixedSliceAt(s: seq<Byte>, len: nat, k: nat)
    requires DecodeVarint(s) == Some((len, k))
    requires k + len == |s|
    ensures GetLengthPrefixedSlice(s) == Some(s[k..])
  {
    var prefix := DecodeVarint(s);
    assert prefix.value.0 == len && prefix.value.1 == k;
    assert s[k..k + len] == s[k..];
  }
}
