/**
 * The internal-key format: a user key followed by an eight-byte tag packing the
 * sequence number and the value type, and, in the multi-version form, a further
 * eight-byte valid time.
 *
 *   internal key     := user_key ‖ fixed64((sequence << 8) | type)
 *   mv internal key  := user_key ‖ fixed64((sequence << 8) | type) ‖ fixed64(valid_time)
 */
module DbFormat {
  import opened Wrappers
  import opened Coding

  /**
   * A value type as stored in a tag. The enumeration has two members, but the
   * parsers cast any low tag byte to it, so the model keeps the whole byte.
   */
  type ValueType = Byte

  const kTypeDeletion: ValueType := 0
  const kTypeValue: ValueType := 1

  /** The highest-numbered value type: a seek key built with it sorts first. */
  const kValueTypeForSeek: ValueType := kTypeValue

  type SequenceNumber = U64

  /** Eight low bits are left free for the value type: 2^56 - 1. */
  const kMaxSequenceNumber: SequenceNumber := 0x00FF_FFFF_FFFF_FFFF

  type ValidTime = U64

  const kMaxValidTime: ValidTime := 0xFFFF_FFFF_FFFF_FFFF
  const kMinValidTime: ValidTime := 0

  const TWO_TO_56: int := 0x1_0000_0000_0000_00

  datatype ParsedInternalKey = ParsedInternalKey(
    userKey: seq<Byte>,
    sequence: SequenceNumber,
    valueType: ValueType)

  datatype ParsedMVInternalKey = ParsedMVInternalKey(
    userKey: seq<Byte>,
    sequence: SequenceNumber,
    valueType: ValueType,
    validTime: ValidTime)

  /** A type byte that the parsers accept. */
  predicate IsValueType(t: ValueType) {
    t <= kTypeValue
  }

  /**
   * The tag `(sequence << 8) | t` computed on uint64: the shift drops the top
   * eight bits of the sequence number, and the low eight bits it leaves are zero,
   * so `| t` adds `t`.
   */
  function PackSequenceAndType(sequence: SequenceNumber, t: ValueType): (tag: U64)
    ensures tag % 256 == t
    ensures tag / 256 == sequence % TWO_TO_56
    ensures sequence <= kMaxSequenceNumber <==> tag / 256 == sequence
  {
    ShiftLeft8(sequence);
    (sequence * 256) % TWO_TO_64 + t
  }

  lemma ShiftLeft8(sequence: SequenceNumber)
    ensures (sequence * 256) % TWO_TO_64 == 256 * (sequence % TWO_TO_56)
  {
    var hi, lo := sequence / TWO_TO_56, sequence % TWO_TO_56;
    assert sequence == TWO_TO_56 * hi + lo;
    assert sequence * 256 == TWO_TO_64 * hi + 256 * lo;
  }

  /** InternalKeyEncodingLength. */
  function InternalKeyEncodingLength(key: ParsedInternalKey): (n: nat)
    ensures n == |AppendInternalKey([], key)|
  {
    |key.userKey| + 8
  }

  /** MVInternalKeyEncodingLength. */
  function MVInternalKeyEncodingLength(key: ParsedMVInternalKey): (n: nat)
    ensures n == |AppendMVInternalKey([], key)|
  {
    |key.userKey| + 16
  }

  /** AppendInternalKey: `dst` grows by the encoding of `key` and keeps what it held. */
  function AppendInternalKey(dst: seq<Byte>, key: ParsedInternalKey): (r: seq<Byte>)
    ensures |r| == |dst| + |key.userKey| + 8
    ensures r[..|dst|] == dst
    ensures r[|dst|..|dst| + |key.userKey|] == key.userKey
    ensures r[|r| - 8..] == EncodeFixed64(PackSequenceAndType(key.sequence, key.valueType))
  {
    dst + key.userKey + EncodeFixed64(PackSequenceAndType(key.sequence, key.valueType))
  }

  /** AppendMVInternalKey: as AppendInternalKey, followed by the valid time. */
  function AppendMVInternalKey(dst: seq<Byte>, key: ParsedMVInternalKey): (r: seq<Byte>)
    ensures |r| == |dst| + |key.userKey| + 16
    ensures r[..|dst|] == dst
    ensures r[|dst|..|dst| + |key.userKey|] == key.userKey
    ensures r[|r| - 16..|r| - 8] == EncodeFixed64(PackSequenceAndType(key.sequence, key.valueType))
    ensures r[|r| - 8..] == EncodeFixed64(key.validTime)
  {
    dst + key.userKey + EncodeFixed64(PackSequenceAndType(key.sequence, key.valueType))
      + EncodeFixed64(key.validTime)
  }

  /** ExtractUserKey: the internal key without its eight-byte tag. */
  function ExtractUserKey(internalKey: seq<Byte>): (u: seq<Byte>)
    requires |internalKey| >= 8
    ensures |u| + 8 == |internalKey|
    ensures u <= internalKey
  {
    internalKey[..|internalKey| - 8]
  }

  /** MVExtractUserKey: the multi-version key without its tag and valid time. */
  function MVExtractUserKey(mvInternalKey: seq<Byte>): (u: seq<Byte>)
    requires |mvInternalKey| >= 16
    ensures |u| + 16 == |mvInternalKey|
    ensures u <= mvInternalKey
  {
    mvInternalKey[..|mvInternalKey| - 16]
  }

  /** The 64-bit tag stored in the last eight bytes of an internal key. */
  function InternalKeyTag(internalKey: seq<Byte>): (tag: U64)
    requires |internalKey| >= 8
    ensures tag % 256 == internalKey[|internalKey| - 8]
  {
    DecodeFixed64(internalKey[|internalKey| - 8..])
  }

  /** The 64-bit tag stored in bytes n-16 .. n-8 of a multi-version key. */
  function MVInternalKeyTag(mvInternalKey: seq<Byte>): (tag: U64)
    requires |mvInternalKey| >= 16
    ensures tag % 256 == mvInternalKey[|mvInternalKey| - 16]
  {
    var n := |mvInternalKey|;
    DecodeFixed64(mvInternalKey[n - 16..n - 8])
  }

  /**
   * What ParseInternalKey computes, as a value: None where it returns false.
   * The low byte of the little-endian tag is its first byte, so the type check
   * reads byte n-8.
   */
  function DecodeInternalKey(internalKey: seq<Byte>): (r: Option<ParsedInternalKey>)
    ensures r.Some? <==> |internalKey| >= 8 && IsValueType(internalKey[|internalKey| - 8])
    ensures r.Some? ==> r.value.userKey == ExtractUserKey(internalKey)
    ensures r.Some? ==> r.value.sequence <= kMaxSequenceNumber && IsValueType(r.value.valueType)
  {
    if |internalKey| < 8 then None
    else
      var num := InternalKeyTag(internalKey);
      var c: ValueType := num % 256;
      if IsValueType(c) then Some(ParsedInternalKey(ExtractUserKey(internalKey), num / 256, c))
      else None
  }

  /** What ParseMVInternalKey computes, as a value: None where it returns false. */
  function DecodeMVInternalKey(mvInternalKey: seq<Byte>): (r: Option<ParsedMVInternalKey>)
    ensures r.Some? <==> |mvInternalKey| >= 16 && IsValueType(mvInternalKey[|mvInternalKey| - 16])
    ensures r.Some? ==> r.value.userKey == MVExtractUserKey(mvInternalKey)
    ensures r.Some? ==> r.value.sequence <= kMaxSequenceNumber && IsValueType(r.value.valueType)
    ensures r.Some? ==> r.value.validTime == DecodeFixed64(mvInternalKey[|mvInternalKey| - 8..])
  {
    var n := |mvInternalKey|;
    if n < 16 then None
    else
      var num := MVInternalKeyTag(mvInternalKey);
      var c: ValueType := num % 256;
      if IsValueType(c) then
        Some(ParsedMVInternalKey(MVExtractUserKey(mvInternalKey), num / 256, c,
                                 DecodeFixed64(mvInternalKey[n - 8..])))
      else None
  }

  /**
   * ParseInternalKey. `prior` is what `*result` held before the call: a short
   * input returns before writing it; otherwise every field is written, and the
   * return value says whether the type byte is valid.
   */
  method ParseInternalKey(internalKey: seq<Byte>, prior: ParsedInternalKey)
    returns (ok: bool, result: ParsedInternalKey)
    ensures |internalKey| < 8 ==> !ok && result == prior
    ensures |internalKey| >= 8 ==>
      && result.userKey == internalKey[..|internalKey| - 8]
      && result.sequence == InternalKeyTag(internalKey) / 256
      && result.valueType == InternalKeyTag(internalKey) % 256
      && (ok <==> internalKey[|internalKey| - 8] <= kTypeValue)
    ensures ok <==> DecodeInternalKey(internalKey).Some?
    ensures ok ==> DecodeInternalKey(internalKey) == Some(result)
  {
    var n := |internalKey|;
    if n < 8 {
      return false, prior;
    }
    var num := DecodeFixed64(internalKey[n - 8..]);
    var c: Byte := num % 256;
    result := ParsedInternalKey(internalKey[..n - 8], num / 256, c);
    ok := c <= kTypeValue;
  }

  /** ParseMVInternalKey: as ParseInternalKey, reading the valid time from the last eight bytes. */
  method ParseMVInternalKey(mvInternalKey: seq<Byte>, prior: ParsedMVInternalKey)
    returns (ok: bool, result: ParsedMVInternalKey)
    ensures |mvInternalKey| < 16 ==> !ok && result == prior
    ensures |mvInternalKey| >= 16 ==>
      && result.userKey == mvInternalKey[..|mvInternalKey| - 16]
      && result.sequence == MVInternalKeyTag(mvInternalKey) / 256
      && result.valueType == MVInternalKeyTag(mvInternalKey) % 256
      && result.validTime == DecodeFixed64(mvInternalKey[|mvInternalKey| - 8..])
      && (ok <==> mvInternalKey[|mvInternalKey| - 16] <= kTypeValue)
    ensures ok <==> DecodeMVInternalKey(mvInternalKey).Some?
    ensures ok ==> DecodeMVInternalKey(mvInternalKey) == Some(result)
  {
    var n := |mvInternalKey|;
    if n < 16 {
      return false, prior;
    }
    var num := DecodeFixed64(mvInternalKey[n - 16..n - 8]);
    var c: Byte := num % 256;
    result := ParsedMVInternalKey(mvInternalKey[..n - 16], num / 256, c,
                                  DecodeFixed64(mvInternalKey[n - 8..]));
    ok := c <= kTypeValue;
  }

  /** The tag of an encoded key is the packed sequence number and type. */
  lemma InternalKeyTagOfEncoding(key: ParsedInternalKey)
    ensures InternalKeyTag(AppendInternalKey([], key)) == PackSequenceAndType(key.sequence, key.valueType)
  {
    Fixed64DecodeEncode(PackSequenceAndType(key.sequence, key.valueType));
  }

  lemma MVInternalKeyTagOfEncoding(key: ParsedMVInternalKey)
    ensures MVInternalKeyTag(AppendMVInternalKey([], key)) == PackSequenceAndType(key.sequence, key.valueType)
  {
    Fixed64DecodeEncode(PackSequenceAndType(key.sequence, key.valueType));
  }

  /** Round trip: a key whose sequence fits in 56 bits and whose type is valid parses back. */
  lemma DecodeAppendInternalKey(key: ParsedInternalKey)
    requires key.sequence <= kMaxSequenceNumber && IsValueType(key.valueType)
    ensures DecodeInternalKey(AppendInternalKey([], key)) == Some(key)
  {
    InternalKeyTagOfEncoding(key);
  }

  lemma DecodeAppendMVInternalKey(key: ParsedMVInternalKey)
    requires key.sequence <= kMaxSequenceNumber && IsValueType(key.valueType)
    ensures DecodeMVInternalKey(AppendMVInternalKey([], key)) == Some(key)
  {
    MVInternalKeyTagOfEncoding(key);
    Fixed64DecodeEncode(key.validTime);
  }

  /** The other round trip: bytes that parse are exactly the encoding of what they parse to. */
  lemma AppendDecodeInternalKey(internalKey: seq<Byte>)
    requires DecodeInternalKey(internalKey).Some?
    ensures AppendInternalKey([], DecodeInternalKey(internalKey).value) == internalKey
  {
    var n := |internalKey|;
    var key := DecodeInternalKey(internalKey).value;
    var tag := InternalKeyTag(internalKey);
    assert PackSequenceAndType(key.sequence, key.valueType) == tag;
    Fixed64EncodeDecode(internalKey[n - 8..]);
    assert internalKey == internalKey[..n - 8] + internalKey[n - 8..];
  }

  lemma AppendDecodeMVInternalKey(mvInternalKey: seq<Byte>)
    requires DecodeMVInternalKey(mvInternalKey).Some?
    ensures AppendMVInternalKey([], DecodeMVInternalKey(mvInternalKey).value) == mvInternalKey
  {
    var n := |mvInternalKey|;
    var key := DecodeMVInternalKey(mvInternalKey).value;
    var tag := MVInternalKeyTag(mvInternalKey);
    assert PackSequenceAndType(key.sequence, key.valueType) == tag;
    Fixed64EncodeDecode(mvInternalKey[n - 16..n - 8]);
    Fixed64EncodeDecode(mvInternalKey[n - 8..]);
    assert mvInternalKey == mvInternalKey[..n - 16] + mvInternalKey[n - 16..n - 8] + mvInternalKey[n - 8..];
  }

  /**
   * kMaxSequenceNumber is exactly the bound of the round trip: a larger sequence
   * number loses its top bits in the tag and parses back as a different one.
   */
  lemma OversizedSequenceDoesNotRoundTrip(key: ParsedInternalKey)
    requires key.sequence > kMaxSequenceNumber && IsValueType(key.valueType)
    ensures DecodeInternalKey(AppendInternalKey([], key)).Some?
    ensures DecodeInternalKey(AppendInternalKey([], key)).value.sequence == key.sequence % TWO_TO_56
    ensures DecodeInternalKey(AppendInternalKey([], key)) != Some(key)
  {
    InternalKeyTagOfEncoding(key);
  }

  /** The user key of an encoding is the key it was built from, whatever the tag. */
  lemma ExtractUserKeyOfEncoding(key: ParsedInternalKey)
    ensures ExtractUserKey(AppendInternalKey([], key)) == key.userKey
  {
  }

  lemma MVExtractUserKeyOfEncoding(key: ParsedMVInternalKey)
    ensures MVExtractUserKey(AppendMVInternalKey([], key)) == key.userKey
  {
  }

  /**
   * Dropping the trailing valid time of a multi-version encoding leaves the
   * plain encoding of the same user key, sequence and type.
   */
  lemma MVEncodingWithoutValidTime(key: ParsedMVInternalKey)
    ensures var mv := AppendMVInternalKey([], key);
      mv[..|mv| - 8] == AppendInternalKey([], ParsedInternalKey(key.userKey, key.sequence, key.valueType))
  {
    var mv := AppendMVInternalKey([], key);
    var plain := AppendInternalKey([], ParsedInternalKey(key.userKey, key.sequence, key.valueType));
    assert mv[..|mv| - 8] == plain;
  }

  /** User key "abc", sequence 5, kTypeValue: "abc" then 1281 = 0x0501 little-endian. */
  lemma EncodingExampleValue()
    ensures AppendInternalKey([], ParsedInternalKey([97, 98, 99], 5, kTypeValue))
         == [97, 98, 99, 0x01, 0x05, 0, 0, 0, 0, 0, 0]
    ensures DecodeInternalKey([97, 98, 99, 0x01, 0x05, 0, 0, 0, 0, 0, 0])
         == Some(ParsedInternalKey([97, 98, 99], 5, kTypeValue))
  {
    var key := ParsedInternalKey([97, 98, 99], 5, kTypeValue);
    assert AppendInternalKey([], key) == [97, 98, 99, 0x01, 0x05, 0, 0, 0, 0, 0, 0] by {
      assert PackSequenceAndType(5, kTypeValue) == 1281;
      EncodeFixed64TwoBytes(1281);
    }
    DecodeAppendInternalKey(key);
  }

  /** User key "k", sequence 10, kTypeDeletion, valid time 42: "k", 2560, 42. */
  lemma EncodingExampleMV()
    ensures AppendMVInternalKey([], ParsedMVInternalKey([107], 10, kTypeDeletion, 42))
         == [107, 0x00, 0x0A, 0, 0, 0, 0, 0, 0, 42, 0, 0, 0, 0, 0, 0, 0]
    ensures MVExtractUserKey([107, 0x00, 0x0A, 0, 0, 0, 0, 0, 0, 42, 0, 0, 0, 0, 0, 0, 0]) == [107]
  {
    assert PackSequenceAndType(10, kTypeDeletion) == 2560;
    EncodeFixed64TwoBytes(2560);
    EncodeFixed64TwoBytes(42);
  }

  /** A tag whose type byte is 2 is rejected even though the key is long enough. */
  lemma RejectsTypeByteTwo(userKey: seq<Byte>, sequence: SequenceNumber)
    ensures DecodeInternalKey(AppendInternalKey([], ParsedInternalKey(userKey, sequence, 2))) == None
  {
  }
}
