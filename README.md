# Internal key format of a multi-version LevelDB

This project models `db/dbformat.h` of a LevelDB fork that adds multi-version
("valid time") keys, and proves properties of that model in Dafny.

An internal key is a user key followed by an eight-byte little-endian tag,
`(sequence << 8) | type`. A multi-version (MV) internal key adds an eight-byte
valid time after the tag. The model covers these parts of the header:

- the constants `kTypeDeletion`, `kTypeValue`, `kValueTypeForSeek`,
  `kMaxSequenceNumber`, `kMinValidTime` and `kMaxValidTime`;
- the encoding lengths and the append functions;
- the parsers `ParseInternalKey` and `ParseMVInternalKey`, and
  `ExtractUserKey` / `MVExtractUserKey`;
- the owning key classes `InternalKey` and `MVInternalKey`;
- the `InternalKeyComparator` ordering;
- the lookup keys `LookupKey` and `MVLookupKey`, with their three offsets
  and their views.

Modules:

- `Wrappers` (wrappers.dfy): `Option`.
- `Coding` (coding.dfy): bytes, 64-bit naturals, fixed-width little-endian
  integers, and varint32 length prefixes. These follow LevelDB's
  `util/coding.h`, which is not part of this model.
- `DbFormat` (dbformat.dfy): the key codec. The parsers are methods with an
  out-parameter. Each is specified against a pure decoding function
  (`DecodeInternalKey`, `DecodeMVInternalKey`) that gives `None` where the
  parser returns false. Both round trips are proved.
- `InternalKeys` (internal_key.dfy): the two owning key classes, each with a
  `rep` byte-sequence field that its methods replace.
- `InternalKeyOrder` (comparator.dfy): `Compare`, parameterised by a user
  comparator function. It is proved to be a total order whenever the user
  comparator keeps LevelDB's three-way contract. The lemmas also show that a
  newer sequence sorts first, that the seek type sorts before a deletion, and
  where a seek key lands.
- `LookupKeys` (lookup_key.dfy): the two lookup-key classes. Each is an
  array with `start`, `kstart` and `end` offsets, plus ghost fields recording
  what the key was built for.

Two points of the code worth stating explicitly:

- `DecodeFromMV` is a method of `InternalKey`, not of `MVInternalKey`. It turns
  an MV encoding into a plain internal key by dropping the valid time.
- `DecodeFrom` accepts any non-empty byte string, well-formed or not. So the
  invariant "empty, or a well-formed key" is not kept by the code. The model
  states only what the code does.

## Model

| member | source | states |
|---|---|---|
| `Coding.EncodeFixed64` | db/dbformat.h:110-113 | eight bytes are produced, and the first is the low byte of the value (little-endian) |
| `Coding.DecodeFixed64` | db/dbformat.h:271-272 | the value fits in 64 bits; its low byte (`num & 0xff`) is the first input byte, and `num >> 8` is the value of the other seven |
| `Coding.DecodeFixed` | db/dbformat.h:271 | a little-endian string of k bytes denotes a number below 256^k |
| `Coding.DecodeEncodeFixed` | db/dbformat.h:271 | decoding the k-byte encoding of any v < 256^k gives back v |
| `Coding.EncodeDecodeFixed` | db/dbformat.h:271 | re-encoding a decoded k-byte string gives back the same bytes |
| `Coding.Fixed64DecodeEncode` | db/dbformat.h:271 | DecodeFixed64 inverts EncodeFixed64 on every 64-bit value |
| `Coding.Fixed64EncodeDecode` | db/dbformat.h:271 | EncodeFixed64 inverts DecodeFixed64 on every eight-byte string |
| `Coding.Fixed64Injective` | db/dbformat.h:271 | two eight-byte strings decode to the same value iff they are equal |
| `Coding.EncodeVarint32` | db/dbformat.h:314-319 | the length prefix is at least one byte; every byte but the last has the high bit set and the last has it clear; a length below 128 is one byte |
| `Coding.DecodeVarintPrefix` | db/dbformat.h:314-319 | a varint32 reads back exactly, whatever bytes follow it |
| `Coding.LengthPrefixedRoundTrip` | db/dbformat.h:305 | a varint32 length followed by that many bytes reads back as those bytes |
| `DbFormat.PackSequenceAndType` | db/dbformat.h:69-71 | the tag's low byte is the type; its upper 56 bits are the sequence mod 2^56; they equal the sequence iff it is at most kMaxSequenceNumber |
| `DbFormat.InternalKeyEncodingLength` | db/dbformat.h:102-104 | equals the length of the appended encoding (user key + 8) |
| `DbFormat.MVInternalKeyEncodingLength` | db/dbformat.h:106-108 | equals the length of the appended MV encoding (user key + 16) |
| `DbFormat.AppendInternalKey` | db/dbformat.h:110-111 | the old contents are kept, then the user key, then the 8-byte tag |
| `DbFormat.AppendMVInternalKey` | db/dbformat.h:113 | the old contents are kept, then the user key, the tag and the 8-byte valid time |
| `DbFormat.ExtractUserKey` | db/dbformat.h:124-127 | needs at least 8 bytes; returns the prefix that is 8 bytes shorter |
| `DbFormat.MVExtractUserKey` | db/dbformat.h:129-132 | needs at least 16 bytes; returns the prefix that is 16 bytes shorter |
| `DbFormat.InternalKeyTag` | db/dbformat.h:271-272 | the tag read from the last 8 bytes; its low byte is byte n-8 |
| `DbFormat.MVInternalKeyTag` | db/dbformat.h:283-284 | the tag read from bytes n-16..n-8; its low byte is byte n-16 |
| `DbFormat.DecodeInternalKey` | db/dbformat.h:267-277 | succeeds iff there are at least 8 bytes and type byte <= kTypeValue; the user key is the prefix; the sequence fits in 56 bits |
| `DbFormat.DecodeMVInternalKey` | db/dbformat.h:279-290 | succeeds iff there are at least 16 bytes and type byte <= kTypeValue; the valid time is the last 8 bytes |
| `DbFormat.ParseInternalKey` | db/dbformat.h:267-277 | a short input returns false and leaves the result untouched; otherwise every field is written and the call returns true iff the type byte is valid; agrees with DecodeInternalKey |
| `DbFormat.ParseMVInternalKey` | db/dbformat.h:279-290 | as ParseInternalKey, with a 16-byte minimum and the valid time written from the last 8 bytes |
| `DbFormat.InternalKeyTagOfEncoding` | db/dbformat.h:271-273 | the tag read from an encoding is the packed (sequence, type) |
| `DbFormat.MVInternalKeyTagOfEncoding` | db/dbformat.h:283-285 | the tag read from an MV encoding is the packed (sequence, type) |
| `DbFormat.DecodeAppendInternalKey` | db/dbformat.h:110-121 | round trip: sequence <= kMaxSequenceNumber and a valid type parse back to exactly (user key, sequence, type) |
| `DbFormat.DecodeAppendMVInternalKey` | db/dbformat.h:113-121 | round trip for MV keys, valid time included |
| `DbFormat.AppendDecodeInternalKey` | db/dbformat.h:267-277 | bytes that parse are exactly the encoding of their parse |
| `DbFormat.AppendDecodeMVInternalKey` | db/dbformat.h:279-290 | MV bytes that parse are exactly the MV encoding of their parse |
| `DbFormat.OversizedSequenceDoesNotRoundTrip` | db/dbformat.h:69-71 | a sequence above kMaxSequenceNumber parses back as sequence mod 2^56, not as itself |
| `DbFormat.ExtractUserKeyOfEncoding` | db/dbformat.h:123-127 | the user key extracted from an encoding is the one encoded, whatever the tag |
| `DbFormat.MVExtractUserKeyOfEncoding` | db/dbformat.h:129-132 | the user key extracted from an MV encoding is the one encoded |
| `DbFormat.MVEncodingWithoutValidTime` | db/dbformat.h:203-207 | an MV encoding without its last 8 bytes is the plain encoding of the same key |
| `DbFormat.EncodingExampleValue` | db/dbformat.h:110-121 | ("abc", 5, kTypeValue) encodes as "abc" then 0x0501 little-endian, and parses back |
| `DbFormat.EncodingExampleMV` | db/dbformat.h:113-132 | ("k", 10, kTypeDeletion, 42) encodes as "k", 2560, 42; its user key is "k" |
| `DbFormat.RejectsTypeByteTwo` | db/dbformat.h:272-276 | a long-enough key whose type byte is 2 does not parse |
| `InternalKeys.InternalKey.constructor` | db/dbformat.h:193 | starts unset (empty buffer) |
| `InternalKeys.InternalKey.FromParts` | db/dbformat.h:194-196 | holds the encoding of (user key, s, t), which parses back when s and t are in range |
| `InternalKeys.InternalKey.DecodeFrom` | db/dbformat.h:198-201 | the buffer becomes exactly s; returns whether s is non-empty |
| `InternalKeys.InternalKey.DecodeFromMV` | db/dbformat.h:203-207 | the buffer becomes s without its last 8 bytes; returns whether that is non-empty; for a parsable MV key the buffer parses as the plain key |
| `InternalKeys.InternalKey.Encode` | db/dbformat.h:209-212 | needs a set key; returns the buffer |
| `InternalKeys.InternalKey.UserKey` | db/dbformat.h:214 | is ExtractUserKey of the buffer, and the parsed user key when the buffer parses |
| `InternalKeys.InternalKey.SetFrom` | db/dbformat.h:216-219 | the old buffer is discarded; the new buffer is exactly the encoding of p, which parses back to p when p is in range |
| `InternalKeys.InternalKey.Clear` | db/dbformat.h:221 | the buffer becomes empty |
| `InternalKeys.MVInternalKey.constructor` | db/dbformat.h:231 | starts unset (empty buffer) |
| `InternalKeys.MVInternalKey.FromParts` | db/dbformat.h:232-235 | holds the MV encoding of (user key, s, t, vt), which parses back when s and t are in range |
| `InternalKeys.MVInternalKey.DecodeFrom` | db/dbformat.h:237-240 | the buffer becomes exactly s; returns whether s is non-empty |
| `InternalKeys.MVInternalKey.Encode` | db/dbformat.h:242-245 | needs a set key; returns the buffer |
| `InternalKeys.MVInternalKey.UserKey` | db/dbformat.h:247 | is MVExtractUserKey of the buffer, and the parsed user key when the buffer parses |
| `InternalKeys.MVInternalKey.SetFrom` | db/dbformat.h:249-252 | the new buffer is exactly the MV encoding of p, which parses back to p when p is in range |
| `InternalKeys.MVInternalKey.Clear` | db/dbformat.h:254 | the buffer becomes empty |
| `InternalKeyOrder.Compare` | db/dbformat.h:134-146 | different user keys: the user comparator's result; equal user keys: negative iff a's tag is larger, positive iff it is smaller |
| `InternalKeyOrder.SplitInternalKey` | db/dbformat.h:124-127 | a key is its user key followed by the encoding of its tag |
| `InternalKeyOrder.CompareZeroIffEqual` | db/dbformat.h:134-135 | under a three-way user order, Compare is zero exactly on equal keys |
| `InternalKeyOrder.CompareAntisymmetric` | db/dbformat.h:134-135 | swapping the operands flips the sign |
| `InternalKeyOrder.CompareTransitive` | db/dbformat.h:134-135 | "sorts before" is transitive |
| `InternalKeyOrder.CompareKeys` | db/dbformat.h:257-260 | on owning keys: follows the user comparator when user keys differ; zero iff the encodings are equal, whenever the user comparator is a three-way order |
| `InternalKeyOrder.UserKeyDecides` | db/dbformat.h:134-135 | different user keys are ordered by the user comparator, whatever the sequence and type |
| `InternalKeyOrder.NewerSequenceSortsFirst` | db/dbformat.h:59-65 | for one user key, a higher sequence sorts first, whatever the two types |
| `InternalKeyOrder.SeekTypeSortsBeforeDeletion` | db/dbformat.h:59-65 | for one user key and sequence, kValueTypeForSeek sorts before kTypeDeletion |
| `InternalKeyOrder.SeekKeyPosition` | db/dbformat.h:59-65 | a seek key (u, snapshot, kValueTypeForSeek) sorts no later than every valid entry of u with sequence <= snapshot, and after every newer one |
| `LookupKeys.LookupKey.constructor` | db/dbformat.h:295-297 | the buffer is varint32(klength), then the user key, then the tag of (sequence, kValueTypeForSeek) |
| `LookupKeys.LookupKey.MemtableKey` | db/dbformat.h:304-305 | is the length-prefixed internal key, and reading the prefix recovers exactly the internal key |
| `LookupKeys.LookupKey.InternalKey` | db/dbformat.h:307-308 | is user key + 8 bytes long and, when the sequence is at most kMaxSequenceNumber, parses back to (user key, sequence, kValueTypeForSeek) |
| `LookupKeys.LookupKey.UserKey` | db/dbformat.h:310-311 | is the user key looked up: the internal key without its last 8 bytes |
| `LookupKeys.MVLookupKey.constructor` | db/dbformat.h:333-334 | the buffer is varint32(klength), then the user key, the seek tag and the valid time |
| `LookupKeys.MVLookupKey.MemtableKey` | db/dbformat.h:341-342 | is the length-prefixed MV internal key, and reading the prefix recovers it |
| `LookupKeys.MVLookupKey.InternalKey` | db/dbformat.h:344-345 | is user key + 16 bytes long and, when the sequence is at most kMaxSequenceNumber, parses back to (user key, sequence, kValueTypeForSeek, valid time) |
| `LookupKeys.MVLookupKey.UserKey` | db/dbformat.h:347-349 | is the user key looked up: the internal key without its last 16 bytes |
| `LookupKeys.MVLookupKey.ValidTime` | db/dbformat.h:351-352 | the last 8 bytes decode to the valid time the key was built with |
| `LookupKeys.LookupKeyExample` | db/dbformat.h:314-320 | user key "xyz" at sequence 3: internal key "xyz" followed by 0x0301 little-endian, length prefix the single byte 11, memtable key reads back the internal key, user key "xyz" |

## Left out

- The `config::` constants (db/dbformat.h:26-50): level-count and compaction thresholds with no behaviour in this file.
- `InternalFilterPolicy` (db/dbformat.h:174-183): it delegates to a user filter policy whose bodies are not part of this model.
- `FindShortestSeparator` and `FindShortSuccessor` (db/dbformat.h:147-149): their bodies (db/dbformat.cc) are not part of this model, and they depend on the user comparator's own separator functions.
- The `multi_version` flag of `InternalKeyComparator` (db/dbformat.h:140, 144): nothing visible reads it. `Compare` is modelled on the 8-byte suffix only and is not applied to MV keys.
- The commented-out `MVInternalKeyComparator` (db/dbformat.h:155-171, 262-265): it is dead code.
- `Name` and `DebugString`: names and string formatting only.
- LookupKey storage: the 200-byte inline `space_`, the `new[]` fallback, the destructors and the deleted copy operations. The model has one freshly allocated array holding the logical bytes.
- `InternalKeyOrder.Compare`: its body (db/dbformat.cc) is not part of this model. It is modelled from the class comment at db/dbformat.h:134-135 and the seek-type comment at db/dbformat.h:59-64.
- `DbFormat.PackSequenceAndType`: its body (db/dbformat.cc) is not part of this model. It is modelled as the uint64 expression `(seq << 8) | t`, with the shift's wrap-around made explicit. The debug-build asserts `seq <= kMaxSequenceNumber` and `t <= kValueTypeForSeek` are not preconditions. The round-trip lemmas require them instead, and `OversizedSequenceDoesNotRoundTrip` shows what is lost without the first.
- `LookupKeys.LookupKey.constructor` and `LookupKeys.MVLookupKey.constructor`: their bodies (db/dbformat.cc) are not part of this model. They follow the layout comment at db/dbformat.h:314-320. The MV prefix is assumed to be the length of user key + 16. The constructors require the internal-key length to be below 2^32, because varint32 takes a uint32.
- `InternalKeys.InternalKey.DecodeFromMV`: requires at least 8 input bytes. With fewer, `s.size() - 8` underflows in the source and the behaviour is undefined.
- `Coding.DecodeVarint` reads any number of 7-bit groups. GetVarint32's five-byte cap is not modelled, and varint32 decoding is not part of this model beyond reading back a memtable key's prefix.
- `ParsedInternalKey` and `ParsedMVInternalKey` are values. The source's non-owning slice views and its uninitialised default constructor (db/dbformat.h:83, 95) are not modelled.
