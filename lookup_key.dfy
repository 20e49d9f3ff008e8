/**
 * Lookup keys: one buffer laid out as
 *
 *   varint32(klength) ‖ user key ‖ tag (‖ valid time)
 *   ^ start             ^ kstart                      ^ end
 *
 * with three views sliced from it by the three offsets. The buffer is filled
 * once, by the constructor, and only read afterwards.
 */
module LookupKeys {
  import opened Wrappers
  import opened Coding
  import opened DbFormat

  class LookupKey {
    var buf: array<Byte>
    var start: nat
    var kstart: nat
    var end: nat

    /** What the key was built for. */
    ghost var userKey: seq<Byte>
    ghost var sequence: SequenceNumber

    ghost predicate Valid()
      reads this, buf
    {
      && start <= kstart <= end <= buf.Length
      && end - kstart < TWO_TO_32
      && buf[start..kstart] == EncodeVarint32(end - kstart)
      && buf[kstart..end] == AppendInternalKey([], ParsedInternalKey(userKey, sequence, kValueTypeForSeek))
    }

    /** A lookup of `user` at snapshot `s`: the internal key carries the seek type. */
    constructor (user: seq<Byte>, s: SequenceNumber)
      requires |user| + 8 < TWO_TO_32
      ensures Valid() && fresh(buf)
      ensures userKey == user && sequence == s
    {
      var ikey := AppendInternalKey([], ParsedInternalKey(user, s, kValueTypeForSeek));
      var prefix := EncodeVarint32(|ikey|);
      var contents := prefix + ikey;
      ConcatSlices(prefix, ikey);
      var a := NewBuffer(contents);
      buf := a;
      start := 0;
      kstart := |prefix|;
      end := |contents|;
      userKey := user;
      sequence := s;
      new;
      assert end - kstart == |ikey|;
    }

    /** memtable_key: the length-prefixed internal key; reading the prefix recovers it. */
    function MemtableKey(): (r: seq<Byte>)
      reads this, buf
      requires Valid()
      ensures r == EncodeVarint32(|InternalKey()|) + InternalKey()
      ensures GetLengthPrefixedSlice(r) == Some(InternalKey())
    {
      LengthPrefixedLayout(buf[..], start, kstart, end);
      buf[start..end]
    }

    /** internal_key: parses back to the lookup's user key, snapshot and the seek type. */
    function InternalKey(): (r: seq<Byte>)
      reads this, buf
      requires Valid()
      ensures |r| == |userKey| + 8
      ensures sequence <= kMaxSequenceNumber ==>
        DecodeInternalKey(r) == Some(ParsedInternalKey(userKey, sequence, kValueTypeForSeek))
    {
      var seek := ParsedInternalKey(userKey, sequence, kValueTypeForSeek);
      assert sequence <= kMaxSequenceNumber ==> DecodeInternalKey(AppendInternalKey([], seek)) == Some(seek) by {
        if sequence <= kMaxSequenceNumber {
          DecodeAppendInternalKey(seek);
        }
      }
      buf[kstart..end]
    }

    /** user_key: the internal key without its tag, which is the key looked up. */
    function UserKey(): (u: seq<Byte>)
      reads this, buf
      requires Valid()
      ensures u == userKey
      ensures u == ExtractUserKey(InternalKey())
    {
      buf[kstart..end - 8]
    }
  }

  class MVLookupKey {
    var buf: array<Byte>
    var start: nat
    var kstart: nat
    var end: nat

    /** What the key was built for. */
    ghost var userKey: seq<Byte>
    ghost var sequence: SequenceNumber
    ghost var validTime: ValidTime

    ghost predicate Valid()
      reads this, buf
    {
      && start <= kstart <= end <= buf.Length
      && end - kstart < TWO_TO_32
      && buf[start..kstart] == EncodeVarint32(end - kstart)
      && buf[kstart..end]
         == AppendMVInternalKey([], ParsedMVInternalKey(userKey, sequence, kValueTypeForSeek, validTime))
    }

    /** A lookup of `user` at snapshot `s` and valid time `t`. */
    constructor (user: seq<Byte>, s: SequenceNumber, t: ValidTime)
      requires |user| + 16 < TWO_TO_32
      ensures Valid() && fresh(buf)
      ensures userKey == user && sequence == s && validTime == t
    {
      var ikey := AppendMVInternalKey([], ParsedMVInternalKey(user, s, kValueTypeForSeek, t));
      var prefix := EncodeVarint32(|ikey|);
      var contents := prefix + ikey;
      ConcatSlices(prefix, ikey);
      var a := NewBuffer(contents);
      buf := a;
      start := 0;
      kstart := |prefix|;
      end := |contents|;
      userKey := user;
      sequence := s;
      validTime := t;
      new;
      assert end - kstart == |ikey|;
    }

    /** memtable_key: the length-prefixed multi-version key. */
    function MemtableKey(): (r: seq<Byte>)
      reads this, buf
      requires Valid()
      ensures r == EncodeVarint32(|InternalKey()|) + InternalKey()
      ensures GetLengthPrefixedSlice(r) == Some(InternalKey())
    {
      LengthPrefixedLayout(buf[..], start, kstart, end);
      buf[start..end]
    }

    /** internal_key: parses back to the lookup's user key, snapshot, seek type and valid time. */
    function InternalKey(): (r: seq<Byte>)
      reads this, buf
      requires Valid()
      ensures |r| == |userKey| + 16
      ensures sequence <= kMaxSequenceNumber ==>
        DecodeMVInternalKey(r) == Some(ParsedMVInternalKey(userKey, sequence, kValueTypeForSeek, validTime))
    {
      var seek := ParsedMVInternalKey(userKey, sequence, kValueTypeForSeek, validTime);
      assert sequence <= kMaxSequenceNumber ==> DecodeMVInternalKey(AppendMVInternalKey([], seek)) == Some(seek) by {
        if sequence <= kMaxSequenceNumber {
          DecodeAppendMVInternalKey(seek);
        }
      }
      buf[kstart..end]
    }

    /** user_key: the internal key without its 16 trailing bytes. */
    function UserKey(): (u: seq<Byte>)
      reads this, buf
      requires Valid()
      ensures u == userKey
      ensures u == MVExtractUserKey(InternalKey())
    {
      buf[kstart..end - 16]
    }

    /** valid_time: the last eight bytes of the buffer. */
    function ValidTime(): (t: ValidTime)
      reads this, buf
      requires Valid()
      ensures t == validTime
    {
      Fixed64DecodeEncode(validTime);
      DecodeFixed64(buf[end - 8..end])
    }
  }

  /** A fresh array holding exactly `s`. */
  method NewBuffer(s: seq<Byte>) returns (a: array<Byte>)
    ensures fresh(a) && a[..] == s
  {
    a := new Byte[|s|](i => if 0 <= i < |s| then s[i] else 0);
  }

  lemma ConcatSlices(prefix: seq<Byte>, body: seq<Byte>)
    ensures (prefix + body)[0..|prefix|] == prefix
    ensures (prefix + body)[|prefix|..|prefix| + |body|] == body
  {
  }

  /** A varint32 length at [lo, mid) followed by that many bytes is a length-prefixed slice. */
  lemma LengthPrefixedLayout(s: seq<Byte>, lo: nat, mid: nat, hi: nat)
    requires lo <= mid <= hi <= |s| && hi - mid < TWO_TO_32
    requires s[lo..mid] == EncodeVarint32(hi - mid)
    ensures s[lo..hi] == EncodeVarint32(|s[mid..hi]|) + s[mid..hi]
    ensures GetLengthPrefixedSlice(s[lo..hi]) == Some(s[mid..hi])
  {
    SplitSlice(s, lo, mid, hi);
    LengthPrefixedRoundTrip(s[mid..hi]);
  }

  /** A slice is its two halves around any cut inside it. */
  lemma SplitSlice(s: seq<Byte>, lo: nat, mid: nat, hi: nat)
    requires lo <= mid <= hi <= |s|
    ensures s[lo..hi] == s[lo..mid] + s[mid..hi]
  {
  }

  /**
   * User key "xyz" at sequence 3: the internal key is "xyz" then the tag
   * (3 << 8) | kValueTypeForSeek little-endian, its length prefix is the single
   * byte 11, and the three views read back from that layout.
   */
  lemma LookupKeyExample()
    ensures var ikey := AppendInternalKey([], ParsedInternalKey([120, 121, 122], 3, kValueTypeForSeek));
      && ikey == [120, 121, 122, 0x01, 0x03, 0, 0, 0, 0, 0, 0]
      && EncodeVarint32(|ikey|) == [11]
      && GetLengthPrefixedSlice([11] + ikey) == Some(ikey)
      && ExtractUserKey(ikey) == [120, 121, 122]
  {
    var ikey := AppendInternalKey([], ParsedInternalKey([120, 121, 122], 3, kValueTypeForSeek));
    assert ikey == [120, 121, 122, 0x01, 0x03, 0, 0, 0, 0, 0, 0] by {
      assert PackSequenceAndType(3, kValueTypeForSeek) == 769;
      EncodeFixed64TwoBytes(769);
    }
    LengthPrefixedRoundTrip(ikey);
  }
}
