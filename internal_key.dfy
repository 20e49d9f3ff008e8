/**
 * The owning key types. Each owns one byte buffer `rep`; the empty buffer is
 * the "unset" state. The buffer changes only by whole replacement or by clearing.
 */
module InternalKeys {
  import opened Wrappers
  import opened Coding
  import opened DbFormat

  class InternalKey {
    var rep: seq<Byte>

    /** An unset key. */
    constructor ()
      ensures rep == []
    {
      rep := [];
    }

    /** The encoding of (userKey, s, t). */
    constructor FromParts(userKey: seq<Byte>, s: SequenceNumber, t: ValueType)
      ensures rep == AppendInternalKey([], ParsedInternalKey(userKey, s, t))
      ensures s <= kMaxSequenceNumber && IsValueType(t) ==>
        DecodeInternalKey(rep) == Some(ParsedInternalKey(userKey, s, t))
    {
      rep := AppendInternalKey([], ParsedInternalKey(userKey, s, t));
      if s <= kMaxSequenceNumber && IsValueType(t) {
        DecodeAppendInternalKey(ParsedInternalKey(userKey, s, t));
      }
    }

    /** Copies `s` as the new buffer; reports whether it is set. No well-formedness check. */
    method DecodeFrom(s: seq<Byte>) returns (ok: bool)
      modifies this
      ensures rep == s
      ensures ok <==> |s| > 0
    {
      rep := s;
      ok := rep != [];
    }

    /**
     * Copies all but the trailing eight bytes of a multi-version key, that is,
     * drops its valid time.
     */
    method DecodeFromMV(s: seq<Byte>) returns (ok: bool)
      requires |s| >= 8
      modifies this
      ensures rep == s[..|s| - 8]
      ensures ok <==> |s| > 8
      ensures |s| >= 16 ==> ExtractUserKey(rep) == MVExtractUserKey(s)
      ensures DecodeMVInternalKey(s).Some? ==>
        var mv := DecodeMVInternalKey(s).value;
        DecodeInternalKey(rep) == Some(ParsedInternalKey(mv.userKey, mv.sequence, mv.valueType))
    {
      rep := s[..|s| - 8];
      ok := rep != [];
      if DecodeMVInternalKey(s).Some? {
        var mv := DecodeMVInternalKey(s).value;
        AppendDecodeMVInternalKey(s);
        MVEncodingWithoutValidTime(mv);
        DecodeAppendInternalKey(ParsedInternalKey(mv.userKey, mv.sequence, mv.valueType));
      }
    }

    /** The owned buffer; only a set key may be encoded. */
    function Encode(): (r: seq<Byte>)
      reads this
      requires rep != []
      ensures r == rep && |r| > 0
    {
      rep
    }

    /** The user key part of the buffer. */
    function UserKey(): (u: seq<Byte>)
      reads this
      requires |rep| >= 8
      ensures u == ExtractUserKey(rep)
      ensures DecodeInternalKey(rep).Some? ==> u == DecodeInternalKey(rep).value.userKey
    {
      ExtractUserKey(rep)
    }

    /** Discards the old buffer and leaves exactly the encoding of `p`. */
    method SetFrom(p: ParsedInternalKey)
      modifies this
      ensures rep == AppendInternalKey([], p)
      ensures p.sequence <= kMaxSequenceNumber && IsValueType(p.valueType) ==>
        DecodeInternalKey(rep) == Some(p)
    {
      rep := [];
      rep := AppendInternalKey(rep, p);
      if p.sequence <= kMaxSequenceNumber && IsValueType(p.valueType) {
        DecodeAppendInternalKey(p);
      }
    }

    /** Back to the unset state. */
    method Clear()
      modifies this
      ensures rep == []
    {
      rep := [];
    }
  }

  class MVInternalKey {
    var rep: seq<Byte>

    /** An unset key. */
    constructor ()
      ensures rep == []
    {
      rep := [];
    }

    /** The encoding of (userKey, s, t, vt). */
    constructor FromParts(userKey: seq<Byte>, s: SequenceNumber, t: ValueType, vt: ValidTime)
      ensures rep == AppendMVInternalKey([], ParsedMVInternalKey(userKey, s, t, vt))
      ensures s <= kMaxSequenceNumber && IsValueType(t) ==>
        DecodeMVInternalKey(rep) == Some(ParsedMVInternalKey(userKey, s, t, vt))
    {
      rep := AppendMVInternalKey([], ParsedMVInternalKey(userKey, s, t, vt));
      if s <= kMaxSequenceNumber && IsValueType(t) {
        DecodeAppendMVInternalKey(ParsedMVInternalKey(userKey, s, t, vt));
      }
    }

    /** Copies `s` as the new buffer; reports whether it is set. No well-formedness check. */
    method DecodeFrom(s: seq<Byte>) returns (ok: bool)
      modifies this
      ensures rep == s
      ensures ok <==> |s| > 0
    {
      rep := s;
      ok := rep != [];
    }

    /** The owned buffer; only a set key may be encoded. */
    function Encode(): (r: seq<Byte>)
      reads this
      requires rep != []
      ensures r == rep && |r| > 0
    {
      rep
    }

    /** The user key part of the buffer. */
    function UserKey(): (u: seq<Byte>)
      reads this
      requires |rep| >= 16
      ensures u == MVExtractUserKey(rep)
      ensures DecodeMVInternalKey(rep).Some? ==> u == DecodeMVInternalKey(rep).value.userKey
    {
      MVExtractUserKey(rep)
    }

    /** Discards the old buffer and leaves exactly the encoding of `p`. */
    method SetFrom(p: ParsedMVInternalKey)
      modifies this
      ensures rep == AppendMVInternalKey([], p)
      ensures p.sequence <= kMaxSequenceNumber && IsValueType(p.valueType) ==>
        DecodeMVInternalKey(rep) == Some(p)
    {
      rep := [];
      rep := AppendMVInternalKey(rep, p);
      if p.sequence <= kMaxSequenceNumber && IsValueType(p.valueType) {
        DecodeAppendMVInternalKey(p);
      }
    }

    /** Back to the unset state. */
    method Clear()
      modifies this
      ensures rep == []
    {
      rep := [];
    }
  }
}
