/**
 * The internal key ordering: by user key under an injected user comparator,
 * ties broken by decreasing tag, so that for one user key the newest entry
 * (highest sequence number) comes first.
 */
module InternalKeyOrder {
  import opened Coding
  import opened DbFormat
  import InternalKeys

  /** A user comparator: negative, zero or positive as a < b, a == b, a > b. */
  type UserComparator = (seq<Byte>, seq<Byte>) -> int

  /** The three-way contract every user comparator is expected to keep. */
  ghost predicate IsThreeWayOrder(ucmp: UserComparator) {
    && (forall x, y :: ucmp(x, y) == 0 <==> x == y)
    && (forall x, y :: ucmp(x, y) < 0 <==> ucmp(y, x) > 0)
    && (forall x, y, z :: ucmp(x, y) < 0 && ucmp(y, z) < 0 ==> ucmp(x, z) < 0)
  }

  /** InternalKeyComparator::Compare over two encoded internal keys. */
  function Compare(ucmp: UserComparator, a: seq<Byte>, b: seq<Byte>): (r: int)
    requires |a| >= 8 && |b| >= 8
    ensures ucmp(ExtractUserKey(a), ExtractUserKey(b)) != 0 ==>
      r == ucmp(ExtractUserKey(a), ExtractUserKey(b))
    ensures ucmp(ExtractUserKey(a), ExtractUserKey(b)) == 0 ==>
      && (r < 0 <==> InternalKeyTag(a) > InternalKeyTag(b))
      && (r > 0 <==> InternalKeyTag(a) < InternalKeyTag(b))
  {
    var r := ucmp(ExtractUserKey(a), ExtractUserKey(b));
    if r != 0 then r
    else
      var anum := InternalKeyTag(a);
      var bnum := InternalKeyTag(b);
      if anum > bnum then -1
      else if anum < bnum then 1
      else 0
  }

  /** A key splits into its user key and its eight tag bytes. */
  lemma SplitInternalKey(a: seq<Byte>)
    requires |a| >= 8
    ensures a == ExtractUserKey(a) + EncodeFixed64(InternalKeyTag(a))
  {
    Fixed64EncodeDecode(a[|a| - 8..]);
    assert a == a[..|a| - 8] + a[|a| - 8..];
  }

  /** Compare(a, b) == 0 exactly for equal byte strings, under a three-way user order. */
  lemma CompareZeroIffEqual(ucmp: UserComparator, a: seq<Byte>, b: seq<Byte>)
    requires |a| >= 8 && |b| >= 8
    ensures IsThreeWayOrder(ucmp) ==> (Compare(ucmp, a, b) == 0 <==> a == b)
  {
    if IsThreeWayOrder(ucmp) && Compare(ucmp, a, b) == 0 {
      assert ExtractUserKey(a) == ExtractUserKey(b);
      SplitInternalKey(a);
      SplitInternalKey(b);
    }
  }

  /** Swapping the operands flips the sign. */
  lemma CompareAntisymmetric(ucmp: UserComparator, a: seq<Byte>, b: seq<Byte>)
    requires IsThreeWayOrder(ucmp)
    requires |a| >= 8 && |b| >= 8
    ensures Compare(ucmp, a, b) < 0 <==> Compare(ucmp, b, a) > 0
  {
    var ua, ub := ExtractUserKey(a), ExtractUserKey(b);
    assert ucmp(ua, ub) == 0 <==> ucmp(ub, ua) == 0;
  }

  /** "Sorts before" is transitive. */
  lemma CompareTransitive(ucmp: UserComparator, a: seq<Byte>, b: seq<Byte>, c: seq<Byte>)
    requires IsThreeWayOrder(ucmp)
    requires |a| >= 8 && |b| >= 8 && |c| >= 8
    requires Compare(ucmp, a, b) < 0 && Compare(ucmp, b, c) < 0
    ensures Compare(ucmp, a, c) < 0
  {
    var ua, ub, uc := ExtractUserKey(a), ExtractUserKey(b), ExtractUserKey(c);
    if ucmp(ua, ub) == 0 {
      assert ua == ub;
    } else if ucmp(ub, uc) == 0 {
      assert ub == uc;
    } else {
      assert ucmp(ua, ub) < 0 && ucmp(ub, uc) < 0;
      assert ucmp(ua, uc) < 0;
    }
  }

  /** InternalKeyComparator::Compare over two owning keys: the order of their encodings. */
  function CompareKeys(ucmp: UserComparator, a: InternalKeys.InternalKey, b: InternalKeys.InternalKey): (r: int)
    reads a, b
    requires |a.rep| >= 8 && |b.rep| >= 8
    ensures ucmp(a.UserKey(), b.UserKey()) != 0 ==> r == ucmp(a.UserKey(), b.UserKey())
    ensures IsThreeWayOrder(ucmp) ==> (r == 0 <==> a.Encode() == b.Encode())
  {
    CompareZeroIffEqual(ucmp, a.Encode(), b.Encode());
    Compare(ucmp, a.Encode(), b.Encode())
  }

  /** Different user keys: the user comparator decides, whatever the sequence numbers and types. */
  lemma UserKeyDecides(ucmp: UserComparator, k1: ParsedInternalKey, k2: ParsedInternalKey)
    requires ucmp(k1.userKey, k2.userKey) != 0
    ensures Compare(ucmp, AppendInternalKey([], k1), AppendInternalKey([], k2))
         == ucmp(k1.userKey, k2.userKey)
  {
    ExtractUserKeyOfEncoding(k1);
    ExtractUserKeyOfEncoding(k2);
  }

  /**
   * Equal user keys: the higher sequence number sorts first, whatever the two
   * value types.
   */
  lemma NewerSequenceSortsFirst(ucmp: UserComparator, u: seq<Byte>,
                                s1: SequenceNumber, t1: ValueType,
                                s2: SequenceNumber, t2: ValueType)
    requires IsThreeWayOrder(ucmp)
    requires s2 < s1 <= kMaxSequenceNumber
    ensures Compare(ucmp, AppendInternalKey([], ParsedInternalKey(u, s1, t1)),
                          AppendInternalKey([], ParsedInternalKey(u, s2, t2))) < 0
  {
    var k1, k2 := ParsedInternalKey(u, s1, t1), ParsedInternalKey(u, s2, t2);
    ExtractUserKeyOfEncoding(k1);
    ExtractUserKeyOfEncoding(k2);
    InternalKeyTagOfEncoding(k1);
    InternalKeyTagOfEncoding(k2);
    assert ucmp(u, u) == 0;
  }

  /**
   * Equal user keys and sequence numbers: the higher type sorts first, so the
   * seek type kTypeValue comes before kTypeDeletion.
   */
  lemma SeekTypeSortsBeforeDeletion(ucmp: UserComparator, u: seq<Byte>, s: SequenceNumber)
    requires IsThreeWayOrder(ucmp)
    ensures Compare(ucmp, AppendInternalKey([], ParsedInternalKey(u, s, kValueTypeForSeek)),
                          AppendInternalKey([], ParsedInternalKey(u, s, kTypeDeletion))) < 0
  {
    var k1, k2 := ParsedInternalKey(u, s, kValueTypeForSeek), ParsedInternalKey(u, s, kTypeDeletion);
    ExtractUserKeyOfEncoding(k1);
    ExtractUserKeyOfEncoding(k2);
    InternalKeyTagOfEncoding(k1);
    InternalKeyTagOfEncoding(k2);
    assert ucmp(u, u) == 0;
  }

  /**
   * Why kValueTypeForSeek is the highest type: the seek key for (u, snapshot)
   * sorts no later than every entry of u visible at that snapshot (sequence
   * <= snapshot, any valid type), and after every newer entry of u.
   */
  lemma SeekKeyPosition(ucmp: UserComparator, u: seq<Byte>, snapshot: SequenceNumber,
                        entry: ParsedInternalKey)
    requires IsThreeWayOrder(ucmp)
    requires snapshot <= kMaxSequenceNumber && entry.sequence <= kMaxSequenceNumber
    requires entry.userKey == u && IsValueType(entry.valueType)
    ensures var cmp := Compare(ucmp, AppendInternalKey([], ParsedInternalKey(u, snapshot, kValueTypeForSeek)),
                                     AppendInternalKey([], entry));
      (entry.sequence <= snapshot ==> cmp <= 0) && (entry.sequence > snapshot ==> cmp > 0)
  {
    var seek := ParsedInternalKey(u, snapshot, kValueTypeForSeek);
    ExtractUserKeyOfEncoding(seek);
    ExtractUserKeyOfEncoding(entry);
    InternalKeyTagOfEncoding(seek);
    InternalKeyTagOfEncoding(entry);
    assert ucmp(u, u) == 0;
  }
}
