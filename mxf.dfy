/**
 * The MXF structural primitives that MXF.h defines inline (SMPTE ST 377-1,
 * the MXF file format): the Random Index Pack partition pair, the Primer's
 * local tag entry, the optional property wrapper, the index table entry
 * records and the case-insensitive label order.
 */
module MXF {
  import opened Common
  import BigEndian
  import opened MemIO

  /** Length of a key plus a 4-byte BER length: the size of a KLV header. */
  const KL_LENGTH: nat := SMPTE_UL_LENGTH + MXF_BER_LENGTH
  /** The largest byte size an index table segment may have. */
  const MAX_INDEX_SEGMENT_SIZE: nat := 65536

  const UINT8_SIZE: nat := 1
  const INT8_SIZE: nat := 1
  const UINT32_SIZE: nat := 4
  const UINT64_SIZE: nat := 8

  lemma ConstantsFixed()
    ensures KL_LENGTH == 20
    ensures MAX_INDEX_SEGMENT_SIZE == 0x1_0000
  {
  }

  // ---------------------------------------------------------------------------
  // Random Index Pack: PartitionPair (section 12 of SMPTE ST 377-1:2011)

  /** The 12 bytes of one pair: BodySID as a big-endian u32, then ByteOffset as a big-endian u64. */
  function PairBytes(sid: uint32, offset: uint64): (b: Bytes)
    ensures |b| == UINT32_SIZE + UINT64_SIZE
    ensures BigEndian.Decode(b[..4]) == sid && BigEndian.Decode(b[4..]) == offset
  {
    var b := BigEndian.U32Bytes(sid) + BigEndian.U64Bytes(offset);
    assert b[..4] == BigEndian.U32Bytes(sid) && b[4..] == BigEndian.U64Bytes(offset);
    b
  }

  /** The pair read from the front of b, or None when fewer than 12 bytes remain. */
  function ParsePair(b: Bytes): (r: Option<(uint32, uint64)>)
    ensures r.Some? <==> |b| >= 12
  {
    if |b| < 12 then None
    else Some((BigEndian.U32Of(b[..4]), BigEndian.U64Of(b[4..12])))
  }

  lemma PairRoundTrip(sid: uint32, offset: uint64, rest: Bytes)
    ensures ParsePair(PairBytes(sid, offset) + rest) == Some((sid, offset))
  {
    var b := PairBytes(sid, offset) + rest;
    assert b[..4] == BigEndian.U32Bytes(sid);
    assert b[4..12] == BigEndian.U64Bytes(offset);
    BigEndian.DecodeEncode(sid, 4);
    BigEndian.DecodeEncode(offset, 8);
  }

  lemma ParsePairExact(b: Bytes, sid: uint32, offset: uint64)
    requires ParsePair(b) == Some((sid, offset))
    ensures b[..12] == PairBytes(sid, offset)
  {
    assert b[..12] == b[..4] + b[4..12];
  }

  class PartitionPair {
    var BodySID: uint32
    var ByteOffset: uint64

    constructor ()
      ensures BodySID == 0 && ByteOffset == 0
    {
      BodySID, ByteOffset := 0, 0;
    }

    constructor Of(sid: uint32, offset: uint64)
      ensures BodySID == sid && ByteOffset == offset
    {
      BodySID, ByteOffset := sid, offset;
    }

    function ArchiveLength(): (n: nat)
      ensures n == 12
    {
      UINT32_SIZE + UINT64_SIZE
    }

    /** Writes BodySID then ByteOffset; stops at the first write that does not fit. */
    method Archive(writer: MemIOWriter) returns (ok: bool)
      requires writer.Valid()
      modifies writer
      ensures writer.Valid()
      ensures ok == (ArchiveLength() <= old(writer.Remaining()))
      ensures ok ==> writer.data == old(writer.data) + PairBytes(BodySID, ByteOffset)
      ensures !ok ==> writer.data == old(writer.data) + (if old(writer.Remaining()) >= 4 then BigEndian.U32Bytes(BodySID) else [])
    {
      ok := writer.WriteUi32BE(BodySID);
      if !ok {
        return;
      }
      ok := writer.WriteUi64BE(ByteOffset);
      if !ok {
        return;
      }
      assert writer.data == old(writer.data) + BigEndian.U32Bytes(BodySID) + BigEndian.U64Bytes(ByteOffset);
    }

    /**
     * Reads BodySID then ByteOffset. It reports success only when both reads
     * succeed; a BodySID read before a failing ByteOffset read stays stored.
     */
    method Unarchive(reader: MemIOReader) returns (ok: bool)
      requires reader.Valid()
      modifies this, reader
      ensures reader.Valid()
      ensures ok == (12 <= old(reader.Remaining()))
      ensures ok ==> reader.pos == old(reader.pos) + 12
      ensures ok ==> ParsePair(reader.buf[old(reader.pos)..]) == Some((BodySID, ByteOffset))
      ensures !ok && old(reader.Remaining()) < 4 ==>
        reader.pos == old(reader.pos) && BodySID == old(BodySID) && ByteOffset == old(ByteOffset)
      ensures !ok && old(reader.Remaining()) >= 4 ==>
        reader.pos == old(reader.pos) + 4 && ByteOffset == old(ByteOffset) &&
        BigEndian.U32Bytes(BodySID) == reader.buf[old(reader.pos)..old(reader.pos) + 4]
    {
      var sid, offset;
      ok, sid := reader.ReadUi32BE();
      if !ok {
        return;
      }
      BodySID := sid;
      ok, offset := reader.ReadUi64BE();
      if !ok {
        return;
      }
      ByteOffset := offset;
      ghost var p := old(reader.pos);
      ghost var rest := reader.buf[p..];
      assert rest[..4] == reader.buf[p..p + 4] && rest[4..12] == reader.buf[p + 4..p + 12];
    }
  }

  /** Archiving a pair into a 12-byte buffer and unarchiving it gives the pair back. */
  method PairArchiveRoundTrip(sid: uint32, offset: uint64) returns (sid': uint32, offset': uint64)
    ensures sid' == sid && offset' == offset
  {
    var pair := new PartitionPair.Of(sid, offset);
    var writer := new MemIOWriter(12);
    var ok := pair.Archive(writer);
    assert ok;
    var reader := new MemIOReader(writer.data);
    var back := new PartitionPair();
    ok := back.Unarchive(reader);
    assert ok;
    PairRoundTrip(sid, offset, []);
    assert reader.buf[0..] == PairBytes(sid, offset) + [];
    sid', offset' := back.BodySID, back.ByteOffset;
  }

  // ---------------------------------------------------------------------------
  // Primer: LocalTagEntry (section 9.2 of SMPTE ST 377-1)

  /** A two-byte local tag. */
  datatype TagValue = TagValue(a: uint8, b: uint8)

  /** LocalTagEntry::operator<, which compares only the tags: first a, then b. */
  predicate TagLess(x: TagValue, y: TagValue) {
    if x.a < y.a then true
    else if x.a == y.a && x.b < y.b then true
    else false
  }

  /** The tag read as a 16-bit number, a first. */
  function TagKey(t: TagValue): (k: nat)
    ensures k < 0x1_0000
  {
    t.a * 256 + t.b
  }

  lemma TagLessIsKeyOrder(x: TagValue, y: TagValue)
    ensures TagLess(x, y) <==> TagKey(x) < TagKey(y)
  {
    if x.a < y.a {
      assert TagKey(x) < (x.a + 1) * 256 <= TagKey(y);
    } else if x.a > y.a {
      assert TagKey(y) < (y.a + 1) * 256 <= TagKey(x);
    }
  }

  lemma TagLessIrreflexive(x: TagValue)
    ensures !TagLess(x, x)
  {
  }

  lemma TagLessTransitive(x: TagValue, y: TagValue, z: TagValue)
    requires TagLess(x, y) && TagLess(y, z)
    ensures TagLess(x, z)
  {
  }

  /** Two different tags are always ordered one way or the other. */
  lemma TagLessTotal(x: TagValue, y: TagValue)
    requires x != y
    ensures TagLess(x, y) || TagLess(y, x)
  {
  }

  /** Each tag is less than the next one. */
  ghost predicate SortedByTag(tags: seq<TagValue>) {
    forall i :: 0 <= i < |tags| - 1 ==> TagLess(tags[i], tags[i + 1])
  }

  /** A list sorted by tag is ordered between any two positions, so its tags are distinct. */
  lemma {:induction false} SortedByTagIsStrict(tags: seq<TagValue>, i: nat, j: nat)
    requires SortedByTag(tags)
    requires i < j < |tags|
    ensures TagLess(tags[i], tags[j]) && tags[i] != tags[j]
    decreases j - i
  {
    if i + 1 < j {
      SortedByTagIsStrict(tags, i + 1, j);
      TagLessTransitive(tags[i], tags[i + 1], tags[j]);
    }
  }

  /** The bytes of one Primer entry: tag byte a, tag byte b, then the 16-byte UL. */
  function EntryBytes(tag: TagValue, ul: UL): (b: Bytes)
    ensures |b| == 2 + SMPTE_UL_LENGTH
    ensures b[0] == tag.a && b[1] == tag.b && b[2..] == ul
  {
    [tag.a, tag.b] + ul
  }

  /** The entry read from the front of b, or None when fewer than 18 bytes remain. */
  function ParseEntry(b: Bytes): (r: Option<(TagValue, UL)>)
    ensures r.Some? <==> |b| >= 18
  {
    if |b| < 18 then None
    else var ul: UL := b[2..18]; Some((TagValue(b[0], b[1]), ul))
  }

  lemma EntryRoundTrip(tag: TagValue, ul: UL, rest: Bytes)
    ensures ParseEntry(EntryBytes(tag, ul) + rest) == Some((tag, ul))
  {
    var b := EntryBytes(tag, ul) + rest;
    assert b[2..18] == ul;
  }

  class LocalTagEntry {
    var Tag: TagValue
    var UL: UL

    constructor ()
      ensures Tag == TagValue(0, 0) && UL == ZeroUL()
    {
      Tag := TagValue(0, 0);
      UL := ZeroUL();
    }

    constructor Of(tag: TagValue, ul: Common.UL)
      ensures Tag == tag && UL == ul
    {
      Tag, UL := tag, ul;
    }

    /** operator<: the order of the two tags read as 16-bit keys; the ULs are not compared. */
    predicate Less(rhs: LocalTagEntry): (r: bool)
      reads this, rhs
      ensures r <==> TagKey(Tag) < TagKey(rhs.Tag)
    {
      TagLessIsKeyOrder(Tag, rhs.Tag);
      TagLess(Tag, rhs.Tag)
    }

    function ArchiveLength(): (n: nat)
      ensures n == 18
    {
      2 + SMPTE_UL_LENGTH
    }

    method Archive(writer: MemIOWriter) returns (ok: bool)
      requires writer.Valid()
      modifies writer
      ensures writer.Valid()
      ensures ok == (ArchiveLength() <= old(writer.Remaining()))
      ensures ok ==> writer.data == old(writer.data) + EntryBytes(Tag, UL)
      ensures !ok ==>
        writer.data == old(writer.data) +
          (if old(writer.Remaining()) >= 2 then [Tag.a, Tag.b] else if old(writer.Remaining()) == 1 then [Tag.a] else [])
    {
      ok := writer.WriteUi8(Tag.a);
      if !ok {
        return;
      }
      ok := writer.WriteUi8(Tag.b);
      if !ok {
        return;
      }
      ok := writer.WriteRaw(UL);
      if ok {
        assert writer.data == old(writer.data) + [Tag.a] + [Tag.b] + UL;
      }
    }

    /** Reads tag byte a, tag byte b, then the UL; each is stored as soon as it is read. */
    method Unarchive(reader: MemIOReader) returns (ok: bool)
      requires reader.Valid()
      modifies this, reader
      ensures reader.Valid()
      ensures ok == (18 <= old(reader.Remaining()))
      ensures ok ==> reader.pos == old(reader.pos) + 18
      ensures ok ==> ParseEntry(reader.buf[old(reader.pos)..]) == Some((Tag, UL))
      ensures !ok ==> UL == old(UL)
      ensures !ok && old(reader.Remaining()) == 0 ==> reader.pos == old(reader.pos) && Tag == old(Tag)
      ensures !ok && old(reader.Remaining()) == 1 ==>
        reader.pos == old(reader.pos) + 1 && Tag == old(Tag).(a := reader.buf[old(reader.pos)])
      ensures !ok && old(reader.Remaining()) >= 2 ==>
        reader.pos == old(reader.pos) + 2 && Tag == TagValue(reader.buf[old(reader.pos)], reader.buf[old(reader.pos) + 1])
    {
      var a, b, ul;
      ok, a := reader.ReadUi8();
      if !ok {
        return;
      }
      Tag := Tag.(a := a);
      ok, b := reader.ReadUi8();
      if !ok {
        return;
      }
      Tag := Tag.(b := b);
      ok, ul := reader.ReadRaw(SMPTE_UL_LENGTH);
      if !ok {
        return;
      }
      UL := ul;
      ghost var p := old(reader.pos);
      assert reader.buf[p..][2..18] == reader.buf[p + 2..p + 18];
    }
  }

  // ---------------------------------------------------------------------------
  // optional_property

  /** A property value together with a flag telling whether it is present. */
  class OptionalProperty<T(==,0)> {
    var property: T
    var hasValue: bool

    /** A default-constructed property is empty. */
    constructor ()
      ensures !hasValue
    {
      hasValue := false;
    }

    constructor Of(value: T)
      ensures property == value && hasValue
    {
      property, hasValue := value, true;
    }

    /** operator=: stores the value and marks it present. */
    method Assign(rhs: T)
      modifies this
      ensures property == rhs && hasValue
    {
      property, hasValue := rhs, true;
    }

    method Set(rhs: T)
      modifies this
      ensures property == rhs && hasValue
    {
      property, hasValue := rhs, true;
    }

    /** Changes the flag only; without an argument it marks the value present. */
    method SetHasValue(flag: bool := true)
      modifies this
      ensures hasValue == flag && property == old(property)
    {
      hasValue := flag;
    }

    /** Marks the property empty; its argument is ignored and the stored value is kept. */
    method Reset(rhs: T)
      modifies this
      ensures !hasValue && property == old(property)
    {
      hasValue := false;
    }

    predicate Empty()
      reads this
    {
      !hasValue
    }

    function Get(): T
      reads this
    {
      property
    }

    /** operator== against a plain value compares only the stored value. */
    predicate EqualsValue(rhs: T)
      reads this
    {
      property == rhs
    }

    /** operator== against another property also ignores both presence flags. */
    predicate Equals(rhs: OptionalProperty<T>)
      reads this, rhs
    {
      property == rhs.property
    }
  }

  /** An empty property and a present one holding the same value compare equal. */
  method EqualityIgnoresPresence<T(==,0)>(value: T) returns (equal: bool, firstEmpty: bool, secondEmpty: bool)
    ensures equal && firstEmpty && !secondEmpty
  {
    var p := new OptionalProperty<T>.Of(value);
    var q := new OptionalProperty<T>.Of(value);
    p.Reset(value);
    equal := p.Equals(q);
    firstEmpty := p.Empty();
    secondEmpty := q.Empty();
  }

  // ---------------------------------------------------------------------------
  // Index table entries

  datatype DeltaEntry = DeltaEntry(PosTableIndex: int8, Slice: uint8, ElementData: uint32)
  {
    /** sizeof(ui32_t) + 2: the three fields' widths. */
    function ArchiveLength(): (n: nat)
      ensures n == INT8_SIZE + UINT8_SIZE + UINT32_SIZE && n == 6
    {
      UINT32_SIZE + 2
    }
  }

  datatype IndexEntry = IndexEntry(TemporalOffset: int8, KeyFrameOffset: int8, Flags: uint8, StreamOffset: uint64)
  {
    /** sizeof(ui64_t) + 3: the four fields' widths. */
    function ArchiveLength(): (n: nat)
      ensures n == INT8_SIZE + INT8_SIZE + UINT8_SIZE + UINT64_SIZE && n == 11
    {
      UINT64_SIZE + 3
    }
  }

  /** The default-constructed DeltaEntry. */
  function DefaultDeltaEntry(): (d: DeltaEntry)
    ensures d.PosTableIndex == 0 && d.Slice == 0 && d.ElementData == 0
  {
    DeltaEntry(0, 0, 0)
  }

  /** The default-constructed IndexEntry. */
  function DefaultIndexEntry(): (e: IndexEntry)
    ensures e.TemporalOffset == 0 && e.KeyFrameOffset == 0 && e.Flags == 0 && e.StreamOffset == 0
  {
    IndexEntry(0, 0, 0, 0)
  }

  // ---------------------------------------------------------------------------
  // to_lower and ci_comp

  predicate IsUpper(c: char) {
    'A' <= c <= 'Z'
  }

  /** ::tolower in the C locale: only A-Z change. */
  function ToLowerChar(c: char): (r: char)
    ensures !IsUpper(r)
    ensures IsUpper(c) ==> r as int == c as int + 32
    ensures !IsUpper(c) ==> r == c
  {
    if IsUpper(c) then (c as int + 32) as char else c
  }

  /** to_lower: a copy of s with every upper-case letter replaced by its lower-case one. */
  function ToLower(s: string): (r: string)
    ensures |r| == |s|
    ensures forall i :: 0 <= i < |s| ==> r[i] == ToLowerChar(s[i])
  {
    seq(|s|, i requires 0 <= i < |s| => ToLowerChar(s[i]))
  }

  lemma ToLowerIdempotent(s: string)
    ensures ToLower(ToLower(s)) == ToLower(s)
  {
    var t := ToLower(s);
    assert forall i :: 0 <= i < |t| ==> ToLowerChar(t[i]) == t[i];
  }

  /** std::string operator<: lexicographic order on characters, a proper prefix first. */
  predicate LexLess(a: string, b: string) {
    if |a| == 0 then |b| > 0
    else |b| > 0 && (a[0] < b[0] || (a[0] == b[0] && LexLess(a[1..], b[1..])))
  }

  lemma {:induction false} LexLessIrreflexive(a: string)
    ensures !LexLess(a, a)
  {
    if |a| > 0 {
      LexLessIrreflexive(a[1..]);
    }
  }

  lemma {:induction false} LexLessTransitive(a: string, b: string, c: string)
    requires LexLess(a, b) && LexLess(b, c)
    ensures LexLess(a, c)
  {
    if |a| > 0 && a[0] == b[0] && b[0] == c[0] {
      LexLessTransitive(a[1..], b[1..], c[1..]);
    }
  }

  lemma {:induction false} LexLessTotal(a: string, b: string)
    requires a != b
    ensures LexLess(a, b) || LexLess(b, a)
  {
    if |a| > 0 && |b| > 0 && a[0] == b[0] {
      assert a == [a[0]] + a[1..] && b == [b[0]] + b[1..];
      LexLessTotal(a[1..], b[1..]);
    }
  }

  /** ci_comp: the order of the two strings once both are lower-cased. */
  predicate CiComp(a: string, b: string) {
    LexLess(ToLower(a), ToLower(b))
  }

  lemma CiCompIrreflexive(a: string)
    ensures !CiComp(a, a)
  {
    LexLessIrreflexive(ToLower(a));
  }

  lemma CiCompTransitive(a: string, b: string, c: string)
    requires CiComp(a, b) && CiComp(b, c)
    ensures CiComp(a, c)
  {
    LexLessTransitive(ToLower(a), ToLower(b), ToLower(c));
  }

  /**
   * Two labels are equivalent under ci_comp (neither orders before the other)
   * exactly when they agree once lower-cased, so a map keyed with ci_comp
   * treats "Left", "LEFT" and "left" as one key.
   */
  lemma CiCompEquivalence(a: string, b: string)
    ensures (!CiComp(a, b) && !CiComp(b, a)) <==> ToLower(a) == ToLower(b)
  {
    if ToLower(a) == ToLower(b) {
      LexLessIrreflexive(ToLower(a));
    } else {
      LexLessTotal(ToLower(a), ToLower(b));
    }
  }
}
