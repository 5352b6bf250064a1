/** Which bytes make the starts table and the import table of chained fixups: the parsers accept exactly these. */
module ChainedContents {
  import opened Layout
  import opened Wrappers
  import opened CStrings
  import opened LittleEndian
  import opened ChainedPages
  import opened ChainedSegments
  import opened ChainedImports

  // ---- words ---------------------------------------------------------------------------------------------

  lemma {:induction false} WordOfValue(s: Bytes)
    ensures Word(Value(s), |s|) == s
  {
    if s != [] {
      WordOfValue(s[1..]);
      assert s == [s[0]] + s[1..];
      assert Value(s) % 256 == s[0] && Value(s) / 256 == Value(s[1..]);
    }
  }

  lemma ReadIsExact(bytes: Bytes, offset: nat)
    ensures forall v: U16 :: ReadU16(bytes, offset) == Success(v) <==> Sits(bytes, offset, Word(v, 2))
    ensures forall v: U32 :: ReadU32(bytes, offset) == Success(v) <==> Sits(bytes, offset, Word(v, 4))
    ensures forall v: U64 :: ReadU64(bytes, offset) == Success(v) <==> Sits(bytes, offset, Word(v, 8))
  {
    hide Word, Value;
    if offset + 2 <= |bytes| { WordOfValue(bytes[offset..offset + 2]); }
    if offset + 4 <= |bytes| { WordOfValue(bytes[offset..offset + 4]); }
    if offset + 8 <= |bytes| { WordOfValue(bytes[offset..offset + 8]); }
    forall v: U16 | Sits(bytes, offset, Word(v, 2))
      ensures ReadU16(bytes, offset) == Success(v)
    {
      ReadsU16(bytes, offset, v);
    }
    forall v: U32 | Sits(bytes, offset, Word(v, 4))
      ensures ReadU32(bytes, offset) == Success(v)
    {
      ReadsU32(bytes, offset, v);
    }
    forall v: U64 | Sits(bytes, offset, Word(v, 8))
      ensures ReadU64(bytes, offset) == Success(v)
    {
      ReadsU64(bytes, offset, v);
    }
  }

  // ---- segments ------------------------------------------------------------------------------------------

  /** The record of `segment` lies at `at`: its fixed fields, and pages of which none reaches beyond its size. */
  predicate RecordSits(bytes: Bytes, at: nat, segment: Segment) {
    var (size, body) := (segment.size, segment.body);
    && Sits(bytes, at, Word(size, 4)) && at + size <= |bytes|
    && Sits(bytes, at + 4, Word(body.pageSize, 2))
    && Sits(bytes, at + 6, Word(body.pointerFormat, 2))
    && Sits(bytes, at + 8, Word(body.segmentOffset, 8))
    && Sits(bytes, at + 16, Word(body.maxValidPointer, 4))
    && |body.pages| < 0x1_0000 && Sits(bytes, at + 20, Word(|body.pages|, 2))
    && (forall k | 0 <= k < |body.pages| :: HoldsPage(bytes, at + 22, at + size, |body.pages|, k, body.pages[k]))
    && segment.fixupPages == FixupPages(body.pages) && segment.multiPages == MultiPages(body.pages)
  }

  lemma RecordIsExact(bytes: Bytes, at: nat, i: nat, offset: U32, segment: Segment)
    ensures RecordAt(bytes, at, i, offset) == Success(segment) <==>
              segment.index == i && segment.offsetInStarts == offset && RecordSits(bytes, at, segment)
  {
    hide ReadU16, ReadU32, ReadU64, PagesFrom, FixupPages, MultiPages, HoldsPage, Sits, Word;
    ReadIsExact(bytes, at);
    ReadIsExact(bytes, at + 4);
    ReadIsExact(bytes, at + 6);
    ReadIsExact(bytes, at + 8);
    ReadIsExact(bytes, at + 16);
    ReadIsExact(bytes, at + 20);
    var (end, pages) := (at + segment.size, segment.body.pages);
    PagesAreExact(bytes, at + 22, end, |pages|, 0, pages);
    if RecordAt(bytes, at, i, offset) == Success(segment) {
      PagesAreExact(bytes, at + 22, end, ReadU16(bytes, at + 20).value, 0, pages);
    }
  }

  /** Slot `segment.index` of the table leads to the record of `segment`. */
  predicate SegmentSits(bytes: Bytes, starts: nat, segment: Segment) {
    && segment.offsetInStarts != 0
    && Sits(bytes, starts + 4 + 4 * segment.index, Word(segment.offsetInStarts, 4))
    && RecordSits(bytes, starts + segment.offsetInStarts, segment)
  }

  predicate Lists(segments: seq<Segment>, i: nat) {
    exists k | 0 <= k < |segments| :: segments[k].index == i
  }

  /** From slot `i` on, the slots lead to these segments, in this order, and the others are empty. */
  predicate SlotsSit(bytes: Bytes, starts: nat, count: nat, i: nat, segments: seq<Segment>) {
    && (forall k | 0 <= k < |segments| :: i <= segments[k].index < count && SegmentSits(bytes, starts, segments[k]))
    && (forall j, k | 0 <= j < k < |segments| :: segments[j].index < segments[k].index)
    && (forall m | i <= m < count && !Lists(segments, m) :: Sits(bytes, starts + 4 + 4 * m, Word(0, 4)))
  }

  lemma SlotIsEmpty(bytes: Bytes, starts: nat, i: nat)
    ensures SlotAt(bytes, starts, i) == Success([]) <==> Sits(bytes, starts + 4 + 4 * i, Word(0, 4))
    ensures SlotAt(bytes, starts, i).Success? ==> |SlotAt(bytes, starts, i).value| <= 1
  {
    hide ReadU32, RecordAt, Sits, Word;
    ReadIsExact(bytes, starts + 4 + 4 * i);
  }

  lemma SlotIsExact(bytes: Bytes, starts: nat, i: nat, segment: Segment)
    ensures SlotAt(bytes, starts, i) == Success([segment]) <==> segment.index == i && SegmentSits(bytes, starts, segment)
  {
    hide ReadU32, RecordAt, RecordSits, Sits, Word;
    ReadIsExact(bytes, starts + 4 + 4 * i);
    var offset := ReadU32(bytes, starts + 4 + 4 * i);
    if offset.Success? { RecordIsExact(bytes, starts + offset.value, i, offset.value, segment); }
  }

  /** A slot more at the front is one segment more, or an empty slot. */
  lemma SlotsSitOneMore(bytes: Bytes, starts: nat, count: nat, i: nat, segments: seq<Segment>)
    requires i < count
    ensures SlotsSit(bytes, starts, count, i, segments) <==>
              if segments != [] && segments[0].index == i then
                SegmentSits(bytes, starts, segments[0]) && SlotsSit(bytes, starts, count, i + 1, segments[1..])
              else Sits(bytes, starts + 4 + 4 * i, Word(0, 4)) && SlotsSit(bytes, starts, count, i + 1, segments)
  {
    hide SegmentSits, Sits, Word, Lists, SlotsSit;
    if segments != [] && segments[0].index == i {
      if SlotsSit(bytes, starts, count, i, segments) { SegmentTakenOff(bytes, starts, count, i, segments); }
      if SegmentSits(bytes, starts, segments[0]) && SlotsSit(bytes, starts, count, i + 1, segments[1..]) {
        SegmentPutOn(bytes, starts, count, i, segments);
      }
    } else {
      EmptySlotOneMore(bytes, starts, count, i, segments);
    }
  }

  lemma SegmentTakenOff(bytes: Bytes, starts: nat, count: nat, i: nat, segments: seq<Segment>)
    requires i < count && segments != [] && segments[0].index == i && SlotsSit(bytes, starts, count, i, segments)
    ensures SegmentSits(bytes, starts, segments[0]) && SlotsSit(bytes, starts, count, i + 1, segments[1..])
  {
    hide SegmentSits, Sits, Word, Lists;
    var rest := segments[1..];
    forall k | 0 <= k < |rest|
      ensures i + 1 <= rest[k].index < count && SegmentSits(bytes, starts, rest[k])
    {
      assert rest[k] == segments[k + 1];
    }
    forall m | i + 1 <= m < count && !Lists(rest, m)
      ensures Sits(bytes, starts + 4 + 4 * m, Word(0, 4))
    {
      ListsOneMore(segments, m);
    }
  }

  lemma SegmentPutOn(bytes: Bytes, starts: nat, count: nat, i: nat, segments: seq<Segment>)
    requires i < count && segments != [] && segments[0].index == i
    requires SegmentSits(bytes, starts, segments[0]) && SlotsSit(bytes, starts, count, i + 1, segments[1..])
    ensures SlotsSit(bytes, starts, count, i, segments)
  {
    hide SegmentSits, Sits, Word, Lists;
    var rest := segments[1..];
    assert segments == [segments[0]] + rest;
    forall m | i <= m < count && !Lists(segments, m)
      ensures Sits(bytes, starts + 4 + 4 * m, Word(0, 4))
    {
      ListsOneMore(segments, m);
    }
  }

  lemma EmptySlotOneMore(bytes: Bytes, starts: nat, count: nat, i: nat, segments: seq<Segment>)
    requires i < count && (segments != [] ==> segments[0].index != i)
    ensures SlotsSit(bytes, starts, count, i, segments) <==>
              Sits(bytes, starts + 4 + 4 * i, Word(0, 4)) && SlotsSit(bytes, starts, count, i + 1, segments)
  {
    hide SegmentSits, Sits, Word;
    if SlotsSit(bytes, starts, count, i, segments) {
      assert !Lists(segments, i);
    }
  }

  lemma ListsOneMore(segments: seq<Segment>, m: nat)
    requires segments != []
    ensures Lists(segments, m) <==> segments[0].index == m || Lists(segments[1..], m)
  {
    var rest := segments[1..];
    if Lists(rest, m) {
      var k :| 0 <= k < |rest| && rest[k].index == m;
      assert segments[k + 1].index == m;
    }
    if Lists(segments, m) && segments[0].index != m {
      var k :| 0 <= k < |segments| && segments[k].index == m;
      assert rest[k - 1].index == m;
    }
  }

  lemma {:induction false} SlotsAreExact(bytes: Bytes, starts: nat, count: nat, i: nat, segments: seq<Segment>)
    requires i <= count
    ensures SlotsFrom(bytes, starts, count, i) == Success(segments) <==> SlotsSit(bytes, starts, count, i, segments)
    decreases count - i
  {
    hide SlotAt, SegmentSits, Sits, Word, SlotsFrom, SlotsSit;
    if i < count {
      SlotIsEmpty(bytes, starts, i);
      SlotsSitOneMore(bytes, starts, count, i, segments);
      SlotsAreExact(bytes, starts, count, i + 1, segments);
      if segments != [] {
        SlotIsExact(bytes, starts, i, segments[0]);
        SlotsAreExact(bytes, starts, count, i + 1, segments[1..]);
        FirstIsFurther(bytes, starts, count, i + 1, segments);
      }
      OneSlotIs(bytes, starts, count, i, segments);
    } else {
      NoSlots(bytes, starts, count, segments);
    }
  }

  lemma FirstIsFurther(bytes: Bytes, starts: nat, count: nat, i: nat, segments: seq<Segment>)
    requires segments != []
    ensures SlotsSit(bytes, starts, count, i, segments) ==> i <= segments[0].index
  {
  }

  lemma NoSlots(bytes: Bytes, starts: nat, count: nat, segments: seq<Segment>)
    ensures SlotsFrom(bytes, starts, count, count) == Success(segments) <==> SlotsSit(bytes, starts, count, count, segments)
  {
    hide SegmentSits, Sits, Word, SlotAt;
    if segments != [] { assert !(count <= segments[0].index < count); }
  }

  lemma OneSlotIs(bytes: Bytes, starts: nat, count: nat, i: nat, segments: seq<Segment>)
    requires i < count
    requires SlotAt(bytes, starts, i).Success? ==> |SlotAt(bytes, starts, i).value| <= 1
    ensures SlotsFrom(bytes, starts, count, i) == Success(segments) <==>
              || (SlotAt(bytes, starts, i) == Success([]) && SlotsFrom(bytes, starts, count, i + 1) == Success(segments))
              || (segments != [] && SlotAt(bytes, starts, i) == Success([segments[0]])
                  && SlotsFrom(bytes, starts, count, i + 1) == Success(segments[1..]))
  {
    hide SlotAt;
    var rest := SlotsFrom(bytes, starts, count, i + 1);
    if SlotAt(bytes, starts, i).Success? && rest.Success? {
      var here := SlotAt(bytes, starts, i).value;
      if here == [] {
        assert here + rest.value == rest.value;
      } else {
        assert here == [here[0]];
        assert (here + rest.value)[1..] == rest.value;
        if segments != [] { assert segments == [segments[0]] + segments[1..]; }
      }
    }
  }

  /** The segments accepted are those the table leads to, one for each slot that is not empty, in the table's order. */
  lemma SegmentsAreExact(bytes: Bytes, starts: U32, segments: seq<Segment>)
    ensures SegmentsAt(bytes, starts) == Success(segments) <==>
              exists count: U32 :: Sits(bytes, starts, Word(count, 4)) && SlotsSit(bytes, starts, count, 0, segments)
  {
    hide SlotsFrom, SlotsSit, ReadU32, Sits, Word;
    ReadIsExact(bytes, starts);
    forall count: U32
      ensures SlotsFrom(bytes, starts, count, 0) == Success(segments) <==> SlotsSit(bytes, starts, count, 0, segments)
    {
      SlotsAreExact(bytes, starts, count, 0, segments);
    }
  }

  // ---- imports -------------------------------------------------------------------------------------------

  /** Import number `i` lies in its place in the table, in the table's format, and its name where it says. */
  ghost predicate ImportSits(bytes: Bytes, t: Imports, i: nat, imp: Import) {
    && Fits(t.format, i, imp) && Named(bytes, t, imp)
    && exists unused: nat :: unused < 0x8000 && Sits(bytes, t.offset + Stride(t.format) * i, ImportBytes(t.format, i, imp, unused))
  }

  lemma NameIsExact(bytes: Bytes, t: Imports, imp: Import)
    ensures NameAt(bytes, t, imp.nameOffset) == Success(imp.name) <==> Named(bytes, t, imp)
  {
    if Named(bytes, t, imp) { NameReadsBack(bytes, t, imp); }
    if t.symbolsFormat == 0 && NameAt(bytes, t, imp.nameOffset) == Success(imp.name) {
      var at := t.symbols + imp.nameOffset;
      var end := FirstZero(bytes, at).value;
      assert bytes[at..end + 1] == bytes[at..end] + [0];
    }
  }

  lemma Entry32IsPacked(bytes: Bytes, t: Imports, i: nat, raw: U32, addend: Option<int>, imp: Import)
    requires t.format in {1, 2} && Entry32(bytes, t, i, raw, addend) == Success(imp)
    ensures imp.index == i && -15 <= imp.ordinal <= Power2(8) - 16 && imp.ordinalRaw == RawOrdinal(imp.ordinal, 8)
    ensures imp.nameOffset < 0x80_0000 && Named(bytes, t, imp) && imp.addend == addend
    ensures raw == Packed(t.format, imp, 0)
  {
    hide NameAt, Named, DecodeOrdinal, RawOrdinal, Power2;
    NameIsExact(bytes, t, imp);
    OrdinalRanges();
    OrdinalsCorrespond(raw % 0x100, 0, 8);
    Repacked32(raw);
  }

  lemma Entry64IsPacked(bytes: Bytes, t: Imports, i: nat, raw: U64, addend: Option<int>, imp: Import)
    requires t.format == 3 && Entry64(bytes, t, i, raw, addend) == Success(imp)
    ensures imp.index == i && -15 <= imp.ordinal <= Power2(16) - 16 && imp.ordinalRaw == RawOrdinal(imp.ordinal, 16)
    ensures Named(bytes, t, imp) && imp.addend == addend
    ensures raw == Packed(t.format, imp, raw / 0x2_0000 % 0x8000)
  {
    hide NameAt, Named, DecodeOrdinal, RawOrdinal, Power2;
    NameIsExact(bytes, t, imp);
    OrdinalRanges();
    OrdinalsCorrespond(raw % 0x1_0000, 0, 16);
    Repacked(raw);
  }

  lemma Repacked32(raw: nat)
    ensures raw == raw % 0x100 + 0x100 * (raw / 0x100 % 2) + 0x200 * (raw / 0x200)
  {
    var high := raw / 0x100;
    Halves(raw);
    assert raw == raw % 0x100 + 0x100 * high && high == high % 2 + 2 * (high / 2);
  }

  lemma Halves(raw: nat)
    ensures raw / 0x100 / 2 == raw / 0x200
  {
  }

  lemma Repacked(raw: nat)
    ensures raw == raw % 0x1_0000 + 0x1_0000 * (raw / 0x1_0000 % 2) + 0x2_0000 * (raw / 0x2_0000 % 0x8000) + RANGE32 * (raw / RANGE32)
  {
    var high := raw / 0x1_0000;
    assert high / 2 == raw / 0x2_0000 && high / 2 / 0x8000 == raw / RANGE32;
  }

  lemma AddendIs(v: nat, range: int)
    requires v < range && range % 2 == 0
    ensures -range <= 2 * Signed(v, range) < range && Unsigned(Signed(v, range), range) == v
  {
  }

  lemma SitTogether(bytes: Bytes, offset: nat, x: Bytes, y: Bytes)
    requires Sits(bytes, offset, x) && Sits(bytes, offset + |x|, y)
    ensures Sits(bytes, offset, x + y)
  {
  }

  lemma ParsedImportSits(bytes: Bytes, t: Imports, i: nat, imp: Import)
    requires ImportAt(bytes, t, i) == Success(imp)
    ensures ImportSits(bytes, t, i, imp)
  {
    hide ReadU32, ReadU64, Entry32, Entry64, Named, Word, Sits, Signed, Unsigned, Packed, Power2, RawOrdinal;
    var at := t.offset + Stride(t.format) * i;
    ReadIsExact(bytes, at);
    match t.format {
      case 1 =>
        var raw := ReadU32(bytes, at).value;
        Entry32IsPacked(bytes, t, i, raw, None, imp);
        assert Sits(bytes, at, ImportBytes(t.format, i, imp, 0));
      case 2 =>
        ReadIsExact(bytes, at + 4);
        var (raw, addend) := (ReadU32(bytes, at).value, ReadU32(bytes, at + 4).value);
        AddendIs(addend, RANGE32);
        Entry32IsPacked(bytes, t, i, raw, Some(Signed(addend, RANGE32)), imp);
        SitTogether(bytes, at, Word(raw, 4), Word(addend, 4));
        assert Sits(bytes, at, ImportBytes(t.format, i, imp, 0));
      case 3 =>
        ReadIsExact(bytes, at + 8);
        var (raw, addend) := (ReadU64(bytes, at).value, ReadU64(bytes, at + 8).value);
        AddendIs(addend, TWO_64);
        Entry64IsPacked(bytes, t, i, raw, Some(Signed(addend, TWO_64)), imp);
        SitTogether(bytes, at, Word(raw, 8), Word(addend, 8));
        assert Sits(bytes, at, ImportBytes(t.format, i, imp, raw / 0x2_0000 % 0x8000));
    }
  }

  lemma ImportIsExact(bytes: Bytes, t: Imports, i: nat, imp: Import)
    ensures ImportAt(bytes, t, i) == Success(imp) <==> ImportSits(bytes, t, i, imp)
  {
    hide ImportAt, Fits, Named, ImportBytes, Sits, Stride;
    if ImportAt(bytes, t, i) == Success(imp) { ParsedImportSits(bytes, t, i, imp); }
    if ImportSits(bytes, t, i, imp) {
      var unused: nat :| unused < 0x8000 && Sits(bytes, t.offset + Stride(t.format) * i, ImportBytes(t.format, i, imp, unused));
      FirstImportReadsBack(bytes, t, i, imp, unused);
    }
  }

  /** An import table is accepted exactly when every entry up to `count` lies in its place; no other format has any. */
  lemma {:induction false} ImportsAreExact(bytes: Bytes, t: Imports, count: nat, i: nat, imports: seq<Import>)
    requires i <= count
    ensures ImportsFrom(bytes, t, count, i) == Success(imports) <==>
              i + |imports| == count && forall k: nat | k < |imports| :: ImportSits(bytes, t, i + k, imports[k])
    ensures t.format !in {1, 2, 3} && i < count ==> ImportsFrom(bytes, t, count, i) == Failure(UnsupportedFormat)
    decreases count - i
  {
    hide ImportSits, ReadU32, ReadU64, Entry32, Entry64;
    if i < count {
      if imports != [] {
        var (first, rest) := (imports[0], imports[1..]);
        assert imports == [first] + rest;
        ImportIsExact(bytes, t, i, first);
        ImportsAreExact(bytes, t, count, i + 1, rest);
        if i + |imports| == count && forall k: nat | k < |imports| :: ImportSits(bytes, t, i + k, imports[k]) {
          assert forall k: nat | k < |rest| :: rest[k] == imports[k + 1] && i + 1 + k == i + (k + 1);
        }
        if forall k: nat | k < |rest| :: ImportSits(bytes, t, i + 1 + k, rest[k]) {
          forall k: nat | 0 < k < |imports|
            ensures ImportSits(bytes, t, i + 1 + (k - 1), imports[k])
          {
            assert imports[k] == rest[k - 1];
          }
        }
      }
      FirstOf(bytes, t, count, i, imports);
    }
  }

  lemma FirstOf(bytes: Bytes, t: Imports, count: nat, i: nat, imports: seq<Import>)
    requires i < count
    ensures ImportsFrom(bytes, t, count, i) == Success(imports) <==>
              imports != [] && ImportAt(bytes, t, i) == Success(imports[0])
              && ImportsFrom(bytes, t, count, i + 1) == Success(imports[1..])
  {
    hide ImportAt;
    var rest := ImportsFrom(bytes, t, count, i + 1);
    if ImportAt(bytes, t, i).Success? && rest.Success? {
      assert ([ImportAt(bytes, t, i).value] + rest.value)[1..] == rest.value;
      if imports != [] { assert imports == [imports[0]] + imports[1..]; }
    }
  }
}
