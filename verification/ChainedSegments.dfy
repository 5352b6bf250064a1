/** The starts table of chained fixups: an offset per segment, zero meaning none, and a record for each of the others. */
module ChainedSegments {
  import opened Layout
  import opened Wrappers
  import opened LittleEndian
  import opened ChainedPages

  datatype Body = Body(pageSize: U16, pointerFormat: U16, segmentOffset: U64, maxValidPointer: U32, pages: seq<Page>)

  datatype Segment = Segment(index: nat, offsetInStarts: U32, size: U32, body: Body, fixupPages: nat, multiPages: nat)

  /** The record at `at` of the segment numbered `i`. */
  function RecordAt(bytes: Bytes, at: nat, i: nat, offset: U32): Result<Segment, Malformed> {
    var size :- ReadU32(bytes, at);
    if at + size > |bytes| then Failure(SegmentOverflow)
    else
      var pageSize :- ReadU16(bytes, at + 4);
      var pointerFormat :- ReadU16(bytes, at + 6);
      var segmentOffset :- ReadU64(bytes, at + 8);
      var maxValidPointer :- ReadU32(bytes, at + 16);
      var pageCount :- ReadU16(bytes, at + 20);
      var pages :- PagesFrom(bytes, at + 22, at + size, pageCount, 0);
      Success(Segment(i, offset, size, Body(pageSize, pointerFormat, segmentOffset, maxValidPointer, pages),
                      FixupPages(pages), MultiPages(pages)))
  }

  /** The segment that slot `i` of the table names, if it names one. */
  function SlotAt(bytes: Bytes, starts: nat, i: nat): Result<seq<Segment>, Malformed> {
    var offset :- ReadU32(bytes, starts + 4 + 4 * i);
    if offset == 0 then Success([])
    else
      var segment :- RecordAt(bytes, starts + offset, i, offset);
      Success([segment])
  }

  function SlotsFrom(bytes: Bytes, starts: nat, count: nat, i: nat): Result<seq<Segment>, Malformed>
    decreases count - i
  {
    if i >= count then Success([])
    else
      var here :- SlotAt(bytes, starts, i);
      Then(here, SlotsFrom(bytes, starts, count, i + 1))
  }

  function SegmentsAt(bytes: Bytes, starts: U32): Result<seq<Segment>, Malformed> {
    var count :- ReadU32(bytes, starts);
    SlotsFrom(bytes, starts, count, 0)
  }

  method ParseRecord(bytes: Bytes, at: nat, i: nat, offset: U32) returns (r: Result<Segment, Malformed>)
    ensures r == RecordAt(bytes, at, i, offset)
  {
    hide ReadU16, ReadU32, ReadU64, PagesFrom, FixupPages, MultiPages;
    var size :- ReadU32(bytes, at);
    var end := at + size;
    if end > |bytes| {
      return Failure(SegmentOverflow);
    }
    var pageSize :- ReadU16(bytes, at + 4);
    var pointerFormat :- ReadU16(bytes, at + 6);
    var segmentOffset :- ReadU64(bytes, at + 8);
    var maxValidPointer :- ReadU32(bytes, at + 16);
    var pageCount :- ReadU16(bytes, at + 20);
    var parsed :- ParsePages(bytes, at, end, pageCount);
    var (pages, fixupPages, multiPages) := parsed;
    r := Success(Segment(i, offset, size, Body(pageSize, pointerFormat, segmentOffset, maxValidPointer, pages),
                         fixupPages, multiPages));
  }

  method ParseSegments(bytes: Bytes, startsOffset: U32) returns (r: Result<seq<Segment>, Malformed>)
    ensures r == SegmentsAt(bytes, startsOffset)
  {
    hide ReadU32, RecordAt;
    var starts: nat := startsOffset;
    var count :- ReadU32(bytes, starts);
    var segments := [];
    var i: nat := 0;
    ThenMore([], [], SlotsFrom(bytes, starts, count, 0));
    while i < count
      invariant i <= count
      invariant SlotsFrom(bytes, starts, count, 0) == Then(segments, SlotsFrom(bytes, starts, count, i))
    {
      var offset :- ReadU32(bytes, starts + 4 + i * 4);
      var rest := SlotsFrom(bytes, starts, count, i + 1);
      if offset != 0 {
        var segment :- ParseRecord(bytes, starts + offset, i, offset);
        ThenMore(segments, [segment], rest);
        segments := segments + [segment];
      } else {
        ThenMore(segments, [], rest);
        assert segments + [] == segments;
      }
      i := i + 1;
    }
    assert segments + [] == segments;
    r := Success(segments);
  }

  /** An accepted record lies inside the payload, has the page count it announces, and its counts are of its pages. */
  lemma AcceptedRecordFits(bytes: Bytes, at: nat, i: nat, offset: U32)
    requires RecordAt(bytes, at, i, offset).Success?
    ensures var segment := RecordAt(bytes, at, i, offset).value;
            && at + segment.size <= |bytes|
            && ReadU16(bytes, at + 20) == Success(|segment.body.pages|)
            && segment.fixupPages == FixupPages(segment.body.pages) && segment.multiPages == MultiPages(segment.body.pages)
            && forall k: nat | k < |segment.body.pages| ::
                 HoldsPage(bytes, at + 22, at + segment.size, |segment.body.pages|, k, segment.body.pages[k])
  {
    hide ReadU16, ReadU32, ReadU64, PagesFrom, FixupPages, MultiPages, HoldsPage;
    var segment := RecordAt(bytes, at, i, offset).value;
    var count := ReadU16(bytes, at + 20).value;
    PagesAreExact(bytes, at + 22, at + segment.size, count, 0, segment.body.pages);
  }

  // ---- an encoder ----------------------------------------------------------------------------------------

  function RecordSize(body: Body): nat {
    22 + 2 * |body.pages| + |Runs(body.pages)|
  }

  predicate EncodableBody(body: Body) {
    |body.pages| < 0x1_0000 && RecordSize(body) < 0x1_0000_0000 && Encodable(body.pages, 0)
  }

  /** The fixed-size fields, grouped as they lie, then the page table and the runs. */
  function RecordBytes(body: Body): (s: Bytes)
    ensures |s| == RecordSize(body)
  {
    Word(RecordSize(body), 4) + (Word(body.pageSize, 2) + (Word(body.pointerFormat, 2) + (Word(body.segmentOffset, 8)
      + (Word(body.maxValidPointer, 4) + (Word(|body.pages|, 2) + (Table(body.pages, 0) + Runs(body.pages)))))))
  }

  /** A segment without fixups takes a slot and no record. */
  function SlotBytes(slot: Option<Body>): Bytes {
    if slot.Some? then RecordBytes(slot.value) else []
  }

  function Offsets(slots: seq<Option<Body>>, at: nat): (s: Bytes)
    ensures |s| == 4 * |slots|
  {
    if slots == [] then []
    else Word(if slots[0].Some? then at else 0, 4) + Offsets(slots[1..], at + |SlotBytes(slots[0])|)
  }

  function Records(slots: seq<Option<Body>>): Bytes {
    if slots == [] then [] else SlotBytes(slots[0]) + Records(slots[1..])
  }

  function EncodeStarts(slots: seq<Option<Body>>): Bytes {
    Word(|slots|, 4) + (Offsets(slots, 4 + 4 * |slots|) + Records(slots))
  }

  predicate EncodableSlots(slots: seq<Option<Body>>) {
    forall slot <- slots :: slot.Some? ==> EncodableBody(slot.value) && Pointable(slot.value.pages, 0)
  }

  /** What parsing should give: slot `i` first, its record `at` bytes into the starts table. */
  function Parsed(slots: seq<Option<Body>>, i: nat, at: nat): seq<Segment>
    requires EncodableSlots(slots) && at + |Records(slots)| < 0x1_0000_0000
  {
    if slots == [] then []
    else
      assert forall slot <- slots[1..] :: slot in slots;
      var rest := Parsed(slots[1..], i + 1, at + |SlotBytes(slots[0])|);
      if slots[0].Some? then [SegmentOf(slots[0].value, i, at)] + rest else rest
  }

  function SegmentOf(body: Body, i: nat, at: U32): Segment
    requires EncodableBody(body)
  {
    Segment(i, at, RecordSize(body), body, FixupPages(body.pages), MultiPages(body.pages))
  }

  lemma RecordInvertsEncode(bytes: Bytes, at: nat, i: nat, offset: U32, body: Body)
    requires EncodableBody(body) && Pointable(body.pages, 0)
    requires Sits(bytes, at, RecordBytes(body))
    ensures RecordAt(bytes, at, i, offset) == Success(SegmentOf(body, i, offset))
  {
    hide Word, ReadU16, ReadU32, ReadU64, FixupPages, MultiPages, PagesFrom, Table, Runs, Encodable, Pointable;
    var tail := Table(body.pages, 0) + Runs(body.pages);
    var tail5 := Word(|body.pages|, 2) + tail;
    var tail4 := Word(body.maxValidPointer, 4) + tail5;
    var tail3 := Word(body.segmentOffset, 8) + tail4;
    var tail2 := Word(body.pointerFormat, 2) + tail3;
    var tail1 := Word(body.pageSize, 2) + tail2;
    assert at + RecordSize(body) <= |bytes|;
    SitsApart(bytes, at, Word(RecordSize(body), 4), tail1);
    hide Sits;
    SitsApart(bytes, at + 4, Word(body.pageSize, 2), tail2);
    SitsApart(bytes, at + 6, Word(body.pointerFormat, 2), tail3);
    SitsApart(bytes, at + 8, Word(body.segmentOffset, 8), tail4);
    SitsApart(bytes, at + 16, Word(body.maxValidPointer, 4), tail5);
    SitsApart(bytes, at + 20, Word(|body.pages|, 2), tail);
    SitsApart(bytes, at + 22, Table(body.pages, 0), Runs(body.pages));
    ReadsU32(bytes, at, RecordSize(body));
    ReadsU16(bytes, at + 4, body.pageSize);
    ReadsU16(bytes, at + 6, body.pointerFormat);
    ReadsU64(bytes, at + 8, body.segmentOffset);
    ReadsU32(bytes, at + 16, body.maxValidPointer);
    ReadsU16(bytes, at + 20, |body.pages|);
    PagesInvertEncode(bytes, at + 22, at + RecordSize(body), |body.pages|, 0, 0, body.pages);
  }

  lemma SlotReadsBack(bytes: Bytes, starts: nat, i: nat, at: U32, slot: Option<Body>)
    requires slot.Some? ==> EncodableBody(slot.value) && Pointable(slot.value.pages, 0) && at > 0
    requires Sits(bytes, starts + 4 + 4 * i, Word(if slot.Some? then at else 0, 4))
    requires Sits(bytes, starts + at, SlotBytes(slot))
    ensures SlotAt(bytes, starts, i) == Success(if slot.Some? then [SegmentOf(slot.value, i, at)] else [])
  {
    hide ReadU32, Word, Sits, RecordAt, EncodableBody, RecordBytes, Pointable, SegmentOf;
    ReadsU32(bytes, starts + 4 + 4 * i, if slot.Some? then at else 0);
    if slot.Some? {
      RecordInvertsEncode(bytes, starts + at, i, at, slot.value);
    }
  }

  lemma FirstSlotSits(bytes: Bytes, starts: nat, i: nat, at: nat, slots: seq<Option<Body>>)
    requires slots != []
    requires Sits(bytes, starts + 4 + 4 * i, Offsets(slots, at))
    requires Sits(bytes, starts + at, Records(slots))
    ensures Sits(bytes, starts + 4 + 4 * i, Word(if slots[0].Some? then at else 0, 4))
    ensures Sits(bytes, starts + at, SlotBytes(slots[0]))
    ensures Sits(bytes, starts + 4 + 4 * (i + 1), Offsets(slots[1..], at + |SlotBytes(slots[0])|))
    ensures Sits(bytes, starts + (at + |SlotBytes(slots[0])|), Records(slots[1..]))
  {
    hide Word, Sits, SlotBytes;
    var (slot, rest) := (slots[0], slots[1..]);
    SitsApart(bytes, starts + 4 + 4 * i, Word(if slot.Some? then at else 0, 4), Offsets(rest, at + |SlotBytes(slot)|));
    SitsApart(bytes, starts + at, SlotBytes(slot), Records(rest));
    assert starts + 4 + 4 * i + 4 == starts + 4 + 4 * (i + 1);
    assert starts + at + |SlotBytes(slot)| == starts + (at + |SlotBytes(slot)|);
  }

  lemma {:induction false} SlotsInvertEncode(bytes: Bytes, starts: nat, count: nat, i: nat, at: nat,
                                             slots: seq<Option<Body>>)
    requires EncodableSlots(slots) && i + |slots| == count && 0 < at && at + |Records(slots)| < 0x1_0000_0000
    requires Sits(bytes, starts + 4 + 4 * i, Offsets(slots, at))
    requires Sits(bytes, starts + at, Records(slots))
    ensures SlotsFrom(bytes, starts, count, i) == Success(Parsed(slots, i, at))
    decreases |slots|
  {
    hide Sits, SlotAt, EncodableBody, Offsets, SlotBytes, SegmentOf;
    if slots != [] {
      var rest := slots[1..];
      assert slots[0] in slots && forall other <- rest :: other in slots;
      FirstSlotSits(bytes, starts, i, at, slots);
      SlotReadsBack(bytes, starts, i, at, slots[0]);
      SlotsInvertEncode(bytes, starts, count, i + 1, at + |SlotBytes(slots[0])|, rest);
      ThenMore([], [], SlotsFrom(bytes, starts, count, i + 1));
    }
  }

  /** Wherever an encoded starts table sits in the payload, parsing it gives back every slot, empty slots skipped. */
  lemma SegmentsInvertEncode(bytes: Bytes, starts: U32, slots: seq<Option<Body>>)
    requires EncodableSlots(slots) && |EncodeStarts(slots)| < 0x1_0000_0000
    requires Sits(bytes, starts, EncodeStarts(slots))
    ensures SegmentsAt(bytes, starts) == Success(Parsed(slots, 0, 4 + 4 * |slots|))
  {
    hide ReadU32, Word, Sits, Offsets, Records, EncodableSlots, Parsed, SlotsFrom;
    var (offsets, records) := (Offsets(slots, 4 + 4 * |slots|), Records(slots));
    SitsApart(bytes, starts, Word(|slots|, 4), offsets + records);
    SitsApart(bytes, starts + 4, offsets, records);
    ReadsU32(bytes, starts, |slots|);
    SlotsInvertEncode(bytes, starts, |slots|, 0, 4 + 4 * |slots|, slots);
  }
}
