/** The page table of a chained-fixups segment record, with its variable-length runs of chain starts. */
module ChainedPages {
  import opened Layout
  import opened Wrappers
  import opened LittleEndian

  /** A page's chain starts: none, one, or a run. */
  datatype Page = NoFixups | SingleStart(start: U16) | MultipleStarts(starts: seq<U16>)

  const START_NONE := 0xffff
  const START_MULTI := 0x8000
  const START_LAST := 0x8000

  /** The run of chain starts at `at`, ended by the first entry marked as last; it may not leave the record. */
  function RunAt(bytes: Bytes, at: nat, end: nat): Result<seq<U16>, Malformed>
    decreases end - at
  {
    if at + 2 > end then Failure(ChainOverflow)
    else
      var entry :- ReadU16(bytes, at);
      if entry >= START_LAST then Success([entry - START_LAST])
      else Then([entry], RunAt(bytes, at + 2, end))
  }

  function PageAt(bytes: Bytes, table: nat, end: nat, count: nat, i: nat): Result<Page, Malformed> {
    var raw :- ReadU16(bytes, table + 2 * i);
    if raw == START_NONE then Success(NoFixups)
    else if raw < START_MULTI then Success(SingleStart(raw))
    else
      var starts :- RunAt(bytes, table + 2 * count + 2 * (raw - START_MULTI), end);
      Success(MultipleStarts(starts))
  }

  /** Pages `i` and after of the `count` pages whose table is at `table`. */
  function PagesFrom(bytes: Bytes, table: nat, end: nat, count: nat, i: nat): Result<seq<Page>, Malformed>
    decreases count - i
  {
    if i >= count then Success([])
    else
      var page :- PageAt(bytes, table, end, count, i);
      Then([page], PagesFrom(bytes, table, end, count, i + 1))
  }

  function FixupPages(pages: seq<Page>): nat {
    |Matching(pages, (p: Page) => p != NoFixups)|
  }

  function MultiPages(pages: seq<Page>): nat {
    |Matching(pages, (p: Page) => p.MultipleStarts?)|
  }

  function Matching(pages: seq<Page>, wanted: Page -> bool): set<nat> {
    set k: nat | k < |pages| && wanted(pages[k])
  }

  lemma CountsGrow(pages: seq<Page>, page: Page)
    ensures FixupPages(pages + [page]) == FixupPages(pages) + if page == NoFixups then 0 else 1
    ensures MultiPages(pages + [page]) == MultiPages(pages) + if page.MultipleStarts? then 1 else 0
  {
    MatchingGrows(pages, page, (p: Page) => p != NoFixups);
    MatchingGrows(pages, page, (p: Page) => p.MultipleStarts?);
  }

  lemma MatchingGrows(pages: seq<Page>, page: Page, wanted: Page -> bool)
    ensures |Matching(pages + [page], wanted)| == |Matching(pages, wanted)| + if wanted(page) then 1 else 0
  {
    assert Matching(pages + [page], wanted) == Matching(pages, wanted) + if wanted(page) then {|pages|} else {};
  }

  method ReadRun(bytes: Bytes, base: nat, index: nat, end: nat) returns (r: Result<seq<U16>, Malformed>)
    ensures r == RunAt(bytes, base + 2 * index, end)
  {
    var starts := [];
    var chainIndex := index;
    ThenMore([], [], RunAt(bytes, base + 2 * index, end));
    while true
      invariant index <= chainIndex
      invariant RunAt(bytes, base + 2 * index, end) == Then(starts, RunAt(bytes, base + 2 * chainIndex, end))
      decreases end - (base + 2 * chainIndex)
    {
      var at := base + chainIndex * 2;
      if at + 2 > end {
        return Failure(ChainOverflow);
      }
      var entry :- ReadU16(bytes, at);
      if entry >= START_LAST {
        return Success(starts + [entry - START_LAST]);
      }
      ThenMore(starts, [entry], RunAt(bytes, at + 2, end));
      starts := starts + [entry];
      chainIndex := chainIndex + 1;
    }
  }

  method ParsePages(bytes: Bytes, segmentOffset: nat, end: nat, count: U16)
    returns (r: Result<(seq<Page>, nat, nat), Malformed>)
    ensures match PagesFrom(bytes, segmentOffset + 22, end, count, 0)
            case Failure(e) => r == Failure(e)
            case Success(pages) => r == Success((pages, FixupPages(pages), MultiPages(pages))) && |pages| == count
  {
    hide ReadU16, RunAt, FixupPages, MultiPages;
    var table := segmentOffset + 22;
    var pages := [];
    var fixupPages, multiPages := 0, 0;
    var i := 0;
    NothingCounted();
    ThenMore([], [], PagesFrom(bytes, table, end, count, 0));
    while i < count
      invariant i == |pages| <= count
      invariant fixupPages == FixupPages(pages) && multiPages == MultiPages(pages)
      invariant PagesFrom(bytes, table, end, count, 0) == Then(pages, PagesFrom(bytes, table, end, count, i))
    {
      var raw :- ReadU16(bytes, table + i * 2);
      var page := NoFixups;
      if raw != START_NONE {
        fixupPages := fixupPages + 1;
        if raw >= START_MULTI {
          multiPages := multiPages + 1;
          var starts :- ReadRun(bytes, table + count * 2, raw - START_MULTI, end);
          page := MultipleStarts(starts);
        } else {
          page := SingleStart(raw);
        }
      }
      ThenMore(pages, [page], PagesFrom(bytes, table, end, count, i + 1));
      CountsGrow(pages, page);
      pages := pages + [page];
      i := i + 1;
    }
    assert pages + [] == pages;
    r := Success((pages, fixupPages, multiPages));
  }

  lemma NothingCounted()
    ensures FixupPages([]) == 0 && MultiPages([]) == 0
  {
    assert Matching([], (p: Page) => p != NoFixups) == {};
    assert Matching([], (p: Page) => p.MultipleStarts?) == {};
  }

  // ---- what is read is exactly what the bytes hold -------------------------------------------------------

  /** `starts` are the entries from `at` through the first one marked as last, all inside the record and the bytes. */
  predicate IsRun(bytes: Bytes, at: nat, end: nat, starts: seq<U16>) {
    && starts != []
    && at + 2 * |starts| <= end
    && forall j: nat | j < |starts| ::
         && starts[j] < START_LAST
         && ReadU16(bytes, at + 2 * j) == Success(starts[j] + if j == |starts| - 1 then START_LAST else 0)
  }

  lemma LongerRun(bytes: Bytes, at: nat, end: nat, starts: seq<U16>)
    requires |starts| > 1
    ensures IsRun(bytes, at, end, starts) <==>
              && starts[0] < START_LAST && ReadU16(bytes, at) == Success(starts[0])
              && IsRun(bytes, at + 2, end, starts[1..])
  {
    hide ReadU16;
    var rest := starts[1..];
    if IsRun(bytes, at, end, starts) {
      assert ReadU16(bytes, at + 2 * 0) == Success(starts[0]);
      forall j: nat | j < |rest|
        ensures rest[j] < START_LAST
        ensures ReadU16(bytes, at + 2 + 2 * j) == Success(rest[j] + if j == |rest| - 1 then START_LAST else 0)
      {
        assert rest[j] == starts[j + 1] && at + 2 + 2 * j == at + 2 * (j + 1);
      }
    }
    if starts[0] < START_LAST && ReadU16(bytes, at) == Success(starts[0]) && IsRun(bytes, at + 2, end, rest) {
      forall j: nat | j < |starts|
        ensures starts[j] < START_LAST
        ensures ReadU16(bytes, at + 2 * j) == Success(starts[j] + if j == |starts| - 1 then START_LAST else 0)
      {
        if j > 0 {
          assert rest[j - 1] == starts[j] && at + 2 + 2 * (j - 1) == at + 2 * j;
        }
      }
    }
  }

  /** Reading a run yields `starts` iff `starts` is the run the bytes hold; so it fails iff they hold none. */
  lemma {:induction false} RunIsExact(bytes: Bytes, at: nat, end: nat, starts: seq<U16>)
    ensures RunAt(bytes, at, end) == Success(starts) <==> IsRun(bytes, at, end, starts)
    decreases end - at
  {
    hide ReadU16;
    if at + 2 <= end && starts != [] {
      if |starts| > 1 {
        hide IsRun;
        LongerRun(bytes, at, end, starts);
        RunIsExact(bytes, at + 2, end, starts[1..]);
        assert starts == [starts[0]] + starts[1..];
      } else {
        assert IsRun(bytes, at, end, starts) ==> ReadU16(bytes, at + 2 * 0) == Success(starts[0] + START_LAST);
        assert starts == [starts[0]];
        RunsAreNotEmpty(bytes, at + 2, end);
      }
    } else {
      RunsAreNotEmpty(bytes, at, end);
    }
  }

  lemma RunsAreNotEmpty(bytes: Bytes, at: nat, end: nat)
    ensures RunAt(bytes, at, end).Success? ==> |RunAt(bytes, at, end).value| > 0
  {
  }

  /** Entry `i` of the page table says `page`. */
  predicate HoldsPage(bytes: Bytes, table: nat, end: nat, count: nat, i: nat, page: Page) {
    match page
    case NoFixups => ReadU16(bytes, table + 2 * i) == Success(START_NONE)
    case SingleStart(start) => start < START_MULTI && ReadU16(bytes, table + 2 * i) == Success(start)
    case MultipleStarts(starts) =>
      exists index: nat | index <= 0x7ffe ::
        && ReadU16(bytes, table + 2 * i) == Success(START_MULTI + index)
        && IsRun(bytes, table + 2 * count + 2 * index, end, starts)
  }

  lemma PageIsExact(bytes: Bytes, table: nat, end: nat, count: nat, i: nat, page: Page)
    ensures PageAt(bytes, table, end, count, i) == Success(page) <==> HoldsPage(bytes, table, end, count, i, page)
  {
    hide ReadU16, IsRun, RunAt;
    var raw := ReadU16(bytes, table + 2 * i);
    if page.MultipleStarts? && raw.Success? && START_MULTI <= raw.value < START_NONE {
      var index := raw.value - START_MULTI;
      RunIsExact(bytes, table + 2 * count + 2 * index, end, page.starts);
      assert raw == Success(START_MULTI + index);
    }
  }

  /** Parsing yields `pages` iff there are as many as announced and every table entry says its page. */
  lemma {:induction false} PagesAreExact(bytes: Bytes, table: nat, end: nat, count: nat, i: nat, pages: seq<Page>)
    requires i <= count
    ensures PagesFrom(bytes, table, end, count, i) == Success(pages) <==>
              && |pages| == count - i
              && forall k: nat | k < |pages| :: HoldsPage(bytes, table, end, count, i + k, pages[k])
    decreases count - i
  {
    hide PageAt, HoldsPage;
    if i < count && pages != [] {
      var rest := pages[1..];
      PageIsExact(bytes, table, end, count, i, pages[0]);
      PagesAreExact(bytes, table, end, count, i + 1, rest);
      assert pages == [pages[0]] + rest;
      if forall k: nat | k < |pages| :: HoldsPage(bytes, table, end, count, i + k, pages[k]) {
        assert HoldsPage(bytes, table, end, count, i + 0, pages[0]);
        forall k: nat | k < |rest|
          ensures HoldsPage(bytes, table, end, count, i + 1 + k, rest[k])
        {
          assert HoldsPage(bytes, table, end, count, i + (k + 1), pages[k + 1]);
        }
      }
      if && HoldsPage(bytes, table, end, count, i, pages[0])
         && forall k: nat | k < |rest| :: HoldsPage(bytes, table, end, count, i + 1 + k, rest[k])
      {
        forall k: nat | k < |pages|
          ensures HoldsPage(bytes, table, end, count, i + k, pages[k])
        {
          if k > 0 { assert HoldsPage(bytes, table, end, count, i + 1 + (k - 1), rest[k - 1]); }
        }
      }
    }
  }

  // ---- an encoder ----------------------------------------------------------------------------------------

  function RunBytes(starts: seq<U16>): (s: Bytes)
    ensures |s| == 2 * |starts|
  {
    if starts == [] then []
    else Word(starts[0] + if |starts| == 1 then START_LAST else 0, 2) + RunBytes(starts[1..])
  }

  function RunOf(page: Page): seq<U16> {
    if page.MultipleStarts? then page.starts else []
  }

  /** The runs of all the pages, one after the other. */
  function Runs(pages: seq<Page>): Bytes {
    if pages == [] then [] else RunBytes(RunOf(pages[0])) + Runs(pages[1..])
  }

  /** The page table, when the first of these pages' runs begins at run entry `index`. */
  function Table(pages: seq<Page>, index: nat): (s: Bytes)
    ensures |s| == 2 * |pages|
  {
    if pages == [] then []
    else
      var raw := match pages[0]
        case NoFixups => START_NONE
        case SingleStart(start) => start
        case MultipleStarts(_) => START_MULTI + index;
      Word(raw, 2) + Table(pages[1..], index + |RunOf(pages[0])|)
  }

  /** Starts fit in 15 bits, runs are not empty, and the index of every run fits in 15 bits. */
  predicate Encodable(pages: seq<Page>, index: nat) {
    pages == [] ||
    (&& match pages[0] {
          case NoFixups => true
          case SingleStart(start) => start < START_MULTI
          case MultipleStarts(starts) =>
            starts != [] && index <= 0x7fff && forall s <- starts :: s < START_LAST
        }
     && Encodable(pages[1..], index + |RunOf(pages[0])|))
  }

  /** No run begins at entry 0x7fff: pointing at that entry spells START_NONE. */
  predicate Pointable(pages: seq<Page>, index: nat) {
    pages == [] ||
    ((pages[0].MultipleStarts? ==> index != 0x7fff) && Pointable(pages[1..], index + |RunOf(pages[0])|))
  }

  lemma {:induction false} RunSits(bytes: Bytes, at: nat, end: nat, starts: seq<U16>)
    requires starts != [] && (forall s <- starts :: s < START_LAST)
    requires Sits(bytes, at, RunBytes(starts)) && at + 2 * |starts| <= end
    ensures IsRun(bytes, at, end, starts)
    decreases |starts|
  {
    hide ReadU16, Sits, Word;
    assert starts[0] in starts;
    var word: U16 := starts[0] + if |starts| == 1 then START_LAST else 0;
    SitsApart(bytes, at, Word(word, 2), RunBytes(starts[1..]));
    ReadsU16(bytes, at, word);
    if |starts| > 1 {
      hide IsRun;
      assert forall s <- starts[1..] :: s in starts;
      RunSits(bytes, at + 2, end, starts[1..]);
      LongerRun(bytes, at, end, starts);
    }
  }

  lemma FirstPageSits(bytes: Bytes, table: nat, end: nat, count: nat, i: nat, index: nat, pages: seq<Page>)
    requires pages != [] && Encodable(pages, index)
    requires Sits(bytes, table + 2 * i, Table(pages, index))
    requires Sits(bytes, table + 2 * count + 2 * index, Runs(pages))
    requires table + 2 * count + 2 * index + |Runs(pages)| <= end
    ensures Sits(bytes, table + 2 * (i + 1), Table(pages[1..], index + |RunOf(pages[0])|))
    ensures Sits(bytes, table + 2 * count + 2 * (index + |RunOf(pages[0])|), Runs(pages[1..]))
    ensures PageAt(bytes, table, end, count, i) ==
              Success(if pages[0].MultipleStarts? && index == 0x7fff then NoFixups else pages[0])
  {
    hide ReadU16, Sits, Word, RunAt, IsRun, RunBytes;
    var raw: U16 := match pages[0]
      case NoFixups => START_NONE
      case SingleStart(start) => start
      case MultipleStarts(_) => START_MULTI + index;
    var run := RunOf(pages[0]);
    SitsApart(bytes, table + 2 * i, Word(raw, 2), Table(pages[1..], index + |run|));
    ReadsU16(bytes, table + 2 * i, raw);
    SitsApart(bytes, table + 2 * count + 2 * index, RunBytes(run), Runs(pages[1..]));
    if pages[0].MultipleStarts? {
      var at := table + 2 * count + 2 * index;
      RunSits(bytes, at, end, run);
      RunIsExact(bytes, at, end, run);
    }
    assert table + 2 * i + 2 == table + 2 * (i + 1);
    assert table + 2 * count + 2 * index + 2 * |run| == table + 2 * count + 2 * (index + |run|);
  }

  /** Encoded pages come back exactly, iff no run had to begin at the one entry that cannot be pointed at. */
  lemma {:induction false} PagesInvertEncode(bytes: Bytes, table: nat, end: nat, count: nat, i: nat, index: nat,
                                             pages: seq<Page>)
    requires Encodable(pages, index) && i + |pages| == count
    requires Sits(bytes, table + 2 * i, Table(pages, index))
    requires Sits(bytes, table + 2 * count + 2 * index, Runs(pages))
    requires table + 2 * count + 2 * index + |Runs(pages)| <= end
    ensures PagesFrom(bytes, table, end, count, i) == Success(pages) <==> Pointable(pages, index)
    decreases |pages|
  {
    hide PageAt, Sits, RunBytes, Word;
    if pages != [] {
      var rest := pages[1..];
      FirstPageSits(bytes, table, end, count, i, index, pages);
      RunsShrink(pages);
      hide Table, Runs;
      PagesInvertEncode(bytes, table, end, count, i + 1, index + |RunOf(pages[0])|, rest);
      ThenIs(PageAt(bytes, table, end, count, i).value, PagesFrom(bytes, table, end, count, i + 1), pages);
    }
  }

  lemma RunsShrink(pages: seq<Page>)
    requires pages != []
    ensures |Runs(pages)| == 2 * |RunOf(pages[0])| + |Runs(pages[1..])|
  {
  }

  lemma ThenIs(page: Page, r: Result<seq<Page>, Malformed>, pages: seq<Page>)
    requires pages != []
    ensures Then([page], r) == Success(pages) <==> page == pages[0] && r == Success(pages[1..])
  {
    if r.Success? {
      assert ([page] + r.value)[0] == page && ([page] + r.value)[1..] == r.value;
      assert pages == [pages[0]] + pages[1..];
    }
  }
}
