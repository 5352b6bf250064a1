/** LC_FUNCTION_STARTS: a list of ULEB128 deltas, ended by a zero. */
module FunctionStarts {
  import opened Layout
  import opened Wrappers
  import opened Uleb128

  datatype Start = Start(offset: U64, address: U64)

  function CheckedAdd(base: U64, addend: U64): Option<U64> {
    if base + addend < TWO_64 then Some(base + addend) else None
  }

  /** The starts listed from `c` on, when the last function seen began at `offset`. */
  function StartsFrom(base: U64, bytes: seq<Byte>, c: nat, offset: U64): Result<seq<Start>, Malformed>
    decreases |bytes| - c
  {
    if c >= |bytes| then Success([])
    else
      match Read(bytes, c)
      case Failure(e) => Failure(e)
      case Success((delta, next)) =>
        if delta == 0 then Success([])
        else if offset + delta >= TWO_64 || CheckedAdd(base, offset + delta).None? then Failure(Overflow)
        else
          Then([Start(offset + delta, base + offset + delta)], StartsFrom(base, bytes, next, offset + delta))
  }

  method DecodeFunctionStarts(base: U64, bytes: seq<Byte>) returns (r: Result<seq<Start>, Malformed>)
    ensures r == StartsFrom(base, bytes, 0, 0)
  {
    hide Read;
    var starts := [];
    var offset: U64 := 0;
    var cursor := 0;
    ThenMore([], [], StartsFrom(base, bytes, 0, 0));
    while cursor < |bytes|
      invariant StartsFrom(base, bytes, 0, 0) == Then(starts, StartsFrom(base, bytes, cursor, offset))
      decreases |bytes| - cursor
    {
      var delta, next := ReadUleb128(bytes, cursor);
      if delta.Failure? {
        return Failure(delta.error);
      }
      if delta.value == 0 {
        break;
      }
      if offset + delta.value >= TWO_64 {
        return Failure(Overflow);
      }
      var sum: U64 := offset + delta.value;
      var address := CheckedAdd(base, sum);
      if address.None? {
        return Failure(Overflow);
      }
      ThenMore(starts, [Start(sum, address.value)], StartsFrom(base, bytes, next, sum));
      starts := starts + [Start(sum, address.value)];
      offset := sum;
      cursor := next;
    }
    assert starts + [] == starts;
    return Success(starts);
  }

  predicate Increasing(offsets: seq<U64>, above: U64) {
    offsets == [] || (above < offsets[0] && Increasing(offsets[1..], offsets[0]))
  }

  function Deltas(offsets: seq<U64>, above: U64): seq<Byte>
    requires Increasing(offsets, above)
  {
    if offsets == [] then [] else Encode(offsets[0] - above) + Deltas(offsets[1..], offsets[0])
  }

  predicate Fits(base: U64, offsets: seq<U64>) {
    forall i | 0 <= i < |offsets| :: base + offsets[i] < TWO_64
  }

  function StartsAt(base: U64, offsets: seq<U64>): seq<Start>
    requires Fits(base, offsets)
  {
    if offsets == [] then [] else [Start(offsets[0], base + offsets[0])] + StartsAt(base, offsets[1..])
  }

  /** One delta more, when what follows decodes to `rest`. */
  lemma StartsFromDelta(base: U64, before: seq<Byte>, first: U64, above: U64, tail: seq<Byte>, rest: seq<Start>)
    requires above < first && base + first < TWO_64
    requires StartsFrom(base, before + Encode(first - above) + tail, |before| + |Encode(first - above)|, first) == Success(rest)
    ensures StartsFrom(base, before + Encode(first - above) + tail, |before|, above)
         == Success([Start(first, base + first)] + rest)
  {
    hide Read, Encode;
    ReadInvertsEncode(before, first - above, tail);
  }

  lemma {:induction false} DecodeInvertsFrom(base: U64, before: seq<Byte>, offsets: seq<U64>, above: U64, padding: seq<Byte>)
    requires Increasing(offsets, above) && Fits(base, offsets)
    ensures StartsFrom(base, before + Deltas(offsets, above) + [0] + padding, |before|, above)
         == Success(StartsAt(base, offsets))
    decreases |offsets|
  {
    hide StartsFrom, Deltas, Encode;
    if offsets == [] {
      ZeroEnds(base, before, above, padding);
    } else {
      var (rest, first) := (offsets[1..], Encode(offsets[0] - above));
      var listed := Deltas(rest, offsets[0]);
      assert base + offsets[0] < TWO_64;
      assert Deltas(offsets, above) == first + listed by { DeltasStep(offsets, above); }
      DecodeInvertsFrom(base, before + first, rest, offsets[0], padding);
      Regroup(before, first, listed, padding);
      assert |before + first| == |before| + |first|;
      StartsFromDelta(base, before, offsets[0], above, listed + [0] + padding, StartsAt(base, rest));
    }
  }

  lemma ZeroEnds(base: U64, before: seq<Byte>, above: U64, padding: seq<Byte>)
    ensures StartsFrom(base, before + Deltas([], above) + [0] + padding, |before|, above) == Success(StartsAt(base, []))
  {
    var bytes := before + Deltas([], above) + [0] + padding;
    assert bytes[|before|] == 0;
    assert Read(bytes, |before|).value.0 == 0;
  }

  lemma DeltasStep(offsets: seq<U64>, above: U64)
    requires offsets != [] && Increasing(offsets, above)
    ensures Deltas(offsets, above) == Encode(offsets[0] - above) + Deltas(offsets[1..], offsets[0])
  {
  }

  lemma Regroup(before: seq<Byte>, first: seq<Byte>, listed: seq<Byte>, padding: seq<Byte>)
    ensures before + (first + listed) + [0] + padding == before + first + (listed + [0] + padding)
    ensures before + (first + listed) + [0] + padding == (before + first) + listed + [0] + padding
  {
  }

  /**
   Any strictly increasing list of positive offsets that fits the address space, delta-encoded and ended by a zero,
   is decoded exactly, whatever padding follows.
   */
  lemma DecodeInvertsEncode(base: U64, offsets: seq<U64>, padding: seq<Byte>)
    requires Increasing(offsets, 0) && Fits(base, offsets)
    ensures StartsFrom(base, Deltas(offsets, 0) + [0] + padding, 0, 0) == Success(StartsAt(base, offsets))
  {
    DecodeInvertsFrom(base, [], offsets, 0, padding);
    assert [] + Deltas(offsets, 0) + [0] + padding == Deltas(offsets, 0) + [0] + padding;
  }

  /** Every accepted table is strictly increasing, each address being the base plus the offset. */
  lemma {:induction false} AcceptedIsIncreasing(base: U64, bytes: seq<Byte>, c: nat, offset: U64)
    requires StartsFrom(base, bytes, c, offset).Success?
    ensures var starts := StartsFrom(base, bytes, c, offset).value;
            && (forall i | 0 <= i < |starts| :: offset < starts[i].offset && starts[i].address == base + starts[i].offset)
            && (forall i, j | 0 <= i < j < |starts| :: starts[i].offset < starts[j].offset)
    decreases |bytes| - c
  {
    if c < |bytes| && Read(bytes, c).Success? && Read(bytes, c).value.0 != 0 {
      var (delta, next) := Read(bytes, c).value;
      AcceptedIsIncreasing(base, bytes, next, offset + delta);
    }
  }

  // ---- which tables are accepted -------------------------------------------------------------------------

  /** The offset of the last of the first `i` starts. */
  function OffsetBefore(starts: seq<Start>, above: U64, i: nat): U64
    requires i <= |starts|
  {
    if i == 0 then above else starts[i - 1].offset
  }

  function LastOffset(starts: seq<Start>, above: U64): U64 {
    OffsetBefore(starts, above, |starts|)
  }

  /** The delta from `last` to this start is written at `c` and ends before `next`; the address fits. */
  predicate OneWritten(base: U64, bytes: seq<Byte>, last: U64, start: Start, c: nat, next: nat) {
    && c < |bytes|
    && last < start.offset && start.address == base + start.offset
    && Read(bytes, c) == Success((start.offset - last, next))
  }

  /** `starts` are written as deltas one after the other, the i-th from `cursors[i]` on. */
  predicate Written(base: U64, bytes: seq<Byte>, above: U64, starts: seq<Start>, cursors: seq<nat>) {
    && |cursors| == |starts| + 1
    && forall i | 0 <= i < |starts| ::
         OneWritten(base, bytes, OffsetBefore(starts, above, i), starts[i], cursors[i], cursors[i + 1])
  }

  /** A table ends with its bytes or with a zero. */
  predicate EndsAt(bytes: seq<Byte>, c: nat) {
    c >= |bytes| || (Read(bytes, c).Success? && Read(bytes, c).value.0 == 0)
  }

  /** What makes a table unreadable at `c`: a number that cannot be read, or a function outside the address space. */
  predicate BreaksAt(base: U64, bytes: seq<Byte>, c: nat, above: U64, e: Malformed) {
    && c < |bytes|
    && match Read(bytes, c)
       case Failure(error) => e == error
       case Success((delta, _)) => delta != 0 && base + above + delta >= TWO_64 && e == Overflow
  }

  lemma WrittenOneMore(base: U64, bytes: seq<Byte>, c: nat, above: U64, starts: seq<Start>, cursors: seq<nat>)
    requires starts != [] && cursors != [] && OneWritten(base, bytes, above, starts[0], c, cursors[0])
    requires Written(base, bytes, starts[0].offset, starts[1..], cursors)
    ensures Written(base, bytes, above, starts, [c] + cursors)
    ensures LastOffset(starts, above) == LastOffset(starts[1..], starts[0].offset)
    ensures ([c] + cursors)[|starts|] == cursors[|starts| - 1]
  {
    hide OneWritten;
    var (rest, all) := (starts[1..], [c] + cursors);
    forall i | 0 <= i < |starts|
      ensures OneWritten(base, bytes, OffsetBefore(starts, above, i), starts[i], all[i], all[i + 1])
    {
      if i > 0 {
        assert OneWritten(base, bytes, OffsetBefore(rest, starts[0].offset, i - 1), rest[i - 1], cursors[i - 1], cursors[i]);
      }
    }
  }

  lemma WrittenRest(base: U64, bytes: seq<Byte>, above: U64, starts: seq<Start>, cursors: seq<nat>)
    requires starts != [] && Written(base, bytes, above, starts, cursors)
    ensures OneWritten(base, bytes, above, starts[0], cursors[0], cursors[1])
    ensures Written(base, bytes, starts[0].offset, starts[1..], cursors[1..])
    ensures LastOffset(starts, above) == LastOffset(starts[1..], starts[0].offset)
  {
    hide OneWritten;
    var (rest, more) := (starts[1..], cursors[1..]);
    assert OneWritten(base, bytes, OffsetBefore(starts, above, 0), starts[0], cursors[0], cursors[1]);
    forall i | 0 <= i < |rest|
      ensures OneWritten(base, bytes, OffsetBefore(rest, starts[0].offset, i), rest[i], more[i], more[i + 1])
    {
      assert OneWritten(base, bytes, OffsetBefore(starts, above, i + 1), starts[i + 1], cursors[i + 1], cursors[i + 2]);
    }
  }

  /** How decoding goes on from `c`, said without the decoder: the starts written there, and what stands after them. */
  lemma {:induction false} Outcome(base: U64, bytes: seq<Byte>, c: nat, above: U64) returns (starts: seq<Start>, cursors: seq<nat>)
    ensures Written(base, bytes, above, starts, cursors) && cursors[0] == c
    ensures match StartsFrom(base, bytes, c, above)
            case Success(all) => all == starts && EndsAt(bytes, cursors[|starts|])
            case Failure(e) => BreaksAt(base, bytes, cursors[|starts|], LastOffset(starts, above), e)
    decreases |bytes| - c
  {
    hide Read, Written;
    if c < |bytes| && Read(bytes, c).Success? && Read(bytes, c).value.0 != 0 && base + above + Read(bytes, c).value.0 < TWO_64 {
      var (delta, next) := Read(bytes, c).value;
      var first := Start(above + delta, base + above + delta);
      var rest, more := Outcome(base, bytes, next, above + delta);
      starts, cursors := [first] + rest, [c] + more;
      assert starts[1..] == rest;
      CursorsNotEmpty(base, bytes, above + delta, rest, more);
      WrittenOneMore(base, bytes, c, above, starts, more);
    } else {
      starts, cursors := [], [c];
      NothingWritten(base, bytes, above, c);
    }
  }

  lemma CursorsNotEmpty(base: U64, bytes: seq<Byte>, above: U64, starts: seq<Start>, cursors: seq<nat>)
    requires Written(base, bytes, above, starts, cursors)
    ensures |cursors| == |starts| + 1
  {
  }

  lemma NothingWritten(base: U64, bytes: seq<Byte>, above: U64, c: nat)
    ensures Written(base, bytes, above, [], [c])
  {
  }

  /** Deltas written in full and then an end or a break: that alone decides what decoding gives. */
  lemma {:induction false} WrittenDecides(base: U64, bytes: seq<Byte>, above: U64, starts: seq<Start>, cursors: seq<nat>)
    requires Written(base, bytes, above, starts, cursors)
    ensures EndsAt(bytes, cursors[|starts|]) ==> StartsFrom(base, bytes, cursors[0], above) == Success(starts)
    ensures forall e | BreaksAt(base, bytes, cursors[|starts|], LastOffset(starts, above), e) ::
              StartsFrom(base, bytes, cursors[0], above) == Failure(e)
    decreases |starts|
  {
    hide Read;
    if starts != [] {
      WrittenRest(base, bytes, above, starts, cursors);
      WrittenDecides(base, bytes, starts[0].offset, starts[1..], cursors[1..]);
      assert starts == [starts[0]] + starts[1..];
    }
  }

  /** Exactly these tables are accepted, and exactly these are refused for reason `e`. */
  lemma AcceptedExactly(base: U64, bytes: seq<Byte>, starts: seq<Start>, e: Malformed)
    ensures StartsFrom(base, bytes, 0, 0) == Success(starts) <==>
              exists cursors :: Written(base, bytes, 0, starts, cursors) && cursors[0] == 0 && EndsAt(bytes, cursors[|starts|])
    ensures StartsFrom(base, bytes, 0, 0) == Failure(e) <==>
              exists some, cursors ::
                && Written(base, bytes, 0, some, cursors) && cursors[0] == 0
                && BreaksAt(base, bytes, cursors[|some|], LastOffset(some, 0), e)
  {
    hide Read, StartsFrom, EndsAt, BreaksAt;
    var found, at := Outcome(base, bytes, 0, 0);
    forall cursors | Written(base, bytes, 0, starts, cursors) && cursors[0] == 0 && EndsAt(bytes, cursors[|starts|])
      ensures StartsFrom(base, bytes, 0, 0) == Success(starts)
    {
      WrittenDecides(base, bytes, 0, starts, cursors);
    }
    forall some, cursors | Written(base, bytes, 0, some, cursors) && cursors[0] == 0
                           && BreaksAt(base, bytes, cursors[|some|], LastOffset(some, 0), e)
      ensures StartsFrom(base, bytes, 0, 0) == Failure(e)
    {
      WrittenDecides(base, bytes, 0, some, cursors);
    }
  }
}
