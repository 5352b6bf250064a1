/** The controller's HTTP/1.1 request reader, over a buffered connection that may split the bytes anywhere. */
module HttpRequest {
  import opened Layout
  import opened Wrappers

  const MAX_REQUEST_LINE_LEN := 8 * 1024
  const MAX_HEADERS_LEN := 16 * 1024
  const MAX_BODY_LEN := 4 * 1024 * 1024

  const CR: Byte := 13
  const LF: Byte := 10
  const SP: Byte := 32
  const TAB: Byte := 9
  const COLON: Byte := 58

  /** How the connection behaves once its bytes are used up. */
  datatype Ending = Eof | ReadError(timedOut: bool)

  datatype RequestFailure =
    | RequestLineTooLong | HeadersTooLarge | IncompleteLine | InvalidLineEnding
    | RequestTimeout | RequestIoError
    | EmptyRequest | InvalidRequestLine | InvalidMethod | UnsupportedVersion | InvalidRequestTarget
    | IncompleteHeaders | InvalidHeader | InvalidHeaderName | InvalidHeaderValue
    | DuplicateContentLength | InvalidContentLength | BodyTooLarge
    | DuplicateHost | InvalidHost | MissingHost
    | AmbiguousBodyLength | UnsupportedTransferEncoding | ContentLengthRequired | ContentLengthMismatch

  function FromReadError(timedOut: bool): RequestFailure {
    if timedOut then RequestTimeout else RequestIoError
  }

  // ---- the connection ------------------------------------------------------------------------------------

  function Flatten(chunks: seq<Bytes>): Bytes {
    if chunks == [] then [] else chunks[0] + Flatten(chunks[1..])
  }

  /** `chunks` are the buffers that successive `fill_buf` calls will show; none of them is empty. */
  class Connection {
    var chunks: seq<Bytes>
    const ending: Ending

    ghost predicate Valid()
      reads this
    {
      forall i | 0 <= i < |chunks| :: chunks[i] != []
    }

    function Rest(): Bytes
      reads this
    {
      Flatten(chunks)
    }

    constructor (chunks: seq<Bytes>, ending: Ending)
      requires forall i | 0 <= i < |chunks| :: chunks[i] != []
      ensures Valid() && Rest() == Flatten(chunks) && this.ending == ending
    {
      this.chunks, this.ending := chunks, ending;
    }

    method FillBuf() returns (available: Bytes)
      requires Valid()
      ensures available <= Rest()
      ensures available == [] <==> chunks == []
      ensures available == [] ==> Rest() == []
      ensures chunks != [] ==> available == chunks[0]
    {
      available := if chunks == [] then [] else chunks[0];
    }

    method Consume(n: nat)
      requires Valid() && chunks != [] && n <= |chunks[0]|
      modifies this`chunks
      ensures Valid() && Rest() == old(Rest())[n..]
    {
      var left := chunks[0][n..];
      assert Rest()[n..] == left + Flatten(chunks[1..]);
      if left == [] {
        chunks := chunks[1..];
        assert left + Flatten(chunks) == Flatten(chunks);
      } else {
        chunks := [left] + chunks[1..];
      }
    }
  }

  // ---- one line ------------------------------------------------------------------------------------------

  datatype Line = NoLine | Line(text: Bytes) | BadLine(failure: RequestFailure)

  function FirstLf(s: Bytes): (p: Option<nat>)
    ensures p.Some? ==> p.value < |s| && s[p.value] == LF && forall i | 0 <= i < p.value :: s[i] != LF
    ensures p.None? ==> forall i | 0 <= i < |s| :: s[i] != LF
  {
    if s == [] then None
    else if s[0] == LF then Some(0)
    else match FirstLf(s[1..]) case Some(i) => Some(i + 1) case None => None
  }

  /** The line that a complete run of bytes up to and including its LF stands for. */
  function Ended(s: Bytes): Line
    requires s != []
  {
    if |s| >= 2 && s[|s| - 2] == CR && s[|s| - 1] == LF then Line(s[..|s| - 2]) else BadLine(InvalidLineEnding)
  }

  /** What reading one line from `s` yields and how many bytes that takes, with no mention of buffers. */
  function LineAt(s: Bytes, ending: Ending, limit: nat, tooLong: RequestFailure): (r: (Line, nat))
    ensures r.1 <= |s| && r.1 <= limit + 1
    ensures r.0.Line? ==> 2 <= r.1 == |r.0.text| + 2
  {
    match FirstLf(s)
    case Some(p) =>
      if p < limit then (Ended(s[..p + 1]), p + 1) else (BadLine(tooLong), limit + 1)
    case None =>
      if |s| > limit then (BadLine(tooLong), limit + 1)
      else if ending.ReadError? then (BadLine(FromReadError(ending.timedOut)), |s|)
      else if s == [] then (NoLine, 0)
      else (BadLine(IncompleteLine), |s|)
  }

  /** A prefix without LF and its remainder: the first LF is the remainder's, further on. */
  lemma {:induction false} FirstLfAfter(a: Bytes, b: Bytes)
    requires forall i | 0 <= i < |a| :: a[i] != LF
    ensures FirstLf(a + b) == match FirstLf(b) case Some(p) => Some(|a| + p) case None => None
  {
    if a == [] {
      assert a + b == b;
    } else {
      assert (a + b)[1..] == a[1..] + b;
      FirstLfAfter(a[1..], b);
    }
  }

  lemma FirstLfWithin(a: Bytes, b: Bytes)
    requires FirstLf(a).Some?
    ensures FirstLf(a + b) == FirstLf(a)
  {
    var p := FirstLf(a).value;
    assert (a + b)[p] == LF;
    assert forall i | 0 <= i < p :: (a + b)[i] == a[i];
  }

  /** Where the line that continues `line` ends, as far as one buffer can tell. */
  lemma LfInBuffer(line: Bytes, available: Bytes, more: Bytes)
    requires FirstLf(line) == None
    ensures FirstLf(available).Some? ==> FirstLf(line + available + more) == Some(|line| + FirstLf(available).value)
    ensures FirstLf(available).None? ==>
              && FirstLf(line + available) == None
              && (FirstLf(line + available + more).Some? ==> |line + available| <= FirstLf(line + available + more).value)
  {
    hide FirstLf;
    assert line + available + more == line + (available + more);
    FirstLfAfter(line, available + more);
    FirstLfAfter(line, available);
    if FirstLf(available).Some? {
      FirstLfWithin(available, more);
    } else {
      FirstLfAfter(line + available, more);
    }
  }

  lemma LineTooLong(all: Bytes, n: nat, available: Bytes, ending: Ending, limit: nat, tooLong: RequestFailure)
    requires n <= |all| && available <= all[n..] && FirstLf(all[..n]) == None
    requires n + (if FirstLf(available).Some? then FirstLf(available).value + 1 else |available|) > limit
    ensures LineAt(all, ending, limit, tooLong) == (BadLine(tooLong), limit + 1)
  {
    hide FirstLf, Ended;
    var more := all[n + |available|..];
    assert all == all[..n] + available + more;
    LfInBuffer(all[..n], available, more);
  }

  lemma LineEnds(all: Bytes, n: nat, available: Bytes, ending: Ending, limit: nat, tooLong: RequestFailure)
    requires n <= |all| && available <= all[n..] && FirstLf(all[..n]) == None
    requires FirstLf(available).Some? && n + FirstLf(available).value + 1 <= limit
    ensures var end := n + FirstLf(available).value + 1;
            LineAt(all, ending, limit, tooLong) == (Ended(all[..end]), end)
  {
    hide FirstLf, Ended;
    var more := all[n + |available|..];
    assert all == all[..n] + available + more;
    LfInBuffer(all[..n], available, more);
  }

  lemma LineGoesOn(all: Bytes, n: nat, available: Bytes)
    requires n <= |all| && available <= all[n..] && FirstLf(all[..n]) == None && FirstLf(available) == None
    ensures FirstLf(all[..n + |available|]) == None
  {
    hide FirstLf;
    assert all[..n + |available|] == all[..n] + available;
    FirstLfAfter(all[..n], available);
  }

  lemma Slices(all: Bytes, n: nat, available: Bytes, taken: nat)
    requires n <= |all| && available <= all[n..] && taken <= |available|
    ensures all[..n] + available[..taken] == all[..n + taken]
    ensures all[n..][taken..] == all[n + taken..]
  {
  }

  method Position(s: Bytes) returns (p: Option<nat>)
    ensures p == FirstLf(s)
  {
    var i := 0;
    while i < |s| && s[i] != LF
      invariant 0 <= i <= |s| && forall j | 0 <= j < i :: s[j] != LF
    {
      i := i + 1;
    }
    return if i < |s| then Some(i) else None;
  }

  method ReadCrlfLine(reader: Connection, limit: nat, tooLong: RequestFailure) returns (r: Line)
    requires reader.Valid()
    modifies reader`chunks
    ensures reader.Valid()
    ensures var (line, consumed) := LineAt(old(reader.Rest()), reader.ending, limit, tooLong);
            r == line && reader.Rest() == old(reader.Rest())[consumed..]
  {
    hide LineAt, FirstLf, Flatten, Ended;
    ghost var all := reader.Rest();
    var line: Bytes := [];
    EmptyHasNoLf();
    assert all[..0] == [] && all[0..] == all;
    while true
      invariant reader.Valid() && |line| <= limit && |line| <= |all|
      invariant line == all[..|line|] && reader.Rest() == all[|line|..] && FirstLf(line) == None
      decreases |all| - |line|
    {
      var available := reader.FillBuf();
      if available == [] {
        assert line == all;
        OutOfBytes(all, reader.ending, limit, tooLong);
        if reader.ending.ReadError? {
          return BadLine(FromReadError(reader.ending.timedOut));
        }
        return if line == [] then NoLine else BadLine(IncompleteLine);
      }
      var newline := Position(available);
      var take := if newline.Some? then newline.value + 1 else |available|;
      var remaining := limit - |line|;
      var consumed := if take < remaining + 1 then take else remaining + 1;
      ghost var n := |line|;
      Slices(all, n, available, consumed);
      line := line + available[..consumed];
      reader.Consume(consumed);
      if |line| > limit {
        LineTooLong(all, n, available, reader.ending, limit, tooLong);
        return BadLine(tooLong);
      }
      if newline.Some? && consumed == take {
        LineEnds(all, n, available, reader.ending, limit, tooLong);
        break;
      }
      LineGoesOn(all, n, available);
    }
    r := StripCrlf(line);
  }

  method StripCrlf(line: Bytes) returns (r: Line)
    requires line != []
    ensures r == Ended(line)
  {
    if |line| >= 2 && line[|line| - 2] == CR && line[|line| - 1] == LF {
      return Line(line[..|line| - 2]);
    }
    r := BadLine(InvalidLineEnding);
  }

  lemma EmptyHasNoLf()
    ensures FirstLf([]) == None
  {
  }

  lemma OutOfBytes(s: Bytes, ending: Ending, limit: nat, tooLong: RequestFailure)
    requires |s| <= limit && FirstLf(s) == None
    ensures LineAt(s, ending, limit, tooLong)
         == (if ending.ReadError? then BadLine(FromReadError(ending.timedOut))
             else if s == [] then NoLine else BadLine(IncompleteLine), |s|)
  {
  }

  // ---- the parts of a request ----------------------------------------------------------------------------

  function Ascii(s: string): Bytes {
    if s == [] then [] else [if s[0] < '\U{80}' then s[0] as int else 0] + Ascii(s[1..])
  }

  predicate IsAscii(s: Bytes) {
    forall i | 0 <= i < |s| :: s[i] < 128
  }

  /** Letters, digits, and ! # $ % & ' * + - . ^ _ ` | ~ */
  predicate IsTokenByte(b: Byte) {
    || 48 <= b <= 57 || 65 <= b <= 90 || 97 <= b <= 122
    || b == 33 || 35 <= b <= 39 || b == 42 || b == 43 || b == 45 || b == 46
    || b == 94 || b == 95 || b == 96 || b == 124 || b == 126
  }

  predicate IsToken(s: Bytes) {
    s != [] && forall i | 0 <= i < |s| :: IsTokenByte(s[i])
  }

  function Lower(s: Bytes): Bytes {
    if s == [] then [] else [if 65 <= s[0] <= 90 then s[0] + 32 else s[0]] + Lower(s[1..])
  }

  function Split(s: Bytes, separator: Byte): (parts: seq<Bytes>)
    ensures parts != []
  {
    if s == [] then [[]]
    else
      var rest := Split(s[1..], separator);
      if s[0] == separator then [[]] + rest else [[s[0]] + rest[0]] + rest[1..]
  }

  function RequestLine(line: Bytes): Result<(Bytes, Bytes), RequestFailure> {
    var parts := Split(line, SP);
    if !IsAscii(line) || |parts| != 3 || [] in parts then Failure(InvalidRequestLine)
    else if !IsToken(parts[0]) then Failure(InvalidMethod)
    else if parts[2] != Ascii("HTTP/1.1") then Failure(UnsupportedVersion)
    else if parts[1][0] != 47 || 35 in parts[1] then Failure(InvalidRequestTarget)
    else Success((parts[0], parts[1]))
  }

  predicate IsBlank(b: Byte) {
    b == SP || b == TAB
  }

  function TrimLeft(s: Bytes): Bytes {
    if s != [] && IsBlank(s[0]) then TrimLeft(s[1..]) else s
  }

  function TrimRight(s: Bytes): Bytes {
    if s != [] && IsBlank(s[|s| - 1]) then TrimRight(s[..|s| - 1]) else s
  }

  predicate Blank(s: Bytes) {
    forall i | 0 <= i < |s| :: IsBlank(s[i])
  }

  predicate Trimmed(s: Bytes) {
    s == [] || (!IsBlank(s[0]) && !IsBlank(s[|s| - 1]))
  }

  /** `raw` is `value` with nothing but blanks around it. */
  ghost predicate TrimsTo(raw: Bytes, value: Bytes) {
    Trimmed(value) && exists i, j :: Inside(raw, i, j, value)
  }

  predicate Inside(raw: Bytes, i: nat, j: nat, value: Bytes) {
    i <= j <= |raw| && raw[i..j] == value && Blank(raw[..i]) && Blank(raw[j..])
  }

  lemma {:induction false} TrimLeftIs(s: Bytes)
    ensures |TrimLeft(s)| <= |s| && TrimLeft(s) == s[|s| - |TrimLeft(s)|..] && Blank(s[..|s| - |TrimLeft(s)|])
    ensures TrimLeft(s) == [] || !IsBlank(TrimLeft(s)[0])
  {
    if s != [] && IsBlank(s[0]) {
      TrimLeftIs(s[1..]);
      var n := |s| - |TrimLeft(s)|;
      assert forall i | 0 < i < n :: s[i] == s[1..][..n - 1][i - 1];
    }
  }

  lemma {:induction false} TrimRightIs(s: Bytes)
    ensures |TrimRight(s)| <= |s| && TrimRight(s) == s[..|TrimRight(s)|] && Blank(s[|TrimRight(s)|..])
    ensures TrimRight(s) == [] || !IsBlank(TrimRight(s)[|TrimRight(s)| - 1])
  {
    if s != [] && IsBlank(s[|s| - 1]) {
      TrimRightIs(s[..|s| - 1]);
      var n := |TrimRight(s)|;
      assert forall i | n <= i < |s| - 1 :: s[i] == s[..|s| - 1][n..][i - n];
    }
  }

  lemma TrimmingTrims(raw: Bytes)
    ensures TrimsTo(raw, TrimRight(TrimLeft(raw)))
  {
    hide TrimLeft, TrimRight;
    TrimLeftIs(raw);
    var left := TrimLeft(raw);
    TrimRightIs(left);
    var value := TrimRight(left);
    var i := |raw| - |left|;
    var j := i + |value|;
    assert raw[j..] == left[|value|..];
    assert Inside(raw, i, j, value);
    if value != [] { assert value[0] == left[0]; }
  }

  method TrimHeaderValue(raw: Bytes) returns (value: Bytes)
    ensures value == TrimRight(TrimLeft(raw))
    ensures TrimsTo(raw, value)
  {
    value := raw;
    while value != [] && IsBlank(value[0])
      invariant TrimLeft(value) == TrimLeft(raw)
    {
      value := value[1..];
    }
    while value != [] && IsBlank(value[|value| - 1])
      invariant TrimRight(value) == TrimRight(TrimLeft(raw))
    {
      value := value[..|value| - 1];
    }
    TrimmingTrims(raw);
  }

  function Colon(s: Bytes): (p: Option<nat>)
    ensures p.Some? ==> p.value < |s| && s[p.value] == COLON && COLON !in s[..p.value]
    ensures p.None? ==> COLON !in s
  {
    if s == [] then None
    else if s[0] == COLON then Some(0)
    else match Colon(s[1..])
      case Some(i) => assert s[..i + 1] == [s[0]] + s[1..][..i]; Some(i + 1)
      case None => None
  }

  predicate HasControl(value: Bytes) {
    exists i | 0 <= i < |value| :: (value[i] < SP && value[i] != TAB) || value[i] == 127
  }

  function HeaderLine(line: Bytes): Result<(Bytes, Bytes), RequestFailure> {
    if !IsAscii(line) || Colon(line).None? then Failure(InvalidHeader)
    else
      var (name, value) := (line[..Colon(line).value], TrimRight(TrimLeft(line[Colon(line).value + 1..])));
      if !IsToken(name) then Failure(InvalidHeaderName)
      else if HasControl(value) then Failure(InvalidHeaderValue)
      else Success((name, value))
  }

  predicate AllDigits(s: Bytes) {
    forall i | 0 <= i < |s| :: 48 <= s[i] <= 57
  }

  function Decimal(s: Bytes): nat
    requires AllDigits(s)
  {
    if s == [] then 0 else 10 * Decimal(s[..|s| - 1]) + (s[|s| - 1] - 48)
  }

  /** What the header lines read so far have declared. */
  datatype Head = Head(contentLength: Option<nat>, transferEncoding: bool, hostSeen: bool, size: nat)

  const NO_HEADERS := Head(None, false, false, 0)

  function WithHeader(h: Head, name: Bytes, value: Bytes): Result<Head, RequestFailure> {
    var key := Lower(name);
    if key == Ascii("content-length") then
      if h.contentLength.Some? then Failure(DuplicateContentLength)
      else if value == [] || !AllDigits(value) || Decimal(value) >= TWO_64 then Failure(InvalidContentLength)
      else if Decimal(value) > MAX_BODY_LEN then Failure(BodyTooLarge)
      else Success(h.(contentLength := Some(Decimal(value))))
    else if key == Ascii("transfer-encoding") then Success(h.(transferEncoding := true))
    else if key == Ascii("host") then
      if h.hostSeen then Failure(DuplicateHost)
      else if value == [] then Failure(InvalidHost)
      else Success(h.(hostSeen := true))
    else Success(h)
  }

  /** What one line does to the head, and whether it is the empty line that ends it. */
  function AfterLine(h: Head, line: Bytes): Result<(Head, bool), RequestFailure> {
    var counted := h.(size := h.size + |line| + 2);
    if counted.size > MAX_HEADERS_LEN then Failure(HeadersTooLarge)
    else if line == [] then Success((counted, true))
    else
      match HeaderLine(line)
      case Failure(e) => Failure(e)
      case Success((name, value)) =>
        match WithHeader(counted, name, value)
        case Failure(e) => Failure(e)
        case Success(next) => Success((next, false))
  }

  /** The header lines from position `c` on, and the position after the empty line. */
  function HeadAt(s: Bytes, ending: Ending, c: nat, h: Head): (r: (Result<Head, RequestFailure>, nat))
    requires c <= |s|
    ensures c <= r.1 <= |s|
    decreases |s| - c
  {
    var (line, n) := LineAt(s[c..], ending, MAX_HEADERS_LEN, HeadersTooLarge);
    match line
    case BadLine(e) => (Failure(e), c + n)
    case NoLine => (Failure(IncompleteHeaders), c + n)
    case Line(text) =>
      match AfterLine(h, text)
      case Failure(e) => (Failure(e), c + n)
      case Success((next, done)) => if done then (Success(next), c + n) else HeadAt(s, ending, c + n, next)
  }

  function Verdict(method': Bytes, h: Head): Result<nat, RequestFailure> {
    if !h.hostSeen then Failure(MissingHost)
    else if h.transferEncoding && h.contentLength.Some? then Failure(AmbiguousBodyLength)
    else if h.transferEncoding then Failure(UnsupportedTransferEncoding)
    else if method' == Ascii("POST") && h.contentLength.None? then Failure(ContentLengthRequired)
    else Success(if h.contentLength.Some? then h.contentLength.value else 0)
  }

  datatype Request = Request(verb: Bytes, target: Bytes, body: Bytes)

  function BodyAt(s: Bytes, ending: Ending, c: nat, length: nat): (r: (Result<Bytes, RequestFailure>, nat))
    requires c <= |s|
    ensures c <= r.1 <= |s|
  {
    if length <= |s| - c then (Success(s[c..c + length]), c + length)
    else (Failure(if ending.Eof? then ContentLengthMismatch else FromReadError(ending.timedOut)), |s|)
  }

  /** What reading a request from `s` yields and how many bytes it takes, with no mention of buffers. */
  function RequestAt(s: Bytes, ending: Ending): (r: (Result<Request, RequestFailure>, nat))
    ensures r.1 <= |s|
  {
    var (first, n) := LineAt(s, ending, MAX_REQUEST_LINE_LEN, RequestLineTooLong);
    match first
    case BadLine(e) => (Failure(e), n)
    case NoLine => (Failure(EmptyRequest), n)
    case Line(text) =>
      match RequestLine(text)
      case Failure(e) => (Failure(e), n)
      case Success((verb, target)) =>
        var (head, c) := HeadAt(s, ending, n, NO_HEADERS);
        match head
        case Failure(e) => (Failure(e), c)
        case Success(h) =>
          match Verdict(verb, h)
          case Failure(e) => (Failure(e), c)
          case Success(length) =>
            var (body, end) := BodyAt(s, ending, c, length);
            match body
            case Failure(e) => (Failure(e), end)
            case Success(bytes) => (Success(Request(verb, target, bytes)), end)
  }

  // ---- reading a request ---------------------------------------------------------------------------------

  /** The line is ASCII and `k` is its first colon. */
  predicate ColonAt(line: Bytes, k: nat) {
    IsAscii(line) && k < |line| && line[k] == COLON && COLON !in line[..k]
  }

  /**
   A header line splits at its first colon into a name and a value with the blanks around it gone; what keeps a line
   from being accepted is, in this order, no colon or a byte beyond ASCII, a name that is no token, a control byte.
   */
  method ParseHeaderLine(line: Bytes) returns (r: Result<(Bytes, Bytes), RequestFailure>)
    ensures r == HeaderLine(line)
    ensures r.Success? ==>
              var (name, value) := r.value;
              && ColonAt(line, |name|) && line[..|name|] == name && IsToken(name)
              && TrimsTo(line[|name| + 1..], value) && !HasControl(value)
    ensures r == Failure(InvalidHeader) <==> !IsAscii(line) || COLON !in line
    ensures forall k: nat | ColonAt(line, k) ::
              && (r == Failure(InvalidHeaderName) <==> !IsToken(line[..k]))
              && (r == Failure(InvalidHeaderValue) <==>
                    IsToken(line[..k]) && forall value | TrimsTo(line[k + 1..], value) :: HasControl(value))
    ensures r.Failure? ==> r.error in {InvalidHeader, InvalidHeaderName, InvalidHeaderValue}
  {
    hide Colon, TrimLeft, TrimRight, IsToken, HasControl, TrimsTo;
    if !IsAscii(line) || Colon(line).None? {
      return Failure(InvalidHeader);
    }
    var separator := Colon(line).value;
    FirstColonIsOne(line, separator);
    assert line[separator] in line;
    if !IsToken(line[..separator]) {
      return Failure(InvalidHeaderName);
    }
    var value := TrimHeaderValue(line[separator + 1..]);
    TrimIsOne(line[separator + 1..], value);
    if HasControl(value) {
      return Failure(InvalidHeaderValue);
    }
    r := Success((line[..separator], value));
  }

  lemma FirstColonIsOne(line: Bytes, k: nat)
    requires ColonAt(line, k)
    ensures forall other: nat | ColonAt(line, other) :: other == k
  {
    NoneBefore(line, k);
    forall other: nat | ColonAt(line, other)
      ensures other == k
    {
      NoneBefore(line, other);
    }
  }

  lemma NoneBefore(line: Bytes, k: nat)
    requires k <= |line| && COLON !in line[..k]
    ensures forall i | 0 <= i < k :: line[i] != COLON
  {
    assert forall i | 0 <= i < k :: line[i] == line[..k][i];
  }

  lemma TrimIsOne(raw: Bytes, value: Bytes)
    requires TrimsTo(raw, value)
    ensures forall other | TrimsTo(raw, other) :: other == value
  {
    forall other | TrimsTo(raw, other)
      ensures other == value
    {
      var i, j :| Inside(raw, i, j, value);
      var k, l :| Inside(raw, k, l, other);
      SameInside(raw, i, j, value, k, l, other);
      SameInside(raw, k, l, other, i, j, value);
    }
  }

  /** Of two trimmed values found between blanks, the one that is not empty is where the other is. */
  lemma SameInside(raw: Bytes, i: nat, j: nat, value: Bytes, k: nat, l: nat, other: Bytes)
    requires Inside(raw, i, j, value) && Inside(raw, k, l, other) && Trimmed(value)
    ensures value != [] ==> k <= i && j <= l
  {
    assert forall x | 0 <= x < k :: raw[x] == raw[..k][x];
    assert forall x | l <= x < |raw| :: raw[x] == raw[l..][x - l];
    if value != [] {
      assert value[0] == raw[i] && value[|value| - 1] == raw[j - 1];
    }
  }

  method ReadHead(reader: Connection) returns (r: Result<Head, RequestFailure>)
    requires reader.Valid()
    modifies reader`chunks
    ensures reader.Valid()
    ensures var (head, end) := HeadAt(old(reader.Rest()), reader.ending, 0, NO_HEADERS);
            r == head && reader.Rest() == old(reader.Rest())[end..]
  {
    hide LineAt, Flatten, HeaderLine, WithHeader;
    ghost var all := reader.Rest();
    var head := NO_HEADERS;
    ghost var c := 0;
    assert all[0..] == all;
    while true
      invariant reader.Valid() && c <= |all| && reader.Rest() == all[c..]
      invariant HeadAt(all, reader.ending, c, head) == HeadAt(all, reader.ending, 0, NO_HEADERS)
      decreases |all| - c
    {
      ghost var n := LineAt(all[c..], reader.ending, MAX_HEADERS_LEN, HeadersTooLarge).1;
      assert all[c..][n..] == all[c + n..];
      var line := ReadCrlfLine(reader, MAX_HEADERS_LEN, HeadersTooLarge);
      match line {
        case BadLine(e) => return Failure(e);
        case NoLine => return Failure(IncompleteHeaders);
        case Line(text) =>
          head := head.(size := head.size + |text| + 2);
          if head.size > MAX_HEADERS_LEN {
            return Failure(HeadersTooLarge);
          }
          if text == [] {
            return Success(head);
          }
          var header := ParseHeaderLine(text);
          if header.Failure? {
            return Failure(header.error);
          }
          var next := WithHeader(head, header.value.0, header.value.1);
          if next.Failure? {
            return Failure(next.error);
          }
          head := next.value;
          c := c + n;
      }
    }
  }

  method ReadExact(reader: Connection, length: nat) returns (r: Result<Bytes, RequestFailure>)
    requires reader.Valid()
    modifies reader`chunks
    ensures reader.Valid()
    ensures var (body, end) := BodyAt(old(reader.Rest()), reader.ending, 0, length);
            r == body && reader.Rest() == old(reader.Rest())[end..]
  {
    hide Flatten;
    ghost var all := reader.Rest();
    var body: Bytes := [];
    assert all[..0] == [] && all[0..] == all;
    while |body| < length
      invariant reader.Valid() && |body| <= length && |body| <= |all|
      invariant body == all[..|body|] && reader.Rest() == all[|body|..]
    {
      var available := reader.FillBuf();
      if available == [] {
        assert body == all && reader.Rest() == all[|all|..];
        return Failure(if reader.ending.Eof? then ContentLengthMismatch else FromReadError(reader.ending.timedOut));
      }
      var wanted := length - |body|;
      var taken := if |available| < wanted then |available| else wanted;
      Slices(all, |body|, available, taken);
      body := body + available[..taken];
      reader.Consume(taken);
    }
    assert all[0..0 + length] == body;
    r := Success(body);
  }

  lemma HeadAtShifts(s: Bytes, ending: Ending, n: nat, c: nat, h: Head)
    requires n + c <= |s|
    ensures HeadAt(s, ending, n + c, h) == (HeadAt(s[n..], ending, c, h).0, n + HeadAt(s[n..], ending, c, h).1)
    decreases |s| - c
  {
    hide LineAt, AfterLine;
    assert s[n..][c..] == s[n + c..];
    var (line, k) := LineAt(s[n + c..], ending, MAX_HEADERS_LEN, HeadersTooLarge);
    if line.Line? && AfterLine(h, line.text).Success? && !AfterLine(h, line.text).value.1 {
      HeadAtShifts(s, ending, n, c + k, AfterLine(h, line.text).value.0);
    }
  }

  /** However the connection splits the bytes, the outcome and the bytes taken are those of `RequestAt`. */
  method ReadRequest(reader: Connection) returns (r: Result<Request, RequestFailure>)
    requires reader.Valid()
    modifies reader`chunks
    ensures reader.Valid()
    ensures var (request, consumed) := RequestAt(old(reader.Rest()), reader.ending);
            r == request && reader.Rest() == old(reader.Rest())[consumed..]
  {
    hide LineAt, Flatten, HeadAt, RequestLine, BodyAt, Verdict;
    ghost var all := reader.Rest();
    var first := ReadCrlfLine(reader, MAX_REQUEST_LINE_LEN, RequestLineTooLong);
    ghost var n := LineAt(all, reader.ending, MAX_REQUEST_LINE_LEN, RequestLineTooLong).1;
    if first.BadLine? {
      return Failure(first.failure);
    }
    if first.NoLine? {
      return Failure(EmptyRequest);
    }
    var parsed := RequestLine(first.text);
    if parsed.Failure? {
      return Failure(parsed.error);
    }
    HeadAtShifts(all, reader.ending, n, 0, NO_HEADERS);
    var head := ReadHead(reader);
    ghost var c := HeadAt(all, reader.ending, n, NO_HEADERS).1;
    assert all[n..][c - n..] == all[c..];
    if head.Failure? {
      return Failure(head.error);
    }
    var length := Verdict(parsed.value.0, head.value);
    if length.Failure? {
      return Failure(length.error);
    }
    BodyAtShifts(all, reader.ending, c, length.value);
    var body := ReadExact(reader, length.value);
    if body.Failure? {
      return Failure(body.error);
    }
    r := Success(Request(parsed.value.0, parsed.value.1, body.value));
  }

  lemma BodyAtShifts(s: Bytes, ending: Ending, c: nat, length: nat)
    requires c <= |s|
    ensures BodyAt(s, ending, c, length) == (BodyAt(s[c..], ending, 0, length).0, c + BodyAt(s[c..], ending, 0, length).1)
    ensures s[c..][BodyAt(s[c..], ending, 0, length).1..] == s[BodyAt(s, ending, c, length).1..]
  {
    if length <= |s| - c {
      assert s[c..][0..0 + length] == s[c..c + length];
    }
  }

  // ---- what an accepted request takes --------------------------------------------------------------------

  lemma LineLayout(s: Bytes, ending: Ending, limit: nat, tooLong: RequestFailure)
    requires LineAt(s, ending, limit, tooLong).0.Line?
    ensures var (line, n) := LineAt(s, ending, limit, tooLong);
            && line.text == s[..n - 2] && s[n - 2] == CR && s[n - 1] == LF
            && (forall i | 0 <= i < n - 1 :: s[i] != LF)
  {
  }

  lemma {:induction false} HeadLayout(s: Bytes, ending: Ending, c: nat, h: Head)
    requires 2 <= c <= |s| && s[c - 2] == CR && s[c - 1] == LF && HeadAt(s, ending, c, h).0.Success?
    ensures var end := HeadAt(s, ending, c, h).1;
            c + 2 <= end && s[end - 4] == CR && s[end - 3] == LF && s[end - 2] == CR && s[end - 1] == LF
    decreases |s| - c
  {
    hide LineAt, AfterLine;
    var (line, n) := LineAt(s[c..], ending, MAX_HEADERS_LEN, HeadersTooLarge);
    LineLayout(s[c..], ending, MAX_HEADERS_LEN, HeadersTooLarge);
    assert s[c..][n - 2] == s[c + n - 2] && s[c..][n - 1] == s[c + n - 1];
    var (next, done) := AfterLine(h, line.text).value;
    if done {
      OnlyEmptyLineEnds(h, line.text);
    } else {
      HeadLayout(s, ending, c + n, next);
    }
  }

  lemma OnlyEmptyLineEnds(h: Head, text: Bytes)
    requires AfterLine(h, text).Success?
    ensures AfterLine(h, text).value.1 <==> text == []
  {
  }

  /**
   An accepted request takes its header block, which ends with an empty line at `head`, and after that exactly as
   many bytes as Content-Length declared (none when it is absent): RFC 9112, sections 2.2 and 6.3.
   */
  lemma AcceptedTakesExactly(s: Bytes, ending: Ending) returns (head: nat, declared: Head)
    requires RequestAt(s, ending).0.Success?
    ensures var (request, end) := RequestAt(s, ending);
            var length := if declared.contentLength.Some? then declared.contentLength.value else 0;
            && 4 <= head <= end
            && s[head - 4..head] == [CR, LF, CR, LF]
            && HeadAt(s, ending, LineAt(s, ending, MAX_REQUEST_LINE_LEN, RequestLineTooLong).1, NO_HEADERS)
                 == (Success(declared), head)
            && declared.hostSeen && !declared.transferEncoding
            && end == head + length && length <= |s|
            && request.value.body == s[head..end]
  {
    hide LineAt, HeadAt, RequestLine;
    LineLayout(s, ending, MAX_REQUEST_LINE_LEN, RequestLineTooLong);
    var n := LineAt(s, ending, MAX_REQUEST_LINE_LEN, RequestLineTooLong).1;
    HeadLayout(s, ending, n, NO_HEADERS);
    declared, head := HeadAt(s, ending, n, NO_HEADERS).0.value, HeadAt(s, ending, n, NO_HEADERS).1;
  }

  lemma LineNeedsNoMore(s: Bytes, ending: Ending, limit: nat, tooLong: RequestFailure, more: Bytes, other: Ending)
    requires LineAt(s, ending, limit, tooLong).0.Line?
    ensures var n := LineAt(s, ending, limit, tooLong).1;
            forall k | n <= k <= |s| :: LineAt(s[..k] + more, other, limit, tooLong) == LineAt(s, ending, limit, tooLong)
  {
    var n := LineAt(s, ending, limit, tooLong).1;
    forall k | n <= k <= |s|
      ensures LineAt(s[..k] + more, other, limit, tooLong) == LineAt(s, ending, limit, tooLong)
    {
      LineLayout(s, ending, limit, tooLong);
      var t := s[..k] + more;
      FirstLfIs(s, n - 1);
      FirstLfIs(t, n - 1);
      assert t[..n] == s[..n];
    }
  }

  lemma FirstLfIs(s: Bytes, p: nat)
    requires p < |s| && s[p] == LF && forall i | 0 <= i < p :: s[i] != LF
    ensures FirstLf(s) == Some(p)
  {
  }

  lemma {:induction false} HeadNeedsNoMore(s: Bytes, ending: Ending, c: nat, h: Head, k: nat, more: Bytes, other: Ending)
    requires c <= |s| && HeadAt(s, ending, c, h).0.Success? && HeadAt(s, ending, c, h).1 <= k <= |s|
    ensures HeadAt(s[..k] + more, other, c, h) == HeadAt(s, ending, c, h)
    decreases |s| - c
  {
    hide LineAt, AfterLine;
    var (line, n) := LineAt(s[c..], ending, MAX_HEADERS_LEN, HeadersTooLarge);
    LineNeedsNoMore(s[c..], ending, MAX_HEADERS_LEN, HeadersTooLarge, more, other);
    assert (s[..k] + more)[c..] == s[c..][..k - c] + more;
    var (next, done) := AfterLine(h, line.text).value;
    if !done {
      HeadNeedsNoMore(s, ending, c + n, next, k, more, other);
    }
  }

  /** Nothing after an accepted request plays any part in it, so the bytes of the next one stay untouched. */
  lemma AcceptedNeedsNoMore(s: Bytes, ending: Ending, more: Bytes, other: Ending)
    requires RequestAt(s, ending).0.Success?
    ensures RequestAt(s[..RequestAt(s, ending).1] + more, other) == RequestAt(s, ending)
  {
    hide LineAt, HeadAt, RequestLine;
    var k := RequestAt(s, ending).1;
    var n := LineAt(s, ending, MAX_REQUEST_LINE_LEN, RequestLineTooLong).1;
    LineNeedsNoMore(s, ending, MAX_REQUEST_LINE_LEN, RequestLineTooLong, more, other);
    HeadNeedsNoMore(s, ending, n, NO_HEADERS, k, more, other);
    var c := HeadAt(s, ending, n, NO_HEADERS).1;
    assert (s[..k] + more)[c..k] == s[c..k];
  }
}
