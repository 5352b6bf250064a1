/** Exactly which bytes are an acceptable request, and what the others are refused for. */
module HttpRequestOutcomes {
  import opened Layout
  import opened Wrappers
  import opened HttpRequest
  import opened HttpRequestPrinting

  // ---- one line ------------------------------------------------------------------------------------------

  /** The first LF is at `p`. */
  predicate LfAt(s: Bytes, p: nat) {
    p < |s| && s[p] == LF && forall i | 0 <= i < p :: s[i] != LF
  }

  /**
   Every outcome of reading a line: the limit counts the line ending in; a line feed that comes too late, or none
   within the limit, is too long; a bare line feed is refused; and the rest is for how the connection ends.
   */
  lemma LineIsExact(s: Bytes, ending: Ending, limit: nat, tooLong: RequestFailure, text: Bytes)
    ensures var (line, taken) := LineAt(s, ending, limit, tooLong);
            && (line == Line(text) <==> LF !in text && |text| + 2 <= limit && Sits(s, 0, text + CRLF))
            && (line.Line? ==> taken == |line.text| + 2)
            && (forall p: nat | LfAt(s, p) && p < limit ::
                  taken == p + 1 && (p == 0 || s[p - 1] != CR ==> line == BadLine(InvalidLineEnding)))
            && ((forall p: nat | p < limit :: !LfAt(s, p)) ==>
                  if |s| > limit then line == BadLine(tooLong) && taken == limit + 1
                  else
                    && taken == |s|
                    && line == if ending.ReadError? then BadLine(FromReadError(ending.timedOut))
                               else if s == [] then NoLine else BadLine(IncompleteLine))
  {
    hide FirstLf;
    var (line, taken) := LineAt(s, ending, limit, tooLong);
    forall p: nat | LfAt(s, p)
      ensures FirstLf(s) == Some(p)
    {
      FirstLfIs(s, p);
    }
    if FirstLf(s).Some? {
      assert LfAt(s, FirstLf(s).value);
    }
    if line.Line? {
      LineLayout(s, ending, limit, tooLong);
      assert s[0..taken] == line.text + CRLF;
    }
    if LF !in text && |text| + 2 <= limit && Sits(s, 0, text + CRLF) {
      assert s[0..] == s;
      LineReadsBack(s, 0, text, ending, limit, tooLong);
    }
  }

  // ---- the request line ----------------------------------------------------------------------------------

  function Joined(parts: seq<Bytes>, separator: Byte): Bytes
    requires parts != []
  {
    if |parts| == 1 then parts[0] else parts[0] + [separator] + Joined(parts[1..], separator)
  }

  lemma {:induction false} SplitJoins(s: Bytes, separator: Byte)
    ensures Joined(Split(s, separator), separator) == s
    ensures forall part <- Split(s, separator) :: separator !in part
  {
    if s != [] {
      SplitJoins(s[1..], separator);
      var rest := Split(s[1..], separator);
      assert s == [s[0]] + s[1..];
      if s[0] == separator {
        assert ([[]] + rest)[1..] == rest;
      } else if |rest| > 1 {
        assert ([[s[0]] + rest[0]] + rest[1..])[1..] == rest[1..];
      }
    }
  }

  /** The line is three parts, none of them empty, with one space between each two. */
  predicate ThreeParts(line: Bytes, a: Bytes, b: Bytes, c: Bytes) {
    && a != [] && b != [] && c != [] && SP !in a && SP !in b && SP !in c
    && line == a + [SP] + (b + [SP] + c)
  }

  lemma PartsAreSplit(line: Bytes, a: Bytes, b: Bytes, c: Bytes)
    ensures ThreeParts(line, a, b, c) <==> Split(line, SP) == [a, b, c] && [] !in Split(line, SP)
  {
    hide Split;
    if ThreeParts(line, a, b, c) {
      SplitFirst(a, b + [SP] + c, SP);
      SplitFirst(b, c, SP);
      SplitFirst(c, [], SP);
      assert [a] + ([b] + [c]) == [a, b, c];
    }
    SplitJoins(line, SP);
    var parts := Split(line, SP);
    if parts == [a, b, c] && [] !in parts {
      assert parts[1..] == [b, c] && parts[1..][1..] == [c];
      assert Joined([c], SP) == c && Joined([b, c], SP) == b + [SP] + c;
      assert a in parts && b in parts && c in parts;
      assert a + [SP] + (b + [SP] + c) == line;
    }
  }

  /** What each request line is answered with: a refusal says which of the requirements, in this order, fails first. */
  lemma RequestLineIsExact(line: Bytes)
    ensures RequestLine(line) == Failure(InvalidRequestLine) <==> !IsAscii(line) || !exists a, b, c :: ThreeParts(line, a, b, c)
    ensures forall a, b, c | IsAscii(line) && ThreeParts(line, a, b, c) ::
              RequestLine(line) ==
                if !IsToken(a) then Failure(InvalidMethod)
                else if c != Ascii("HTTP/1.1") then Failure(UnsupportedVersion)
                else if !Target(b) then Failure(InvalidRequestTarget)
                else Success((a, b))
  {
    hide Split, IsToken, Ascii;
    var parts := Split(line, SP);
    if |parts| == 3 {
      assert parts == [parts[0], parts[1], parts[2]];
      PartsAreSplit(line, parts[0], parts[1], parts[2]);
    }
    forall a, b, c | ThreeParts(line, a, b, c)
      ensures parts == [a, b, c] && [] !in parts
      ensures IsAscii(line) ==> IsAscii(b)
    {
      PartsAreSplit(line, a, b, c);
      PartIsAscii(line, a, b, c);
    }
  }

  lemma PartIsAscii(line: Bytes, a: Bytes, b: Bytes, c: Bytes)
    requires ThreeParts(line, a, b, c)
    ensures IsAscii(line) ==> IsAscii(b)
  {
    assert forall i | 0 <= i < |b| :: line[|a| + 1 + i] == b[i];
  }

  /** The accepted request lines are the printed ones. */
  lemma AcceptedLineIsPrinted(line: Bytes, verb: Bytes, target: Bytes)
    ensures RequestLine(line) == Success((verb, target)) <==>
              IsToken(verb) && Target(target) && line == RequestLineBytes(verb, target)
  {
    hide RequestLine, IsToken, Ascii;
    RequestLineIsExact(line);
    if IsToken(verb) && Target(target) { RequestLineReadsBack(verb, target); }
    if RequestLine(line) == Success((verb, target)) {
      var a, b, c :| ThreeParts(line, a, b, c);
      assert line == RequestLineBytes(verb, target);
    }
  }

  // ---- header lines --------------------------------------------------------------------------------------

  /** The line is a well-formed field of this name, whatever the case of its letters. */
  predicate Names(line: Bytes, key: Bytes) {
    HeaderLine(line).Success? && Lower(HeaderLine(line).value.0) == key
  }

  predicate Any(lines: seq<Bytes>, key: Bytes) {
    exists line <- lines :: Names(line, key)
  }

  predicate NotTwice(lines: seq<Bytes>, key: Bytes) {
    forall i, j | 0 <= i < j < |lines| :: !Names(lines[i], key) || !Names(lines[j], key)
  }

  const LENGTH_KEY: Bytes := Ascii("content-length")
  const CODING_KEY: Bytes := Ascii("transfer-encoding")
  const HOST_KEY: Bytes := Ascii("host")

  predicate IsLength(digits: Bytes) {
    digits != [] && AllDigits(digits) && Decimal(digits) <= MAX_BODY_LEN
  }

  /** The line is acceptable taken by itself. */
  predicate LineOk(line: Bytes) {
    && HeaderLine(line).Success?
    && (Names(line, HOST_KEY) ==> HeaderLine(line).value.1 != [])
    && (Names(line, LENGTH_KEY) ==> IsLength(HeaderLine(line).value.1))
  }

  lemma KeysDiffer()
    ensures LENGTH_KEY != CODING_KEY && LENGTH_KEY != HOST_KEY && CODING_KEY != HOST_KEY
  {
    HttpRequestPrinting.Names();
  }

  /** The head after one more line that is not the empty one. */
  function Extended(h: Head, line: Bytes): Head
    requires LineOk(line)
  {
    Head(if Names(line, LENGTH_KEY) then Some(Decimal(HeaderLine(line).value.1)) else h.contentLength,
         h.transferEncoding || Names(line, CODING_KEY), h.hostSeen || Names(line, HOST_KEY), h.size + |line| + 2)
  }

  lemma OneLineIsExact(h: Head, line: Bytes)
    requires line != []
    ensures AfterLine(h, line).Success? <==>
              && h.size + |line| + 2 <= MAX_HEADERS_LEN && LineOk(line)
              && !(h.hostSeen && Names(line, HOST_KEY)) && !(h.contentLength.Some? && Names(line, LENGTH_KEY))
    ensures AfterLine(h, line).Success? ==> AfterLine(h, line).value == (Extended(h, line), false)
  {
    hide HeaderLine, Lower, Ascii, AllDigits, Decimal;
    KeysDiffer();
  }

  /** What a line is refused for; of two reasons the one named first counts. */
  lemma OneLineRefusal(h: Head, line: Bytes)
    requires line != [] && h.size + |line| + 2 <= MAX_HEADERS_LEN
    ensures HeaderLine(line).Failure? ==> AfterLine(h, line) == Failure(HeaderLine(line).error)
    ensures Names(line, LENGTH_KEY) ==>
              var digits := HeaderLine(line).value.1;
              && (AfterLine(h, line) == Failure(DuplicateContentLength) <==> h.contentLength.Some?)
              && (AfterLine(h, line) == Failure(InvalidContentLength) <==>
                    h.contentLength.None? && (digits == [] || !AllDigits(digits) || Decimal(digits) >= TWO_64))
              && (AfterLine(h, line) == Failure(BodyTooLarge) <==>
                    h.contentLength.None? && digits != [] && AllDigits(digits) && MAX_BODY_LEN < Decimal(digits) < TWO_64)
    ensures Names(line, HOST_KEY) ==>
              && (AfterLine(h, line) == Failure(DuplicateHost) <==> h.hostSeen)
              && (AfterLine(h, line) == Failure(InvalidHost) <==> !h.hostSeen && HeaderLine(line).value.1 == [])
  {
    hide HeaderLine, Lower, Ascii, AllDigits, Decimal;
    KeysDiffer();
  }

  /** The lines are acceptable together, after a head that has seen these fields already. */
  predicate LinesOk(h: Head, lines: seq<Bytes>) {
    && (forall line <- lines :: LineOk(line))
    && NotTwice(lines, HOST_KEY) && !(h.hostSeen && Any(lines, HOST_KEY))
    && NotTwice(lines, LENGTH_KEY) && !(h.contentLength.Some? && Any(lines, LENGTH_KEY))
    && h.size + |HeadBytes(lines)| <= MAX_HEADERS_LEN
  }

  lemma AnyOneMore(lines: seq<Bytes>, key: Bytes)
    requires lines != []
    ensures Any(lines, key) <==> Names(lines[0], key) || Any(lines[1..], key)
    ensures NotTwice(lines, key) <==> NotTwice(lines[1..], key) && !(Names(lines[0], key) && Any(lines[1..], key))
  {
    hide Names;
    var rest := lines[1..];
    assert lines == [lines[0]] + rest;
    if NotTwice(lines, key) {
      forall i, j | 0 <= i < j < |rest|
        ensures !Names(rest[i], key) || !Names(rest[j], key)
      {
        assert lines[i + 1] == rest[i] && lines[j + 1] == rest[j];
      }
      if Any(rest, key) {
        var i :| 0 <= i < |rest| && Names(rest[i], key);
        assert lines[i + 1] == rest[i];
      }
    }
    if NotTwice(rest, key) && !(Names(lines[0], key) && Any(rest, key)) {
      forall i, j | 0 <= i < j < |lines|
        ensures !Names(lines[i], key) || !Names(lines[j], key)
      {
        assert lines[j] == rest[j - 1] && rest[j - 1] in rest;
        if i > 0 { assert lines[i] == rest[i - 1]; }
      }
    }
  }

  lemma LinesOkApart(lines: seq<Bytes>)
    requires lines != []
    ensures (forall line <- lines :: LineOk(line)) <==> LineOk(lines[0]) && forall line <- lines[1..] :: LineOk(line)
  {
    hide LineOk;
    assert forall line <- lines[1..] :: line in lines;
    assert forall line <- lines :: line == lines[0] || line in lines[1..];
  }

  lemma LongerByOne(lines: seq<Bytes>)
    requires lines != []
    ensures |HeadBytes(lines)| == |lines[0]| + 2 + |HeadBytes(lines[1..])|
  {
  }

  lemma LinesOkOneMore(h: Head, lines: seq<Bytes>)
    requires lines != [] && LineOk(lines[0])
    requires !(h.hostSeen && Names(lines[0], HOST_KEY)) && !(h.contentLength.Some? && Names(lines[0], LENGTH_KEY))
    ensures LinesOk(h, lines) <==> LinesOk(Extended(h, lines[0]), lines[1..])
  {
    hide LineOk, Names, Any, NotTwice, HeadBytes, Decimal, HeaderLine, LENGTH_KEY, HOST_KEY, CODING_KEY, Ascii;
    AnyOneMore(lines, HOST_KEY);
    AnyOneMore(lines, LENGTH_KEY);
    LinesOkApart(lines);
    LongerByOne(lines);
  }

  /** Header lines are accepted exactly when they are acceptable together; they declare what any of them declares. */
  lemma {:induction false} FoldedIsExact(h: Head, lines: seq<Bytes>)
    requires forall line <- lines :: line != []
    ensures Folded(h, lines).Success? <==> LinesOk(h, lines)
    ensures Folded(h, lines).Success? ==>
              var last := Folded(h, lines).value;
              && (last.contentLength.Some? <==> h.contentLength.Some? || Any(lines, LENGTH_KEY))
              && (last.transferEncoding <==> h.transferEncoding || Any(lines, CODING_KEY))
              && (last.hostSeen <==> h.hostSeen || Any(lines, HOST_KEY))
    decreases |lines|
  {
    hide AfterLine, LineOk, Names, Any, NotTwice, LinesOk, Decimal, HeaderLine, LENGTH_KEY, HOST_KEY, CODING_KEY, Ascii;
    if lines == [] {
      NoLines(h);
    } else {
      var (line, rest) := (lines[0], lines[1..]);
      assert line in lines && forall other <- rest :: other in lines;
      OneLineIsExact(h, line);
      AnyOneMore(lines, HOST_KEY);
      AnyOneMore(lines, LENGTH_KEY);
      AnyOneMore(lines, CODING_KEY);
      if AfterLine(h, line).Success? {
        LinesOkOneMore(h, lines);
        FoldedIsExact(Extended(h, line), rest);
      } else {
        RefusedStaysRefused(h, lines);
      }
    }
  }

  lemma NoLines(h: Head)
    ensures Folded(h, []).Success? <==> LinesOk(h, [])
    ensures Folded(h, []).Success? ==> Folded(h, []).value == h.(size := h.size + 2)
    ensures !Any([], LENGTH_KEY) && !Any([], CODING_KEY) && !Any([], HOST_KEY)
  {
    hide LineOk, Names, AfterLine, Ascii, LENGTH_KEY, HOST_KEY, CODING_KEY;
    assert |HeadBytes([])| == 2;
    EmptyLine(h);
  }

  lemma EmptyLine(h: Head)
    ensures AfterLine(h, []) ==
              if h.size + 2 > MAX_HEADERS_LEN then Failure(HeadersTooLarge) else Success((h.(size := h.size + 2), true))
  {
  }

  lemma RefusedStaysRefused(h: Head, lines: seq<Bytes>)
    requires lines != [] && lines[0] != [] && AfterLine(h, lines[0]).Failure?
    ensures !LinesOk(h, lines)
  {
    hide AfterLine, LineOk, Names, NotTwice;
    OneLineIsExact(h, lines[0]);
    assert |HeadBytes(lines)| == |lines[0]| + 2 + |HeadBytes(lines[1..])|;
    assert lines[0] in lines;
  }

  // ---- the finished head ---------------------------------------------------------------------------------

  const POST: Bytes := [80, 79, 83, 84]

  lemma PostText()
    ensures Ascii("POST") == POST
  {
    hide Ascii;
    AsciiAt("POST");
  }

  /** Acceptable header lines are refused together for exactly these reasons, in this order. */
  lemma VerdictIsExact(verb: Bytes, lines: seq<Bytes>)
    requires (forall line <- lines :: line != []) && LinesOk(NO_HEADERS, lines)
    ensures Folded(NO_HEADERS, lines).Success?
    ensures var r := Verdict(verb, Folded(NO_HEADERS, lines).value);
            if !Any(lines, HOST_KEY) then r == Failure(MissingHost)
            else if Any(lines, CODING_KEY) then
              r == Failure(if Any(lines, LENGTH_KEY) then AmbiguousBodyLength else UnsupportedTransferEncoding)
            else if !Any(lines, LENGTH_KEY) then r == if verb == POST then Failure(ContentLengthRequired) else Success(0)
            else r.Success? && exists line <- lines :: Declares(line, r.value)
  {
    hide Any, LinesOk, Folded, Declares, Ascii;
    FoldedIsExact(NO_HEADERS, lines);
    PostText();
    if Folded(NO_HEADERS, lines).value.contentLength.Some? {
      var i := FoldedDeclares(NO_HEADERS, lines);
    }
  }

  /** The body is whatever follows, up to the declared length; a connection that ends sooner fails, and is used up. */
  lemma BodyIsExact(s: Bytes, ending: Ending, c: nat, length: nat, body: Bytes)
    requires c <= |s|
    ensures var (r, taken) := BodyAt(s, ending, c, length);
            && (r == Success(body) <==> |body| == length && Sits(s, c, body))
            && (r.Success? ==> taken == c + length)
            && (c + length > |s| ==>
                  taken == |s| && r == Failure(if ending.Eof? then ContentLengthMismatch else FromReadError(ending.timedOut)))
  {
  }

  // ---- the whole request ---------------------------------------------------------------------------------

  /** The method, the target and the header lines are ones the reader accepts. */
  ghost predicate HeadOk(verb: Bytes, target: Bytes, lines: seq<Bytes>) {
    && IsToken(verb) && Target(target) && LF !in target
    && |RequestLineBytes(verb, target)| + 2 <= MAX_REQUEST_LINE_LEN
    && (forall line <- lines :: line != [] && LF !in line)
    && LinesOk(NO_HEADERS, lines) && Any(lines, HOST_KEY) && !Any(lines, CODING_KEY)
  }

  /** The body is as long as the Content-Length line says; without one it is empty, which a POST may not leave open. */
  ghost predicate LengthOk(verb: Bytes, lines: seq<Bytes>, length: nat) {
    if Any(lines, LENGTH_KEY) then exists line <- lines :: Declares(line, length) else verb != POST && length == 0
  }

  ghost predicate Printed(s: Bytes, verb: Bytes, target: Bytes, lines: seq<Bytes>, body: Bytes) {
    && HeadOk(verb, target, lines) && LengthOk(verb, lines, |body|)
    && Sits(s, 0, RequestBytes(verb, target, lines, body))
  }

  lemma VerdictOk(verb: Bytes, target: Bytes, lines: seq<Bytes>, length: nat)
    requires HeadOk(verb, target, lines)
    ensures Folded(NO_HEADERS, lines).Success?
    ensures Verdict(verb, Folded(NO_HEADERS, lines).value) == Success(length) <==> LengthOk(verb, lines, length)
  {
    hide Any, LinesOk, Folded, Declares, Verdict, NotTwice, Names, IsToken, Target, LENGTH_KEY, HOST_KEY, CODING_KEY, Ascii;
    VerdictIsExact(verb, lines);
    var r := Verdict(verb, Folded(NO_HEADERS, lines).value);
    if Any(lines, LENGTH_KEY) && LengthOk(verb, lines, length) {
      var line :| line in lines && Declares(line, length);
      var other :| other in lines && Declares(other, r.value);
      OneLengthLine(lines, line, length, other, r.value);
    }
  }

  lemma OneLengthLine(lines: seq<Bytes>, line: Bytes, n: nat, other: Bytes, m: nat)
    requires LinesOk(NO_HEADERS, lines) && line in lines && other in lines && Declares(line, n) && Declares(other, m)
    ensures n == m
  {
    hide HeaderLine, Lower, Ascii, Decimal, AllDigits, LineOk;
    var i :| 0 <= i < |lines| && lines[i] == line;
    var j :| 0 <= j < |lines| && lines[j] == other;
    assert Names(line, LENGTH_KEY) && Names(other, LENGTH_KEY);
    assert i == j;
  }

  lemma PrintedIsAccepted(s: Bytes, ending: Ending, verb: Bytes, target: Bytes, lines: seq<Bytes>, body: Bytes)
    requires Printed(s, verb, target, lines, body)
    ensures RequestAt(s, ending) == (Success(Request(verb, target, body)), |RequestBytes(verb, target, lines, body)|)
  {
    hide RequestAt, HeadOk, LengthOk, RequestBytes, Folded, Verdict;
    var printed := RequestBytes(verb, target, lines, body);
    assert s == printed + s[|printed|..];
    VerdictOk(verb, target, lines, |body|);
    HeadOkMeans(verb, target, lines);
    RequestReadsBack(verb, target, lines, body, s[|printed|..], ending);
  }

  lemma HeadOkMeans(verb: Bytes, target: Bytes, lines: seq<Bytes>)
    requires HeadOk(verb, target, lines)
    ensures IsToken(verb) && Target(target) && LF !in target
    ensures |RequestLineBytes(verb, target)| + 2 <= MAX_REQUEST_LINE_LEN
    ensures forall line <- lines :: line != [] && LF !in line
  {
  }

  lemma AcceptedIsPrinted(s: Bytes, ending: Ending) returns (lines: seq<Bytes>)
    requires RequestAt(s, ending).0.Success?
    ensures var request := RequestAt(s, ending).0.value; Printed(s, request.verb, request.target, lines, request.body)
  {
    hide RequestAt, HeadOk, LengthOk, RequestLine, Sits, HeadBytes, RequestLineBytes, Folded, Verdict;
    var request := RequestAt(s, ending).0.value;
    var first, n;
    first, n, lines := AcceptedInParts(s, ending);
    AcceptedLineIsPrinted(first, request.verb, request.target);
    AcceptedHeadIsOk(request.verb, request.target, lines, |request.body|);
    SitsTogether(s, n, HeadBytes(lines), request.body);
    SitsTogether(s, 0, first + CRLF, HeadBytes(lines) + request.body);
  }

  /** The three parts of an accepted request and where they lie. */
  lemma AcceptedInParts(s: Bytes, ending: Ending) returns (first: Bytes, n: nat, lines: seq<Bytes>)
    requires RequestAt(s, ending).0.Success?
    ensures var request := RequestAt(s, ending).0.value;
            && RequestLine(first) == Success((request.verb, request.target))
            && n == |first| + 2 <= MAX_REQUEST_LINE_LEN && LF !in first && Sits(s, 0, first + CRLF)
            && (forall line <- lines :: line != [] && LF !in line) && Sits(s, n, HeadBytes(lines))
            && Folded(NO_HEADERS, lines).Success?
            && Verdict(request.verb, Folded(NO_HEADERS, lines).value) == Success(|request.body|)
            && Sits(s, n + |HeadBytes(lines)|, request.body)
  {
    hide LineAt, HeadAt, RequestLine, Folded, HeadBytes, Verdict, Sits;
    var request := RequestAt(s, ending).0.value;
    var line;
    line, n := LineAt(s, ending, MAX_REQUEST_LINE_LEN, RequestLineTooLong).0, LineAt(s, ending, MAX_REQUEST_LINE_LEN, RequestLineTooLong).1;
    first := line.text;
    FirstLineSits(s, ending);
    lines := AcceptedHeadIsLines(s, ending, n, NO_HEADERS);
    BodySits(s, n + |HeadBytes(lines)|, request.body);
  }

  lemma AcceptedHeadIsOk(verb: Bytes, target: Bytes, lines: seq<Bytes>, length: nat)
    requires IsToken(verb) && Target(target)
    requires LF !in RequestLineBytes(verb, target) && |RequestLineBytes(verb, target)| + 2 <= MAX_REQUEST_LINE_LEN
    requires forall line <- lines :: line != [] && LF !in line
    requires Folded(NO_HEADERS, lines).Success? && Verdict(verb, Folded(NO_HEADERS, lines).value) == Success(length)
    ensures HeadOk(verb, target, lines) && LengthOk(verb, lines, length)
  {
    hide IsToken, Target, RequestLineBytes, Folded, LinesOk, Any, Declares, Verdict, LengthOk, LENGTH_KEY, HOST_KEY, CODING_KEY, Ascii;
    FoldedIsExact(NO_HEADERS, lines);
    VerdictIsExact(verb, lines);
    TargetHasNoLf(verb, target);
    VerdictOk(verb, target, lines, length);
  }

  lemma BodySits(s: Bytes, c: nat, body: Bytes)
    requires c + |body| <= |s| && body == s[c..c + |body|]
    ensures Sits(s, c, body)
  {
  }

  lemma FirstLineSits(s: Bytes, ending: Ending)
    requires LineAt(s, ending, MAX_REQUEST_LINE_LEN, RequestLineTooLong).0.Line?
    ensures var (line, n) := LineAt(s, ending, MAX_REQUEST_LINE_LEN, RequestLineTooLong);
            n == |line.text| + 2 && n <= MAX_REQUEST_LINE_LEN && LF !in line.text && Sits(s, 0, line.text + CRLF)
  {
    var (line, n) := LineAt(s, ending, MAX_REQUEST_LINE_LEN, RequestLineTooLong);
    LineLayout(s, ending, MAX_REQUEST_LINE_LEN, RequestLineTooLong);
    assert s[0..n] == line.text + CRLF;
  }

  lemma TargetHasNoLf(verb: Bytes, target: Bytes)
    ensures LF !in RequestLineBytes(verb, target) ==> LF !in target
  {
    hide Ascii;
  }

  /**
   A request is accepted exactly when the connection begins with such a request as a client would print it, whatever
   the header lines are written like; method, target and body are then the printed ones.
   */
  lemma AcceptedExactly(s: Bytes, ending: Ending, verb: Bytes, target: Bytes, body: Bytes)
    ensures RequestAt(s, ending).0 == Success(Request(verb, target, body)) <==>
              exists lines :: Printed(s, verb, target, lines, body)
  {
    hide RequestAt, Printed;
    if RequestAt(s, ending).0 == Success(Request(verb, target, body)) {
      var lines := AcceptedIsPrinted(s, ending);
    }
    forall lines | Printed(s, verb, target, lines, body)
      ensures RequestAt(s, ending).0 == Success(Request(verb, target, body))
    {
      PrintedIsAccepted(s, ending, verb, target, lines, body);
    }
  }
}
