/** Requests as a client prints them, and that the reader takes them apart into the same pieces. */
module HttpRequestPrinting {
  import opened Layout
  import opened Wrappers
  import opened HttpRequest

  const CRLF: Bytes := [CR, LF]

  // ---- the request line ----------------------------------------------------------------------------------

  function RequestLineBytes(verb: Bytes, target: Bytes): Bytes {
    verb + [SP] + (target + [SP] + Ascii("HTTP/1.1"))
  }

  lemma {:induction false} SplitFirst(a: Bytes, rest: Bytes, separator: Byte)
    requires separator !in a
    ensures Split(a, separator) == [a]
    ensures Split(a + [separator] + rest, separator) == [a] + Split(rest, separator)
  {
    if a == [] {
      assert (a + [separator] + rest)[1..] == rest;
    } else {
      SplitFirst(a[1..], rest, separator);
      assert (a + [separator] + rest)[1..] == a[1..] + [separator] + rest;
      assert [a[0]] + a[1..] == a;
    }
  }

  lemma VersionText()
    ensures Ascii("HTTP/1.1") == [72, 84, 84, 80, 47, 49, 46, 49]
  {
    hide Ascii;
    AsciiAt("HTTP/1.1");
  }

  lemma {:induction false} AsciiAt(s: string)
    ensures |Ascii(s)| == |s|
    ensures forall i | 0 <= i < |s| :: Ascii(s)[i] == if s[i] < '\U{80}' then s[i] as int else 0
  {
    if s != [] { AsciiAt(s[1..]); }
  }

  /** None of the bytes that delimit the parts of a request is a token byte. */
  lemma TokensDelimit(s: Bytes)
    requires IsToken(s)
    ensures s != [] && IsAscii(s) && SP !in s && COLON !in s && LF !in s
  {
    assert forall i | 0 <= i < |s| :: IsTokenByte(s[i]);
  }

  /** A target in origin form that a request line can carry. */
  predicate Target(target: Bytes) {
    target != [] && target[0] == 47 && 35 !in target && SP !in target && IsAscii(target)
  }

  /** A method token and an absolute target without a fragment are read back as they are. */
  lemma RequestLineReadsBack(verb: Bytes, target: Bytes)
    requires IsToken(verb) && Target(target)
    ensures RequestLine(RequestLineBytes(verb, target)) == Success((verb, target))
  {
    hide IsToken, Ascii, Split;
    VersionText();
    TokensDelimit(verb);
    var version := Ascii("HTTP/1.1");
    SplitFirst(verb, target + [SP] + version, SP);
    SplitFirst(target, version, SP);
    SplitFirst(version, [], SP);
    assert [verb] + ([target] + [version]) == [verb, target, version];
    assert [] !in [verb, target, version];
  }

  // ---- header lines --------------------------------------------------------------------------------------

  lemma {:induction false} TrimLeftDrops(left: Bytes, s: Bytes)
    requires Blank(left) && (s == [] || !IsBlank(s[0]))
    ensures TrimLeft(left + s) == s
  {
    if left == [] {
      assert left + s == s;
    } else {
      assert (left + s)[1..] == left[1..] + s;
      TrimLeftDrops(left[1..], s);
    }
  }

  lemma {:induction false} TrimRightDrops(s: Bytes, right: Bytes)
    requires Blank(right) && (s == [] || !IsBlank(s[|s| - 1]))
    ensures TrimRight(s + right) == s
    decreases |right|
  {
    if right == [] {
      assert s + right == s;
    } else {
      var n := |right| - 1;
      assert (s + right)[..|s| + n] == s + right[..n];
      TrimRightDrops(s, right[..n]);
    }
  }

  /** Blanks around a value go, whatever mixture of spaces and tabs they are; the value itself stays. */
  lemma TrimmedReadsBack(left: Bytes, value: Bytes, right: Bytes)
    requires Blank(left) && Blank(right) && Trimmed(value)
    ensures TrimRight(TrimLeft(left + value + right)) == value
  {
    assert left + value + right == left + (value + right);
    if value == [] {
      TrimLeftDrops(left + right, []);
      assert left + (value + right) == (left + right) + [];
      TrimRightDrops([], []);
    } else {
      TrimLeftDrops(left, value + right);
      TrimRightDrops(value, right);
    }
  }

  lemma {:induction false} FirstColon(name: Bytes, rest: Bytes)
    requires COLON !in name
    ensures Colon(name + [COLON] + rest) == Some(|name|)
  {
    if name != [] {
      assert (name + [COLON] + rest)[1..] == name[1..] + [COLON] + rest;
      FirstColon(name[1..], rest);
    }
  }

  /** A field name and a field value are read back from their line, with any blanks around the value. */
  lemma HeaderLineReadsBack(name: Bytes, left: Bytes, value: Bytes, right: Bytes)
    requires IsToken(name) && Blank(left) && Blank(right) && Trimmed(value) && IsAscii(value) && !HasControl(value)
    ensures HeaderLine(name + [COLON] + (left + value + right)) == Success((name, value))
  {
    hide IsToken, HasControl, TrimLeft, TrimRight, Colon, Trimmed;
    var line := name + [COLON] + (left + value + right);
    TokensDelimit(name);
    FirstColon(name, left + value + right);
    TrimmedReadsBack(left, value, right);
    assert IsAscii(line);
    assert line[..|name|] == name && line[|name| + 1..] == left + value + right;
    assert Colon(line) == Some(|name|);
  }

  // ---- the head and the whole request --------------------------------------------------------------------

  /** Header lines one after the other, and the empty line that ends them. */
  function HeadBytes(lines: seq<Bytes>): Bytes {
    if lines == [] then [] + CRLF else (lines[0] + CRLF) + HeadBytes(lines[1..])
  }

  /** What the header lines say together, the first refusal counting. */
  function Folded(h: Head, lines: seq<Bytes>): Result<Head, RequestFailure>
    decreases |lines|
  {
    var (next, _) :- AfterLine(h, if lines == [] then [] else lines[0]);
    if lines == [] then Success(next) else Folded(next, lines[1..])
  }

  lemma LineReadsBack(s: Bytes, c: nat, line: Bytes, ending: Ending, limit: nat, tooLong: RequestFailure)
    requires Sits(s, c, line + CRLF) && LF !in line
    ensures LineAt(s[c..], ending, limit, tooLong)
         == if |line| + 2 <= limit then (Line(line), |line| + 2) else (BadLine(tooLong), limit + 1)
  {
    var (all, n) := (s[c..], |line|);
    assert all[..n + 2] == s[c..c + n + 2] == line + CRLF;
    assert forall i | 0 <= i < n :: all[i] == line[i] && line[i] in line;
    assert all[n] == CR && all[n + 1] == LF;
    FirstLfIs(all, n + 1);
    assert all[..n + 2][..n] == line;
  }

  /** The head is read exactly as its lines say, and takes exactly their bytes when it is accepted. */
  lemma {:induction false} HeadReadsBack(s: Bytes, ending: Ending, c: nat, h: Head, lines: seq<Bytes>)
    requires Sits(s, c, HeadBytes(lines)) && forall line <- lines :: line != [] && LF !in line
    ensures HeadAt(s, ending, c, h).0 == Folded(h, lines)
    ensures Folded(h, lines).Success? ==> HeadAt(s, ending, c, h).1 == c + |HeadBytes(lines)|
    decreases |lines|
  {
    hide LineAt, HeaderLine, WithHeader, Sits;
    if lines == [] {
      LineReadsBack(s, c, [], ending, MAX_HEADERS_LEN, HeadersTooLarge);
    } else {
      var (line, rest) := (lines[0], lines[1..]);
      assert line in lines && forall other <- rest :: other in lines;
      SitsApart(s, c, line + CRLF, HeadBytes(rest));
      LineReadsBack(s, c, line, ending, MAX_HEADERS_LEN, HeadersTooLarge);
      OnlyEmptyContinues(h, line);
      if AfterLine(h, line).Success? {
        HeadReadsBack(s, ending, c + |line| + 2, AfterLine(h, line).value.0, rest);
      }
    }
  }

  lemma OnlyEmptyContinues(h: Head, line: Bytes)
    requires line != []
    ensures AfterLine(h, line).Success? ==> !AfterLine(h, line).value.1 && h.size + |line| + 2 <= MAX_HEADERS_LEN
    ensures |line| + 2 > MAX_HEADERS_LEN ==> AfterLine(h, line) == Failure(HeadersTooLarge)
  {
    hide HeaderLine, WithHeader;
    if AfterLine(h, line).Success? {
      var header := HeaderLine(line).value;
      WithHeaderKeepsSize(h.(size := h.size + |line| + 2), header.0, header.1);
    }
  }

  lemma WithHeaderKeepsSize(h: Head, name: Bytes, value: Bytes)
    ensures WithHeader(h, name, value).Success? ==> WithHeader(h, name, value).value.size == h.size
  {
    hide Ascii, Lower, Decimal, AllDigits;
  }

  function RequestBytes(verb: Bytes, target: Bytes, lines: seq<Bytes>, body: Bytes): Bytes {
    (RequestLineBytes(verb, target) + CRLF) + (HeadBytes(lines) + body)
  }

  /**
   A printed request whose headers together declare the length of its body is read back exactly, and nothing after
   it is taken.
   */
  lemma RequestReadsBack(verb: Bytes, target: Bytes, lines: seq<Bytes>, body: Bytes,
                         more: Bytes, ending: Ending)
    requires IsToken(verb) && Target(target) && LF !in target
    requires |RequestLineBytes(verb, target)| + 2 <= MAX_REQUEST_LINE_LEN
    requires forall line <- lines :: line != [] && LF !in line
    requires Folded(NO_HEADERS, lines).Success? && Verdict(verb, Folded(NO_HEADERS, lines).value) == Success(|body|)
    ensures RequestAt(RequestBytes(verb, target, lines, body) + more, ending)
         == (Success(Request(verb, target, body)), |RequestBytes(verb, target, lines, body)|)
  {
    hide LineAt, HeadAt, RequestLine, Verdict, Folded, HeadBytes, IsToken, RequestLineBytes;
    var (first, head) := (RequestLineBytes(verb, target), HeadBytes(lines));
    var s := RequestBytes(verb, target, lines, body) + more;
    var (n, c) := (|first| + 2, |first| + 2 + |head|);
    assert s[0..n] == first + CRLF && s[0..] == s;
    assert s[n..n + |head|] == head;
    assert s[c..c + |body|] == body;
    TokensDelimit(verb);
    LineHasNoLf(verb, target);
    RequestLineReadsBack(verb, target);
    LineReadsBack(s, 0, first, ending, MAX_REQUEST_LINE_LEN, RequestLineTooLong);
    HeadReadsBack(s, ending, n, NO_HEADERS, lines);
  }

  lemma LineHasNoLf(verb: Bytes, target: Bytes)
    requires LF !in verb && LF !in target
    ensures LF !in RequestLineBytes(verb, target)
  {
    VersionText();
  }

  // ---- a request with its own length ---------------------------------------------------------------------

  function DecimalText(n: nat): Bytes {
    if n < 10 then [48 + n] else DecimalText(n / 10) + [48 + n % 10]
  }

  lemma {:induction false} DecimalReadsBack(n: nat)
    ensures AllDigits(DecimalText(n)) && DecimalText(n) != [] && Decimal(DecimalText(n)) == n
  {
    if n < 10 {
      assert DecimalText(n)[..0] == [];
      assert Decimal([]) == 0;
    } else {
      DecimalReadsBack(n / 10);
      var text := DecimalText(n);
      assert text[..|text| - 1] == DecimalText(n / 10);
    }
  }

  const HOST: Bytes := [72, 111, 115, 116]
  const CONTENT_LENGTH: Bytes := [67, 111, 110, 116, 101, 110, 116, 45, 76, 101, 110, 103, 116, 104]

  lemma {:induction false} LowerAt(s: Bytes)
    ensures |Lower(s)| == |s|
    ensures forall i | 0 <= i < |s| :: Lower(s)[i] == if 65 <= s[i] <= 90 then s[i] + 32 else s[i]
  {
    if s != [] { LowerAt(s[1..]); }
  }

  lemma Names()
    ensures Lower(HOST) == Ascii("host") && Lower(CONTENT_LENGTH) == Ascii("content-length")
    ensures |Ascii("host")| == 4 && |Ascii("content-length")| == 14 && |Ascii("transfer-encoding")| == 17
    ensures IsToken(HOST) && IsToken(CONTENT_LENGTH)
  {
    hide Lower, Ascii;
    LowerAt(HOST);
    LowerAt(CONTENT_LENGTH);
    AsciiAt("host");
    AsciiAt("content-length");
    AsciiAt("transfer-encoding");
  }

  datatype Field = Field(name: Bytes, value: Bytes)

  /** A field a client may add freely: well formed, and none of those that decide about the body or the host. */
  predicate Extra(f: Field) {
    && IsToken(f.name) && Trimmed(f.value) && IsAscii(f.value) && !HasControl(f.value) && LF !in f.value
    && Lower(f.name) !in {Ascii("content-length"), Ascii("transfer-encoding"), Ascii("host")}
  }

  function FieldLine(f: Field): Bytes {
    f.name + [COLON] + ([SP] + f.value + [])
  }

  function FieldLines(fields: seq<Field>): seq<Bytes> {
    if fields == [] then [] else [FieldLine(fields[0])] + FieldLines(fields[1..])
  }

  lemma FieldLineReadsBack(f: Field)
    requires IsToken(f.name) && Trimmed(f.value) && IsAscii(f.value) && !HasControl(f.value) && LF !in f.value
    ensures HeaderLine(FieldLine(f)) == Success((f.name, f.value))
    ensures FieldLine(f) != [] && LF !in FieldLine(f)
  {
    hide IsToken, HasControl, HeaderLine, Trimmed;
    TokensDelimit(f.name);
    HeaderLineReadsBack(f.name, [SP], f.value, []);
  }

  lemma {:induction false} ExtrasChangeNothing(h: Head, extras: seq<Field>)
    requires forall f <- extras :: Extra(f)
    requires h.size + |HeadBytes(FieldLines(extras))| <= MAX_HEADERS_LEN
    ensures Folded(h, FieldLines(extras)) == Success(h.(size := h.size + |HeadBytes(FieldLines(extras))|))
    ensures forall line <- FieldLines(extras) :: line != [] && LF !in line
    decreases |extras|
  {
    hide HeaderLine, IsToken, HasControl, Trimmed, FieldLine, Ascii, Lower;
    if extras != [] {
      var (f, rest) := (extras[0], extras[1..]);
      var (line, lines) := (FieldLine(f), FieldLines(extras));
      assert f in extras && forall other <- rest :: other in extras;
      FieldLineReadsBack(f);
      assert lines[0] == line && lines[1..] == FieldLines(rest);
      assert AfterLine(h, line) == Success((h.(size := h.size + |line| + 2), false));
      ExtrasChangeNothing(h.(size := h.size + |line| + 2), rest);
    }
  }

  /** The lines of a request to `host` with a body of `length` bytes. */
  function HeaderLines(host: Bytes, length: nat, extras: seq<Field>): seq<Bytes> {
    [FieldLine(Field(HOST, host)), FieldLine(Field(CONTENT_LENGTH, DecimalText(length)))] + FieldLines(extras)
  }

  lemma DigitsAreAValue(length: nat)
    ensures var text := DecimalText(length);
            Trimmed(text) && IsAscii(text) && !HasControl(text) && LF !in text && text != [] && AllDigits(text)
    ensures Decimal(DecimalText(length)) == length
  {
    hide Decimal, DecimalText;
    DecimalReadsBack(length);
  }

  lemma HeaderLinesFold(host: Bytes, length: nat, extras: seq<Field>)
    requires host != [] && Trimmed(host) && IsAscii(host) && !HasControl(host) && LF !in host
    requires length <= MAX_BODY_LEN && |HeadBytes(HeaderLines(host, length, extras))| <= MAX_HEADERS_LEN
    requires forall f <- extras :: Extra(f)
    ensures var lines := HeaderLines(host, length, extras);
            && (forall line <- lines :: line != [] && LF !in line)
            && Folded(NO_HEADERS, lines) == Success(Head(Some(length), false, true, |HeadBytes(lines)|))
  {
    hide HeaderLine, IsToken, HasControl, Trimmed, FieldLine, Ascii, Lower, Decimal, DecimalText, AllDigits, FieldLines, Extra;
    Names();
    DigitsAreAValue(length);
    var (first, second) := (FieldLine(Field(HOST, host)), FieldLine(Field(CONTENT_LENGTH, DecimalText(length))));
    var (lines, rest) := (HeaderLines(host, length, extras), FieldLines(extras));
    FieldLineReadsBack(Field(HOST, host));
    FieldLineReadsBack(Field(CONTENT_LENGTH, DecimalText(length)));
    assert lines[0] == first && lines[1..] == [second] + rest && lines[1..][0] == second && lines[1..][1..] == rest;
    var h1 := Head(None, false, true, |first| + 2);
    var h2 := Head(Some(length), false, true, |first| + 2 + |second| + 2);
    assert |HeadBytes(lines)| == |first| + 2 + (|second| + 2 + |HeadBytes(rest)|);
    assert AfterLine(NO_HEADERS, first) == Success((h1, false));
    assert AfterLine(h1, second) == Success((h2, false));
    ExtrasChangeNothing(h2, extras);
    assert Folded(h1, lines[1..]) == Folded(h2, rest);
  }

  /**
   A request printed with its host, the decimal length of its body and any further fields is read back exactly, and
   nothing after it is taken.
   */
  lemma PrintedRequestReadsBack(verb: Bytes, target: Bytes, host: Bytes, extras: seq<Field>, body: Bytes,
                                more: Bytes, ending: Ending)
    requires IsToken(verb) && Target(target) && LF !in target
    requires host != [] && Trimmed(host) && IsAscii(host) && !HasControl(host) && LF !in host
    requires forall f <- extras :: Extra(f)
    requires |RequestLineBytes(verb, target)| + 2 <= MAX_REQUEST_LINE_LEN && |body| <= MAX_BODY_LEN
    requires |HeadBytes(HeaderLines(host, |body|, extras))| <= MAX_HEADERS_LEN
    ensures var printed := RequestBytes(verb, target, HeaderLines(host, |body|, extras), body);
            RequestAt(printed + more, ending) == (Success(Request(verb, target, body)), |printed|)
  {
    hide RequestAt, Folded, HeaderLines, HeadBytes, RequestBytes, RequestLineBytes, IsToken, HasControl, Trimmed, Extra, Ascii;
    HeaderLinesFold(host, |body|, extras);
    RequestReadsBack(verb, target, HeaderLines(host, |body|, extras), body, more, ending);
  }

  // ---- what an accepted head declares --------------------------------------------------------------------

  /** An accepted head is a block of header lines, and reads as they do together. */
  lemma {:induction false} AcceptedHeadIsLines(s: Bytes, ending: Ending, c: nat, h: Head) returns (lines: seq<Bytes>)
    requires c <= |s| && HeadAt(s, ending, c, h).0.Success?
    ensures forall line <- lines :: line != [] && LF !in line
    ensures Sits(s, c, HeadBytes(lines)) && HeadAt(s, ending, c, h) == (Folded(h, lines), c + |HeadBytes(lines)|)
    decreases |s| - c
  {
    hide LineAt, AfterLine, Sits;
    var (line, n) := LineAt(s[c..], ending, MAX_HEADERS_LEN, HeadersTooLarge);
    AcceptedLineSits(s, ending, c);
    var (next, done) := AfterLine(h, line.text).value;
    OnlyEmptyLineEnds(h, line.text);
    if done {
      lines := [];
      assert [] + CRLF == CRLF;
    } else {
      lines := AcceptedHeadIsLines(s, ending, c + n, next);
      SitsTogether(s, c, line.text + CRLF, HeadBytes(lines));
      assert ([line.text] + lines)[1..] == lines;
      lines := [line.text] + lines;
    }
  }

  lemma AcceptedLineSits(s: Bytes, ending: Ending, c: nat)
    requires c <= |s| && LineAt(s[c..], ending, MAX_HEADERS_LEN, HeadersTooLarge).0.Line?
    ensures var (line, n) := LineAt(s[c..], ending, MAX_HEADERS_LEN, HeadersTooLarge);
            n == |line.text| + 2 && LF !in line.text && Sits(s, c, line.text + CRLF)
  {
    hide LineAt;
    var (line, n) := LineAt(s[c..], ending, MAX_HEADERS_LEN, HeadersTooLarge);
    LineLayout(s[c..], ending, MAX_HEADERS_LEN, HeadersTooLarge);
    var text := line.text;
    assert s[c..][..n - 2] == s[c..c + n - 2] == text;
    assert forall i | 0 <= i < |text| :: text[i] == s[c..][i];
    assert s[c + n - 2] == s[c..][n - 2] && s[c + n - 1] == s[c..][n - 1];
    assert s[c..c + n] == text + CRLF;
  }

  lemma SitsTogether(bytes: Bytes, offset: nat, x: Bytes, y: Bytes)
    requires Sits(bytes, offset, x) && Sits(bytes, offset + |x|, y)
    ensures Sits(bytes, offset, x + y)
  {
  }

  /** The line is a Content-Length field. */
  predicate IsLengthLine(line: Bytes) {
    HeaderLine(line).Success? && Lower(HeaderLine(line).value.0) == Ascii("content-length")
  }

  predicate Declares(line: Bytes, n: nat) {
    && IsLengthLine(line)
    && var digits := HeaderLine(line).value.1;
    && digits != [] && AllDigits(digits) && Decimal(digits) == n
  }

  /** `i` is the one Content-Length line, and it says `n`. */
  predicate DeclaredAt(lines: seq<Bytes>, i: nat, n: nat) {
    i < |lines| && Declares(lines[i], n) && forall j | 0 <= j < |lines| && j != i :: !IsLengthLine(lines[j])
  }

  lemma OneLineDeclares(h: Head, line: Bytes)
    requires line != [] && AfterLine(h, line).Success?
    ensures var next := AfterLine(h, line).value.0;
            if IsLengthLine(line) then
              h.contentLength.None? && next.contentLength.Some? && Declares(line, next.contentLength.value)
            else next.contentLength == h.contentLength
  {
    hide HeaderLine, Ascii, Lower, Decimal, AllDigits;
  }

  lemma {:induction false} FoldedDeclares(h: Head, lines: seq<Bytes>) returns (i: nat)
    requires Folded(h, lines).Success? && forall line <- lines :: line != []
    ensures var length := Folded(h, lines).value.contentLength;
            if h.contentLength.Some? || length.None? then
              length == h.contentLength && forall line <- lines :: !IsLengthLine(line)
            else DeclaredAt(lines, i, length.value)
    decreases |lines|
  {
    hide AfterLine, IsLengthLine, Declares;
    i := 0;
    if lines == [] {
      EndDeclaresNothing(h);
    } else {
      var (line, rest) := (lines[0], lines[1..]);
      assert line in lines && forall other <- rest :: other in lines;
      OneLineDeclares(h, line);
      var k := FoldedDeclares(AfterLine(h, line).value.0, rest);
      if !IsLengthLine(line) { i := k + 1; }
      assert forall j | 0 < j < |lines| :: lines[j] == rest[j - 1] && rest[j - 1] in rest;
    }
  }

  lemma EndDeclaresNothing(h: Head)
    ensures AfterLine(h, []).Success? ==> AfterLine(h, []).value.0.contentLength == h.contentLength
  {
  }

  /**
   The body of an accepted request is as long as its one Content-Length line says in decimal, and empty when there is
   no such line: RFC 9112, section 6.3.
   */
  lemma AcceptedBodyIsDeclared(s: Bytes, ending: Ending) returns (lines: seq<Bytes>, i: nat)
    requires RequestAt(s, ending).0.Success?
    ensures var (request, end) := RequestAt(s, ending);
            var n := LineAt(s, ending, MAX_REQUEST_LINE_LEN, RequestLineTooLong).1;
            && Sits(s, n, HeadBytes(lines) + request.value.body) && end == n + |HeadBytes(lines)| + |request.value.body|
            && if forall line <- lines :: !IsLengthLine(line) then request.value.body == []
               else DeclaredAt(lines, i, |request.value.body|)
  {
    hide LineAt, HeadAt, RequestLine, Folded, RequestAt, IsLengthLine, Declares, HeadBytes;
    var head, declared := AcceptedTakesExactly(s, ending);
    var n := LineAt(s, ending, MAX_REQUEST_LINE_LEN, RequestLineTooLong).1;
    lines := AcceptedHeadIsLines(s, ending, n, NO_HEADERS);
    i := FoldedDeclares(NO_HEADERS, lines);
    SitsTogether(s, n, HeadBytes(lines), RequestAt(s, ending).0.value.body);
    if declared.contentLength.Some? {
      assert lines[i] in lines && IsLengthLine(lines[i]) by { DeclaredIsLength(lines, i, declared.contentLength.value); }
    }
  }

  lemma DeclaredIsLength(lines: seq<Bytes>, i: nat, n: nat)
    requires DeclaredAt(lines, i, n)
    ensures IsLengthLine(lines[i])
  {
  }
}
