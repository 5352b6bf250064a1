/**
 The grammar that the console's tokenizer accepts, said without the tokenizer: a line is white space and pieces of
 words, possibly with something unfinished at the end.  Every line has one such reading, and it alone decides.
 */
module ShellGrammar {
  import opened Text
  import opened Wrappers
  import opened ShellWords

  /** A character between double quotes, with or without a backslash before it. */
  datatype Mark = Mark(c: char, escaped: bool)

  datatype Item = Blank(c: char) | Bare(c: char) | Escape(c: char) | Single(text: string) | Double(marks: seq<Mark>)

  datatype Unfinished = Nothing | HalfEscape | HalfSingle(text: string) | HalfDouble(marks: seq<Mark>, escape: bool)

  // ---- how it is written ---------------------------------------------------------------------------------

  function MarkSource(m: Mark): string {
    if m.escaped then ['\\', m.c] else [m.c]
  }

  function MarksSource(marks: seq<Mark>): string {
    if marks == [] then "" else MarkSource(marks[0]) + MarksSource(marks[1..])
  }

  function MarksText(marks: seq<Mark>): string {
    if marks == [] then "" else [marks[0].c] + MarksText(marks[1..])
  }

  function ItemSource(item: Item): string {
    match item
    case Blank(c) => [c]
    case Bare(c) => [c]
    case Escape(c) => ['\\', c]
    case Single(text) => "'" + (text + "'")
    case Double(marks) => "\"" + (MarksSource(marks) + "\"")
  }

  function Source(items: seq<Item>): string {
    if items == [] then "" else ItemSource(items[0]) + Source(items[1..])
  }

  function UnfinishedSource(u: Unfinished): string {
    match u
    case Nothing => ""
    case HalfEscape => "\\"
    case HalfSingle(text) => "'" + text
    case HalfDouble(marks, escape) => "\"" + (MarksSource(marks) + if escape then "\\" else "")
  }

  predicate MarkOk(m: Mark) {
    m.escaped || m.c !in {'"', '\\'}
  }

  predicate ItemOk(item: Item) {
    match item
    case Blank(c) => IsWhitespace(c)
    case Bare(c) => !IsWhitespace(c) && c !in {'\'', '"', '\\'}
    case Escape(_) => true
    case Single(text) => '\'' !in text
    case Double(marks) => forall m <- marks :: MarkOk(m)
  }

  predicate UnfinishedOk(u: Unfinished) {
    match u
    case Nothing => true
    case HalfEscape => true
    case HalfSingle(text) => '\'' !in text
    case HalfDouble(marks, _) => forall m <- marks :: MarkOk(m)
  }

  /** `line` reads as these items and this unfinished rest. */
  predicate ReadsAs(line: string, items: seq<Item>, u: Unfinished) {
    line == Source(items) + UnfinishedSource(u) && (forall item <- items :: ItemOk(item)) && UnfinishedOk(u)
  }

  // ---- what it means -------------------------------------------------------------------------------------

  function ItemText(item: Item): string
    requires !item.Blank?
  {
    match item
    case Bare(c) => [c]
    case Escape(c) => [c]
    case Single(text) => text
    case Double(marks) => MarksText(marks)
  }

  /** White space ends a word; pieces next to each other make one word.  `current` is the word under way, if any. */
  function Words(items: seq<Item>, current: Option<string>): seq<string>
    decreases |items|
  {
    var done := match current case Some(word) => [word] case None => [];
    if items == [] then done
    else if items[0].Blank? then done + Words(items[1..], None)
    else Words(items[1..], Some((if current.Some? then current.value else "") + ItemText(items[0])))
  }

  function Meaning(items: seq<Item>, u: Unfinished): Result<seq<string>, TokenizeError> {
    match u
    case Nothing => Success(Words(items, None))
    case HalfEscape => Failure(DanglingEscape)
    case HalfSingle(_) => Failure(UnterminatedQuote('\''))
    case HalfDouble(_, escape) => Failure(if escape then DanglingEscape else UnterminatedQuote('"'))
  }

  // ---- every line has a reading --------------------------------------------------------------------------

  lemma {:induction false} MarksOf(line: string) returns (marks: seq<Mark>, rest: string, escape: bool)
    ensures (forall m <- marks :: MarkOk(m)) && MarksSource(marks) + rest == line
    ensures rest == "" || rest[0] == '"' || rest == "\\"
    ensures escape <==> rest == "\\"
    decreases |line|
  {
    if line == "" || line[0] == '"' || line == "\\" {
      marks, rest, escape := [], line, line == "\\";
    } else {
      var first := if line[0] == '\\' then Mark(line[1], true) else Mark(line[0], false);
      var n := |MarkSource(first)|;
      var more;
      more, rest, escape := MarksOf(line[n..]);
      marks := [first] + more;
      assert marks[1..] == more;
      assert line == MarkSource(first) + line[n..];
      assert MarksSource(marks) + rest == MarkSource(first) + (MarksSource(more) + rest);
    }
  }

  lemma {:induction false} QuoteEnds(line: string) returns (text: string, rest: string)
    ensures '\'' !in text && text + rest == line && (rest == "" || rest[0] == '\'')
    decreases |line|
  {
    if line == "" || line[0] == '\'' {
      text, rest := "", line;
    } else {
      text, rest := QuoteEnds(line[1..]);
      text := [line[0]] + text;
    }
  }

  /** The first item of a line that has one; otherwise the line is all unfinished. */
  lemma FirstItem(line: string) returns (items: seq<Item>, u: Unfinished, rest: string)
    requires line != ""
    ensures |items| <= 1 && (forall item <- items :: ItemOk(item)) && UnfinishedOk(u)
    ensures items == [] ==> rest == "" && line == UnfinishedSource(u)
    ensures items != [] ==> u == Nothing && line == ItemSource(items[0]) + rest && |rest| < |line|
  {
    items, u, rest := [], Nothing, line[1..];
    if line[0] == '\\' {
      if rest == "" {
        u := HalfEscape;
      } else {
        items, rest := [Escape(line[1])], line[2..];
      }
    } else if line[0] == '\'' {
      var text, after := QuoteEnds(line[1..]);
      if after == "" {
        u, rest := HalfSingle(text), "";
        assert text + after == text;
      } else {
        items, rest := [Single(text)], after[1..];
        assert line == "'" + (text + "'") + after[1..];
      }
    } else if line[0] == '"' {
      var marks, after, escape := MarksOf(line[1..]);
      if after == "" || escape {
        u, rest := HalfDouble(marks, escape), "";
      } else {
        items, rest := [Double(marks)], after[1..];
        assert line == "\"" + (MarksSource(marks) + "\"") + after[1..];
      }
    } else {
      items := [if IsWhitespace(line[0]) then Blank(line[0]) else Bare(line[0])];
    }
  }

  lemma {:induction false} Reading(line: string) returns (items: seq<Item>, u: Unfinished)
    ensures ReadsAs(line, items, u)
    decreases |line|
  {
    if line == "" {
      items, u := [], Nothing;
    } else {
      var first, rest;
      first, u, rest := FirstItem(line);
      items := first;
      if first != [] {
        var more;
        more, u := Reading(rest);
        items := first + more;
        assert items[1..] == more && items[0] == first[0];
        assert ItemSource(first[0]) + (Source(more) + UnfinishedSource(u)) == Source(items) + UnfinishedSource(u);
      }
    }
  }

  // ---- the tokenizer follows every reading ---------------------------------------------------------------

  lemma ScanOne(t: Tokenizer, c: char, rest: string)
    ensures Scan(t, [c] + rest) == Scan(Step(t, c), rest)
  {
    hide Step;
    assert ([c] + rest)[1..] == rest;
  }

  lemma {:induction false} SingleIsCollected(t: Tokenizer, text: string)
    requires t.quote == Some('\'') && !t.escaped && t.started && '\'' !in text
    ensures Scan(t, text) == t.(current := t.current + text)
    decreases |text|
  {
    if text == "" {
      assert t.current + text == t.current;
    } else {
      assert text[0] in text && forall c <- text[1..] :: c in text;
      SingleIsCollected(t.(current := t.current + [text[0]]), text[1..]);
      assert t.current + [text[0]] + text[1..] == t.current + text;
    }
  }

  lemma OneMark(t: Tokenizer, m: Mark)
    requires t.quote == Some('"') && !t.escaped && t.started && MarkOk(m)
    ensures Scan(t, MarkSource(m)) == t.(current := t.current + [m.c])
  {
    if m.escaped {
      assert MarkSource(m) == ['\\'] + ([m.c] + "");
      ScanOne(t, '\\', [m.c] + "");
      ScanOne(Step(t, '\\'), m.c, "");
    } else {
      assert MarkSource(m) == [m.c] + "";
      ScanOne(t, m.c, "");
    }
  }

  lemma {:induction false} MarksAreCollected(t: Tokenizer, marks: seq<Mark>)
    requires t.quote == Some('"') && !t.escaped && t.started && forall m <- marks :: MarkOk(m)
    ensures Scan(t, MarksSource(marks)) == t.(current := t.current + MarksText(marks))
    decreases |marks|
  {
    hide Step, Scan, MarkSource, MarkOk;
    if marks == [] {
      assert t.current + "" == t.current;
      ScanNothing(t);
    } else {
      var (m, rest) := (marks[0], marks[1..]);
      assert m in marks && forall other <- rest :: other in marks;
      var next := t.(current := t.current + [m.c]);
      ScanAppend(t, MarkSource(m), MarksSource(rest));
      OneMark(t, m);
      MarksAreCollected(next, rest);
      assert next.current + MarksText(rest) == t.current + ([m.c] + MarksText(rest));
    }
  }

  /** Outside quotes, with `current` the word under way. */
  function Between(words: seq<string>, current: Option<string>): Tokenizer {
    Open(words, if current.Some? then current.value else "", current.Some?)
  }

  function AfterItem(words: seq<string>, current: Option<string>, item: Item): Tokenizer {
    if item.Blank? then Between(words + (match current case Some(word) => [word] case None => []), None)
    else Between(words, Some((if current.Some? then current.value else "") + ItemText(item)))
  }

  lemma ItemIsFollowed(words: seq<string>, current: Option<string>, item: Item)
    requires ItemOk(item)
    ensures Scan(Between(words, current), ItemSource(item)) == AfterItem(words, current, item)
  {
    var t := Between(words, current);
    match item
    case Blank(c) =>
      ScanOne(t, c, "");
      assert [c] + "" == [c] && words + [] == words;
    case Bare(c) =>
      ScanOne(t, c, "");
      assert [c] + "" == [c];
    case Escape(c) =>
      assert ['\\', c] == ['\\'] + ([c] + "");
      ScanOne(t, '\\', [c] + "");
      ScanOne(Step(t, '\\'), c, "");
    case Single(text) =>
      var inside := t.(quote := Some('\''), started := true);
      ScanOne(t, '\'', text + "'");
      ScanAppend(inside, text, "'");
      SingleIsCollected(inside, text);
      ScanOne(inside.(current := t.current + text), '\'', "");
      assert "'" + "" == "'";
    case Double(marks) =>
      var inside := t.(quote := Some('"'), started := true);
      ScanOne(t, '"', MarksSource(marks) + "\"");
      ScanAppend(inside, MarksSource(marks), "\"");
      MarksAreCollected(inside, marks);
      ScanOne(inside.(current := t.current + MarksText(marks)), '"', "");
      assert "\"" + "" == "\"";
  }

  lemma UnfinishedIsFollowed(words: seq<string>, current: Option<string>, u: Unfinished)
    requires UnfinishedOk(u)
    ensures End(Scan(Between(words, current), UnfinishedSource(u))) ==
              match u
              case Nothing => Success(words + Words([], current))
              case HalfEscape => Failure(DanglingEscape)
              case HalfSingle(_) => Failure(UnterminatedQuote('\''))
              case HalfDouble(_, escape) => Failure(if escape then DanglingEscape else UnterminatedQuote('"'))
  {
    var t := Between(words, current);
    match u
    case Nothing =>
      assert words + [] == words;
    case HalfEscape =>
      ScanOne(t, '\\', "");
      assert "\\" + "" == "\\";
    case HalfSingle(text) =>
      ScanOne(t, '\'', text);
      SingleIsCollected(t.(quote := Some('\''), started := true), text);
    case HalfDouble(marks, escape) =>
      var (inside, last) := (t.(quote := Some('"'), started := true), if escape then "\\" else "");
      ScanOne(t, '"', MarksSource(marks) + last);
      ScanAppend(inside, MarksSource(marks), last);
      MarksAreCollected(inside, marks);
      if escape {
        ScanOne(inside.(current := t.current + MarksText(marks)), '\\', "");
        assert "\\" + "" == "\\";
      }
  }

  lemma {:induction false} ReadingIsFollowed(words: seq<string>, current: Option<string>, items: seq<Item>, u: Unfinished)
    requires (forall item <- items :: ItemOk(item)) && UnfinishedOk(u)
    ensures End(Scan(Between(words, current), Source(items) + UnfinishedSource(u))) ==
              match u
              case Nothing => Success(words + Words(items, current))
              case HalfEscape => Failure(DanglingEscape)
              case HalfSingle(_) => Failure(UnterminatedQuote('\''))
              case HalfDouble(_, escape) => Failure(if escape then DanglingEscape else UnterminatedQuote('"'))
    decreases |items|
  {
    hide Scan, End, ItemSource, UnfinishedSource, ItemOk, ItemText, UnfinishedOk, Between;
    var t := Between(words, current);
    if items == [] {
      assert "" + UnfinishedSource(u) == UnfinishedSource(u);
      UnfinishedIsFollowed(words, current, u);
    } else {
      var (item, rest) := (items[0], items[1..]);
      assert item in items && forall other <- rest :: other in items;
      var tail := Source(rest) + UnfinishedSource(u);
      assert Source(items) + UnfinishedSource(u) == ItemSource(item) + tail;
      ScanAppend(t, ItemSource(item), tail);
      ItemIsFollowed(words, current, item);
      if item.Blank? {
        var done := match current case Some(word) => [word] case None => [];
        ReadingIsFollowed(words + done, None, rest, u);
        assert words + done + Words(rest, None) == words + (done + Words(rest, None));
      } else {
        ReadingIsFollowed(words, Some((if current.Some? then current.value else "") + ItemText(item)), rest, u);
      }
    }
  }

  /** Tokenizing a line gives what any reading of it means, and every line has a reading. */
  lemma TokenizingIsReading(line: string) returns (items: seq<Item>, u: Unfinished)
    ensures ReadsAs(line, items, u)
    ensures forall items', u' | ReadsAs(line, items', u') :: End(Scan(FRESH, line)) == Meaning(items', u')
  {
    hide Scan, End, ItemOk, UnfinishedOk;
    items, u := Reading(line);
    forall items', u' | ReadsAs(line, items', u')
      ensures End(Scan(FRESH, line)) == Meaning(items', u')
    {
      ReadingIsFollowed([], None, items', u');
      assert [] + Words(items', None) == Words(items', None);
    }
  }
}
