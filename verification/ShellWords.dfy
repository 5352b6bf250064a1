/** The controller's quoting of runtime values for a shell, and the console's tokenizer. */
module ShellWords {
  import opened Text
  import opened Wrappers

  // ---- quoting -------------------------------------------------------------------------------------------

  predicate IsLiteral(c: char) {
    'a' <= c <= 'z' || 'A' <= c <= 'Z' || '0' <= c <= '9' || c in "_-./:@%+,="
  }

  predicate AllLiteral(value: string) {
    forall i | 0 <= i < |value| :: IsLiteral(value[i])
  }

  /** The body of a single-quoted word: each quote closes, is escaped, and opens again. */
  function Escaped(value: string): string {
    if value == [] then [] else EscapedChar(value[0]) + Escaped(value[1..])
  }

  function EscapedChar(c: char): string {
    if c == '\'' then "'\\''" else [c]
  }

  function Quote(value: string): string {
    if AllLiteral(value) then value else "'" + Escaped(value) + "'"
  }

  lemma EscapedAppend(value: string, c: char)
    ensures Escaped(value + [c]) == Escaped(value) + EscapedChar(c)
  {
    hide EscapedChar;
    if value == [] {
      assert value + [c] == [c] && [c][1..] == [];
      assert Escaped([c]) == EscapedChar(c) + Escaped([c][1..]);
    } else {
      EscapedAppend(value[1..], c);
      assert value + [c] == [value[0]] + (value[1..] + [c]);
      assert Escaped(value + [c]) == EscapedChar(value[0]) + Escaped(value[1..] + [c]);
    }
  }

  method ShellQuoteReplacement(value: string) returns (quoted: string)
    ensures quoted == Quote(value)
  {
    var literal := true;
    var i := 0;
    while i < |value| && literal
      invariant 0 <= i <= |value| && (literal <==> forall j | 0 <= j < i :: IsLiteral(value[j]))
    {
      literal := IsLiteral(value[i]);
      i := i + 1;
    }
    if literal {
      return value;
    }
    quoted := "'";
    i := 0;
    while i < |value|
      invariant 0 <= i <= |value| && quoted == "'" + Escaped(value[..i])
    {
      assert value[..i + 1] == value[..i] + [value[i]];
      EscapedAppend(value[..i], value[i]);
      if value[i] == '\'' {
        quoted := quoted + "'\\''";
      } else {
        quoted := quoted + [value[i]];
      }
      i := i + 1;
    }
    assert value[..|value|] == value;
    quoted := quoted + "'";
  }

  // ---- tokenizing ----------------------------------------------------------------------------------------

  datatype TokenizeError = DanglingEscape | UnterminatedQuote(quote: char)

  datatype Tokenizer = Tokenizer(words: seq<string>, current: string, started: bool, quote: Option<char>, escaped: bool)

  const FRESH := Tokenizer([], "", false, None, false)

  function Step(t: Tokenizer, c: char): Tokenizer {
    if t.escaped then t.(current := t.current + [c], started := true, escaped := false)
    else match t.quote
      case Some('\'') =>
        if c == '\'' then t.(quote := None, started := true) else t.(current := t.current + [c], started := true)
      case Some(_) =>
        if c == '"' then t.(quote := None, started := true)
        else if c == '\\' then t.(escaped := true, started := true)
        else t.(current := t.current + [c], started := true)
      case None =>
        if IsWhitespace(c) then
          if t.started then t.(words := t.words + [t.current], current := "", started := false) else t
        else if c == '\'' || c == '"' then t.(quote := Some(c), started := true)
        else if c == '\\' then t.(escaped := true, started := true)
        else t.(current := t.current + [c], started := true)
  }

  function Scan(t: Tokenizer, line: string): Tokenizer
    decreases |line|
  {
    if line == [] then t else Scan(Step(t, line[0]), line[1..])
  }

  function End(t: Tokenizer): Result<seq<string>, TokenizeError> {
    if t.escaped then Failure(DanglingEscape)
    else if t.quote.Some? then Failure(UnterminatedQuote(t.quote.value))
    else Success(if t.started then t.words + [t.current] else t.words)
  }

  lemma {:induction false} ScanAppend(t: Tokenizer, a: string, b: string)
    ensures Scan(t, a + b) == Scan(Scan(t, a), b)
    decreases |a|
  {
    if a == [] {
      assert a + b == b;
    } else {
      assert (a + b)[1..] == a[1..] + b;
      ScanAppend(Step(t, a[0]), a[1..], b);
    }
  }

  method Tokenize(line: string) returns (r: Result<seq<string>, TokenizeError>)
    ensures r == End(Scan(FRESH, line))
  {
    var words: seq<string> := [];
    var current := "";
    var started := false;
    var quote: Option<char> := None;
    var escaped := false;
    var i := 0;
    while i < |line|
      invariant 0 <= i <= |line|
      invariant Scan(Tokenizer(words, current, started, quote, escaped), line[i..]) == Scan(FRESH, line)
      invariant quote.Some? ==> quote.value in {'\'', '"'}
    {
      var character := line[i];
      assert line[i..][0] == character && line[i..][1..] == line[i + 1..];
      i := i + 1;
      if escaped {
        current := current + [character];
        started := true;
        escaped := false;
        continue;
      }
      if quote == Some('\'') {
        if character == '\'' {
          quote := None;
        } else {
          current := current + [character];
        }
        started := true;
      } else if quote == Some('"') {
        if character == '"' {
          quote := None;
        } else if character == '\\' {
          escaped := true;
        } else {
          current := current + [character];
        }
        started := true;
      } else if IsWhitespace(character) {
        if started {
          words := words + [current];
          current := "";
          started := false;
        }
      } else if character == '\'' || character == '"' {
        quote := Some(character);
        started := true;
      } else if character == '\\' {
        escaped := true;
        started := true;
      } else {
        current := current + [character];
        started := true;
      }
    }
    assert line[i..] == [];
    if escaped {
      return Failure(DanglingEscape);
    }
    if quote.Some? {
      return Failure(UnterminatedQuote(quote.value));
    }
    if started {
      words := words + [current];
    }
    r := Success(words);
  }

  // ---- the round trip ------------------------------------------------------------------------------------

  /** In the middle of a line, outside quotes, with `current` collected so far. */
  function Open(words: seq<string>, current: string, started: bool): Tokenizer {
    Tokenizer(words, current, started, None, false)
  }

  lemma OneLiteral(words: seq<string>, current: string, started: bool, c: char)
    requires IsLiteral(c)
    ensures Step(Open(words, current, started), c) == Open(words, current + [c], true)
  {
  }

  lemma {:induction false} LiteralIsCollected(words: seq<string>, current: string, started: bool, value: string)
    requires AllLiteral(value)
    ensures Scan(Open(words, current, started), value) == Open(words, current + value, started || value != [])
    decreases |value|
  {
    hide Step, Open;
    if value == [] {
      assert current + value == current;
    } else {
      OneLiteral(words, current, started, value[0]);
      LiteralIsCollected(words, current + [value[0]], true, value[1..]);
      assert current + [value[0]] + value[1..] == current + value;
    }
  }

  lemma {:induction false} EscapedIsCollected(words: seq<string>, current: string, value: string)
    ensures Scan(Tokenizer(words, current, true, Some('\''), false), Escaped(value))
         == Tokenizer(words, current + value, true, Some('\''), false)
    decreases |value|
  {
    var t := Tokenizer(words, current, true, Some('\''), false);
    if value == [] {
      assert current + value == current;
    } else {
      var c := value[0];
      var head := EscapedChar(c);
      assert Escaped(value) == head + Escaped(value[1..]);
      ScanAppend(t, head, Escaped(value[1..]));
      OneEscaped(t, c);
      EscapedIsCollected(words, current + [c], value[1..]);
      assert current + [c] + value[1..] == current + value;
    }
  }

  lemma OneEscaped(t: Tokenizer, c: char)
    requires t.quote == Some('\'') && !t.escaped && t.started
    ensures Scan(t, EscapedChar(c)) == t.(current := t.current + [c])
  {
    if c == '\'' {
      var s := "'\\''";
      assert s[1..] == "\\''" && s[1..][1..] == "''" && s[1..][1..][1..] == "'" && s[1..][1..][1..][1..] == [];
      var t1 := Step(t, '\'');
      var t2 := Step(t1, '\\');
      var t3 := Step(t2, '\'');
      var t4 := Step(t3, '\'');
      assert t4 == t.(current := t.current + [c]);
      assert Scan(t, s) == Scan(t1, s[1..]) == Scan(t2, s[1..][1..]) == Scan(t3, s[1..][1..][1..]) == Scan(t4, []);
    } else {
      assert [c][1..] == [];
      assert Scan(t, [c]) == Scan(Step(t, c), []);
    }
  }

  lemma QuotedIsCollected(words: seq<string>, started: bool, value: string)
    ensures Scan(Open(words, "", started), Quote(value)) == Open(words, value, started || value != [])
  {
    if AllLiteral(value) {
      LiteralIsCollected(words, "", started, value);
      assert "" + value == value;
    } else {
      var t := Open(words, "", started);
      var inside := Tokenizer(words, "", true, Some('\''), false);
      assert Quote(value) == ("'" + Escaped(value)) + "'";
      ScanAppend(t, "'" + Escaped(value), "'");
      ScanAppend(t, "'", Escaped(value));
      assert Scan(t, "'") == Scan(Step(t, '\''), []) == inside;
      EscapedIsCollected(words, "", value);
      assert "" + value == value;
      var closing := Tokenizer(words, value, true, Some('\''), false);
      assert Scan(closing, "'") == Scan(Step(closing, '\''), []);
    }
  }

  function Join(values: seq<string>): string {
    if values == [] then ""
    else if |values| == 1 then Quote(values[0])
    else Quote(values[0]) + " " + Join(values[1..])
  }

  function NonEmpty(values: seq<string>): seq<string> {
    if values == [] then [] else (if values[0] == "" then [] else [values[0]]) + NonEmpty(values[1..])
  }

  lemma SpaceEndsWord(words: seq<string>, value: string)
    ensures Scan(Open(words, value, value != []), " ")
         == Open(words + if value == "" then [] else [value], "", false)
  {
    assert Scan(Open(words, value, value != []), " ") == Scan(Step(Open(words, value, value != []), ' '), []);
    assert words + [] == words;
  }

  lemma EndEndsWord(words: seq<string>, value: string)
    ensures End(Open(words, value, value != [])) == Success(words + if value == "" then [] else [value])
  {
    assert words + [] == words;
  }

  lemma {:induction false} JoinIsCollected(words: seq<string>, values: seq<string>)
    ensures End(Scan(Open(words, "", false), Join(values))) == Success(words + NonEmpty(values))
    decreases |values|
  {
    hide Scan, Step, Open, End, Quote;
    if values == [] {
      EndEndsWord(words, "");
      ScanNothing(Open(words, "", false));
    } else {
      var value := values[0];
      var kept := words + if value == "" then [] else [value];
      QuotedIsCollected(words, false, value);
      assert words + NonEmpty(values) == kept + NonEmpty(values[1..]);
      if |values| == 1 {
        assert values[1..] == [] && kept + NonEmpty(values[1..]) == kept;
        EndEndsWord(words, value);
      } else {
        var t := Open(words, "", false);
        assert Join(values) == (Quote(value) + " ") + Join(values[1..]);
        ScanAppend(t, Quote(value) + " ", Join(values[1..]));
        ScanAppend(t, Quote(value), " ");
        SpaceEndsWord(words, value);
        JoinIsCollected(kept, values[1..]);
      }
    }
  }

  lemma ScanNothing(t: Tokenizer)
    ensures Scan(t, "") == t
  {
  }

  lemma {:induction false} NonEmptyLength(values: seq<string>)
    ensures |NonEmpty(values)| <= |values|
    ensures |NonEmpty(values)| == |values| <==> "" !in values
    ensures "" !in values ==> NonEmpty(values) == values
  {
    if values != [] {
      NonEmptyLength(values[1..]);
      assert values == [values[0]] + values[1..];
    }
  }

  /**
   Quoted values joined by spaces are taken apart into exactly those values, whatever characters they contain;
   empty values vanish, so the list comes back exactly when none of them is empty.
   */
  lemma TokenizeInvertsQuote(values: seq<string>)
    ensures End(Scan(FRESH, Join(values))) == Success(NonEmpty(values))
    ensures End(Scan(FRESH, Join(values))) == Success(values) <==> "" !in values
  {
    JoinIsCollected([], values);
    NonEmptyLength(values);
    assert [] + NonEmpty(values) == NonEmpty(values);
  }

  // ---- the tokenizer's other two styles ------------------------------------------------------------------

  /** Inside double quotes a quote or a backslash is escaped; outside quotes everything is. */
  function Backslashed(value: string, onlySpecial: bool): string {
    if value == [] then []
    else
      (if onlySpecial && value[0] !in {'"', '\\'} then [value[0]] else ['\\', value[0]]) + Backslashed(value[1..], onlySpecial)
  }

  lemma OneBackslashed(t: Tokenizer, c: char, onlySpecial: bool)
    requires !t.escaped && t.quote == if onlySpecial then Some('"') else None
    ensures Scan(t, if onlySpecial && c !in {'"', '\\'} then [c] else ['\\', c])
         == t.(current := t.current + [c], started := true)
  {
    assert ['\\', c][1..] == [c] && [c][1..] == [];
    assert Scan(t, ['\\', c]) == Scan(Step(t, '\\'), [c]) == Scan(Step(Step(t, '\\'), c), []);
    assert Scan(t, [c]) == Scan(Step(t, c), []);
  }

  lemma {:induction false} BackslashedIsCollected(t: Tokenizer, value: string, onlySpecial: bool)
    requires !t.escaped && t.quote == if onlySpecial then Some('"') else None
    ensures Scan(t, Backslashed(value, onlySpecial)) == t.(current := t.current + value, started := t.started || value != [])
    decreases |value|
  {
    hide Step;
    if value == [] {
      ScanNothing(t);
      assert t.current + value == t.current;
    } else {
      var head := if onlySpecial && value[0] !in {'"', '\\'} then [value[0]] else ['\\', value[0]];
      assert Backslashed(value, onlySpecial) == head + Backslashed(value[1..], onlySpecial);
      ScanAppend(t, head, Backslashed(value[1..], onlySpecial));
      OneBackslashed(t, value[0], onlySpecial);
      BackslashedIsCollected(t.(current := t.current + [value[0]], started := true), value[1..], onlySpecial);
      assert t.current + [value[0]] + value[1..] == t.current + value;
    }
  }

  /** Double-quoted or backslash-escaped, every value is one word; only double quotes can spell the empty one. */
  lemma EveryStyleIsOneWord(value: string)
    ensures End(Scan(FRESH, "\"" + Backslashed(value, true) + "\"")) == Success([value])
    ensures End(Scan(FRESH, Backslashed(value, false))) == Success(if value == "" then [] else [value])
  {
    hide Step;
    var body := Backslashed(value, true);
    ScanAppend(FRESH, "\"" + body, "\"");
    ScanAppend(FRESH, "\"", body);
    var inside := Tokenizer([], "", true, Some('"'), false);
    OneQuote(FRESH);
    BackslashedIsCollected(inside, value, true);
    assert "" + value == value;
    OneQuote(inside.(current := value));
    BackslashedIsCollected(FRESH, value, false);
    EndEndsWord([], value);
    assert FRESH.words + [value] == [value];
  }

  lemma OneQuote(t: Tokenizer)
    requires !t.escaped && t.quote in {None, Some('"')}
    ensures Scan(t, "\"") == t.(quote := if t.quote == None then Some('"') else None, started := true)
  {
    assert Scan(t, "\"") == Scan(Step(t, '"'), []);
  }
}
