/** When a value inserted into a control command arrives as one word: it depends on the text around the placeholder. */
module InsertedWords {
  import opened Text
  import opened Wrappers
  import opened ShellWords
  import opened ControlTemplate

  /** Between `a` and `b`, the quoted value is the next whole word after those of `a`, and is exactly the value. */
  predicate Delivers(a: string, value: string, b: string) {
    var (words, r) := (Scan(FRESH, a).words, End(Scan(FRESH, a + Quote(value) + b)));
    r.Success? && |words| < |r.value| && r.value[..|words|] == words && r.value[|words|] == value
  }

  /** The text leaves the tokenizer outside quotes and escapes, with nothing collected for the next word. */
  predicate Neutral(a: string) {
    var t := Scan(FRESH, a);
    !t.escaped && t.quote.None? && t.current == ""
  }

  /** In the middle of a word, the text adds nothing to that word and is well formed. */
  predicate AddsNothing(b: string) {
    var r := End(Scan(Open([], "", true), b));
    r.Success? && r.value != [] && r.value[0] == ""
  }

  // ---- the text after the value --------------------------------------------------------------------------

  /** The tokenizer `t`, started in the middle of a word, as it is when `words` and `current` came before. */
  function Shifted(words: seq<string>, current: string, t: Tokenizer): Tokenizer {
    if t.words == [] then t.(words := words, current := current + t.current)
    else t.(words := words + [current + t.words[0]] + t.words[1..])
  }

  lemma StepShifts(words: seq<string>, current: string, t: Tokenizer, c: char)
    requires t.words == [] ==> t.started
    ensures Step(Shifted(words, current, t), c) == Shifted(words, current, Step(t, c))
    ensures Step(t, c).words == [] ==> Step(t, c).started
  {
    assert current + t.current + [c] == current + (t.current + [c]);
    if t.words == [] {
      assert words + [current + t.current] + [] == words + [current + t.current];
    } else {
      assert (t.words + [t.current])[1..] == t.words[1..] + [t.current];
      assert words + [current + t.words[0]] + t.words[1..] + [t.current]
          == words + [current + t.words[0]] + (t.words[1..] + [t.current]);
    }
  }

  lemma {:induction false} ScanShifts(words: seq<string>, current: string, t: Tokenizer, s: string)
    requires t.words == [] ==> t.started
    ensures Scan(Shifted(words, current, t), s) == Shifted(words, current, Scan(t, s))
    ensures Scan(t, s).words == [] ==> Scan(t, s).started
    decreases |s|
  {
    hide Shifted, Step;
    if s != [] {
      StepShifts(words, current, t, s[0]);
      ScanShifts(words, current, Step(t, s[0]), s[1..]);
    }
  }

  lemma EndShifts(words: seq<string>, current: string, t: Tokenizer)
    requires t.words == [] ==> t.started
    ensures match End(t)
            case Failure(e) => End(Shifted(words, current, t)) == Failure(e)
            case Success(ws) =>
              ws != [] && End(Shifted(words, current, t)) == Success(words + [current + ws[0]] + ws[1..])
  {
    if t.words != [] {
      assert (t.words + [t.current])[1..] == t.words[1..] + [t.current];
      assert words + [current + t.words[0]] + t.words[1..] + [t.current]
          == words + [current + t.words[0]] + (t.words[1..] + [t.current]);
    } else {
      assert [] + [t.current] == [t.current] && [t.current][1..] == [];
      assert words + [current + t.current] + [] == words + [current + t.current];
    }
  }

  /** After a neutral text, whether a value is delivered depends only on whether what follows adds to the word. */
  lemma NeutralDelivers(a: string, value: string, b: string)
    requires Neutral(a) && value != ""
    ensures Delivers(a, value, b) <==> AddsNothing(b)
  {
    hide Step, Quote;
    var t := Scan(FRESH, a);
    var (words, rest) := (t.words, Scan(Open([], "", true), b));
    ScanAppend(FRESH, a + Quote(value), b);
    ScanAppend(FRESH, a, Quote(value));
    QuotedIsCollected(words, t.started, value);
    assert Shifted(words, value, Open([], "", true)) == Open(words, value, true) by { assert value + "" == value; }
    ScanShifts(words, value, Open([], "", true), b);
    EndShifts(words, value, rest);
    if End(rest).Success? {
      var (ws, all) := (End(rest).value, words + [value + End(rest).value[0]] + End(rest).value[1..]);
      assert all[..|words|] == words && all[|words|] == value + ws[0];
      assert value + ws[0] == value <==> ws[0] == "";
    }
  }

  // ---- the text before the value -------------------------------------------------------------------------

  predicate Consistent(t: Tokenizer) {
    && (t.current != "" || t.escaped || t.quote.Some? ==> t.started)
    && (t.quote.Some? ==> t.quote.value in {'\'', '"'})
  }

  lemma {:induction false} ScanConsistent(t: Tokenizer, s: string)
    requires Consistent(t)
    ensures Consistent(Scan(t, s))
    decreases |s|
  {
    if s != [] { ScanConsistent(Step(t, s[0]), s[1..]); }
  }

  /** Words once complete stay, and what is collected stays at the beginning of the next word. */
  predicate Keeps(t: Tokenizer, words: seq<string>) {
    |t.words| < |words| && words[..|t.words|] == t.words && t.current <= words[|t.words|]
  }

  lemma {:induction false} WordsGrow(t: Tokenizer, s: string)
    requires t.started
    ensures End(Scan(t, s)).Success? ==> Keeps(t, End(Scan(t, s)).value)
    decreases |s|
  {
    if s == [] {
    } else if Step(t, s[0]).started {
      WordsGrow(Step(t, s[0]), s[1..]);
    } else {
      CompletedStay(Step(t, s[0]), s[1..]);
    }
  }

  lemma {:induction false} CompletedStay(t: Tokenizer, s: string)
    ensures End(Scan(t, s)).Success? ==> t.words <= End(Scan(t, s)).value
    decreases |s|
  {
    if s != [] { CompletedStay(Step(t, s[0]), s[1..]); }
  }

  const WITNESS := "a b"

  lemma WitnessIsQuoted()
    ensures Quote(WITNESS) == "'a b'"
  {
    assert !IsLiteral(WITNESS[1]);
    assert WITNESS[1..] == " b" && " b"[1..] == "b" && "b"[1..] == "";
    assert Escaped("b") == "b" && Escaped(" b") == " b" && Escaped(WITNESS) == WITNESS;
  }

  lemma ShortValuesAreValid(maxLen: nat)
    requires maxLen >= 3
    ensures ValidReplacement("a", maxLen) && ValidReplacement("b", maxLen) && ValidReplacement(WITNESS, maxLen)
  {
    assert "a"[1..] == "" && "b"[1..] == "" && WITNESS[1..] == " b" && " b"[1..] == "b";
    assert Utf8Len("a") == 1 && Utf8Len("b") == 1 && Utf8Len(" b") == 2 && Utf8Len(WITNESS) == 3;
    assert Trim("a") == "a" && Trim("b") == "b" && Trim(WITNESS) == WITNESS;
  }

  /** A word that has begun cannot become another one: some one-letter value is not delivered. */
  lemma BegunWordFails(a: string, b: string, value: string)
    requires Scan(FRESH, a).current != "" && value != "" && value[0] != Scan(FRESH, a).current[0]
    ensures !Delivers(a, value, b)
  {
    hide Step, Quote;
    var t := Scan(FRESH, a);
    ScanConsistent(FRESH, a);
    assert a + Quote(value) + b == a + (Quote(value) + b);
    ScanAppend(FRESH, a, Quote(value) + b);
    WordsGrow(t, Quote(value) + b);
  }

  /** Inside quotes or after a backslash, the value's own quotes no longer quote it. */
  lemma QuotedSurroundingsFail(a: string, b: string)
    requires var t := Scan(FRESH, a); t.current == "" && (t.escaped || t.quote.Some?)
    ensures !Delivers(a, WITNESS, b)
  {
    hide Quote;
    var t := Scan(FRESH, a);
    ScanConsistent(FRESH, a);
    WitnessIsQuoted();
    var rest := "a b'" + b;
    assert a + Quote(WITNESS) + b == a + ("'" + rest);
    ScanAppend(FRESH, a, "'" + rest);
    var t1 := Step(t, '\'');
    assert ("'" + rest)[1..] == rest;
    assert Scan(t, "'" + rest) == Scan(t1, rest);
    if t.escaped || t.quote == Some('"') {
      assert t1.current == "'";
      WordsGrow(t1, rest);
    } else {
      var (t2, t3) := (Step(t1, 'a'), Step(Step(t1, 'a'), ' '));
      assert rest[1..] == " b'" + b && (" b'" + b)[1..] == "b'" + b;
      assert Scan(t1, rest) == Scan(t2, " b'" + b) == Scan(t3, "b'" + b);
      assert "" + ['a'] == "a" && t2.current == "a";
      assert t3.words == t.words + ["a"];
      CompletedStay(t3, "b'" + b);
    }
  }

  /**
   Two texts are safe around a placeholder, for every value that may be inserted, if and only if the one before is
   neutral and the one after adds nothing to the word.
   */
  lemma SafeSurroundings(a: string, b: string, maxLen: nat)
    requires maxLen >= 3
    ensures (forall value | ValidReplacement(value, maxLen) :: Delivers(a, value, b)) <==> Neutral(a) && AddsNothing(b)
  {
    hide Delivers, AddsNothing, Neutral;
    ShortValuesAreValid(maxLen);
    if Neutral(a) {
      forall value | ValidReplacement(value, maxLen)
        ensures Delivers(a, value, b) <==> AddsNothing(b)
      {
        NeutralDelivers(a, value, b);
      }
    } else if Scan(FRESH, a).current != "" {
      BegunWordFails(a, b, if Scan(FRESH, a).current[0] == 'a' then "b" else "a");
    } else {
      NotNeutral(a);
      QuotedSurroundingsFail(a, b);
    }
  }

  lemma NotNeutral(a: string)
    requires !Neutral(a) && Scan(FRESH, a).current == ""
    ensures Scan(FRESH, a).escaped || Scan(FRESH, a).quote.Some?
  {
  }

  /** A neutral text may be followed by nothing, or by white space and any well-formed rest. */
  lemma BlankAddsNothing(b: string)
    requires b == "" || (IsWhitespace(b[0]) && End(Scan(FRESH, b)).Success?)
    ensures AddsNothing(b)
  {
    var t := Open([], "", true);
    assert [] + [""] == [""];
    if b == "" {
      ScanNothing(t);
    } else {
      var (first, rest) := (Open([""], "", false), b[1..]);
      assert Step(t, b[0]) == first && Step(FRESH, b[0]) == FRESH;
      assert Scan(t, b) == Scan(first, rest) && Scan(FRESH, b) == Scan(FRESH, rest);
      assert [""] + FRESH.words == [""] && FRESH.(words := [""] + FRESH.words) == first;
      FinishedWordStays(FRESH, rest);
    }
  }

  /** A word finished before makes no difference but for coming first. */
  lemma {:induction false} FinishedWordStays(t: Tokenizer, s: string)
    ensures Scan(t.(words := [""] + t.words), s) == Scan(t, s).(words := [""] + Scan(t, s).words)
    decreases |s|
  {
    if s != [] {
      assert [""] + (t.words + [t.current]) == [""] + t.words + [t.current];
      assert Step(t.(words := [""] + t.words), s[0]) == Step(t, s[0]).(words := [""] + Step(t, s[0]).words);
      FinishedWordStays(Step(t, s[0]), s[1..]);
    }
  }

  // ---- templates -----------------------------------------------------------------------------------------

  lemma {:induction false} SubstituteAppend(left: seq<Segment>, right: seq<Segment>, context: Context)
    ensures Substitute(left + right, context) == Substitute(left, context) + Substitute(right, context)
    decreases |left|
  {
    if left == [] {
      assert left + right == right;
    } else {
      assert (left + right)[1..] == left[1..] + right;
      SubstituteAppend(left[1..], right, context);
    }
  }

  /**
   A placeholder between the rendered segments around it: its value arrives as exactly one word, in its place, if and
   only if nothing is added to it, once the text before it is neutral.
   */
  lemma InsertedValueIsOneWord(pre: seq<Segment>, name: string, double: bool, post: seq<Segment>, context: Context)
    requires ValidContext(context) && PlaceholderValue(name, context).Some?
    ensures var (a, value, b) := (Substitute(pre, context), PlaceholderValue(name, context).value, Substitute(post, context));
            && Substitute(pre + [Placeholder(name, double)] + post, context) == a + Quote(value) + b
            && (Neutral(a) ==> (Delivers(a, value, b) <==> AddsNothing(b)))
  {
    hide Quote, Neutral, Delivers, AddsNothing;
    var (a, value, b) := (Substitute(pre, context), PlaceholderValue(name, context).value, Substitute(post, context));
    var middle := [Placeholder(name, double)];
    SubstituteAppend(pre + middle, post, context);
    SubstituteAppend(pre, middle, context);
    assert middle[1..] == [] && Substitute(middle, context) == Quote(value) + "";
    assert Quote(value) + "" == Quote(value);
    if Neutral(a) {
      NeutralDelivers(a, value, b);
    }
  }

  const HOLE := Placeholder("gate_id", false)

  const QUOTED := [Plain('\''), HOLE, Plain('\'')]

  lemma QuotedSegments()
    ensures Segments("'{gate_id}'") == QUOTED
  {
    var (template, tail, inner) := ("'{gate_id}'", "{gate_id}'", "gate_id}'");
    assert template[1..] == tail && tail[1..] == inner;
    FirstHole();
    assert tail[9..] == "'" && "'"[1..] == "";
    assert FirstSegment(template) == Plain('\'') && FirstSegment("'") == Plain('\'');
    assert Segments("'") == [Plain('\'')] + Segments("") == [Plain('\'')];
    assert Segments(tail) == [HOLE] + Segments(tail[|SourceOf(HOLE)|..]);
    assert Segments(template) == [Plain('\'')] + Segments(tail);
  }

  lemma FirstHole()
    ensures FirstSegment("{gate_id}'") == HOLE && |SourceOf(HOLE)| == 9
  {
    var (tail, inner) := ("{gate_id}'", "gate_id}'");
    assert tail[1..] == inner && tail[1] == 'g';
    assert ClosesAt(inner, 7, false) && FindClose(inner, 0, false) == Some(7);
    assert inner[..7] == "gate_id";
  }

  lemma QuotedSubstitute(context: Context)
    requires context.gate.Some? && context.gate.value.gateId == WITNESS
    ensures Substitute(QUOTED, context) == "''a b''"
  {
    WitnessIsQuoted();
    hide Quote;
    assert Substituted(HOLE, context) == "'a b'" && Substituted(Plain('\''), context) == "'";
    assert QUOTED[1..] == [HOLE, Plain('\'')] && QUOTED[1..][1..] == [Plain('\'')] && [Plain('\'')][1..] == [];
    assert Substitute([Plain('\'')], context) == "'" + Substitute([], context) == "'";
    assert Substitute(QUOTED[1..], context) == "'a b'" + "'";
    assert Substitute(QUOTED, context) == "'" + ("'a b'" + "'");
  }

  /** A placeholder put inside quotes by the template breaks: its value `a b` arrives as two words. */
  lemma QuotedPlaceholderBreaks(context: Context)
    requires context.gate.Some? && context.gate.value.gateId == WITNESS
    ensures Substitute(Segments("'{gate_id}'"), context) == "''a b''"
    ensures End(Scan(FRESH, "''a b''")) == Success(["a", "b"])
  {
    hide Segments, Substitute, Scan, End;
    QuotedSegments();
    QuotedSubstitute(context);
    BrokenWords();
  }

  lemma BrokenWords()
    ensures End(Scan(FRESH, "''a b''")) == Success(["a", "b"])
  {
    var s := "''a b''";
    assert s[1..] == "'a b''" && s[1..][1..] == "a b''" && "a b''"[1..] == " b''" && " b''"[1..] == "b''";
    assert "b''"[1..] == "''" && "''"[1..] == "'" && "'"[1..] == "";
    var t1 := Step(Step(FRESH, '\''), '\'');
    assert t1 == Open([], "", true);
    assert "" + ['a'] == "a" && "" + ['b'] == "b" && [] + ["a"] == ["a"] && ["a"] + ["b"] == ["a", "b"];
    var t2 := Step(Step(t1, 'a'), ' ');
    assert Step(t1, 'a') == Open([], "a", true) && t2 == Open(["a"], "", false);
    var t3 := Step(Step(Step(t2, 'b'), '\''), '\'');
    assert t3 == Open(["a"], "b", true);
    assert Scan(FRESH, s) == Scan(t1, "a b''") == Scan(t2, "b''") == Scan(t3, "");
  }
}
