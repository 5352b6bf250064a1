/** Rendering of provider control commands: placeholders are replaced once, everything else is kept. */
module ControlTemplate {
  import opened Text
  import opened Wrappers
  import opened ShellWords

  const MAX_CONTROL_COMMAND_LEN := 16 * 1024
  const MAX_GATE_ID_LEN := 512
  const MAX_PROVIDER_NAME_LEN := 256
  const MAX_BUNDLE_ID_LEN := 512

  datatype Gate = Gate(bundleId: string, gateId: string, provider: string)

  datatype Rejection = TooLong | NotOneLine | BadReplacement | UnsupportedAction

  /** The values placeholders stand for; the process identifier comes as its decimal text. */
  datatype Context = Context(pid: string, action: string, gate: Option<Gate>)

  function PlaceholderValue(name: string, context: Context): Option<string> {
    if name == "pid" then Some(context.pid)
    else if name == "action" then Some(context.action)
    else if context.gate.None? then None
    else if name == "gate_id" then Some(context.gate.value.gateId)
    else if name == "provider" then Some(context.gate.value.provider)
    else if name == "bundle_id" then Some(context.gate.value.bundleId)
    else None
  }

  // ---- segments ------------------------------------------------------------------------------------------

  /** A piece of a template: one ordinary character, or a placeholder with one or two braces on each side. */
  datatype Segment = Plain(c: char) | Placeholder(name: string, double: bool)

  function SourceOf(segment: Segment): string {
    match segment
    case Plain(c) => [c]
    case Placeholder(name, double) => if double then "{{" + name + "}}" else "{" + name + "}"
  }

  function Source(segments: seq<Segment>): string {
    if segments == [] then "" else SourceOf(segments[0]) + Source(segments[1..])
  }

  predicate ClosesAt(s: string, i: nat, double: bool) {
    if double then i + 1 < |s| && s[i] == '}' && s[i + 1] == '}' else i < |s| && s[i] == '}'
  }

  /** The first place at or after `i` where the braces close. */
  function FindClose(s: string, i: nat, double: bool): (r: Option<nat>)
    ensures r.Some? ==> i <= r.value && ClosesAt(s, r.value, double) && forall j | i <= j < r.value :: !ClosesAt(s, j, double)
    ensures r.None? ==> forall j | i <= j :: !ClosesAt(s, j, double)
    decreases |s| - i
  {
    if i >= |s| then None else if ClosesAt(s, i, double) then Some(i) else FindClose(s, i + 1, double)
  }

  /** The segment a non-empty template starts with. */
  function FirstSegment(s: string): (r: Segment)
    requires s != []
    ensures SourceOf(r) != [] && SourceOf(r) <= s
  {
    if |s| >= 2 && s[0] == '{' && s[1] == '{' then
      match FindClose(s[2..], 0, true)
      case Some(end) =>
        assert s == "{{" + s[2..][..end] + "}}" + s[2..][end + 2..];
        Placeholder(s[2..][..end], true)
      case None => Plain(s[0])
    else if s[0] == '{' then
      match FindClose(s[1..], 0, false)
      case Some(end) =>
        assert s == "{" + s[1..][..end] + "}" + s[1..][end + 1..];
        Placeholder(s[1..][..end], false)
      case None => Plain(s[0])
    else Plain(s[0])
  }

  function Segments(s: string): seq<Segment> {
    if s == [] then [] else
      var first := FirstSegment(s);
      [first] + Segments(s[|SourceOf(first)|..])
  }

  /** Cutting a template into segments loses nothing. */
  lemma {:induction false} SegmentsCoverTemplate(s: string)
    ensures Source(Segments(s)) == s
    decreases |s|
  {
    if s != [] {
      var first := FirstSegment(s);
      SegmentsCoverTemplate(s[|SourceOf(first)|..]);
      assert s == SourceOf(first) + s[|SourceOf(first)|..];
    }
  }

  /**
   When `segment` may stand before `rest`: the braces of a placeholder close at the first place they can, two braces
   are never read as one, and only a brace that nothing closes is an ordinary character.
   */
  predicate SegmentOk(segment: Segment, rest: string) {
    match segment
    case Plain(c) =>
      c == '{' ==>
        if rest != [] && rest[0] == '{' then forall j | 0 <= j < |rest| :: !ClosesAt(rest[1..], j, true)
        else forall j | 0 <= j < |rest| :: !ClosesAt(rest, j, false)
    case Placeholder(name, double) =>
      if double then forall j | 0 <= j < |name| :: !ClosesAt(name + "}}", j, true)
      else '}' !in name && (name == "" || name[0] != '{')
  }

  lemma ClosesFirst(s: string, end: nat, double: bool)
    requires ClosesAt(s, end, double) && forall j | 0 <= j < end :: !ClosesAt(s, j, double)
    ensures FindClose(s, 0, double) == Some(end)
  {
  }

  lemma PlainIsExact(c: char, rest: string)
    ensures FirstSegment([c] + rest) == Plain(c) <==> SegmentOk(Plain(c), rest)
  {
    hide FindClose;
    var s := [c] + rest;
    assert s[1..] == rest;
    if rest != [] { assert s[2..] == rest[1..]; }
  }

  lemma DoubleIsExact(name: string, rest: string)
    ensures FirstSegment("{{" + name + "}}" + rest) == Placeholder(name, true) <==> SegmentOk(Placeholder(name, true), rest)
  {
    hide FindClose;
    var s := "{{" + name + "}}" + rest;
    var (inside, closed) := (s[2..], name + "}}");
    assert s[0] == '{' && s[1] == '{' && inside == closed + rest;
    assert forall j | 0 <= j < |name| :: ClosesAt(inside, j, true) <==> ClosesAt(closed, j, true);
    assert ClosesAt(inside, |name|, true) && inside[..|name|] == name;
    if SegmentOk(Placeholder(name, true), rest) { ClosesFirst(inside, |name|, true); }
  }

  lemma SingleIsExact(name: string, rest: string)
    ensures FirstSegment("{" + name + "}" + rest) == Placeholder(name, false) <==> SegmentOk(Placeholder(name, false), rest)
  {
    hide FindClose;
    var s := "{" + name + "}" + rest;
    var inside := s[1..];
    assert s[0] == '{' && inside == name + "}" + rest;
    assert s[1] == if name == "" then '}' else name[0];
    assert forall j | 0 <= j < |name| :: ClosesAt(inside, j, false) <==> name[j] == '}';
    assert ClosesAt(inside, |name|, false) && inside[..|name|] == name;
    if SegmentOk(Placeholder(name, false), rest) { ClosesFirst(inside, |name|, false); }
  }

  lemma FirstSegmentIsExact(segment: Segment, rest: string)
    ensures FirstSegment(SourceOf(segment) + rest) == segment <==> SegmentOk(segment, rest)
  {
    hide FirstSegment, SegmentOk;
    match segment
    case Plain(c) => PlainIsExact(c, rest);
    case Placeholder(name, true) => DoubleIsExact(name, rest);
    case Placeholder(name, false) => SingleIsExact(name, rest);
  }

  /** Each segment may stand where it stands. */
  predicate AllOk(segments: seq<Segment>) {
    segments == [] || (SegmentOk(segments[0], Source(segments[1..])) && AllOk(segments[1..]))
  }

  /** The segments of a template are the one way of cutting it by these rules. */
  lemma {:induction false} SegmentsAreExact(s: string, segments: seq<Segment>)
    ensures Segments(s) == segments <==> Source(segments) == s && AllOk(segments)
    decreases |segments|
  {
    hide SegmentOk, SourceOf, FirstSegment;
    SegmentsCoverTemplate(s);
    if segments != [] {
      var (first, rest) := (segments[0], segments[1..]);
      var (tail, n) := (Source(rest), |SourceOf(first)|);
      FirstSegmentIsExact(first, tail);
      SegmentsAreExact(tail, rest);
      FirstIsNotEmpty(first, tail);
      assert (SourceOf(first) + tail)[n..] == tail && segments == [first] + rest;
    }
  }

  lemma FirstIsNotEmpty(first: Segment, tail: string)
    ensures SourceOf(first) != []
  {
  }

  function Substituted(segment: Segment, context: Context): string {
    if segment.Placeholder? && PlaceholderValue(segment.name, context).Some? then
      Quote(PlaceholderValue(segment.name, context).value)
    else SourceOf(segment)
  }

  /** One pass over the segments of the template as it was: what is inserted is never looked at again. */
  function Substitute(segments: seq<Segment>, context: Context): string {
    if segments == [] then "" else Substituted(segments[0], context) + Substitute(segments[1..], context)
  }

  /** A template that is one placeholder renders as the quoted value it names, and as itself where there is none. */
  lemma OnePlaceholder(name: string, double: bool, context: Context)
    requires SegmentOk(Placeholder(name, double), "")
    ensures var source := SourceOf(Placeholder(name, double));
            var gated := context.gate.Some? && name in {"gate_id", "provider", "bundle_id"};
            && (name == "pid" ==> Substitute(Segments(source), context) == Quote(context.pid))
            && (name == "action" ==> Substitute(Segments(source), context) == Quote(context.action))
            && (gated && name == "gate_id" ==> Substitute(Segments(source), context) == Quote(context.gate.value.gateId))
            && (gated && name == "provider" ==> Substitute(Segments(source), context) == Quote(context.gate.value.provider))
            && (gated && name == "bundle_id" ==> Substitute(Segments(source), context) == Quote(context.gate.value.bundleId))
            && (!gated && name !in {"pid", "action"} ==> Substitute(Segments(source), context) == source)
  {
    hide SegmentOk, FirstSegment, Quote;
    var (segment, source) := (Placeholder(name, double), SourceOf(Placeholder(name, double)));
    FirstSegmentIsExact(segment, "");
    assert source + "" == source && source[|source|..] == "";
    assert Segments(source) == [segment];
    assert [segment][1..] == [];
    assert Substitute([segment], context) == Substituted(segment, context) + "" == Substituted(segment, context);
  }

  predicate Knows(segments: seq<Segment>, context: Context) {
    exists s | s in segments :: s.Placeholder? && PlaceholderValue(s.name, context).Some?
  }

  /** A template without known placeholders is rendered as it is. */
  lemma {:induction false} UnknownIsKept(segments: seq<Segment>, context: Context)
    requires !Knows(segments, context)
    ensures Substitute(segments, context) == Source(segments)
  {
    if segments != [] {
      assert segments[0] in segments;
      assert forall s | s in segments[1..] :: s in segments;
      UnknownIsKept(segments[1..], context);
    }
  }

  // ---- rendering -----------------------------------------------------------------------------------------

  predicate IsControl(c: char) {
    c < '\U{20}' || '\U{7F}' <= c <= '\U{9F}'
  }

  predicate ValidReplacement(value: string, maxLen: nat) {
    value != [] && Trim(value) != [] && Utf8Len(value) <= maxLen && forall c | c in value :: !IsControl(c)
  }

  predicate ValidContext(context: Context) {
    && ValidReplacement(context.pid, 32)
    && ValidReplacement(context.action, 32)
    && (context.gate.Some? ==>
          && ValidReplacement(context.gate.value.gateId, MAX_GATE_ID_LEN)
          && ValidReplacement(context.gate.value.provider, MAX_PROVIDER_NAME_LEN)
          && ValidReplacement(context.gate.value.bundleId, MAX_BUNDLE_ID_LEN))
  }

  predicate Acceptable(template: string, context: Context) {
    && Utf8Len(template) <= MAX_CONTROL_COMMAND_LEN
    && '\0' !in template && '\r' !in template && '\n' !in template
    && ValidContext(context)
    && context.action in {"status", "resume", "terminate"}
  }

  method FindClosing(s: string, start: nat, double: bool) returns (r: Option<nat>)
    requires start <= |s|
    ensures r == FindClose(s[start..], 0, double)
  {
    var rest := s[start..];
    var i := 0;
    while i < |rest|
      invariant FindClose(rest, i, double) == FindClose(rest, 0, double)
    {
      if ClosesAt(rest, i, double) {
        return Some(i);
      }
      i := i + 1;
    }
    r := None;
  }

  /** The segment at the cursor; a brace that is never closed is an ordinary character. */
  method NextSegment(template: string, cursor: nat) returns (segment: Segment)
    requires cursor < |template|
    ensures segment == FirstSegment(template[cursor..])
  {
    ghost var rest := template[cursor..];
    if template[cursor] != '{' {
      return Plain(template[cursor]);
    }
    var double := cursor + 1 < |template| && template[cursor + 1] == '{';
    var start := cursor + if double then 2 else 1;
    assert template[start..] == rest[start - cursor..];
    var close := FindClosing(template, start, double);
    if close.None? {
      return Plain(template[cursor]);
    }
    segment := Placeholder(template[start..][..close.value], double);
  }

  lemma RenderStep(rendered: string, rest: string, context: Context)
    requires rest != []
    ensures rendered + Substitute(Segments(rest), context)
         == rendered + Substituted(FirstSegment(rest), context)
            + Substitute(Segments(rest[|SourceOf(FirstSegment(rest))|..]), context)
  {
  }

  method CheckControlCommand(template: string, context: Context) returns (rejection: Option<Rejection>)
    ensures rejection.None? <==> Acceptable(template, context)
    ensures var single := '\0' !in template && '\r' !in template && '\n' !in template;
            var short := Utf8Len(template) <= MAX_CONTROL_COMMAND_LEN;
            var plain := ValidReplacement(context.pid, 32) && ValidReplacement(context.action, 32);
            && (rejection == Some(TooLong) <==> !short)
            && (rejection == Some(NotOneLine) <==> short && !single)
            && (rejection == Some(UnsupportedAction) <==>
                  short && single && plain && context.action !in {"status", "resume", "terminate"})
  {
    hide Utf8Len, Trim;
    if Utf8Len(template) > MAX_CONTROL_COMMAND_LEN {
      return Some(TooLong);
    }
    if '\0' in template || '\r' in template || '\n' in template {
      return Some(NotOneLine);
    }
    if !ValidReplacement(context.pid, 32) || !ValidReplacement(context.action, 32) {
      return Some(BadReplacement);
    }
    if context.action !in {"status", "resume", "terminate"} {
      return Some(UnsupportedAction);
    }
    if !ValidContext(context) {
      return Some(BadReplacement);
    }
    return None;
  }

  method RenderControlCommand(template: string, context: Context) returns (r: Result<string, Rejection>)
    ensures r.Success? <==> Acceptable(template, context)
    ensures r.Success? ==> r.value == Substitute(Segments(template), context)
  {
    hide Segments, FirstSegment, Substitute, Acceptable, PlaceholderValue;
    var rejection := CheckControlCommand(template, context);
    if rejection.Some? {
      return Failure(rejection.value);
    }
    var rendered := "";
    var cursor := 0;
    assert template[0..] == template;
    assert "" + Substitute(Segments(template), context) == Substitute(Segments(template), context);
    while cursor < |template|
      invariant 0 <= cursor <= |template|
      invariant rendered + Substitute(Segments(template[cursor..]), context) == Substitute(Segments(template), context)
    {
      ghost var rest := template[cursor..];
      var segment := NextSegment(template, cursor);
      RenderStep(rendered, rest, context);
      var value := if segment.Placeholder? then PlaceholderValue(segment.name, context) else None;
      if value.Some? {
        var quoted := ShellQuoteReplacement(value.value);
        rendered := rendered + quoted;
      } else {
        rendered := rendered + SourceOf(segment);
      }
      assert rest[|SourceOf(segment)|..] == template[cursor + |SourceOf(segment)|..];
      cursor := cursor + |SourceOf(segment)|;
    }
    NothingLeft(template[cursor..], context);
    assert rendered + "" == rendered;
    r := Success(rendered);
  }

  lemma NothingLeft(rest: string, context: Context)
    requires rest == ""
    ensures Substitute(Segments(rest), context) == ""
  {
  }
}
