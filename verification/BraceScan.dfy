/** `_iter_balanced_objects`: the single-pass scan for top-level `{...}` spans,
    and what a span is without reference to the pass that finds it. */
module BraceScan {
  import opened Sequences
  import opened JsonText

  /** What the scanner remembers between characters, apart from the open start. */
  datatype State = State(depth: nat, inString: bool, escaped: bool)

  const Outside := State(0, false, false)

  function Step(st: State, c: char): State {
    if st.inString then
      if st.escaped then st.(escaped := false)
      else if c == '\\' then st.(escaped := true)
      else if c == '"' then st.(inString := false)
      else st
    else if c == '"' then st.(inString := true)
    else if c == '{' then st.(depth := st.depth + 1)
    else if c == '}' && st.depth > 0 then st.(depth := st.depth - 1)
    else st
  }

  function Run(st: State, s: string): State
    decreases |s|
  {
    if s == "" then st else Run(Step(st, s[0]), s[1..])
  }

  lemma {:induction false} RunAppend(st: State, a: string, b: string)
    ensures Run(st, a + b) == Run(Run(st, a), b)
    decreases |a|
  {
    if a == "" {
      assert a + b == b;
    } else {
      assert (a + b)[1..] == a[1..] + b;
      RunAppend(Step(st, a[0]), a[1..], b);
    }
  }

  lemma RunOne(st: State, s: string, i: nat)
    requires i < |s|
    ensures Run(st, s[..i + 1]) == Step(Run(st, s[..i]), s[i])
  {
    assert s[..i + 1] == s[..i] + [s[i]];
    RunAppend(st, s[..i], [s[i]]);
    assert [s[i]][1..] == "";
  }

  function At(text: string, i: nat): State
    requires i <= |text|
  {
    Run(Outside, text[..i])
  }

  type Span = (nat, nat)

  /** A brace opened at the top level, outside strings, and the first place after
      it where the scan is back at the top level. */
  ghost predicate IsSpan(text: string, span: Span) {
    var (start, stop) := span;
    && start < stop <= |text|
    && At(text, start) == Outside && text[start] == '{'
    && At(text, stop) == Outside
    && forall i | start < i < stop :: At(text, i).depth > 0
  }

  ghost predicate Ordered(spans: seq<Span>) {
    forall i, j | 0 <= i < j < |spans| :: spans[i].1 <= spans[j].0
  }

  /** The spans that end at or before `stop`, by where they end. */
  ghost function SpansUpTo(text: string, stop: nat): seq<Span>
    requires stop <= |text|
  {
    if stop == 0 then []
    else
      SpansUpTo(text, stop - 1)
      + if start: nat :| IsSpan(text, (start, stop)) then [(start, stop)] else []
  }

  ghost function SpansOf(text: string): seq<Span> {
    SpansUpTo(text, |text|)
  }

  lemma {:induction false} SpansUpToExact(text: string, stop: nat)
    requires stop <= |text|
    ensures forall span: Span :: span in SpansUpTo(text, stop) <==> IsSpan(text, span) && span.1 <= stop
    ensures Ordered(SpansUpTo(text, stop))
  {
    if stop > 0 {
      SpansUpToExact(text, stop - 1);
      var before := SpansUpTo(text, stop - 1);
      if start: nat :| IsSpan(text, (start, stop)) {
        SpanCloses(text, (start, stop));
        SpanEnds(text, start, stop - 1);
        forall i | 0 <= i < |before|
          ensures before[i].1 <= start
        {
          assert before[i] in before;
          if start < before[i].1 {
            assert false;
          }
        }
      }
    }
  }

  /** The scan yields every span, once each, in order. */
  method IterBalancedObjects(text: string) returns (spans: seq<Span>)
    ensures spans == SpansOf(text)
    ensures forall span: Span :: span in spans <==> IsSpan(text, span)
    ensures Ordered(spans)
  {
    spans := [];
    var depth, inString, escaped := 0, false, false;
    var start, spanOpen := 0, false;
    var index := 0;
    while index < |text|
      invariant 0 <= index <= |text|
      invariant At(text, index) == State(depth, inString, escaped)
      invariant depth >= 0 && (escaped ==> inString)
      invariant spanOpen == (depth > 0)
      invariant spanOpen ==> OpenAt(text, start, index)
      invariant spans == SpansUpTo(text, index)
    {
      var c := text[index];
      RunOne(Outside, text, index);
      if inString {
        NoSpanEnds(text, index);
        if escaped {
          escaped := false;
        } else if c == '\\' {
          escaped := true;
        } else if c == '"' {
          inString := false;
        }
      } else if c == '"' {
        NoSpanEnds(text, index);
        inString := true;
      } else if c == '{' {
        NoSpanEnds(text, index);
        if depth == 0 {
          start, spanOpen := index, true;
        }
        depth := depth + 1;
      } else if c == '}' && depth > 0 {
        depth := depth - 1;
        if depth == 0 {
          SpanEnds(text, start, index);
          assert IsSpan(text, (start, index + 1));
          spans := spans + [(start, index + 1)];
          spanOpen := false;
        } else {
          NoSpanEnds(text, index);
        }
      } else {
        NoSpanEnds(text, index);
      }
      index := index + 1;
    }
    SpansUpToExact(text, |text|);
  }

  ghost predicate OpenAt(text: string, start: nat, index: nat)
    requires index <= |text|
  {
    && start < index
    && At(text, start) == Outside && text[start] == '{'
    && forall i | start < i <= index :: At(text, i).depth > 0
  }

  /** Only a closing brace that brings the depth to zero ends a span. */
  lemma SpanCloses(text: string, span: Span)
    requires IsSpan(text, span)
    ensures text[span.1 - 1] == '}'
    ensures At(text, span.1 - 1) == State(1, false, false)
  {
    var last := span.1 - 1;
    RunOne(Outside, text, last);
    assert At(text, last + 1) == Outside;
    assert last == span.0 || At(text, last).depth > 0;
  }

  lemma NoSpanEnds(text: string, index: nat)
    requires index < |text|
    requires !(text[index] == '}' && !At(text, index).inString && At(text, index).depth == 1)
    ensures forall span: Span | IsSpan(text, span) :: span.1 != index + 1
  {
    forall span: Span | IsSpan(text, span)
      ensures span.1 != index + 1
    {
      SpanCloses(text, span);
    }
  }

  lemma SpanEnds(text: string, start: nat, index: nat)
    requires index < |text| && OpenAt(text, start, index)
    requires At(text, index) == State(1, false, false) && text[index] == '}'
    ensures forall span: Span :: IsSpan(text, span) && span.1 == index + 1 <==> span == (start, index + 1)
  {
    RunOne(Outside, text, index);
    forall span: Span | IsSpan(text, span) && span.1 == index + 1
      ensures span == (start, index + 1)
    {
      if span.0 < start {
        assert false;
      } else if start < span.0 {
        assert false;
      }
    }
  }

  // ---------- a span scanned on its own ----------

  lemma {:induction false} Rescan(text: string, start: nat, i: nat)
    requires start + i <= |text| && At(text, start) == Outside
    ensures At(text[start..], i) == At(text, start + i)
  {
    assert text[..start + i] == text[..start] + text[start..][..i];
    RunAppend(Outside, text[..start], text[start..][..i]);
  }

  /** Every yielded span, scanned alone, yields exactly itself. */
  lemma SpanYieldsItself(text: string, span: Span, inner: Span)
    requires IsSpan(text, span)
    ensures IsSpan(text[span.0..span.1], inner) <==> inner == (0, span.1 - span.0)
  {
    var (start, stop) := span;
    var alone := text[start..stop];
    forall i: nat | i <= stop - start
      ensures At(alone, i) == At(text, start + i)
    {
      assert alone[..i] == text[start..][..i];
      Rescan(text, start, i);
    }
  }

  // ---------- a printed object is found ----------

  /** Reading `s` from inside an open object never gets back to the top level. */
  ghost predicate StaysInside(st: State, s: string) {
    forall i | 0 <= i <= |s| :: Run(st, s[..i]).depth > 0
  }

  lemma InsideAppends(st: State, a: string, b: string)
    requires StaysInside(st, a) && StaysInside(Run(st, a), b)
    ensures StaysInside(st, a + b)
  {
    forall i | 0 <= i <= |a + b|
      ensures Run(st, (a + b)[..i]).depth > 0
    {
      if i <= |a| {
        assert (a + b)[..i] == a[..i];
      } else {
        assert (a + b)[..i] == a + b[..i - |a|];
        RunAppend(st, a, b[..i - |a|]);
      }
    }
  }

  predicate Quiet(c: char) {
    c != '"' && c != '{' && c != '}'
  }

  lemma {:induction false} QuietInside(st: State, s: string)
    requires st.depth > 0 && !st.inString && forall i | 0 <= i < |s| :: Quiet(s[i])
    ensures Run(st, s) == st && StaysInside(st, s)
  {
    if s == "" {
    } else {
      QuietInside(st, s[1..]);
      forall i | 0 <= i <= |s|
        ensures Run(st, s[..i]).depth > 0
      {
        if i > 0 {
          assert s[..i][1..] == s[1..][..i - 1];
        }
      }
    }
  }

  lemma ConsInside(st: State, c: char, s: string)
    requires st.depth > 0 && StaysInside(Step(st, c), s)
    ensures StaysInside(st, [c] + s)
    ensures Run(st, [c] + s) == Run(Step(st, c), s)
  {
    assert ([c] + s)[1..] == s;
    forall i | 0 <= i <= |s| + 1
      ensures Run(st, ([c] + s)[..i]).depth > 0
    {
      if i > 0 {
        assert ([c] + s)[..i][1..] == s[..i - 1];
      }
    }
  }

  lemma EscapeInside(st: State, c: char, after: string)
    requires st.depth > 0 && st.inString && !st.escaped && StaysInside(st, after)
    ensures Run(st, ['\\', c] + after) == Run(st, after) && StaysInside(st, ['\\', c] + after)
  {
    var slashed := st.(escaped := true);
    assert Step(slashed, c) == st;
    ConsInside(slashed, c, after);
    ConsInside(st, '\\', [c] + after);
    assert ['\\', c] + after == ['\\'] + ([c] + after);
  }

  lemma {:induction false} UnitsInside(depth: nat, units: seq<Unit>)
    requires depth > 0 && WellFormedUnits(units)
    ensures var st, s := State(depth, true, false), PrintUnits(units, "");
      Run(st, s) == State(depth, false, false) && StaysInside(st, s)
  {
    var st := State(depth, true, false);
    if units == [] {
      ConsInside(st, '"', "");
    } else {
      assert units[0] in units;
      forall u | u in units[1..] ensures u in units {}
      UnitsInside(depth, units[1..]);
      var after := PrintUnits(units[1..], "");
      match units[0]
      case Raw(c) =>
        assert Step(st, c) == st;
        ConsInside(st, c, after);
      case Escape(c) => EscapeInside(st, c, after);
    }
  }

  lemma LiteralInside(depth: nat, units: seq<Unit>)
    requires depth > 0 && WellFormedUnits(units)
    ensures var st, s := State(depth, false, false), "\"" + PrintUnits(units, "");
      Run(st, s) == st && StaysInside(st, s)
  {
    UnitsInside(depth, units);
    ConsInside(State(depth, false, false), '"', PrintUnits(units, ""));
  }

  lemma KeyInside(depth: nat, key: Key)
    requires depth > 0 && WellFormedKey(key)
    ensures var st, s := State(depth, false, false), PrintKey(key, "");
      Run(st, s) == st && StaysInside(st, s)
  {
    var st := State(depth, false, false);
    if key.Named? {
      var colon := key.beforeColon + ":" + key.afterColon + "";
      LiteralInside(depth, key.name);
      PrintUnitsAppends(key.name, colon);
      var literal := "\"" + PrintUnits(key.name, "");
      assert PrintKey(key, "") == literal + colon;
      QuietInside(st, colon);
      InsideAppends(st, literal, colon);
      RunAppend(st, literal, colon);
    } else {
      QuietInside(st, "");
    }
  }

  lemma {:induction false} ValueInside(depth: nat, v: Value, damaged: bool)
    requires depth > 0 && WellFormed(v)
    ensures var st, s := State(depth, false, false), Render(v, damaged);
      Run(st, s) == st && StaysInside(st, s)
    decreases v
  {
    var st := State(depth, false, false);
    match v
    case Scalar(lexeme) => QuietInside(st, lexeme + "");
    case Literal(units) => LiteralInside(depth, units);
    case Array(items) =>
      EntriesInside(depth, items, true, false, damaged);
      PrintEntriesAppends(items, true, damaged, "]" + "");
      assert "]" + "" == "]";
      BracketedInside(st, '[', st, PrintEntries(items, true, damaged, ""), ']');
    case Object(members) =>
      EntriesInside(depth + 1, members, true, true, damaged);
      PrintEntriesAppends(members, true, damaged, "}" + "");
      assert "}" + "" == "}";
      BracketedInside(st, '{', State(depth + 1, false, false), PrintEntries(members, true, damaged, ""), '}');
  }

  lemma ClosedInside(inner: State, body: string, close: char, outer: State)
    requires Run(inner, body) == inner && StaysInside(inner, body)
    requires inner.depth > 0 && outer.depth > 0 && Step(inner, close) == outer
    ensures Run(inner, body + [close]) == outer && StaysInside(inner, body + [close])
  {
    ConsInside(inner, close, "");
    assert [close] + "" == [close];
    RunAppend(inner, body, [close]);
    InsideAppends(inner, body, [close]);
  }

  lemma BracketedInside(outer: State, before: char, inner: State, body: string, close: char)
    requires Run(inner, body) == inner && StaysInside(inner, body)
    requires inner.depth > 0 && outer.depth > 0 && Step(outer, before) == inner && Step(inner, close) == outer
    ensures Run(outer, [before] + (body + [close])) == outer && StaysInside(outer, [before] + (body + [close]))
  {
    ClosedInside(inner, body, close, outer);
    ConsInside(outer, before, body + [close]);
  }

  lemma {:induction false} EntriesInside(depth: nat, e: Entries, first: bool, keyed: bool, damaged: bool)
    requires depth > 0 && WellFormedEntries(e, keyed)
    ensures var st, s := State(depth, false, false), PrintEntries(e, first, damaged, "");
      Run(st, s) == st && StaysInside(st, s)
    decreases e
  {
    var st := State(depth, false, false);
    match e
    case Close(pad, damage) =>
      QuietInside(st, pad + (if damaged then damage else "") + "");
    case Entry(lead, key, value, trail, tail) =>
      var comma := (if first then "" else ",") + lead;
      var rest := PrintEntries(tail, false, damaged, "");
      EntriesInside(depth, tail, false, keyed, damaged);
      ValueInside(depth, value, damaged);
      KeyInside(depth, key);
      PrintAppends(value, damaged, trail + rest);
      PrintKeyAppends(key, Print(value, damaged, trail + rest));
      QuietInside(st, comma);
      QuietInside(st, trail);
      Chain(st, trail, rest);
      Chain(st, Render(value, damaged), trail + rest);
      Chain(st, PrintKey(key, ""), Render(value, damaged) + (trail + rest));
      Chain(st, comma, PrintKey(key, "") + (Render(value, damaged) + (trail + rest)));
  }

  lemma Chain(st: State, a: string, b: string)
    requires Run(st, a) == st && StaysInside(st, a)
    requires Run(st, b) == st && StaysInside(st, b)
    ensures Run(st, a + b) == st && StaysInside(st, a + b)
  {
    RunAppend(st, a, b);
    InsideAppends(st, a, b);
  }

  /** Prose the scanner passes over without opening anything. */
  predicate Prose(s: string) {
    forall i | 0 <= i < |s| :: s[i] != '"' && s[i] != '{'
  }

  lemma {:induction false} ProseOutside(s: string)
    requires Prose(s)
    ensures Run(Outside, s) == Outside
  {
    if s != "" {
      ProseOutside(s[1..]);
    }
  }

  lemma BeforeBody(prose: string, body: string, rest: string, text: string, i: nat)
    requires Prose(prose) && text == prose + "{" + body + rest && i <= |prose|
    ensures At(text, i) == Outside
  {
    assert text[..i] == prose[..i];
    ProseOutside(prose[..i]);
  }

  lemma InsideBody(prose: string, body: string, rest: string, text: string, i: nat)
    requires Prose(prose) && text == prose + "{" + body + rest && i <= |body|
    ensures At(text, |prose| + 1 + i) == Run(State(1, false, false), body[..i])
  {
    ProseOutside(prose);
    assert text[..|prose| + 1 + i] == prose + ("{" + body[..i]);
    RunAppend(Outside, prose, "{" + body[..i]);
    assert ("{" + body[..i])[1..] == body[..i];
  }

  lemma BraceAfterBody(prose: string, body: string, rest: string, text: string)
    requires text == prose + "{" + body + ("}" + rest)
    ensures |text| > |prose| + 1 + |body| && text[|prose| + 1 + |body|] == '}'
  {
  }

  lemma AfterBody(prose: string, body: string, rest: string, text: string)
    requires Prose(prose) && Run(State(1, false, false), body) == State(1, false, false)
    requires text == prose + "{" + body + ("}" + rest)
    ensures At(text, |prose| + |body| + 2) == Outside
  {
    InsideBody(prose, body, "}" + rest, text, |body|);
    assert body[..|body|] == body;
    BraceAfterBody(prose, body, rest, text);
    RunOne(Outside, text, |prose| + 1 + |body|);
  }

  lemma AllDeep(prose: string, body: string, rest: string, text: string)
    requires Prose(prose) && StaysInside(State(1, false, false), body) && rest != ""
    requires text == prose + "{" + body + rest
    ensures forall i | |prose| < i < |prose| + |body| + 2 :: At(text, i).depth > 0
  {
    forall i | |prose| < i < |prose| + |body| + 2
      ensures At(text, i).depth > 0
    {
      DeepInside(prose, body, rest, text, i);
    }
  }

  lemma DeepInside(prose: string, body: string, rest: string, text: string, i: nat)
    requires Prose(prose) && StaysInside(State(1, false, false), body)
    requires text == prose + "{" + body + rest && |prose| < i < |prose| + |body| + 2 && i <= |text|
    ensures At(text, i).depth > 0
  {
    var j := i - |prose| - 1;
    InsideBody(prose, body, rest, text, j);
    assert Run(State(1, false, false), body[..j]).depth > 0;
    assert |prose| + 1 + j == i;
  }

  lemma SpanOf(text: string, start: nat, stop: nat)
    requires start < stop <= |text| && text[start] == '{' && At(text, start) == Outside && At(text, stop) == Outside
    requires forall i | start < i < stop :: At(text, i).depth > 0
    ensures IsSpan(text, (start, stop))
  {
  }

  /** A JSON object, damaged by trailing commas or not, after prose without
      quotes or opening braces is the first span, whatever follows it. */
  lemma ObjectIsFirstSpan(prose: string, members: Entries, damaged: bool, rest: string)
    requires Prose(prose) && WellFormed(Object(members))
    ensures var shown := Render(Object(members), damaged);
      var text := prose + shown + rest;
      && IsSpan(text, (|prose|, |prose| + |shown|))
      && text[|prose|..|prose| + |shown|] == shown
      && forall span: Span | IsSpan(text, span) :: span.0 >= |prose|
  {
    var shown, body := Render(Object(members), damaged), PrintEntries(members, true, damaged, "");
    var text := prose + shown + rest;
    PrintEntriesAppends(members, true, damaged, "}" + "");
    ShownParts(prose, body, rest, shown);
    EntriesInside(1, members, true, true, damaged);
    BeforeBody(prose, body, "}" + rest, text, |prose|);
    AfterBody(prose, body, rest, text);
    AllDeep(prose, body, "}" + rest, text);
    SpanOf(text, |prose|, |prose| + |body| + 2);
    NoneBefore(prose, shown + rest);
    Reassociate(prose, shown, rest);
  }

  lemma ShownParts(prose: string, body: string, rest: string, shown: string)
    requires shown == "{" + (body + ("}" + ""))
    ensures prose + shown + rest == prose + "{" + body + ("}" + rest) && |shown| == |body| + 2
  {
  }

  lemma NoneBefore(prose: string, rest: string)
    requires Prose(prose)
    ensures forall span: Span | IsSpan(prose + rest, span) :: span.0 >= |prose|
  {
    assert forall i | 0 <= i < |prose| :: (prose + rest)[i] == prose[i];
  }
}
