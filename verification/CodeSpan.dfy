/** `_code_span` against section 6.1 of CommonMark 0.30. */
module CodeSpan {
  import opened Backticks
  import opened Sequences
  import opened Wrappers

  // ---------- CommonMark ----------

  /** The next backtick string of exactly `n`, from `p` on. */
  function FindClose(s: string, n: nat, p: nat): (at: Option<nat>)
    requires p <= |s|
    ensures at.Some? ==> p <= at.value && at.value + n <= |s|
    decreases |s| - p
  {
    if p == |s| then None
    else if s[p] != TICK then FindClose(s, n, p + 1)
    else
      var m := TicksAt(s, p);
      if m == n then Some(p) else FindClose(s, n, p + m)
  }

  function LineEndingsToSpaces(s: string): (r: string)
    ensures |r| <= |s|
  {
    if s == "" then ""
    else if "\r\n" <= s then " " + LineEndingsToSpaces(s[2..])
    else if s[0] == '\r' || s[0] == '\n' then " " + LineEndingsToSpaces(s[1..])
    else [s[0]] + LineEndingsToSpaces(s[1..])
  }

  predicate AllSpaces(s: string) {
    forall i | 0 <= i < |s| :: s[i] == ' '
  }

  function Unpadded(s: string): string {
    if |s| >= 2 && s[0] == ' ' && s[|s| - 1] == ' ' && !AllSpaces(s) then s[1..|s| - 1] else s
  }

  datatype Parsed = NoSpan | Span(content: string, rest: string)

  /** A code span at the start of `s`, and what follows it. */
  function ParseSpan(s: string): Parsed {
    var n := TicksAt(s, 0);
    if n == 0 then NoSpan
    else
      var close := FindClose(s, n, n);
      if close.None? then NoSpan
      else Span(Unpadded(LineEndingsToSpaces(s[n..close.value])), s[close.value + n..])
  }

  // ---------- the printer ----------

  /** `replace("\r\n", "\n")`, `replace("\r", "\n")`, `replace("\n", " ")`. */
  function OneLine(s: string): string {
    LineEndingsToSpaces(s)
  }

  predicate NoLineEnding(s: string) {
    '\r' !in s && '\n' !in s
  }

  lemma {:induction false} OneLineHasNoLineEnding(s: string)
    ensures NoLineEnding(OneLine(s))
    decreases |s|
  {
    if s == "" {
    } else if "\r\n" <= s {
      OneLineHasNoLineEnding(s[2..]);
    } else {
      OneLineHasNoLineEnding(s[1..]);
    }
  }

  lemma {:induction false} NothingToReplace(s: string)
    requires NoLineEnding(s)
    ensures LineEndingsToSpaces(s) == s
    decreases |s|
  {
    if s != "" {
      assert s[0] in s && s[0] == s[..1][0];
      assert forall c | c in s[1..] :: c in s;
      NothingToReplace(s[1..]);
    }
  }

  predicate IsEnding(ending: string, after: string) {
    ending == "\r\n" || ending == "\n" || (ending == "\r" && !("\n" <= after))
  }

  lemma PairMeaning(s: string)
    ensures "\r\n" <= s <==> |s| >= 2 && s[0] == '\r' && s[1] == '\n'
    ensures "\n" <= s <==> |s| >= 1 && s[0] == '\n'
  {
    var pair, one := "\r\n", "\n";
    assert |s| >= 2 ==> s[..2] == [s[0], s[1]];
    assert |s| >= 1 ==> s[..1] == [s[0]];
    assert pair <= s ==> pair[0] == s[0] && pair[1] == s[1];
    assert one <= s ==> one[0] == s[0];
  }

  lemma EndingFirst(ending: string, after: string)
    requires IsEnding(ending, after)
    ensures OneLine(ending + after) == " " + OneLine(after)
  {
    var s := ending + after;
    PairMeaning(s);
    PairMeaning(after);
    assert s[0] == ending[0];
    if ending == "\r\n" {
      assert s[1] == ending[1] && s[2..] == after;
    } else {
      assert s[1..] == after && (|s| >= 2 ==> s[1] == after[0]);
    }
  }

  lemma PlainFirst(c: char, rest: string)
    requires c != '\r' && c != '\n'
    ensures OneLine([c] + rest) == [c] + OneLine(rest)
  {
    PairMeaning([c] + rest);
    assert ([c] + rest)[1..] == rest;
  }

  /** Each line ending becomes one space, and everything else stays: with a text that has
      none, this says what becomes of any text, line by line. */
  lemma {:induction false} EndingBecomesSpace(before: string, ending: string, after: string)
    requires NoLineEnding(before) && IsEnding(ending, after)
    ensures OneLine(before) == before
    ensures OneLine(before + (ending + after)) == before + (" " + OneLine(after))
    decreases |before|
  {
    NothingToReplace(before);
    if before == "" {
      NothingBefore(ending + after);
      NothingBefore(" " + OneLine(after));
      EndingFirst(ending, after);
    } else {
      var c, rest := before[0], before[1..];
      assert before == [c] + rest && c in before && forall d | d in rest :: d in before;
      EndingBecomesSpace(rest, ending, after);
      PlainFirst(c, rest + (ending + after));
      Reassociate([c], rest, ending + after);
      Reassociate([c], rest, " " + OneLine(after));
    }
  }

  /** `n` backticks in a row somewhere in `s`. */
  ghost predicate HasRun(s: string, n: nat) {
    exists i: nat | i + n <= |s| :: Run(s, i, n)
  }

  predicate Run(s: string, i: nat, n: nat)
    requires i + n <= |s|
  {
    forall k | i <= k < i + n :: s[k] == TICK
  }

  /** A run that ends at `end` is no longer than the backticks before it. */
  lemma RunEndsHere(text: string, end: nat, n: nat, current: nat)
    requires current <= end <= |text| && n <= end && Run(text, end - n, n)
    requires current < end ==> text[end - current - 1] != TICK
    ensures n <= current
  {
  }

  method LongestRun(text: string) returns (longest: nat)
    ensures HasRun(text, longest)
    ensures forall n: nat | HasRun(text, n) :: n <= longest
  {
    longest := 0;
    var current := 0;
    assert Run(text, 0, 0);
    for k := 0 to |text|
      invariant current <= longest && current <= k && Run(text, k - current, current)
      invariant current < k ==> text[k - current - 1] != TICK
      invariant exists i: nat | i + longest <= |text| :: Run(text, i, longest)
      invariant forall i: nat, n: nat | i + n <= k && Run(text, i, n) :: n <= longest
    {
      if text[k] == TICK {
        current := current + 1;
        assert Run(text, k + 1 - current, current);
        longest := if current > longest then current else longest;
        forall i: nat, n: nat | i + n == k + 1 && Run(text, i, n)
          ensures n <= current
        {
          RunEndsHere(text, k + 1, n, current);
        }
      } else {
        current := 0;
        forall i: nat, n: nat | i + n == k + 1 && Run(text, i, n)
          ensures n == 0
        {
          RunEndsHere(text, k + 1, n, 0);
        }
      }
    }
  }

  ghost predicate Longest(s: string, n: nat) {
    HasRun(s, n) && forall m: nat | HasRun(s, m) :: m <= n
  }

  predicate NeedsPadding(text: string)
    requires text != ""
  {
    || text[0] == TICK || text[|text| - 1] == TICK
    || (text[0] == ' ' && text[|text| - 1] == ' ' && !AllSpaces(text))
  }

  /** `_code_span` of text whose display controls are gone. */
  method CodeSpan(display: string) returns (span: string)
    ensures OneLine(display) == "" ==> span == "``" && ParseSpan(span) == NoSpan
    ensures OneLine(display) != "" ==>
      forall rest: string | rest == "" || rest[0] != TICK :: ParseSpan(span + rest) == Span(OneLine(display), rest)
  {
    var text := OneLine(display);
    if text == "" {
      EmptySpan();
      return "``";
    }
    var longest := LongestRun(text);
    var fence := Ticks(longest + 1);
    OneLineHasNoLineEnding(display);
    NothingToReplace(text);
    text := OneLine(text);
    span := if NeedsPadding(text) then fence + " " + text + " " + fence else fence + text + fence;
    assert span == fence + Body(text) + fence;
    forall rest: string | rest == "" || rest[0] != TICK
      ensures ParseSpan(span + rest) == Span(text, rest)
    {
      RoundTrip(text, longest, rest);
    }
  }

  function Body(text: string): string
    requires text != ""
  {
    if NeedsPadding(text) then " " + text + " " else text
  }

  lemma EmptySpan()
    ensures ParseSpan("``") == NoSpan
  {
    assert TicksAt("``", 1) == 1 + TicksAt("``", 2);
    assert TicksAt("``", 0) == 2;
  }

  // ---------- the round trip ----------

  lemma UnpaddedBody(text: string)
    requires text != "" && NoLineEnding(text)
    ensures Unpadded(LineEndingsToSpaces(Body(text))) == text
  {
    var body := Body(text);
    assert NoLineEnding(body);
    NothingToReplace(body);
    if NeedsPadding(text) {
      assert body[1] == text[0] && body[|body| - 2] == text[|text| - 1];
      assert body[1..|body| - 1] == text;
      assert forall i | 0 <= i < |text| :: body[i + 1] == text[i];
    }
  }

  /** Padding adds no backticks. */
  lemma BodyRuns(text: string, longest: nat, i: nat, n: nat)
    requires text != "" && Longest(text, longest) && i + n <= |Body(text)| && Run(Body(text), i, n)
    ensures n <= longest
  {
    var body := Body(text);
    if n > 0 && NeedsPadding(text) {
      assert body[i] == TICK && body[i + n - 1] == TICK;
      assert forall k | 0 <= k < |text| :: text[k] == body[k + 1];
      assert Run(text, i - 1, n);
    }
    if n > 0 {
      assert HasRun(text, n);
    } else {
      assert Run(text, 0, 0);
    }
  }

  lemma RunEnds(s: string, p: nat, n: nat)
    requires p + n <= |s| && Run(s, p, n) && (p + n < |s| ==> s[p + n] != TICK)
    ensures TicksAt(s, p) == n
  {
  }

  /** Between `from` and `end` all backtick strings are shorter than `n`, and at `end`
      stands one of `n`. */
  ghost predicate Closes(s: string, n: nat, from: nat, end: nat) {
    && from < end && end + n <= |s| && s[end - 1] != TICK
    && Run(s, end, n) && (end + n < |s| ==> s[end + n] != TICK)
    && forall p: nat, m: nat | from <= p && p + m <= end && Run(s, p, m) :: m < n
  }

  /** No backtick string before the fence can close the span. */
  lemma {:induction false} FindsFence(s: string, n: nat, from: nat, end: nat, p: nat)
    requires n > 0 && Closes(s, n, from, end) && from <= p <= end
    ensures FindClose(s, n, p) == Some(end)
    decreases end - p
  {
    if p == end {
      RunEnds(s, p, n);
    } else if s[p] != TICK {
      FindsFence(s, n, from, end, p + 1);
    } else {
      var m := TicksAt(s, p);
      StaysInside(s, p, m, end);
      assert Run(s, p, m);
      FindsFence(s, n, from, end, p + m);
    }
  }

  lemma StaysInside(s: string, p: nat, m: nat, end: nat)
    requires p < end <= |s| && s[end - 1] != TICK && p + m <= |s| && Run(s, p, m)
    ensures p + m <= end
  {
  }

  lemma Sliced(fence: string, body: string, rest: string)
    requires body != ""
    ensures var s, n, b := fence + body + fence + rest, |fence|, |body|;
      && (forall k | 0 <= k < n :: s[k] == fence[k])
      && (forall k | n <= k < n + b :: s[k] == body[k - n])
      && (forall k | n + b <= k < n + b + n :: s[k] == fence[k - n - b])
      && (n + b + n < |s| ==> rest != "" && s[n + b + n] == rest[0])
      && s[n..n + b] == body && s[n + b + n..] == rest
  {
  }

  lemma FenceCloses(text: string, longest: nat, s: string, rest: string)
    requires text != "" && Longest(text, longest) && (rest == "" || rest[0] != TICK)
    requires s == Ticks(longest + 1) + Body(text) + Ticks(longest + 1) + rest
    ensures Closes(s, longest + 1, longest + 1, longest + 1 + |Body(text)|)
  {
    var n, body := longest + 1, Body(text);
    Sliced(Ticks(n), body, rest);
    assert s[n + |body| - 1] == body[|body| - 1];
    forall p: nat, m: nat | n <= p && p + m <= n + |body| && Run(s, p, m)
      ensures m < n
    {
      RunInBody(text, longest, s, n, p, m);
    }
  }

  lemma RunInBody(text: string, longest: nat, s: string, n: nat, p: nat, m: nat)
    requires text != "" && Longest(text, longest) && n <= p && p + m <= n + |Body(text)| <= |s| && Run(s, p, m)
    requires s[n..n + |Body(text)|] == Body(text)
    ensures m <= longest
  {
    var body := Body(text);
    assert forall k | p - n <= k < p - n + m :: body[k] == s[k + n];
    BodyRuns(text, longest, p - n, m);
  }

  lemma ParsesTo(s: string, n: nat, text: string, rest: string)
    requires text != "" && NoLineEnding(text) && 0 < n && n + |Body(text)| + n <= |s|
    requires Run(s, 0, n) && s[n] != TICK && Closes(s, n, n, n + |Body(text)|)
    requires s[n..n + |Body(text)|] == Body(text) && s[n + |Body(text)| + n..] == rest
    ensures ParseSpan(s) == Span(text, rest)
  {
    RunEnds(s, 0, n);
    FindsFence(s, n, n, n + |Body(text)|, n);
    UnpaddedBody(text);
    SpanBetween(s, n, n + |Body(text)|, Body(text), text, rest);
  }

  lemma SpanBetween(s: string, n: nat, end: nat, body: string, text: string, rest: string)
    requires 0 < n <= end && end + n <= |s| && TicksAt(s, 0) == n && FindClose(s, n, n) == Some(end)
    requires s[n..end] == body && s[end + n..] == rest && Unpadded(LineEndingsToSpaces(body)) == text
    ensures ParseSpan(s) == Span(text, rest)
  {
  }

  /** A viewer reads back exactly the text, whatever follows that is no backtick. */
  lemma RoundTrip(text: string, longest: nat, rest: string)
    requires text != "" && NoLineEnding(text) && Longest(text, longest) && (rest == "" || rest[0] != TICK)
    ensures ParseSpan(Ticks(longest + 1) + Body(text) + Ticks(longest + 1) + rest) == Span(text, rest)
  {
    var n, body := longest + 1, Body(text);
    var s := Ticks(n) + body + Ticks(n) + rest;
    assert Run(s, 0, n) && s[n] == body[0] && s[n..n + |body|] == body && s[n + |body| + n..] == rest by {
      Sliced(Ticks(n), body, rest);
    }
    FenceCloses(text, longest, s, rest);
    ParsesTo(s, n, text, rest);
  }
}
