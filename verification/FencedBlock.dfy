/** `_fenced` against section 4.5 of CommonMark 0.30. */
module FencedBlock {
  import opened Backticks
  import opened Text
  import opened Wrappers

  // ---------- CommonMark ----------

  /** A line ending is a newline, a carriage return, or both (section 2.1). */
  predicate EndsLine(c: char) {
    c == '\n' || c == '\r'
  }

  function LineEnd(s: string, p: nat): (e: nat)
    requires p <= |s|
    ensures p <= e <= |s| && (forall k | p <= k < e :: !EndsLine(s[k])) && (e < |s| ==> EndsLine(s[e]))
    decreases |s| - p
  {
    if p == |s| || EndsLine(s[p]) then p else LineEnd(s, p + 1)
  }

  /** Past the line ending at `e`. */
  function NextLine(s: string, e: nat): (p: nat)
    requires e < |s|
    ensures e < p <= e + 2 && p <= |s|
  {
    if s[e] == '\r' && e + 1 < |s| && s[e + 1] == '\n' then e + 2 else e + 1
  }

  function SpacesAt(s: string, i: nat): (n: nat)
    requires i <= |s|
    ensures i + n <= |s| && (forall k | i <= k < i + n :: s[k] == ' ') && (i + n < |s| ==> s[i + n] != ' ')
    decreases |s| - i
  {
    if i == |s| || s[i] != ' ' then 0 else 1 + SpacesAt(s, i + 1)
  }

  predicate Blank(s: string) {
    forall i | 0 <= i < |s| :: s[i] == ' ' || s[i] == '\t'
  }

  /** A closing fence: at most three spaces, at least `n` backticks, then only spaces
      or tabs. */
  predicate ClosesFence(line: string, n: nat) {
    var indent := SpacesAt(line, 0);
    var run := TicksAt(line, indent);
    indent <= 3 && run >= n && Blank(line[indent + run..])
  }

  /** A line starts here: at the start, or just past a line ending. */
  predicate LineStart(s: string, p: nat)
    requires p <= |s|
  {
    || p == 0 || s[p - 1] == '\n'
    || (s[p - 1] == '\r' && (p == |s| || s[p] != '\n'))
  }

  predicate ClosesAt(s: string, n: nat, p: nat)
    requires p <= |s|
  {
    LineStart(s, p) && ClosesFence(s[p..LineEnd(s, p)], n)
  }

  /** The first line from `start` on that closes the block. */
  ghost predicate FirstClosing(s: string, n: nat, start: nat, close: nat) {
    && start <= close < |s| && ClosesAt(s, n, close)
    && forall p: nat | start <= p < close :: !ClosesAt(s, n, p)
  }

  datatype Block = NoBlock | Unclosed | Block(info: string, content: string)

  /** The fenced code block that begins `s`: an opening fence of at least three
      backticks, an info string without backticks, and the lines up to the closing
      fence. */
  ghost function ParseFence(s: string): Block {
    var n := TicksAt(s, 0);
    var e := LineEnd(s, n);
    if n < 3 || TICK in s[n..e] || e == |s| then NoBlock
    else
      var start := NextLine(s, e);
      if close: nat :| FirstClosing(s, n, start, close) then Block(Strip(s[n..e]), s[start..close]) else Unclosed
  }

  // ---------- Python ----------

  /** Where `str.splitlines` also breaks. */
  predicate Breaks(c: char) {
    || c == '\n' || c == '\r' || c as int == 0x0B || c as int == 0x0C
    || 0x1C <= c as int <= 0x1E || c as int == 0x85 || c as int == 0x2028 || c as int == 0x2029
  }

  function BreakAt(s: string, p: nat): (e: nat)
    requires p <= |s|
    ensures p <= e <= |s| && (forall k | p <= k < e :: !Breaks(s[k])) && (e < |s| ==> Breaks(s[e]))
    decreases |s| - p
  {
    if p == |s| || Breaks(s[p]) then p else BreakAt(s, p + 1)
  }

  /** `text[p:].splitlines()`. */
  function SplitLines(s: string, p: nat): seq<string>
    requires p <= |s|
    decreases |s| - p
  {
    if p == |s| then []
    else
      var e := BreakAt(s, p);
      [s[p..e]] + if e == |s| then [] else SplitLines(s, NextLine(s, e))
  }

  // ---------- the printer ----------

  /** The longest stripped line of nothing but backticks. */
  function Longest(lines: seq<string>): Option<nat> {
    if lines == [] then None
    else
      var before, line := Longest(lines[..|lines| - 1]), Strip(lines[|lines| - 1]);
      if !AllTicks(line) || (before.Some? && |line| <= before.value) then before else Some(|line|)
  }

  function FenceSize(text: string): nat {
    var longest := Longest(SplitLines(text, 0));
    var n := (if longest.Some? then longest.value else 2) + 1;
    if n < 3 then 3 else n
  }

  /** The payload ends its last line. */
  function Ended(text: string): (body: string)
    ensures body != "" && text <= body && |body| <= |text| + 1 && body[|body| - 1] == '\n'
  {
    if text != "" && text[|text| - 1] == '\n' then text else text + "\n"
  }

  function Fenced(text: string, language: string): string {
    var fence := Ticks(FenceSize(text));
    fence + language + "\n" + Ended(text) + fence + "\n"
  }

  /** The labels the callers use: words without backticks. */
  predicate Label(language: string) {
    && Strip(language) == language
    && forall i | 0 <= i < |language| :: language[i] != TICK && !EndsLine(language[i])
  }

  // ---------- no payload line closes the fence ----------

  lemma {:induction false} LongestBounds(lines: seq<string>, i: nat)
    requires i < |lines| && AllTicks(Strip(lines[i]))
    ensures Longest(lines).Some? && |Strip(lines[i])| <= Longest(lines).value
  {
    if i < |lines| - 1 {
      LongestBounds(lines[..|lines| - 1], i);
    }
  }

  /** Every line of CommonMark starts where a line of Python's does. */
  lemma {:induction false} StartsLine(s: string, q: nat, p: nat)
    requires q <= p <= |s| && LineStart(s, p)
    ensures forall line | line in SplitLines(s, p) :: line in SplitLines(s, q)
    decreases p - q
  {
    if q < p {
      var e := BreakAt(s, q);
      assert e <= p - 1;
      var next := NextLine(s, e);
      assert next <= p;
      StartsLine(s, next, p);
    }
  }

  lemma StripFirst(s: string)
    requires s != "" && IsSpace(s[0])
    ensures Strip(s) == Strip(s[1..])
  {
  }

  lemma StripLast(s: string)
    requires s != "" && !IsSpace(s[0]) && IsSpace(s[|s| - 1])
    ensures Strip(s) == Strip(s[..|s| - 1])
  {
  }

  lemma {:induction false} StripBehind(ticks: string, after: string)
    requires ticks != "" && AllTicks(ticks) && AllSpace(after)
    ensures Strip(ticks + after) == ticks
    decreases |after|
  {
    var s := ticks + after;
    assert s[0] == ticks[0];
    if after == "" {
      assert s == ticks;
    } else {
      assert s[|s| - 1] == after[|after| - 1];
      StripLast(s);
      assert s[..|s| - 1] == ticks + after[..|after| - 1];
      StripBehind(ticks, after[..|after| - 1]);
    }
  }

  lemma {:induction false} StripToTicks(before: string, ticks: string, after: string)
    requires ticks != "" && AllTicks(ticks) && AllSpace(before) && AllSpace(after)
    ensures Strip(before + ticks + after) == ticks
    decreases |before|
  {
    var s := before + ticks + after;
    if before == "" {
      assert s == ticks + after;
      StripBehind(ticks, after);
    } else {
      assert s[0] == before[0];
      StripFirst(s);
      assert s[1..] == before[1..] + ticks + after;
      StripToTicks(before[1..], ticks, after);
    }
  }

  lemma ClosingParts(line: string, n: nat) returns (before: string, ticks: string, after: string)
    requires ClosesFence(line, n)
    ensures line == before + ticks + after && Blank(before) && AllTicks(ticks) && |ticks| >= n && Blank(after)
  {
    var a := SpacesAt(line, 0);
    var k := TicksAt(line, a);
    before, ticks, after := line[..a], line[a..a + k], line[a + k..];
    assert line == before + ticks + after;
    assert forall i | 0 <= i < |before| :: before[i] == line[i];
    assert forall i | 0 <= i < |ticks| :: ticks[i] == line[a + i];
  }

  lemma BlankIsSpace(s: string)
    requires Blank(s)
    ensures AllSpace(s) && forall i | 0 <= i < |s| :: !Breaks(s[i])
  {
  }

  lemma Unbroken(before: string, ticks: string, after: string)
    requires Blank(before) && AllTicks(ticks) && Blank(after)
    ensures forall i | 0 <= i < |before + ticks + after| :: !Breaks((before + ticks + after)[i])
  {
    BlankIsSpace(before);
    BlankIsSpace(after);
  }

  /** A line that could close a fence is nothing but backticks to the printer. */
  lemma ClosingIsTicks(line: string, n: nat)
    requires n > 0 && ClosesFence(line, n)
    ensures AllTicks(Strip(line)) && |Strip(line)| >= n
    ensures forall i | 0 <= i < |line| :: !Breaks(line[i])
  {
    var before, ticks, after := ClosingParts(line, n);
    BlankIsSpace(before);
    BlankIsSpace(after);
    StripToTicks(before, ticks, after);
    Unbroken(before, ticks, after);
  }

  /** A line of CommonMark without Python's other separators is a line of Python. */
  lemma SameLine(text: string, p: nat)
    requires p < |text| && LineStart(text, p)
    requires forall k | p <= k < LineEnd(text, p) :: !Breaks(text[k])
    ensures text[p..LineEnd(text, p)] in SplitLines(text, 0)
  {
    var e, b := LineEnd(text, p), BreakAt(text, p);
    assert b == e;
    assert SplitLines(text, p)[0] == text[p..e];
    StartsLine(text, 0, p);
  }

  lemma CountedLine(lines: seq<string>, line: string, n: nat)
    requires line in lines && AllTicks(Strip(line)) && |Strip(line)| >= n
    ensures Longest(lines).Some? && Longest(lines).value >= n
  {
    var i :| 0 <= i < |lines| && lines[i] == line;
    LongestBounds(lines, i);
  }

  lemma LineCounted(text: string, p: nat, n: nat)
    requires p < |text| && LineStart(text, p) && n > 0 && ClosesFence(text[p..LineEnd(text, p)], n)
    ensures FenceSize(text) > n
  {
    var line := text[p..LineEnd(text, p)];
    ClosingIsTicks(line, n);
    forall k | p <= k < LineEnd(text, p)
      ensures !Breaks(text[k])
    {
      assert text[k] == line[k - p];
    }
    SameLine(text, p);
    CountedLine(SplitLines(text, 0), line, n);
  }

  /** Also with the newline that ends the payload. */
  lemma NoLineCloses(text: string, i: nat)
    requires i < |Ended(text)| && LineStart(Ended(text), i)
    ensures !ClosesFence(Ended(text)[i..LineEnd(Ended(text), i)], FenceSize(text))
  {
    var body := Ended(text);
    if i < |text| {
      SameLineEnd(text, body, i);
      PayloadLine(text, body, i);
      if ClosesFence(text[i..LineEnd(text, i)], FenceSize(text)) {
        LineCounted(text, i, FenceSize(text));
        assert false;
      }
    } else {
      assert body[i..LineEnd(body, i)] == "";
    }
  }

  lemma PayloadLine(text: string, body: string, i: nat)
    requires i < |text| && text <= body && LineStart(body, i)
    ensures LineStart(text, i) && body[i..LineEnd(text, i)] == text[i..LineEnd(text, i)]
  {
    assert forall k | 0 <= k < |text| :: body[k] == text[k];
  }

  lemma SameLineEnd(text: string, body: string, i: nat)
    requires i < |text| && body == Ended(text)
    ensures LineEnd(body, i) == LineEnd(text, i)
  {
    var e := LineEnd(body, i);
    assert forall k | 0 <= k < |text| :: body[k] == text[k];
  }

  /** A line of a payload inside a document. */
  lemma SameLineInside(s: string, start: nat, body: string, p: nat)
    requires start + |body| <= |s| && s[start..start + |body|] == body
    requires start <= p < start + |body| && body[|body| - 1] == '\n'
    ensures LineEnd(s, p) == start + LineEnd(body, p - start)
    ensures s[p..LineEnd(s, p)] == body[p - start..LineEnd(body, p - start)]
  {
    assert forall k | start <= k < start + |body| :: s[k] == body[k - start];
    var e, f := LineEnd(body, p - start), LineEnd(s, p);
    assert e < |body|;
    assert body[e] == s[start + e];
    assert f == start + e;
  }

  lemma PayloadPassed(s: string, start: nat, text: string, p: nat)
    requires start + |Ended(text)| <= |s| && s[start..start + |Ended(text)|] == Ended(text)
    requires start <= p < start + |Ended(text)|
    ensures !ClosesAt(s, FenceSize(text), p)
  {
    var body := Ended(text);
    SameLineInside(s, start, body, p);
    if LineStart(s, p) {
      assert p > start ==> s[p - 1] == body[p - start - 1] && s[p] == body[p - start];
      NoLineCloses(text, p - start);
    }
  }

  lemma TicksClose(n: nat)
    ensures ClosesFence(Ticks(n), n)
  {
    var line := Ticks(n);
    assert SpacesAt(line, 0) == 0;
    assert TicksAt(line, 0) == n;
  }

  /** `s` is laid out as a printed block. */
  ghost predicate Laid(s: string, n: nat, language: string, body: string) {
    var e, close := n + |language|, n + |language| + 1 + |body|;
    && close + n < |s|
    && (forall k | 0 <= k < n :: s[k] == TICK) && s[n..e] == language && s[e] == '\n'
    && s[e + 1..close] == body
    && s[close..close + n] == Ticks(n) && s[close + n] == '\n'
  }

  lemma LaidOut(n: nat, language: string, body: string, rest: string)
    ensures Laid(Ticks(n) + language + "\n" + body + Ticks(n) + "\n" + rest, n, language, body)
  {
  }

  lemma ReadsOpening(s: string, n: nat, language: string, body: string)
    requires Laid(s, n, language, body) && Label(language)
    ensures TicksAt(s, 0) == n && LineEnd(s, n) == n + |language|
    ensures NextLine(s, n + |language|) == n + |language| + 1
  {
    var e := n + |language|;
    assert forall k | n <= k < e :: s[k] == language[k - n];
    assert s[n] != TICK;
    var run, end := TicksAt(s, 0), LineEnd(s, n);
    assert run == n && end == e;
  }

  lemma ReadsClosing(s: string, n: nat, language: string, body: string)
    requires Laid(s, n, language, body)
    ensures var close := n + |language| + 1 + |body|; LineEnd(s, close) == close + n
  {
    var close := n + |language| + 1 + |body|;
    assert forall k | close <= k < close + n :: s[k] == Ticks(n)[k - close];
    var end := LineEnd(s, close);
    assert end == close + n;
  }

  lemma ParsesTo(s: string, n: nat, e: nat, start: nat, close: nat, language: string, body: string)
    requires n >= 3 && TicksAt(s, 0) == n && n <= e < start <= close <= |s| && Label(language)
    requires LineEnd(s, n) == e && NextLine(s, e) == start && FirstClosing(s, n, start, close)
    requires s[n..e] == language && s[start..close] == body
    ensures ParseFence(s) == Block(language, body)
  {
    forall other: nat | FirstClosing(s, n, start, other)
      ensures other == close
    {
    }
  }

  lemma ClosesHere(s: string, n: nat, language: string, body: string)
    requires Laid(s, n, language, body) && body != "" && body[|body| - 1] == '\n'
    ensures ClosesAt(s, n, n + |language| + 1 + |body|)
  {
    var start := n + |language| + 1;
    ReadsClosing(s, n, language, body);
    TicksClose(n);
    assert s[start + |body| - 1] == s[start..start + |body|][|body| - 1];
  }

  ghost predicate NoneCloses(s: string, n: nat, from: nat, to: nat)
    requires to <= |s|
  {
    forall p: nat | from <= p < to :: !ClosesAt(s, n, p)
  }

  lemma FirstHere(s: string, n: nat, start: nat, close: nat)
    requires start <= close < |s| && ClosesAt(s, n, close) && NoneCloses(s, n, start, close)
    ensures FirstClosing(s, n, start, close)
  {
  }

  lemma FenceIsFirst(s: string, n: nat, language: string, body: string, start: nat, close: nat)
    requires start == n + |language| + 1 && close == start + |body|
    requires Laid(s, n, language, body) && body != "" && body[|body| - 1] == '\n' && NoneCloses(s, n, start, close)
    ensures FirstClosing(s, n, start, close)
  {
    ClosesHere(s, n, language, body);
    FirstHere(s, n, start, close);
  }

  lemma PrintedParses(s: string, n: nat, language: string, body: string, start: nat, close: nat)
    requires start == n + |language| + 1 && close == start + |body|
    requires Label(language) && n >= 3 && Laid(s, n, language, body) && FirstClosing(s, n, start, close)
    ensures ParseFence(s) == Block(language, body)
  {
    ReadsOpening(s, n, language, body);
    ParsesTo(s, n, start - 1, start, close, language, body);
  }

  lemma PayloadNeverCloses(s: string, text: string, language: string)
    requires Laid(s, FenceSize(text), language, Ended(text))
    ensures NoneCloses(s, FenceSize(text), FenceSize(text) + |language| + 1,
                       FenceSize(text) + |language| + 1 + |Ended(text)|)
  {
    NothingCloses(s, FenceSize(text), FenceSize(text) + |language| + 1, text);
  }

  lemma NothingCloses(s: string, n: nat, start: nat, text: string)
    requires n == FenceSize(text) && start + |Ended(text)| <= |s| && s[start..start + |Ended(text)|] == Ended(text)
    ensures NoneCloses(s, n, start, start + |Ended(text)|)
  {
    forall p: nat | start <= p < start + |Ended(text)|
      ensures !ClosesAt(s, n, p)
    {
      PayloadPassed(s, start, text, p);
    }
  }

  lemma LaidParses(s: string, n: nat, language: string, body: string)
    requires Label(language) && n >= 3 && Laid(s, n, language, body) && body != "" && body[|body| - 1] == '\n'
    requires NoneCloses(s, n, n + |language| + 1, n + |language| + 1 + |body|)
    ensures ParseFence(s) == Block(language, body)
  {
    var start := n + |language| + 1;
    FenceIsFirst(s, n, language, body, start, start + |body|);
    PrintedParses(s, n, language, body, start, start + |body|);
  }

  lemma SameText(fence: string, language: string, body: string, rest: string)
    ensures (fence + language + "\n" + body + fence + "\n") + rest == fence + language + "\n" + body + fence + "\n" + rest
  {
  }

  /** A parser reads back the payload, up to one final newline, whatever follows the
      block. */
  lemma FenceRoundTrip(text: string, language: string, rest: string)
    requires Label(language)
    ensures ParseFence(Fenced(text, language) + rest) == Block(language, Ended(text))
  {
    var n, body := FenceSize(text), Ended(text);
    var s := Ticks(n) + language + "\n" + body + Ticks(n) + "\n" + rest;
    LaidOut(n, language, body, rest);
    PayloadNeverCloses(s, text, language);
    LaidParses(s, n, language, body);
    SameText(Ticks(n), language, body, rest);
  }
}
