/** The bounded tail of an event stream: where the window starts, and whether it
    holds the stream's terminal event. Lines are separated by newlines only. */
module TerminalWindow {
  import opened Sequences

  const TERMINAL_SCAN_LINES := 16
  const TERMINAL_SCAN_BYTES := 8 * 1024 * 1024

  predicate LineStart(text: string, p: nat) {
    p < |text| && (p == 0 || text[p - 1] == '\n')
  }

  /** How many lines start at or after `p`. */
  function LinesFrom(text: string, p: nat): nat
    decreases |text| - p
  {
    if p >= |text| then 0 else (if LineStart(text, p) then 1 else 0) + LinesFrom(text, p + 1)
  }

  function Floor(text: string): nat {
    if |text| <= TERMINAL_SCAN_BYTES then 0 else |text| - TERMINAL_SCAN_BYTES
  }

  /** Python's `rfind("\n", low, high)`. */
  method FindNewlineBefore(text: string, low: nat, high: nat) returns (found: int)
    requires high <= |text|
    ensures found == -1 || low <= found < high
    ensures found >= 0 ==> text[found] == '\n'
    ensures forall i | low <= i < high && i > found :: text[i] != '\n'
  {
    found := high - 1;
    while found >= low && text[found] != '\n'
      invariant found < high
      invariant forall i | low <= i < high && i > found :: text[i] != '\n'
      decreases found
    {
      found := found - 1;
    }
    if found < low {
      found := -1;
    }
  }

  lemma {:induction false} NoLineBetween(text: string, p: nat, q: nat)
    requires p <= q <= |text|
    requires forall i | p <= i < q :: !LineStart(text, i)
    ensures LinesFrom(text, p) == LinesFrom(text, q)
    decreases q - p
  {
    if p < q {
      NoLineBetween(text, p + 1, q);
    }
  }

  /** The window starts above the floor at a line with sixteen lines left, or at
      the floor because fewer lines than that start above it. */
  ghost predicate IsWindowStart(text: string, w: nat) {
    && Floor(text) <= w <= |text|
    && (w > Floor(text) ==> LineStart(text, w) && LinesFrom(text, w) == TERMINAL_SCAN_LINES)
    && (w == Floor(text) ==> LinesFrom(text, w + 1) < TERMINAL_SCAN_LINES)
  }

  /** `_terminal_window_start`. */
  method TerminalWindowStart(text: string) returns (w: nat)
    ensures IsWindowStart(text, w)
  {
    var floor := if |text| - TERMINAL_SCAN_BYTES > 0 then |text| - TERMINAL_SCAN_BYTES else 0;
    var cut := |text|;
    for n := 0 to TERMINAL_SCAN_LINES
      invariant floor <= cut <= |text|
      invariant LinesFrom(text, cut) == n
      invariant n > 0 ==> cut > floor && LineStart(text, cut)
    {
      var nl := FindNewlineBefore(text, floor, if cut > floor then cut - 1 else floor);
      forall i | (if nl >= 0 then nl + 2 else floor + 1) <= i < cut
        ensures !LineStart(text, i)
      {
        assert text[i - 1] != '\n';
      }
      if nl == -1 {
        if floor < cut {
          NoLineBetween(text, floor + 1, cut);
        }
        return floor;
      }
      NoLineBetween(text, nl + 2, cut);
      cut := nl + 1;
    }
    w := cut;
  }

  lemma {:induction false} FewerLinesLater(text: string, p: nat, q: nat)
    requires p <= q
    ensures LinesFrom(text, p) >= LinesFrom(text, q)
    ensures p < q && LineStart(text, p) ==> LinesFrom(text, p) > LinesFrom(text, q)
    decreases q - p
  {
    if p < q {
      FewerLinesLater(text, p + 1, q);
    }
  }

  /** Whenever the last sixteen lines fit under the ceiling, the window is they. */
  lemma WindowIsLastLines(text: string, w: nat, p: nat)
    requires IsWindowStart(text, w)
    requires LineStart(text, p) && LinesFrom(text, p) == TERMINAL_SCAN_LINES && p >= Floor(text)
    ensures w == p
  {
    if p < w {
      FewerLinesLater(text, p, w);
    } else if w < p {
      FewerLinesLater(text, w + 1, p);
      FewerLinesLater(text, w, p);
    }
  }

  /** A text of at most sixteen lines under the ceiling is its own window. */
  lemma WindowIsWholeText(text: string, w: nat)
    requires IsWindowStart(text, w)
    requires LinesFrom(text, 0) <= TERMINAL_SCAN_LINES && |text| <= TERMINAL_SCAN_BYTES
    ensures w == 0
  {
    FewerLinesLater(text, 0, w);
  }

  // ---------- the lines of the window ----------

  function FirstNewline(s: string): (i: nat)
    ensures i <= |s| && forall j | 0 <= j < i :: s[j] != '\n'
    ensures i < |s| ==> s[i] == '\n'
  {
    if s == "" || s[0] == '\n' then 0 else 1 + FirstNewline(s[1..])
  }

  function SplitLines(s: string): seq<string>
    decreases |s|
  {
    if s == "" then []
    else
      var i := FirstNewline(s);
      if i == |s| then [s] else [s[..i]] + SplitLines(s[i + 1..])
  }

  function Last<T>(s: seq<T>, n: nat): seq<T> {
    if |s| <= n then s else s[|s| - n..]
  }

  lemma {:induction false} LinesAreCounted(text: string, p: nat)
    requires p <= |text| && (p == |text| || LineStart(text, p))
    ensures |SplitLines(text[p..])| == LinesFrom(text, p)
    decreases |text| - p
  {
    if p < |text| {
      var i := FirstNewline(text[p..]);
      var next := if p + i < |text| then p + i + 1 else |text|;
      forall k | p + 1 <= k < next
        ensures !LineStart(text, k)
      {
        assert text[k - 1] == text[p..][k - 1 - p];
      }
      NoLineBetween(text, p + 1, next);
      if i < |text[p..]| {
        assert text[p..][i + 1..] == text[next..];
        assert text[next - 1] == text[p..][i];
        LinesAreCounted(text, next);
      }
    }
  }

  lemma FirstLine(s: string, i: nat)
    requires i < |s| && s[i] == '\n' && forall j | 0 <= j < i :: s[j] != '\n'
    ensures SplitLines(s) == [s[..i]] + SplitLines(s[i + 1..])
  {
    assert FirstNewline(s) == i;
  }

  lemma {:induction false} LinesSplitAt(text: string, p: nat)
    requires p == 0 || LineStart(text, p)
    ensures p <= |text| && SplitLines(text) == SplitLines(text[..p]) + SplitLines(text[p..])
    decreases |text|
  {
    if p == 0 {
      assert text[0..] == text;
      assert text[..0] == "";
      assert SplitLines(text[..0]) == [];
    } else {
      var i := FirstNewline(text);
      assert i < p by {
        assert text[p - 1] == '\n';
      }
      var tail, q := text[i + 1..], p - i - 1;
      LineSplitStep(text, p, i, tail, q);
      LinesSplitAt(tail, q);
      Reassociate([text[..i]], SplitLines(tail[..q]), SplitLines(text[p..]));
    }
  }

  lemma LineSplitStep(text: string, p: nat, i: nat, tail: string, q: nat)
    requires i < p && LineStart(text, p)
    requires text[i] == '\n' && forall j | 0 <= j < i :: text[j] != '\n'
    requires tail == text[i + 1..] && q == p - i - 1
    ensures LineStart(tail, q) && tail[q..] == text[p..]
    ensures SplitLines(text) == [text[..i]] + SplitLines(tail)
    ensures SplitLines(text[..p]) == [text[..i]] + SplitLines(tail[..q])
  {
    FirstLine(text, i);
    FirstLineOfHead(text, p, i);
    TailOf(text, p, i, tail, q);
  }

  lemma TailOf(text: string, p: nat, i: nat, tail: string, q: nat)
    requires i < p && LineStart(text, p) && tail == text[i + 1..] && q == p - i - 1
    ensures LineStart(tail, q) && tail[q..] == text[p..] && text[..p][i + 1..] == tail[..q]
  {
    assert q > 0 ==> tail[q - 1] == text[p - 1];
  }

  lemma FirstLineOfHead(text: string, p: nat, i: nat)
    requires i < p <= |text| && text[i] == '\n' && forall j | 0 <= j < i :: text[j] != '\n'
    ensures SplitLines(text[..p]) == [text[..i]] + SplitLines(text[..p][i + 1..])
  {
    var head := text[..p];
    assert head[i] == text[i] && forall j | 0 <= j < i :: head[j] == text[j];
    FirstLine(head, i);
    assert head[..i] == text[..i];
  }

  // ---------- lines by position ----------

  /** A line stands at `p..e`, its newline not included. */
  predicate IsLine(text: string, p: nat, e: nat) {
    && LineStart(text, p) && p <= e <= |text| && (forall k | p <= k < e :: text[k] != '\n')
    && (e < |text| ==> text[e] == '\n')
  }

  /** The last sixteen lines, or all if there are fewer, are under the ceiling. */
  ghost predicate LastLinesFit(text: string) {
    forall p: nat | LineStart(text, p) && LinesFrom(text, p + 1) < TERMINAL_SCAN_LINES :: p >= Floor(text)
  }

  /** A line with at most fifteen lines behind it is terminal. */
  ghost predicate TerminalAmongLast(text: string, terminal: string -> bool) {
    exists p: nat, e: nat :: TerminalAt(text, p, e, terminal)
  }

  ghost predicate TerminalAt(text: string, p: nat, e: nat, terminal: string -> bool) {
    IsLine(text, p, e) && LinesFrom(text, p + 1) < TERMINAL_SCAN_LINES && terminal(text[p..e])
  }

  lemma FirstEnd(text: string, w: nat, e: nat)
    requires LineStart(text, w) && e == w + FirstNewline(text[w..])
    ensures IsLine(text, w, e)
  {
    var i := e - w;
    forall k | w <= k < e
      ensures text[k] != '\n'
    {
      assert text[k] == text[w..][k - w];
    }
    assert i < |text[w..]| ==> text[w..][i] == text[e];
  }

  lemma NextStart(text: string, w: nat, e: nat, next: nat)
    requires IsLine(text, w, e) && next == if e < |text| then e + 1 else e
    ensures w < next <= |text| && (next == |text| || LineStart(text, next))
    ensures LinesFrom(text, next) == LinesFrom(text, w + 1)
  {
    NoLineBetween(text, w + 1, next);
  }

  /** The lines from `w` on are the one at `w..e`, then those from `next` on. */
  ghost predicate SplitsAs(text: string, w: nat, e: nat, next: nat)
    requires w <= e <= |text| && next <= |text|
  {
    SplitLines(text[w..]) == [text[w..e]] + SplitLines(text[next..])
  }

  lemma FirstSplit(text: string, w: nat, e: nat, next: nat)
    requires w < |text| && e == w + FirstNewline(text[w..]) && next == if e < |text| then e + 1 else e
    ensures SplitsAs(text, w, e, next)
  {
    var i := e - w;
    assert text[w..][..i] == text[w..e];
    if e < |text| {
      assert text[w..][i + 1..] == text[next..];
      FirstLine(text[w..], i);
    } else {
      assert text[w..] == text[w..e] && text[next..] == "";
    }
  }

  /** The line at `w`, and where the next one starts. */
  lemma FirstLineOf(text: string, w: nat) returns (e: nat, next: nat)
    requires LineStart(text, w)
    ensures IsLine(text, w, e) && w < next <= |text| && (next == |text| || LineStart(text, next))
    ensures SplitsAs(text, w, e, next) && LinesFrom(text, next) == LinesFrom(text, w + 1)
  {
    var i := FirstNewline(text[w..]);
    e := w + i;
    next := if e < |text| then e + 1 else e;
    FirstEnd(text, w, e);
    NextStart(text, w, e, next);
    FirstSplit(text, w, e, next);
  }

  /** The line at index `k` of those from `w` on stands at `p..e`. */
  ghost predicate NumberedAt(text: string, w: nat, k: nat, p: nat, e: nat)
    requires w <= |text|
  {
    var lines := SplitLines(text[w..]);
    k < |lines| && w <= p && IsLine(text, p, e) && lines[k] == text[p..e] && LinesFrom(text, p) == |lines| - k
  }

  lemma NextNumbered(text: string, w: nat, f: nat, next: nat, k: nat, p: nat, e: nat)
    requires w <= f <= |text| && w < next <= |text| && SplitsAs(text, w, f, next) && k > 0
    requires NumberedAt(text, next, k - 1, p, e)
    ensures NumberedAt(text, w, k, p, e)
  {
    var lines, rest := SplitLines(text[w..]), SplitLines(text[next..]);
    assert |lines| == |rest| + 1 && lines[k] == rest[k - 1];
  }

  /** The lines of a text, by position. */
  lemma {:induction false} LineNumbered(text: string, w: nat, k: nat) returns (p: nat, e: nat)
    requires (w == |text| || LineStart(text, w)) && k < |SplitLines(text[w..])|
    ensures NumberedAt(text, w, k, p, e)
    decreases |text| - w
  {
    LinesAreCounted(text, w);
    var f, next := FirstLineOf(text, w);
    if k == 0 {
      p, e := w, f;
    } else {
      assert |SplitLines(text[w..])| == 1 + |SplitLines(text[next..])|;
      p, e := LineNumbered(text, next, k - 1);
      NextNumbered(text, w, f, next, k, p, e);
    }
  }

  lemma OneLineStart(text: string, p: nat, q: nat)
    requires LineStart(text, p) && LineStart(text, q) && LinesFrom(text, p) == LinesFrom(text, q)
    ensures p == q
  {
    if p < q {
      FewerLinesLater(text, p, q);
    } else {
      FewerLinesLater(text, q, p);
    }
  }

  lemma OneLineEnd(text: string, p: nat, e: nat, f: nat)
    requires IsLine(text, p, e) && IsLine(text, p, f)
    ensures e == f
  {
  }

  /** The window starts at a line and holds every line that is looked at. */
  ghost predicate Windowed(text: string, w: nat) {
    && (w == |text| || LineStart(text, w)) && LinesFrom(text, w + 1) <= TERMINAL_SCAN_LINES
    && forall p: nat | LineStart(text, p) && LinesFrom(text, p + 1) < TERMINAL_SCAN_LINES :: p >= w
  }

  lemma LookedAtIsLast(text: string, w: nat, j: nat, terminal: string -> bool)
    requires Windowed(text, w)
    requires var last := Last(SplitLines(text[w..]), TERMINAL_SCAN_LINES); j < |last| && terminal(last[j])
    ensures TerminalAmongLast(text, terminal)
  {
    var lines := SplitLines(text[w..]);
    var last := Last(lines, TERMINAL_SCAN_LINES);
    var p, e := LineNumbered(text, w, |lines| - |last| + j);
    assert last[j] == lines[|lines| - |last| + j];
    assert TerminalAt(text, p, e, terminal);
  }

  lemma LastIsLookedAt(text: string, w: nat, p: nat, e: nat, terminal: string -> bool)
    requires Windowed(text, w) && TerminalAt(text, p, e, terminal)
    ensures text[p..e] in Last(SplitLines(text[w..]), TERMINAL_SCAN_LINES)
  {
    var lines := SplitLines(text[w..]);
    var last := Last(lines, TERMINAL_SCAN_LINES);
    LinesAreCounted(text, w);
    FewerLinesLater(text, w, p);
    var k := |lines| - LinesFrom(text, p);
    var q, f := LineNumbered(text, w, k);
    OneLineStart(text, p, q);
    OneLineEnd(text, p, e, f);
    assert last[k - (|lines| - |last|)] == lines[k];
  }

  /** What the scan looks at, when its window starts at a line. */
  lemma LastByPosition(text: string, w: nat, terminal: string -> bool)
    requires Windowed(text, w)
    ensures Arrived(Last(SplitLines(text[w..]), TERMINAL_SCAN_LINES), terminal) <==> TerminalAmongLast(text, terminal)
  {
    var last := Last(SplitLines(text[w..]), TERMINAL_SCAN_LINES);
    if Arrived(last, terminal) {
      var j :| 0 <= j < |last| && terminal(last[j]);
      LookedAtIsLast(text, w, j, terminal);
    }
    if TerminalAmongLast(text, terminal) {
      var p: nat, e: nat :| TerminalAt(text, p, e, terminal);
      LastIsLookedAt(text, w, p, e, terminal);
    }
  }

  /** The start of the line that holds position `i`. */
  lemma {:induction false} LineAround(text: string, i: nat) returns (q: nat)
    requires i < |text|
    ensures q <= i && LineStart(text, q) && LinesFrom(text, q + 1) == LinesFrom(text, i + 1)
  {
    if LineStart(text, i) {
      q := i;
    } else {
      q := LineAround(text, i - 1);
    }
  }

  lemma WindowIsAtLine(text: string, w: nat)
    requires IsWindowStart(text, w) && LastLinesFit(text)
    ensures Windowed(text, w)
  {
    if w == Floor(text) {
      if w < |text| {
        var q := LineAround(text, w);
        assert q >= Floor(text);
      }
    } else {
      forall p: nat | LineStart(text, p) && LinesFrom(text, p + 1) < TERMINAL_SCAN_LINES
        ensures p >= w
      {
        if p < w {
          FewerLinesLater(text, p + 1, w);
        }
      }
    }
  }

  predicate Arrived(lines: seq<string>, terminal: string -> bool) {
    exists line | line in lines :: terminal(line)
  }

  /** `_ndjson_stream_finished` over a window, with `terminal` standing for "the
      stripped line parses to an object carrying the terminal event". */
  method StreamFinished(text: string, terminal: string -> bool) returns (finished: bool)
    ensures exists w: nat :: (
      && IsWindowStart(text, w)
      && (finished <==> Arrived(Last(SplitLines(text[w..]), TERMINAL_SCAN_LINES), terminal)))
    ensures LastLinesFit(text) ==> (finished <==> TerminalAmongLast(text, terminal))
    ensures forall p: nat | LineStart(text, p) && LinesFrom(text, p) == TERMINAL_SCAN_LINES && p >= Floor(text) ::
      finished <==> Arrived(Last(SplitLines(text), TERMINAL_SCAN_LINES), terminal)
  {
    var w := TerminalWindowStart(text);
    var lines := Last(SplitLines(text[w..]), TERMINAL_SCAN_LINES);
    if LastLinesFit(text) {
      WindowIsAtLine(text, w);
      LastByPosition(text, w, terminal);
    }
    forall p: nat | LineStart(text, p) && LinesFrom(text, p) == TERMINAL_SCAN_LINES && p >= Floor(text)
      ensures lines == Last(SplitLines(text), TERMINAL_SCAN_LINES)
    {
      WindowHoldsLastLines(text, w, p);
    }
    finished := ScanBackwards(lines, terminal);
  }

  /** The loop over the window's lines, the last one first. */
  method ScanBackwards(lines: seq<string>, terminal: string -> bool) returns (found: bool)
    ensures found <==> Arrived(lines, terminal)
  {
    var n := |lines|;
    while n > 0
      invariant 0 <= n <= |lines|
      invariant forall k | n <= k < |lines| :: !terminal(lines[k])
    {
      n := n - 1;
      if terminal(lines[n]) {
        assert lines[n] in lines;
        return true;
      }
    }
    found := false;
  }

  /** The scan reads exactly the last sixteen lines of the stream whenever they fit. */
  lemma WindowHoldsLastLines(text: string, w: nat, p: nat)
    requires IsWindowStart(text, w)
    requires LineStart(text, p) && LinesFrom(text, p) == TERMINAL_SCAN_LINES && p >= Floor(text)
    ensures Last(SplitLines(text[w..]), TERMINAL_SCAN_LINES) == Last(SplitLines(text), TERMINAL_SCAN_LINES)
  {
    WindowIsLastLines(text, w, p);
    LinesAreCounted(text, p);
    LinesSplitAt(text, p);
    var before, lines := SplitLines(text[..p]), SplitLines(text[p..]);
    assert (before + lines)[|before|..] == lines;
  }
}
