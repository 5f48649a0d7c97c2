/** `drop_trailing_commas`: a reference that looks at every character, the
    jumping scan proved equal to it, and what the repair means. */
module CommaRepair {
  import opened Sequences
  import opened Text
  import opened JsonText

  datatype Mode = Structural | InString | Escaped

  function NextMode(mode: Mode, c: char): Mode {
    match mode
    case Structural => if c == '"' then InString else Structural
    case InString => if c == '\\' then Escaped else if c == '"' then Structural else InString
    case Escaped => InString
  }

  /** Where the reader stands after `s`: outside or inside a string literal. */
  function ModeAfter(s: string): Mode {
    if s == "" then Structural else NextMode(ModeAfter(s[..|s| - 1]), s[|s| - 1])
  }

  predicate Closer(c: char) {
    c == '}' || c == ']'
  }

  /** A comma opens a run; commas and whitespace continue it. */
  predicate Extends(mode: Mode, run: string, c: char) {
    mode.Structural? && if run == "" then c == ',' else RunChar(c)
  }

  /** The character-by-character reference. `run` is the comma run being read. */
  function Scan(s: string, mode: Mode, run: string): string
    decreases |s|
  {
    if s == "" then run
    else if Extends(mode, run, s[0]) then
      Scan(s[1..], mode, run + [s[0]])
    else
      (if mode.Structural? && Closer(s[0]) then "" else run)
      + [s[0]] + Scan(s[1..], NextMode(mode, s[0]), "")
  }

  function Repaired(text: string): string {
    Scan(text, Structural, "")
  }

  // ---------- what the reference drops ----------

  /** Position `i` lies in a comma run: outside strings, and back to some comma
      there is nothing but commas and whitespace. */
  ghost predicate InRun(text: string, i: nat)
    requires i <= |text|
  {
    ModeAfter(text[..i]).Structural? &&
    exists j | 0 <= j < i :: text[j] == ',' && forall k | j <= k < i :: RunChar(text[k])
  }

  /** Nothing but run characters separates position `i` from a closing bracket. */
  ghost predicate MeetsCloser(text: string, i: nat)
    requires i <= |text|
  {
    exists j | i <= j < |text| :: Closer(text[j]) && forall k | i <= k < j :: RunChar(text[k])
  }

  ghost predicate Dropped(text: string, i: nat)
    requires i < |text|
  {
    RunChar(text[i]) && InRun(text, i + 1) && MeetsCloser(text, i + 1)
  }

  ghost function Kept(text: string, i: nat): string
    requires i <= |text|
    decreases |text| - i
  {
    if i == |text| then ""
    else (if Dropped(text, i) then "" else [text[i]]) + Kept(text, i + 1)
  }

  lemma ModeStep(text: string, i: nat)
    requires i < |text|
    ensures ModeAfter(text[..i + 1]) == NextMode(ModeAfter(text[..i]), text[i])
  {
    assert text[..i + 1][..i] == text[..i];
  }

  /** A comma run opened at `from` and read up to `i` meets its fate together. */
  lemma {:induction false} KeptRun(text: string, from: nat, i: nat, dropped: bool)
    requires from <= i <= |text|
    requires forall k | from <= k < i :: Dropped(text, k) == dropped
    ensures Kept(text, from) == (if dropped then "" else text[from..i]) + Kept(text, i)
    decreases i - from
  {
    if from == i {
      NothingBefore(Kept(text, i));
    } else {
      KeptRun(text, from + 1, i, dropped);
      if dropped {
        KeptAfterDropped(text, from);
      } else {
        Sliced(text, from, i);
        Reassociate([text[from]], text[from + 1..i], Kept(text, i));
      }
    }
  }

  lemma KeptAfterDropped(text: string, from: nat)
    requires from < |text| && Dropped(text, from)
    ensures Kept(text, from) == Kept(text, from + 1)
  {
    NothingBefore(Kept(text, from + 1));
  }

  lemma Sliced(text: string, from: nat, i: nat)
    requires from < i <= |text|
    ensures text[from..i] == [text[from]] + text[from + 1..i]
  {
  }

  ghost predicate OpenRun(text: string, from: nat, i: nat)
    requires from <= i <= |text|
  {
    && (from == i ==> !InRun(text, i))
    && (from < i ==> text[from] == ',' && forall k | from <= k < i :: RunChar(text[k]))
    && (from < i ==> forall k | from <= k <= i :: ModeAfter(text[..k]).Structural?)
  }

  /** From `i` on, with the run from `from` still open, the scan yields what is kept. */
  ghost predicate Keeps(text: string, from: nat, i: nat)
    requires from <= i <= |text|
  {
    Scan(text[i..], ModeAfter(text[..i]), text[from..i]) == Kept(text, from)
  }

  lemma {:induction false} ScanKeeps(text: string, from: nat, i: nat)
    requires from <= i <= |text| && OpenRun(text, from, i)
    ensures Keeps(text, from, i)
    decreases |text| - i
  {
    if i == |text| {
      RunAtEnd(text, from);
    } else if Extends(ModeAfter(text[..i]), text[from..i], text[i]) {
      RunGrows(text, from, i);
      ScanKeeps(text, from, i + 1);
      KeepsOn(text, from, i);
    } else {
      NotARun(text, from, i);
      ScanKeeps(text, i + 1, i + 1);
      KeepsAfresh(text, from, i);
    }
  }

  lemma KeepsOn(text: string, from: nat, i: nat)
    requires from <= i < |text| && Extends(ModeAfter(text[..i]), text[from..i], text[i])
    requires Keeps(text, from, i + 1)
    ensures Keeps(text, from, i)
  {
    ScanGoesOn(text, from, i);
  }

  lemma KeepsAfresh(text: string, from: nat, i: nat)
    requires from <= i < |text| && OpenRun(text, from, i) && !Dropped(text, i)
    requires !Extends(ModeAfter(text[..i]), text[from..i], text[i])
    requires Keeps(text, i + 1, i + 1)
    ensures Keeps(text, from, i)
  {
    ScanMovesOn(text, from, i, text[i + 1..i + 1]);
    ScanStops(text, from, i);
  }

  lemma ScanMovesOn(text: string, from: nat, i: nat, none: string)
    requires from <= i < |text| && !Extends(ModeAfter(text[..i]), text[from..i], text[i]) && none == ""
    ensures Scan(text[i..], ModeAfter(text[..i]), text[from..i])
         == (if ModeAfter(text[..i]).Structural? && Closer(text[i]) then "" else text[from..i])
            + [text[i]] + Scan(text[i + 1..], ModeAfter(text[..i + 1]), none)
  {
    ModeStep(text, i);
    assert text[i..][1..] == text[i + 1..];
  }

  lemma ScanGoesOn(text: string, from: nat, i: nat)
    requires from <= i < |text| && Extends(ModeAfter(text[..i]), text[from..i], text[i])
    ensures Scan(text[i..], ModeAfter(text[..i]), text[from..i])
         == Scan(text[i + 1..], ModeAfter(text[..i + 1]), text[from..i + 1])
  {
    ModeStep(text, i);
    assert text[i..][1..] == text[i + 1..];
    assert text[from..i] + [text[i]] == text[from..i + 1];
  }

  lemma RunAtEnd(text: string, from: nat)
    requires from <= |text| && OpenRun(text, from, |text|)
    ensures Keeps(text, from, |text|)
  {
    assert text[|text|..] == "";
    forall k | from <= k < |text| ensures !Dropped(text, k) {}
    KeptRun(text, from, |text|, false);
  }

  lemma RunGrows(text: string, from: nat, i: nat)
    requires from <= i < |text| && OpenRun(text, from, i)
    requires Extends(ModeAfter(text[..i]), text[from..i], text[i])
    ensures OpenRun(text, from, i + 1)
  {
    ModeStep(text, i);
  }

  lemma ScanStops(text: string, from: nat, i: nat)
    requires from <= i < |text| && OpenRun(text, from, i) && !Dropped(text, i)
    requires !Extends(ModeAfter(text[..i]), text[from..i], text[i])
    ensures Kept(text, from)
         == (if ModeAfter(text[..i]).Structural? && Closer(text[i]) then "" else text[from..i])
            + [text[i]] + Kept(text, i + 1)
  {
    assert Kept(text, i) == [text[i]] + Kept(text, i + 1);
    if from < i {
      RunFate(text, from, i);
      KeptRun(text, from, i, Closer(text[i]));
      Reassociate(if Closer(text[i]) then "" else text[from..i], [text[i]], Kept(text, i + 1));
    } else {
      assert text[from..i] == "";
      NothingBefore([text[i]]);
    }
  }

  lemma NotARun(text: string, from: nat, i: nat)
    requires from <= i < |text| && OpenRun(text, from, i)
    requires !Extends(ModeAfter(text[..i]), text[from..i], text[i])
    ensures !InRun(text, i + 1) && !Dropped(text, i)
  {
    ModeStep(text, i);
    if InRun(text, i + 1) {
      var j :| 0 <= j < i + 1 && text[j] == ',' && forall k | j <= k < i + 1 :: RunChar(text[k]);
      assert RunChar(text[i]);
      assert ModeAfter(text[..i]).Structural?;
      if j < i {
        assert InRun(text, i);
      }
      assert false;
    }
  }

  lemma RunFate(text: string, from: nat, i: nat)
    requires from <= i < |text| && OpenRun(text, from, i)
    requires from < i ==> !RunChar(text[i])
    ensures forall k | from <= k < i :: Dropped(text, k) == Closer(text[i])
  {
    forall k | from <= k < i
      ensures Dropped(text, k) == Closer(text[i])
    {
      assert text[from] == ',';
      assert InRun(text, k + 1);
    }
  }

  /** The reference removes exactly the characters of comma runs that stand
      outside every string literal and run into a closing bracket. */
  lemma RepairedDropsExactly(text: string)
    ensures Repaired(text) == Kept(text, 0)
  {
    assert text[0..] == text;
    assert !InRun(text, 0);
    ScanKeeps(text, 0, 0);
  }

  // ---------- the reference, a chunk at a time ----------

  predicate Inert(c: char) {
    c != ',' && c != '"'
  }

  lemma {:induction false} ScanInert(a: string, b: string)
    requires forall i | 0 <= i < |a| :: Inert(a[i])
    ensures Repaired(a + b) == a + Repaired(b)
  {
    if a == "" {
      assert a + b == b;
    } else {
      assert (a + b)[1..] == a[1..] + b;
      ScanInert(a[1..], b);
      assert Repaired(a + b) == [a[0]] + Repaired(a[1..] + b);
      assert [a[0]] + (a[1..] + Repaired(b)) == a + Repaired(b);
    }
  }

  /** A comma run is one decision: dropped before a closing bracket, else kept. */
  lemma {:induction false} ScanRun(run: string, more: string, s: string)
    requires run + more != "" && (run + more)[0] == ','
    requires forall i | 0 <= i < |more| :: RunChar(more[i])
    requires s == "" || !RunChar(s[0])
    ensures Scan(more + s, Structural, run)
         == (if s != "" && Closer(s[0]) then "" else run + more) + Repaired(s)
    decreases |more|
  {
    if more == "" {
      assert more + s == s && run + more == run;
    } else {
      assert (more + s)[1..] == more[1..] + s;
      assert run + more == (run + [more[0]]) + more[1..];
      ScanRun(run + [more[0]], more[1..], s);
    }
  }

  // ---------- the early exits ----------

  /** A match of the pattern "comma, whitespace, closing bracket". */
  predicate Candidate(text: string) {
    exists i, k | 0 <= i < k < |text| :: CandidateAt(text, i, k)
  }

  predicate CandidateAt(text: string, i: nat, k: nat)
    requires i < k < |text|
  {
    text[i] == ',' && Closer(text[k]) && forall j | i < j < k :: IsSpace(text[j])
  }

  lemma {:induction false} LastComma(text: string, i: nat, k: nat)
    requires i < k < |text| && text[i] == ',' && Closer(text[k])
    requires forall j | i <= j < k :: RunChar(text[j])
    ensures Candidate(text)
    decreases k - i
  {
    if j :| i < j < k && text[j] == ',' {
      LastComma(text, j, k);
    } else {
      assert CandidateAt(text, i, k);
    }
  }

  lemma {:induction false} NothingKeptIsDropped(text: string, i: nat)
    requires i <= |text| && !Candidate(text)
    ensures Kept(text, i) == text[i..]
    decreases |text| - i
  {
    if i < |text| {
      if Dropped(text, i) {
        var j :| 0 <= j < i + 1 && text[j] == ',' && forall k | j <= k < i + 1 :: RunChar(text[k]);
        var k :| i + 1 <= k < |text| && Closer(text[k]) && forall h | i + 1 <= h < k :: RunChar(text[h]);
        LastComma(text, j, k);
        assert false;
      }
      NothingKeptIsDropped(text, i + 1);
      assert text[i..] == [text[i]] + text[i + 1..];
    }
  }

  lemma WithoutCandidateUnchanged(text: string)
    requires !Candidate(text)
    ensures Repaired(text) == text
  {
    RepairedDropsExactly(text);
    NothingKeptIsDropped(text, 0);
  }

  // ---------- the jumping scan ----------

  type Span = (nat, nat)

  ghost predicate Spans(drops: seq<Span>, low: nat, high: nat) {
    if drops == [] then low <= high
    else low <= drops[0].0 <= drops[0].1 && Spans(drops[1..], drops[0].1, high)
  }

  /** `text[low..high]` without the given spans. */
  ghost function Without(text: string, drops: seq<Span>, low: nat, high: nat): string
    requires high <= |text| && Spans(drops, low, high)
  {
    if drops == [] then text[low..high]
    else
      SpansOrdered(drops, low, high);
      text[low..drops[0].0] + Without(text, drops[1..], drops[0].1, high)
  }

  lemma {:induction false} SpansOrdered(drops: seq<Span>, low: nat, high: nat)
    requires Spans(drops, low, high)
    ensures low <= high
    ensures drops != [] ==> drops[0].1 <= high
  {
    if drops != [] {
      SpansOrdered(drops[1..], drops[0].1, high);
    }
  }

  lemma {:induction false} WithoutExtends(text: string, drops: seq<Span>, low: nat, high: nat, next: nat)
    requires high <= next <= |text| && Spans(drops, low, high)
    ensures Spans(drops, low, next)
    ensures Without(text, drops, low, next) == Without(text, drops, low, high) + text[high..next]
  {
    if drops == [] {
      assert text[low..next] == text[low..high] + text[high..next];
    } else {
      SpansOrdered(drops, low, high);
      WithoutExtends(text, drops[1..], drops[0].1, high, next);
      Reassociate(text[low..drops[0].0], Without(text, drops[1..], drops[0].1, high), text[high..next]);
    }
  }

  lemma {:induction false} WithoutDrops(text: string, drops: seq<Span>, low: nat, high: nat, next: nat)
    requires high <= next <= |text| && Spans(drops, low, high)
    ensures Spans(drops + [(high, next)], low, next)
    ensures Without(text, drops + [(high, next)], low, next) == Without(text, drops, low, high)
  {
    var more := drops + [(high, next)];
    if drops == [] {
      assert more[1..] == [];
      assert Without(text, more, low, next) == text[low..high] + text[next..next];
    } else {
      SpansOrdered(drops, low, high);
      assert more[1..] == drops[1..] + [(high, next)];
      WithoutDrops(text, drops[1..], drops[0].1, high, next);
    }
  }

  /** The next comma or quote at or after `index`, or the end of the text, and how many
      positions the search looked at, the one that ends it included. */
  method SearchSpecial(text: string, index: nat) returns (at: nat, visits: nat)
    requires index <= |text|
    ensures index <= at <= |text|
    ensures forall i | index <= i < at :: Inert(text[i])
    ensures at < |text| ==> !Inert(text[at])
    ensures visits == at - index + 1
  {
    at, visits := index, 1;
    while at < |text| && Inert(text[at])
      invariant index <= at <= |text|
      invariant forall i | index <= i < at :: Inert(text[i])
      invariant visits == at - index + 1
    {
      at, visits := at + 1, visits + 1;
    }
  }

  /** Positions `from..cursor` are inside a literal and come out unchanged. */
  ghost predicate LiteralSoFar(text: string, from: nat, cursor: nat, mode: Mode)
    requires from <= cursor <= |text|
  {
    Repaired(text[from..]) == text[from..cursor] + Scan(text[cursor..], mode, "")
  }

  lemma LiteralStep(text: string, from: nat, cursor: nat, mode: Mode)
    requires from <= cursor < |text| && !mode.Structural?
    requires LiteralSoFar(text, from, cursor, mode)
    ensures LiteralSoFar(text, from, cursor + 1, NextMode(mode, text[cursor]))
  {
    var s := text[cursor..];
    assert s[1..] == text[cursor + 1..];
    assert Scan(s, mode, "") == [s[0]] + Scan(s[1..], NextMode(mode, s[0]), "");
    assert text[from..cursor + 1] == text[from..cursor] + [s[0]];
  }

  lemma LiteralEnds(text: string, from: nat, mode: Mode)
    requires from <= |text| && LiteralSoFar(text, from, |text|, mode)
    ensures LiteralSoFar(text, from, |text|, Structural)
  {
    assert text[|text|..] == "";
  }

  lemma LiteralOpens(text: string, quote: nat)
    requires quote < |text| && text[quote] == '"'
    ensures LiteralSoFar(text, quote, quote + 1, InString)
  {
    assert text[quote..][1..] == text[quote + 1..];
    assert text[quote..quote + 1] == "\"";
  }

  /** Past the string literal opened at `quote`; one beyond the end of the text
      when a backslash is its last character; and how many turns the loop took. */
  method SkipLiteral(text: string, quote: nat) returns (cursor: nat, visits: nat)
    requires quote < |text| && text[quote] == '"'
    ensures quote < cursor <= |text| + 1
    ensures LiteralSoFar(text, quote, if cursor <= |text| then cursor else |text|, Structural)
    ensures visits < cursor - quote
  {
    cursor, visits := quote + 1, 0;
    LiteralOpens(text, quote);
    while cursor < |text|
      invariant quote < cursor <= |text| + 1
      invariant cursor <= |text| ==> LiteralSoFar(text, quote, cursor, InString)
      invariant cursor > |text| ==> LiteralSoFar(text, quote, |text|, Structural)
      invariant visits < cursor - quote
    {
      var c := text[cursor];
      visits := visits + 1;
      LiteralStep(text, quote, cursor, InString);
      if c == '\\' {
        if cursor + 1 < |text| {
          LiteralStep(text, quote, cursor + 1, Escaped);
        } else {
          LiteralEnds(text, quote, Escaped);
        }
        cursor := cursor + 2;
        continue;
      }
      cursor := cursor + 1;
      if c == '"' {
        return;
      }
    }
    if cursor == |text| {
      LiteralEnds(text, quote, InString);
    }
  }

  /** Past the comma run that starts at `comma`, and how many positions were looked at. */
  method RunEnd(text: string, comma: nat) returns (end: nat, visits: nat)
    requires comma < |text| && text[comma] == ','
    ensures comma < end <= |text|
    ensures forall i | comma <= i < end :: RunChar(text[i])
    ensures end < |text| ==> !RunChar(text[end])
    ensures visits == end - comma + 1
  {
    end, visits := comma, 1;
    while end < |text| && (text[end] == ',' || IsSpace(text[end]))
      invariant comma <= end <= |text|
      invariant forall i | comma <= i < end :: RunChar(text[i])
      invariant visits == end - comma + 1
    {
      end, visits := end + 1, visits + 1;
    }
  }

  /** Cutting the spans out of the text before `index` is all that is left of
      the repair up to there. */
  ghost predicate Collected(text: string, drops: seq<Span>, index: nat)
    requires index <= |text|
  {
    && Spans(drops, 0, index)
    && Repaired(text) == Without(text, drops, 0, index) + Repaired(text[index..])
  }

  lemma CollectKept(text: string, drops: seq<Span>, index: nat, next: nat)
    requires index <= next <= |text| && Collected(text, drops, index)
    requires Repaired(text[index..]) == text[index..next] + Repaired(text[next..])
    ensures Collected(text, drops, next)
  {
    WithoutExtends(text, drops, 0, index, next);
  }

  lemma CollectInert(text: string, drops: seq<Span>, index: nat, at: nat)
    requires index <= at <= |text| && Collected(text, drops, index)
    requires forall i | index <= i < at :: Inert(text[i])
    ensures Collected(text, drops, at)
  {
    assert text[index..] == text[index..at] + text[at..];
    ScanInert(text[index..at], text[at..]);
    CollectKept(text, drops, index, at);
  }

  lemma CollectRun(text: string, drops: seq<Span>, at: nat, end: nat)
    requires at < end <= |text| && text[at] == ',' && Collected(text, drops, at)
    requires forall i | at <= i < end :: RunChar(text[i])
    requires end < |text| ==> !RunChar(text[end])
    ensures end < |text| && Closer(text[end]) ==> Collected(text, drops + [(at, end)], end)
    ensures !(end < |text| && Closer(text[end])) ==> Collected(text, drops, end)
  {
    assert text[at..] == text[at..end] + text[end..];
    ScanRun("", text[at..end], text[end..]);
    if end < |text| && Closer(text[end]) {
      WithoutDrops(text, drops, 0, at, end);
    } else {
      CollectKept(text, drops, at, end);
    }
  }

  lemma CollectedAll(text: string, drops: seq<Span>)
    requires Collected(text, drops, |text|)
    ensures Without(text, drops, 0, |text|) == Repaired(text)
  {
    assert text[|text|..] == "";
  }

  /** The jump-and-collect scan. `visits` adds up what its three loops count. */
  method CollectDrops(text: string) returns (drops: seq<Span>, visits: nat)
    ensures Spans(drops, 0, |text|)
    ensures Without(text, drops, 0, |text|) == Repaired(text)
    ensures visits <= 3 * |text| + 3
  {
    drops, visits := [], 0;
    var index := 0;
    assert text[0..] == text;
    while index < |text|
      invariant 0 <= index <= |text| + 1
      invariant Collected(text, drops, if index <= |text| then index else |text|)
      invariant visits <= 3 * index
      decreases |text| + 1 - index
    {
      var at, searched := SearchSpecial(text, index);
      visits := visits + searched;
      CollectInert(text, drops, index, at);
      if at == |text| {
        break;
      }
      if text[at] == '"' {
        var cursor, skipped := SkipLiteral(text, at);
        visits := visits + skipped;
        CollectKept(text, drops, at, if cursor <= |text| then cursor else |text|);
        index := cursor;
      } else {
        var end, read := RunEnd(text, at);
        visits := visits + read;
        CollectRun(text, drops, at, end);
        if end < |text| && Closer(text[end]) {
          drops := drops + [(at, end)];
        }
        index := end;
      }
    }
    CollectedAll(text, drops);
  }

  /** Both early exits, the scan, and the rebuild from the spans it collected. */
  method DropTrailingCommas(text: string) returns (r: string)
    ensures r == Repaired(text)
  {
    if ',' !in text || !Candidate(text) {
      WithoutCandidateUnchanged(text);
      return text;
    }
    var drops, _ := CollectDrops(text);
    if drops == [] {
      assert text[0..|text|] == text;
      return text;
    }
    r := "";
    var cursor, n := 0, 0;
    while n < |drops|
      invariant 0 <= n <= |drops| && cursor <= |text|
      invariant Spans(drops[n..], cursor, |text|)
      invariant r + Without(text, drops[n..], cursor, |text|) == Repaired(text)
    {
      var (start, stop) := drops[n];
      SpansOrdered(drops[n..], cursor, |text|);
      assert drops[n..][1..] == drops[n + 1..];
      r := r + text[cursor..start];
      cursor := stop;
      n := n + 1;
    }
    r := r + text[cursor..|text|];
  }

  // ---------- what the repair is for ----------

  lemma {:induction false} UnitsUntouched(units: seq<Unit>, rest: string)
    requires WellFormedUnits(units)
    ensures Scan(PrintUnits(units, rest), InString, "") == PrintUnits(units, Repaired(rest))
  {
    if units == [] {
      ScanQuote(rest);
    } else {
      assert units[0] in units;
      forall u | u in units[1..] ensures u in units {}
      UnitsUntouched(units[1..], rest);
      var after := PrintUnits(units[1..], rest);
      match units[0]
      case Raw(c) => ScanRaw(c, after);
      case Escape(c) => ScanEscape(c, after);
    }
  }

  lemma ScanQuote(rest: string)
    ensures Scan("\"" + rest, InString, "") == "\"" + Repaired(rest)
  {
    assert ("\"" + rest)[1..] == rest;
  }

  lemma ScanRaw(c: char, after: string)
    requires c != '"' && c != '\\'
    ensures Scan([c] + after, InString, "") == [c] + Scan(after, InString, "")
  {
    assert ([c] + after)[1..] == after;
  }

  lemma ScanEscape(c: char, after: string)
    ensures Scan(['\\', c] + after, InString, "") == ['\\', c] + Scan(after, InString, "")
  {
    var s := ['\\', c] + after;
    assert s[1..] == [c] + after && s[1..][1..] == after;
  }

  lemma LiteralUntouched(units: seq<Unit>, rest: string)
    requires WellFormedUnits(units)
    ensures Repaired("\"" + PrintUnits(units, rest)) == "\"" + PrintUnits(units, Repaired(rest))
  {
    UnitsUntouched(units, rest);
    assert ("\"" + PrintUnits(units, rest))[1..] == PrintUnits(units, rest);
  }

  lemma KeyUntouched(key: Key, rest: string)
    requires WellFormedKey(key)
    ensures Repaired(PrintKey(key, rest)) == PrintKey(key, Repaired(rest))
  {
    if key.Named? {
      var colon := key.beforeColon + ":" + key.afterColon;
      LiteralUntouched(key.name, colon + rest);
      ScanInert(colon, rest);
    }
  }

  lemma ValueStarts(v: Value, damaged: bool, rest: string)
    requires WellFormed(v)
    ensures var s := Print(v, damaged, rest); s != "" && !RunChar(s[0]) && !Closer(s[0])
  {
  }

  lemma {:induction false} DamageUndone(v: Value, rest: string)
    requires WellFormed(v)
    ensures Repaired(Print(v, true, rest)) == Print(v, false, Repaired(rest))
    decreases v
  {
    match v
    case Scalar(lexeme) => ScanInert(lexeme, rest);
    case Literal(units) => LiteralUntouched(units, rest);
    case Array(items) =>
      ScanInert("[", PrintEntries(items, true, true, "]" + rest));
      EntriesUndone(items, true, false, "]", rest);
    case Object(members) =>
      ScanInert("{", PrintEntries(members, true, true, "}" + rest));
      EntriesUndone(members, true, true, "}", rest);
  }

  lemma {:induction false} EntriesUndone(e: Entries, first: bool, keyed: bool, bracket: string, rest: string)
    requires WellFormedEntries(e, keyed) && bracket in {"]", "}"}
    ensures Repaired(PrintEntries(e, first, true, bracket + rest))
         == PrintEntries(e, first, false, bracket + Repaired(rest))
    decreases e
  {
    match e
    case Close(pad, damage) => CloseUndone(pad, damage, bracket, rest);
    case Entry(lead, key, value, trail, tail) =>
      var tailText := PrintEntries(tail, false, true, bracket + rest);
      EntriesUndone(tail, false, keyed, bracket, rest);
      ScanInert(trail, tailText);
      DamageUndone(value, trail + tailText);
      EntryUndone(first, lead, key, value, trail + tailText);
  }

  lemma CloseUndone(pad: string, damage: string, bracket: string, rest: string)
    requires AllSpace(pad) && IsDamage(damage) && bracket in {"]", "}"}
    ensures Repaired(pad + damage + (bracket + rest)) == pad + "" + (bracket + Repaired(rest))
  {
    var close := bracket + rest;
    assert pad + damage + close == pad + (damage + close);
    ScanInert(pad, damage + close);
    ScanInert(bracket, rest);
    if damage != "" {
      ScanRun("", damage, close);
    } else {
      assert damage + close == close;
    }
  }

  lemma EntryUndone(first: bool, lead: string, key: Key, value: Value, rest: string)
    requires AllSpace(lead) && WellFormedKey(key) && WellFormed(value)
    ensures Repaired((if first then "" else ",") + lead + PrintKey(key, Print(value, true, rest)))
         == (if first then "" else ",") + lead + PrintKey(key, Repaired(Print(value, true, rest)))
  {
    var comma := if first then "" else ",";
    var entry := PrintKey(key, Print(value, true, rest));
    KeyUntouched(key, Print(value, true, rest));
    ValueStarts(value, true, rest);
    if first {
      ScanInert(comma + lead, entry);
    } else {
      ScanRun("", comma + lead, entry);
      assert "" + (comma + lead) == comma + lead;
    }
  }

  /** Repair inverts damage: whatever comma runs were put before the closing
      brackets of a JSON text, the plain text comes back. */
  lemma RepairInvertsDamage(v: Value)
    requires WellFormed(v)
    ensures Repaired(Render(v, true)) == Render(v, false)
  {
    DamageUndone(v, "");
  }

  function Plain(v: Value): Value {
    match v
    case Scalar(_) => v
    case Literal(_) => v
    case Array(items) => Array(PlainEntries(items))
    case Object(members) => Object(PlainEntries(members))
  }

  function PlainEntries(e: Entries): Entries {
    match e
    case Close(pad, _) => Close(pad, "")
    case Entry(lead, key, value, trail, rest) => Entry(lead, key, Plain(value), trail, PlainEntries(rest))
  }

  lemma {:induction false} PlainRenders(v: Value, damaged: bool, rest: string)
    requires WellFormed(v)
    ensures WellFormed(Plain(v)) && Print(Plain(v), damaged, rest) == Print(v, false, rest)
    decreases v
  {
    match v
    case Scalar(_) =>
    case Literal(_) =>
    case Array(items) => PlainEntriesRender(items, true, false, damaged, "]" + rest);
    case Object(members) => PlainEntriesRender(members, true, true, damaged, "}" + rest);
  }

  lemma {:induction false} PlainEntriesRender(e: Entries, first: bool, keyed: bool, damaged: bool, rest: string)
    requires WellFormedEntries(e, keyed)
    ensures WellFormedEntries(PlainEntries(e), keyed)
    ensures PrintEntries(PlainEntries(e), first, damaged, rest) == PrintEntries(e, first, false, rest)
    decreases e
  {
    match e
    case Close(_, _) =>
    case Entry(lead, key, value, trail, tail) =>
      PlainEntriesRender(tail, false, keyed, damaged, rest);
      PlainRenders(value, damaged, trail + PrintEntries(tail, false, false, rest));
  }

  /** Well-formed JSON, in any layout, is left alone. */
  lemma WellFormedUnchanged(v: Value)
    requires WellFormed(v)
    ensures Repaired(Render(v, false)) == Render(v, false)
  {
    PlainRenders(v, true, "");
    PlainRenders(v, false, "");
    RepairInvertsDamage(Plain(v));
  }

  // ---------- idempotence, on every text ----------

  lemma {:induction false} RepairedTwice(s: string, mode: Mode, run: string)
    requires mode.Structural? || run == ""
    requires run == "" || (run[0] == ',' && forall i | 0 <= i < |run| :: RunChar(run[i]))
    ensures var t := Scan(s, mode, run);
            Scan(t, mode, "") == t
    decreases |s|
  {
    if s == "" {
      if run != "" {
        assert run + "" == run;
        ScanRun("", run, "");
      }
    } else if Extends(mode, run, s[0]) {
      RepairedTwice(s[1..], mode, run + [s[0]]);
    } else {
      var next := NextMode(mode, s[0]);
      RepairedTwice(s[1..], next, "");
      var tail := Scan(s[1..], next, "");
      StillRepaired(if mode.Structural? && Closer(s[0]) then "" else run, mode, s[0], tail);
    }
  }

  lemma StillHead(mode: Mode, c: char, tail: string)
    requires Scan(tail, NextMode(mode, c), "") == tail && !Extends(mode, "", c)
    ensures Scan([c] + tail, mode, "") == [c] + tail
  {
    assert ([c] + tail)[1..] == tail;
  }

  /** Repaired text behind a character that is no run, behind a run it keeps. */
  lemma StillRepaired(run: string, mode: Mode, c: char, tail: string)
    requires Scan(tail, NextMode(mode, c), "") == tail
    requires !Extends(mode, run, c) && !Extends(mode, "", c)
    requires run == "" || (mode.Structural? && !Closer(c))
    requires run == "" || (run[0] == ',' && forall i | 0 <= i < |run| :: RunChar(run[i]))
    ensures Scan(run + [c] + tail, mode, "") == run + [c] + tail
  {
    StillHead(mode, c, tail);
    var head := [c] + tail;
    assert run + [c] + tail == run + head;
    if run == "" {
      assert run + head == head;
    } else {
      assert head[0] == c && !RunChar(c);
      ScanRun("", run, head);
      assert "" + run == run;
    }
  }

  lemma RepairIdempotent(text: string)
    ensures Repaired(Repaired(text)) == Repaired(text)
  {
    RepairedTwice(text, Structural, "");
  }
}
