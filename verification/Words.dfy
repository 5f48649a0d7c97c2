/** The words of a text: what whitespace separates, by position. */
module Words {
  import opened Text

  type Span = (nat, nat)

  /** A maximal run of characters that are no whitespace. */
  ghost predicate IsWord(s: string, i: nat, j: nat) {
    && i < j <= |s|
    && (forall k | i <= k < j :: !IsSpace(s[k]))
    && (i > 0 ==> IsSpace(s[i - 1]))
    && (j < |s| ==> IsSpace(s[j]))
  }

  /** Every word of `s`, in order, and nothing else. */
  ghost predicate AreWords(s: string, spans: seq<Span>) {
    AllWords(s, spans) && Apart(spans) && Complete(s, spans)
  }

  ghost predicate AllWords(s: string, spans: seq<Span>) {
    forall n | 0 <= n < |spans| :: IsWord(s, spans[n].0, spans[n].1)
  }

  ghost predicate Apart(spans: seq<Span>) {
    forall m, n | 0 <= m < n < |spans| :: spans[m].1 < spans[n].0
  }

  ghost predicate Complete(s: string, spans: seq<Span>) {
    forall i: nat, j: nat | IsWord(s, i, j) :: (i, j) in spans
  }

  lemma WordIsSolid(s: string, i: nat, j: nat, k: int)
    requires IsWord(s, i, j) && i <= k < j
    ensures !IsSpace(s[k])
  {
  }

  ghost predicate Within(s: string, spans: seq<Span>) {
    forall n | 0 <= n < |spans| :: spans[n].0 <= spans[n].1 <= |s|
  }

  ghost function Cut(s: string, spans: seq<Span>): (words: seq<string>)
    requires Within(s, spans)
    ensures |words| == |spans| && forall n | 0 <= n < |spans| :: words[n] == s[spans[n].0..spans[n].1]
  {
    seq(|spans|, n requires 0 <= n < |spans| => s[spans[n].0..spans[n].1])
  }

  /** `" ".join(words)`. */
  ghost function Spaced(words: seq<string>): string {
    if words == [] then ""
    else if |words| == 1 then words[0]
    else Spaced(words[..|words| - 1]) + " " + words[|words| - 1]
  }

  /** `text.split()`. */
  ghost function Split(s: string): seq<string> {
    var spans := FindWords(s);
    WordsFound(s);
    Cut(s, spans)
  }

  /** The texts of all words, in order, and nothing else. */
  lemma SplitMeaning(s: string) returns (spans: seq<Span>)
    ensures AreWords(s, spans) && Within(s, spans) && Split(s) == Cut(s, spans)
  {
    spans := FindWords(s);
    WordsFound(s);
  }

  /** The words of a text one character shorter, and the one that last character ends. */
  ghost function FindWords(s: string): seq<Span> {
    if s == "" then []
    else
      var head, c := s[..|s| - 1], s[|s| - 1];
      var before := FindWords(head);
      if IsSpace(c) then before
      else if before != [] && before[|before| - 1].1 == |head| then Lengthened(before, |s|)
      else before + [(|head|, |s|)]
  }

  ghost function Lengthened(spans: seq<Span>, end: nat): seq<Span>
    requires spans != []
  {
    spans[..|spans| - 1] + [(spans[|spans| - 1].0, end)]
  }

  lemma {:induction false} WordsFound(s: string)
    ensures Found(s, FindWords(s))
  {
    if s != "" {
      var head, c := s[..|s| - 1], s[|s| - 1];
      WordsFound(head);
      if IsSpace(c) {
        SpaceEnds(s, FindWords(head));
      } else if head != "" && !IsSpace(head[|head| - 1]) {
        WordGrows(s, FindWords(head));
      } else {
        WordStarts(s, FindWords(head));
      }
    }
  }

  /** A list of the words, the last of which ends the text exactly if no whitespace does. */
  ghost predicate Found(s: string, spans: seq<Span>) {
    && AreWords(s, spans) && Within(s, spans)
    && (s != "" && !IsSpace(s[|s| - 1]) <==> spans != [] && spans[|spans| - 1].1 == |s|)
  }

  lemma SameBefore(s: string, i: nat, j: nat)
    requires s != "" && j < |s|
    ensures IsWord(s, i, j) <==> IsWord(s[..|s| - 1], i, j) && (j == |s| - 1 ==> IsSpace(s[j]))
  {
  }

  lemma AreWithin(s: string, spans: seq<Span>)
    requires AreWords(s, spans)
    ensures Within(s, spans)
  {
    forall n | 0 <= n < |spans|
      ensures spans[n].0 <= spans[n].1 <= |s|
    {
      assert IsWord(s, spans[n].0, spans[n].1);
    }
  }

  lemma SpaceEnds(s: string, spans: seq<Span>)
    requires s != "" && IsSpace(s[|s| - 1]) && Found(s[..|s| - 1], spans)
    ensures Found(s, spans)
  {
    forall i: nat, j: nat
      ensures IsWord(s, i, j) <==> IsWord(s[..|s| - 1], i, j)
    {
      if j < |s| {
        SameBefore(s, i, j);
      } else if IsWord(s, i, j) {
        WordIsSolid(s, i, j, j - 1);
        assert false;
      }
    }
    AreWithin(s[..|s| - 1], spans);
    AreWithin(s, spans);
  }

  lemma StillWord(s: string, span: Span)
    requires s != "" && IsWord(s[..|s| - 1], span.0, span.1) && (span.1 < |s| - 1 || IsSpace(s[|s| - 1]))
    ensures IsWord(s, span.0, span.1)
  {
    SameBefore(s, span.0, span.1);
  }

  /** Every word but the last one ends before the end of the text did. */
  lemma EarlierWord(s: string, spans: seq<Span>, i: nat, j: nat)
    requires s != "" && !IsSpace(s[|s| - 1]) && Complete(s[..|s| - 1], spans) && IsWord(s, i, j) && j < |s|
    ensures (i, j) in spans && j < |s| - 1
  {
    SameBefore(s, i, j);
  }

  lemma GrownComplete(s: string, spans: seq<Span>)
    requires |s| > 1 && !IsSpace(s[|s| - 1]) && Complete(s[..|s| - 1], spans)
    requires spans != [] && IsWord(s, spans[|spans| - 1].0, |s|) && spans[|spans| - 1].1 == |s| - 1
    ensures Complete(s, Lengthened(spans, |s|))
  {
    var grown := Lengthened(spans, |s|);
    forall i: nat, j: nat | IsWord(s, i, j)
      ensures (i, j) in grown
    {
      if j == |s| {
        OneEnd(s, i, spans[|spans| - 1].0, |s|);
        assert grown[|grown| - 1] == (i, j);
      } else {
        EarlierWord(s, spans, i, j);
        var n :| 0 <= n < |spans| && spans[n] == (i, j);
        assert grown[n] == (i, j);
      }
    }
  }

  lemma GrownWord(s: string, i: nat)
    requires |s| > 1 && !IsSpace(s[|s| - 1]) && IsWord(s[..|s| - 1], i, |s| - 1)
    ensures IsWord(s, i, |s|)
  {
    assert forall k | 0 <= k < |s| - 1 :: s[..|s| - 1][k] == s[k];
  }

  lemma GrownWords(s: string, spans: seq<Span>)
    requires |s| > 1 && !IsSpace(s[|s| - 1]) && AllWords(s[..|s| - 1], spans) && Apart(spans)
    requires spans != [] && spans[|spans| - 1].1 == |s| - 1
    ensures AllWords(s, Lengthened(spans, |s|)) && Apart(Lengthened(spans, |s|))
  {
    var last, grown := spans[|spans| - 1], Lengthened(spans, |s|);
    assert IsWord(s[..|s| - 1], last.0, last.1);
    GrownWord(s, last.0);
    forall n | 0 <= n < |grown|
      ensures IsWord(s, grown[n].0, grown[n].1)
    {
      if n < |spans| - 1 {
        assert grown[n] == spans[n] && IsWord(s[..|s| - 1], spans[n].0, spans[n].1);
        StillWord(s, spans[n]);
      }
    }
  }

  lemma WordGrows(s: string, spans: seq<Span>)
    requires |s| > 1 && !IsSpace(s[|s| - 1]) && !IsSpace(s[|s| - 2]) && Found(s[..|s| - 1], spans)
    ensures spans != []
    ensures Found(s, Lengthened(spans, |s|))
  {
    GrownWords(s, spans);
    assert IsWord(s[..|s| - 1], spans[|spans| - 1].0, |s| - 1);
    GrownWord(s, spans[|spans| - 1].0);
    GrownComplete(s, spans);
    AreWithin(s, Lengthened(spans, |s|));
  }

  lemma OneEnd(s: string, i: nat, k: nat, j: nat)
    requires IsWord(s, i, j) && IsWord(s, k, j)
    ensures i == k
  {
    if i < k {
      WordIsSolid(s, i, j, k - 1);
    } else if k < i {
      WordIsSolid(s, k, j, i - 1);
    }
  }

  lemma StartedComplete(s: string, spans: seq<Span>)
    requires s != "" && !IsSpace(s[|s| - 1]) && Complete(s[..|s| - 1], spans) && IsWord(s, |s| - 1, |s|)
    ensures Complete(s, spans + [(|s| - 1, |s|)])
  {
    var more := spans + [(|s| - 1, |s|)];
    forall i: nat, j: nat | IsWord(s, i, j)
      ensures (i, j) in more
    {
      if j == |s| {
        OneEnd(s, i, |s| - 1, |s|);
        assert more[|spans|] == (i, j);
      } else {
        EarlierWord(s, spans, i, j);
      }
    }
  }

  lemma StartedWords(s: string, spans: seq<Span>)
    requires s != "" && !IsSpace(s[|s| - 1]) && AllWords(s[..|s| - 1], spans) && Apart(spans)
    requires IsWord(s, |s| - 1, |s|)
    ensures AllWords(s, spans + [(|s| - 1, |s|)]) && Apart(spans + [(|s| - 1, |s|)])
  {
    var head := s[..|s| - 1];
    forall n | 0 <= n < |spans|
      ensures IsWord(s, spans[n].0, spans[n].1) && spans[n].1 < |s| - 1
    {
      assert IsWord(head, spans[n].0, spans[n].1);
      WordIsSolid(head, spans[n].0, spans[n].1, spans[n].1 - 1);
      StillWord(s, spans[n]);
    }
  }

  lemma WordStarts(s: string, spans: seq<Span>)
    requires s != "" && !IsSpace(s[|s| - 1]) && Found(s[..|s| - 1], spans)
    requires |s| > 1 ==> IsSpace(s[|s| - 2])
    ensures Found(s, spans + [(|s| - 1, |s|)])
  {
    assert IsWord(s, |s| - 1, |s|);
    StartedWords(s, spans);
    StartedComplete(s, spans);
    AreWithin(s, spans + [(|s| - 1, |s|)]);
  }

  ghost predicate Ordered(spans: seq<Span>) {
    && (forall n | 0 <= n < |spans| :: spans[n].0 < spans[n].1)
    && forall m, n | 0 <= m < n < |spans| :: spans[m].1 < spans[n].0
  }

  lemma {:induction false} OrderedOnce(a: seq<Span>, b: seq<Span>)
    requires Ordered(a) && Ordered(b) && forall x :: x in a <==> x in b
    ensures a == b
  {
    assert a != [] ==> a[0] in b;
    assert b != [] ==> b[0] in a;
    if a != [] {
      var m, n := |a| - 1, |b| - 1;
      SameLast(a, b);
      forall x
        ensures x in a[..m] <==> x in b[..n]
      {
        BeforeLast(a, x);
        BeforeLast(b, x);
      }
      OrderedOnce(a[..m], b[..n]);
    }
  }

  lemma SameLast(a: seq<Span>, b: seq<Span>)
    requires Ordered(a) && Ordered(b) && a != [] && b != [] && forall x :: x in a <==> x in b
    ensures a[|a| - 1] == b[|b| - 1]
  {
    assert a[|a| - 1] in b && b[|b| - 1] in a;
    var k :| 0 <= k < |b| && b[k] == a[|a| - 1];
    var m :| 0 <= m < |a| && a[m] == b[|b| - 1];
  }

  lemma BeforeLast(a: seq<Span>, x: Span)
    requires Ordered(a) && a != []
    ensures x in a[..|a| - 1] <==> x in a && x != a[|a| - 1]
  {
  }

  /** A text has its words only once. */
  lemma WordsOnce(s: string, a: seq<Span>, b: seq<Span>)
    requires AreWords(s, a) && AreWords(s, b)
    ensures a == b
  {
    forall x: Span
      ensures x in a <==> x in b
    {
      InWords(s, a, x);
      InWords(s, b, x);
    }
    OrderedOnce(a, b);
  }

  lemma InWords(s: string, spans: seq<Span>, x: Span)
    requires AreWords(s, spans)
    ensures Ordered(spans)
    ensures x in spans <==> IsWord(s, x.0, x.1)
  {
    forall n | 0 <= n < |spans|
      ensures spans[n].0 < spans[n].1
    {
      assert IsWord(s, spans[n].0, spans[n].1);
    }
    assert (x.0, x.1) == x;
  }

  // ---------- joining words ----------

  ghost predicate Solid(words: seq<string>) {
    forall n | 0 <= n < |words| :: words[n] != "" && forall k | 0 <= k < |words[n]| :: !IsSpace(words[n][k])
  }

  lemma SplitIsSolid(s: string)
    ensures Solid(Split(s))
  {
    var spans := SplitMeaning(s);
    forall n | 0 <= n < |spans|
      ensures Split(s)[n] != "" && forall k | 0 <= k < |Split(s)[n]| :: !IsSpace(Split(s)[n][k])
    {
      assert IsWord(s, spans[n].0, spans[n].1);
    }
  }

  lemma LastSpace(a: string, b: string, c: string, d: string)
    requires a + " " + b == c + " " + d && ' ' !in b && ' ' !in d
    ensures a == c && b == d
  {
    var s := a + " " + b;
    if |a| < |c| {
      SpaceBehind(a, b, c, d);
    } else if |c| < |a| {
      SpaceBehind(c, d, a, b);
    }
    assert s[..|a|] == a && s[..|a|] == c;
    assert s[|a| + 1..] == b && s[|a| + 1..] == d;
  }

  lemma SpaceBehind(a: string, b: string, c: string, d: string)
    requires a + " " + b == c + " " + d && |a| < |c|
    ensures ' ' in b
  {
    var s := c + " " + d;
    assert s[|c|] == ' ';
    assert (a + " " + b)[|c|] == b[|c| - |a| - 1];
  }

  lemma SolidHasNoSpace(words: seq<string>)
    requires Solid(words)
    ensures forall n | 0 <= n < |words| :: ' ' !in words[n]
  {
  }

  /** Different words are joined to different texts. */
  lemma {:induction false} SpacedIsInjective(a: seq<string>, b: seq<string>)
    requires Solid(a) && Solid(b) && Spaced(a) == Spaced(b)
    ensures a == b
    decreases |a|
  {
    SolidHasNoSpace(a);
    SolidHasNoSpace(b);
    SpacedShape(a);
    SpacedShape(b);
    if |a| > 1 {
      var m, n := |a| - 1, |b| - 1;
      LastSpace(Spaced(a[..m]), a[m], Spaced(b[..n]), b[n]);
      SpacedIsInjective(a[..m], b[..n]);
    }
  }

  lemma SpacedShape(words: seq<string>)
    requires Solid(words)
    ensures Spaced(words) == "" <==> words == []
    ensures ' ' in Spaced(words) <==> |words| > 1
  {
    SolidHasNoSpace(words);
    if |words| > 1 {
      assert Spaced(words)[|Spaced(words[..|words| - 1])|] == ' ';
    }
  }

  ghost predicate Trims(s: string, i: nat, j: nat) {
    && i <= j <= |s|
    && (forall k | 0 <= k < i :: IsSpace(s[k])) && (forall k | j <= k < |s| :: IsSpace(s[k]))
    && (i < j ==> !IsSpace(s[i]) && !IsSpace(s[j - 1]))
  }

  lemma TrimFirst(s: string, i: nat, j: nat)
    requires s != "" && IsSpace(s[0]) && Trims(s[1..], i, j)
    ensures Trims(s, i + 1, j + 1) && s[1..][i..j] == s[i + 1..j + 1]
  {
    assert forall k | 1 <= k < |s| :: s[k] == s[1..][k - 1];
  }

  lemma TrimLast(s: string, i: nat, j: nat)
    requires s != "" && IsSpace(s[|s| - 1]) && Trims(s[..|s| - 1], i, j)
    ensures Trims(s, i, j) && s[..|s| - 1][i..j] == s[i..j]
  {
    assert forall k | 0 <= k < |s| - 1 :: s[k] == s[..|s| - 1][k];
  }

  /** What stripping leaves: all but the whitespace at either end. */
  lemma {:induction false} StripIsCut(s: string) returns (i: nat, j: nat)
    ensures Trims(s, i, j) && Strip(s) == s[i..j]
    decreases |s|
  {
    if s == "" {
      i, j := 0, 0;
    } else if IsSpace(s[0]) {
      var k, l := StripIsCut(s[1..]);
      TrimFirst(s, k, l);
      i, j := k + 1, l + 1;
    } else if IsSpace(s[|s| - 1]) {
      i, j := StripIsCut(s[..|s| - 1]);
      TrimLast(s, i, j);
    } else {
      i, j := 0, |s|;
    }
  }
}
