/** Which texts `extract_json` offers to the parser, and in which order. */
module Candidates {
  import opened CommaRepair
  import opened Extraction
  import opened Sequences
  import opened Wrappers
  import Braces = BraceScan

  /** A whole source or one of its top-level balanced spans. */
  ghost predicate PieceOf(source: string, piece: string) {
    piece == source || exists span: Braces.Span :: CutAt(source, span, piece)
  }

  ghost predicate CutAt(source: string, span: Braces.Span, piece: string) {
    Braces.IsSpan(source, span) && piece == source[span.0..span.1]
  }

  /** A piece as it stands, or repaired. */
  ghost predicate AttemptOf(source: string, attempt: string) {
    exists piece :: PieceOf(source, piece) && (attempt == piece || attempt == Repaired(piece))
  }

  lemma {:induction false} CutSpansMeaning(source: string, stop: nat, piece: string)
    requires stop <= |Braces.SpansOf(source)|
    ensures piece in CutSpans(source, stop) <==> CutBefore(source, stop, piece)
  {
    if stop > 0 {
      CutSpansMeaning(source, stop - 1, piece);
      LastCut(source, stop, piece);
      assert CutBefore(source, stop, piece) <==>
        CutBefore(source, stop - 1, piece) || CutAt(source, Braces.SpansOf(source)[stop - 1], piece);
    }
  }

  ghost predicate CutBefore(source: string, stop: nat, piece: string)
    requires stop <= |Braces.SpansOf(source)|
  {
    exists n :: 0 <= n < stop && CutAt(source, Braces.SpansOf(source)[n], piece)
  }

  lemma LastCut(source: string, stop: nat, piece: string)
    requires 0 < stop <= |Braces.SpansOf(source)|
    ensures piece in CutSpans(source, stop) <==>
      piece in CutSpans(source, stop - 1) || CutAt(source, Braces.SpansOf(source)[stop - 1], piece)
  {
    Braces.SpansUpToExact(source, |source|);
    assert Braces.SpansOf(source)[stop - 1] in Braces.SpansOf(source);
  }

  lemma PiecesMeaning(source: string, piece: string)
    ensures piece in Pieces(source) <==> PieceOf(source, piece)
  {
    var spans := Braces.SpansOf(source);
    CutSpansMeaning(source, |spans|, piece);
    Braces.SpansUpToExact(source, |source|);
    if span: Braces.Span :| CutAt(source, span, piece) {
      var n :| 0 <= n < |spans| && spans[n] == span;
      assert CutAt(source, spans[n], piece);
    }
  }

  lemma {:induction false} PieceAttemptsMeaning(pieces: seq<string>, attempt: string)
    ensures attempt in PieceAttempts(pieces) <==>
      exists piece :: piece in pieces && (attempt == piece || attempt == Repaired(piece))
  {
    if pieces != [] {
      var head, last := pieces[..|pieces| - 1], pieces[|pieces| - 1];
      PieceAttemptsMeaning(head, attempt);
      assert forall piece :: piece in pieces <==> piece in head || piece == last;
      assert attempt in PieceAttempts(pieces) <==>
        attempt in PieceAttempts(head) || attempt == last || attempt == Repaired(last);
    }
  }

  lemma SourceAttempts(source: string, attempt: string)
    ensures attempt in PieceAttempts(Pieces(source)) <==> AttemptOf(source, attempt)
  {
    PieceAttemptsMeaning(Pieces(source), attempt);
    forall piece
      ensures piece in Pieces(source) <==> PieceOf(source, piece)
    {
      PiecesMeaning(source, piece);
    }
  }

  lemma {:induction false} AttemptsMeaning(sources: seq<string>, attempt: string)
    ensures attempt in Attempts(sources) <==> exists source :: source in sources && AttemptOf(source, attempt)
  {
    if sources != [] {
      var head, last := sources[..|sources| - 1], sources[|sources| - 1];
      AttemptsMeaning(head, attempt);
      SourceAttempts(last, attempt);
      assert forall source :: source in sources <==> source in head || source == last;
    }
  }

  lemma AllAttemptsParts(host: Host, text: string)
    ensures AllAttempts(host, text)
         == Attempts(host.fences(host.clean(text))) + PieceAttempts(Pieces(host.clean(text)))
  {
    DropLast(host.fences(host.clean(text)), host.clean(text));
  }

  /** Everything in a fenced block is attempted, then everything in the whole text, and
      nothing else: up to position `n` only what some fenced block holds, all of it, and from
      there only what the whole text holds, all of it. */
  lemma AttemptsExactly(host: Host, text: string) returns (n: nat)
    ensures var attempts, cleaned := AllAttempts(host, text), host.clean(text);
      && n <= |attempts|
      && (forall a :: a in attempts[..n] <==> exists block :: block in host.fences(cleaned) && AttemptOf(block, a))
      && (forall a :: a in attempts[n..] <==> AttemptOf(cleaned, a))
  {
    var cleaned := host.clean(text);
    var fenced, whole := Attempts(host.fences(cleaned)), PieceAttempts(Pieces(cleaned));
    n := |fenced|;
    AllAttemptsParts(host, text);
    assert (fenced + whole)[..n] == fenced && (fenced + whole)[n..] == whole;
    forall a
      ensures a in fenced <==> exists block :: block in host.fences(cleaned) && AttemptOf(block, a)
      ensures a in whole <==> AttemptOf(cleaned, a)
    {
      AttemptsMeaning(host.fences(cleaned), a);
      SourceAttempts(cleaned, a);
    }
  }

  // ---------- the order inside a source ----------

  /** Attempts come in pairs: a piece as it stands, then repaired. */
  ghost predicate Paired(attempts: seq<string>) {
    |attempts| % 2 == 0 && forall k: nat | 2 * k + 1 < |attempts| :: PairAt(attempts, k)
  }

  ghost predicate PairAt(attempts: seq<string>, k: nat) {
    2 * k + 1 < |attempts| && attempts[2 * k + 1] == Repaired(attempts[2 * k])
  }

  lemma PairedAppend(a: seq<string>, b: seq<string>)
    requires Paired(a) && Paired(b)
    ensures Paired(a + b)
  {
    forall k: nat | 2 * k + 1 < |a + b|
      ensures PairAt(a + b, k)
    {
      if 2 * k + 1 < |a| {
        assert PairAt(a, k);
      } else {
        var m := k - |a| / 2;
        assert 2 * m == 2 * k - |a|;
        assert PairAt(b, m);
      }
    }
  }

  lemma {:induction false} PiecesPaired(pieces: seq<string>)
    ensures Paired(PieceAttempts(pieces)) && |PieceAttempts(pieces)| == 2 * |pieces|
    ensures forall k: nat | k < |pieces| :: PieceAttempts(pieces)[2 * k] == pieces[k]
  {
    if pieces != [] {
      var head, last := pieces[..|pieces| - 1], pieces[|pieces| - 1];
      PiecesPaired(head);
      assert PairAt([last, Repaired(last)], 0);
      PairedAppend(PieceAttempts(head), [last, Repaired(last)]);
      forall k: nat | k < |pieces|
        ensures PieceAttempts(pieces)[2 * k] == pieces[k]
      {
        if k < |head| {
          assert PieceAttempts(pieces)[2 * k] == PieceAttempts(head)[2 * k];
        }
      }
    }
  }

  lemma {:induction false} AttemptsPaired(sources: seq<string>)
    ensures Paired(Attempts(sources))
  {
    if sources != [] {
      AttemptsPaired(sources[..|sources| - 1]);
      PiecesPaired(Pieces(sources[|sources| - 1]));
      PairedAppend(Attempts(sources[..|sources| - 1]), PieceAttempts(Pieces(sources[|sources| - 1])));
    }
  }

  /** Each piece is tried as it stands right before it is tried repaired; of a source the
      whole comes first, then its spans from left to right. */
  lemma AttemptsInOrder(host: Host, text: string, source: string, m: nat)
    requires m < |Braces.SpansOf(source)|
    ensures Paired(AllAttempts(host, text))
    ensures PieceAttempts(Pieces(source))[0] == source
    ensures var span := Braces.SpansOf(source)[m];
      && Braces.IsSpan(source, span) && (m > 0 ==> Braces.SpansOf(source)[m - 1].1 <= span.0)
      && |PieceAttempts(Pieces(source))| > 2 * (m + 1)
      && PieceAttempts(Pieces(source))[2 * (m + 1)] == source[span.0..span.1]
  {
    AttemptsPaired(Sources(host, host.clean(text)));
    PiecesPaired(Pieces(source));
    Braces.SpansUpToExact(source, |source|);
    assert Braces.SpansOf(source)[m] in Braces.SpansOf(source);
    CutSpanAt(source, |Braces.SpansOf(source)|, m);
    assert Pieces(source)[0] == source && Pieces(source)[m + 1] == CutSpans(source, |Braces.SpansOf(source)|)[m];
    assert PieceAttempts(Pieces(source))[2 * 0] == source;
  }

  lemma {:induction false} CutSpanAt(source: string, stop: nat, m: nat)
    requires m < stop <= |Braces.SpansOf(source)|
    ensures |CutSpans(source, stop)| == stop
    ensures var span := Braces.SpansOf(source)[m];
      span.0 <= span.1 <= |source| && CutSpans(source, stop)[m] == source[span.0..span.1]
  {
    Braces.SpansUpToExact(source, |source|);
    assert Braces.SpansOf(source)[m] in Braces.SpansOf(source);
    if m < stop - 1 {
      CutSpanAt(source, stop - 1, m);
    } else {
      CutSpansLength(source, stop - 1);
    }
  }

  lemma {:induction false} CutSpansLength(source: string, stop: nat)
    requires stop <= |Braces.SpansOf(source)|
    ensures |CutSpans(source, stop)| == stop
  {
    if stop > 0 {
      CutSpansLength(source, stop - 1);
    }
  }

  // ---------- what may be returned ----------

  lemma {:induction false} ExtractedIsAttempted<E>(
      host: Host, contract: Contract<E>, preferOrder: bool, attempts: seq<string>)
    ensures var best := Extracted(host, contract, preferOrder, attempts);
      match best
      case Some(payload) => payload.JDict? && exists a :: a in attempts && host.parse(a) == Some(payload)
      case None => forall a | a in attempts && host.parse(a).Some? :: !host.parse(a).value.JDict?
  {
    if attempts != [] {
      var head, last := attempts[..|attempts| - 1], attempts[|attempts| - 1];
      ExtractedIsAttempted(host, contract, preferOrder, head);
      assert forall a :: a in attempts <==> a in head || a == last;
    }
  }
}
