/** Recovering one payload from untrusted text: the ranked candidate search of
    `extract_json`, and `normalize`, which tries an envelope's answers before
    the raw text. JSON parsing, ANSI stripping and the fence pattern are
    parameters; brace scanning and comma repair are the proved ones. */
module Extraction {
  import opened Wrappers
  import opened JsonData
  import opened CommaRepair
  import opened Sequences
  import Braces = BraceScan

  datatype Host = Host(
    clean: string -> string,
    fences: string -> seq<string>,
    parse: string -> Option<Json>)

  datatype Message<+E> = Schema(error: E) | NoJsonObject | EnvelopeHint | Empty | Reported(text: string)

  datatype Contract<!E> = Contract(
    validate: Json -> seq<Message<E>>,
    successful: Json -> bool,
    tier: (Json, seq<Message<E>>) -> nat,
    containerKey: string)

  // ---------- the candidates, in the order they are tried ----------

  function Sources(host: Host, cleaned: string): seq<string> {
    host.fences(cleaned) + [cleaned]
  }

  ghost function CutSpans(source: string, stop: nat): seq<string>
    requires stop <= |Braces.SpansOf(source)|
  {
    if stop == 0 then []
    else
      Braces.SpansUpToExact(source, |source|);
      var span := Braces.SpansOf(source)[stop - 1];
      assert span in Braces.SpansOf(source);
      CutSpans(source, stop - 1) + [source[span.0..span.1]]
  }

  ghost function Pieces(source: string): seq<string> {
    [source] + CutSpans(source, |Braces.SpansOf(source)|)
  }

  ghost function PieceAttempts(pieces: seq<string>): seq<string> {
    if pieces == [] then []
    else
      var last := pieces[|pieces| - 1];
      PieceAttempts(pieces[..|pieces| - 1]) + [last, Repaired(last)]
  }

  ghost function Attempts(sources: seq<string>): seq<string> {
    if sources == [] then []
    else Attempts(sources[..|sources| - 1]) + PieceAttempts(Pieces(sources[|sources| - 1]))
  }

  ghost function AllAttempts(host: Host, text: string): seq<string> {
    Attempts(Sources(host, host.clean(text)))
  }

  // ---------- the search ----------

  function Parsed(host: Host, attempt: string): Option<Json> {
    var value := host.parse(attempt);
    if value.Some? && value.value.JDict? then value else None
  }

  function Rank<E>(contract: Contract<E>, payload: Json): nat {
    contract.tier(payload, contract.validate(payload))
  }

  /** A candidate that ends the search where it is met. */
  predicate Stops<E>(contract: Contract<E>, preferOrder: bool, payload: Json) {
    || (preferOrder && contract.validate(payload) == [] && contract.successful(payload))
    || Rank(contract, payload) == 0
  }

  ghost predicate Settled<E>(contract: Contract<E>, preferOrder: bool, best: Option<Json>) {
    best.Some? && Stops(contract, preferOrder, best.value)
  }

  ghost predicate Replaces<E>(contract: Contract<E>, preferOrder: bool, best: Option<Json>, next: Json) {
    && !Settled(contract, preferOrder, best)
    && (|| best.None?
        || Stops(contract, preferOrder, next)
        || Rank(contract, next) < Rank(contract, best.value))
  }

  ghost function Extracted<E>(host: Host, contract: Contract<E>, preferOrder: bool, attempts: seq<string>)
    : Option<Json>
  {
    if attempts == [] then None
    else
      var best := Extracted(host, contract, preferOrder, attempts[..|attempts| - 1]);
      var next := Parsed(host, attempts[|attempts| - 1]);
      if next.Some? && Replaces(contract, preferOrder, best, next.value) then next else best
  }

  lemma {:induction false} SettledStays<E>(
      host: Host, contract: Contract<E>, preferOrder: bool, seen: seq<string>, all: seq<string>)
    requires seen <= all
    requires Settled(contract, preferOrder, Extracted(host, contract, preferOrder, seen))
    ensures Extracted(host, contract, preferOrder, all) == Extracted(host, contract, preferOrder, seen)
    decreases |all|
  {
    if |seen| < |all| {
      SettledStays(host, contract, preferOrder, seen, all[..|all| - 1]);
    } else {
      assert seen == all;
    }
  }

  lemma {:induction false} PieceAttemptsPrefix(pieces: seq<string>, n: nat)
    requires n <= |pieces|
    ensures PieceAttempts(pieces[..n]) <= PieceAttempts(pieces)
  {
    if n == |pieces| {
      assert pieces[..n] == pieces;
    } else {
      PieceAttemptsPrefix(pieces[..|pieces| - 1], n);
      assert pieces[..|pieces| - 1][..n] == pieces[..n];
    }
  }

  lemma {:induction false} AttemptsPrefix(sources: seq<string>, n: nat)
    requires n <= |sources|
    ensures Attempts(sources[..n]) <= Attempts(sources)
  {
    if n == |sources| {
      assert sources[..n] == sources;
    } else {
      AttemptsPrefix(sources[..|sources| - 1], n);
      assert sources[..|sources| - 1][..n] == sources[..n];
    }
  }

  method ListPieces(source: string) returns (pieces: seq<string>)
    ensures pieces == Pieces(source)
  {
    pieces := [source];
    var spans := Braces.IterBalancedObjects(source);
    for n := 0 to |spans|
      invariant pieces == [source] + CutSpans(source, n)
    {
      assert spans[n] in spans;
      pieces := pieces + [source[spans[n].0..spans[n].1]];
    }
  }

  /** `best` is what the search holds after the attempts in `seen`. */
  ghost predicate Holding<E>(
    host: Host, contract: Contract<E>, preferOrder: bool, seen: seq<string>, best: Option<Json>, bestTier: nat)
  {
    && best == Extracted(host, contract, preferOrder, seen)
    && (best.Some? ==> bestTier == Rank(contract, best.value))
  }

  /** One turn of the innermost loop, after the attempts in `seen`. */
  method TryAttempt<E>(host: Host, contract: Contract<E>, preferOrder: bool, attempt: string,
                       ghost seen: seq<string>, best: Option<Json>, bestTier: nat)
    returns (newBest: Option<Json>, newTier: nat, done: bool)
    requires Holding(host, contract, preferOrder, seen, best, bestTier)
    requires !Settled(contract, preferOrder, best)
    ensures Holding(host, contract, preferOrder, seen + [attempt], newBest, newTier)
    ensures done == Settled(contract, preferOrder, newBest)
  {
    DropLast(seen, attempt);
    newBest, newTier, done := best, bestTier, false;
    var value := host.parse(attempt);
    if value.None? || !value.value.JDict? {
      return;
    }
    var parsed := value.value;
    var errors := contract.validate(parsed);
    var tier := contract.tier(parsed, errors);
    if preferOrder && errors == [] && contract.successful(parsed) {
      return value, tier, true;
    }
    if best.None? || tier < bestTier {
      newTier, newBest := tier, value;
      done := tier == 0;
    }
  }

  /** The innermost loop: a piece as it stands, then repaired. */
  method TryPiece<E>(host: Host, contract: Contract<E>, preferOrder: bool, piece: string,
                     ghost seen: seq<string>, best: Option<Json>, bestTier: nat)
    returns (newBest: Option<Json>, newTier: nat, done: bool)
    requires Holding(host, contract, preferOrder, seen, best, bestTier)
    requires !Settled(contract, preferOrder, best)
    ensures Holding(host, contract, preferOrder, seen + PieceAttempts([piece]), newBest, newTier)
    ensures done == Settled(contract, preferOrder, newBest)
  {
    newBest, newTier, done := best, bestTier, false;
    var repaired := DropTrailingCommas(piece);
    var attempts := [piece, repaired];
    OnePiece(piece, repaired);
    ghost var tried := seen;
    NothingAfter(seen);
    for a := 0 to 2
      invariant tried == seen + attempts[..a]
      invariant Holding(host, contract, preferOrder, tried, newBest, newTier)
      invariant !Settled(contract, preferOrder, newBest) && !done
    {
      newBest, newTier, done := TryAttempt(host, contract, preferOrder, attempts[a], tried, newBest, newTier);
      OneMoreTried(seen, attempts, a);
      tried := tried + [attempts[a]];
      if done {
        SettledStays(host, contract, preferOrder, tried, seen + attempts);
        return;
      }
    }
  }

  lemma OnePiece(piece: string, repaired: string)
    requires repaired == Repaired(piece)
    ensures PieceAttempts([piece]) == [piece, repaired] && [piece, repaired][..2] == [piece, repaired]
  {
    assert [piece][..0] == [];
  }

  lemma OneMoreTried(seen: seq<string>, attempts: seq<string>, n: nat)
    requires n < |attempts|
    ensures (seen + attempts[..n]) + [attempts[n]] == seen + attempts[..n + 1]
    ensures seen + attempts[..n + 1] <= seen + attempts
  {
  }

  /** The loop over the pieces of one source. */
  method TrySource<E>(host: Host, contract: Contract<E>, preferOrder: bool, source: string,
                      ghost seen: seq<string>, best: Option<Json>, bestTier: nat)
    returns (newBest: Option<Json>, newTier: nat, done: bool)
    requires Holding(host, contract, preferOrder, seen, best, bestTier)
    requires !Settled(contract, preferOrder, best)
    ensures Holding(host, contract, preferOrder, seen + PieceAttempts(Pieces(source)), newBest, newTier)
    ensures done == Settled(contract, preferOrder, newBest)
  {
    newBest, newTier, done := best, bestTier, false;
    var pieces := ListPieces(source);
    assert seen + PieceAttempts(pieces[..0]) == seen;
    for p := 0 to |pieces|
      invariant Holding(host, contract, preferOrder, seen + PieceAttempts(pieces[..p]), newBest, newTier)
      invariant !Settled(contract, preferOrder, newBest) && !done
    {
      ghost var next := seen + PieceAttempts(pieces[..p + 1]);
      PieceAttemptsMore(pieces, p);
      Reassociate(seen, PieceAttempts(pieces[..p]), PieceAttempts([pieces[p]]));
      newBest, newTier, done := TryPiece(
        host, contract, preferOrder, pieces[p], seen + PieceAttempts(pieces[..p]), newBest, newTier);
      if done {
        PieceAttemptsPrefix(pieces, p + 1);
        SettledStays(host, contract, preferOrder, next, seen + PieceAttempts(pieces));
        return;
      }
    }
    assert pieces[..|pieces|] == pieces;
  }

  lemma AttemptsMore(sources: seq<string>, n: nat)
    requires n < |sources|
    ensures Attempts(sources[..n + 1]) == Attempts(sources[..n]) + PieceAttempts(Pieces(sources[n]))
  {
    TakeOneMore(sources, n);
  }

  lemma PieceAttemptsMore(pieces: seq<string>, n: nat)
    requires n < |pieces|
    ensures PieceAttempts(pieces[..n + 1]) == PieceAttempts(pieces[..n]) + PieceAttempts([pieces[n]])
  {
    TakeOneMore(pieces, n);
    assert [pieces[n]][..0] == [];
  }

  /** `extract_json`: the search, with both its early returns. */
  method ExtractJson<E>(host: Host, text: string, contract: Contract<E>, preferOrder: bool)
    returns (best: Option<Json>)
    ensures best == Extracted(host, contract, preferOrder, AllAttempts(host, text))
  {
    var cleaned := host.clean(text);
    var sources := host.fences(cleaned) + [cleaned];
    best := None;
    var bestTier, done := 0, false;
    for s := 0 to |sources|
      invariant Holding(host, contract, preferOrder, Attempts(sources[..s]), best, bestTier)
      invariant !Settled(contract, preferOrder, best)
    {
      AttemptsMore(sources, s);
      best, bestTier, done := TrySource(
        host, contract, preferOrder, sources[s], Attempts(sources[..s]), best, bestTier);
      if done {
        AttemptsPrefix(sources, s + 1);
        SettledStays(host, contract, preferOrder, Attempts(sources[..s + 1]), Attempts(sources));
        return;
      }
    }
    assert sources[..|sources|] == sources;
  }

  // ---------- what the search returns ----------

  ghost predicate Holds(host: Host, attempts: seq<string>, i: nat, payload: Json) {
    i < |attempts| && Parsed(host, attempts[i]) == Some(payload)
  }

  /** The candidate at `i` wins: it is the first to stop the search, or nothing
      stops it and nothing ranks better, and nothing before it ranks as well. */
  ghost predicate Wins<E>(
    host: Host, contract: Contract<E>, preferOrder: bool, attempts: seq<string>, i: nat, payload: Json)
  {
    && Holds(host, attempts, i, payload)
    && if Stops(contract, preferOrder, payload) then
         forall j: nat, other | j < i && Holds(host, attempts, j, other) :: !Stops(contract, preferOrder, other)
       else
         forall j: nat, other | Holds(host, attempts, j, other) ::
           && !Stops(contract, preferOrder, other)
           && Rank(contract, payload) <= Rank(contract, other)
           && (j < i ==> Rank(contract, payload) < Rank(contract, other))
  }

  lemma {:induction false} ExtractedWins<E>(
      host: Host, contract: Contract<E>, preferOrder: bool, attempts: seq<string>)
    ensures var best := Extracted(host, contract, preferOrder, attempts);
      && (best.None? ==> forall i: nat, payload :: !Holds(host, attempts, i, payload))
      && (best.Some? ==> exists i: nat :: Wins(host, contract, preferOrder, attempts, i, best.value))
  {
    if attempts != [] {
      var last := |attempts| - 1;
      var before, next := attempts[..last], Parsed(host, attempts[last]);
      ExtractedWins(host, contract, preferOrder, before);
      var prior, best := Extracted(host, contract, preferOrder, before), Extracted(host, contract, preferOrder, attempts);
      forall j: nat, other | j < last
        ensures Holds(host, attempts, j, other) == Holds(host, before, j, other)
      {
      }
      if next.Some? && Replaces(contract, preferOrder, prior, next.value) {
        if prior.Some? {
          var i: nat :| Wins(host, contract, preferOrder, before, i, prior.value);
          assert !Stops(contract, preferOrder, prior.value);
        }
        assert Holds(host, attempts, last, next.value);
        assert Wins(host, contract, preferOrder, attempts, last, next.value);
      } else if best.Some? {
        var i :| Wins(host, contract, preferOrder, before, i, best.value);
        assert Wins(host, contract, preferOrder, attempts, i, best.value);
      }
    }
  }

  /** Without `prefer_order`, stopping at the first tier 0 changes nothing: the
      winner is the first of minimum tier over the whole search. */
  lemma FirstOfMinimumTier<E>(host: Host, contract: Contract<E>, attempts: seq<string>, payload: Json)
    requires Extracted(host, contract, false, attempts) == Some(payload)
    ensures exists i: nat :: Holds(host, attempts, i, payload) && forall j: nat, other | Holds(host, attempts, j, other) ::
      && Rank(contract, payload) <= Rank(contract, other)
      && (j < i ==> Rank(contract, payload) < Rank(contract, other))
  {
    ExtractedWins(host, contract, false, attempts);
    var i :| Wins(host, contract, false, attempts, i, payload);
    assert Holds(host, attempts, i, payload);
  }
}
