/** `normalize`: an envelope's answers newest first, then the raw text, and what
    the claim contract makes of the result. */
module Normalize {
  import opened Wrappers
  import opened JsonData
  import opened JsonText
  import opened CommaRepair
  import opened Extraction
  import opened Sequences
  import opened Candidates
  import opened ClaimSchema
  import Braces = BraceScan
  import Text

  datatype NormalizeResult<+E> =
    NormalizeResult(payload: Option<Json>, errors: seq<Message<E>>, succeeded: bool)

  /** Where an envelope keeps the answers, newest first, and the tool's own error. */
  datatype Envelope = Envelope(answers: string -> seq<string>, reported: string -> Option<string>)

  // ---------- one text ----------

  predicate HasContainer<E>(contract: Contract<E>, payload: Json) {
    payload.JDict? && contract.containerKey in payload.fields
  }

  function Judged<E>(contract: Contract<E>, structured: bool, extracted: Option<Json>): NormalizeResult<E> {
    if extracted.None? then NormalizeResult(None, [NoJsonObject], false)
    else
      var errors := contract.validate(extracted.value);
      if errors != [] then
        NormalizeResult(
          extracted,
          errors + (if structured && !HasContainer(contract, extracted.value) then [EnvelopeHint] else []),
          false)
      else if !contract.successful(extracted.value) then NormalizeResult(extracted, [Empty], false)
      else NormalizeResult(extracted, [], true)
  }

  /** What one text alone normalizes to. */
  ghost function Alone<E>(host: Host, contract: Contract<E>, structured: bool, text: string): NormalizeResult<E> {
    Judged(contract, structured, Extracted(host, contract, false, AllAttempts(host, text)))
  }

  /** `_normalize_text`. */
  method NormalizeText<E>(host: Host, contract: Contract<E>, structured: bool, text: string)
    returns (r: NormalizeResult<E>)
    ensures r == Alone(host, contract, structured, text)
  {
    var extracted := ExtractJson(host, text, contract, false);
    r := Judged(contract, structured, extracted);
  }

  function WithReported<E>(r: NormalizeResult<E>, reported: Option<string>): NormalizeResult<E> {
    if r.succeeded || reported.None? then r
    else r.(errors := [Reported(reported.value)] + r.errors)
  }

  // ---------- the answers, then the raw text ----------

  ghost function Results<E>(host: Host, contract: Contract<E>, answers: seq<string>): seq<NormalizeResult<E>> {
    seq(|answers|, i requires 0 <= i < |answers| => Alone(host, contract, false, answers[i]))
  }

  ghost predicate NewestSuccess<E>(results: seq<NormalizeResult<E>>, i: nat) {
    i < |results| && results[i].succeeded && forall j | 0 <= j < i :: !results[j].succeeded
  }

  function ResultRank<E>(contract: Contract<E>, r: NormalizeResult<E>): nat
    requires r.payload.Some?
  {
    contract.tier(r.payload.value, r.errors)
  }

  predicate Diagnoses<E>(contract: Contract<E>, r: NormalizeResult<E>) {
    r.payload.Some? && HasContainer(contract, r.payload.value)
  }

  /** The diagnosis kept from failed answers: the first of the best rank. */
  ghost predicate IsDiagnosis<E>(
    contract: Contract<E>, results: seq<NormalizeResult<E>>, kept: Option<NormalizeResult<E>>)
  {
    if kept.None? then forall i | 0 <= i < |results| :: !Diagnoses(contract, results[i])
    else exists i: nat :: KeptAt(contract, results, i, kept.value)
  }

  ghost predicate KeptAt<E>(
    contract: Contract<E>, results: seq<NormalizeResult<E>>, i: nat, kept: NormalizeResult<E>)
  {
    && i < |results| && results[i] == kept && Diagnoses(contract, kept)
    && forall j | 0 <= j < |results| && Diagnoses(contract, results[j]) ::
         && ResultRank(contract, kept) <= ResultRank(contract, results[j])
         && (j < i ==> ResultRank(contract, kept) < ResultRank(contract, results[j]))
  }

  /** A raw failure gives way to a diagnosis that ranks no worse. */
  function Fallback<E>(contract: Contract<E>, raw: NormalizeResult<E>, kept: Option<NormalizeResult<E>>)
    : NormalizeResult<E>
    requires kept.Some? ==> kept.value.payload.Some?
  {
    if && !raw.succeeded && kept.Some?
       && (raw.payload.None? || ResultRank(contract, kept.value) <= ResultRank(contract, raw))
    then kept.value
    else raw
  }

  /** The whole contract of `normalize` with an envelope. */
  ghost predicate Normalized<E(!new)>(host: Host, contract: Contract<E>, structured: bool, raw: string,
                                envelope: Envelope, r: NormalizeResult<E>)
  {
    var results := Results(host, contract, envelope.answers(raw));
    if i: nat :| NewestSuccess(results, i) then r == results[i]
    else
      exists kept: Option<NormalizeResult<E>> ::
        && IsDiagnosis(contract, results, kept)
        && r == WithReported(
                  Fallback(contract, Alone(host, contract, structured, raw), kept), envelope.reported(raw))
  }

  ghost predicate Replaces<E>(
    contract: Contract<E>, kept: Option<NormalizeResult<E>>, next: NormalizeResult<E>)
  {
    Diagnoses(contract, next) && (kept.None? || kept.value.payload.None?
                                  || ResultRank(contract, next) < ResultRank(contract, kept.value))
  }

  lemma DiagnosisGrows<E>(contract: Contract<E>, results: seq<NormalizeResult<E>>,
                          kept: Option<NormalizeResult<E>>, next: NormalizeResult<E>)
    requires IsDiagnosis(contract, results, kept)
    ensures Replaces(contract, kept, next) ==> IsDiagnosis(contract, results + [next], Some(next))
    ensures !Replaces(contract, kept, next) ==> IsDiagnosis(contract, results + [next], kept)
  {
    var all := results + [next];
    if kept.Some? {
      var i: nat :| KeptAt(contract, results, i, kept.value);
      if !Replaces(contract, kept, next) {
        assert KeptAt(contract, all, i, kept.value);
      }
    }
    if Replaces(contract, kept, next) {
      assert KeptAt(contract, all, |results|, next);
    }
  }

  /** The first `n` results failed, and `kept` is their diagnosis. */
  ghost predicate Tried<E>(
    contract: Contract<E>, results: seq<NormalizeResult<E>>, n: nat, kept: Option<NormalizeResult<E>>)
  {
    n <= |results| && IsDiagnosis(contract, results[..n], kept) && forall j | 0 <= j < n :: !results[j].succeeded
  }

  lemma TriedNext<E>(
      contract: Contract<E>, results: seq<NormalizeResult<E>>, n: nat, kept: Option<NormalizeResult<E>>)
    requires Tried(contract, results, n, kept) && n < |results| && !results[n].succeeded
    ensures Tried(contract, results, n + 1, if Replaces(contract, kept, results[n]) then Some(results[n]) else kept)
  {
    DiagnosisGrows(contract, results[..n], kept, results[n]);
    assert results[..n + 1] == results[..n] + [results[n]];
  }

  lemma TriedAll<E>(contract: Contract<E>, results: seq<NormalizeResult<E>>, kept: Option<NormalizeResult<E>>)
    requires Tried(contract, results, |results|, kept)
    ensures IsDiagnosis(contract, results, kept) && forall i: nat :: !NewestSuccess(results, i)
  {
    assert results[..|results|] == results;
  }

  /** The loop over an envelope's answers: the first success, or the diagnosis. */
  method TryAnswers<E>(host: Host, contract: Contract<E>, answers: seq<string>)
    returns (won: Option<NormalizeResult<E>>, kept: Option<NormalizeResult<E>>)
    ensures var results := Results(host, contract, answers);
      && (won.Some? ==> exists i: nat :: NewestSuccess(results, i) && won.value == results[i])
      && (won.None? ==> (forall i: nat :: !NewestSuccess(results, i)) && IsDiagnosis(contract, results, kept))
  {
    ghost var results := Results(host, contract, answers);
    won, kept := None, None;
    for n := 0 to |answers|
      invariant Tried(contract, results, n, kept)
    {
      var result := NormalizeText(host, contract, false, answers[n]);
      if result.succeeded {
        assert NewestSuccess(results, n);
        won := Some(result);
        return;
      }
      TriedNext(contract, results, n, kept);
      if result.payload.Some? && HasContainer(contract, result.payload.value) {
        if kept.None? || kept.value.payload.None? || ResultRank(contract, result) < ResultRank(contract, kept.value) {
          kept := Some(result);
        }
      }
    }
    TriedAll(contract, results, kept);
  }

  /** `normalize`. */
  method NormalizeOutput<E(!new)>(host: Host, contract: Contract<E>, structured: bool, raw: string,
                                  envelope: Option<Envelope>)
    returns (r: NormalizeResult<E>)
    ensures envelope.None? ==> r == Alone(host, contract, structured, raw)
    ensures envelope.Some? ==> Normalized(host, contract, structured, raw, envelope.value, r)
  {
    if envelope.None? {
      r := NormalizeText(host, contract, structured, raw);
      return;
    }
    var won, kept := TryAnswers(host, contract, envelope.value.answers(raw));
    if won.Some? {
      ghost var results := Results(host, contract, envelope.value.answers(raw));
      OneNewestSuccess(results);
      return won.value;
    }
    var rawResult := NormalizeText(host, contract, structured, raw);
    if && !rawResult.succeeded && kept.Some? && kept.value.payload.Some?
       && (|| rawResult.payload.None?
           || contract.tier(kept.value.payload.value, kept.value.errors)
              <= contract.tier(rawResult.payload.value, rawResult.errors))
    {
      rawResult := kept.value;
    }
    r := WithReported(rawResult, envelope.value.reported(raw));
  }

  lemma OneNewestSuccess<E>(results: seq<NormalizeResult<E>>)
    ensures forall i: nat, j: nat :: NewestSuccess(results, i) && NewestSuccess(results, j) ==> i == j
  {
  }

  /** `normalize` succeeds exactly when some answer, or the raw text, does alone. */
  lemma SucceedsWhenAnyDoes<E(!new)>(host: Host, contract: Contract<E>, structured: bool, raw: string,
                               envelope: Envelope, r: NormalizeResult<E>)
    requires Normalized(host, contract, structured, raw, envelope, r)
    ensures r.succeeded <==>
      || Alone(host, contract, structured, raw).succeeded
      || exists answer | answer in envelope.answers(raw) :: Alone(host, contract, false, answer).succeeded
  {
    var answers := envelope.answers(raw);
    var results := Results(host, contract, answers);
    if answer :| answer in answers && Alone(host, contract, false, answer).succeeded {
      var n :| 0 <= n < |answers| && answers[n] == answer;
      FirstSuccess(results, n);
    } else {
      forall i: nat | i < |results|
        ensures !results[i].succeeded
      {
        assert answers[i] in answers;
      }
    }
  }

  lemma {:induction false} FirstSuccess<E>(results: seq<NormalizeResult<E>>, n: nat)
    requires n < |results| && results[n].succeeded
    ensures exists i: nat :: i <= n && NewestSuccess(results, i)
  {
    if j :| 0 <= j < n && results[j].succeeded {
      FirstSuccess(results, j);
    } else {
      assert NewestSuccess(results, n);
    }
  }

  // ---------- an event stream ----------

  datatype Rule = Rule(matchValue: string, field: string, whereField: string, equals: string)

  /** What the stream reader needs: the dotted lookup and the JSON writer. */
  datatype Reader = Reader(dotted: (Json, string) -> Json, dumps: Json -> string, matchField: string)

  /** The key by which a dotted field reaches its value. */
  function LastKey(field: string): string {
    if field == "" || field[|field| - 1] == '.' then "" else LastKey(field[..|field| - 1]) + [field[|field| - 1]]
  }

  /** The answer text a rule takes from one event, if it matches. */
  function RuleAnswer(reader: Reader, rule: Rule, event: Json): seq<string> {
    if Get(event, reader.matchField) != JStr(rule.matchValue) then []
    else if rule.whereField != "" && reader.dotted(event, rule.whereField) != JStr(rule.equals) then []
    else
      match reader.dotted(event, rule.field)
      case JStr(s) => if Text.Strip(s) != "" then [s] else []
      case JDict(fields) => if fields != map[] then [reader.dumps(JDict(fields))] else []
      case JList(items) => if items != [] then [reader.dumps(JDict(map[LastKey(rule.field) := JList(items)]))] else []
      case _ => []
  }

  function EventAnswers(reader: Reader, rules: seq<Rule>, event: Json): seq<string> {
    if rules == [] || !event.JDict? then []
    else EventAnswers(reader, rules[..|rules| - 1], event) + RuleAnswer(reader, rules[|rules| - 1], event)
  }

  function LineAnswers(reader: Reader, rules: seq<Rule>, line: Option<Json>): seq<string> {
    if line.Some? then EventAnswers(reader, rules, line.value) else []
  }

  /** Lines that do not parse, or not to an object, are skipped. */
  function StreamAnswers(reader: Reader, rules: seq<Rule>, lines: seq<Option<Json>>): seq<string> {
    if lines == [] then []
    else
      StreamAnswers(reader, rules, lines[..|lines| - 1]) + LineAnswers(reader, rules, lines[|lines| - 1])
  }

  function Reversed<T>(s: seq<T>): (r: seq<T>)
    ensures |r| == |s| && forall i | 0 <= i < |s| :: r[i] == s[|s| - 1 - i]
  {
    if s == [] then [] else [s[|s| - 1]] + Reversed(s[..|s| - 1])
  }

  lemma OneMoreLine(reader: Reader, rules: seq<Rule>, before: seq<Option<Json>>, line: Option<Json>)
    ensures StreamAnswers(reader, rules, before + [line])
         == StreamAnswers(reader, rules, before) + LineAnswers(reader, rules, line)
  {
    DropLast(before, line);
  }

  lemma OneMoreRule(reader: Reader, rules: seq<Rule>, k: nat, event: Json)
    requires k < |rules| && event.JDict?
    ensures EventAnswers(reader, rules[..k + 1], event)
         == EventAnswers(reader, rules[..k], event) + RuleAnswer(reader, rules[k], event)
  {
    TakeOneMore(rules, k);
  }

  /** `_scan_ndjson` over lines already split and parsed. */
  method ScanNdjson(reader: Reader, rules: seq<Rule>, lines: seq<Option<Json>>) returns (found: seq<string>)
    ensures found == StreamAnswers(reader, rules, lines)
  {
    found := [];
    for n := 0 to |lines|
      invariant found == StreamAnswers(reader, rules, lines[..n])
    {
      TakeOneMore(lines, n);
      OneMoreLine(reader, rules, lines[..n], lines[n]);
      if lines[n].None? || !lines[n].value.JDict? {
        continue;
      }
      ghost var before := found;
      for k := 0 to |rules|
        invariant found == before + EventAnswers(reader, rules[..k], lines[n].value)
      {
        OneMoreRule(reader, rules, k, lines[n].value);
        Reassociate(before, EventAnswers(reader, rules[..k], lines[n].value), RuleAnswer(reader, rules[k], lines[n].value));
        found := found + RuleAnswer(reader, rules[k], lines[n].value);
      }
      assert rules[..|rules|] == rules;
    }
    assert lines[..|lines|] == lines;
  }

  /** `_unwrap_ndjson`: latest event first. */
  method UnwrapNdjson(reader: Reader, rules: seq<Rule>, lines: seq<Option<Json>>) returns (answers: seq<string>)
    ensures answers == Reversed(StreamAnswers(reader, rules, lines))
  {
    var extracted := ScanNdjson(reader, rules, lines);
    answers := Reversed(extracted);
  }

  lemma {:induction false} StreamAppends(
      reader: Reader, rules: seq<Rule>, older: seq<Option<Json>>, newer: seq<Option<Json>>)
    ensures StreamAnswers(reader, rules, older + newer)
         == StreamAnswers(reader, rules, older) + StreamAnswers(reader, rules, newer)
    decreases |newer|
  {
    if newer == [] {
      NothingAfter(older);
      NothingAfter(StreamAnswers(reader, rules, older));
    } else {
      var head, last := newer[..|newer| - 1], newer[|newer| - 1];
      StreamAppends(reader, rules, older, head);
      assert newer == head + [last];
      Reassociate(older, head, [last]);
      OneMoreLine(reader, rules, older + head, last);
      OneMoreLine(reader, rules, head, last);
      Reassociate(StreamAnswers(reader, rules, older), StreamAnswers(reader, rules, head), LineAnswers(reader, rules, last));
    }
  }

  lemma {:induction false} ReversedAppends<T>(a: seq<T>, b: seq<T>)
    ensures Reversed(a + b) == Reversed(b) + Reversed(a)
  {
  }

  lemma OlderChangesNothing<E>(results: seq<NormalizeResult<E>>, own: seq<NormalizeResult<E>>, i: nat)
    requires own <= results && NewestSuccess(own, i)
    ensures NewestSuccess(results, i) && results[i] == own[i]
  {
  }

  lemma NewerResults<E>(host: Host, contract: Contract<E>, reader: Reader, rules: seq<Rule>,
                        older: seq<Option<Json>>, newer: seq<Option<Json>>)
    ensures Results(host, contract, Reversed(StreamAnswers(reader, rules, newer)))
         <= Results(host, contract, Reversed(StreamAnswers(reader, rules, older + newer)))
  {
    StreamAppends(reader, rules, older, newer);
    ReversedAppends(StreamAnswers(reader, rules, older), StreamAnswers(reader, rules, newer));
  }

  /** The newest successful event wins whatever precedes it: once the newer events hold
      an answer that succeeds, normalizing the whole stream gives that answer's result,
      as normalizing the newer events alone does. */
  lemma NewestEventWins<E(!new)>(
      host: Host, contract: Contract<E>, structured: bool, raw: string, tail: string, envelope: Envelope,
      reader: Reader, rules: seq<Rule>, older: seq<Option<Json>>, newer: seq<Option<Json>>,
      i: nat, r: NormalizeResult<E>, r': NormalizeResult<E>)
    requires envelope.answers(raw) == Reversed(StreamAnswers(reader, rules, older + newer))
    requires envelope.answers(tail) == Reversed(StreamAnswers(reader, rules, newer))
    requires NewestSuccess(Results(host, contract, envelope.answers(tail)), i)
    requires Normalized(host, contract, structured, raw, envelope, r)
    requires Normalized(host, contract, structured, tail, envelope, r')
    ensures r == r' == Alone(host, contract, false, envelope.answers(tail)[i]) && r.succeeded
  {
    var results := Results(host, contract, envelope.answers(raw));
    var own := Results(host, contract, envelope.answers(tail));
    NewerResults(host, contract, reader, rules, older, newer);
    OlderChangesNothing(results, own, i);
    OneNewestSuccess(results);
    OneNewestSuccess(own);
  }

  // ---------- claims ----------

  /** Every message of a schema check, as `normalize` reports it. */
  function SchemaMessages(errors: seq<Error>): (messages: seq<Message<Error>>)
    ensures messages == [] <==> errors == []
  {
    seq(|errors|, i requires 0 <= i < |errors| => Schema(errors[i]))
  }

  const CLAIMS := Contract(
    (payload: Json) => SchemaMessages(PayloadErrors(payload)),
    (payload: Json) => Successful(payload),
    (payload: Json, errors: seq<Message<Error>>) => Tier(payload, errors),
    "findings")

  lemma ClaimRank(payload: Json)
    ensures Rank(CLAIMS, payload) == Tier(payload, PayloadErrors(payload))
    ensures Stops(CLAIMS, false, payload) <==> Successful(payload) && HasFindings(payload)
  {
    TierMeaning(payload);
  }

  /** A payload without findings, the bare marker included, is returned only when
      no candidate anywhere in the text has findings that are not null. */
  lemma MarkerOnlyWithoutFindings(host: Host, text: string, payload: Json, i: nat, other: Json)
    requires Extracted(host, CLAIMS, false, AllAttempts(host, text)) == Some(payload)
    requires Findings(payload).JNull?
    requires Holds(host, AllAttempts(host, text), i, other)
    ensures Findings(other).JNull?
  {
    FirstOfMinimumTier(host, CLAIMS, AllAttempts(host, text), payload);
    ClaimRank(payload);
    ClaimRank(other);
    TierMeaning(payload);
    TierMeaning(other);
  }

  /** Substance beats everything: the text yields a successful payload with
      findings exactly when some candidate is one. */
  lemma SubstanceWins(host: Host, text: string)
    ensures
      var attempts, extracted := AllAttempts(host, text), Extracted(host, CLAIMS, false, AllAttempts(host, text));
      (exists i: nat, other :: Holds(host, attempts, i, other) && Successful(other) && HasFindings(other))
      <==> extracted.Some? && Successful(extracted.value) && HasFindings(extracted.value)
  {
    var attempts := AllAttempts(host, text);
    var extracted := Extracted(host, CLAIMS, false, attempts);
    ExtractedWins(host, CLAIMS, false, attempts);
    if i: nat, other :| Holds(host, attempts, i, other) && Successful(other) && HasFindings(other) {
      FirstOfMinimumTier(host, CLAIMS, attempts, extracted.value);
      ClaimRank(other);
      ClaimRank(extracted.value);
      TierMeaning(other);
      TierMeaning(extracted.value);
    }
  }

  // ---------- a damaged object in prose ----------

  /** A JSON object, spoiled by trailing commas or not, after prose without quotes or opening
      braces and whatever follows it, is offered to the parser undamaged. */
  lemma ObjectIsAttempted(source: string, prose: string, members: Entries, damaged: bool, rest: string)
    requires Braces.Prose(prose) && WellFormed(Object(members))
    requires source == prose + Render(Object(members), damaged) + rest
    ensures AttemptOf(source, Render(Object(members), false))
  {
    var shown := Render(Object(members), damaged);
    Braces.ObjectIsFirstSpan(prose, members, damaged, rest);
    assert CutAt(source, (|prose|, |prose| + |shown|), shown);
    assert PieceOf(source, shown);
    RepairInvertsDamage(Object(members));
  }

  lemma DamagedObjectIsOffered(host: Host, text: string, prose: string, members: Entries, rest: string)
    requires Braces.Prose(prose) && WellFormed(Object(members))
    requires host.clean(text) == prose + Render(Object(members), true) + rest
    ensures Render(Object(members), false) in AllAttempts(host, text)
  {
    ObjectIsAttempted(host.clean(text), prose, members, true, rest);
    var n := AttemptsExactly(host, text);
    assert Render(Object(members), false) in AllAttempts(host, text)[n..];
  }

  /** The parser makes a successful payload with findings of this attempt. */
  ghost predicate Substantive(host: Host, attempt: string) {
    var payload := Parsed(host, attempt);
    payload.Some? && Successful(payload.value) && HasFindings(payload.value)
  }

  lemma SubstanceIsFound(host: Host, text: string, attempt: string, structured: bool)
    requires attempt in AllAttempts(host, text) && Substantive(host, attempt)
    ensures var r := Alone(host, CLAIMS, structured, text);
      r.succeeded && r.payload.Some? && HasFindings(r.payload.value)
  {
    var attempts := AllAttempts(host, text);
    var i :| 0 <= i < |attempts| && attempts[i] == attempt;
    assert Holds(host, attempts, i, Parsed(host, attempt).value);
    SubstanceWins(host, text);
  }

  /** So if the plain object is a substantive critique, the text normalizes to one. */
  lemma DamagedCritiqueIsRecovered(host: Host, text: string, prose: string, members: Entries, rest: string,
                                   structured: bool)
    requires Braces.Prose(prose) && WellFormed(Object(members))
    requires host.clean(text) == prose + Render(Object(members), true) + rest
    requires Substantive(host, Render(Object(members), false))
    ensures var r := Alone(host, CLAIMS, structured, text);
      r.succeeded && r.payload.Some? && HasFindings(r.payload.value)
  {
    DamagedObjectIsOffered(host, text, prose, members, rest);
    SubstanceIsFound(host, text, Render(Object(members), false), structured);
  }

  // ---------- a critique in a fenced block ----------

  /** Whatever surrounds the block, stray braces and quotes included: if the block, one of
      its spans, or either repaired is a substantive critique, the text normalizes to one. */
  lemma FencedSubstanceIsFound(host: Host, text: string, block: string, attempt: string, structured: bool)
    requires block in host.fences(host.clean(text)) && AttemptOf(block, attempt) && Substantive(host, attempt)
    ensures var r := Alone(host, CLAIMS, structured, text);
      r.succeeded && r.payload.Some? && HasFindings(r.payload.value)
  {
    var n := AttemptsExactly(host, text);
    assert attempt in AllAttempts(host, text)[..n];
    SubstanceIsFound(host, text, attempt, structured);
  }

  /** A block that holds a printed critique, spoiled by trailing commas or not. */
  lemma FencedCritiqueIsRecovered(host: Host, text: string, block: string, lead: string, members: Entries,
                                  damaged: bool, rest: string, structured: bool)
    requires block in host.fences(host.clean(text))
    requires block == lead + Render(Object(members), damaged) + rest
    requires Braces.Prose(lead) && WellFormed(Object(members)) && Substantive(host, Render(Object(members), false))
    ensures var r := Alone(host, CLAIMS, structured, text);
      r.succeeded && r.payload.Some? && HasFindings(r.payload.value)
  {
    ObjectIsAttempted(block, lead, members, damaged, rest);
    FencedSubstanceIsFound(host, text, block, Render(Object(members), false), structured);
  }
}
