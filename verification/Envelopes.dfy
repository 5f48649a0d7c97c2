/** What an envelope hands on as answers, and what a failed result says. */
module Envelopes {
  import opened Wrappers
  import opened JsonData
  import opened Extraction
  import opened Candidates
  import opened ClaimSchema
  import opened Normalize
  import opened Sequences
  import Text

  // ---------- the answer a rule takes from an event ----------

  /** The rule is for events of this kind. */
  ghost predicate Matches(reader: Reader, rule: Rule, event: Json) {
    && Get(event, reader.matchField) == JStr(rule.matchValue)
    && (rule.whereField == "" || reader.dotted(event, rule.whereField) == JStr(rule.equals))
  }

  /** The value under the rule's field holds something: text that is not blank, or a dict or
      list that is not empty. */
  ghost predicate HoldsAnswer(value: Json) {
    match value
    case JStr(s) => Text.Strip(s) != ""
    case JDict(fields) => fields != map[]
    case JList(items) => items != []
    case _ => false
  }

  /** An event yields an answer exactly if the rule matches it and its field is filled, and
      never more than one. */
  lemma AnswersExactly(reader: Reader, rule: Rule, event: Json)
    ensures |RuleAnswer(reader, rule, event)| <= 1
    ensures RuleAnswer(reader, rule, event) != []
       <==> Matches(reader, rule, event) && HoldsAnswer(reader.dotted(event, rule.field))
  {
  }

  /** Text is handed on as it is. */
  lemma TextIsHandedOn(reader: Reader, rule: Rule, event: Json, s: string)
    requires Matches(reader, rule, event) && reader.dotted(event, rule.field) == JStr(s) && Text.Strip(s) != ""
    ensures RuleAnswer(reader, rule, event) == [s]
  {
  }

  // ---------- the order of the answers ----------

  /** Rule `at.1` takes an answer from line `at.0`. */
  ghost predicate Yields(reader: Reader, rules: seq<Rule>, lines: seq<Option<Json>>, at: (nat, nat)) {
    && at.0 < |lines| && at.1 < |rules| && lines[at.0].Some? && lines[at.0].value.JDict?
    && RuleAnswer(reader, rules[at.1], lines[at.0].value) != []
  }

  ghost predicate Earlier(a: (nat, nat), b: (nat, nat)) {
    a.0 < b.0 || (a.0 == b.0 && a.1 < b.1)
  }

  /** Where each answer comes from: every pair of a line and a rule that yields one, line by
      line, and in the order of the rules within a line. */
  ghost predicate Located(reader: Reader, rules: seq<Rule>, lines: seq<Option<Json>>, answers: seq<string>,
                          at: seq<(nat, nat)>)
  {
    && |at| == |answers| && InOrder(at)
    && (forall k | 0 <= k < |at| :: AnswerAt(reader, rules, lines, answers[k], at[k]))
    && forall n: nat, r: nat | Yields(reader, rules, lines, (n, r)) :: (n, r) in at
  }

  ghost predicate InOrder(at: seq<(nat, nat)>) {
    forall k, l | 0 <= k < l < |at| :: Earlier(at[k], at[l])
  }

  ghost predicate AnswerAt(reader: Reader, rules: seq<Rule>, lines: seq<Option<Json>>, answer: string, at: (nat, nat)) {
    Yields(reader, rules, lines, at) && RuleAnswer(reader, rules[at.1], lines[at.0].value) == [answer]
  }

  /** The rules of one event that yield, in order. */
  ghost predicate Picked(reader: Reader, rules: seq<Rule>, event: Json, answers: seq<string>, chosen: seq<nat>) {
    && |chosen| == |answers|
    && (forall k, l | 0 <= k < l < |chosen| :: chosen[k] < chosen[l])
    && (forall k | 0 <= k < |chosen| :: chosen[k] < |rules| && RuleAnswer(reader, rules[chosen[k]], event) == [answers[k]])
    && forall r: nat | r < |rules| && RuleAnswer(reader, rules[r], event) != [] :: r in chosen
  }

  lemma PickedMore(reader: Reader, head: seq<Rule>, rule: Rule, event: Json, answers: seq<string>, chosen: seq<nat>)
    returns (more: seq<nat>)
    requires Picked(reader, head, event, answers, chosen)
    ensures Picked(reader, head + [rule], event, answers + RuleAnswer(reader, rule, event), more)
  {
    AnswersExactly(reader, rule, event);
    if RuleAnswer(reader, rule, event) == [] {
      more := chosen;
      NothingAfter(answers);
      PassedOver(reader, head, rule, event, answers, chosen);
    } else {
      more := chosen + [|head|];
      PickedLast(reader, head, rule, event, answers, chosen);
    }
  }

  lemma PassedOver(reader: Reader, head: seq<Rule>, rule: Rule, event: Json, answers: seq<string>, chosen: seq<nat>)
    requires Picked(reader, head, event, answers, chosen) && RuleAnswer(reader, rule, event) == []
    ensures Picked(reader, head + [rule], event, answers, chosen)
  {
    var rules := head + [rule];
    assert forall r: nat | r < |head| :: rules[r] == head[r];
    assert rules[|head|] == rule;
  }

  lemma PickedLast(reader: Reader, head: seq<Rule>, rule: Rule, event: Json, answers: seq<string>, chosen: seq<nat>)
    requires Picked(reader, head, event, answers, chosen) && |RuleAnswer(reader, rule, event)| == 1
    ensures Picked(reader, head + [rule], event, answers + RuleAnswer(reader, rule, event), chosen + [|head|])
  {
    var rules, own, more := head + [rule], RuleAnswer(reader, rule, event), chosen + [|head|];
    assert rules[|head|] == rule && own == [own[0]] && more[|chosen|] == |head|;
    forall k | 0 <= k < |chosen|
      ensures more[k] == chosen[k] && rules[chosen[k]] == head[chosen[k]] && (answers + own)[k] == answers[k]
    {
    }
    forall r: nat | r < |rules| && RuleAnswer(reader, rules[r], event) != []
      ensures r in more
    {
      if r < |head| {
        assert rules[r] == head[r] && r in chosen;
      }
    }
  }

  lemma {:induction false} EventInOrder(reader: Reader, rules: seq<Rule>, event: Json) returns (chosen: seq<nat>)
    requires event.JDict?
    ensures Picked(reader, rules, event, EventAnswers(reader, rules, event), chosen)
  {
    if rules == [] {
      chosen := [];
    } else {
      var head, rule := rules[..|rules| - 1], rules[|rules| - 1];
      chosen := EventInOrder(reader, head, event);
      chosen := PickedMore(reader, head, rule, event, EventAnswers(reader, head, event), chosen);
      assert head + [rule] == rules;
    }
  }

  /** The places of one line's answers. */
  function Placed(n: nat, chosen: seq<nat>): (at: seq<(nat, nat)>)
    ensures |at| == |chosen| && forall k | 0 <= k < |chosen| :: at[k] == (n, chosen[k])
  {
    seq(|chosen|, k requires 0 <= k < |chosen| => (n, chosen[k]))
  }

  lemma StillYields(reader: Reader, rules: seq<Rule>, lines: seq<Option<Json>>, line: Option<Json>, at: (nat, nat))
    ensures Yields(reader, rules, lines + [line], at) <==>
      Yields(reader, rules, lines, at) || (at.0 == |lines| && Yields(reader, rules, [line], (0, at.1)))
  {
    if at.0 < |lines| {
      assert (lines + [line])[at.0] == lines[at.0];
    }
  }

  lemma LocatedMore(reader: Reader, rules: seq<Rule>, lines: seq<Option<Json>>, line: Option<Json>,
                    answers: seq<string>, at: seq<(nat, nat)>, own: seq<string>, chosen: seq<nat>)
    requires Located(reader, rules, lines, answers, at)
    requires if line.Some? && line.value.JDict? then Picked(reader, rules, line.value, own, chosen)
             else own == [] && chosen == []
    ensures Located(reader, rules, lines + [line], answers + own, at + Placed(|lines|, chosen))
  {
    var all, more, placed := lines + [line], at + Placed(|lines|, chosen), Placed(|lines|, chosen);
    forall k | 0 <= k < |more|
      ensures AnswerAt(reader, rules, all, (answers + own)[k], more[k])
    {
      if k < |at| {
        assert AnswerAt(reader, rules, lines, answers[k], at[k]);
        StillYields(reader, rules, lines, line, at[k]);
      }
    }
    forall k, l | 0 <= k < l < |more|
      ensures Earlier(more[k], more[l])
    {
      if k < |at| {
        assert AnswerAt(reader, rules, lines, answers[k], at[k]);
      }
    }
    forall n: nat, r: nat | Yields(reader, rules, all, (n, r))
      ensures (n, r) in more
    {
      StillYields(reader, rules, lines, line, (n, r));
      if n == |lines| {
        var k :| 0 <= k < |chosen| && chosen[k] == r;
        assert more[|at| + k] == (n, r);
      }
    }
  }

  /** Answers come in the order of their events, within an event in that of the rules, and
      none is left out. */
  lemma {:induction false} AnswersInOrder(reader: Reader, rules: seq<Rule>, lines: seq<Option<Json>>)
    returns (at: seq<(nat, nat)>)
    ensures Located(reader, rules, lines, StreamAnswers(reader, rules, lines), at)
  {
    if lines == [] {
      at := [];
    } else {
      var head, line := lines[..|lines| - 1], lines[|lines| - 1];
      at := AnswersInOrder(reader, rules, head);
      var chosen: seq<nat> := [];
      if line.Some? && line.value.JDict? {
        chosen := EventInOrder(reader, rules, line.value);
      }
      LocatedMore(reader, rules, head, line, StreamAnswers(reader, rules, head), at, LineAnswers(reader, rules, line), chosen);
      assert head + [line] == lines;
      at := at + Placed(|head|, chosen);
    }
  }

  // ---------- answers that are no text ----------

  /** Text written by the reader is parsed back, and cleaning leaves it alone. */
  ghost predicate ReadsBack(host: Host, reader: Reader) {
    forall j: Json :: host.parse(reader.dumps(j)) == Some(j) && host.clean(reader.dumps(j)) == reader.dumps(j)
  }

  lemma WholeIsAttempted(host: Host, text: string)
    ensures host.clean(text) in AllAttempts(host, text)
  {
    var cleaned := host.clean(text);
    assert PieceOf(cleaned, cleaned);
    assert AttemptOf(cleaned, cleaned);
    var n := AttemptsExactly(host, text);
    assert cleaned in AllAttempts(host, text)[n..];
  }

  /** A payload handed on as text is found again in that text. */
  lemma WrittenPayloadIsFound(host: Host, reader: Reader, payload: Json)
    requires ReadsBack(host, reader) && payload.JDict? && Successful(payload) && HasFindings(payload)
    ensures Alone(host, CLAIMS, false, reader.dumps(payload)).succeeded
  {
    WholeIsAttempted(host, reader.dumps(payload));
    SubstanceIsFound(host, reader.dumps(payload), reader.dumps(payload), false);
  }

  /** An event whose field holds a critique as structured data, not as text, is an answer
      that succeeds. */
  lemma StructuredAnswerIsFound(host: Host, reader: Reader, rule: Rule, event: Json)
    requires ReadsBack(host, reader) && Matches(reader, rule, event)
    requires var value := reader.dotted(event, rule.field); value.JDict? && Successful(value) && HasFindings(value)
    ensures RuleAnswer(reader, rule, event) == [reader.dumps(reader.dotted(event, rule.field))]
    ensures Alone(host, CLAIMS, false, RuleAnswer(reader, rule, event)[0]).succeeded
  {
    var value := reader.dotted(event, rule.field);
    assert "findings" in value.fields;
    WrittenPayloadIsFound(host, reader, value);
  }

  lemma LastKeyMore(field: string, c: char)
    ensures LastKey(field + [c]) == if c == '.' then "" else LastKey(field) + [c]
  {
    DropLast(field, c);
  }

  /** What stands behind the last dot, or the whole field. */
  lemma {:induction false} LastKeyMeaning(before: string, key: string)
    requires '.' !in key
    ensures LastKey(key) == key && LastKey(before + "." + key) == key
  {
    if key == "" {
      LastKeyMore(before, '.');
      NothingAfter(before + ".");
    } else {
      var head, c := key[..|key| - 1], key[|key| - 1];
      assert key == head + [c] && c in key;
      LastKeyMeaning(before, head);
      LastKeyMore(head, c);
      LastKeyMore(before + "." + head, c);
      Reassociate(before + ".", head, [c]);
    }
  }

  lemma ListIsKeyed(reader: Reader, rule: Rule, event: Json, value: Json)
    requires Matches(reader, rule, event) && reader.dotted(event, rule.field) == value && value.JList? && value.items != []
    ensures RuleAnswer(reader, rule, event) == [reader.dumps(JDict(map[LastKey(rule.field) := value]))]
  {
  }

  /** So is an event whose field ends in `findings` and holds a bare list of them. */
  lemma BareFindingsAreFound(host: Host, reader: Reader, rule: Rule, event: Json, before: string)
    requires ReadsBack(host, reader) && Matches(reader, rule, event)
    requires rule.field == "findings" || rule.field == before + "." + "findings"
    requires var value := reader.dotted(event, rule.field);
      value.JList? && value.items != [] && Successful(JDict(map["findings" := value]))
    ensures |RuleAnswer(reader, rule, event)| == 1
    ensures Alone(host, CLAIMS, false, RuleAnswer(reader, rule, event)[0]).succeeded
  {
    var value := reader.dotted(event, rule.field);
    LastKeyMeaning(before, "findings");
    ListIsKeyed(reader, rule, event, value);
    KeyedFindings(value);
    WrittenPayloadIsFound(host, reader, JDict(map["findings" := value]));
  }

  lemma KeyedFindings(value: Json)
    requires value.JList? && value.items != []
    ensures HasFindings(JDict(map["findings" := value]))
  {
  }

  // ---------- what a failed result says ----------

  /** What one text's result says of its payload. */
  ghost predicate SaysWhy(structured: bool, r: NormalizeResult<Error>) {
    && (r.payload.None? <==> NoJsonObject in r.errors)
    && (r.payload.Some? ==>
          && (forall e: Error :: Schema(e) in r.errors <==> e in PayloadErrors(r.payload.value))
          && (Empty in r.errors <==> PayloadErrors(r.payload.value) == [] && !Successful(r.payload.value))
          && (EnvelopeHint in r.errors <==>
                structured && PayloadErrors(r.payload.value) != [] && !HasContainer(CLAIMS, r.payload.value)))
    && (r.succeeded <==> r.payload.Some? && Successful(r.payload.value))
    && (r.succeeded ==> r.errors == [])
    && forall text :: Reported(text) !in r.errors
  }

  lemma InMessages(errors: seq<Error>)
    ensures forall e: Error :: Schema(e) in SchemaMessages(errors) <==> e in errors
    ensures forall m | m in SchemaMessages(errors) :: m.Schema?
  {
    forall e: Error
      ensures Schema(e) in SchemaMessages(errors) <==> e in errors
    {
      if e in errors {
        var i :| 0 <= i < |errors| && errors[i] == e;
        assert SchemaMessages(errors)[i] == Schema(e);
      }
    }
  }

  lemma JudgedSaysWhy(structured: bool, extracted: Option<Json>)
    ensures SaysWhy(structured, Judged(CLAIMS, structured, extracted))
  {
    if extracted.Some? {
      InMessages(PayloadErrors(extracted.value));
    }
  }

  ghost predicate Reports(r: NormalizeResult<Error>, reported: Option<string>, said: NormalizeResult<Error>) {
    && r.payload == said.payload && r.succeeded == said.succeeded
    && r.errors == (if reported.Some? && !said.succeeded then [Reported(reported.value)] else []) + said.errors
  }

  ghost predicate AllSayWhy(results: seq<NormalizeResult<Error>>) {
    forall i | 0 <= i < |results| :: SaysWhy(false, results[i])
  }

  lemma ResultsSayWhy(host: Host, answers: seq<string>)
    ensures AllSayWhy(Results(host, CLAIMS, answers))
  {
    forall i | 0 <= i < |answers|
      ensures SaysWhy(false, Results(host, CLAIMS, answers)[i])
    {
      JudgedSaysWhy(false, Extracted(host, CLAIMS, false, AllAttempts(host, answers[i])));
    }
  }

  lemma FallbackSaysWhy(structured: bool, results: seq<NormalizeResult<Error>>,
                        alone: NormalizeResult<Error>, kept: Option<NormalizeResult<Error>>)
    requires AllSayWhy(results) && SaysWhy(structured, alone) && IsDiagnosis(CLAIMS, results, kept)
    ensures SaysWhy(structured, Fallback(CLAIMS, alone, kept))
  {
    if kept.Some? {
      var i: nat :| KeptAt(CLAIMS, results, i, kept.value);
      KeptSaysWhy(structured, kept.value);
    }
  }

  lemma WithReportedReports(said: NormalizeResult<Error>, reported: Option<string>)
    ensures Reports(WithReported(said, reported), reported, said)
  {
    NothingBefore(said.errors);
  }

  /** Whatever normalizing with an envelope returns: a success carries no error; a failure is
      led by the error the CLI reported, if it did, and otherwise names exactly what is wrong
      with the payload it carries. */
  lemma FailureSaysWhy(host: Host, structured: bool, raw: string, envelope: Envelope, r: NormalizeResult<Error>)
    requires Normalized(host, CLAIMS, structured, raw, envelope, r)
    ensures exists said :: SaysWhy(structured, said) && Reports(r, envelope.reported(raw), said)
  {
    var results, alone := Results(host, CLAIMS, envelope.answers(raw)), Alone(host, CLAIMS, structured, raw);
    ResultsSayWhy(host, envelope.answers(raw));
    if i: nat :| NewestSuccess(results, i) {
      OneNewestSuccess(results);
      SuccessSaysWhy(structured, results[i]);
      WithReportedReports(results[i], envelope.reported(raw));
      assert r == results[i];
    } else {
      var kept: Option<NormalizeResult<Error>> :|
        && IsDiagnosis(CLAIMS, results, kept)
        && r == WithReported(Fallback(CLAIMS, alone, kept), envelope.reported(raw));
      JudgedSaysWhy(structured, Extracted(host, CLAIMS, false, AllAttempts(host, raw)));
      FallbackSaysWhy(structured, results, alone, kept);
      WithReportedReports(Fallback(CLAIMS, alone, kept), envelope.reported(raw));
    }
  }

  lemma SuccessSaysWhy(structured: bool, r: NormalizeResult<Error>)
    requires SaysWhy(false, r) && r.succeeded
    ensures SaysWhy(structured, r)
  {
  }

  lemma KeptSaysWhy(structured: bool, r: NormalizeResult<Error>)
    requires SaysWhy(false, r) && Diagnoses(CLAIMS, r)
    ensures SaysWhy(structured, r)
  {
  }

  /** How a failed result ranks; what the CLI reported makes no difference to it. */
  ghost predicate RanksNoWorse(r: NormalizeResult<Error>, other: NormalizeResult<Error>) {
    other.payload.Some? ==> r.payload.Some? && ResultRank(CLAIMS, r) <= ResultRank(CLAIMS, other)
  }

  lemma FailingHasErrors(structured: bool, r: NormalizeResult<Error>)
    requires SaysWhy(structured, r) && !r.succeeded
    ensures r.errors != []
  {
    if r.payload.Some? && PayloadErrors(r.payload.value) != [] {
      var e := PayloadErrors(r.payload.value)[0];
      assert Schema(e) in r.errors;
    }
  }

  /** What the result is, when no answer succeeds. */
  lemma FellBack(host: Host, structured: bool, raw: string, envelope: Envelope, r: NormalizeResult<Error>)
    returns (kept: Option<NormalizeResult<Error>>)
    requires Normalized(host, CLAIMS, structured, raw, envelope, r) && !r.succeeded
    ensures IsDiagnosis(CLAIMS, Results(host, CLAIMS, envelope.answers(raw)), kept)
    ensures r == WithReported(Fallback(CLAIMS, Alone(host, CLAIMS, structured, raw), kept), envelope.reported(raw))
  {
    var results, alone := Results(host, CLAIMS, envelope.answers(raw)), Alone(host, CLAIMS, structured, raw);
    if j: nat :| NewestSuccess(results, j) {
      assert false;
    } else {
      kept :| IsDiagnosis(CLAIMS, results, kept)
              && r == WithReported(Fallback(CLAIMS, alone, kept), envelope.reported(raw));
    }
  }

  /** A failure is the best diagnosis there is: no answer with a container, and not the raw
      text, ranks better. */
  lemma FailureIsBest(host: Host, structured: bool, raw: string, envelope: Envelope, r: NormalizeResult<Error>, i: nat)
    requires Normalized(host, CLAIMS, structured, raw, envelope, r) && !r.succeeded
    requires i < |envelope.answers(raw)|
    ensures RanksNoWorse(r, Alone(host, CLAIMS, structured, raw))
    ensures var answer := Alone(host, CLAIMS, false, envelope.answers(raw)[i]);
      Diagnoses(CLAIMS, answer) ==> RanksNoWorse(r, answer)
  {
    var results, alone := Results(host, CLAIMS, envelope.answers(raw)), Alone(host, CLAIMS, structured, raw);
    var kept := FellBack(host, structured, raw, envelope, r);
    var said := Fallback(CLAIMS, alone, kept);
    ResultsSayWhy(host, envelope.answers(raw));
    JudgedSaysWhy(structured, Extracted(host, CLAIMS, false, AllAttempts(host, raw)));
    FallbackSaysWhy(structured, results, alone, kept);
    FailingHasErrors(structured, said);
    BestOfBoth(results, alone, kept, i);
    SameRank(said, envelope.reported(raw));
    BothNoWorse(said, r, alone);
    BothNoWorse(said, r, results[i]);
  }

  lemma BothNoWorse(said: NormalizeResult<Error>, r: NormalizeResult<Error>, other: NormalizeResult<Error>)
    requires r.payload == said.payload && (said.payload.Some? ==> ResultRank(CLAIMS, r) == ResultRank(CLAIMS, said))
    ensures RanksNoWorse(said, other) ==> RanksNoWorse(r, other)
  {
  }

  lemma BestOfBoth(results: seq<NormalizeResult<Error>>, alone: NormalizeResult<Error>,
                   kept: Option<NormalizeResult<Error>>, i: nat)
    requires IsDiagnosis(CLAIMS, results, kept) && i < |results| && !Fallback(CLAIMS, alone, kept).succeeded
    ensures RanksNoWorse(Fallback(CLAIMS, alone, kept), alone)
    ensures Diagnoses(CLAIMS, results[i]) ==> RanksNoWorse(Fallback(CLAIMS, alone, kept), results[i])
  {
    if kept.Some? {
      var k: nat :| KeptAt(CLAIMS, results, k, kept.value);
    }
  }

  lemma SameRank(said: NormalizeResult<Error>, reported: Option<string>)
    requires said.errors != [] || said.succeeded
    ensures WithReported(said, reported).payload == said.payload
    ensures said.payload.Some? ==> ResultRank(CLAIMS, WithReported(said, reported)) == ResultRank(CLAIMS, said)
  {
  }
}
