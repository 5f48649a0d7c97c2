/** The claim contract: what a friend's payload must satisfy, when it counts as
    an answer, and how candidate payloads rank. */
module ClaimSchema {
  import opened Text
  import opened JsonData

  const SEVERITIES := ["high", "medium", "low"]
  const REQUIRED_FIELDS := ["severity", "claim", "evidence", "failure_scenario", "suggested_fix"]

  datatype Error =
    | NotAnObject
    | Contradiction
    | NeitherFindingsNorMarker
    | FindingNotAnObject(index: nat)
    | FieldMissing(index: nat, field: string)
    | UnknownSeverity(index: nat, severity: string)
    | BadLocation(index: nat)

  predicate Marked(payload: Json) {
    Get(payload, "no_findings") == JBool(true)
  }

  function Findings(payload: Json): Json {
    Get(payload, "findings")
  }

  predicate HasFindings(payload: Json) {
    Findings(payload).JList? && Findings(payload).items != []
  }

  // ---------- what each error says about the payload ----------

  predicate Filled(value: Json) {
    value.JStr? && Strip(value.s) != ""
  }

  ghost predicate FindingDefect(finding: Json, index: nat, e: Error) {
    if !finding.JDict? then e == FindingNotAnObject(index)
    else
      || (e.FieldMissing? && e.index == index && e.field in REQUIRED_FIELDS && !Filled(Get(finding, e.field)))
      || (&& e.UnknownSeverity? && e.index == index && e.severity !in SEVERITIES
          && Get(finding, "severity") == JStr(e.severity))
      || (e == BadLocation(index) && !Get(finding, "location").JNull? && !Get(finding, "location").JStr?)
  }

  ghost predicate Defect(payload: Json, e: Error) {
    if !payload.JDict? then e == NotAnObject
    else if Marked(payload) then
      && e == Contradiction
      && !Findings(payload).JNull? && (!Findings(payload).JList? || HasFindings(payload))
    else if !Findings(payload).JList? then e == NeitherFindingsNorMarker
    else
      var items := Findings(payload).items;
      exists i: nat | i < |items| :: FindingDefect(items[i], i, e)
  }

  // ---------- the checks, in the order they are made ----------

  function FieldErrors(finding: Json, index: nat, fields: seq<string>): seq<Error> {
    if fields == [] then []
    else FieldErrors(finding, index, fields[..|fields| - 1])
         + (if Filled(Get(finding, fields[|fields| - 1])) then []
            else [FieldMissing(index, fields[|fields| - 1])])
  }

  function FindingErrors(finding: Json, index: nat): seq<Error> {
    if !finding.JDict? then [FindingNotAnObject(index)]
    else
      var severity, location := Get(finding, "severity"), Get(finding, "location");
      FieldErrors(finding, index, REQUIRED_FIELDS)
      + (if severity.JStr? && severity.s !in SEVERITIES then [UnknownSeverity(index, severity.s)] else [])
      + (if !location.JNull? && !location.JStr? then [BadLocation(index)] else [])
  }

  function ItemErrors(items: seq<Json>): seq<Error> {
    if items == [] then []
    else ItemErrors(items[..|items| - 1]) + FindingErrors(items[|items| - 1], |items| - 1)
  }

  function PayloadErrors(payload: Json): seq<Error> {
    if !payload.JDict? then [NotAnObject]
    else
      var findings := Findings(payload);
      if Marked(payload) then
        if !findings.JNull? && (!findings.JList? || findings.items != []) then [Contradiction] else []
      else if !findings.JList? then [NeitherFindingsNorMarker]
      else ItemErrors(findings.items)
  }

  /** One turn of the loop over findings. */
  method CheckFinding(finding: Json, index: nat) returns (errors: seq<Error>)
    ensures errors == FindingErrors(finding, index)
  {
    if !finding.JDict? {
      return [FindingNotAnObject(index)];
    }
    errors := [];
    for f := 0 to |REQUIRED_FIELDS|
      invariant errors == FieldErrors(finding, index, REQUIRED_FIELDS[..f])
    {
      assert REQUIRED_FIELDS[..f + 1][..f] == REQUIRED_FIELDS[..f];
      var value := Get(finding, REQUIRED_FIELDS[f]);
      if !value.JStr? || Strip(value.s) == "" {
        errors := errors + [FieldMissing(index, REQUIRED_FIELDS[f])];
      }
    }
    assert REQUIRED_FIELDS[..|REQUIRED_FIELDS|] == REQUIRED_FIELDS;
    var severity := Get(finding, "severity");
    if severity.JStr? && severity.s !in SEVERITIES {
      errors := errors + [UnknownSeverity(index, severity.s)];
    }
    var location := Get(finding, "location");
    if !location.JNull? && !location.JStr? {
      errors := errors + [BadLocation(index)];
    }
  }

  /** `validate_payload`. */
  method ValidatePayload(payload: Json) returns (errors: seq<Error>)
    ensures errors == PayloadErrors(payload)
  {
    if !payload.JDict? {
      return [NotAnObject];
    }
    errors := [];
    var findings := Get(payload, "findings");
    if Get(payload, "no_findings") == JBool(true) {
      if !findings.JNull? && (!findings.JList? || findings.items != []) {
        errors := errors + [Contradiction];
      }
      return;
    }
    if !findings.JList? {
      return [NeitherFindingsNorMarker];
    }
    for index := 0 to |findings.items|
      invariant errors == ItemErrors(findings.items[..index])
    {
      var found := CheckFinding(findings.items[index], index);
      errors := errors + found;
      assert findings.items[..index + 1][..index] == findings.items[..index];
    }
    assert findings.items[..|findings.items|] == findings.items;
  }

  lemma {:induction false} FieldErrorsExact(finding: Json, index: nat, fields: seq<string>, e: Error)
    ensures e in FieldErrors(finding, index, fields)
       <==> e.FieldMissing? && e.index == index && e.field in fields && !Filled(Get(finding, e.field))
  {
    if fields != [] {
      FieldErrorsExact(finding, index, fields[..|fields| - 1], e);
      assert fields == fields[..|fields| - 1] + [fields[|fields| - 1]];
    }
  }

  lemma {:induction false} ItemErrorsExact(items: seq<Json>, e: Error)
    ensures e in ItemErrors(items) <==> exists i: nat | i < |items| :: FindingDefect(items[i], i, e)
  {
    if items != [] {
      var last := |items| - 1;
      ItemErrorsExact(items[..last], e);
      FieldErrorsExact(items[last], last, REQUIRED_FIELDS, e);
      assert e in FindingErrors(items[last], last) <==> FindingDefect(items[last], last, e);
      forall i: nat | i < last ensures items[..last][i] == items[i] {}
    }
  }

  /** Validation reports a defect exactly when the payload has it. */
  lemma ErrorsExact(payload: Json, e: Error)
    ensures e in PayloadErrors(payload) <==> Defect(payload, e)
  {
    if payload.JDict? && !Marked(payload) && Findings(payload).JList? {
      ItemErrorsExact(Findings(payload).items, e);
    }
  }

  // ---------- success and rank ----------

  /** `is_successful_payload`. */
  predicate Successful(payload: Json) {
    PayloadErrors(payload) == [] && (Marked(payload) || HasFindings(payload))
  }

  /** `claim_tier`. */
  function Tier<E>(payload: Json, errors: seq<E>): nat {
    if |errors| == 0 && HasFindings(payload) then 0
    else if !Findings(payload).JNull? then 1
    else if |errors| == 0 && Marked(payload) then 2
    else 3
  }

  /** Rank and success agree: tier 0 is a success with findings, tier 2 is
      exactly the bare marker, and a success that carries neither findings nor
      the bare marker is the marker beside an empty list, which ranks 1. */
  lemma TierMeaning(payload: Json)
    ensures var tier := Tier(payload, PayloadErrors(payload));
      && (tier == 0 <==> Successful(payload) && HasFindings(payload))
      && (tier == 2 <==> Successful(payload) && Findings(payload).JNull?)
      && (tier >= 2 <==> Findings(payload).JNull?)
      && (tier == 1 && Successful(payload) <==>
            payload.JDict? && Marked(payload) && Findings(payload) == JList([]))
  {
    if payload.JDict? && Marked(payload) && HasFindings(payload) {
      assert PayloadErrors(payload) == [Contradiction];
    }
  }
}
