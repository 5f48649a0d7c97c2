/** `record_to_dict` and `record_from_dict`: records as JSON objects. */
module LedgerRecords {
  import opened JsonData
  import opened Records
  import opened Wrappers

  datatype RecordError =
    | NotADict
    | TypeNotAString
    | UnknownType
    | UnexpectedKeys
    | MissingKeys
    | WrongFieldType
    | OriginNotStrings

  /** What a field may hold. A flag is not an integer here, although Python counts
      `bool` among the `int`s: the source compares exact types. */
  datatype Shape = Text | OptionalText | Texts | Whole | Flag

  predicate Fits(value: Json, shape: Shape) {
    match shape
    case Text => value.JStr?
    case OptionalText => value.JStr? || value.JNull?
    case Texts => value.JList?
    case Whole => value.JInt?
    case Flag => value.JBool?
  }

  // ---------- the field tables ----------

  const CLAIM_FIELDS: map<string, Shape> := map[
    "id" := Text, "supersedes" := OptionalText, "origin" := Texts, "lens" := Text, "round" := Whole,
    "advisory" := Flag, "severity" := Text, "claim" := Text, "location" := OptionalText,
    "evidence" := Text, "failure_scenario" := Text, "suggested_fix" := Text]

  const VERDICT_FIELDS: map<string, Shape> := map[
    "claim_id" := Text, "judge" := Text, "round" := Whole, "verdict" := Text, "confidence" := Text,
    "evidence_assessment" := Text, "reasoning" := Text, "counter_evidence" := OptionalText,
    "amended_claim" := OptionalText]

  const ALIAS_FIELDS: map<string, Shape> := map[
    "canonical" := Text, "duplicate" := Text, "round" := Whole, "source" := Text, "rationale" := Text]

  const RESOLUTION_FIELDS: map<string, Shape> := map[
    "claim_id" := Text, "disposition" := Text, "author" := Text, "evidence" := Text, "round" := Whole,
    "verified" := Text]

  predicate KnownType(kind: string) {
    kind == "claim" || kind == "verdict" || kind == "alias" || kind == "resolution"
  }

  function FieldTypes(kind: string): map<string, Shape>
    requires KnownType(kind)
  {
    if kind == "claim" then CLAIM_FIELDS
    else if kind == "verdict" then VERDICT_FIELDS
    else if kind == "alias" then ALIAS_FIELDS
    else RESOLUTION_FIELDS
  }

  function TypeName(record: Record): string {
    match record
    case ClaimRecord(_) => "claim"
    case VerdictRecord(_) => "verdict"
    case AliasRecord(_) => "alias"
    case ResolutionRecord(_) => "resolution"
  }

  // ---------- writing ----------

  function OptionalJson(text: Option<string>): Json {
    if text.Some? then JStr(text.value) else JNull
  }

  function TextsJson(texts: seq<string>): Json {
    JList(seq(|texts|, i requires 0 <= i < |texts| => JStr(texts[i])))
  }

  function RecordToDict(record: Record): map<string, Json> {
    match record
    case ClaimRecord(c) => map[
      "id" := JStr(c.id), "supersedes" := OptionalJson(c.supersedes), "origin" := TextsJson(c.origin),
      "lens" := JStr(c.lens), "round" := JInt(c.round), "advisory" := JBool(c.advisory),
      "severity" := JStr(c.severity), "claim" := JStr(c.claim), "location" := OptionalJson(c.location),
      "evidence" := JStr(c.evidence), "failure_scenario" := JStr(c.failureScenario),
      "suggested_fix" := JStr(c.suggestedFix), "type" := JStr("claim")]
    case VerdictRecord(v) => map[
      "claim_id" := JStr(v.claimId), "judge" := JStr(v.judge), "round" := JInt(v.round),
      "verdict" := JStr(v.verdict), "confidence" := JStr(v.confidence),
      "evidence_assessment" := JStr(v.evidenceAssessment), "reasoning" := JStr(v.reasoning),
      "counter_evidence" := OptionalJson(v.counterEvidence), "amended_claim" := OptionalJson(v.amendedClaim),
      "type" := JStr("verdict")]
    case AliasRecord(a) => map[
      "canonical" := JStr(a.canonical), "duplicate" := JStr(a.duplicate), "round" := JInt(a.round),
      "source" := JStr(a.source), "rationale" := JStr(a.rationale), "type" := JStr("alias")]
    case ResolutionRecord(r) => map[
      "claim_id" := JStr(r.claimId), "disposition" := JStr(r.disposition), "author" := JStr(r.author),
      "evidence" := JStr(r.evidence), "round" := JInt(r.round), "verified" := JStr(r.verified),
      "type" := JStr("resolution")]
  }

  // ---------- reading ----------

  function TextOf(value: Json): string {
    if value.JStr? then value.s else ""
  }

  function OptionalOf(value: Json): Option<string> {
    if value.JStr? then Some(value.s) else None
  }

  function TextsOf(value: Json): seq<string>
    requires value.JList?
  {
    seq(|value.items|, i requires 0 <= i < |value.items| => TextOf(value.items[i]))
  }

  function RoundOf(value: Json): int {
    if value.JInt? then value.n else 0
  }

  /** Exactly the declared fields and `type`, each of exactly a declared type. */
  predicate WellTyped(payload: map<string, Json>, fields: map<string, Shape>)
    requires fields.Keys <= payload.Keys
  {
    forall f | f in fields :: Fits(payload[f], fields[f])
  }

  function BuildClaim(payload: map<string, Json>): Claim
    requires CLAIM_FIELDS.Keys <= payload.Keys && payload["origin"].JList?
  {
    Claim(
      TextOf(payload["id"]), OptionalOf(payload["supersedes"]), TextsOf(payload["origin"]),
      TextOf(payload["lens"]), RoundOf(payload["round"]), payload["advisory"] == JBool(true),
      TextOf(payload["severity"]), TextOf(payload["claim"]), OptionalOf(payload["location"]),
      TextOf(payload["evidence"]), TextOf(payload["failure_scenario"]), TextOf(payload["suggested_fix"]))
  }

  function BuildVerdict(payload: map<string, Json>): Verdict
    requires VERDICT_FIELDS.Keys <= payload.Keys
  {
    Verdict(
      TextOf(payload["claim_id"]), TextOf(payload["judge"]), RoundOf(payload["round"]),
      TextOf(payload["verdict"]), TextOf(payload["confidence"]), TextOf(payload["evidence_assessment"]),
      TextOf(payload["reasoning"]), OptionalOf(payload["counter_evidence"]), OptionalOf(payload["amended_claim"]))
  }

  function BuildAlias(payload: map<string, Json>): Alias
    requires ALIAS_FIELDS.Keys <= payload.Keys
  {
    Alias(
      TextOf(payload["canonical"]), TextOf(payload["duplicate"]), RoundOf(payload["round"]),
      TextOf(payload["source"]), TextOf(payload["rationale"]))
  }

  function BuildResolution(payload: map<string, Json>): Resolution
    requires RESOLUTION_FIELDS.Keys <= payload.Keys
  {
    Resolution(
      TextOf(payload["claim_id"]), TextOf(payload["disposition"]), TextOf(payload["author"]),
      TextOf(payload["evidence"]), RoundOf(payload["round"]), TextOf(payload["verified"]))
  }

  function BuildRecord(kind: string, payload: map<string, Json>): Record
    requires KnownType(kind) && FieldTypes(kind).Keys <= payload.Keys
    requires WellTyped(payload, FieldTypes(kind))
  {
    if kind == "claim" then
      assert Fits(payload["origin"], CLAIM_FIELDS["origin"]);
      ClaimRecord(BuildClaim(payload))
    else if kind == "verdict" then VerdictRecord(BuildVerdict(payload))
    else if kind == "alias" then AliasRecord(BuildAlias(payload))
    else ResolutionRecord(BuildResolution(payload))
  }

  function RecordFromDict(value: Json): Result<Record, RecordError> {
    if !value.JDict? then Err(NotADict)
    else
      var payload, kind := value.fields, Get(value, "type");
      if !kind.JStr? then Err(TypeNotAString)
      else if !KnownType(kind.s) then Err(UnknownType)
      else
        var fields := FieldTypes(kind.s);
        if !(payload.Keys <= fields.Keys + {"type"}) then Err(UnexpectedKeys)
        else if !(fields.Keys <= payload.Keys) then Err(MissingKeys)
        else if !WellTyped(payload, fields) then Err(WrongFieldType)
        else if kind.s == "claim" && !AllTexts(payload["origin"]) then Err(OriginNotStrings)
        else Ok(BuildRecord(kind.s, payload))
  }

  predicate AllTexts(value: Json) {
    value.JList? ==> forall i | 0 <= i < |value.items| :: value.items[i].JStr?
  }

  // ---------- the two directions ----------

  lemma TextsRoundTrip(texts: seq<string>)
    ensures TextsJson(texts).JList? && TextsOf(TextsJson(texts)) == texts && AllTexts(TextsJson(texts))
  {
  }

  lemma TextsReadOnce(value: Json)
    requires value.JList? && AllTexts(value)
    ensures TextsJson(TextsOf(value)) == value
  {
    var items := value.items;
    assert TextsJson(TextsOf(value)).items == items;
  }

  // One lemma per kind and direction: the maps are large.

  lemma ClaimHead(c: Claim)
    ensures var payload := RecordToDict(ClaimRecord(c));
      && CLAIM_FIELDS.Keys <= payload.Keys && payload["id"] == JStr(c.id)
      && payload["supersedes"] == OptionalJson(c.supersedes) && payload["origin"] == TextsJson(c.origin)
      && payload["lens"] == JStr(c.lens) && payload["round"] == JInt(c.round)
      && payload["advisory"] == JBool(c.advisory)
  {
  }

  lemma ClaimTail(c: Claim)
    ensures var payload := RecordToDict(ClaimRecord(c));
      && CLAIM_FIELDS.Keys <= payload.Keys && payload["severity"] == JStr(c.severity)
      && payload["claim"] == JStr(c.claim) && payload["location"] == OptionalJson(c.location)
      && payload["evidence"] == JStr(c.evidence) && payload["failure_scenario"] == JStr(c.failureScenario)
      && payload["suggested_fix"] == JStr(c.suggestedFix)
  {
  }

  lemma ClaimTyped(c: Claim)
    ensures RecordToDict(ClaimRecord(c)).Keys == CLAIM_FIELDS.Keys + {"type"}
    ensures WellTyped(RecordToDict(ClaimRecord(c)), CLAIM_FIELDS)
    ensures RecordToDict(ClaimRecord(c))["type"] == JStr("claim")
  {
  }

  lemma VerdictBuilt(v: Verdict)
    ensures var payload := RecordToDict(VerdictRecord(v));
      payload.Keys == VERDICT_FIELDS.Keys + {"type"} && BuildVerdict(payload) == v
  {
  }

  lemma VerdictTyped(v: Verdict)
    ensures RecordToDict(VerdictRecord(v)).Keys == VERDICT_FIELDS.Keys + {"type"}
    ensures WellTyped(RecordToDict(VerdictRecord(v)), VERDICT_FIELDS)
    ensures RecordToDict(VerdictRecord(v))["type"] == JStr("verdict")
  {
  }

  lemma AliasWritten(a: Alias)
    ensures var payload := RecordToDict(AliasRecord(a));
      && payload.Keys == ALIAS_FIELDS.Keys + {"type"} && BuildAlias(payload) == a
      && WellTyped(payload, ALIAS_FIELDS) && payload["type"] == JStr("alias")
  {
  }

  lemma ResolutionWritten(r: Resolution)
    ensures var payload := RecordToDict(ResolutionRecord(r));
      && payload.Keys == RESOLUTION_FIELDS.Keys + {"type"} && BuildResolution(payload) == r
      && WellTyped(payload, RESOLUTION_FIELDS) && payload["type"] == JStr("resolution")
  {
  }

  /** The checks pass on any object with exactly the declared keys and types. */
  lemma ChecksPass(payload: map<string, Json>, kind: string)
    requires KnownType(kind) && "type" in payload && payload["type"] == JStr(kind)
    requires payload.Keys == FieldTypes(kind).Keys + {"type"} && WellTyped(payload, FieldTypes(kind))
    requires kind == "claim" ==> "origin" in payload && AllTexts(payload["origin"])
    ensures RecordFromDict(JDict(payload)) == Ok(BuildRecord(kind, payload))
  {
  }

  lemma ClaimFromParts(payload: map<string, Json>, c: Claim)
    requires CLAIM_FIELDS.Keys <= payload.Keys
    requires payload["id"] == JStr(c.id) && payload["supersedes"] == OptionalJson(c.supersedes)
    requires payload["origin"] == TextsJson(c.origin) && payload["lens"] == JStr(c.lens)
    requires payload["round"] == JInt(c.round) && payload["advisory"] == JBool(c.advisory)
    requires payload["severity"] == JStr(c.severity) && payload["claim"] == JStr(c.claim)
    requires payload["location"] == OptionalJson(c.location) && payload["evidence"] == JStr(c.evidence)
    requires payload["failure_scenario"] == JStr(c.failureScenario)
    requires payload["suggested_fix"] == JStr(c.suggestedFix)
    ensures BuildClaim(payload) == c
  {
    TextsRoundTrip(c.origin);
  }

  /** What is written is read back as the same record. */
  lemma ReadsWhatWasWritten(record: Record)
    ensures RecordFromDict(JDict(RecordToDict(record))) == Ok(record)
  {
    var payload := RecordToDict(record);
    match record
    case ClaimRecord(c) =>
      ClaimTyped(c);
      ClaimHead(c);
      ClaimTail(c);
      TextsRoundTrip(c.origin);
      ClaimFromParts(payload, c);
      ChecksPass(payload, "claim");
    case VerdictRecord(v) =>
      VerdictBuilt(v);
      VerdictTyped(v);
      ChecksPass(payload, "verdict");
    case AliasRecord(a) =>
      AliasWritten(a);
      ChecksPass(payload, "alias");
    case ResolutionRecord(r) =>
      ResolutionWritten(r);
      ChecksPass(payload, "resolution");
  }

  /** What passing the checks means. */
  lemma ChecksPassed(value: Json, record: Record)
    requires RecordFromDict(value) == Ok(record)
    ensures value.JDict? && "type" in value.fields && value.fields["type"] == JStr(TypeName(record))
    ensures value.fields.Keys == FieldTypes(TypeName(record)).Keys + {"type"}
    ensures WellTyped(value.fields, FieldTypes(TypeName(record)))
    ensures record == BuildRecord(TypeName(record), value.fields)
    ensures record.ClaimRecord? ==> AllTexts(value.fields["origin"])
  {
    assert "type" in value.fields;
  }

  lemma ClaimHeadTypes(payload: map<string, Json>)
    requires CLAIM_FIELDS.Keys <= payload.Keys && WellTyped(payload, CLAIM_FIELDS)
    ensures payload["id"].JStr? && Fits(payload["supersedes"], OptionalText) && payload["lens"].JStr?
    ensures payload["round"].JInt? && payload["advisory"].JBool? && payload["severity"].JStr?
  {
    forall key | key in CLAIM_FIELDS
      ensures Fits(payload[key], CLAIM_FIELDS[key])
    {
    }
  }

  lemma ClaimTailTypes(payload: map<string, Json>)
    requires CLAIM_FIELDS.Keys <= payload.Keys && WellTyped(payload, CLAIM_FIELDS)
    ensures payload["claim"].JStr? && Fits(payload["location"], OptionalText) && payload["evidence"].JStr?
    ensures payload["failure_scenario"].JStr? && payload["suggested_fix"].JStr?
  {
    forall key | key in CLAIM_FIELDS
      ensures Fits(payload[key], CLAIM_FIELDS[key])
    {
    }
  }

  /** A claim built from `payload` holds its fields unchanged. */
  lemma ClaimParts(payload: map<string, Json>, c: Claim)
    requires payload.Keys == CLAIM_FIELDS.Keys + {"type"} && payload["type"] == JStr("claim")
    requires WellTyped(payload, CLAIM_FIELDS) && AllTexts(payload["origin"]) && payload["origin"].JList?
    requires c == BuildClaim(payload)
    ensures payload["id"] == JStr(c.id) && payload["supersedes"] == OptionalJson(c.supersedes)
    ensures payload["origin"] == TextsJson(c.origin) && payload["lens"] == JStr(c.lens)
    ensures payload["round"] == JInt(c.round) && payload["advisory"] == JBool(c.advisory)
    ensures payload["severity"] == JStr(c.severity) && payload["claim"] == JStr(c.claim)
    ensures payload["location"] == OptionalJson(c.location) && payload["evidence"] == JStr(c.evidence)
    ensures payload["failure_scenario"] == JStr(c.failureScenario)
    ensures payload["suggested_fix"] == JStr(c.suggestedFix)
  {
    ClaimHeadTypes(payload);
    ClaimTailTypes(payload);
    TextsReadOnce(payload["origin"]);
  }

  lemma ClaimReadOnce(payload: map<string, Json>)
    requires payload.Keys == CLAIM_FIELDS.Keys + {"type"} && payload["type"] == JStr("claim")
    requires WellTyped(payload, CLAIM_FIELDS) && AllTexts(payload["origin"]) && payload["origin"].JList?
    ensures RecordToDict(ClaimRecord(BuildClaim(payload))) == payload
  {
    var c := BuildClaim(payload);
    ClaimParts(payload, c);
    ClaimTyped(c);
    ClaimHead(c);
    ClaimTail(c);
    SameClaimFields(payload, RecordToDict(ClaimRecord(c)));
  }

  lemma SameClaimFields(left: map<string, Json>, right: map<string, Json>)
    requires left.Keys == right.Keys == CLAIM_FIELDS.Keys + {"type"} && left["type"] == right["type"]
    requires left["id"] == right["id"] && left["supersedes"] == right["supersedes"]
    requires left["origin"] == right["origin"] && left["lens"] == right["lens"]
    requires left["round"] == right["round"] && left["advisory"] == right["advisory"]
    requires left["severity"] == right["severity"] && left["claim"] == right["claim"]
    requires left["location"] == right["location"] && left["evidence"] == right["evidence"]
    requires left["failure_scenario"] == right["failure_scenario"]
    requires left["suggested_fix"] == right["suggested_fix"]
    ensures left == right
  {
  }

  lemma VerdictTypes(payload: map<string, Json>)
    requires VERDICT_FIELDS.Keys <= payload.Keys && WellTyped(payload, VERDICT_FIELDS)
    ensures payload["claim_id"].JStr? && payload["judge"].JStr? && payload["round"].JInt?
    ensures payload["verdict"].JStr? && payload["confidence"].JStr? && payload["evidence_assessment"].JStr?
    ensures payload["reasoning"].JStr? && Fits(payload["counter_evidence"], OptionalText)
    ensures Fits(payload["amended_claim"], OptionalText)
  {
    forall key | key in VERDICT_FIELDS
      ensures Fits(payload[key], VERDICT_FIELDS[key])
    {
    }
  }

  lemma VerdictReadOnce(payload: map<string, Json>)
    requires payload.Keys == VERDICT_FIELDS.Keys + {"type"} && payload["type"] == JStr("verdict")
    requires WellTyped(payload, VERDICT_FIELDS)
    ensures RecordToDict(VerdictRecord(BuildVerdict(payload))) == payload
  {
    var v := BuildVerdict(payload);
    VerdictTypes(payload);
    VerdictTyped(v);
    VerdictParts(v);
    SameVerdictFields(payload, RecordToDict(VerdictRecord(v)));
  }

  lemma VerdictParts(v: Verdict)
    ensures var payload := RecordToDict(VerdictRecord(v));
      && VERDICT_FIELDS.Keys <= payload.Keys && payload["claim_id"] == JStr(v.claimId)
      && payload["judge"] == JStr(v.judge) && payload["round"] == JInt(v.round)
      && payload["verdict"] == JStr(v.verdict) && payload["confidence"] == JStr(v.confidence)
      && payload["evidence_assessment"] == JStr(v.evidenceAssessment) && payload["reasoning"] == JStr(v.reasoning)
      && payload["counter_evidence"] == OptionalJson(v.counterEvidence)
      && payload["amended_claim"] == OptionalJson(v.amendedClaim)
  {
  }

  lemma SameVerdictFields(left: map<string, Json>, right: map<string, Json>)
    requires left.Keys == right.Keys == VERDICT_FIELDS.Keys + {"type"} && left["type"] == right["type"]
    requires left["claim_id"] == right["claim_id"] && left["judge"] == right["judge"]
    requires left["round"] == right["round"] && left["verdict"] == right["verdict"]
    requires left["confidence"] == right["confidence"] && left["reasoning"] == right["reasoning"]
    requires left["evidence_assessment"] == right["evidence_assessment"]
    requires left["counter_evidence"] == right["counter_evidence"]
    requires left["amended_claim"] == right["amended_claim"]
    ensures left == right
  {
  }

  lemma AliasReadOnce(payload: map<string, Json>)
    requires payload.Keys == ALIAS_FIELDS.Keys + {"type"} && payload["type"] == JStr("alias")
    requires WellTyped(payload, ALIAS_FIELDS)
    ensures RecordToDict(AliasRecord(BuildAlias(payload))) == payload
  {
    var again := RecordToDict(AliasRecord(BuildAlias(payload)));
    assert again.Keys == payload.Keys;
    forall key | key in payload
      ensures again[key] == payload[key]
    {
      if key in ALIAS_FIELDS {
        assert Fits(payload[key], ALIAS_FIELDS[key]);
      }
    }
  }

  lemma ResolutionReadOnce(payload: map<string, Json>)
    requires payload.Keys == RESOLUTION_FIELDS.Keys + {"type"} && payload["type"] == JStr("resolution")
    requires WellTyped(payload, RESOLUTION_FIELDS)
    ensures RecordToDict(ResolutionRecord(BuildResolution(payload))) == payload
  {
    var again := RecordToDict(ResolutionRecord(BuildResolution(payload)));
    assert again.Keys == payload.Keys;
    forall key | key in payload
      ensures again[key] == payload[key]
    {
      if key in RESOLUTION_FIELDS {
        assert Fits(payload[key], RESOLUTION_FIELDS[key]);
      }
    }
  }

  /** Nothing else is read as that record: an accepted object is the one the
      record would be written as, with no key or value to spare. */
  lemma AcceptedIsWritten(value: Json, record: Record)
    requires RecordFromDict(value) == Ok(record)
    ensures value == JDict(RecordToDict(record))
  {
    ChecksPassed(value, record);
    match record
    case ClaimRecord(c) =>
      assert Fits(value.fields["origin"], CLAIM_FIELDS["origin"]);
      ClaimReadOnce(value.fields);
    case VerdictRecord(v) => VerdictReadOnce(value.fields);
    case AliasRecord(a) => AliasReadOnce(value.fields);
    case ResolutionRecord(r) => ResolutionReadOnce(value.fields);
  }

  /** The ends of an alias are read from under their own names. */
  lemma AliasByName(value: Json, a: Alias)
    requires RecordFromDict(value) == Ok(AliasRecord(a))
    ensures Get(value, "canonical") == JStr(a.canonical) && Get(value, "duplicate") == JStr(a.duplicate)
  {
    AcceptedIsWritten(value, AliasRecord(a));
  }

  /** So are the claim, the judge and the vote of a verdict. */
  lemma VerdictByName(value: Json, v: Verdict)
    requires RecordFromDict(value) == Ok(VerdictRecord(v))
    ensures Get(value, "claim_id") == JStr(v.claimId) && Get(value, "judge") == JStr(v.judge)
    ensures Get(value, "verdict") == JStr(v.verdict)
  {
    AcceptedIsWritten(value, VerdictRecord(v));
    VerdictParts(v);
  }
}
