/** Judging batches that survive a crash: what is written, in which order, and what
    is read back from files nobody vouches for. */
module JudgeBatch {
  import opened JsonData
  import opened LedgerRecords
  import opened Records
  import opened Sequences
  import opened Wrappers

  type Bytes = seq<int>

  /** The files of one friend in one round. */
  datatype Files = Files(
    audit: Option<Bytes>, prompt: Option<Bytes>, raw: Option<Bytes>, meta: Option<Bytes>,
    err: Option<Bytes>, parsed: Option<Bytes>)

  datatype Friend = Friend(name: string, key: string)

  /** JSON as bytes and back within the bounds of a file, text as bytes, SHA-256 in
      hexadecimal, and the check of a saved friend row. */
  datatype Host = Host(
    encode: Json -> Bytes, decode: Bytes -> Option<Json>, utf8: string -> Bytes, hash: Bytes -> string,
    normalizeRow: (Json, Friend) -> Option<Json>)

  /** What was encoded reads back as itself or, beyond a bound, not at all; different
      bytes hash differently. */
  ghost predicate Sound(host: Host) {
    && (forall j: Json :: host.decode(host.encode(j)) == None || host.decode(host.encode(j)) == Some(j))
    && (forall b: Bytes, c: Bytes | host.hash(b) == host.hash(c) :: b == c)
  }

  const MAX_JSON_FILE_BYTES := 32 * 1024 * 1024

  /** `read_owned_bytes`, which raises when there is no file or it is too large. */
  function Owned(file: Option<Bytes>): Option<Bytes> {
    if file.Some? && |file.value| <= MAX_JSON_FILE_BYTES then file else None
  }

  /** The JSON in a file, or none if reading or decoding it raises. */
  function DecodeOwned(host: Host, file: Option<Bytes>): Option<Json> {
    if Owned(file).None? then None else host.decode(file.value)
  }

  function Digest(host: Host, payload: Bytes): Json {
    JStr("sha256:" + host.hash(payload))
  }

  // ---------- what is written ----------

  function Capture(host: Host, file: Option<Bytes>): Json {
    if file.Some? then Digest(host, file.value) else JNull
  }

  function ResultCaptures(host: Host, files: Files): map<string, Json> {
    map["prompt" := Capture(host, files.prompt), "raw" := Capture(host, files.raw),
        "meta" := Capture(host, files.meta), "err" := Capture(host, files.err)]
  }

  /** The audit of a friend's result: version 1, without a batch. */
  function ResultAudit(host: Host, files: Files, round: int, friend: Friend, row: Json): Json {
    JDict(map["version" := JInt(1), "round" := JInt(round), "name" := JStr(friend.name), "row" := row,
              "captures" := JDict(ResultCaptures(host, files))])
  }

  function VerdictsJson(verdicts: seq<Verdict>): seq<Json> {
    if verdicts == [] then []
    else VerdictsJson(verdicts[..|verdicts| - 1]) + [JDict(RecordToDict(VerdictRecord(verdicts[|verdicts| - 1])))]
  }

  function Judging(friend: Friend, shown: seq<string>, omitted: seq<string>, verdicts: seq<Verdict>): Json {
    JDict(map["complete" := JBool(true), "judge" := JStr(friend.key), "shown_claim_ids" := TextsJson(shown),
              "omitted_claim_ids" := TextsJson(omitted), "verdicts" := JList(VerdictsJson(verdicts))])
  }

  function ParsedBatch(row: Json, judging: Json): Json {
    JDict(map["row" := row, "judging" := judging])
  }

  const AUDIT_KEYS: set<string> := {"version", "round", "name", "row", "captures"}
  const JUDGING_KEYS: set<string> := {"complete", "judge", "shown_claim_ids", "omitted_claim_ids", "verdicts"}
  const CAPTURES: set<string> := {"prompt", "raw", "meta", "err"}

  /** `{**base, "version": 2, "captures": ..., "judging": ...}`. */
  function BatchAudit(host: Host, base: map<string, Json>, judging: Json, parsed: Bytes): Json {
    var captures := Get(JDict(base), "captures");
    var bound := (if captures.JDict? then captures.fields else map[])["parsed" := Digest(host, parsed)];
    JDict(base["version" := JInt(2)]["captures" := JDict(bound)]["judging" := judging])
  }

  /** The base audit of `persist_judging_batch`, if it may be upgraded. */
  function UpgradableBase(host: Host, files: Files, round: int, friend: Friend, row: Json): Option<map<string, Json>> {
    var base := DecodeOwned(host, files.audit);
    if base.None? || !base.value.JDict? || base.value.fields.Keys != AUDIT_KEYS then None
    else
      var fields := base.value.fields;
      if fields["version"] == JInt(1) && fields["round"] == JInt(round) && fields["name"] == JStr(friend.name)
         && fields["row"] == row && fields["captures"].JDict?
      then Some(fields) else None
  }

  // ---------- what is read ----------

  datatype Recovery = Nothing | Refused | Batch(row: Json, verdicts: seq<Verdict>, omitted: seq<string>)

  function ClaimIds(verdicts: seq<Verdict>): seq<string> {
    if verdicts == [] then [] else ClaimIds(verdicts[..|verdicts| - 1]) + [verdicts[|verdicts| - 1].claimId]
  }

  predicate Distinct(ids: seq<string>) {
    forall i, j | 0 <= i < j < |ids| :: ids[i] != ids[j]
  }

  /** The verdict records of one judge and round; none if any is something else. */
  function ReadVerdicts(raws: seq<Json>, round: int, friend: Friend): Option<seq<Verdict>> {
    if raws == [] then Some([])
    else
      var before, record := ReadVerdicts(raws[..|raws| - 1], round, friend), RecordFromDict(raws[|raws| - 1]);
      if before.None? || record.Err? || !record.value.VerdictRecord? then None
      else if record.value.verdict.judge != friend.key || record.value.verdict.round != round then None
      else Some(before.value + [record.value.verdict])
  }

  lemma {:induction false} BadForGood(raws: seq<Json>, n: nat, round: int, friend: Friend)
    requires n <= |raws| && ReadVerdicts(raws[..n], round, friend).None?
    ensures ReadVerdicts(raws, round, friend).None?
    decreases |raws|
  {
    if n == |raws| {
      assert raws[..n] == raws;
    } else {
      assert raws[..|raws| - 1][..n] == raws[..n];
      BadForGood(raws[..|raws| - 1], n, round, friend);
    }
  }

  /** The loop over the raw verdicts; it raises at the first that is none. */
  method CollectVerdicts(raws: seq<Json>, round: int, friend: Friend) returns (verdicts: Option<seq<Verdict>>)
    ensures verdicts == ReadVerdicts(raws, round, friend)
  {
    var all: seq<Verdict> := [];
    for n := 0 to |raws|
      invariant ReadVerdicts(raws[..n], round, friend) == Some(all)
    {
      TakeOneMore(raws, n);
      var record := RecordFromDict(raws[n]);
      if record.Err? || !record.value.VerdictRecord?
         || record.value.verdict.judge != friend.key || record.value.verdict.round != round {
        BadForGood(raws, n + 1, round, friend);
        return None;
      }
      all := all + [record.value.verdict];
    }
    assert raws[..|raws|] == raws;
    return Some(all);
  }

  /** Those of `shown` without a verdict, in order. */
  function Without(shown: seq<string>, ids: seq<string>): seq<string> {
    if shown == [] then []
    else
      var before, id := Without(shown[..|shown| - 1], ids), shown[|shown| - 1];
      if id in ids then before else before + [id]
  }

  /** The batch inside an audit, if it is complete and matches the prompt's slice. */
  function ReadBatch(judging: Json, round: int, friend: Friend, shown: seq<string>): Option<(seq<Verdict>, seq<string>)> {
    if !judging.JDict? || judging.fields.Keys != JUDGING_KEYS || judging.fields["complete"] != JBool(true) then None
    else if judging.fields["judge"] != JStr(friend.key) || judging.fields["shown_claim_ids"] != TextsJson(shown) then None
    else
      var omitted, raws := judging.fields["omitted_claim_ids"], judging.fields["verdicts"];
      if !omitted.JList? || !AllTexts(omitted) || !Distinct(TextsOf(omitted)) || !raws.JList? then None
      else
        var verdicts := ReadVerdicts(raws.items, round, friend);
        if verdicts.None? then None
        else
          var ids := ClaimIds(verdicts.value);
          if !Distinct(ids) || !(forall id | id in ids :: id in shown) then None
          else if TextsOf(omitted) != Without(shown, ids) then None
          else Some((verdicts.value, TextsOf(omitted)))
  }

  function FileOf(files: Files, which: string): Option<Bytes> {
    if which == "prompt" then files.prompt
    else if which == "raw" then files.raw
    else if which == "meta" then files.meta
    else if which == "err" then files.err
    else files.parsed
  }

  /** One capture against the file it binds; only the prompt has to be bound. */
  predicate CaptureHolds(host: Host, files: Files, captures: map<string, Json>, which: string)
    requires which in captures
  {
    if captures[which] == JNull then which != "prompt"
    else Owned(FileOf(files, which)).Some? && captures[which] == Digest(host, FileOf(files, which).value)
  }

  /** `recover_result_audit` on an audit of version 2. */
  function RecoverRow(host: Host, files: Files, friend: Friend, data: map<string, Json>): Option<Json>
    requires data.Keys == AUDIT_KEYS + {"judging"}
  {
    var captures := data["captures"];
    var row := host.normalizeRow(data["row"], friend);
    if row.None? || !captures.JDict? || captures.fields.Keys != CAPTURES + {"parsed"} then None
    else if !(forall which | which in captures.fields :: CaptureHolds(host, files, captures.fields, which)) then None
    else row
  }

  /** An audit of version 2, with everything around its batch. */
  function RecoverBatch(host: Host, files: Files, round: int, friend: Friend, shown: seq<string>, promptText: string,
                        data: map<string, Json>): Recovery
  {
    if data.Keys != AUDIT_KEYS + {"judging"} then Refused
    else if data["round"] != JInt(round) || data["name"] != JStr(friend.name) then Refused
    else
      var batch := ReadBatch(data["judging"], round, friend, shown);
      var captures := data["captures"];
      if batch.None? then Refused
      else if Get(captures, "prompt") != Digest(host, host.utf8(promptText)) then Refused
      else if Owned(files.parsed).None? || Get(captures, "parsed") != Digest(host, files.parsed.value) then Refused
      else if host.decode(files.parsed.value) != Some(ParsedBatch(data["row"], data["judging"])) then Refused
      else
        var row := RecoverRow(host, files, friend, data);
        if row.None? then Refused else Batch(row.value, batch.value.0, batch.value.1)
  }

  function Recover(host: Host, files: Files, round: int, friend: Friend, shown: seq<string>, promptText: string,
                   alreadyDurable: bool): Recovery
  {
    if files.audit.None? then Nothing
    else
      var data := DecodeOwned(host, files.audit);
      if data.None? || !data.value.JDict? then Refused
      else if Get(data.value, "version") == JInt(1) then (if alreadyDurable then Nothing else Refused)
      else if Get(data.value, "version") != JInt(2) then Nothing
      else RecoverBatch(host, files, round, friend, shown, promptText, data.value.fields)
  }

  /** The claims a persisted batch records a vote on; empty for anything else. */
  function DurableIds(host: Host, files: Files, friend: Friend): set<string> {
    if files.audit.None? then {}
    else
      var data := DecodeOwned(host, files.audit);
      if data.None? || !data.value.JDict? || Get(data.value, "version") != JInt(2) then {}
      else
        var judging := Get(data.value, "judging");
        if !judging.JDict? || Get(judging, "complete") != JBool(true) || Get(judging, "judge") != JStr(friend.key) then {}
        else
          var raws := Get(judging, "verdicts");
          if !raws.JList? then {}
          else set raw | raw in raws.items && raw.JDict? && Get(raw, "claim_id").JStr? :: Get(raw, "claim_id").s
  }

  /** `require_corroborated_verdicts` raises nothing. */
  predicate Corroborated(host: Host, files: Files, friend: Friend, durable: seq<string>) {
    forall id | id in durable :: id in DurableIds(host, files, friend)
  }

  // ---------- what any returned batch is ----------

  lemma ReadLast(raws: seq<Json>, round: int, friend: Friend) returns (before: seq<Verdict>, v: Verdict)
    requires raws != [] && ReadVerdicts(raws, round, friend).Some?
    ensures ReadVerdicts(raws[..|raws| - 1], round, friend) == Some(before)
    ensures ReadVerdicts(raws, round, friend) == Some(before + [v])
    ensures RecordFromDict(raws[|raws| - 1]) == Ok(VerdictRecord(v)) && v.judge == friend.key && v.round == round
  {
    before := ReadVerdicts(raws[..|raws| - 1], round, friend).value;
    v := RecordFromDict(raws[|raws| - 1]).value.verdict;
  }

  lemma OneMoreWritten(before: seq<Verdict>, v: Verdict)
    ensures VerdictsJson(before + [v]) == VerdictsJson(before) + [JDict(RecordToDict(VerdictRecord(v)))]
  {
    DropLast(before, v);
  }

  lemma {:induction false} ReadVerdictsMeaning(raws: seq<Json>, round: int, friend: Friend)
    requires ReadVerdicts(raws, round, friend).Some?
    ensures var verdicts := ReadVerdicts(raws, round, friend).value;
      && raws == VerdictsJson(verdicts)
      && forall v | v in verdicts :: v.judge == friend.key && v.round == round
  {
    if raws != [] {
      var head, last := raws[..|raws| - 1], raws[|raws| - 1];
      var before, v := ReadLast(raws, round, friend);
      ReadVerdictsMeaning(head, round, friend);
      AcceptedIsWritten(last, VerdictRecord(v));
      OneMoreWritten(before, v);
      OneMoreMeant(raws, head, last, round, friend, before, v);
    }
  }

  lemma OneMoreMeant(raws: seq<Json>, head: seq<Json>, last: Json, round: int, friend: Friend,
                     before: seq<Verdict>, v: Verdict)
    requires raws != [] && head == raws[..|raws| - 1] && last == raws[|raws| - 1]
    requires head == VerdictsJson(before) && VerdictsJson(before + [v]) == VerdictsJson(before) + [last]
    requires v.judge == friend.key && v.round == round
    requires forall w | w in before :: w.judge == friend.key && w.round == round
    ensures raws == VerdictsJson(before + [v])
    ensures forall w | w in before + [v] :: w.judge == friend.key && w.round == round
  {
    assert raws == head + [last];
  }

  lemma {:induction false} WithoutMeaning(shown: seq<string>, ids: seq<string>, id: string)
    ensures id in Without(shown, ids) <==> id in shown && id !in ids
  {
    if shown != [] {
      assert shown == shown[..|shown| - 1] + [shown[|shown| - 1]];
      WithoutMeaning(shown[..|shown| - 1], ids, id);
    }
  }

  lemma ReadPartitionsSlice(judging: Json, round: int, friend: Friend, shown: seq<string>, id: string)
    requires ReadBatch(judging, round, friend, shown).Some?
    ensures var (verdicts, omitted) := ReadBatch(judging, round, friend, shown).value;
      && (id in shown <==> id in ClaimIds(verdicts) || id in omitted)
      && !(id in ClaimIds(verdicts) && id in omitted)
      && Distinct(ClaimIds(verdicts)) && Distinct(omitted)
      && forall v | v in verdicts :: v.judge == friend.key && v.round == round
  {
    var (verdicts, omitted) := ReadBatch(judging, round, friend, shown).value;
    ReadVerdictsMeaning(judging.fields["verdicts"].items, round, friend);
    WithoutMeaning(shown, ClaimIds(verdicts), id);
  }

  /** Whatever the files hold: a returned batch splits the slice that was shown, without
      remainder or overlap, into votes of this judge and round, and omissions. */
  lemma BatchPartitionsSlice(host: Host, files: Files, round: int, friend: Friend, shown: seq<string>,
                             promptText: string, alreadyDurable: bool, id: string)
    requires Recover(host, files, round, friend, shown, promptText, alreadyDurable).Batch?
    ensures var batch := Recover(host, files, round, friend, shown, promptText, alreadyDurable);
      && (id in shown <==> id in ClaimIds(batch.verdicts) || id in batch.omitted)
      && !(id in ClaimIds(batch.verdicts) && id in batch.omitted)
      && Distinct(ClaimIds(batch.verdicts)) && Distinct(batch.omitted)
      && forall v | v in batch.verdicts :: v.judge == friend.key && v.round == round
  {
    var data := DecodeOwned(host, files.audit).value.fields;
    ReadPartitionsSlice(data["judging"], round, friend, shown, id);
  }

  /** What vouches for a returned batch: a complete audit of version 2, of this round, friend
      and slice, whose prompt is the reconstructed one and on disk, and whose row and
      judging stand word for word in the parsed file it binds. */
  lemma BatchIsVouchedFor(host: Host, files: Files, round: int, friend: Friend, shown: seq<string>,
                          promptText: string, alreadyDurable: bool)
    requires Sound(host) && Recover(host, files, round, friend, shown, promptText, alreadyDurable).Batch?
    ensures DecodeOwned(host, files.audit).Some? && DecodeOwned(host, files.audit).value.JDict?
    ensures var data := DecodeOwned(host, files.audit).value;
      && data.fields.Keys == AUDIT_KEYS + {"judging"} && Get(data, "version") == JInt(2)
      && Get(data, "round") == JInt(round) && Get(data, "name") == JStr(friend.name)
      && Get(Get(data, "judging"), "complete") == JBool(true) && Get(Get(data, "judging"), "judge") == JStr(friend.key)
      && Get(Get(data, "judging"), "shown_claim_ids") == TextsJson(shown)
      && files.prompt == Some(host.utf8(promptText))
      && DecodeOwned(host, files.parsed) == Some(ParsedBatch(Get(data, "row"), Get(data, "judging")))
      && host.normalizeRow(Get(data, "row"), friend)
           == Some(Recover(host, files, round, friend, shown, promptText, alreadyDurable).row)
  {
    var data := DecodeOwned(host, files.audit).value.fields;
    var captures := data["captures"].fields;
    assert "prompt" in captures && CaptureHolds(host, files, captures, "prompt");
    SameDigest(host, files.prompt.value, host.utf8(promptText));
  }

  /** An audit of any other version holds no batch and vouches for nothing. */
  lemma OtherVersions(host: Host, files: Files, round: int, friend: Friend, shown: seq<string>,
                      promptText: string, alreadyDurable: bool, data: Json)
    requires DecodeOwned(host, files.audit) == Some(data) && data.JDict?
    requires Get(data, "version") != JInt(1) && Get(data, "version") != JInt(2)
    ensures Recover(host, files, round, friend, shown, promptText, alreadyDurable) == Nothing
    ensures DurableIds(host, files, friend) == {}
  {
  }

  // ---------- a batch that was written ----------

  ghost predicate WellFormed(round: int, friend: Friend, shown: seq<string>, verdicts: seq<Verdict>) {
    && Distinct(shown) && Distinct(ClaimIds(verdicts))
    && (forall id | id in ClaimIds(verdicts) :: id in shown)
    && forall v | v in verdicts :: v.judge == friend.key && v.round == round
  }

  lemma ReadsOneMore(round: int, friend: Friend, head: seq<Json>, last: Json, before: seq<Verdict>, v: Verdict)
    requires ReadVerdicts(head, round, friend) == Some(before)
    requires RecordFromDict(last) == Ok(VerdictRecord(v)) && v.judge == friend.key && v.round == round
    ensures ReadVerdicts(head + [last], round, friend) == Some(before + [v])
  {
    assert (head + [last])[..|head|] == head;
  }

  lemma {:induction false} ReadsVerdicts(round: int, friend: Friend, verdicts: seq<Verdict>)
    requires forall v | v in verdicts :: v.judge == friend.key && v.round == round
    ensures ReadVerdicts(VerdictsJson(verdicts), round, friend) == Some(verdicts)
  {
    if verdicts != [] {
      var head, last := verdicts[..|verdicts| - 1], verdicts[|verdicts| - 1];
      assert verdicts == head + [last];
      ReadsVerdicts(round, friend, head);
      var raw := JDict(RecordToDict(VerdictRecord(last)));
      assert RecordFromDict(raw) == Ok(VerdictRecord(last)) by {
        ReadsWhatWasWritten(VerdictRecord(last));
      }
      ReadsOneMore(round, friend, VerdictsJson(head), raw, head, last);
    }
  }

  lemma {:induction false} WithoutDistinct(shown: seq<string>, ids: seq<string>)
    requires Distinct(shown)
    ensures Distinct(Without(shown, ids))
  {
    if shown != [] {
      WithoutDistinct(shown[..|shown| - 1], ids);
      WithoutMeaning(shown[..|shown| - 1], ids, shown[|shown| - 1]);
    }
  }

  lemma JudgingFields(friend: Friend, shown: seq<string>, omitted: seq<string>, verdicts: seq<Verdict>)
    ensures var j := Judging(friend, shown, omitted, verdicts).fields;
      && j.Keys == JUDGING_KEYS && j["complete"] == JBool(true) && j["judge"] == JStr(friend.key)
      && j["shown_claim_ids"] == TextsJson(shown) && j["omitted_claim_ids"] == TextsJson(omitted)
      && j["verdicts"] == JList(VerdictsJson(verdicts))
  {
  }

  /** What was written is read back under the same slice, and under no other. */
  lemma ReadsBatch(round: int, friend: Friend, shown: seq<string>, verdicts: seq<Verdict>, others: seq<string>)
    requires WellFormed(round, friend, shown, verdicts)
    ensures var omitted := Without(shown, ClaimIds(verdicts));
      ReadBatch(Judging(friend, shown, omitted, verdicts), round, friend, others)
      == if others == shown then Some((verdicts, omitted)) else None
  {
    var omitted := Without(shown, ClaimIds(verdicts));
    JudgingFields(friend, shown, omitted, verdicts);
    WithoutDistinct(shown, ClaimIds(verdicts));
    ReadsVerdicts(round, friend, verdicts);
    TextsRoundTrip(omitted);
    TextsRoundTrip(shown);
    TextsRoundTrip(others);
  }

  // ---------- persisting, step by step ----------

  /** The files after `writes` of the two atomic writes, if the audit may be upgraded. */
  function Persisted(host: Host, files: Files, round: int, friend: Friend, row: Json, judging: Json, writes: nat): Files {
    var base := UpgradableBase(host, files, round, friend, row);
    if base.None? || writes == 0 then files
    else
      var parsed := host.encode(ParsedBatch(row, judging));
      var half := files.(parsed := Some(parsed));
      if writes == 1 then half else half.(audit := Some(host.encode(BatchAudit(host, base.value, judging, parsed))))
  }

  class FriendStore {
    var files: Files

    constructor (files: Files)
      ensures this.files == files
    {
      this.files := files;
    }

    /** `persist_judging_batch`; the process dies, or a write fails, after `writes`
        of its writes. */
    method PersistJudgingBatch(host: Host, round: int, friend: Friend, row: Json, shown: seq<string>,
                               omitted: seq<string>, verdicts: seq<Verdict>, writes: nat) returns (refused: bool)
      modifies this
      ensures refused <==> UpgradableBase(host, old(files), round, friend, row).None?
      ensures files == Persisted(host, old(files), round, friend, row, Judging(friend, shown, omitted, verdicts), writes)
    {
      var base := DecodeOwned(host, files.audit);
      if base.None? || !base.value.JDict? || base.value.fields.Keys != AUDIT_KEYS {
        return true;
      }
      var fields := base.value.fields;
      if fields["version"] != JInt(1) || fields["round"] != JInt(round) || fields["name"] != JStr(friend.name) {
        return true;
      }
      if fields["row"] != row || !fields["captures"].JDict? {
        return true;
      }
      var judging := Judging(friend, shown, omitted, verdicts);
      var parsed := host.encode(ParsedBatch(row, judging));
      if writes >= 1 {
        files := files.(parsed := Some(parsed));
      }
      if writes >= 2 {
        files := files.(audit := Some(host.encode(BatchAudit(host, fields, judging, parsed))));
      }
      refused := false;
    }
  }

  lemma ResultAuditFields(host: Host, files: Files, round: int, friend: Friend, row: Json)
    ensures var d := ResultAudit(host, files, round, friend, row).fields;
      && d.Keys == AUDIT_KEYS && d["version"] == JInt(1) && d["round"] == JInt(round)
      && d["name"] == JStr(friend.name) && d["row"] == row && d["captures"] == JDict(ResultCaptures(host, files))
  {
  }

  lemma BatchAuditFields(host: Host, base: map<string, Json>, judging: Json, parsed: Bytes)
    requires base.Keys == AUDIT_KEYS && base["captures"].JDict?
    ensures var d := BatchAudit(host, base, judging, parsed).fields;
      && d.Keys == AUDIT_KEYS + {"judging"} && d["version"] == JInt(2) && d["round"] == base["round"]
      && d["name"] == base["name"] && d["row"] == base["row"] && d["judging"] == judging
      && d["captures"] == JDict(base["captures"].fields["parsed" := Digest(host, parsed)])
  {
  }

  /** The files before judging: no audit yet, or the one of the friend's result. */
  ghost predicate BeforeJudging(host: Host, files: Files, round: int, friend: Friend, row: Json) {
    files.audit == None || files.audit == Some(host.encode(ResultAudit(host, files, round, friend, row)))
  }

  /** The file is there, within the reader's bound, and decodes. */
  ghost predicate Legible(host: Host, file: Option<Bytes>) {
    file.Some? && |file.value| <= MAX_JSON_FILE_BYTES && host.decode(file.value).Some?
  }

  /** The audit of a friend's result is upgraded exactly for this round, friend and row. */
  lemma UpgradesExactly(host: Host, before: Files, round: int, friend: Friend, row: Json, files: Files,
                        round': int, friend': Friend, row': Json)
    requires Sound(host) && files.audit == Some(host.encode(ResultAudit(host, before, round, friend, row)))
    ensures UpgradableBase(host, files, round', friend', row').Some?
       <==> Legible(host, files.audit) && round' == round && friend'.name == friend.name && row' == row
  {
    ResultAuditFields(host, before, round, friend, row);
  }

  /** Until both writes are done there is no batch to recover: without an audit there is
      nothing; an audit that cannot be read is refused; one that can is refused exactly if
      some verdict is not in the ledger yet. */
  lemma NoBatchBefore(host: Host, files: Files, round: int, friend: Friend, row: Json, judging: Json, writes: nat,
                      shown: seq<string>, promptText: string, alreadyDurable: bool)
    requires Sound(host) && BeforeJudging(host, files, round, friend, row)
    requires writes < 2 || UpgradableBase(host, files, round, friend, row).None?
    ensures var after := Persisted(host, files, round, friend, row, judging, writes);
      && DurableIds(host, after, friend) == {}
      && Recover(host, after, round, friend, shown, promptText, alreadyDurable) ==
           if files.audit.None? then Nothing
           else if !Legible(host, files.audit) then Refused
           else if alreadyDurable then Nothing
           else Refused
  {
    ResultAuditFields(host, files, round, friend, row);
  }

  /** The audit that a complete batch leaves. */
  ghost function WholeAudit(host: Host, files: Files, round: int, friend: Friend, row: Json, judging: Json): Json {
    BatchAudit(host, ResultAudit(host, files, round, friend, row).fields, judging,
               host.encode(ParsedBatch(row, judging)))
  }

  lemma UpgradedAudit(host: Host, files: Files, round: int, friend: Friend, row: Json, judging: Json, writes: nat)
    requires Sound(host) && BeforeJudging(host, files, round, friend, row) && writes >= 2
    requires UpgradableBase(host, files, round, friend, row).Some?
    ensures var after := Persisted(host, files, round, friend, row, judging, writes);
      && after.audit == Some(host.encode(WholeAudit(host, files, round, friend, row, judging)))
      && after == files.(audit := after.audit, parsed := Some(host.encode(ParsedBatch(row, judging))))
  {
    var base := DecodeOwned(host, files.audit);
    assert base == Some(ResultAudit(host, files, round, friend, row));
  }

  lemma CapturesBound(host: Host, files: Files, parsed: Bytes)
    ensures var captures := ResultCaptures(host, files)["parsed" := Digest(host, parsed)];
      && captures.Keys == CAPTURES + {"parsed"}
      && captures["prompt"] == Capture(host, files.prompt) && captures["raw"] == Capture(host, files.raw)
      && captures["meta"] == Capture(host, files.meta) && captures["err"] == Capture(host, files.err)
      && captures["parsed"] == Digest(host, parsed)
  {
  }

  /** Every file that existed when the audit was written is what it was. */
  ghost predicate Unmodified(before: Files, parsed: Bytes, now: Files) {
    && before.prompt.Some? && now.prompt == before.prompt && now.parsed == Some(parsed)
    && (before.raw.Some? ==> now.raw == before.raw) && (before.meta.Some? ==> now.meta == before.meta)
    && (before.err.Some? ==> now.err == before.err)
  }

  /** Every file the audit binds is within the bound of its reader. */
  ghost predicate BoundFilesFit(before: Files, parsed: Bytes) {
    forall file | file in {before.prompt, before.raw, before.meta, before.err, Some(parsed)} ::
      file.Some? ==> |file.value| <= MAX_JSON_FILE_BYTES
  }

  lemma SameDigest(host: Host, b: Bytes, c: Bytes)
    requires Sound(host)
    ensures Digest(host, b) == Digest(host, c) <==> b == c
  {
    if Digest(host, b) == Digest(host, c) {
      var l, r := "sha256:" + host.hash(b), "sha256:" + host.hash(c);
      assert l[7..] == host.hash(b) && r[7..] == host.hash(c);
    }
  }

  lemma CaptureMeaning(host: Host, before: Option<Bytes>, now: Files, captures: map<string, Json>, which: string)
    requires Sound(host) && which in captures && captures[which] == Capture(host, before)
    ensures CaptureHolds(host, now, captures, which) <==>
      if before.Some? then FileOf(now, which) == before && |before.value| <= MAX_JSON_FILE_BYTES else which != "prompt"
  {
    if before.Some? && FileOf(now, which).Some? {
      SameDigest(host, before.value, FileOf(now, which).value);
    }
  }

  /** The captures of a written audit hold exactly as long as nothing bound changed, and
      all of it is within the reader's bound. */
  lemma CapturesMeaning(host: Host, before: Files, parsed: Bytes, now: Files)
    requires Sound(host)
    ensures var captures := ResultCaptures(host, before)["parsed" := Digest(host, parsed)];
      (forall which | which in captures :: CaptureHolds(host, now, captures, which))
        <==> Unmodified(before, parsed, now) && BoundFilesFit(before, parsed)
  {
    var captures := ResultCaptures(host, before)["parsed" := Digest(host, parsed)];
    CapturesBound(host, before, parsed);
    CaptureMeaning(host, before.prompt, now, captures, "prompt");
    CaptureMeaning(host, before.raw, now, captures, "raw");
    CaptureMeaning(host, before.meta, now, captures, "meta");
    CaptureMeaning(host, before.err, now, captures, "err");
    CaptureMeaning(host, Some(parsed), now, captures, "parsed");
    forall which | which in captures
      ensures which == "prompt" || which == "raw" || which == "meta" || which == "err" || which == "parsed"
    {
    }
    assert "prompt" in captures && "raw" in captures && "meta" in captures && "err" in captures && "parsed" in captures;
  }

  /** When a persisted batch comes back: the same slice and prompt are reconstructed,
      nothing bound was modified, and the files are within the reader's bounds. */
  ghost predicate Recoverable(host: Host, before: Files, friend: Friend, row: Json, judging: Json, shown: seq<string>,
                              now: Files, others: seq<string>, promptText: string)
  {
    var parsed := host.encode(ParsedBatch(row, judging));
    && others == shown && before.prompt == Some(host.utf8(promptText))
    && Unmodified(before, parsed, now) && BoundFilesFit(before, parsed)
    && host.decode(parsed).Some? && host.normalizeRow(row, friend).Some?
  }

  lemma WholeAuditFields(host: Host, before: Files, round: int, friend: Friend, row: Json, judging: Json)
    ensures var d := WholeAudit(host, before, round, friend, row, judging).fields;
      var parsed := host.encode(ParsedBatch(row, judging));
      && d.Keys == AUDIT_KEYS + {"judging"} && d["version"] == JInt(2) && d["round"] == JInt(round)
      && d["name"] == JStr(friend.name) && d["row"] == row && d["judging"] == judging
      && d["captures"] == JDict(ResultCaptures(host, before)["parsed" := Digest(host, parsed)])
  {
    ResultAuditFields(host, before, round, friend, row);
    BatchAuditFields(host, ResultAudit(host, before, round, friend, row).fields, judging,
                     host.encode(ParsedBatch(row, judging)));
  }

  /** The row's recovery, given the fields of a complete audit. */
  lemma RowRecovered(host: Host, before: Files, friend: Friend, row: Json, parsed: Bytes, now: Files, data: map<string, Json>)
    requires Sound(host) && data.Keys == AUDIT_KEYS + {"judging"} && data["row"] == row
    requires data["captures"] == JDict(ResultCaptures(host, before)["parsed" := Digest(host, parsed)])
    ensures RecoverRow(host, now, friend, data)
      == if Unmodified(before, parsed, now) && BoundFilesFit(before, parsed) then host.normalizeRow(row, friend) else None
  {
    CapturesBound(host, before, parsed);
    CapturesMeaning(host, before, parsed, now);
  }

  /** The checks on prompt and parsed batch before it. */
  lemma BoundsChecked(host: Host, before: Files, parsed: Bytes, now: Files, promptText: string)
    requires Sound(host)
    ensures var captures := JDict(ResultCaptures(host, before)["parsed" := Digest(host, parsed)]);
      && (Get(captures, "prompt") == Digest(host, host.utf8(promptText)) <==> before.prompt == Some(host.utf8(promptText)))
      && (now.parsed.Some? && Get(captures, "parsed") == Digest(host, now.parsed.value) <==> now.parsed == Some(parsed))
  {
    CapturesBound(host, before, parsed);
    if before.prompt.Some? {
      SameDigest(host, before.prompt.value, host.utf8(promptText));
    }
    if now.parsed.Some? {
      SameDigest(host, parsed, now.parsed.value);
    }
  }

  lemma RecoversWhole(host: Host, before: Files, round: int, friend: Friend, row: Json, shown: seq<string>,
                      verdicts: seq<Verdict>, judging: Json, now: Files, others: seq<string>, promptText: string,
                      data: map<string, Json>)
    requires Sound(host) && WellFormed(round, friend, shown, verdicts)
    requires judging == Judging(friend, shown, Without(shown, ClaimIds(verdicts)), verdicts)
    requires data == WholeAudit(host, before, round, friend, row, judging).fields
    ensures RecoverBatch(host, now, round, friend, others, promptText, data) ==
      if Recoverable(host, before, friend, row, judging, shown, now, others, promptText)
      then Batch(host.normalizeRow(row, friend).value, verdicts, Without(shown, ClaimIds(verdicts))) else Refused
  {
    var parsed := host.encode(ParsedBatch(row, judging));
    WholeAuditFields(host, before, round, friend, row, judging);
    ReadsBatch(round, friend, shown, verdicts, others);
    BoundsChecked(host, before, parsed, now, promptText);
    RowRecovered(host, before, friend, row, parsed, now, data);
  }

  lemma OpensBatch(host: Host, now: Files, round: int, friend: Friend, others: seq<string>, promptText: string,
                   alreadyDurable: bool, data: map<string, Json>)
    requires now.audit.Some? && "version" in data && data["version"] == JInt(2)
    ensures DecodeOwned(host, now.audit) == Some(JDict(data)) ==>
      Recover(host, now, round, friend, others, promptText, alreadyDurable)
      == RecoverBatch(host, now, round, friend, others, promptText, data)
    ensures DecodeOwned(host, now.audit) == None ==>
      Recover(host, now, round, friend, others, promptText, alreadyDurable) == Refused
  {
    assert Get(JDict(data), "version") == JInt(2);
  }

  /** Whatever became of the other files since: a complete audit gives back exactly the
      whole batch, and it does so if and only if it is recoverable. */
  lemma WholeBatchOrRefused(host: Host, before: Files, round: int, friend: Friend, row: Json, shown: seq<string>,
                            verdicts: seq<Verdict>, now: Files, others: seq<string>, promptText: string, alreadyDurable: bool)
    requires Sound(host) && WellFormed(round, friend, shown, verdicts)
    requires var judging := Judging(friend, shown, Without(shown, ClaimIds(verdicts)), verdicts);
      now.audit == Some(host.encode(WholeAudit(host, before, round, friend, row, judging)))
    ensures var judging := Judging(friend, shown, Without(shown, ClaimIds(verdicts)), verdicts);
      Recover(host, now, round, friend, others, promptText, alreadyDurable) ==
      if DecodeOwned(host, now.audit).Some? && Recoverable(host, before, friend, row, judging, shown, now, others, promptText)
      then Batch(host.normalizeRow(row, friend).value, verdicts, Without(shown, ClaimIds(verdicts))) else Refused
  {
    var judging := Judging(friend, shown, Without(shown, ClaimIds(verdicts)), verdicts);
    var data := WholeAudit(host, before, round, friend, row, judging).fields;
    WholeAuditFields(host, before, round, friend, row, judging);
    var decoded := DecodeOwned(host, now.audit);
    assert decoded == None || decoded == Some(JDict(data));
    OpensBatch(host, now, round, friend, others, promptText, alreadyDurable, data);
    RecoversWhole(host, before, round, friend, row, shown, verdicts, judging, now, others, promptText, data);
  }

  /** What recovery answers at every crash point of persisting a batch: what it answered
      before the first write until the second is done, and from then on the whole batch or
      a refusal. */
  lemma CrashPoints(host: Host, files: Files, round: int, friend: Friend, row: Json, shown: seq<string>,
                    verdicts: seq<Verdict>, writes: nat, promptText: string, alreadyDurable: bool)
    requires Sound(host) && WellFormed(round, friend, shown, verdicts) && BeforeJudging(host, files, round, friend, row)
    ensures var omitted := Without(shown, ClaimIds(verdicts));
      var judging := Judging(friend, shown, omitted, verdicts);
      var after := Persisted(host, files, round, friend, row, judging, writes);
      Recover(host, after, round, friend, shown, promptText, alreadyDurable) ==
        if files.audit.None? then Nothing
        else if !Legible(host, files.audit) then Refused
        else if writes < 2 then (if alreadyDurable then Nothing else Refused)
        else if Legible(host, after.audit)
                && Recoverable(host, files, friend, row, judging, shown, after, shown, promptText)
        then Batch(host.normalizeRow(row, friend).value, verdicts, omitted)
        else Refused
  {
    var judging := Judging(friend, shown, Without(shown, ClaimIds(verdicts)), verdicts);
    if files.audit.Some? {
      UpgradesExactly(host, files, round, friend, row, files, round, friend, row);
    }
    if writes < 2 || UpgradableBase(host, files, round, friend, row).None? {
      NoBatchBefore(host, files, round, friend, row, judging, writes, shown, promptText, alreadyDurable);
    } else {
      UpgradedAudit(host, files, round, friend, row, judging, writes);
      var after := Persisted(host, files, round, friend, row, judging, writes);
      WholeBatchOrRefused(host, files, round, friend, row, shown, verdicts, after, shown, promptText, alreadyDurable);
    }
  }

  // ---------- corroboration ----------

  lemma {:induction false} VerdictIds(verdicts: seq<Verdict>, id: string)
    ensures id in ClaimIds(verdicts) <==>
      exists raw | raw in VerdictsJson(verdicts) :: raw.JDict? && Get(raw, "claim_id") == JStr(id)
  {
    if verdicts != [] {
      var head, last := verdicts[..|verdicts| - 1], verdicts[|verdicts| - 1];
      var raws, raw := VerdictsJson(head), JDict(RecordToDict(VerdictRecord(last)));
      VerdictIds(head, id);
      assert Get(raw, "claim_id") == JStr(last.claimId);
      assert raw in VerdictsJson(verdicts);
      assert forall r :: r in VerdictsJson(verdicts) <==> r in raws || r == raw;
    }
  }

  /** This friend's complete audit of version 2 has a verdict on the claim. */
  ghost predicate RecordsVote(host: Host, files: Files, friend: Friend, id: string) {
    && Legible(host, files.audit)
    && var data := host.decode(files.audit.value).value;
       && data.JDict? && Get(data, "version") == JInt(2)
       && var judging := Get(data, "judging");
          && Get(judging, "complete") == JBool(true) && Get(judging, "judge") == JStr(friend.key)
          && Get(judging, "verdicts").JList?
          && exists raw :: raw in Get(judging, "verdicts").items && Get(raw, "claim_id") == JStr(id)
  }

  /** Whatever the files hold, a batch returned or not: a ledger verdict is corroborated
      exactly if the judge's own complete audit records a vote on that claim. */
  lemma CorroboratedExactly(host: Host, files: Files, friend: Friend, durable: seq<string>)
    ensures Corroborated(host, files, friend, durable) <==> forall id | id in durable :: RecordsVote(host, files, friend, id)
  {
    forall id
      ensures id in DurableIds(host, files, friend) <==> RecordsVote(host, files, friend, id)
    {
    }
  }

  /** When recovery returns a batch, the claims a ledger verdict may stand on are
      exactly those of its votes: an accepted check puts every durable verdict in the
      batch. */
  lemma CorroboratedIsInBatch(host: Host, files: Files, round: int, friend: Friend, shown: seq<string>,
                              promptText: string, alreadyDurable: bool, durable: seq<string>)
    requires Recover(host, files, round, friend, shown, promptText, alreadyDurable).Batch?
    ensures var batch := Recover(host, files, round, friend, shown, promptText, alreadyDurable);
      Corroborated(host, files, friend, durable) <==> forall id | id in durable :: id in ClaimIds(batch.verdicts)
  {
    var batch := Recover(host, files, round, friend, shown, promptText, alreadyDurable);
    forall id
      ensures id in DurableIds(host, files, friend) <==> id in ClaimIds(batch.verdicts)
    {
      BatchIds(host, files, round, friend, shown, promptText, alreadyDurable, id);
    }
  }

  lemma BatchIds(host: Host, files: Files, round: int, friend: Friend, shown: seq<string>,
                 promptText: string, alreadyDurable: bool, id: string)
    requires Recover(host, files, round, friend, shown, promptText, alreadyDurable).Batch?
    ensures id in DurableIds(host, files, friend)
      <==> id in ClaimIds(Recover(host, files, round, friend, shown, promptText, alreadyDurable).verdicts)
  {
    var data := DecodeOwned(host, files.audit).value.fields;
    var judging := data["judging"];
    var raws := judging.fields["verdicts"].items;
    ReadVerdictsMeaning(raws, round, friend);
    VerdictIds(ReadVerdicts(raws, round, friend).value, id);
  }
}
