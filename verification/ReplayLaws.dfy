/** Which ledgers replay, and what a replay keeps of the records that are no claims. */
module ReplayLaws {
  import opened Wrappers
  import opened Records
  import opened Sequences
  import opened ReviewState
  import Corroboration

  // ---------- what is kept ----------

  function VerdictsOf(records: seq<Record>): seq<Verdict> {
    if records == [] then []
    else
      var before, last := VerdictsOf(records[..|records| - 1]), records[|records| - 1];
      if last.VerdictRecord? then before + [last.verdict] else before
  }

  function ResolutionsOf(records: seq<Record>): seq<Resolution> {
    if records == [] then []
    else
      var before, last := ResolutionsOf(records[..|records| - 1]), records[|records| - 1];
      if last.ResolutionRecord? then before + [last.resolution] else before
  }

  function AliasesOf(records: seq<Record>): seq<Alias> {
    if records == [] then []
    else
      var before, last := AliasesOf(records[..|records| - 1]), records[|records| - 1];
      if last.AliasRecord? then before + [last.alias] else before
  }

  /** A replay keeps exactly the verdicts, resolutions and aliases on record, in order. */
  lemma {:induction false} ReplayKeeps(records: seq<Record>)
    requires Replay(records).Ok?
    ensures var s := Replay(records).value;
      s.verdicts == VerdictsOf(records) && s.resolutions == ResolutionsOf(records) && s.aliases == AliasesOf(records)
  {
    if records != [] {
      ReplayKeeps(records[..|records| - 1]);
      KeptStep(Replay(records[..|records| - 1]).value, records[|records| - 1]);
    }
  }

  lemma KeptStep(s: State, record: Record)
    requires s.origins.Keys == s.claims.Keys && Apply(s, record).Ok?
    ensures var t := Apply(s, record).value;
      && t.verdicts == (if record.VerdictRecord? then s.verdicts + [record.verdict] else s.verdicts)
      && t.resolutions == (if record.ResolutionRecord? then s.resolutions + [record.resolution] else s.resolutions)
      && t.aliases == (if record.AliasRecord? then s.aliases + [record.alias] else s.aliases)
  {
  }

  // ---------- what is accepted ----------

  ghost predicate ClaimAt(records: seq<Record>, m: nat, id: string) {
    m < |records| && records[m].ClaimRecord? && records[m].claim.id == id
  }

  /** A claim of this id stands among the first `n` records. */
  ghost predicate RecordedBefore(records: seq<Record>, n: nat, id: string) {
    exists m: nat :: m < n && ClaimAt(records, m, id)
  }

  /** No claim among the first `n` records has its id and says something else. */
  ghost predicate Unchanged(records: seq<Record>, n: nat, c: Claim) {
    forall m: nat | m < n && ClaimAt(records, m, c.id) :: records[m].claim == c
  }

  /** A claim says what its id said before and supersedes a claim recorded before it, if any;
      a verdict or resolution is about a claim recorded before it. */
  ghost predicate Fits(records: seq<Record>, n: nat)
    requires n < |records|
  {
    match records[n]
    case ClaimRecord(c) =>
      Unchanged(records, n, c) && (c.supersedes.Some? ==> RecordedBefore(records, n, c.supersedes.value))
    case VerdictRecord(v) => RecordedBefore(records, n, v.claimId)
    case ResolutionRecord(r) => RecordedBefore(records, n, r.claimId)
    case AliasRecord(_) => true
  }

  lemma HeldIsRecorded(before: seq<Record>, records: seq<Record>, id: string)
    requires Replay(before).Ok? && before <= records
    ensures id in Replay(before).value.claims <==> RecordedBefore(records, |before|, id)
    ensures id in Replay(before).value.claims ==>
      forall m: nat | m < |before| && ClaimAt(records, m, id) :: records[m].claim == Replay(before).value.claims[id]
  {
    var claims := Replay(before).value.claims;
    if id in claims {
      Corroboration.ReplayHolds(before, claims[id]);
      var m :| 0 <= m < |before| && before[m] == ClaimRecord(claims[id]);
      assert claims[id].id == id;
      assert ClaimAt(records, m, id);
    }
    forall m: nat | m < |before| && ClaimAt(records, m, id)
      ensures id in claims && claims[id] == records[m].claim
    {
      assert before[m] == ClaimRecord(records[m].claim);
      Corroboration.ReplayHolds(before, records[m].claim);
    }
  }

  /** A claim recorded again fits as it did the first time. */
  lemma FitsAgain(records: seq<Record>, m: nat, n: nat)
    requires m < n < |records| && records[m].ClaimRecord? && records[n] == records[m]
    requires Fits(records, m) && Unchanged(records, n, records[n].claim)
    ensures Fits(records, n)
  {
    var c := records[n].claim;
    if c.supersedes.Some? {
      var k: nat :| k < m && ClaimAt(records, k, c.supersedes.value);
      assert k < n;
    }
  }

  lemma ClaimFits(before: seq<Record>, records: seq<Record>, c: Claim)
    requires Replay(before).Ok? && before < records && records[|before|] == ClaimRecord(c)
    requires forall n: nat | n < |before| :: Fits(records, n)
    ensures ApplyClaim(Replay(before).value, c).Ok? <==> Fits(records, |before|)
  {
    var s := Replay(before).value;
    ReplayTopological(before);
    NoCycleBranch(s, c);
    HeldIsRecorded(before, records, c.id);
    if c.supersedes.Some? {
      HeldIsRecorded(before, records, c.supersedes.value);
    }
    if c.id in s.claims && s.claims[c.id] == c {
      var m: nat :| m < |before| && ClaimAt(records, m, c.id);
      FitsAgain(records, m, |before|);
    }
  }

  lemma FitsExactly(before: seq<Record>, records: seq<Record>)
    requires Replay(before).Ok? && before < records
    requires forall n: nat | n < |before| :: Fits(records, n)
    ensures Apply(Replay(before).value, records[|before|]).Ok? <==> Fits(records, |before|)
  {
    match records[|before|]
    case ClaimRecord(c) => ClaimFits(before, records, c);
    case VerdictRecord(v) => HeldIsRecorded(before, records, v.claimId);
    case ResolutionRecord(r) => HeldIsRecorded(before, records, r.claimId);
    case AliasRecord(_) =>
  }

  lemma SameRecorded(before: seq<Record>, records: seq<Record>, n: nat, id: string)
    requires before <= records && n < |before|
    ensures RecordedBefore(before, n, id) <==> RecordedBefore(records, n, id)
  {
    if RecordedBefore(before, n, id) {
      var m: nat :| m < n && ClaimAt(before, m, id);
      assert ClaimAt(records, m, id);
    }
    if RecordedBefore(records, n, id) {
      var m: nat :| m < n && ClaimAt(records, m, id);
      assert ClaimAt(before, m, id);
    }
  }

  lemma SameUnchanged(before: seq<Record>, records: seq<Record>, n: nat, c: Claim)
    requires before <= records && n < |before|
    ensures Unchanged(before, n, c) <==> Unchanged(records, n, c)
  {
    forall m: nat | m < n
      ensures ClaimAt(before, m, c.id) <==> ClaimAt(records, m, c.id)
    {
    }
  }

  lemma FitsPrefix(before: seq<Record>, records: seq<Record>, n: nat)
    requires before <= records && n < |before|
    ensures Fits(before, n) <==> Fits(records, n)
  {
    match before[n]
    case ClaimRecord(c) =>
      SameUnchanged(before, records, n, c);
      if c.supersedes.Some? {
        SameRecorded(before, records, n, c.supersedes.value);
      }
    case VerdictRecord(v) => SameRecorded(before, records, n, v.claimId);
    case ResolutionRecord(r) => SameRecorded(before, records, n, r.claimId);
    case AliasRecord(_) =>
  }

  /** A ledger replays exactly if every record fits those before it. */
  lemma {:induction false} ReplaysExactly(records: seq<Record>)
    ensures Replay(records).Ok? <==> forall n: nat | n < |records| :: Fits(records, n)
  {
    if records != [] {
      var last := |records| - 1;
      var before := records[..last];
      ReplaysExactly(before);
      forall n: nat | n < last
        ensures Fits(before, n) <==> Fits(records, n)
      {
        FitsPrefix(before, records, n);
      }
      if Replay(before).Ok? {
        FitsExactly(before, records);
      }
    }
  }

  // ---------- what draws a warning ----------

  ghost predicate AliasAt(records: seq<Record>, m: nat, id: string) {
    m < |records| && records[m].AliasRecord? && records[m].alias.duplicate == id
  }

  /** Some alias among the first `n` records merges the claim away. */
  ghost predicate MergedBefore(records: seq<Record>, n: nat, id: string) {
    exists m: nat :: m < n && AliasAt(records, m, id)
  }

  /** What the alias at `n` is warned of: an end that is not on record before it, or a
      canonical claim that is merged away by then, by the alias itself included. */
  ghost function WarningAt(records: seq<Record>, n: nat): seq<Warning>
    requires n < |records|
  {
    match records[n]
    case AliasRecord(a) =>
      if !RecordedBefore(records, n, a.canonical) || !RecordedBefore(records, n, a.duplicate) then [MissingEndpoint(a)]
      else if MergedBefore(records, n + 1, a.canonical) then [NotTopological(a)]
      else []
    case _ => []
  }

  ghost function WarningsOf(records: seq<Record>): seq<Warning> {
    if records == [] then []
    else WarningsOf(records[..|records| - 1]) + WarningAt(records, |records| - 1)
  }

  lemma MergedMore(before: seq<Record>, records: seq<Record>, id: string)
    requires before < records
    ensures MergedBefore(before, |before|, id) <==> MergedBefore(records, |before|, id)
    ensures MergedBefore(records, |before| + 1, id) <==>
      MergedBefore(records, |before|, id) || AliasAt(records, |before|, id)
  {
    forall m: nat | m < |before|
      ensures AliasAt(before, m, id) <==> AliasAt(records, m, id)
    {
    }
  }

  lemma {:induction false} AliasedIsMerged(records: seq<Record>, id: string)
    requires Replay(records).Ok?
    ensures id in Replay(records).value.aliased <==> MergedBefore(records, |records|, id)
  {
    if records != [] {
      var before := records[..|records| - 1];
      AliasedIsMerged(before, id);
      MergedMore(before, records, id);
      AliasedStep(Replay(before).value, records[|before|], id);
    }
  }

  lemma AliasedStep(s: State, record: Record, id: string)
    requires s.origins.Keys == s.claims.Keys && Apply(s, record).Ok?
    ensures id in Apply(s, record).value.aliased <==>
      id in s.aliased || (record.AliasRecord? && record.alias.duplicate == id)
  {
  }

  lemma WarnsStep(before: seq<Record>, records: seq<Record>)
    requires Replay(before).Ok? && before < records && Apply(Replay(before).value, records[|before|]).Ok?
    ensures Apply(Replay(before).value, records[|before|]).value.warnings
         == Replay(before).value.warnings + WarningAt(records, |before|)
  {
    NothingAfter(Replay(before).value.warnings);
    if records[|before|].AliasRecord? {
      var a := records[|before|].alias;
      HeldIsRecorded(before, records, a.canonical);
      HeldIsRecorded(before, records, a.duplicate);
      AliasedIsMerged(before, a.canonical);
      MergedMore(before, records, a.canonical);
    }
  }

  /** The warnings of a replay: one for each alias with an end that is not on record before
      it or whose canonical claim is merged away by then, in order, and no others. */
  lemma {:induction false} WarnsExactly(records: seq<Record>)
    requires Replay(records).Ok?
    ensures Replay(records).value.warnings == WarningsOf(records)
  {
    if records != [] {
      WarnsExactly(records[..|records| - 1]);
      WarnsStep(records[..|records| - 1], records);
    }
  }

  // ---------- what a refusal says ----------

  /** The error names what does not fit about record `n`. */
  ghost predicate Explains(records: seq<Record>, n: nat, error: Error)
    requires n < |records|
  {
    match error
    case ConflictingClaim(id) =>
      records[n].ClaimRecord? && records[n].claim.id == id && !Unchanged(records, n, records[n].claim)
    case UnknownPredecessor(id, supersedes) =>
      && records[n].ClaimRecord? && records[n].claim.id == id && records[n].claim.supersedes == Some(supersedes)
      && !RecordedBefore(records, n, supersedes)
    case UnknownClaim(id) =>
      && !RecordedBefore(records, n, id)
      && ((records[n].VerdictRecord? && records[n].verdict.claimId == id)
          || (records[n].ResolutionRecord? && records[n].resolution.claimId == id))
    case SuccessorCycle(_) => false
  }

  lemma RefusalExplains(before: seq<Record>, records: seq<Record>)
    requires Replay(before).Ok? && before < records && Apply(Replay(before).value, records[|before|]).Err?
    ensures Explains(records, |before|, Apply(Replay(before).value, records[|before|]).error)
  {
    var s := Replay(before).value;
    ReplayTopological(before);
    match records[|before|]
    case ClaimRecord(c) =>
      HeldIsRecorded(before, records, c.id);
      NoCycleBranch(s, c);
      if c.id in s.claims {
        var m: nat :| m < |before| && ClaimAt(records, m, c.id);
        assert records[m].claim == s.claims[c.id];
      }
      if c.supersedes.Some? {
        HeldIsRecorded(before, records, c.supersedes.value);
      }
    case VerdictRecord(v) => HeldIsRecorded(before, records, v.claimId);
    case ResolutionRecord(r) => HeldIsRecorded(before, records, r.claimId);
    case AliasRecord(_) =>
  }

  /** A ledger that does not replay is refused at the first record that does not fit, and
      the error says why it does not. */
  lemma {:induction false} RefusedAtFirstMisfit(records: seq<Record>) returns (n: nat)
    requires Replay(records).Err?
    ensures n < |records| && !Fits(records, n) && (forall m: nat | m < n :: Fits(records, m))
    ensures Explains(records, n, Replay(records).error)
  {
    var last := |records| - 1;
    var before := records[..last];
    if Replay(before).Err? {
      n := RefusedAtFirstMisfit(before);
      FitsPrefix(before, records, n);
      forall m: nat | m < n ensures Fits(records, m) { FitsPrefix(before, records, m); }
      SameExplanation(before, records, n, Replay(before).error);
    } else {
      n := last;
      ReplaysExactly(before);
      forall m: nat | m < n ensures Fits(records, m) { FitsPrefix(before, records, m); }
      FitsExactly(before, records);
      RefusalExplains(before, records);
    }
  }

  lemma SameExplanation(before: seq<Record>, records: seq<Record>, n: nat, error: Error)
    requires before <= records && n < |before| && Explains(before, n, error)
    ensures Explains(records, n, error)
  {
    match error
    case ConflictingClaim(id) => SameUnchanged(before, records, n, records[n].claim);
    case UnknownPredecessor(id, supersedes) => SameRecorded(before, records, n, supersedes);
    case UnknownClaim(id) => SameRecorded(before, records, n, id);
  }
}
