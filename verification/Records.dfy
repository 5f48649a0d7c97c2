/** The records of the append-only ledger. */
module Records {
  import opened Wrappers

  datatype Claim = Claim(
    id: string, supersedes: Option<string>, origin: seq<string>, lens: string, round: int,
    advisory: bool, severity: string, claim: string, location: Option<string>,
    evidence: string, failureScenario: string, suggestedFix: string)

  datatype Verdict = Verdict(
    claimId: string, judge: string, round: int, verdict: string, confidence: string,
    evidenceAssessment: string, reasoning: string,
    counterEvidence: Option<string>, amendedClaim: Option<string>)

  datatype Alias = Alias(canonical: string, duplicate: string, round: int, source: string, rationale: string)

  datatype Resolution = Resolution(
    claimId: string, disposition: string, author: string, evidence: string, round: int, verified: string)

  datatype Record =
    | ClaimRecord(claim: Claim)
    | VerdictRecord(verdict: Verdict)
    | AliasRecord(alias: Alias)
    | ResolutionRecord(resolution: Resolution)

  ghost predicate DistinctIds(claims: seq<Claim>) {
    forall i, j | 0 <= i < j < |claims| :: claims[i].id != claims[j].id
  }
}
