/** The two ways a critique round brings its list of claims up to date after a merge. */
module CritiqueMerge {
  import opened Wrappers
  import opened Records
  import opened Sequences
  import opened ReviewState
  import opened LiveAliases
  import opened Merge
  import opened MergeReplay

  /** Folding `updated` back into the existing claims and appending `kept`, as callers of
      the merge are told to, gives the claims that absorbing the batch one by one gives. */
  method FoldBack(key: KeyOf, existing: seq<Claim>, incoming: seq<Claim>, round: int) returns (now: seq<Claim>)
    requires DistinctIds(existing + incoming)
    ensures now == Absorbed(key, existing, incoming)
  {
    var kept, _, updated := ExactMerge(key, existing, incoming, round);
    ghost var all := Absorbed(key, existing, incoming);
    UpdatesFit(key, existing, incoming, updated);
    var refreshed := Refreshed(existing, updated, all[..|existing|]);
    now := refreshed + kept;
    Rejoined(all, |existing|);
  }

  lemma Rejoined(all: seq<Claim>, n: nat)
    requires n <= |all|
    ensures all[..n] + all[n..] == all
  {
  }

  method Refreshed(existing: seq<Claim>, updated: seq<Claim>, ghost now: seq<Claim>) returns (claims: seq<Claim>)
    requires Updating(existing, updated, now)
    ensures claims == now
  {
    claims := [];
    for n := 0 to |existing|
      invariant claims == now[..n]
    {
      var current := Replacement(existing[n], updated);
      ReplacementFits(existing, updated, now, n, current);
      claims := claims + [current];
    }
  }

  /** `updated` holds claims of `now` only, and every one that differs from `existing`. */
  ghost predicate Updating(existing: seq<Claim>, updated: seq<Claim>, now: seq<Claim>) {
    && |now| == |existing| && DistinctIds(existing)
    && (forall u | u in updated :: u in now)
    && forall i | 0 <= i < |existing| :: now[i].id == existing[i].id && (now[i] == existing[i] || now[i] in updated)
  }

  lemma UpdatesFit(key: KeyOf, existing: seq<Claim>, incoming: seq<Claim>, updated: seq<Claim>)
    requires DistinctIds(existing + incoming) && |existing| <= |Absorbed(key, existing, incoming)|
    requires forall n | 0 <= n < |updated| :: updated[n] in Absorbed(key, existing, incoming)[..|existing|]
    requires forall i | 0 <= i < |existing| ::
      Absorbed(key, existing, incoming)[i] == existing[i] || Absorbed(key, existing, incoming)[i] in updated
    ensures Updating(existing, updated, Absorbed(key, existing, incoming)[..|existing|])
  {
    assert forall i | 0 <= i < |existing| :: (existing + incoming)[i] == existing[i];
    forall i | 0 <= i < |existing|
      ensures Absorbed(key, existing, incoming)[i].id == existing[i].id
    {
      AbsorbedKeepsIds(key, existing, incoming, i);
    }
  }

  lemma ReplacementFits(existing: seq<Claim>, updated: seq<Claim>, now: seq<Claim>, n: nat, current: Claim)
    requires Updating(existing, updated, now) && n < |existing| && current.id == existing[n].id
    requires current == existing[n] || current in updated
    requires (exists u :: u in updated && u.id == current.id) ==> current in updated
    ensures current == now[n]
  {
    if current in updated {
      var j :| 0 <= j < |now| && now[j] == current;
      assert existing[j].id == existing[n].id;
    }
  }

  /** The last of `updated` with the claim's id, else the claim. */
  method Replacement(c: Claim, updated: seq<Claim>) returns (current: Claim)
    ensures current.id == c.id
    ensures current == c || current in updated
    ensures (exists u :: u in updated && u.id == c.id) ==> current in updated
  {
    current := c;
    for n := 0 to |updated|
      invariant current.id == c.id
      invariant current == c || current in updated
      invariant (exists j :: 0 <= j < n && updated[j].id == c.id) ==> current in updated
    {
      if updated[n].id == c.id {
        current := updated[n];
      }
    }
  }

  // ---------- what the round does ----------

  lemma RoundIdsDistinct(s: State, incoming: seq<Claim>)
    requires Shaped(s) && NewlyRaised(s, incoming)
    ensures DistinctIds(Live(s) + incoming)
  {
    LiveFacts(s, |s.order|);
    var live := Live(s);
    forall i, j | 0 <= i < j < |live + incoming|
      ensures (live + incoming)[i].id != (live + incoming)[j].id
    {
      if i < |live| {
        assert LiveClaim(s, live[i]);
      }
    }
  }

  method RecordClaims(review: Review, incoming: seq<Claim>) returns (recorded: seq<Record>)
    requires Shaped(review.Model()) && NewlyRaised(review.Model(), incoming)
    modifies review
    ensures recorded == ClaimRecords(incoming) && Shaped(review.Model())
    ensures ApplyAll(old(review.Model()), recorded) == Ok(review.Model())
  {
    recorded := [];
    ghost var s := review.Model();
    for n := 0 to |incoming|
      invariant recorded == ClaimRecords(incoming[..n])
      invariant Shaped(review.Model()) && ApplyAll(s, recorded) == Ok(review.Model())
    {
      ClaimApplies(s, incoming, n);
      var _ := review.ApplyRecord(ClaimRecord(incoming[n]));
      recorded := recorded + [ClaimRecord(incoming[n])];
    }
    assert incoming[..|incoming|] == incoming;
  }

  lemma ClaimApplies(s: State, incoming: seq<Claim>, n: nat)
    requires Shaped(s) && NewlyRaised(s, incoming) && n < |incoming|
    ensures ClaimRecords(incoming[..n + 1]) == ClaimRecords(incoming[..n]) + [ClaimRecord(incoming[n])]
    ensures var before, after := ApplyAll(s, ClaimRecords(incoming[..n])), ApplyAll(s, ClaimRecords(incoming[..n + 1]));
      before.Ok? && after.Ok? && Apply(before.value, ClaimRecord(incoming[n])) == after
  {
    var before, after := incoming[..n], incoming[..n + 1];
    TakeOneMore(incoming, n);
    assert NewlyRaised(s, before) && NewlyRaised(s, after);
    ClaimsGoLive(s, before);
    ClaimsGoLive(s, after);
    OneClaimMore(s, before, ApplyAll(s, ClaimRecords(before)).value, incoming[n]);
  }

  method RecordAliases(review: Review, aliases: seq<Alias>) returns (recorded: seq<Record>)
    requires Shaped(review.Model())
    modifies review
    ensures recorded == AliasRecords(aliases) && Shaped(review.Model())
    ensures ApplyAll(old(review.Model()), recorded) == Ok(review.Model())
  {
    recorded := [];
    ghost var s := review.Model();
    for n := 0 to |aliases|
      invariant recorded == AliasRecords(aliases[..n])
      invariant Shaped(review.Model()) && ApplyAll(s, recorded) == Ok(review.Model())
    {
      TakeOneMore(aliases, n);
      OneAliasMore(s, aliases[..n], aliases[n], review.Model());
      AliasRecordsMore(aliases[..n], aliases[n]);
      var _ := review.ApplyRecord(AliasRecord(aliases[n]));
      recorded := recorded + [AliasRecord(aliases[n])];
    }
    assert aliases[..|aliases|] == aliases;
  }

  /** Every claim raised is recorded and applied, then every alias; the reducer's live
      claims are then the merged ones, and its state is what the log replays to. */
  method MergeRound(key: KeyOf, review: Review, existing: seq<Claim>, incoming: seq<Claim>, round: int,
                    ghost earlier: seq<Record>)
    returns (now: seq<Claim>, recorded: seq<Record>)
    requires Replay(earlier) == Ok(review.Model()) && Shaped(review.Model())
    requires existing == Live(review.Model()) && NewlyRaised(review.Model(), incoming)
    modifies review
    ensures recorded == BatchLog(key, existing, incoming, round)
    ensures Replay(earlier + recorded) == Ok(review.Model()) && Shaped(review.Model())
    ensures now == Live(review.Model()) == Absorbed(key, existing, incoming)
    ensures review.Model().warnings == old(review.Model().warnings)
  {
    ghost var s := review.Model();
    RoundIdsDistinct(s, incoming);
    BatchAgrees(key, s, incoming, round);
    ReplayAppends(earlier, BatchLog(key, existing, incoming, round));
    var _, aliases, _ := ExactMerge(key, existing, incoming, round);
    var claimRecords := RecordClaims(review, incoming);
    var aliasRecords := RecordAliases(review, aliases);
    ApplyAllAppends(s, claimRecords, aliasRecords);
    recorded := claimRecords + aliasRecords;
    now := review.Claims();
  }
}
