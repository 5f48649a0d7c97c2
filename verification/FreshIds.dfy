/** When ids minted above the highest number on record are really new to the replayed
    state, and that runs minting this way never lose a claim. */
module FreshIds {
  import opened Wrappers
  import opened Records
  import opened Ids
  import opened ReviewState
  import opened LiveAliases
  import opened Merge
  import opened MergeLaws
  import opened MergeReplay
  import Corroboration

  /** What `NextClaimNumber` promises of its result. */
  ghost predicate AboveSpent(records: seq<Record>, highest: nat) {
    forall n, number: nat | 0 <= n < |records| && Spent(records[n], number) :: number <= highest
  }

  ghost predicate MintedId(id: string, highest: nat) {
    exists number: nat, version: nat :: number > highest && id == FormatClaimId(number, version)
  }

  ghost predicate Minted(incoming: seq<Claim>, highest: nat) {
    && DistinctIds(incoming)
    && forall i | 0 <= i < |incoming| :: incoming[i].supersedes.None? && MintedId(incoming[i].id, highest)
  }

  /** Some alias record names `id` as its duplicate. */
  ghost predicate NamedDuplicate(records: seq<Record>, id: string) {
    exists n :: 0 <= n < |records| && DuplicateIn(records[n], id)
  }

  ghost predicate DuplicateIn(record: Record, id: string) {
    record.AliasRecord? && record.alias.duplicate == id
  }

  lemma {:induction false} AliasedIsNamed(records: seq<Record>, id: string)
    requires Replay(records).Ok?
    ensures id in Replay(records).value.aliased <==> NamedDuplicate(records, id)
  {
    if records != [] {
      var last := |records| - 1;
      var before, record := records[..last], records[last];
      AliasedIsNamed(before, id);
      assert id in Replay(records).value.aliased <==> id in Replay(before).value.aliased || DuplicateIn(record, id);
      if NamedDuplicate(before, id) {
        var n :| 0 <= n < last && DuplicateIn(before[n], id);
        assert DuplicateIn(records[n], id);
      }
      if NamedDuplicate(records, id) {
        var n :| 0 <= n <= last && DuplicateIn(records[n], id);
        assert n == last || DuplicateIn(before[n], id);
      }
    }
  }

  lemma MintedIsUnrecorded(records: seq<Record>, highest: nat, id: string)
    requires Replay(records).Ok? && AboveSpent(records, highest) && MintedId(id, highest)
    ensures id !in Replay(records).value.claims
  {
    var s := Replay(records).value;
    if id in s.claims {
      var number: nat, version: nat :| number > highest && id == FormatClaimId(number, version);
      Corroboration.ReplayHolds(records, s.claims[id]);
      var n :| 0 <= n < |records| && records[n] == ClaimRecord(s.claims[id]);
      MintedAboveIsFresh(records, highest, number, version, n);
      assert false;
    }
  }

  /** Claims minted above every number on record are new to the replayed state exactly
      if no alias record names one of their ids as its duplicate. */
  lemma FreshExactly(records: seq<Record>, highest: nat, incoming: seq<Claim>)
    requires Replay(records).Ok? && AboveSpent(records, highest) && Minted(incoming, highest)
    ensures NewlyRaised(Replay(records).value, incoming)
       <==> forall i | 0 <= i < |incoming| :: !NamedDuplicate(records, incoming[i].id)
  {
    var s := Replay(records).value;
    forall i | 0 <= i < |incoming|
      ensures incoming[i].id !in s.claims && (incoming[i].id in s.aliased <==> NamedDuplicate(records, incoming[i].id))
    {
      MintedIsUnrecorded(records, highest, incoming[i].id);
      AliasedIsNamed(records, incoming[i].id);
    }
  }

  /** A log that replays without a warning names no such id. */
  lemma FreshWithoutWarnings(records: seq<Record>, highest: nat, incoming: seq<Claim>)
    requires Replay(records).Ok? && Replay(records).value.warnings == []
    requires AboveSpent(records, highest) && Minted(incoming, highest)
    ensures NewlyRaised(Replay(records).value, incoming)
  {
    Corroboration.NoWarningNoStranger(records);
    forall i | 0 <= i < |incoming|
      ensures incoming[i].id !in Replay(records).value.claims
    {
      MintedIsUnrecorded(records, highest, incoming[i].id);
    }
  }

  // ---------- a log that swallows the next claim ----------

  /** The state with `c` and `d` on record and the id of `d` merged away before. */
  ghost function Swallowed(c: Claim, a: Alias, d: Claim): State {
    State([c.id, d.id], map[c.id := c, d.id := d], map[c.id := c.origin, d.id := d.origin], {d.id}, [a], [], [], [MissingEndpoint(a)])
  }

  lemma SwallowedLive(c: Claim, a: Alias, d: Claim)
    requires c.id != d.id
    ensures Shaped(Swallowed(c, a, d)) && Live(Swallowed(c, a, d)) == [c]
  {
    var t := Swallowed(c, a, d);
    assert LiveUpTo(t, 0) == [];
    assert LiveUpTo(t, 1) == [c];
    assert LiveUpTo(t, 2) == [c];
  }

  lemma SwallowedReached(c: Claim, a: Alias, d: Claim)
    requires c.supersedes.None? && d.supersedes.None? && c.id != d.id && a.canonical == c.id && a.duplicate == d.id
    ensures Replay([ClaimRecord(c), AliasRecord(a)]).Ok?
    ensures Replay([ClaimRecord(c), AliasRecord(a), ClaimRecord(d)]) == Ok(Swallowed(c, a, d))
  {
    var first, records := [ClaimRecord(c)], [ClaimRecord(c), AliasRecord(a)];
    var all := records + [ClaimRecord(d)];
    assert all[..2] == records && records[..1] == first && first[..0] == [];
    assert Replay(first) == ApplyClaim(EMPTY, c);
    assert Replay(records) == Ok(ApplyAlias(ApplyClaim(EMPTY, c).value, a));
    assert Replay(all) == ApplyClaim(Replay(records).value, d);
    assert Replay(all).value.order == [c.id, d.id];
    assert Replay(all).value.aliases == [a] && Replay(all).value.warnings == [MissingEndpoint(a)];
    assert Replay(all).value.aliased == {d.id};
    assert all == [ClaimRecord(c), AliasRecord(a), ClaimRecord(d)];
  }

  lemma NextIsMinted(d: Claim, number: nat)
    requires d.id == FormatClaimId(number + 1, 1) && d.supersedes.None?
    ensures Minted([d], number)
  {
    assert MintedId(d.id, number);
  }

  lemma OnlySpent(c: Claim, a: Alias, number: nat)
    requires ParseClaimId(c.id).Some? && ParseClaimId(c.id).value.0 == number
    ensures AboveSpent([ClaimRecord(c), AliasRecord(a)], number)
  {
  }

  /** An alias record whose duplicate was never recorded draws only a warning, and is no
      spent number: the claim next minted under that id is on record and never live. */
  lemma StrayAliasSwallowsNextClaim(c: Claim, number: nat, version: nat, a: Alias, d: Claim)
    requires c.id == FormatClaimId(number, version) && c.supersedes.None?
    requires d.id == FormatClaimId(number + 1, 1) && d.supersedes.None?
    requires a.canonical == c.id && a.duplicate == d.id
    ensures var records := [ClaimRecord(c), AliasRecord(a)];
      Replay(records).Ok? && AboveSpent(records, number) && Minted([d], number)
    ensures var r := Replay([ClaimRecord(c), AliasRecord(a), ClaimRecord(d)]);
      r.Ok? && Shaped(r.value) && d.id in r.value.claims && Live(r.value) == [c]
  {
    ParseInvertsFormat(number, version);
    ParseInvertsFormat(number + 1, 1);
    NextIsMinted(d, number);
    OnlySpent(c, a, number);
    SwallowedReached(c, a, d);
    SwallowedLive(c, a, d);
  }

  // ---------- runs that mint above the record ----------

  /** Every batch was minted above some number that no record before it exceeds. */
  ghost predicate MintingRun(key: KeyOf, batches: seq<Batch>) {
    batches != [] ==>
      var before, last := batches[..|batches| - 1], batches[|batches| - 1];
      && MintingRun(key, before)
      && exists highest: nat :: AboveSpent(RunLog(key, before), highest) && Minted(last.incoming, highest)
  }

  /** Numbering alone is enough: over any run whose batches are minted above the numbers
      on record, the log replays to exactly the claims held in memory. */
  lemma {:induction false} MintingRunAgrees(key: KeyOf, batches: seq<Batch>)
    requires MintingRun(key, batches)
    ensures var r := Replay(RunLog(key, batches));
      && r.Ok? && Shaped(r.value) && Live(r.value) == InMemory(key, batches) && r.value.warnings == []
  {
    if batches != [] {
      var before, last := batches[..|batches| - 1], batches[|batches| - 1];
      MintingRunAgrees(key, before);
      var log := RunLog(key, before);
      var s := Replay(log).value;
      var highest: nat :| AboveSpent(log, highest) && Minted(last.incoming, highest);
      FreshWithoutWarnings(log, highest, last.incoming);
      BatchAgrees(key, s, last.incoming, last.round);
      ReplayAppends(log, BatchLog(key, Live(s), last.incoming, last.round));
    }
  }
}
