/** What one alias record does to the list of live claims. */
module LiveAliases {
  import opened Wrappers
  import opened Records
  import opened Origins
  import opened ReviewState

  /** The duplicate leaves the list; the canonical claim takes the joined origin. */
  function Redirected(claims: seq<Claim>, canonical: string, duplicate: string, joined: seq<string>): seq<Claim> {
    if claims == [] then []
    else
      var last := claims[|claims| - 1];
      Redirected(claims[..|claims| - 1], canonical, duplicate, joined)
      + if last.id == duplicate then []
        else if last.id == canonical then [last.(origin := joined)]
        else [last]
  }

  lemma {:induction false} RedirectedAppends(
      a: seq<Claim>, b: seq<Claim>, canonical: string, duplicate: string, joined: seq<string>)
    ensures Redirected(a + b, canonical, duplicate, joined)
         == Redirected(a, canonical, duplicate, joined) + Redirected(b, canonical, duplicate, joined)
    decreases |b|
  {
    if b == [] {
      assert a + b == a;
    } else {
      assert (a + b)[..|a + b| - 1] == a + b[..|b| - 1];
      RedirectedAppends(a, b[..|b| - 1], canonical, duplicate, joined);
    }
  }

  lemma {:induction false} RedirectedElsewhere(claims: seq<Claim>, canonical: string, duplicate: string, joined: seq<string>)
    requires forall i | 0 <= i < |claims| :: claims[i].id != canonical && claims[i].id != duplicate
    ensures Redirected(claims, canonical, duplicate, joined) == claims
  {
    if claims != [] {
      var before, last := claims[..|claims| - 1], claims[|claims| - 1];
      RedirectedElsewhere(before, canonical, duplicate, joined);
      assert last.id != canonical && last.id != duplicate;
      assert before + [last] == claims;
    }
  }

  lemma {:induction false} RedirectedCanonical(claims: seq<Claim>, i: nat, duplicate: string, joined: seq<string>)
    requires i < |claims| && DistinctIds(claims)
    requires forall j | 0 <= j < |claims| :: claims[j].id != duplicate
    ensures Redirected(claims, claims[i].id, duplicate, joined) == claims[i := claims[i].(origin := joined)]
  {
    var before, last := claims[..|claims| - 1], claims[|claims| - 1];
    if i < |before| {
      RedirectedCanonical(before, i, duplicate, joined);
    } else {
      RedirectedElsewhere(before, claims[i].id, duplicate, joined);
    }
  }

  // ---------- live lists ----------

  lemma {:induction false} LiveFacts(s: State, n: nat)
    requires Shaped(s) && n <= |s.order|
    ensures DistinctIds(LiveUpTo(s, n))
    ensures forall i | 0 <= i < |LiveUpTo(s, n)| :: LiveClaim(s, LiveUpTo(s, n)[i])
    ensures forall i | 0 <= i < |LiveUpTo(s, n)| :: LiveUpTo(s, n)[i].id in s.order[..n]
  {
    if n > 0 {
      LiveFacts(s, n - 1);
      var id := s.order[n - 1];
      assert s.order[..n] == s.order[..n - 1] + [id];
      assert id in s.claims by { assert id in s.order; }
      assert id !in s.order[..n - 1];
      if id !in s.aliased {
        OneMoreLive(s, s.order[..n - 1], LiveUpTo(s, n - 1), s.claims[id].(origin := s.origins[id]));
      }
    }
  }

  lemma OneMoreLive(s: State, ids: seq<string>, live: seq<Claim>, c: Claim)
    requires s.origins.Keys == s.claims.Keys && DistinctIds(live) && LiveClaim(s, c) && c.id !in ids
    requires forall i | 0 <= i < |live| :: LiveClaim(s, live[i]) && live[i].id in ids
    ensures DistinctIds(live + [c])
    ensures forall i | 0 <= i < |live + [c]| :: LiveClaim(s, (live + [c])[i]) && (live + [c])[i].id in ids + [c.id]
  {
  }

  ghost predicate LiveClaim(s: State, c: Claim)
    requires s.origins.Keys == s.claims.Keys
  {
    c.id in s.claims && c.id !in s.aliased && c == s.claims[c.id].(origin := s.origins[c.id])
  }

  /** An alias that draws no warning. */
  ghost predicate Clean(s: State, a: Alias) {
    && a.canonical in s.claims && a.duplicate in s.claims
    && a.canonical != a.duplicate && a.canonical !in s.aliased
  }

  /** What position `n` of the order contributes to the live list. */
  function LiveAt(s: State, id: string): seq<Claim>
    requires id in s.claims && id in s.origins
  {
    if id in s.aliased then [] else [s.claims[id].(origin := s.origins[id])]
  }

  /** `t` is `s` after a clean alias, as far as the live list is concerned. */
  ghost predicate Merged(s: State, t: State, a: Alias, joined: seq<string>) {
    && s.origins.Keys == s.claims.Keys
    && a.canonical in s.claims && a.canonical != a.duplicate && a.canonical !in s.aliased
    && t.order == s.order && t.claims == s.claims
    && t.aliased == s.aliased + {a.duplicate}
    && t.origins == s.origins[a.canonical := joined]
  }

  lemma AliasAt(s: State, t: State, a: Alias, joined: seq<string>, id: string)
    requires Merged(s, t, a, joined) && id in s.claims && s.claims[id].id == id
    ensures LiveAt(t, id) == Redirected(LiveAt(s, id), a.canonical, a.duplicate, joined)
  {
    var one := LiveAt(s, id);
    if one != [] {
      assert one[..0] == [];
    }
  }

  lemma {:induction false} AliasUpTo(s: State, t: State, a: Alias, joined: seq<string>, n: nat)
    requires Merged(s, t, a, joined) && n <= |s.order|
    requires forall i | 0 <= i < |s.order| :: s.order[i] in s.claims
    requires forall id | id in s.claims :: s.claims[id].id == id
    ensures LiveRedirected(LiveUpTo(s, n), LiveUpTo(t, n), a, joined)
  {
    if n > 0 {
      var id := s.order[n - 1];
      AliasUpTo(s, t, a, joined, n - 1);
      AliasAt(s, t, a, joined, id);
      assert LiveUpTo(t, n) == LiveUpTo(t, n - 1) + LiveAt(t, id);
      RedirectedParts(LiveUpTo(s, n - 1), LiveAt(s, id), LiveUpTo(s, n), a, joined);
    }
  }

  ghost predicate LiveRedirected(before: seq<Claim>, after: seq<Claim>, a: Alias, joined: seq<string>) {
    after == Redirected(before, a.canonical, a.duplicate, joined)
  }

  lemma RedirectedParts(before: seq<Claim>, here: seq<Claim>, all: seq<Claim>, a: Alias, joined: seq<string>)
    requires all == before + here
    ensures Redirected(all, a.canonical, a.duplicate, joined)
         == Redirected(before, a.canonical, a.duplicate, joined) + Redirected(here, a.canonical, a.duplicate, joined)
  {
    RedirectedAppends(before, here, a.canonical, a.duplicate, joined);
  }

  /** A clean alias redirects the live list, and warns of nothing. */
  lemma AliasRedirects(s: State, a: Alias)
    requires Shaped(s) && Clean(s, a)
    ensures var t := ApplyAlias(s, a);
      && Shaped(t) && t.warnings == s.warnings && t.claims == s.claims && t.order == s.order
      && t.aliased == s.aliased + {a.duplicate}
      && Live(t) == Redirected(Live(s), a.canonical, a.duplicate,
                               Union(s.origins[a.canonical], s.origins[a.duplicate]))
  {
    ApplyShaped(s, AliasRecord(a));
    assert forall i | 0 <= i < |s.order| :: s.order[i] in s.order;
    AliasUpTo(s, ApplyAlias(s, a), a, Union(s.origins[a.canonical], s.origins[a.duplicate]), |s.order|);
  }

  // ---------- applying several records ----------

  function ApplyAll(s: State, records: seq<Record>): (r: Result<State, Error>)
    requires s.origins.Keys == s.claims.Keys
    ensures r.Ok? ==> r.value.origins.Keys == r.value.claims.Keys
  {
    if records == [] then Ok(s)
    else
      match ApplyAll(s, records[..|records| - 1])
      case Err(e) => Err(e)
      case Ok(t) => Apply(t, records[|records| - 1])
  }

  lemma {:induction false} ApplyAllAppends(s: State, a: seq<Record>, b: seq<Record>)
    requires s.origins.Keys == s.claims.Keys && ApplyAll(s, a).Ok?
    ensures ApplyAll(s, a + b) == ApplyAll(ApplyAll(s, a).value, b)
    decreases |b|
  {
    if b == [] {
      assert a + b == a;
    } else {
      assert (a + b)[..|a + b| - 1] == a + b[..|b| - 1];
      ApplyAllAppends(s, a, b[..|b| - 1]);
    }
  }

  lemma {:induction false} ReplayAppends(a: seq<Record>, b: seq<Record>)
    requires Replay(a).Ok?
    ensures Replay(a + b) == ApplyAll(Replay(a).value, b)
    decreases |b|
  {
    if b == [] {
      assert a + b == a;
    } else {
      assert (a + b)[..|a + b| - 1] == a + b[..|b| - 1];
      ReplayAppends(a, b[..|b| - 1]);
    }
  }

  // ---------- the records of a list of aliases ----------

  function AliasRecords(aliases: seq<Alias>): seq<Record> {
    if aliases == [] then [] else AliasRecords(aliases[..|aliases| - 1]) + [AliasRecord(aliases[|aliases| - 1])]
  }

  lemma {:induction false} AliasRecordsAppend(a: seq<Alias>, b: seq<Alias>)
    ensures AliasRecords(a + b) == AliasRecords(a) + AliasRecords(b)
    decreases |b|
  {
    if b == [] {
      assert a + b == a;
    } else {
      assert (a + b)[..|a + b| - 1] == a + b[..|b| - 1];
      AliasRecordsAppend(a, b[..|b| - 1]);
    }
  }

  lemma OneAliasRecord(a: Alias)
    ensures AliasRecords([a]) == [AliasRecord(a)]
  {
    assert [a][..0] == [];
  }

  lemma ApplyOneMore(t: State, records: seq<Record>, a: Alias)
    requires t.origins.Keys == t.claims.Keys && ApplyAll(t, records).Ok?
    ensures ApplyAll(t, records + [AliasRecord(a)]) == Ok(ApplyAlias(ApplyAll(t, records).value, a))
  {
    assert (records + [AliasRecord(a)])[..|records|] == records;
  }
}
