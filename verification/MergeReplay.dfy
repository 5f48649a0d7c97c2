/** In-memory deduplication agrees with replaying the log it leaves behind. */
module MergeReplay {
  import opened Wrappers
  import opened Records
  import opened Sequences
  import opened Origins
  import opened ReviewState
  import opened Merge
  import opened LiveAliases

  function ClaimRecords(claims: seq<Claim>): seq<Record> {
    if claims == [] then [] else ClaimRecords(claims[..|claims| - 1]) + [ClaimRecord(claims[|claims| - 1])]
  }

  /** What a round appends: every claim raised, kept or not, then the aliases. */
  function BatchLog(key: KeyOf, live: seq<Claim>, incoming: seq<Claim>, round: int): seq<Record> {
    ClaimRecords(incoming) + AliasRecords(Aliases(key, live, incoming, round))
  }

  function IdSet(claims: seq<Claim>): set<string> {
    if claims == [] then {} else IdSet(claims[..|claims| - 1]) + {claims[|claims| - 1].id}
  }

  lemma {:induction false} InIdSet(claims: seq<Claim>, id: string)
    ensures id in IdSet(claims) <==> exists i :: 0 <= i < |claims| && claims[i].id == id
  {
    if claims != [] {
      var before := claims[..|claims| - 1];
      InIdSet(before, id);
      if i :| 0 <= i < |before| && before[i].id == id {
        assert claims[i].id == id;
      }
      if i :| 0 <= i < |claims| && claims[i].id == id {
        if i < |before| {
          assert before[i].id == id;
        }
      }
    }
  }

  lemma {:induction false} IdSetAppends(a: seq<Claim>, b: seq<Claim>)
    ensures IdSet(a + b) == IdSet(a) + IdSet(b)
    decreases |b|
  {
    if b == [] {
      assert a + b == a;
    } else {
      assert (a + b)[..|a + b| - 1] == a + b[..|b| - 1];
      IdSetAppends(a, b[..|b| - 1]);
    }
  }

  lemma LastIdIsNew(claims: seq<Claim>)
    requires DistinctIds(claims) && claims != []
    ensures DistinctIds(claims[..|claims| - 1])
    ensures claims[|claims| - 1].id !in IdSet(claims[..|claims| - 1])
  {
    InIdSet(claims[..|claims| - 1], claims[|claims| - 1].id);
  }

  /** Newly raised claims: ids the state has never seen, superseding nothing. */
  ghost predicate NewlyRaised(s: State, incoming: seq<Claim>) {
    && DistinctIds(incoming)
    && forall i | 0 <= i < |incoming| ::
         incoming[i].id !in s.claims && incoming[i].id !in s.aliased && incoming[i].supersedes.None?
  }

  // ---------- the claims of a batch ----------

  lemma ClaimGoesLive(s: State, c: Claim)
    requires Shaped(s) && c.id !in s.claims && c.id !in s.aliased && c.supersedes.None?
    ensures var r := Apply(s, ClaimRecord(c));
      && r.Ok? && Shaped(r.value) && r.value.warnings == s.warnings && r.value.aliased == s.aliased
      && r.value.claims.Keys == s.claims.Keys + {c.id}
      && Live(r.value) == Live(s) + [c]
  {
    ApplyShaped(s, ClaimRecord(c));
    var t := Apply(s, ClaimRecord(c)).value;
    assert t == s.(order := s.order + [c.id], claims := s.claims[c.id := c], origins := s.origins[c.id := c.origin]);
    assert forall i | 0 <= i < |s.order| :: s.order[i] in s.order;
    LastGoesLive(s, t, c);
  }

  lemma LastGoesLive(s: State, t: State, c: Claim)
    requires forall i | 0 <= i < |s.order| :: s.order[i] in s.claims && s.order[i] in s.origins && s.order[i] != c.id
    requires c.id !in s.aliased
    requires t == s.(order := s.order + [c.id], claims := s.claims[c.id := c], origins := s.origins[c.id := c.origin])
    ensures forall i | 0 <= i < |t.order| :: t.order[i] in t.claims && t.order[i] in t.origins
    ensures LiveUpTo(t, |t.order|) == LiveUpTo(s, |s.order|) + [c]
  {
    SameLive(s, t, |s.order|);
    assert t.order[|s.order|] == c.id;
    assert t.claims[c.id].(origin := t.origins[c.id]) == c;
  }

  lemma {:induction false} SameLive(s: State, t: State, n: nat)
    requires n <= |s.order| && s.order <= t.order && s.aliased == t.aliased
    requires forall i | 0 <= i < |s.order| :: s.order[i] in s.claims && s.order[i] in s.origins
    requires forall i | 0 <= i < |t.order| :: t.order[i] in t.claims && t.order[i] in t.origins
    requires forall i | 0 <= i < |s.order| ::
      t.claims[s.order[i]] == s.claims[s.order[i]] && t.origins[s.order[i]] == s.origins[s.order[i]]
    ensures LiveUpTo(s, n) == LiveUpTo(t, n)
  {
    if n > 0 {
      SameLive(s, t, n - 1);
      assert t.order[n - 1] == s.order[n - 1];
    }
  }

  /** The state once every claim of the batch is on record. */
  ghost predicate Extends(s: State, t: State, raised: seq<Claim>) {
    && Shaped(s) && Shaped(t) && t.warnings == s.warnings && t.aliased == s.aliased
    && t.claims.Keys == s.claims.Keys + IdSet(raised)
    && Live(t) == Live(s) + raised
  }

  lemma OneClaimMore(s: State, head: seq<Claim>, t: State, c: Claim)
    requires s.origins.Keys == s.claims.Keys && t.origins.Keys == t.claims.Keys
    requires ApplyAll(s, ClaimRecords(head)) == Ok(t)
    ensures ClaimRecords(head + [c]) == ClaimRecords(head) + [ClaimRecord(c)]
    ensures ApplyAll(s, ClaimRecords(head + [c])) == Apply(t, ClaimRecord(c))
  {
    DropLast(head, c);
    AppliedLast(s, ClaimRecords(head), ClaimRecord(c));
  }

  lemma AppliedLast(s: State, records: seq<Record>, record: Record)
    requires s.origins.Keys == s.claims.Keys && ApplyAll(s, records).Ok?
    ensures ApplyAll(s, records + [record]) == Apply(ApplyAll(s, records).value, record)
  {
    DropLast(records, record);
  }

  lemma ExtendsMore(s: State, t: State, raised: seq<Claim>, c: Claim, u: State)
    requires Extends(s, t, raised) && Shaped(u) && u.warnings == t.warnings && u.aliased == t.aliased
    requires u.claims.Keys == t.claims.Keys + {c.id} && Live(u) == Live(t) + [c]
    ensures Extends(s, u, raised + [c])
  {
    IdSetMore(raised, c);
    Reassociate(Live(s), raised, [c]);
  }

  lemma IdSetMore(claims: seq<Claim>, c: Claim)
    ensures IdSet(claims + [c]) == IdSet(claims) + {c.id}
  {
    DropLast(claims, c);
  }

  lemma {:induction false} ClaimsGoLive(s: State, incoming: seq<Claim>)
    requires Shaped(s) && NewlyRaised(s, incoming)
    ensures ApplyAll(s, ClaimRecords(incoming)).Ok?
    ensures Extends(s, ApplyAll(s, ClaimRecords(incoming)).value, incoming)
  {
    if incoming == [] {
      NothingAfter(Live(s));
    } else {
      var before, c := incoming[..|incoming| - 1], incoming[|incoming| - 1];
      assert incoming == before + [c];
      ClaimsGoLive(s, before);
      var t := ApplyAll(s, ClaimRecords(before)).value;
      LastIdIsNew(incoming);
      ClaimGoesLive(t, c);
      OneClaimMore(s, before, t, c);
      ExtendsMore(s, t, before, c, Apply(t, ClaimRecord(c)).value);
    }
  }

  // ---------- the aliases of a batch ----------

  lemma DistinctParts(a: seq<Claim>, c: Claim, b: seq<Claim>)
    requires DistinctIds(a + [c] + b)
    ensures DistinctIds(a)
    ensures forall j | 0 <= j < |a| :: a[j].id != c.id
    ensures forall j | 0 <= j < |b| :: b[j].id != c.id
    ensures forall i, j | 0 <= i < |a| && 0 <= j < |b| :: b[j].id != a[i].id
  {
    var all := a + [c] + b;
    assert forall j | 0 <= j < |a| :: all[j] == a[j];
    assert all[|a|] == c;
    assert forall j | 0 <= j < |b| :: all[|a| + 1 + j] == b[j];
  }

  /** One duplicate leaves a live list for the claim at `i`. */
  lemma DuplicateLeaves(a: seq<Claim>, c: Claim, b: seq<Claim>, i: nat, joined: seq<string>)
    requires DistinctIds(a + [c] + b) && i < |a|
    ensures Redirected(a + [c] + b, a[i].id, c.id, joined) == a[i := a[i].(origin := joined)] + b
  {
    DistinctParts(a, c, b);
    RedirectedAppends(a + [c], b, a[i].id, c.id, joined);
    RedirectedAppends(a, [c], a[i].id, c.id, joined);
    assert Redirected([c], a[i].id, c.id, joined) == [] by {
      assert [c][..0] == [];
    }
    RedirectedCanonical(a, i, c.id, joined);
    RedirectedElsewhere(b, a[i].id, c.id, joined);
  }

  /** One incoming claim, already live at the end of the absorbed ones: absorbing
      it and applying its alias, if it has one, come to the same. */
  lemma AbsorbOne(key: KeyOf, t: State, now: seq<Claim>, c: Claim, rest: seq<Claim>, round: int)
    requires Shaped(t) && Live(t) == now + [c] + rest
    ensures var i := LastMatch(key, now, KeyFor(key, c));
      var u := if i < 0 then t else ApplyAlias(t, AliasFor(now, i, c, round));
      && Shaped(u) && u.warnings == t.warnings && u.claims == t.claims
      && u.aliased == t.aliased + (if i < 0 then {} else {c.id})
      && Live(u) == Absorb(key, now, c) + rest
  {
    var i := LastMatch(key, now, KeyFor(key, c));
    if i < 0 {
      assert now + [c] + rest == (now + [c]) + rest;
    } else {
      var live := Live(t);
      LiveFacts(t, |t.order|);
      assert live[i] == now[i] && live[|now|] == c;
      assert LiveClaim(t, live[i]) && LiveClaim(t, live[|now|]);
      AliasRedirects(t, AliasFor(now, i, c, round));
      DuplicateLeaves(now, c, rest, i, Union(now[i].origin, c.origin));
    }
  }

  ghost predicate Halfway(key: KeyOf, s: State, t: State, u: State, incoming: seq<Claim>, n: nat) {
    && n <= |incoming|
    && Shaped(s) && Shaped(t) && Shaped(u) && u.warnings == t.warnings && u.claims == t.claims
    && u.aliased <= t.aliased + IdSet(incoming)
    && Live(u) == Absorbed(key, Live(s), incoming[..n]) + incoming[n..]
  }

  lemma HalfwayStep(key: KeyOf, s: State, t: State, u: State, incoming: seq<Claim>, n: nat, round: int)
    requires n < |incoming| && Halfway(key, s, t, u, incoming, n)
    ensures var now := Absorbed(key, Live(s), incoming[..n]);
      var i := LastMatch(key, now, KeyFor(key, incoming[n]));
      Halfway(key, s, t, if i < 0 then u else ApplyAlias(u, AliasFor(now, i, incoming[n], round)), incoming, n + 1)
  {
    var c, now := incoming[n], Absorbed(key, Live(s), incoming[..n]);
    assert incoming[n..] == [c] + incoming[n + 1..];
    Reassociate(now, [c], incoming[n + 1..]);
    AbsorbOne(key, u, now, c, incoming[n + 1..], round);
    TakeOneMore(incoming, n);
    AbsorbedLast(key, Live(s), incoming[..n], c);
    InIdSet(incoming, c.id);
  }

  lemma AbsorbedLast(key: KeyOf, live: seq<Claim>, done: seq<Claim>, c: Claim)
    ensures Absorbed(key, live, done + [c]) == Absorb(key, Absorbed(key, live, done), c)
  {
    DropLast(done, c);
  }

  lemma {:induction false} AliasesFollow(key: KeyOf, s: State, t: State, incoming: seq<Claim>, n: nat, round: int)
    requires Extends(s, t, incoming) && n <= |incoming|
    ensures var r := ApplyAll(t, AliasRecords(Aliases(key, Live(s), incoming[..n], round)));
      r.Ok? && Halfway(key, s, t, r.value, incoming, n)
  {
    if n == 0 {
      assert incoming[..0] == [] && incoming[0..] == incoming;
    } else {
      AliasesFollow(key, s, t, incoming, n - 1, round);
      var before, c := incoming[..n - 1], incoming[n - 1];
      var aliases := Aliases(key, Live(s), before, round);
      var u := ApplyAll(t, AliasRecords(aliases)).value;
      HalfwayStep(key, s, t, u, incoming, n - 1, round);
      TakeOneMore(incoming, n - 1);
      AliasesGrow(key, Live(s), t, u, before, c, round);
    }
  }

  lemma AliasRecordsMore(before: seq<Alias>, a: Alias)
    ensures AliasRecords(before + [a]) == AliasRecords(before) + [AliasRecord(a)]
  {
    DropLast(before, a);
  }

  lemma OneAliasMore(t: State, before: seq<Alias>, a: Alias, u: State)
    requires t.origins.Keys == t.claims.Keys && u.origins.Keys == u.claims.Keys
    requires ApplyAll(t, AliasRecords(before)) == Ok(u)
    ensures ApplyAll(t, AliasRecords(before + [a])) == Ok(ApplyAlias(u, a))
  {
    AliasRecordsMore(before, a);
    ApplyOneMore(t, AliasRecords(before), a);
  }

  /** The alias of one more claim, if it has one, is the last record applied. */
  lemma AliasesGrow(key: KeyOf, live: seq<Claim>, t: State, u: State, done: seq<Claim>, c: Claim, round: int)
    requires t.origins.Keys == t.claims.Keys && u.origins.Keys == u.claims.Keys
    requires ApplyAll(t, AliasRecords(Aliases(key, live, done, round))) == Ok(u)
    ensures var now := Absorbed(key, live, done);
      var i := LastMatch(key, now, KeyFor(key, c));
      ApplyAll(t, AliasRecords(Aliases(key, live, done + [c], round)))
        == Ok(if i < 0 then u else ApplyAlias(u, AliasFor(now, i, c, round)))
  {
    var aliases, now := Aliases(key, live, done, round), Absorbed(key, live, done);
    AliasesAppend(key, live, done, c, round);
    var i := LastMatch(key, now, KeyFor(key, c));
    if i < 0 {
      NothingAfter(aliases);
    } else {
      OneAliasMore(t, aliases, AliasFor(now, i, c, round), u);
    }
  }

  /** Replaying a batch's log from any state gives the claims, order and origins
      that merging the batch in memory gives, without a warning. */
  lemma BatchAgrees(key: KeyOf, s: State, incoming: seq<Claim>, round: int)
    requires Shaped(s) && NewlyRaised(s, incoming)
    ensures var r := ApplyAll(s, BatchLog(key, Live(s), incoming, round));
      && r.Ok? && Shaped(r.value)
      && Live(r.value) == Absorbed(key, Live(s), incoming)
      && r.value.warnings == s.warnings
      && r.value.claims.Keys == s.claims.Keys + IdSet(incoming)
      && r.value.aliased <= s.aliased + IdSet(incoming)
  {
    ClaimsGoLive(s, incoming);
    var t := ApplyAll(s, ClaimRecords(incoming)).value;
    AliasesFollow(key, s, t, incoming, |incoming|, round);
    assert incoming[..|incoming|] == incoming && incoming[|incoming|..] == [];
    ApplyAllAppends(s, ClaimRecords(incoming), AliasRecords(Aliases(key, Live(s), incoming, round)));
    var now := Absorbed(key, Live(s), incoming);
    assert now + [] == now;
  }

  // ---------- whole runs ----------

  datatype Batch = Batch(round: int, incoming: seq<Claim>)

  /** The live claims kept in memory, batch after batch. */
  function InMemory(key: KeyOf, batches: seq<Batch>): seq<Claim> {
    if batches == [] then []
    else Absorbed(key, InMemory(key, batches[..|batches| - 1]), batches[|batches| - 1].incoming)
  }

  function RunLog(key: KeyOf, batches: seq<Batch>): seq<Record> {
    if batches == [] then []
    else
      var before, last := batches[..|batches| - 1], batches[|batches| - 1];
      RunLog(key, before) + BatchLog(key, InMemory(key, before), last.incoming, last.round)
  }

  function AllRaised(batches: seq<Batch>): seq<Claim> {
    if batches == [] then [] else AllRaised(batches[..|batches| - 1]) + batches[|batches| - 1].incoming
  }

  ghost predicate MintedIds(claims: seq<Claim>) {
    DistinctIds(claims) && forall i | 0 <= i < |claims| :: claims[i].supersedes.None?
  }

  /** Over any run of batches with distinct ids, the log replays to exactly the
      claims held in memory: the same claims, in the same order, with the same
      origin lists, and nothing to warn about. */
  lemma {:induction false} RunAgrees(key: KeyOf, batches: seq<Batch>)
    requires MintedIds(AllRaised(batches))
    ensures var r := Replay(RunLog(key, batches));
      && r.Ok? && Shaped(r.value)
      && Live(r.value) == InMemory(key, batches)
      && r.value.warnings == []
      && r.value.claims.Keys == IdSet(AllRaised(batches))
      && r.value.aliased <= r.value.claims.Keys
  {
    if batches != [] {
      var before, last := batches[..|batches| - 1], batches[|batches| - 1];
      MintedParts(AllRaised(before), last.incoming);
      RunAgrees(key, before);
      var s := Replay(RunLog(key, before)).value;
      BatchAgrees(key, s, last.incoming, last.round);
      ReplayAppends(RunLog(key, before), BatchLog(key, Live(s), last.incoming, last.round));
      IdSetAppends(AllRaised(before), last.incoming);
    }
  }

  lemma MintedParts(earlier: seq<Claim>, incoming: seq<Claim>)
    requires MintedIds(earlier + incoming)
    ensures MintedIds(earlier) && MintedIds(incoming)
    ensures forall i | 0 <= i < |incoming| :: incoming[i].id !in IdSet(earlier)
  {
    var all := earlier + incoming;
    assert forall i | 0 <= i < |earlier| :: all[i] == earlier[i];
    assert forall i | 0 <= i < |incoming| :: all[|earlier| + i] == incoming[i];
    forall i | 0 <= i < |incoming|
      ensures incoming[i].id !in IdSet(earlier)
    {
      InIdSet(earlier, incoming[i].id);
    }
  }
}
