/** What adjudicated merges promise: exactly the duplicates leave, nobody's
    agreement is lost, order does not matter, and replay agrees. */
module OrchestratorLaws {
  import opened Records
  import opened Origins
  import opened ReviewState
  import opened LiveAliases
  import opened Orchestrator
  import opened Sequences

  // ---------- what is kept ----------

  /** `o` raised claim `id`, or one of the claims merged into it. */
  ghost predicate StandsBehind(claims: seq<Claim>, decisions: seq<MergeDecision>, id: string, o: string)
    requires Known(claims, id) && OverClaims(decisions, claims)
  {
    || o in claims[Position(claims, id)].origin
    || exists i | 0 <= i < |decisions| ::
         decisions[i].canonical == id && o in claims[Position(claims, decisions[i].duplicate)].origin
  }

  lemma {:induction false} GatheredMeaning(claims: seq<Claim>, decisions: seq<MergeDecision>, id: string, o: string)
    requires Known(claims, id) && OverClaims(decisions, claims)
    ensures o in Names(Gathered(claims, decisions, id)) <==> StandsBehind(claims, decisions, id, o)
  {
    if decisions != [] {
      var before, d := decisions[..|decisions| - 1], decisions[|decisions| - 1];
      GatheredMeaning(claims, before, id, o);
      UnionMeaning(Gathered(claims, before, id), claims[Position(claims, d.duplicate)].origin);
      if d.canonical == id && o in claims[Position(claims, d.duplicate)].origin {
        assert StandsBehind(claims, decisions, id, o);
      }
      if i :| 0 <= i < |before| && before[i].canonical == id && o in claims[Position(claims, before[i].duplicate)].origin {
        assert decisions[i] == before[i];
      }
      if StandsBehind(claims, decisions, id, o) && o !in claims[Position(claims, id)].origin {
        var i :| 0 <= i < |decisions| && decisions[i].canonical == id
          && o in claims[Position(claims, decisions[i].duplicate)].origin;
        if i < |before| {
          assert before[i] == decisions[i];
        }
      }
    }
  }

  /** Exactly the duplicates leave; the rest stay, in order. */
  lemma {:induction false} KeptMeaning(claims: seq<Claim>, decisions: seq<MergeDecision>, n: nat, c: Claim)
    requires n <= |claims| && OverClaims(decisions, claims)
    ensures c in KeptUpTo(claims, decisions, n) <==> exists i :: 0 <= i < n && KeptAs(claims, decisions, i, c)
  {
    if n > 0 {
      KeptMeaning(claims, decisions, n - 1, c);
      assert c in KeptOf(claims, decisions, claims[n - 1]) <==> KeptAs(claims, decisions, n - 1, c);
    }
  }

  ghost predicate KeptAs(claims: seq<Claim>, decisions: seq<MergeDecision>, i: nat, c: Claim)
    requires i < |claims| && OverClaims(decisions, claims)
  {
    && claims[i].id !in DuplicatesOf(decisions)
    && c == claims[i].(origin := Gathered(claims, decisions, claims[i].id))
  }

  /** In a depth-one forest nobody's agreement is lost: every origin of every
      claim, merged away or not, is an origin of a kept claim. */
  lemma NoOriginLost(claims: seq<Claim>, decisions: seq<MergeDecision>, i: nat, o: string)
    requires DistinctIds(claims) && OverClaims(decisions, claims) && Forest(decisions)
    requires i < |claims| && o in claims[i].origin
    ensures exists c :: c in KeptUpTo(claims, decisions, |claims|) && o in c.origin
  {
    PositionUnique(claims, i);
    var home := i;
    if claims[i].id in DuplicatesOf(decisions) {
      var n :| 0 <= n < |decisions| && decisions[n].duplicate == claims[i].id;
      home := Position(claims, decisions[n].canonical);
      PositionUnique(claims, home);
      assert claims[home].id == decisions[n].canonical;
      assert StandsBehind(claims, decisions, claims[home].id, o);
    }
    assert claims[home].id !in DuplicatesOf(decisions);
    GatheredMeaning(claims, decisions, claims[home].id, o);
    var c := claims[home].(origin := Gathered(claims, decisions, claims[home].id));
    assert KeptAs(claims, decisions, home, c);
    KeptMeaning(claims, decisions, |claims|, c);
  }

  // ---------- the order of the decisions ----------

  ghost predicate SameUpToOriginOrder(a: seq<Claim>, b: seq<Claim>) {
    && |a| == |b|
    && forall i | 0 <= i < |a| :: Names(a[i].origin) == Names(b[i].origin) && a[i] == b[i].(origin := a[i].origin)
  }

  lemma SameDecisions(claims: seq<Claim>, a: seq<MergeDecision>, b: seq<MergeDecision>, id: string)
    requires multiset(a) == multiset(b) && OverClaims(a, claims) && OverClaims(b, claims) && Known(claims, id)
    ensures DuplicatesOf(a) == DuplicatesOf(b)
    ensures Names(Gathered(claims, a, id)) == Names(Gathered(claims, b, id))
  {
    forall i | 0 <= i < |a| ensures a[i] in b { assert a[i] in multiset(a); }
    forall i | 0 <= i < |b| ensures b[i] in a { assert b[i] in multiset(b); }
    forall o
      ensures o in Names(Gathered(claims, a, id)) <==> o in Names(Gathered(claims, b, id))
    {
      GatheredMeaning(claims, a, id, o);
      GatheredMeaning(claims, b, id, o);
    }
  }

  /** Whatever order the decisions come in, the same claims are kept, in the same
      order, with the same origins but for the order of each list. */
  lemma {:induction false} DecisionOrderDoesNotMatter(
      claims: seq<Claim>, a: seq<MergeDecision>, b: seq<MergeDecision>, n: nat)
    requires multiset(a) == multiset(b) && OverClaims(a, claims) && OverClaims(b, claims) && n <= |claims|
    ensures SameUpToOriginOrder(KeptUpTo(claims, a, n), KeptUpTo(claims, b, n))
  {
    if n > 0 {
      DecisionOrderDoesNotMatter(claims, a, b, n - 1);
      assert Known(claims, claims[n - 1].id);
      SameDecisions(claims, a, b, claims[n - 1].id);
    }
  }

  // ---------- replay ----------

  ghost predicate OriginsIn(origins: map<string, seq<string>>, claims: seq<Claim>, done: seq<MergeDecision>)
    requires OverClaims(done, claims)
  {
    forall i {:trigger OriginAt(origins, claims, done, i)} :: 0 <= i < |claims| ==> OriginAt(origins, claims, done, i)
  }

  ghost predicate OriginAt(origins: map<string, seq<string>>, claims: seq<Claim>, done: seq<MergeDecision>, i: nat)
    requires OverClaims(done, claims) && i < |claims|
  {
    && Known(claims, claims[i].id) && claims[i].id in origins
    && origins[claims[i].id] == Gathered(claims, done, claims[i].id)
  }

  /** The replayed state after some of the decisions' aliases. */
  ghost predicate InStep(s: State, u: State, claims: seq<Claim>, done: seq<MergeDecision>) {
    && Shaped(s) && Shaped(u) && OverClaims(done, claims)
    && u.warnings == s.warnings && u.claims == s.claims
    && u.aliased == s.aliased + DuplicatesOf(done)
    && OriginsIn(u.origins, claims, done)
    && Live(u) == KeptUpTo(claims, done, |claims|)
  }

  lemma Assemble(before: seq<Claim>, here: seq<Claim>, before': seq<Claim>, here': seq<Claim>,
                 d: MergeDecision, joined: seq<string>)
    requires before' == Redirected(before, d.canonical, d.duplicate, joined)
    requires here' == Redirected(here, d.canonical, d.duplicate, joined)
    ensures before' + here' == Redirected(before + here, d.canonical, d.duplicate, joined)
  {
    RedirectedAppends(before, here, d.canonical, d.duplicate, joined);
  }

  /** The first `n` claims kept after one decision more. */
  ghost predicate KeptRedirected(claims: seq<Claim>, done: seq<MergeDecision>, more: seq<MergeDecision>,
                                 d: MergeDecision, joined: seq<string>, n: nat)
    requires n <= |claims| && OverClaims(more, claims) && OverClaims(done, claims)
  {
    KeptUpTo(claims, more, n) == Redirected(KeptUpTo(claims, done, n), d.canonical, d.duplicate, joined)
  }

  lemma {:induction false} RedirectedKept(claims: seq<Claim>, done: seq<MergeDecision>, more: seq<MergeDecision>,
                                          d: MergeDecision, joined: seq<string>, n: nat)
    requires n <= |claims| && more == done + [d] && OverClaims(more, claims) && OverClaims(done, claims)
    requires Joins(claims, done, d, joined)
    ensures KeptRedirected(claims, done, more, d, joined, n)
  {
    if n > 0 {
      RedirectedKept(claims, done, more, d, joined, n - 1);
      RedirectedHere(claims, done, d, joined, n - 1);
      RedirectedStep(claims, done, more, d, joined, n);
    }
  }

  lemma RedirectedStep(claims: seq<Claim>, done: seq<MergeDecision>, more: seq<MergeDecision>, d: MergeDecision,
                       joined: seq<string>, n: nat)
    requires 0 < n <= |claims| && OverClaims(more, claims) && OverClaims(done, claims)
    requires KeptRedirected(claims, done, more, d, joined, n - 1)
    requires Known(claims, claims[n - 1].id)
    requires KeptOf(claims, more, claims[n - 1])
          == Redirected(KeptOf(claims, done, claims[n - 1]), d.canonical, d.duplicate, joined)
    ensures KeptRedirected(claims, done, more, d, joined, n)
  {
    Assemble(KeptUpTo(claims, done, n - 1), KeptOf(claims, done, claims[n - 1]),
             KeptUpTo(claims, more, n - 1), KeptOf(claims, more, claims[n - 1]), d, joined);
  }

  ghost predicate Joins(claims: seq<Claim>, done: seq<MergeDecision>, d: MergeDecision, joined: seq<string>)
    requires OverClaims(done, claims)
  {
    && Known(claims, d.canonical) && Known(claims, d.duplicate)
    && joined == Union(Gathered(claims, done, d.canonical), claims[Position(claims, d.duplicate)].origin)
  }

  lemma RedirectedHere(claims: seq<Claim>, done: seq<MergeDecision>, d: MergeDecision, joined: seq<string>, i: nat)
    requires i < |claims| && OverClaims(done + [d], claims) && OverClaims(done, claims)
    requires Known(claims, claims[i].id) && Joins(claims, done, d, joined)
    ensures KeptOf(claims, done + [d], claims[i])
         == Redirected(KeptOf(claims, done, claims[i]), d.canonical, d.duplicate, joined)
  {
    GatheredStep(claims, done, d, claims[i].id);
    OneMoreDecision(done, d);
    RedirectedOne(KeptOf(claims, done, claims[i]), d, joined);
  }

  lemma RedirectedOne(here: seq<Claim>, d: MergeDecision, joined: seq<string>)
    requires |here| <= 1
    ensures Redirected(here, d.canonical, d.duplicate, joined)
         == if here == [] || here[0].id == d.duplicate then []
            else if here[0].id == d.canonical then [here[0].(origin := joined)]
            else here
  {
    if here != [] {
      assert here[..0] == [];
    }
  }

  lemma StepIsClean(s: State, u: State, claims: seq<Claim>, done: seq<MergeDecision>, d: MergeDecision, round: int)
    requires InStep(s, u, claims, done) && Forest(done + [d]) && Live(s) == claims && d.canonical != d.duplicate
    requires Known(claims, d.canonical) && Known(claims, d.duplicate)
    ensures Clean(u, AliasOf(d, round))
    ensures u.origins[d.canonical] == Gathered(claims, done, d.canonical)
    ensures u.origins[d.duplicate] == claims[Position(claims, d.duplicate)].origin
  {
    var more := done + [d];
    assert more[|done|] == d && forall i | 0 <= i < |done| :: more[i] == done[i];
    var i, j := Position(claims, d.canonical), Position(claims, d.duplicate);
    LiveFacts(s, |s.order|);
    assert LiveClaim(s, claims[i]) && LiveClaim(s, claims[j]);
    assert OriginAt(u.origins, claims, done, i) && OriginAt(u.origins, claims, done, j);
    assert forall k | 0 <= k < |done| :: more[k].duplicate != more[|done|].canonical;
    assert d.canonical !in DuplicatesOf(done);
    UnmergedOrigin(claims, done, d);
  }

  lemma StepLive(u: State, t: State, claims: seq<Claim>, done: seq<MergeDecision>, d: MergeDecision,
                 a: Alias, joined: seq<string>)
    requires Shaped(u) && OverClaims(done + [d], claims) && OverClaims(done, claims)
    requires a.canonical == d.canonical && a.duplicate == d.duplicate && Clean(u, a) && t == ApplyAlias(u, a)
    requires joined == Union(u.origins[a.canonical], u.origins[a.duplicate]) && Joins(claims, done, d, joined)
    requires Live(u) == KeptUpTo(claims, done, |claims|)
    ensures Shaped(t) && Live(t) == KeptUpTo(claims, done + [d], |claims|)
  {
    AliasRedirects(u, a);
    RedirectedKept(claims, done, done + [d], d, joined, |claims|);
  }

  lemma StepReplays(s: State, u: State, claims: seq<Claim>, done: seq<MergeDecision>, d: MergeDecision, a: Alias)
    requires InStep(s, u, claims, done) && OverClaims(done + [d], claims)
    requires a.canonical == d.canonical && a.duplicate == d.duplicate && Clean(u, a)
    requires Known(claims, d.canonical) && Known(claims, d.duplicate)
    requires u.origins[d.canonical] == Gathered(claims, done, d.canonical)
    requires u.origins[d.duplicate] == claims[Position(claims, d.duplicate)].origin
    ensures InStep(s, ApplyAlias(u, a), claims, done + [d])
  {
    var t, joined := ApplyAlias(u, a), Union(u.origins[a.canonical], u.origins[a.duplicate]);
    assert Joins(claims, done, d, joined);
    StepLive(u, t, claims, done, d, a, joined);
    StepState(u, t, done, d, a);
    StepOrigins(u.origins, claims, done, d);
    StepHolds(s, u, t, claims, done, d);
  }

  lemma StepHolds(s: State, u: State, t: State, claims: seq<Claim>, done: seq<MergeDecision>, d: MergeDecision)
    requires InStep(s, u, claims, done) && OverClaims(done + [d], claims) && Shaped(t)
    requires t.warnings == u.warnings && t.claims == u.claims
    requires t.aliased == u.aliased + {d.duplicate} && DuplicatesOf(done + [d]) == DuplicatesOf(done) + {d.duplicate}
    requires OriginsIn(t.origins, claims, done + [d]) && Live(t) == KeptUpTo(claims, done + [d], |claims|)
    ensures InStep(s, t, claims, done + [d])
  {
  }

  lemma StepState(u: State, t: State, done: seq<MergeDecision>, d: MergeDecision, a: Alias)
    requires Shaped(u) && Clean(u, a) && t == ApplyAlias(u, a)
    requires a.canonical == d.canonical && a.duplicate == d.duplicate
    ensures t.warnings == u.warnings && t.claims == u.claims
    ensures t.aliased == u.aliased + {d.duplicate} && DuplicatesOf(done + [d]) == DuplicatesOf(done) + {d.duplicate}
    ensures t.origins == u.origins[d.canonical := Union(u.origins[d.canonical], u.origins[d.duplicate])]
  {
    OneMoreDecision(done, d);
  }

  lemma StepOrigins(origins: map<string, seq<string>>, claims: seq<Claim>, done: seq<MergeDecision>, d: MergeDecision)
    requires OverClaims(done + [d], claims) && OverClaims(done, claims)
    requires Known(claims, d.canonical) && Known(claims, d.duplicate)
    requires OriginsIn(origins, claims, done)
    requires d.canonical in origins && origins[d.canonical] == Gathered(claims, done, d.canonical)
    ensures OriginsIn(
      origins[d.canonical := Union(origins[d.canonical], claims[Position(claims, d.duplicate)].origin)], claims, done + [d])
  {
    var joined := Union(origins[d.canonical], claims[Position(claims, d.duplicate)].origin);
    var origins', more := origins[d.canonical := joined], done + [d];
    forall k | 0 <= k < |claims|
      ensures OriginAt(origins', claims, more, k)
    {
      assert OriginAt(origins, claims, done, k);
      GatheredStep(claims, done, d, claims[k].id);
    }
  }

  /** A duplicate is nobody's canonical claim, so it gathers nothing. */
  lemma {:induction false} UnmergedOrigin(claims: seq<Claim>, done: seq<MergeDecision>, d: MergeDecision)
    requires OverClaims(done, claims) && Known(claims, d.duplicate) && Forest(done + [d])
    ensures Gathered(claims, done, d.duplicate) == claims[Position(claims, d.duplicate)].origin
  {
    if done != [] {
      var before, last := done[..|done| - 1], done[|done| - 1];
      var more := done + [d];
      assert more[|done|] == d && more[|done| - 1] == last;
      forall i | 0 <= i < |before| ensures before[i] == more[i] {}
      assert (before + [d])[|before|] == d;
      assert forall i | 0 <= i < |before| :: (before + [d])[i] == more[i];
      UnmergedOrigin(claims, before, d);
    }
  }

  /** Replaying the emitted aliases over the same live claims gives what
      `apply_merges` kept, in the same order, without a warning. */
  lemma {:induction false} MergesReplay(s: State, claims: seq<Claim>, decisions: seq<MergeDecision>, round: int)
    requires Shaped(s) && Live(s) == claims && OverClaims(decisions, claims) && Forest(decisions)
    ensures var r := ApplyAll(s, AliasRecords(AliasesOf(decisions, round)));
      r.Ok? && InStep(s, r.value, claims, decisions)
  {
    LiveFacts(s, |s.order|);
    if decisions == [] {
      LiveOrigins(s, claims);
      NothingMerged(claims, |claims|);
    } else {
      var before, d := decisions[..|decisions| - 1], decisions[|decisions| - 1];
      assert decisions == before + [d];
      MergesReplay(s, claims, before, round);
      var u := ApplyAll(s, AliasRecords(AliasesOf(before, round))).value;
      assert before + [d] == decisions && decisions[|before|] == d;
      StepIsClean(s, u, claims, before, d, round);
      StepReplays(s, u, claims, before, d, AliasOf(d, round));
      AliasesGrow(before, d, round);
      AliasRecordsAppend(AliasesOf(before, round), [AliasOf(d, round)]);
      OneAliasRecord(AliasOf(d, round));
      ApplyOneMore(s, AliasRecords(AliasesOf(before, round)), AliasOf(d, round));
    }
  }

  lemma LiveOrigins(s: State, claims: seq<Claim>)
    requires Shaped(s) && Live(s) == claims
    ensures DistinctIds(claims) && OriginsIn(s.origins, claims, [])
  {
    LiveFacts(s, |s.order|);
    forall i | 0 <= i < |claims|
      ensures OriginAt(s.origins, claims, [], i)
    {
      assert LiveClaim(s, claims[i]);
      PositionUnique(claims, i);
    }
  }

  lemma {:induction false} NothingMerged(claims: seq<Claim>, n: nat)
    requires DistinctIds(claims) && n <= |claims|
    ensures KeptUpTo(claims, [], n) == claims[..n]
  {
    if n > 0 {
      NothingMerged(claims, n - 1);
      PositionUnique(claims, n - 1);
      TakeOneMore(claims, n - 1);
    }
  }
}
