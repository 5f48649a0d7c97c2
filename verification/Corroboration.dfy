/** Whether the fact that someone raised a claim survives in the live claims: exactly
    when it does, step by step and over whole replays. */
module Corroboration {
  import opened Wrappers
  import opened Records
  import opened Sequences
  import opened Origins
  import opened ReviewState
  import opened LiveAliases

  // ---------- who carries an origin ----------

  /** The live claim `id` carries origin `o`. */
  ghost predicate Carries(s: State, id: string, o: string) {
    id in s.claims && id in s.origins && id !in s.aliased && o in s.origins[id]
  }

  ghost predicate Stands(s: State, o: string) {
    exists id :: Carries(s, id, o)
  }

  /** Some live claim other than `id` carries it. */
  ghost predicate StandsWithout(s: State, id: string, o: string) {
    exists other :: other != id && Carries(s, other, o)
  }

  lemma {:induction false} LiveHolds(s: State, n: nat, i: nat)
    requires Shaped(s) && i < n <= |s.order| && s.order[i] !in s.aliased
    ensures s.order[i] in s.claims
    ensures s.claims[s.order[i]].(origin := s.origins[s.order[i]]) in LiveUpTo(s, n)
  {
    assert s.order[i] in s.order;
    if i < n - 1 {
      LiveHolds(s, n - 1, i);
    }
  }

  /** Carrying an origin is being a live claim with it. */
  lemma StandsMeaning(s: State, o: string)
    requires Shaped(s)
    ensures Stands(s, o) <==> exists c :: c in Live(s) && o in c.origin
  {
    if Stands(s, o) {
      var id :| Carries(s, id, o);
      assert id in s.order;
      var i :| 0 <= i < |s.order| && s.order[i] == id;
      LiveHolds(s, |s.order|, i);
    }
    if c :| c in Live(s) && o in c.origin {
      LiveFacts(s, |s.order|);
      assert LiveClaim(s, c);
      assert Carries(s, c.id, o);
    }
  }

  // ---------- one record ----------

  /** An alias keeps an origin live exactly if it draws no warning or another live
      claim than its duplicate carries the origin. */
  lemma AliasKeepsExactly(s: State, a: Alias, o: string)
    requires Shaped(s) && Stands(s, o)
    ensures Stands(ApplyAlias(s, a), o) <==> Clean(s, a) || StandsWithout(s, a.duplicate, o)
  {
    AliasStands(s, a, o);
  }

  lemma AliasStands(s: State, a: Alias, o: string)
    requires Shaped(s)
    ensures Stands(ApplyAlias(s, a), o) <==>
      if Clean(s, a) then Stands(s, o) || o in s.origins[a.duplicate] else StandsWithout(s, a.duplicate, o)
  {
    if Clean(s, a) {
      CleanAliasStands(s, a, o);
    } else {
      WarnedAliasStands(s, a, o);
    }
  }

  lemma CleanAliasStands(s: State, a: Alias, o: string)
    requires Shaped(s) && Clean(s, a)
    ensures Stands(ApplyAlias(s, a), o) <==> Stands(s, o) || o in s.origins[a.duplicate]
  {
    var t := ApplyAlias(s, a);
    UnionMeaning(s.origins[a.canonical], s.origins[a.duplicate]);
    assert o in t.origins[a.canonical] <==> o in Names(t.origins[a.canonical]);
    assert o in Names(s.origins[a.canonical]) <==> o in s.origins[a.canonical];
    assert o in Names(s.origins[a.duplicate]) <==> o in s.origins[a.duplicate];
    if Stands(t, o) {
      var id :| Carries(t, id, o);
      assert Carries(s, id, o) || id == a.canonical;
      assert o in s.origins[a.canonical] ==> Carries(s, a.canonical, o);
    }
    if o in s.origins[a.duplicate] {
      assert Carries(t, a.canonical, o);
    }
    if Stands(s, o) {
      var id :| Carries(s, id, o);
      assert Carries(t, if id == a.duplicate then a.canonical else id, o);
    }
  }

  lemma WarnedAliasStands(s: State, a: Alias, o: string)
    requires Shaped(s) && !Clean(s, a)
    ensures Stands(ApplyAlias(s, a), o) <==> StandsWithout(s, a.duplicate, o)
  {
    var t := ApplyAlias(s, a);
    assert t.origins == s.origins && t.claims == s.claims;
    if Stands(t, o) {
      var id :| Carries(t, id, o);
      assert id != a.duplicate && Carries(s, id, o);
    }
    if StandsWithout(s, a.duplicate, o) {
      var id :| id != a.duplicate && Carries(s, id, o);
      assert Carries(t, id, o);
    }
  }

  lemma ClaimStands(s: State, c: Claim, o: string)
    requires Shaped(s) && ApplyClaim(s, c).Ok?
    ensures Stands(ApplyClaim(s, c).value, o) <==>
      Stands(s, o) || (c.id !in s.claims && c.id !in s.aliased && o in c.origin)
  {
    var t := ApplyClaim(s, c).value;
    if c.id !in s.claims {
      assert t.claims == s.claims[c.id := c] && t.origins == s.origins[c.id := c.origin] && t.aliased == s.aliased;
      if Stands(t, o) {
        var id :| Carries(t, id, o);
        assert id == c.id || Carries(s, id, o);
      }
      if Stands(s, o) {
        var id :| Carries(s, id, o);
        assert Carries(t, id, o);
      }
      if c.id !in s.aliased && o in c.origin {
        assert Carries(t, c.id, o);
      }
    }
  }

  /** A record that puts an origin among the live ones: a claim under an id not merged
      away before, or a clean alias of a claim that carries it. */
  ghost predicate Gains(s: State, record: Record, o: string)
    requires s.origins.Keys == s.claims.Keys
  {
    match record
    case ClaimRecord(c) => c.id !in s.claims && c.id !in s.aliased && o in c.origin
    case AliasRecord(a) => Clean(s, a) && o in s.origins[a.duplicate]
    case _ => false
  }

  /** A record that takes it away: a warned alias whose duplicate alone carries it. */
  ghost predicate Loses(s: State, record: Record, o: string) {
    record.AliasRecord? && !Clean(s, record.alias) && !StandsWithout(s, record.alias.duplicate, o)
  }

  lemma StepExactly(s: State, record: Record, o: string)
    requires Shaped(s) && Apply(s, record).Ok?
    ensures Stands(Apply(s, record).value, o) <==> Gains(s, record, o) || (Stands(s, o) && !Loses(s, record, o))
  {
    match record
    case ClaimRecord(c) => ClaimStands(s, c, o);
    case AliasRecord(a) =>
      AliasStands(s, a, o);
      if StandsWithout(s, a.duplicate, o) {
        var id :| id != a.duplicate && Carries(s, id, o);
        assert Stands(s, o);
      }
    case VerdictRecord(v) => SameCarriers(s, s.(verdicts := s.verdicts + [v]), o);
    case ResolutionRecord(r) => SameCarriers(s, s.(resolutions := s.resolutions + [r]), o);
  }

  lemma SameCarriers(s: State, t: State, o: string)
    requires t.claims == s.claims && t.origins == s.origins && t.aliased == s.aliased
    ensures Stands(t, o) <==> Stands(s, o)
  {
    if Stands(s, o) {
      var id :| Carries(s, id, o);
      assert Carries(t, id, o);
    }
    if Stands(t, o) {
      var id :| Carries(t, id, o);
      assert Carries(s, id, o);
    }
  }

  // ---------- whole replays ----------

  lemma {:induction false} ReplayPrefix(records: seq<Record>, n: nat)
    requires Replay(records).Ok? && n <= |records|
    ensures Replay(records[..n]).Ok? && Shaped(Replay(records[..n]).value)
    ensures n < |records| ==> Apply(Replay(records[..n]).value, records[n]) == Replay(records[..n + 1])
    ensures Replay(records[..n]).value.warnings <= Replay(records).value.warnings
    decreases |records|
  {
    if n == |records| {
      assert records[..n] == records;
      ReplayShaped(records);
    } else {
      var head := records[..|records| - 1];
      ReplayPrefix(head, n);
      WarningsOnlyGrow(Replay(head).value, records[|records| - 1]);
      assert head[..n] == records[..n];
      if n < |head| {
        assert head[..n + 1] == records[..n + 1];
      } else {
        assert records[..n + 1] == records && records[..n] == head;
      }
    }
  }

  lemma {:induction false} ReplayShaped(records: seq<Record>)
    requires Replay(records).Ok?
    ensures Shaped(Replay(records).value)
  {
    if records != [] {
      var head := records[..|records| - 1];
      ReplayShaped(head);
      ApplyShaped(Replay(head).value, records[|records| - 1]);
    }
  }

  lemma WarningsOnlyGrow(s: State, record: Record)
    requires s.origins.Keys == s.claims.Keys && Apply(s, record).Ok?
    ensures s.warnings <= Apply(s, record).value.warnings
  {
  }

  ghost predicate GainedAt(records: seq<Record>, n: nat, o: string) {
    n < |records| && Replay(records[..n]).Ok? && Gains(Replay(records[..n]).value, records[n], o)
  }

  ghost predicate LostAt(records: seq<Record>, n: nat, o: string) {
    n < |records| && Replay(records[..n]).Ok? && Loses(Replay(records[..n]).value, records[n], o)
  }

  ghost predicate KeptFrom(records: seq<Record>, n: nat, o: string) {
    forall m: nat | n <= m < |records| :: !LostAt(records, m, o)
  }

  ghost predicate GainedForGood(records: seq<Record>, o: string) {
    exists n: nat :: GainedAt(records, n, o) && KeptFrom(records, n + 1, o)
  }

  lemma HeadAgrees(records: seq<Record>, n: nat, o: string)
    requires records != [] && n < |records| - 1
    ensures GainedAt(records, n, o) <==> GainedAt(records[..|records| - 1], n, o)
    ensures LostAt(records, n, o) <==> LostAt(records[..|records| - 1], n, o)
  {
    assert records[..|records| - 1][..n] == records[..n];
  }

  lemma StaysGood(records: seq<Record>, o: string)
    requires records != [] && GainedForGood(records[..|records| - 1], o) && !LostAt(records, |records| - 1, o)
    ensures GainedForGood(records, o)
  {
    var last := |records| - 1;
    var head := records[..last];
    var n: nat :| GainedAt(head, n, o) && KeptFrom(head, n + 1, o);
    HeadAgrees(records, n, o);
    forall m: nat | n + 1 <= m <= last ensures !LostAt(records, m, o) {
      if m < last { HeadAgrees(records, m, o); }
    }
    assert KeptFrom(records, n + 1, o);
  }

  lemma WasGood(records: seq<Record>, o: string)
    requires records != [] && GainedForGood(records, o) && !GainedAt(records, |records| - 1, o)
    ensures GainedForGood(records[..|records| - 1], o) && !LostAt(records, |records| - 1, o)
  {
    var last := |records| - 1;
    var head := records[..last];
    var n: nat :| GainedAt(records, n, o) && KeptFrom(records, n + 1, o);
    HeadAgrees(records, n, o);
    forall m: nat | n + 1 <= m < last ensures !LostAt(head, m, o) { HeadAgrees(records, m, o); }
    assert KeptFrom(head, n + 1, o);
  }

  lemma GoodGrows(records: seq<Record>, o: string)
    requires records != []
    ensures var last := |records| - 1;
      GainedForGood(records, o) <==>
        GainedAt(records, last, o) || (GainedForGood(records[..last], o) && !LostAt(records, last, o))
  {
    var last := |records| - 1;
    if GainedAt(records, last, o) {
      assert KeptFrom(records, last + 1, o);
    } else if GainedForGood(records, o) {
      WasGood(records, o);
    } else if GainedForGood(records[..last], o) && !LostAt(records, last, o) {
      StaysGood(records, o);
    }
  }

  lemma {:induction false} StandsExactly(records: seq<Record>, o: string)
    requires Replay(records).Ok?
    ensures Stands(Replay(records).value, o) <==> GainedForGood(records, o)
  {
    if records == [] {
      assert forall id :: !Carries(EMPTY, id, o);
    } else {
      var last := |records| - 1;
      StandsExactly(records[..last], o);
      ReplayShaped(records[..last]);
      StepExactly(Replay(records[..last]).value, records[last], o);
      GoodGrows(records, o);
    }
  }

  /** After any replay, warned or not, an origin is live exactly if some record gained
      it and no later warned alias took away its last live carrier. */
  lemma LiveExactly(records: seq<Record>, o: string)
    requires Replay(records).Ok?
    ensures Shaped(Replay(records).value)
    ensures (exists c :: c in Live(Replay(records).value) && o in c.origin) <==> GainedForGood(records, o)
  {
    ReplayShaped(records);
    StandsMeaning(Replay(records).value, o);
    StandsExactly(records, o);
  }

  // ---------- conservation ----------

  ghost predicate Raised(records: seq<Record>, o: string) {
    exists c :: ClaimRecord(c) in records && o in c.origin
  }

  /** A replay holds exactly the claims on record, as they were recorded. */
  lemma {:induction false} ReplayHolds(records: seq<Record>, c: Claim)
    requires Replay(records).Ok?
    ensures var claims := Replay(records).value.claims;
      ClaimRecord(c) in records <==> c.id in claims && claims[c.id] == c
    ensures Shaped(Replay(records).value)
  {
    if records != [] {
      var before, record := records[..|records| - 1], records[|records| - 1];
      assert records == before + [record];
      ReplayHolds(before, c);
      ApplyShaped(Replay(before).value, record);
      StepHolds(Replay(before).value, record, c);
    }
  }

  lemma StepHolds(s: State, record: Record, c: Claim)
    requires Shaped(s) && Apply(s, record).Ok?
    ensures var claims := Apply(s, record).value.claims;
      c.id in claims && claims[c.id] == c <==> record == ClaimRecord(c) || (c.id in s.claims && s.claims[c.id] == c)
  {
  }

  lemma RaisedGrows(before: seq<Record>, record: Record, o: string)
    ensures Raised(before + [record], o) <==> Raised(before, o) || (record.ClaimRecord? && o in record.claim.origin)
  {
    var records := before + [record];
    assert record in records;
    if Raised(before, o) {
      var c :| ClaimRecord(c) in before && o in c.origin;
      assert ClaimRecord(c) in records;
    }
    if Raised(records, o) {
      var c :| ClaimRecord(c) in records && o in c.origin;
      assert ClaimRecord(c) in before || ClaimRecord(c) == record;
    }
  }

  /** Where the state after a record has an origin from. */
  lemma OriginCameFrom(s: State, record: Record, id: string, o: string) returns (from: string)
    requires Shaped(s) && Apply(s, record).Ok?
    requires id in Apply(s, record).value.origins && o in Apply(s, record).value.origins[id]
    ensures (record.ClaimRecord? && o in record.claim.origin) || (from in s.origins && o in s.origins[from])
  {
    from := id;
    if record.AliasRecord? && Clean(s, record.alias) && id == record.alias.canonical {
      var a := record.alias;
      UnionMeaning(s.origins[a.canonical], s.origins[a.duplicate]);
      assert o in Names(Union(s.origins[a.canonical], s.origins[a.duplicate]));
      assert o in Names(s.origins[a.canonical]) || o in Names(s.origins[a.duplicate]);
      from := if o in s.origins[a.canonical] then a.canonical else a.duplicate;
    }
  }

  /** No origin is ever invented, with warnings or without. */
  lemma {:induction false} OriginsRaised(records: seq<Record>, id: string, o: string)
    requires Replay(records).Ok?
    requires id in Replay(records).value.origins && o in Replay(records).value.origins[id]
    ensures Raised(records, o)
  {
    if records != [] {
      var before, record := records[..|records| - 1], records[|records| - 1];
      var s := Replay(before).value;
      assert records == before + [record];
      ReplayShaped(before);
      var from := OriginCameFrom(s, record, id, o);
      if from in s.origins && o in s.origins[from] {
        OriginsRaised(before, from, o);
      }
      RaisedGrows(before, record, o);
    }
  }

  /** Whoever raised a claim on record is an origin of a live claim. */
  ghost predicate Conserved(records: seq<Record>)
    requires Replay(records).Ok?
  {
    forall o | Raised(records, o) :: Stands(Replay(records).value, o)
  }

  /** A record that costs no origin: an alias that draws no warning, or whose duplicate
      carries nothing that no other live claim carries; a claim under an id already
      merged away, only if it brings no new origin; anything else. */
  ghost predicate Harmless(s: State, record: Record) {
    match record
    case ClaimRecord(c) =>
      c.id !in s.claims && c.id in s.aliased ==> forall o | o in c.origin :: Stands(s, o)
    case AliasRecord(a) =>
      Clean(s, a) || forall o | Carries(s, a.duplicate, o) :: StandsWithout(s, a.duplicate, o)
    case _ => true
  }

  ghost predicate HarmlessAt(records: seq<Record>, n: nat) {
    n < |records| && Replay(records[..n]).Ok? && Harmless(Replay(records[..n]).value, records[n])
  }

  lemma HarmlessLosesNothing(s: State, record: Record, o: string)
    requires Shaped(s) && Harmless(s, record) && Stands(s, o)
    ensures !Loses(s, record, o)
  {
    if record.AliasRecord? && !Clean(s, record.alias) {
      var id :| Carries(s, id, o);
      if id != record.alias.duplicate {
        assert StandsWithout(s, record.alias.duplicate, o);
      }
    }
  }

  lemma HarmlessConserves(before: seq<Record>, record: Record, o: string)
    requires Replay(before).Ok? && Shaped(Replay(before).value) && Apply(Replay(before).value, record).Ok?
    requires Conserved(before) && Harmless(Replay(before).value, record) && Raised(before + [record], o)
    ensures Stands(Apply(Replay(before).value, record).value, o)
  {
    var s := Replay(before).value;
    StepExactly(s, record, o);
    RaisedGrows(before, record, o);
    if record.ClaimRecord? && record.claim.id in s.claims {
      ReplayHolds(before, record.claim);
    }
    if Stands(s, o) {
      HarmlessLosesNothing(s, record, o);
    }
  }

  lemma ConservingIsHarmless(before: seq<Record>, record: Record)
    requires Replay(before).Ok? && Shaped(Replay(before).value) && Apply(Replay(before).value, record).Ok?
    requires Conserved(before)
    requires forall o | Raised(before + [record], o) :: Stands(Apply(Replay(before).value, record).value, o)
    ensures Harmless(Replay(before).value, record)
  {
    var s := Replay(before).value;
    if record.ClaimRecord? && record.claim.id !in s.claims && record.claim.id in s.aliased {
      forall o | o in record.claim.origin
        ensures Stands(s, o)
      {
        RaisedGrows(before, record, o);
        ClaimStands(s, record.claim, o);
      }
    } else if record.AliasRecord? && !Clean(s, record.alias) {
      forall o | Carries(s, record.alias.duplicate, o)
        ensures StandsWithout(s, record.alias.duplicate, o)
      {
        OriginsRaised(before, record.alias.duplicate, o);
        RaisedGrows(before, record, o);
        WarnedAliasStands(s, record.alias, o);
      }
    }
  }

  lemma ConservedStep(records: seq<Record>, n: nat)
    requires n < |records| && Replay(records).Ok? && Replay(records[..n]).Ok? && Replay(records[..n + 1]).Ok?
    requires Conserved(records[..n])
    ensures Conserved(records[..n + 1]) <==> HarmlessAt(records, n)
  {
    var before, record, after := records[..n], records[n], records[..n + 1];
    ReplayPrefix(records, n);
    TakeOneMore(records, n);
    if Harmless(Replay(before).value, record) {
      forall o | Raised(after, o)
        ensures Stands(Replay(after).value, o)
      {
        HarmlessConserves(before, record, o);
      }
    }
    if Conserved(after) {
      ConservingIsHarmless(before, record);
    }
  }

  ghost predicate ConservedAt(records: seq<Record>, n: nat) {
    n <= |records| && Replay(records[..n]).Ok? && Conserved(records[..n])
  }

  ghost predicate AllConserved(records: seq<Record>, n: nat) {
    forall m: nat | m <= n :: ConservedAt(records, m)
  }

  ghost predicate AllHarmless(records: seq<Record>, n: nat) {
    forall m: nat | m < n :: HarmlessAt(records, m)
  }

  lemma OneMore(records: seq<Record>, n: nat)
    ensures AllConserved(records, n + 1) <==> AllConserved(records, n) && ConservedAt(records, n + 1)
    ensures AllHarmless(records, n + 1) <==> AllHarmless(records, n) && HarmlessAt(records, n)
  {
  }

  lemma NothingToConserve(records: seq<Record>)
    ensures AllConserved(records, 0) && AllHarmless(records, 0)
  {
    assert records[..0] == [];
    assert ConservedAt(records, 0);
  }

  lemma ConservedNext(records: seq<Record>, n: nat)
    requires Replay(records).Ok? && n < |records| && ConservedAt(records, n)
    ensures ConservedAt(records, n + 1) <==> HarmlessAt(records, n)
  {
    ReplayPrefix(records, n + 1);
    ConservedStep(records, n);
  }

  lemma {:induction false} ConservedUpTo(records: seq<Record>, n: nat)
    requires Replay(records).Ok? && n <= |records|
    ensures AllConserved(records, n) <==> AllHarmless(records, n)
  {
    if n == 0 {
      NothingToConserve(records);
    } else {
      ConservedUpTo(records, n - 1);
      OneMore(records, n - 1);
      if AllConserved(records, n - 1) {
        ConservedNext(records, n - 1);
      }
    }
  }

  /** Over any replay, warned or not: corroboration is conserved at every point exactly
      if every record is harmless where it is applied. */
  lemma ConservedThroughout(records: seq<Record>)
    requires Replay(records).Ok?
    ensures (forall n: nat | n <= |records| :: ConservedAt(records, n))
       <==> (forall n: nat | n < |records| :: HarmlessAt(records, n))
  {
    ConservedUpTo(records, |records|);
  }

  // ---------- replays without a warning ----------

  lemma {:induction false} NoWarningNoStranger(records: seq<Record>)
    requires Replay(records).Ok? && Replay(records).value.warnings == []
    ensures Replay(records).value.aliased <= Replay(records).value.claims.Keys
  {
    if records != [] {
      var before, record := records[..|records| - 1], records[|records| - 1];
      WarningsOnlyGrow(Replay(before).value, record);
      NoWarningNoStranger(before);
    }
  }

  lemma NoWarningIsHarmless(records: seq<Record>, n: nat)
    requires Replay(records).Ok? && Replay(records).value.warnings == [] && n < |records|
    ensures HarmlessAt(records, n)
  {
    ReplayPrefix(records, n);
    ReplayPrefix(records, n + 1);
    NoWarningNoStranger(records[..n]);
  }

  /** A replay without transition warnings conserves corroboration: whoever
      raised any claim on record is an origin of a live claim, and nobody else. */
  lemma CorroborationConserved(records: seq<Record>, o: string)
    requires Replay(records).Ok? && Replay(records).value.warnings == []
    ensures Shaped(Replay(records).value)
    ensures (exists c :: c in Live(Replay(records).value) && o in c.origin)
       <==> (exists c :: ClaimRecord(c) in records && o in c.origin)
  {
    var s := Replay(records).value;
    forall n: nat | n < |records| ensures HarmlessAt(records, n) { NoWarningIsHarmless(records, n); }
    ConservedThroughout(records);
    assert ConservedAt(records, |records|) && records[..|records|] == records;
    ReplayShaped(records);
    StandsMeaning(s, o);
    if Stands(s, o) {
      var id :| Carries(s, id, o);
      OriginsRaised(records, id, o);
    }
    assert Raised(records, o) <==> exists c :: ClaimRecord(c) in records && o in c.origin;
  }

  /** The warnings matter: an alias to a claim that was never recorded takes its
      duplicate out of the live set, and the duplicate's origin with it. */
  lemma WarnedReplayLosesOrigin(c: Claim, a: Alias)
    requires c.supersedes.None? && c.origin == ["codex"]
    requires a.duplicate == c.id && a.canonical != c.id
    ensures var r := Replay([ClaimRecord(c), AliasRecord(a)]);
      && r.Ok? && Shaped(r.value) && r.value.warnings == [MissingEndpoint(a)]
      && Live(r.value) == []
  {
    var records := [ClaimRecord(c), AliasRecord(a)];
    var first := [ClaimRecord(c)];
    assert records[..1] == first && first[..0] == [];
    assert Replay([]) == Ok(EMPTY);
    assert Replay(first) == ApplyClaim(EMPTY, c);
    var s := ApplyClaim(EMPTY, c).value;
    assert Replay(records) == Ok(ApplyAlias(s, a));
    assert s.order == [c.id];
    ApplyShaped(EMPTY, ClaimRecord(c));
    ApplyShaped(s, AliasRecord(a));
    assert LiveUpTo(ApplyAlias(s, a), 0) == [];
  }
}
