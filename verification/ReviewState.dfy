/** The state a review derives from its ledger, one record at a time. */
module ReviewState {
  import opened Wrappers
  import opened Records
  import opened Origins

  datatype Error =
    | ConflictingClaim(id: string)
    | UnknownPredecessor(id: string, supersedes: string)
    | SuccessorCycle(ancestor: string)
    | UnknownClaim(id: string)

  datatype Warning = MissingEndpoint(alias: Alias) | NotTopological(alias: Alias)

  /** `order` is the insertion order of the dictionary `claims`. */
  datatype State = State(
    order: seq<string>, claims: map<string, Claim>, origins: map<string, seq<string>>,
    aliased: set<string>, aliases: seq<Alias>, verdicts: seq<Verdict>,
    resolutions: seq<Resolution>, warnings: seq<Warning>)

  const EMPTY := State([], map[], map[], {}, [], [], [], [])

  /** What the dictionaries guarantee of themselves. */
  ghost predicate Shaped(s: State) {
    && (forall i, j | 0 <= i < j < |s.order| :: s.order[i] != s.order[j])
    && (forall id :: id in s.order <==> id in s.claims)
    && s.origins.Keys == s.claims.Keys
    && (forall id | id in s.claims :: s.claims[id].id == id)
  }

  /** The ancestor the walk meets twice, if it does. */
  function Walk(claims: map<string, Claim>, ancestor: Option<string>, seen: set<string>): Option<string>
    decreases claims.Keys - seen, if ancestor.Some? then 1 else 0
  {
    if ancestor.None? then None
    else if ancestor.value in seen then ancestor
    else
      assert ancestor.value in claims ==> ancestor.value in claims.Keys - seen;
      Walk(claims,
           if ancestor.value in claims then claims[ancestor.value].supersedes else None,
           seen + {ancestor.value})
  }

  function ApplyClaim(s: State, c: Claim): Result<State, Error> {
    if c.id in s.claims then
      if s.claims[c.id] != c then Err(ConflictingClaim(c.id)) else Ok(s)
    else if c.supersedes.Some? && c.supersedes.value !in s.claims then
      Err(UnknownPredecessor(c.id, c.supersedes.value))
    else
      match Walk(s.claims, c.supersedes, {c.id})
      case Some(ancestor) => Err(SuccessorCycle(ancestor))
      case None => Ok(s.(order := s.order + [c.id], claims := s.claims[c.id := c], origins := s.origins[c.id := c.origin]))
  }

  function ApplyAlias(s: State, a: Alias): State
    requires s.origins.Keys == s.claims.Keys
  {
    var noted := s.(aliases := s.aliases + [a], aliased := s.aliased + {a.duplicate});
    if a.canonical !in s.claims || a.duplicate !in s.claims then
      noted.(warnings := s.warnings + [MissingEndpoint(a)])
    else if a.canonical == a.duplicate || a.canonical in noted.aliased then
      noted.(warnings := s.warnings + [NotTopological(a)])
    else
      noted.(origins := s.origins[a.canonical := Union(s.origins[a.canonical], s.origins[a.duplicate])])
  }

  function Apply(s: State, record: Record): Result<State, Error>
    requires s.origins.Keys == s.claims.Keys
  {
    match record
    case ClaimRecord(c) => ApplyClaim(s, c)
    case AliasRecord(a) => Ok(ApplyAlias(s, a))
    case VerdictRecord(v) =>
      if v.claimId !in s.claims then Err(UnknownClaim(v.claimId)) else Ok(s.(verdicts := s.verdicts + [v]))
    case ResolutionRecord(r) =>
      if r.claimId !in s.claims then Err(UnknownClaim(r.claimId)) else Ok(s.(resolutions := s.resolutions + [r]))
  }

  lemma ClaimShaped(s: State, c: Claim)
    requires Shaped(s)
    ensures ApplyClaim(s, c).Ok? ==> Shaped(ApplyClaim(s, c).value)
  {
  }

  lemma AliasShaped(s: State, a: Alias)
    requires Shaped(s)
    ensures Shaped(ApplyAlias(s, a))
  {
    var t := ApplyAlias(s, a);
    assert t.order == s.order && t.claims == s.claims;
  }

  lemma ApplyShaped(s: State, record: Record)
    requires Shaped(s)
    ensures Apply(s, record).Ok? ==> Shaped(Apply(s, record).value)
  {
    match record
    case ClaimRecord(c) => ClaimShaped(s, c);
    case AliasRecord(a) => AliasShaped(s, a);
    case _ =>
  }

  /** The claims not merged away, each with everyone who raised it. */
  function LiveUpTo(s: State, n: nat): seq<Claim>
    requires n <= |s.order|
    requires forall i | 0 <= i < n :: s.order[i] in s.claims && s.order[i] in s.origins
  {
    if n == 0 then []
    else
      var id := s.order[n - 1];
      LiveUpTo(s, n - 1) + (if id in s.aliased then [] else [s.claims[id].(origin := s.origins[id])])
  }

  function Live(s: State): seq<Claim>
    requires Shaped(s)
  {
    LiveUpTo(s, |s.order|)
  }

  // ---------- the class ----------

  class Review {
    var claimOrder: seq<string>
    var claimsById: map<string, Claim>
    var originsById: map<string, seq<string>>
    var aliasedIds: set<string>
    var aliases: seq<Alias>
    var verdicts: seq<Verdict>
    var resolutions: seq<Resolution>
    var transitionWarnings: seq<Warning>

    ghost function Model(): State
      reads this
    {
      State(claimOrder, claimsById, originsById, aliasedIds, aliases, verdicts, resolutions, transitionWarnings)
    }

    constructor ()
      ensures Model() == EMPTY && Shaped(Model())
    {
      claimOrder, claimsById, originsById, aliasedIds := [], map[], map[], {};
      aliases, verdicts, resolutions, transitionWarnings := [], [], [], [];
    }

    /** A refused record leaves the state alone. */
    method ApplyRecord(record: Record) returns (error: Option<Error>)
      requires Shaped(Model())
      modifies this
      ensures Shaped(Model())
      ensures match Apply(old(Model()), record)
        case Ok(s) => error.None? && Model() == s
        case Err(e) => error == Some(e) && Model() == old(Model())
    {
      ApplyShaped(Model(), record);
      match record {
        case ClaimRecord(c) =>
          error := ApplyClaimRecord(c);
        case AliasRecord(a) =>
          ApplyAliasRecord(a);
          error := None;
        case VerdictRecord(v) =>
          if v.claimId !in claimsById {
            return Some(UnknownClaim(v.claimId));
          }
          verdicts, error := verdicts + [v], None;
        case ResolutionRecord(r) =>
          if r.claimId !in claimsById {
            return Some(UnknownClaim(r.claimId));
          }
          resolutions, error := resolutions + [r], None;
      }
    }

    method ApplyClaimRecord(c: Claim) returns (error: Option<Error>)
      requires Shaped(Model())
      modifies this
      ensures match ApplyClaim(old(Model()), c)
        case Ok(s) => error.None? && Model() == s
        case Err(e) => error == Some(e) && Model() == old(Model())
    {
      if c.id in claimsById {
        return if claimsById[c.id] != c then Some(ConflictingClaim(c.id)) else None;
      }
      if c.supersedes.Some? && c.supersedes.value !in claimsById {
        return Some(UnknownPredecessor(c.id, c.supersedes.value));
      }
      var ancestor, seen := c.supersedes, {c.id};
      while ancestor.Some?
        invariant Walk(claimsById, ancestor, seen) == Walk(claimsById, c.supersedes, {c.id})
        invariant Model() == old(Model())
        decreases claimsById.Keys - seen, if ancestor.Some? then 1 else 0
      {
        if ancestor.value in seen {
          return Some(SuccessorCycle(ancestor.value));
        }
        assert ancestor.value in claimsById ==> ancestor.value in claimsById.Keys - seen;
        seen := seen + {ancestor.value};
        ancestor := if ancestor.value in claimsById then claimsById[ancestor.value].supersedes else None;
      }
      claimOrder := claimOrder + [c.id];
      claimsById := claimsById[c.id := c];
      originsById := originsById[c.id := c.origin];
      error := None;
    }

    method ApplyAliasRecord(a: Alias)
      requires Shaped(Model())
      modifies this
      ensures Model() == ApplyAlias(old(Model()), a)
    {
      aliases := aliases + [a];
      aliasedIds := aliasedIds + {a.duplicate};
      if a.canonical !in claimsById || a.duplicate !in claimsById {
        transitionWarnings := transitionWarnings + [MissingEndpoint(a)];
        return;
      }
      if a.canonical == a.duplicate || a.canonical in aliasedIds {
        transitionWarnings := transitionWarnings + [NotTopological(a)];
        return;
      }
      var joined := MergeOrigin(originsById[a.canonical], originsById[a.duplicate]);
      originsById := originsById[a.canonical := joined];
    }

    method Claims() returns (live: seq<Claim>)
      requires Shaped(Model())
      ensures live == Live(Model())
    {
      live := [];
      for n := 0 to |claimOrder|
        invariant live == LiveUpTo(Model(), n)
      {
        assert claimOrder[n] in claimOrder;
        var id := claimOrder[n];
        if id !in aliasedIds {
          live := live + [claimsById[id].(origin := originsById[id])];
        }
      }
    }
  }

  // ---------- whole replays ----------

  function Replay(records: seq<Record>): (r: Result<State, Error>)
    ensures r.Ok? ==> r.value.origins.Keys == r.value.claims.Keys
  {
    if records == [] then Ok(EMPTY)
    else
      match Replay(records[..|records| - 1])
      case Err(e) => Err(e)
      case Ok(s) => Apply(s, records[|records| - 1])
  }

  method ReplayRecords(records: seq<Record>) returns (state: Review, error: Option<Error>)
    ensures fresh(state) && Shaped(state.Model())
    ensures match Replay(records)
      case Ok(s) => error.None? && state.Model() == s
      case Err(e) => error == Some(e)
  {
    state := new Review();
    error := None;
    for n := 0 to |records|
      invariant fresh(state) && Shaped(state.Model())
      invariant Replay(records[..n]) == Ok(state.Model()) && error.None?
    {
      assert records[..n + 1][..n] == records[..n];
      error := state.ApplyRecord(records[n]);
      if error.Some? {
        ReplayFails(records, n + 1);
        return;
      }
    }
    assert records[..|records|] == records;
  }

  lemma {:induction false} ReplayFails(records: seq<Record>, n: nat)
    requires n <= |records| && Replay(records[..n]).Err?
    ensures Replay(records) == Replay(records[..n])
  {
    if n == |records| {
      assert records[..n] == records;
    } else {
      assert records[..|records| - 1][..n] == records[..n];
      ReplayFails(records[..|records| - 1], n);
    }
  }

  // ---------- supersession is well founded ----------

  /** Every claim supersedes nothing, or a claim recorded before it. */
  ghost predicate Topological(s: State) {
    && Shaped(s)
    && forall i | 0 <= i < |s.order| :: SupersedesEarlier(s, i)
  }

  ghost predicate SupersedesEarlier(s: State, i: nat)
    requires i < |s.order|
  {
    s.order[i] in s.claims ==>
      var above := s.claims[s.order[i]].supersedes;
      above.Some? ==> exists j | 0 <= j < i :: s.order[j] == above.value
  }

  lemma {:induction false} WalkEnds(s: State, j: nat, minted: string, ancestor: Option<string>, seen: set<string>)
    requires Topological(s) && minted !in s.claims
    requires ancestor.Some? ==> j < |s.order| && s.order[j] == ancestor.value
    requires forall id | id in seen :: id == minted || exists k | j < k < |s.order| :: s.order[k] == id
    ensures Walk(s.claims, ancestor, seen).None?
    decreases j
  {
    if ancestor.Some? {
      var id := ancestor.value;
      assert s.order[j] in s.order;
      assert id !in seen;
      assert SupersedesEarlier(s, j);
      var above := s.claims[id].supersedes;
      if above.Some? {
        var i :| 0 <= i < j && s.order[i] == above.value;
        WalkEnds(s, i, minted, above, seen + {id});
      }
    }
  }

  /** The cycle branch is unreachable from any state a replay can build. */
  lemma NoCycleBranch(s: State, c: Claim)
    requires Topological(s)
    ensures ApplyClaim(s, c).Err? ==> !ApplyClaim(s, c).error.SuccessorCycle?
  {
    if c.id !in s.claims && (c.supersedes.Some? ==> c.supersedes.value in s.claims) {
      if c.supersedes.Some? {
        assert c.supersedes.value in s.order;
        var j :| 0 <= j < |s.order| && s.order[j] == c.supersedes.value;
        WalkEnds(s, j, c.id, c.supersedes, {c.id});
      }
    }
  }

  lemma ClaimTopological(s: State, c: Claim)
    requires Topological(s) && c.id !in s.claims && ApplyClaim(s, c).Ok?
    ensures Topological(ApplyClaim(s, c).value)
  {
    var t := ApplyClaim(s, c).value;
    ApplyShaped(s, ClaimRecord(c));
    forall i | 0 <= i < |t.order|
      ensures SupersedesEarlier(t, i)
    {
      var above := t.claims[t.order[i]].supersedes;
      if above.Some? {
        if i < |s.order| {
          assert SupersedesEarlier(s, i) && s.order[i] in s.order;
        } else {
          assert above.value in s.order;
        }
        var j :| 0 <= j < i && j < |s.order| && s.order[j] == above.value;
        assert t.order[j] == above.value;
      }
    }
  }

  lemma ApplyTopological(s: State, record: Record)
    requires Topological(s)
    ensures Apply(s, record).Ok? ==> Topological(Apply(s, record).value)
    ensures Apply(s, record).Err? ==> !Apply(s, record).error.SuccessorCycle?
  {
    ApplyShaped(s, record);
    if record.ClaimRecord? {
      NoCycleBranch(s, record.claim);
      if Apply(s, record).Ok? && record.claim.id !in s.claims {
        ClaimTopological(s, record.claim);
      }
    } else if Apply(s, record).Ok? {
      SameClaimsTopological(s, Apply(s, record).value);
    }
  }

  lemma SameClaimsTopological(s: State, t: State)
    requires Topological(s) && Shaped(t) && t.order == s.order && t.claims == s.claims
    ensures Topological(t)
  {
    forall i | 0 <= i < |t.order|
      ensures SupersedesEarlier(t, i)
    {
      assert SupersedesEarlier(s, i);
    }
  }

  /** Every reachable state has a well-founded supersession relation, and no
      replay is ever refused for a successor cycle. */
  lemma {:induction false} ReplayTopological(records: seq<Record>)
    ensures match Replay(records)
      case Ok(s) => Topological(s)
      case Err(e) => !e.SuccessorCycle?
  {
    if records != [] {
      var before := records[..|records| - 1];
      ReplayTopological(before);
      if Replay(before).Ok? {
        ApplyTopological(Replay(before).value, records[|records| - 1]);
      }
    }
  }
}
