/** Merges adjudicated by the orchestrator: which responses are accepted, and
    what applying them does to the live claims. */
module Orchestrator {
  import opened Text
  import opened Wrappers
  import opened JsonData
  import opened Records
  import opened Origins
  import opened Sequences

  const SCHEMA_VERSION := 1

  datatype MergeDecision = MergeDecision(canonical: string, duplicate: string, rationale: string)

  datatype Refusal =
    | UnsupportedVersion
    | MergesNotAnArray
    | NotAnObject(index: nat)
    | FieldMissing(index: nat, field: string)
    | UnknownId(index: nat, field: string)
    | MergedIntoItself(index: nat)
    | DuplicateTwice(duplicate: string)
    | Chained(ids: set<string>)

  // ---------- accepting a response ----------

  predicate Named(value: Json) {
    value.JStr? && Strip(value.s) != ""
  }

  function StringOf(value: Json): string {
    if value.JStr? then value.s else ""
  }

  function Decision(entry: Json): MergeDecision {
    var rationale := Get(entry, "rationale");
    MergeDecision(
      StringOf(Get(entry, "canonical")), StringOf(Get(entry, "duplicate")),
      if Named(rationale) then rationale.s else "")
  }

  function Decisions(entries: seq<Json>): (decisions: seq<MergeDecision>)
    ensures |decisions| == |entries| && forall i | 0 <= i < |entries| :: decisions[i] == Decision(entries[i])
  {
    if entries == [] then []
    else Decisions(entries[..|entries| - 1]) + [Decision(entries[|entries| - 1])]
  }

  /** Python compares the version with `!=`, so `true` and `1.0` pass as 1. */
  predicate SupportedVersion(version: Json) {
    version == JInt(SCHEMA_VERSION) || version == JBool(true) || version == JFloat("1.0")
  }

  /** One entry on its own: two known, different ids. */
  predicate GoodEntry(entry: Json, known: set<string>) {
    && entry.JDict?
    && Named(Get(entry, "canonical")) && Named(Get(entry, "duplicate"))
    && Decision(entry).canonical in known && Decision(entry).duplicate in known
    && Decision(entry).canonical != Decision(entry).duplicate
  }

  ghost predicate GoodEntries(entries: seq<Json>, known: set<string>) {
    forall i | 0 <= i < |entries| :: GoodEntry(entries[i], known)
  }

  ghost predicate NoDuplicateTwice(decisions: seq<MergeDecision>) {
    forall i, j | 0 <= i < j < |decisions| :: decisions[i].duplicate != decisions[j].duplicate
  }

  /** Decisions of depth one: each duplicate goes to one claim, which stays. */
  ghost predicate Forest(decisions: seq<MergeDecision>) {
    && NoDuplicateTwice(decisions)
    && forall i, j | 0 <= i < |decisions| && 0 <= j < |decisions| :: decisions[i].canonical != decisions[j].duplicate
  }

  ghost predicate Over(decisions: seq<MergeDecision>, known: set<string>) {
    forall i | 0 <= i < |decisions| :: decisions[i].canonical in known && decisions[i].duplicate in known
  }

  /** The entry names a known claim under `key`. */
  ghost predicate NamesKnown(entry: Json, key: string, known: set<string>) {
    entry.JDict? && Named(Get(entry, key)) && Get(entry, key).s in known
  }

  /** What a response may hold, by the keys of its entries: each names two different known
      claims, no claim is a duplicate twice, and no canonical claim is a duplicate. */
  ghost predicate Acceptable(data: Json, known: set<string>) {
    && SupportedVersion(Get(data, "version"))
    && Get(data, "merges").JList?
    && var items := Get(data, "merges").items;
       && (forall i | 0 <= i < |items| ::
             NamesKnown(items[i], "canonical", known) && NamesKnown(items[i], "duplicate", known))
       && ForestOfKeys(items)
  }

  /** Both entries name the same duplicate. */
  ghost predicate SameDuplicate(a: Json, b: Json) {
    Get(a, "duplicate") == Get(b, "duplicate")
  }

  /** What stays by `a` goes by `b`. */
  ghost predicate Chains(a: Json, b: Json) {
    Get(a, "canonical") == Get(b, "duplicate")
  }

  ghost predicate ForestOfKeys(items: seq<Json>) {
    && (forall i, j | 0 <= i < j < |items| :: !SameDuplicate(items[i], items[j]))
    && (forall i, j | 0 <= i < |items| && 0 <= j < |items| :: !Chains(items[i], items[j]))
  }

  /** The decision is the entry's: who stays, who goes, and why, if it says. */
  ghost predicate DecisionOf(d: MergeDecision, entry: Json) {
    && Get(entry, "canonical") == JStr(d.canonical) && Get(entry, "duplicate") == JStr(d.duplicate)
    && d.rationale == (if Named(Get(entry, "rationale")) then Get(entry, "rationale").s else "")
  }

  lemma GoodByKeys(entry: Json, known: set<string>)
    ensures GoodEntry(entry, known) <==>
      NamesKnown(entry, "canonical", known) && NamesKnown(entry, "duplicate", known) && !Chains(entry, entry)
    ensures GoodEntry(entry, known) ==> DecisionOf(Decision(entry), entry)
  {
  }

  ghost predicate DecisionsOf(decisions: seq<MergeDecision>, items: seq<Json>) {
    |decisions| == |items| && forall i | 0 <= i < |items| :: DecisionOf(decisions[i], items[i])
  }

  lemma PairByKeys(d: MergeDecision, e: MergeDecision, a: Json, b: Json)
    requires DecisionOf(d, a) && DecisionOf(e, b)
    ensures SameDuplicate(a, b) <==> d.duplicate == e.duplicate
    ensures Chains(a, b) <==> d.canonical == e.duplicate
  {
  }

  lemma ForestByKeys(decisions: seq<MergeDecision>, items: seq<Json>)
    requires DecisionsOf(decisions, items)
    ensures Forest(decisions) <==> ForestOfKeys(items)
  {
    forall i, j | 0 <= i < |items| && 0 <= j < |items|
      ensures SameDuplicate(items[i], items[j]) <==> decisions[i].duplicate == decisions[j].duplicate
      ensures Chains(items[i], items[j]) <==> decisions[i].canonical == decisions[j].duplicate
    {
      PairByKeys(decisions[i], decisions[j], items[i], items[j]);
    }
  }

  lemma GoodDecisions(items: seq<Json>, known: set<string>)
    requires GoodEntries(items, known)
    ensures DecisionsOf(Decisions(items), items)
  {
    forall i | 0 <= i < |items|
      ensures DecisionOf(Decisions(items)[i], items[i])
    {
      GoodByKeys(items[i], known);
    }
  }

  lemma AcceptableByKeys(data: Json, known: set<string>, items: seq<Json>)
    requires SupportedVersion(Get(data, "version")) && Get(data, "merges") == JList(items)
    ensures Acceptable(data, known) <==> GoodEntries(items, known) && Forest(Decisions(items))
  {
    if Acceptable(data, known) {
      forall i | 0 <= i < |items|
        ensures GoodEntry(items[i], known)
      {
        GoodByKeys(items[i], known);
      }
    }
    if GoodEntries(items, known) {
      forall i | 0 <= i < |items|
        ensures NamesKnown(items[i], "canonical", known) && NamesKnown(items[i], "duplicate", known)
      {
        GoodByKeys(items[i], known);
      }
      GoodDecisions(items, known);
      ForestByKeys(Decisions(items), items);
    }
  }

  method CheckEntry(entry: Json, index: nat, known: set<string>, duplicates: set<string>)
    returns (r: Result<MergeDecision, Refusal>)
    ensures r.Ok? <==> GoodEntry(entry, known) && Decision(entry).duplicate !in duplicates
    ensures r.Ok? ==> r.value == Decision(entry)
  {
    if !entry.JDict? {
      return Err(NotAnObject(index));
    }
    var canonical, duplicate := Get(entry, "canonical"), Get(entry, "duplicate");
    if !Named(canonical) {
      return Err(FieldMissing(index, "canonical"));
    }
    if !Named(duplicate) {
      return Err(FieldMissing(index, "duplicate"));
    }
    if canonical.s !in known {
      return Err(UnknownId(index, "canonical"));
    }
    if duplicate.s !in known {
      return Err(UnknownId(index, "duplicate"));
    }
    if canonical.s == duplicate.s {
      return Err(MergedIntoItself(index));
    }
    if duplicate.s in duplicates {
      return Err(DuplicateTwice(duplicate.s));
    }
    r := Ok(Decision(entry));
  }

  ghost function DuplicatesOf(decisions: seq<MergeDecision>): set<string> {
    set i | 0 <= i < |decisions| :: decisions[i].duplicate
  }

  ghost function CanonicalsOf(decisions: seq<MergeDecision>): set<string> {
    set i | 0 <= i < |decisions| :: decisions[i].canonical
  }

  lemma OneMoreDecision(decisions: seq<MergeDecision>, d: MergeDecision)
    ensures DuplicatesOf(decisions + [d]) == DuplicatesOf(decisions) + {d.duplicate}
    ensures CanonicalsOf(decisions + [d]) == CanonicalsOf(decisions) + {d.canonical}
    ensures NoDuplicateTwice(decisions + [d]) <==> NoDuplicateTwice(decisions) && d.duplicate !in DuplicatesOf(decisions)
  {
    var more := decisions + [d];
    assert more[|decisions|] == d && forall i | 0 <= i < |decisions| :: more[i] == decisions[i];
    assert NoDuplicateTwice(more) ==> d.duplicate !in DuplicatesOf(decisions);
  }

  lemma AcceptedEntry(items: seq<Json>, known: set<string>, index: nat, d: MergeDecision)
    requires index < |items| && GoodEntries(items[..index], known)
    requires GoodEntry(items[index], known) && d == Decision(items[index])
    ensures items[..index + 1] == items[..index] + [items[index]]
    ensures GoodEntries(items[..index] + [items[index]], known)
    ensures Decisions(items[..index] + [items[index]]) == Decisions(items[..index]) + [d]
  {
    DropLast(items[..index], items[index]);
  }

  /** The loop over the entries. */
  method CheckEntries(items: seq<Json>, known: set<string>)
    returns (error: Option<Refusal>, decisions: seq<MergeDecision>, duplicates: set<string>, canonicals: set<string>)
    ensures error.None? <==> GoodEntries(items, known) && NoDuplicateTwice(Decisions(items))
    ensures error.None? ==>
      decisions == Decisions(items) && duplicates == DuplicatesOf(decisions) && canonicals == CanonicalsOf(decisions)
  {
    error, decisions, duplicates, canonicals := None, [], {}, {};
    ghost var done: seq<Json> := [];
    for index := 0 to |items|
      invariant done == items[..index] && error.None?
      invariant GoodEntries(done, known) && decisions == Decisions(done) && NoDuplicateTwice(decisions)
      invariant duplicates == DuplicatesOf(decisions) && canonicals == CanonicalsOf(decisions)
    {
      var checked := CheckEntry(items[index], index, known, duplicates);
      if checked.Err? {
        RefusedEntry(items, known, index);
        error := Some(checked.error);
        return;
      }
      var d := checked.value;
      AcceptedEntry(items, known, index, d);
      OneMoreDecision(decisions, d);
      duplicates := duplicates + {d.duplicate};
      canonicals := canonicals + {d.canonical};
      decisions := decisions + [d];
      done := done + [items[index]];
    }
    assert done == items;
  }

  /** `validate_merge_response`: accepts exactly the depth-one forests over known ids. */
  method ValidateMergeResponse(data: Json, known: set<string>) returns (r: Result<seq<MergeDecision>, Refusal>)
    ensures r.Ok? <==> Acceptable(data, known)
    ensures r.Ok? ==>
      var items := Get(data, "merges").items;
      |r.value| == |items| && forall i | 0 <= i < |items| ::
        && Get(items[i], "canonical") == JStr(r.value[i].canonical)
        && Get(items[i], "duplicate") == JStr(r.value[i].duplicate)
        && r.value[i].rationale == (if Named(Get(items[i], "rationale")) then Get(items[i], "rationale").s else "")
    ensures r.Ok? ==> Forest(r.value) && Over(r.value, known)
  {
    if !SupportedVersion(Get(data, "version")) {
      return Err(UnsupportedVersion);
    }
    var raw := Get(data, "merges");
    if !raw.JList? {
      return Err(MergesNotAnArray);
    }
    AcceptableByKeys(data, known, raw.items);
    var error, decisions, duplicates, canonicals := CheckEntries(raw.items, known);
    if error.Some? {
      return Err(error.value);
    }
    ChainedOrForest(decisions);
    var chained := duplicates * canonicals;
    if chained != {} {
      return Err(Chained(chained));
    }
    r := Ok(decisions);
    GoodDecisions(raw.items, known);
    assert forall i | 0 <= i < |raw.items| :: DecisionOf(decisions[i], raw.items[i]);
  }

  lemma ChainedOrForest(decisions: seq<MergeDecision>)
    requires NoDuplicateTwice(decisions)
    ensures Forest(decisions) <==> DuplicatesOf(decisions) * CanonicalsOf(decisions) == {}
  {
    if DuplicatesOf(decisions) * CanonicalsOf(decisions) == {} {
      forall i, j | 0 <= i < |decisions| && 0 <= j < |decisions|
        ensures decisions[i].canonical != decisions[j].duplicate
      {
        assert decisions[i].canonical in CanonicalsOf(decisions);
        assert decisions[j].duplicate in DuplicatesOf(decisions);
        assert decisions[i].canonical !in DuplicatesOf(decisions) * CanonicalsOf(decisions);
      }
    } else {
      var id :| id in DuplicatesOf(decisions) * CanonicalsOf(decisions);
    }
  }

  lemma RefusedEntry(items: seq<Json>, known: set<string>, index: nat)
    requires index < |items|
    requires !(GoodEntry(items[index], known)
               && Decision(items[index]).duplicate !in DuplicatesOf(Decisions(items[..index])))
    ensures !(GoodEntries(items, known) && NoDuplicateTwice(Decisions(items)))
  {
    var before, all := Decisions(items[..index]), Decisions(items);
    assert forall i | 0 <= i < index :: before[i] == all[i];
    if GoodEntry(items[index], known) {
      var i :| 0 <= i < index && before[i].duplicate == all[index].duplicate;
      assert all[i].duplicate == all[index].duplicate;
    }
  }

  // ---------- applying the decisions ----------

  const ADJUDICATED := "adjudicated by orchestrator"

  function AliasOf(d: MergeDecision, round: int): Alias {
    Alias(d.canonical, d.duplicate, round, "orchestrator", if d.rationale != "" then d.rationale else ADJUDICATED)
  }

  function AliasesOf(decisions: seq<MergeDecision>, round: int): seq<Alias> {
    if decisions == [] then []
    else AliasesOf(decisions[..|decisions| - 1], round) + [AliasOf(decisions[|decisions| - 1], round)]
  }

  /** One alias per decision, in order, for the claim that goes to the one that stays. */
  lemma {:induction false} AliasesInOrder(decisions: seq<MergeDecision>, round: int, i: nat)
    requires i < |decisions|
    ensures |AliasesOf(decisions, round)| == |decisions|
    ensures var a := AliasesOf(decisions, round)[i];
      && a.canonical == decisions[i].canonical && a.duplicate == decisions[i].duplicate
      && a.round == round && a.source == "orchestrator"
      && a.rationale != "" && (decisions[i].rationale != "" ==> a.rationale == decisions[i].rationale)
  {
    if |decisions| > 1 {
      AliasesInOrder(decisions[..|decisions| - 1], round, if i < |decisions| - 1 then i else 0);
    }
  }

  ghost predicate Known(claims: seq<Claim>, id: string) {
    exists i :: 0 <= i < |claims| && claims[i].id == id
  }

  /** The position of a known id. */
  ghost function Position(claims: seq<Claim>, id: string): (i: nat)
    requires Known(claims, id)
    ensures i < |claims| && claims[i].id == id
  {
    var i :| 0 <= i < |claims| && claims[i].id == id; i
  }

  ghost predicate OverClaims(decisions: seq<MergeDecision>, claims: seq<Claim>) {
    forall i | 0 <= i < |decisions| :: Known(claims, decisions[i].canonical) && Known(claims, decisions[i].duplicate)
  }

  /** What `id` ends up with: its own origin, then each of its duplicates', in the
      order of the decisions. */
  ghost function Gathered(claims: seq<Claim>, decisions: seq<MergeDecision>, id: string): seq<string>
    requires Known(claims, id) && OverClaims(decisions, claims)
  {
    if decisions == [] then claims[Position(claims, id)].origin
    else
      var before, d := decisions[..|decisions| - 1], decisions[|decisions| - 1];
      var sofar := Gathered(claims, before, id);
      if d.canonical == id then Union(sofar, claims[Position(claims, d.duplicate)].origin) else sofar
  }

  /** A claim as it is kept, unless it is merged away. */
  ghost function KeptOf(claims: seq<Claim>, decisions: seq<MergeDecision>, c: Claim): seq<Claim>
    requires Known(claims, c.id) && OverClaims(decisions, claims)
  {
    if c.id in DuplicatesOf(decisions) then [] else [c.(origin := Gathered(claims, decisions, c.id))]
  }

  /** The claims left, each with what it gathered. */
  ghost function KeptUpTo(claims: seq<Claim>, decisions: seq<MergeDecision>, n: nat): seq<Claim>
    requires n <= |claims| && OverClaims(decisions, claims)
  {
    if n == 0 then []
    else
      KeptUpTo(claims, decisions, n - 1) + KeptOf(claims, decisions, claims[n - 1])
  }

  lemma PositionUnique(claims: seq<Claim>, i: nat)
    requires DistinctIds(claims) && i < |claims|
    ensures Known(claims, claims[i].id) && Position(claims, claims[i].id) == i
  {
  }

  lemma GatheredStep(claims: seq<Claim>, done: seq<MergeDecision>, d: MergeDecision, id: string)
    requires Known(claims, id) && OverClaims(done + [d], claims)
    ensures OverClaims(done, claims) && Known(claims, d.duplicate)
    ensures Gathered(claims, done + [d], id)
         == if d.canonical == id
            then Union(Gathered(claims, done, id), claims[Position(claims, d.duplicate)].origin)
            else Gathered(claims, done, id)
  {
    var more := done + [d];
    assert more[|done|] == d && forall i | 0 <= i < |done| :: more[i] == done[i];
    assert more[..|done|] == done;
  }

  ghost predicate GatheredIn(claims: seq<Claim>, done: seq<MergeDecision>, origins: map<string, seq<string>>)
    requires OverClaims(done, claims)
  {
    forall id | Known(claims, id) :: id in origins && origins[id] == Gathered(claims, done, id)
  }

  lemma GatheredInStep(claims: seq<Claim>, done: seq<MergeDecision>, d: MergeDecision,
                       origins: map<string, seq<string>>, joined: seq<string>)
    requires OverClaims(done + [d], claims) && OverClaims(done, claims) && GatheredIn(claims, done, origins)
    requires Known(claims, d.canonical) && Known(claims, d.duplicate)
    requires joined == Union(origins[d.canonical], claims[Position(claims, d.duplicate)].origin)
    ensures GatheredIn(claims, done + [d], origins[d.canonical := joined])
  {
    forall id | Known(claims, id)
      ensures origins[d.canonical := joined][id] == Gathered(claims, done + [d], id)
    {
      GatheredStep(claims, done, d, id);
    }
  }

  lemma AliasesGrow(done: seq<MergeDecision>, d: MergeDecision, round: int)
    ensures AliasesOf(done + [d], round) == AliasesOf(done, round) + [AliasOf(d, round)]
  {
    assert (done + [d])[..|done|] == done;
  }

  /** The two dictionaries the loop starts from. */
  method IndexClaims(claims: seq<Claim>) returns (byId: map<string, Claim>, origins: map<string, seq<string>>)
    requires DistinctIds(claims)
    ensures forall id | Known(claims, id) :: id in byId && byId[id] == claims[Position(claims, id)]
    ensures GatheredIn(claims, [], origins)
  {
    byId, origins := map[], map[];
    for n := 0 to |claims|
      invariant forall i | 0 <= i < n :: claims[i].id in byId && byId[claims[i].id] == claims[i]
      invariant forall i | 0 <= i < n :: claims[i].id in origins && origins[claims[i].id] == claims[i].origin
    {
      byId := byId[claims[n].id := claims[n]];
      origins := origins[claims[n].id := claims[n].origin];
    }
  }

  /** The loop over the decisions. It never misses a key: every id is a claim's. */
  method GatherOrigins(claims: seq<Claim>, decisions: seq<MergeDecision>, round: int)
    returns (origins: map<string, seq<string>>, removed: set<string>, aliases: seq<Alias>)
    requires DistinctIds(claims) && OverClaims(decisions, claims)
    ensures GatheredIn(claims, decisions, origins)
    ensures removed == DuplicatesOf(decisions) && aliases == AliasesOf(decisions, round)
  {
    var byId;
    byId, origins := IndexClaims(claims);
    removed, aliases := {}, [];
    ghost var done: seq<MergeDecision> := [];
    for n := 0 to |decisions|
      invariant done == decisions[..n] && OverClaims(done, claims)
      invariant GatheredIn(claims, done, origins)
      invariant removed == DuplicatesOf(done) && aliases == AliasesOf(done, round)
    {
      var d := decisions[n];
      TakeOneMore(decisions, n);
      assert OverClaims(decisions[..n + 1], claims);
      OneMoreDecision(done, d);
      AliasesGrow(done, d, round);
      var joined := MergeOrigin(origins[d.canonical], byId[d.duplicate].origin);
      GatheredInStep(claims, done, d, origins, joined);
      origins := origins[d.canonical := joined];
      removed := removed + {d.duplicate};
      aliases := aliases + [AliasOf(d, round)];
      done := done + [d];
    }
    assert done == decisions;
  }

  /** `apply_merges`. */
  method ApplyMerges(claims: seq<Claim>, decisions: seq<MergeDecision>, round: int)
    returns (kept: seq<Claim>, aliases: seq<Alias>)
    requires DistinctIds(claims) && OverClaims(decisions, claims)
    ensures kept == KeptUpTo(claims, decisions, |claims|)
    ensures aliases == AliasesOf(decisions, round)
  {
    var origins, removed, emitted := GatherOrigins(claims, decisions, round);
    aliases := emitted;
    kept := KeepClaims(claims, decisions, origins, removed);
  }

  /** The list of claims not removed, with the origins gathered. */
  method KeepClaims(claims: seq<Claim>, ghost decisions: seq<MergeDecision>, origins: map<string, seq<string>>,
                    removed: set<string>)
    returns (kept: seq<Claim>)
    requires OverClaims(decisions, claims) && GatheredIn(claims, decisions, origins)
    requires removed == DuplicatesOf(decisions)
    ensures kept == KeptUpTo(claims, decisions, |claims|)
  {
    kept := [];
    for n := 0 to |claims|
      invariant kept == KeptUpTo(claims, decisions, n)
    {
      var c := claims[n];
      assert Known(claims, c.id);
      ghost var here := KeptOf(claims, decisions, c);
      if c.id !in removed {
        kept := kept + [if origins[c.id] != c.origin then c.(origin := origins[c.id]) else c];
      } else {
        assert kept + here == kept;
      }
    }
  }
}
