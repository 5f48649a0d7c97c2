/** Exact deduplication of incoming claims against the claims already live. */
module Merge {
  import opened Text
  import opened Wrappers
  import opened Records
  import opened Sequences
  import opened Origins

  type Key = (string, string)

  /** Text and location to identity; `MergeKey` is the one the program uses. */
  type KeyOf = (string, Option<string>) -> Key

  function KeyFor(key: KeyOf, c: Claim): Key {
    key(c.claim, c.location)
  }

  // ---------- the key ----------

  /** `" ".join(text.split())`. */
  function Collapsed(s: string): string {
    if s == "" then ""
    else
      var head, c := Collapsed(s[..|s| - 1]), s[|s| - 1];
      if IsSpace(c) then head
      else if |s| >= 2 && IsSpace(s[|s| - 2]) && head != "" then head + [' ', c]
      else head + [c]
  }

  function MergeKey(casefold: string -> string): KeyOf {
    (text: string, location: Option<string>) =>
      (casefold(Collapsed(text)), Strip(if location.Some? then location.value else ""))
  }

  lemma {:induction false} CollapsedKeepsEnds(s: string, c: char)
    requires IsSpace(c)
    ensures Collapsed(s + [c]) == Collapsed(s)
    ensures Collapsed([c] + s) == Collapsed(s)
  {
    assert (s + [c])[..|s|] == s;
    if s == "" {
      assert [c] + s == s + [c];
    } else {
      CollapsedKeepsEnds(s[..|s| - 1], c);
      assert ([c] + s)[..|s|] == [c] + s[..|s| - 1];
      if |s| == 1 {
        assert s[..0] == "";
      }
    }
  }

  /** How much whitespace separates two words, and which, does not matter. */
  lemma {:induction false} CollapsedIgnoresRuns(a: string, gap: string, other: string, b: string)
    requires AllSpace(gap) && AllSpace(other) && gap != "" && other != ""
    ensures Collapsed(a + gap + b) == Collapsed(a + other + b)
    decreases |b|
  {
    if b == "" {
      GapCollapses(a, gap);
      GapCollapses(a, other);
      assert a + gap + b == a + gap && a + other + b == a + other;
    } else {
      var s, t := a + gap + b, a + other + b;
      assert s[..|s| - 1] == a + gap + b[..|b| - 1] && t[..|t| - 1] == a + other + b[..|b| - 1];
      CollapsedIgnoresRuns(a, gap, other, b[..|b| - 1]);
    }
  }

  lemma {:induction false} GapCollapses(a: string, gap: string)
    requires AllSpace(gap)
    ensures Collapsed(a + gap) == Collapsed(a)
  {
    if gap == "" {
      assert a + gap == a;
    } else {
      GapCollapses(a, gap[..|gap| - 1]);
      assert (a + gap)[..|a + gap| - 1] == a + gap[..|gap| - 1];
    }
  }

  /** No location and an empty or blank one are the same identity. */
  lemma BlankLocationIsNone(casefold: string -> string, text: string, blank: string)
    ensures MergeKey(casefold)(text, Some(blank)) == MergeKey(casefold)(text, None) <==> AllSpace(blank)
  {
    var key := MergeKey(casefold);
    assert key(text, None) == (casefold(Collapsed(text)), Strip(""));
    assert key(text, Some(blank)) == (casefold(Collapsed(text)), Strip(blank));
  }

  // ---------- deduplication, claim by claim ----------

  /** The last claim with this key, or -1. */
  function LastMatch(key: KeyOf, live: seq<Claim>, k: Key): (i: int)
    ensures -1 <= i < |live|
    ensures i >= 0 ==> KeyFor(key, live[i]) == k
    ensures forall j | i < j < |live| :: KeyFor(key, live[j]) != k
  {
    if live == [] then -1
    else if KeyFor(key, live[|live| - 1]) == k then |live| - 1
    else LastMatch(key, live[..|live| - 1], k)
  }

  /** One incoming claim joins the live list, or the claim it repeats. */
  function Absorb(key: KeyOf, live: seq<Claim>, c: Claim): seq<Claim> {
    var i := LastMatch(key, live, KeyFor(key, c));
    if i < 0 then live + [c]
    else live[i := live[i].(origin := Union(live[i].origin, c.origin))]
  }

  function Absorbed(key: KeyOf, live: seq<Claim>, incoming: seq<Claim>): seq<Claim> {
    if incoming == [] then live
    else Absorb(key, Absorbed(key, live, incoming[..|incoming| - 1]), incoming[|incoming| - 1])
  }

  function AliasFor(live: seq<Claim>, i: nat, c: Claim, round: int): Alias
    requires i < |live|
  {
    Alias(live[i].id, c.id, round, "exact", "identical claim text and location")
  }

  /** The aliases emitted, in order. */
  function Aliases(key: KeyOf, live: seq<Claim>, incoming: seq<Claim>, round: int): seq<Alias> {
    if incoming == [] then []
    else
      var before, c := incoming[..|incoming| - 1], incoming[|incoming| - 1];
      var now := Absorbed(key, live, before);
      var i := LastMatch(key, now, KeyFor(key, c));
      Aliases(key, live, before, round) + (if i < 0 then [] else [AliasFor(now, i, c, round)])
  }

  /** A list of claims with the origins the run has gathered for them. */
  ghost predicate Tracks(live: seq<Claim>, claims: seq<Claim>, originOf: map<string, seq<string>>) {
    && |live| == |claims|
    && forall i | 0 <= i < |claims| ::
         claims[i].id in originOf && live[i] == claims[i].(origin := originOf[claims[i].id])
  }

  lemma SameMatch(key: KeyOf, a: seq<Claim>, b: seq<Claim>, k: Key)
    requires |a| == |b| && forall i | 0 <= i < |a| :: KeyFor(key, a[i]) == KeyFor(key, b[i])
    ensures LastMatch(key, a, k) == LastMatch(key, b, k)
  {
    assert forall i | 0 <= i < |a| :: KeyFor(key, a[i]) == k <==> KeyFor(key, b[i]) == k;
  }

  /** Which existing claims grew, in the order the change was first seen. */
  ghost function Changed(key: KeyOf, existing: seq<Claim>, incoming: seq<Claim>): seq<string> {
    if incoming == [] then []
    else
      var before, c := incoming[..|incoming| - 1], incoming[|incoming| - 1];
      var changed, now := Changed(key, existing, before), Absorbed(key, existing, before);
      var i := LastMatch(key, now, KeyFor(key, c));
      if 0 <= i < |existing| && Union(now[i].origin, c.origin) != now[i].origin && now[i].id !in changed
      then changed + [now[i].id]
      else changed
  }

  // ---------- the method ----------

  ghost predicate SeenIn(key: KeyOf, claims: seq<Claim>, seen: map<Key, string>) {
    forall k {:trigger LastMatch(key, claims, k)} {:trigger k in seen} ::
      && (k in seen <==> LastMatch(key, claims, k) >= 0)
      && (k in seen ==> seen[k] == claims[LastMatch(key, claims, k)].id)
  }

  ghost predicate Grown(existing: seq<Claim>, originOf: map<string, seq<string>>, changed: seq<string>) {
    forall i | 0 <= i < |existing| :: GrownAt(existing[i], originOf, changed)
  }

  ghost predicate GrownAt(c: Claim, originOf: map<string, seq<string>>, changed: seq<string>) {
    c.id in originOf && c.origin <= originOf[c.id] && (c.id in changed <==> originOf[c.id] != c.origin)
  }

  /** What the loop of `exact_merge` has built after the claims in `done`. */
  ghost predicate Progress(
    key: KeyOf, existing: seq<Claim>, done: seq<Claim>, kept: seq<Claim>,
    seen: map<Key, string>, originOf: map<string, seq<string>>, changed: seq<string>)
  {
    && Tracks(Absorbed(key, existing, done), existing + kept, originOf)
    && SeenIn(key, existing + kept, seen)
    && changed == Changed(key, existing, done)
    && Grown(existing, originOf, changed)
    && DistinctIds(existing + kept)
  }

  lemma LastMatchAppends(key: KeyOf, claims: seq<Claim>, c: Claim, k: Key)
    ensures LastMatch(key, claims + [c], k) == if k == KeyFor(key, c) then |claims| else LastMatch(key, claims, k)
  {
    assert (claims + [c])[..|claims|] == claims;
  }

  lemma SeenAppends(key: KeyOf, claims: seq<Claim>, c: Claim, seen: map<Key, string>)
    requires SeenIn(key, claims, seen)
    ensures SeenIn(key, claims + [c], seen[KeyFor(key, c) := c.id])
  {
    var seen' := seen[KeyFor(key, c) := c.id];
    forall k
      ensures k in seen' <==> LastMatch(key, claims + [c], k) >= 0
      ensures k in seen' ==> seen'[k] == (claims + [c])[LastMatch(key, claims + [c], k)].id
    {
      LastMatchAppends(key, claims, c, k);
      assert k in seen <==> LastMatch(key, claims, k) >= 0;
    }
  }

  ghost predicate UnusedIn(claims: seq<Claim>, id: string) {
    forall i | 0 <= i < |claims| :: claims[i].id != id
  }

  lemma TracksAppends(live: seq<Claim>, claims: seq<Claim>, originOf: map<string, seq<string>>, c: Claim)
    requires Tracks(live, claims, originOf) && UnusedIn(claims, c.id)
    ensures Tracks(live + [c], claims + [c], originOf[c.id := c.origin])
  {
  }

  lemma GrownElsewhere(existing: seq<Claim>, originOf: map<string, seq<string>>, changed: seq<string>, c: Claim)
    requires Grown(existing, originOf, changed) && UnusedIn(existing, c.id)
    ensures Grown(existing, originOf[c.id := c.origin], changed)
  {
    forall i | 0 <= i < |existing|
      ensures GrownAt(existing[i], originOf[c.id := c.origin], changed)
    {
      assert GrownAt(existing[i], originOf, changed);
    }
  }

  lemma KeepMatches(
      key: KeyOf, existing: seq<Claim>, done: seq<Claim>, c: Claim, kept: seq<Claim>,
      seen: map<Key, string>, originOf: map<string, seq<string>>, changed: seq<string>)
    requires Progress(key, existing, done, kept, seen, originOf, changed) && KeyFor(key, c) !in seen
    ensures Absorbed(key, existing, done + [c]) == Absorbed(key, existing, done) + [c]
    ensures Changed(key, existing, done + [c]) == changed
  {
    var claims, live := existing + kept, Absorbed(key, existing, done);
    assert (done + [c])[..|done|] == done;
    SameMatch(key, live, claims, KeyFor(key, c));
    assert LastMatch(key, claims, KeyFor(key, c)) < 0;
  }

  lemma KeepStep(
      key: KeyOf, existing: seq<Claim>, done: seq<Claim>, c: Claim, kept: seq<Claim>,
      seen: map<Key, string>, originOf: map<string, seq<string>>, changed: seq<string>)
    requires Progress(key, existing, done, kept, seen, originOf, changed)
    requires KeyFor(key, c) !in seen && UnusedIn(existing + kept, c.id)
    ensures Progress(key, existing, done + [c], kept + [c],
                     seen[KeyFor(key, c) := c.id], originOf[c.id := c.origin], changed)
  {
    var claims, live := existing + kept, Absorbed(key, existing, done);
    Reassociate(existing, kept, [c]);
    KeepMatches(key, existing, done, c, kept, seen, originOf, changed);
    SeenAppends(key, claims, c, seen);
    TracksAppends(live, claims, originOf, c);
    UnusedInPart(existing, kept, c.id);
    GrownElsewhere(existing, originOf, changed, c);
    assert DistinctIds(claims + [c]);
  }

  lemma UnusedInPart(a: seq<Claim>, b: seq<Claim>, id: string)
    requires UnusedIn(a + b, id)
    ensures UnusedIn(a, id)
  {
    assert forall i | 0 <= i < |a| :: (a + b)[i] == a[i];
  }

  lemma AliasMatches(
      key: KeyOf, existing: seq<Claim>, done: seq<Claim>, c: Claim, claims: seq<Claim>,
      originOf: map<string, seq<string>>, changed: seq<string>, i: nat)
    requires Tracks(Absorbed(key, existing, done), claims, originOf) && existing <= claims
    requires changed == Changed(key, existing, done) && i == LastMatch(key, claims, KeyFor(key, c))
    ensures var live, after := Absorbed(key, existing, done), Union(originOf[claims[i].id], c.origin);
      && Absorbed(key, existing, done + [c]) == live[i := live[i].(origin := after)]
      && Changed(key, existing, done + [c]) ==
           if after != originOf[claims[i].id] && i < |existing| && claims[i].id !in changed then changed + [claims[i].id]
           else changed
  {
    var live := Absorbed(key, existing, done);
    DropLast(done, c);
    SameMatch(key, live, claims, KeyFor(key, c));
    assert live[i] == claims[i].(origin := originOf[claims[i].id]);
  }

  lemma TracksGrown(live: seq<Claim>, claims: seq<Claim>, originOf: map<string, seq<string>>, i: nat, after: seq<string>)
    requires Tracks(live, claims, originOf) && DistinctIds(claims) && i < |claims|
    ensures Tracks(live[i := live[i].(origin := after)], claims, originOf[claims[i].id := after])
  {
  }

  lemma AliasStep(
      key: KeyOf, existing: seq<Claim>, done: seq<Claim>, c: Claim, kept: seq<Claim>,
      seen: map<Key, string>, originOf: map<string, seq<string>>, changed: seq<string>, i: nat)
    requires Progress(key, existing, done, kept, seen, originOf, changed)
    requires i == LastMatch(key, existing + kept, KeyFor(key, c))
    ensures (existing + kept)[i].id in originOf
    ensures var id := (existing + kept)[i].id;
      var after := Union(originOf[id], c.origin);
      Progress(key, existing, done + [c], kept, seen, originOf[id := after],
               if after != originOf[id] && i < |existing| && id !in changed then changed + [id] else changed)
  {
    var claims := existing + kept;
    var after := Union(originOf[claims[i].id], c.origin);
    AliasMatches(key, existing, done, c, claims, originOf, changed, i);
    TracksGrown(Absorbed(key, existing, done), claims, originOf, i, after);
    UnionMeaning(originOf[claims[i].id], c.origin);
    GrownByAlias(existing, kept, originOf, changed, i, after);
  }

  lemma GrownByAlias(existing: seq<Claim>, kept: seq<Claim>, originOf: map<string, seq<string>>, changed: seq<string>,
                     i: nat, after: seq<string>)
    requires DistinctIds(existing + kept) && i < |existing + kept| && Grown(existing, originOf, changed)
    requires (existing + kept)[i].id in originOf && originOf[(existing + kept)[i].id] <= after
    ensures var id := (existing + kept)[i].id;
      Grown(existing, originOf[id := after],
            if after != originOf[id] && i < |existing| && id !in changed then changed + [id] else changed)
  {
    var claims := existing + kept;
    var id := claims[i].id;
    var originOf' := originOf[id := after];
    var changed' := if after != originOf[id] && i < |existing| && id !in changed then changed + [id] else changed;
    forall j | 0 <= j < |existing|
      ensures GrownAt(existing[j], originOf', changed')
    {
      assert GrownAt(existing[j], originOf, changed);
      assert claims[j] == existing[j];
      if j != i {
        assert existing[j].id != id;
      }
    }
  }

  ghost predicate Indexed(existing: seq<Claim>, byId: map<string, Claim>) {
    && (forall i | 0 <= i < |existing| :: existing[i].id in byId && byId[existing[i].id] == existing[i])
    && (forall id | id in byId :: exists i :: 0 <= i < |existing| && existing[i].id == id)
  }

  lemma IndexStep(key: KeyOf, before: seq<Claim>, c: Claim, seen: map<Key, string>,
                  originOf: map<string, seq<string>>, byId: map<string, Claim>)
    requires DistinctIds(before) && UnusedIn(before, c.id)
    requires Progress(key, before, [], [], seen, originOf, []) && Indexed(before, byId)
    ensures Progress(key, before + [c], [], [], seen[KeyFor(key, c) := c.id], originOf[c.id := c.origin], [])
    ensures Indexed(before + [c], byId[c.id := c])
  {
    var all := before + [c];
    assert before + [] == before && all + [] == all;
    SeenAppends(key, before, c, seen);
    TracksAppends(before, before, originOf, c);
    GrownElsewhere(before, originOf, [], c);
    assert GrownAt(c, originOf[c.id := c.origin], []);
    forall i | 0 <= i < |all| ensures GrownAt(all[i], originOf[c.id := c.origin], []) {
      if i < |before| {
        assert GrownAt(before[i], originOf[c.id := c.origin], []);
      }
    }
    IndexedAppends(before, c, byId);
  }

  lemma IndexedAppends(before: seq<Claim>, c: Claim, byId: map<string, Claim>)
    requires Indexed(before, byId) && UnusedIn(before, c.id)
    ensures Indexed(before + [c], byId[c.id := c])
  {
    var all, byId' := before + [c], byId[c.id := c];
    assert all[|before|] == c;
    forall id: string | id in byId'
      ensures exists i :: 0 <= i < |all| && all[i].id == id
    {
      if id != c.id {
        var i :| 0 <= i < |before| && before[i].id == id;
        assert all[i].id == id;
      }
    }
  }

  /** The loop over `existing` that fills the three dictionaries. */
  method IndexExisting(key: KeyOf, existing: seq<Claim>)
    returns (seen: map<Key, string>, originOf: map<string, seq<string>>, byId: map<string, Claim>)
    requires DistinctIds(existing)
    ensures Progress(key, existing, [], [], seen, originOf, []) && Indexed(existing, byId)
  {
    seen, originOf, byId := map[], map[], map[];
    assert existing[..0] + [] == [];
    for n := 0 to |existing|
      invariant Progress(key, existing[..n], [], [], seen, originOf, [])
      invariant Indexed(existing[..n], byId)
    {
      var c := existing[n];
      assert existing[..n + 1] == existing[..n] + [c];
      assert UnusedIn(existing[..n], c.id) && DistinctIds(existing[..n]);
      IndexStep(key, existing[..n], c, seen, originOf, byId);
      seen := seen[KeyFor(key, c) := c.id];
      originOf := originOf[c.id := c.origin];
      byId := byId[c.id := c];
    }
    assert existing[..|existing|] == existing;
  }

  /** No claim still to come has an id already in use. */
  ghost predicate Unspent(claims: seq<Claim>, incoming: seq<Claim>, n: nat) {
    forall m | n <= m < |incoming| :: UnusedIn(claims, incoming[m].id)
  }

  lemma UnspentStart(existing: seq<Claim>, incoming: seq<Claim>)
    requires DistinctIds(existing + incoming)
    ensures DistinctIds(existing) && DistinctIds(incoming) && Unspent(existing + [], incoming, 0)
  {
    var all := existing + incoming;
    assert forall i | 0 <= i < |existing| :: all[i] == existing[i];
    assert forall m | 0 <= m < |incoming| :: all[|existing| + m] == incoming[m];
    assert existing + [] == existing;
  }

  lemma UnspentStep(existing: seq<Claim>, kept: seq<Claim>, incoming: seq<Claim>, n: nat)
    requires DistinctIds(incoming) && n < |incoming| && Unspent(existing + kept, incoming, n)
    ensures Unspent(existing + kept, incoming, n + 1)
    ensures Unspent(existing + (kept + [incoming[n]]), incoming, n + 1)
  {
    assert existing + (kept + [incoming[n]]) == (existing + kept) + [incoming[n]];
  }

  lemma OwnedByExisting(existing: seq<Claim>, kept: seq<Claim>, byId: map<string, Claim>, i: nat)
    requires Indexed(existing, byId) && DistinctIds(existing + kept) && i < |existing + kept|
    ensures (existing + kept)[i].id in byId <==> i < |existing|
  {
    var claims := existing + kept;
    if i < |existing| {
      assert claims[i] == existing[i];
    } else {
      assert forall j | 0 <= j < |existing| :: claims[j] == existing[j];
      assert forall j | 0 <= j < |existing| :: existing[j].id != claims[i].id;
    }
  }

  /** The loop over `incoming`. */
  method MergeIncoming(
      key: KeyOf, existing: seq<Claim>, incoming: seq<Claim>, round: int, byId: map<string, Claim>,
      seen0: map<Key, string>, originOf0: map<string, seq<string>>)
    returns (kept: seq<Claim>, aliases: seq<Alias>, originOf: map<string, seq<string>>, changed: seq<string>,
             ghost seen: map<Key, string>)
    requires DistinctIds(existing + incoming) && Indexed(existing, byId)
    requires Progress(key, existing, [], [], seen0, originOf0, [])
    ensures Progress(key, existing, incoming, kept, seen, originOf, changed)
    ensures aliases == Aliases(key, existing, incoming, round)
    ensures |kept| + |aliases| == |incoming|
  {
    kept, aliases, originOf, changed := [], [], originOf0, [];
    var seenKeys := seen0;
    UnspentStart(existing, incoming);
    ghost var done: seq<Claim> := [];
    for n := 0 to |incoming|
      invariant done == incoming[..n]
      invariant Progress(key, existing, done, kept, seenKeys, originOf, changed)
      invariant aliases == Aliases(key, existing, done, round)
      invariant Unspent(existing + kept, incoming, n)
      invariant |kept| + |aliases| == n
    {
      var c := incoming[n];
      TakeOneMore(incoming, n);
      UnspentStep(existing, kept, incoming, n);
      AliasesAppend(key, existing, done, c, round);
      var alias;
      kept, alias, seenKeys, originOf, changed := MergeOne(
        key, existing, done, c, round, byId, kept, seenKeys, originOf, changed);
      aliases := aliases + (if alias.Some? then [alias.value] else []);
      done := done + [c];
    }
    assert incoming[..|incoming|] == incoming;
    seen := seenKeys;
  }

  lemma AliasesAppend(key: KeyOf, existing: seq<Claim>, done: seq<Claim>, c: Claim, round: int)
    ensures Aliases(key, existing, done + [c], round) == Aliases(key, existing, done, round)
      + var now := Absorbed(key, existing, done);
        var i := LastMatch(key, now, KeyFor(key, c));
        if i < 0 then [] else [AliasFor(now, i, c, round)]
  {
    assert (done + [c])[..|done|] == done;
  }

  lemma SameEntry<K, V>(m: map<K, V>, k: K, v: V)
    requires k in m && m[k] == v
    ensures m[k := v] == m
  {
  }

  /** One turn of the loop over `incoming`. */
  method MergeOne(
      key: KeyOf, existing: seq<Claim>, ghost done: seq<Claim>, c: Claim, round: int, byId: map<string, Claim>,
      kept: seq<Claim>, seen: map<Key, string>, originOf: map<string, seq<string>>, changed: seq<string>)
    returns (kept': seq<Claim>, alias: Option<Alias>, seen': map<Key, string>,
             originOf': map<string, seq<string>>, changed': seq<string>)
    requires Progress(key, existing, done, kept, seen, originOf, changed)
    requires UnusedIn(existing + kept, c.id) && Indexed(existing, byId)
    ensures Progress(key, existing, done + [c], kept', seen', originOf', changed')
    ensures kept' == if alias.None? then kept + [c] else kept
    ensures var now := Absorbed(key, existing, done);
      var i := LastMatch(key, now, KeyFor(key, c));
      alias == if i < 0 then None else Some(AliasFor(now, i, c, round))
  {
    kept', alias, seen', originOf', changed' := kept, None, seen, originOf, changed;
    var k := KeyFor(key, c);
    SameMatch(key, Absorbed(key, existing, done), existing + kept, k);
    var i := LastMatch(key, existing + kept, k);
    assert SeenIn(key, existing + kept, seen);
    assert k in seen <==> i >= 0;
    if k !in seen {
      KeepStep(key, existing, done, c, kept, seen, originOf, changed);
      seen' := seen[k := c.id];
      originOf' := originOf[c.id := c.origin];
      kept' := kept + [c];
    } else {
      var canonical := seen[k];
      AliasStep(key, existing, done, c, kept, seen, originOf, changed, i);
      OwnedByExisting(existing, kept, byId, i);
      alias := Some(Alias(canonical, c.id, round, "exact", "identical claim text and location"));
      var before := originOf[canonical];
      var after := MergeOrigin(before, c.origin);
      if after != before {
        originOf' := originOf[canonical := after];
        if canonical in byId && canonical !in changed {
          changed' := changed + [canonical];
        }
      } else {
        SameEntry(originOf, canonical, after);
      }
    }
  }

  lemma {:induction false} AbsorbedLonger(key: KeyOf, existing: seq<Claim>, incoming: seq<Claim>)
    ensures |existing| <= |Absorbed(key, existing, incoming)|
  {
    if incoming != [] {
      AbsorbedLonger(key, existing, incoming[..|incoming| - 1]);
    }
  }

  lemma {:induction false} AbsorbedKeepsIds(key: KeyOf, existing: seq<Claim>, incoming: seq<Claim>, i: nat)
    requires i < |existing|
    ensures i < |Absorbed(key, existing, incoming)| && Absorbed(key, existing, incoming)[i].id == existing[i].id
  {
    if incoming != [] {
      AbsorbedKeepsIds(key, existing, incoming[..|incoming| - 1], i);
    }
  }

  ghost predicate Owned(existing: seq<Claim>, id: string) {
    exists i :: 0 <= i < |existing| && existing[i].id == id
  }

  lemma {:induction false} ChangedOwned(key: KeyOf, existing: seq<Claim>, incoming: seq<Claim>, id: string)
    requires id in Changed(key, existing, incoming)
    ensures Owned(existing, id)
  {
    var before, c := incoming[..|incoming| - 1], incoming[|incoming| - 1];
    var now := Absorbed(key, existing, before);
    var i := LastMatch(key, now, KeyFor(key, c));
    if id in Changed(key, existing, before) {
      ChangedOwned(key, existing, before, id);
    } else {
      AbsorbedKeepsIds(key, existing, before, i);
    }
  }

  /** The update list, claim by claim. */
  ghost predicate UpdateFor(existing: seq<Claim>, originOf: map<string, seq<string>>, id: string, u: Claim) {
    exists i :: 0 <= i < |existing| && existing[i].id == id && id in originOf
                && u == existing[i].(origin := originOf[id])
  }

  lemma UpdatesMatch(
      key: KeyOf, existing: seq<Claim>, incoming: seq<Claim>, kept: seq<Claim>, seen: map<Key, string>,
      originOf: map<string, seq<string>>, changed: seq<string>, updated: seq<Claim>)
    requires Progress(key, existing, incoming, kept, seen, originOf, changed)
    requires |updated| == |changed|
    requires forall n | 0 <= n < |changed| :: UpdateFor(existing, originOf, changed[n], updated[n])
    ensures |existing| <= |Absorbed(key, existing, incoming)|
    ensures forall n | 0 <= n < |updated| :: updated[n] in Absorbed(key, existing, incoming)[..|existing|]
    ensures forall i | 0 <= i < |existing| ::
      if Absorbed(key, existing, incoming)[i] == existing[i] then existing[i].id !in changed
      else Absorbed(key, existing, incoming)[i] in updated
  {
    var now, claims := Absorbed(key, existing, incoming), existing + kept;
    forall i | 0 <= i < |existing|
      ensures now[i] == existing[i].(origin := originOf[existing[i].id])
    {
      assert claims[i] == existing[i];
    }
    forall n | 0 <= n < |updated|
      ensures updated[n] in now[..|existing|]
    {
      assert UpdateFor(existing, originOf, changed[n], updated[n]);
      var i :| 0 <= i < |existing| && existing[i].id == changed[n] && updated[n] == existing[i].(origin := originOf[changed[n]]);
      assert now[..|existing|][i] == updated[n];
    }
    forall i | 0 <= i < |existing|
      ensures if now[i] == existing[i] then existing[i].id !in changed else now[i] in updated
    {
      assert GrownAt(existing[i], originOf, changed);
      if existing[i].id in changed {
        var n :| 0 <= n < |changed| && changed[n] == existing[i].id;
        assert UpdateFor(existing, originOf, changed[n], updated[n]);
        var j :| 0 <= j < |existing| && existing[j].id == changed[n] && updated[n] == existing[j].(origin := originOf[changed[n]]);
        assert claims[j] == existing[j] && claims[i] == existing[i];
        assert i == j;
      }
    }
  }

  /** `exact_merge`. Ids are distinct: they are minted above every number the
      ledger has spent. */
  method ExactMerge(key: KeyOf, existing: seq<Claim>, incoming: seq<Claim>, round: int)
    returns (kept: seq<Claim>, aliases: seq<Alias>, updated: seq<Claim>)
    requires DistinctIds(existing + incoming)
    ensures |existing| <= |Absorbed(key, existing, incoming)|
    ensures kept == Absorbed(key, existing, incoming)[|existing|..]
    ensures aliases == Aliases(key, existing, incoming, round)
    ensures |kept| + |aliases| == |incoming|
    ensures |updated| == |Changed(key, existing, incoming)|
    ensures forall n | 0 <= n < |updated| ::
      && updated[n].id == Changed(key, existing, incoming)[n]
      && updated[n] in Absorbed(key, existing, incoming)[..|existing|]
    ensures forall i | 0 <= i < |existing| ::
      if Absorbed(key, existing, incoming)[i] == existing[i] then existing[i].id !in Changed(key, existing, incoming)
      else Absorbed(key, existing, incoming)[i] in updated
  {
    AbsorbedLonger(key, existing, incoming);
    UnspentStart(existing, incoming);
    var seen, originOf0, byId := IndexExisting(key, existing);
    var raw, aliases', originOf, changed, seenAfter := MergeIncoming(key, existing, incoming, round, byId, seen, originOf0);
    aliases := aliases';
    kept := WithOrigins(existing, raw, originOf, Absorbed(key, existing, incoming));
    forall n | 0 <= n < |changed|
      ensures Owned(existing, changed[n])
    {
      ChangedOwned(key, existing, incoming, changed[n]);
    }
    updated := Updates(existing, byId, originOf, changed);
    UpdatesMatch(key, existing, incoming, raw, seenAfter, originOf, changed, updated);
  }

  /** The kept claims with the origins gathered for them. */
  method WithOrigins(existing: seq<Claim>, raw: seq<Claim>, originOf: map<string, seq<string>>, ghost live: seq<Claim>)
    returns (kept: seq<Claim>)
    requires Tracks(live, existing + raw, originOf)
    ensures |live| >= |existing| && kept == live[|existing|..]
  {
    kept := [];
    for n := 0 to |raw|
      invariant |kept| == n
      invariant forall j | 0 <= j < n :: kept[j] == live[|existing| + j]
    {
      assert (existing + raw)[|existing| + n] == raw[n];
      var c := raw[n];
      kept := kept + [if originOf[c.id] != c.origin then c.(origin := originOf[c.id]) else c];
    }
  }

  method Updates(existing: seq<Claim>, byId: map<string, Claim>, originOf: map<string, seq<string>>, changed: seq<string>)
    returns (updated: seq<Claim>)
    requires Indexed(existing, byId) && Grown(existing, originOf, changed)
    requires forall n | 0 <= n < |changed| :: Owned(existing, changed[n])
    ensures |updated| == |changed|
    ensures forall n | 0 <= n < |changed| :: UpdateFor(existing, originOf, changed[n], updated[n])
  {
    updated := [];
    for n := 0 to |changed|
      invariant |updated| == n
      invariant forall j | 0 <= j < n :: UpdateFor(existing, originOf, changed[j], updated[j])
    {
      assert Owned(existing, changed[n]);
      ghost var i :| 0 <= i < |existing| && existing[i].id == changed[n];
      assert GrownAt(existing[i], originOf, changed);
      updated := updated + [byId[changed[n]].(origin := originOf[changed[n]])];
    }
  }
}
