/** What exact deduplication promises of its result, and which ids it may mint. */
module MergeLaws {
  import opened Wrappers
  import opened Records
  import opened Origins
  import opened Ids
  import opened Merge

  // ---------- merging in pieces ----------

  /** Merging a + b is merging a, then b against the result. */
  lemma {:induction false} MergeComposes(key: KeyOf, live: seq<Claim>, a: seq<Claim>, b: seq<Claim>, round: int)
    ensures Absorbed(key, live, a + b) == Absorbed(key, Absorbed(key, live, a), b)
    ensures Aliases(key, live, a + b, round)
         == Aliases(key, live, a, round) + Aliases(key, Absorbed(key, live, a), b, round)
    decreases |b|
  {
    if b == [] {
      assert a + b == a;
    } else {
      assert (a + b)[..|a + b| - 1] == a + b[..|b| - 1];
      MergeComposes(key, live, a, b[..|b| - 1], round);
    }
  }

  lemma {:induction false} KeptAndAliasedCount(key: KeyOf, live: seq<Claim>, incoming: seq<Claim>, round: int)
    ensures |Absorbed(key, live, incoming)| + |Aliases(key, live, incoming, round)| == |live| + |incoming|
  {
    if incoming != [] {
      KeptAndAliasedCount(key, live, incoming[..|incoming| - 1], round);
    }
  }

  // ---------- the order of incoming claims ----------

  ghost predicate HasKey(key: KeyOf, claims: seq<Claim>, k: Key) {
    exists c :: c in claims && KeyFor(key, c) == k
  }

  /** `o` raised a claim with key `k`. */
  ghost predicate RaisedUnder(key: KeyOf, claims: seq<Claim>, k: Key, o: string) {
    exists c :: c in claims && KeyFor(key, c) == k && o in c.origin
  }

  /** Who stands behind the claim that holds key `k`. */
  ghost function Behind(key: KeyOf, live: seq<Claim>, k: Key): set<string> {
    var i := LastMatch(key, live, k);
    if i < 0 then {} else Names(live[i].origin)
  }

  lemma BehindKept(key: KeyOf, live: seq<Claim>, c: Claim, k: Key)
    requires LastMatch(key, live, KeyFor(key, c)) < 0
    ensures Behind(key, live + [c], k) == Behind(key, live, k) + if KeyFor(key, c) == k then Names(c.origin) else {}
    ensures LastMatch(key, live + [c], k) >= 0 <==> LastMatch(key, live, k) >= 0 || KeyFor(key, c) == k
  {
    LastMatchAppends(key, live, c, k);
  }

  lemma BehindJoined(key: KeyOf, live: seq<Claim>, i: nat, joined: seq<string>, grown: seq<Claim>, k: Key)
    requires i < |live| && grown == live[i := live[i].(origin := joined)] && Names(live[i].origin) <= Names(joined)
    requires i == LastMatch(key, live, KeyFor(key, live[i]))
    ensures LastMatch(key, grown, k) == LastMatch(key, live, k)
    ensures Behind(key, grown, k) == Behind(key, live, k) + if KeyFor(key, live[i]) == k then Names(joined) else {}
  {
    SameMatch(key, live, grown, k);
  }

  lemma BehindStep(key: KeyOf, live: seq<Claim>, c: Claim, k: Key)
    ensures Behind(key, Absorb(key, live, c), k)
         == Behind(key, live, k) + if KeyFor(key, c) == k then Names(c.origin) else {}
    ensures LastMatch(key, Absorb(key, live, c), k) >= 0
       <==> LastMatch(key, live, k) >= 0 || KeyFor(key, c) == k
  {
    var i, grown := LastMatch(key, live, KeyFor(key, c)), Absorb(key, live, c);
    if i < 0 {
      BehindKept(key, live, c, k);
    } else {
      var joined := Union(live[i].origin, c.origin);
      UnionMeaning(live[i].origin, c.origin);
      BehindJoined(key, live, i, joined, grown, k);
    }
  }

  lemma {:induction false} BehindAbsorbed(key: KeyOf, live: seq<Claim>, incoming: seq<Claim>, k: Key, o: string)
    ensures o in Behind(key, Absorbed(key, live, incoming), k)
       <==> o in Behind(key, live, k) || RaisedUnder(key, incoming, k, o)
    ensures LastMatch(key, Absorbed(key, live, incoming), k) >= 0
       <==> LastMatch(key, live, k) >= 0 || HasKey(key, incoming, k)
  {
    if incoming != [] {
      var before, c := incoming[..|incoming| - 1], incoming[|incoming| - 1];
      assert incoming == before + [c];
      BehindAbsorbed(key, live, before, k, o);
      BehindStep(key, Absorbed(key, live, before), c, k);
      assert RaisedUnder(key, incoming, k, o) <==>
        RaisedUnder(key, before, k, o) || (KeyFor(key, c) == k && o in c.origin) by {
        assert forall d :: d in incoming <==> d in before || d == c;
      }
      assert HasKey(key, incoming, k) <==> HasKey(key, before, k) || KeyFor(key, c) == k by {
        assert forall d :: d in incoming <==> d in before || d == c;
      }
    }
  }

  /** Kept claims repeat no key, of the existing claims or of each other. */
  lemma {:induction false} KeptKeysNew(key: KeyOf, live: seq<Claim>, incoming: seq<Claim>, i: nat, j: nat)
    requires i < j < |Absorbed(key, live, incoming)| && j >= |live|
    ensures KeyFor(key, Absorbed(key, live, incoming)[i]) != KeyFor(key, Absorbed(key, live, incoming)[j])
  {
    if incoming != [] {
      var before, c := incoming[..|incoming| - 1], incoming[|incoming| - 1];
      var now := Absorbed(key, live, before);
      if j < |now| {
        KeptKeysNew(key, live, before, i, j);
      } else {
        assert LastMatch(key, now, KeyFor(key, c)) < 0;
      }
    }
  }

  lemma {:induction false} ExistingKeysStay(key: KeyOf, live: seq<Claim>, incoming: seq<Claim>, i: nat)
    requires i < |live|
    ensures i < |Absorbed(key, live, incoming)|
    ensures KeyFor(key, Absorbed(key, live, incoming)[i]) == KeyFor(key, live[i])
  {
    if incoming != [] {
      ExistingKeysStay(key, live, incoming[..|incoming| - 1], i);
    }
  }

  /** Whether some kept claim has key `k`. */
  ghost predicate KeptKey(key: KeyOf, live: seq<Claim>, incoming: seq<Claim>, k: Key) {
    exists j :: |live| <= j < |Absorbed(key, live, incoming)| && KeyFor(key, Absorbed(key, live, incoming)[j]) == k
  }

  lemma KeptKeyMeaning(key: KeyOf, live: seq<Claim>, incoming: seq<Claim>, k: Key)
    ensures KeptKey(key, live, incoming, k) <==> HasKey(key, incoming, k) && LastMatch(key, live, k) < 0
  {
    var now := Absorbed(key, live, incoming);
    BehindAbsorbed(key, live, incoming, k, "");
    var i, n := LastMatch(key, now, k), LastMatch(key, live, k);
    if j :| |live| <= j < |now| && KeyFor(key, now[j]) == k {
      if n >= 0 {
        ExistingKeysStay(key, live, incoming, n);
        KeptKeysNew(key, live, incoming, n, j);
      }
      assert i >= 0;
    }
    if HasKey(key, incoming, k) && n < 0 {
      if i < |live| {
        ExistingKeysStay(key, live, incoming, i);
      }
      assert KeyFor(key, now[i]) == k;
    }
  }

  /** Which claim becomes canonical depends on the order of `incoming`; which keys
      are kept, and who stands behind each key, does not. */
  lemma OrderDoesNotMatter(key: KeyOf, live: seq<Claim>, a: seq<Claim>, b: seq<Claim>, k: Key)
    requires multiset(a) == multiset(b)
    ensures KeptKey(key, live, a, k) == KeptKey(key, live, b, k)
    ensures Behind(key, Absorbed(key, live, a), k) == Behind(key, Absorbed(key, live, b), k)
  {
    assert forall c :: c in a <==> c in b by {
      forall c ensures c in a <==> c in b {
        assert c in a <==> c in multiset(a);
        assert c in b <==> c in multiset(b);
      }
    }
    KeptKeyMeaning(key, live, a, k);
    KeptKeyMeaning(key, live, b, k);
    forall o
      ensures o in Behind(key, Absorbed(key, live, a), k) <==> o in Behind(key, Absorbed(key, live, b), k)
    {
      BehindAbsorbed(key, live, a, k, o);
      BehindAbsorbed(key, live, b, k, o);
    }
  }

  // ---------- fresh ids ----------

  ghost predicate Malformed(record: Record) {
    record.ClaimRecord? && ParseClaimId(record.claim.id).None?
  }

  /** The number of a well-formed claim record. */
  ghost predicate Spent(record: Record, n: nat) {
    record.ClaimRecord? && ParseClaimId(record.claim.id).Some? && ParseClaimId(record.claim.id).value.0 == n
  }

  /** `next_claim_number`: the highest number ever spent, from every claim record,
      merged away, superseded or live; a malformed id is refused. */
  method NextClaimNumber(records: seq<Record>) returns (highest: Result<nat, string>)
    ensures highest.Err? <==> exists n :: 0 <= n < |records| && Malformed(records[n])
    ensures highest.Ok? ==>
      && (forall n, number: nat | 0 <= n < |records| && Spent(records[n], number) :: number <= highest.value)
      && (highest.value == 0 || exists n :: 0 <= n < |records| && Spent(records[n], highest.value))
  {
    var most := 0;
    for n := 0 to |records|
      invariant forall i | 0 <= i < n :: !Malformed(records[i])
      invariant forall i, number: nat | 0 <= i < n && Spent(records[i], number) :: number <= most
      invariant most == 0 || exists i :: 0 <= i < n && Spent(records[i], most)
    {
      if records[n].ClaimRecord? {
        var parsed := ParseClaimId(records[n].claim.id);
        if parsed.None? {
          assert Malformed(records[n]);
          return Err(records[n].claim.id);
        }
        assert Spent(records[n], parsed.value.0);
        if parsed.value.0 > most {
          most := parsed.value.0;
        }
      }
    }
    highest := Ok(most);
  }

  /** Every id minted above the highest spent number is the id of no claim record,
      whatever became of the records below it. */
  lemma MintedAboveIsFresh(records: seq<Record>, highest: nat, number: nat, version: nat, n: nat)
    requires forall i, spent: nat | 0 <= i < |records| && Spent(records[i], spent) :: spent <= highest
    requires n < |records| && number > highest && records[n].ClaimRecord?
    ensures records[n].claim.id != FormatClaimId(number, version)
  {
    ParseInvertsFormat(number, version);
    if records[n].claim.id == FormatClaimId(number, version) {
      assert Spent(records[n], number);
      assert false;
    }
  }
}
