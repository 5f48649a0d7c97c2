/** Which claims `exact_merge` takes for the same: those that say the same words about the
    same place. */
module MergeIdentity {
  import opened Text
  import opened Wrappers
  import opened Origins
  import opened Records
  import opened Sequences
  import opened Words
  import opened Merge
  import opened MergeLaws

  // ---------- the collapsed text ----------

  lemma CutBefore(s: string, spans: seq<Span>)
    requires s != "" && Within(s[..|s| - 1], spans)
    ensures Within(s, spans) && Cut(s, spans) == Cut(s[..|s| - 1], spans)
  {
    forall n | 0 <= n < |spans|
      ensures s[spans[n].0..spans[n].1] == s[..|s| - 1][spans[n].0..spans[n].1]
    {
    }
  }

  lemma SpacedGrows(words: seq<string>, last: string, c: char)
    ensures Spaced(words + [last + [c]]) == Spaced(words + [last]) + [c]
  {
    DropLast(words, last);
    DropLast(words, last + [c]);
    if words == [] {
      assert words + [last] == [last] && words + [last + [c]] == [last + [c]];
    } else {
      Reassociate(Spaced(words) + " ", last, [c]);
    }
  }

  lemma CutLengthened(s: string, spans: seq<Span>)
    requires s != "" && Within(s[..|s| - 1], spans) && spans != [] && spans[|spans| - 1].1 == |s| - 1
    ensures Within(s, Lengthened(spans, |s|))
    ensures var words, m := Cut(s[..|s| - 1], spans), |spans| - 1;
      Cut(s, Lengthened(spans, |s|)) == words[..m] + [words[m] + [s[|s| - 1]]]
  {
    var head, m := s[..|s| - 1], |spans| - 1;
    assert s[spans[m].0..|s|] == head[spans[m].0..|s| - 1] + [s[|s| - 1]];
    forall n | 0 <= n < m
      ensures s[spans[n].0..spans[n].1] == head[spans[n].0..spans[n].1]
    {
    }
  }

  lemma SplitLengthened(s: string)
    requires |s| > 1 && !IsSpace(s[|s| - 1]) && !IsSpace(s[|s| - 2])
    ensures var words := Split(s[..|s| - 1]);
      words != [] && Split(s) == words[..|words| - 1] + [words[|words| - 1] + [s[|s| - 1]]]
  {
    var head := s[..|s| - 1];
    WordsFound(head);
    WordsFound(s);
    CutLengthened(s, FindWords(head));
    assert FindWords(s) == Lengthened(FindWords(head), |s|);
  }

  lemma GrownSplit(s: string)
    requires |s| > 1 && !IsSpace(s[|s| - 1]) && !IsSpace(s[|s| - 2])
    ensures Spaced(Split(s)) == Spaced(Split(s[..|s| - 1])) + [s[|s| - 1]]
  {
    SplitLengthened(s);
    var words := Split(s[..|s| - 1]);
    var m := |words| - 1;
    assert words == words[..m] + [words[m]];
    SpacedGrows(words[..m], words[m], s[|s| - 1]);
  }

  lemma CutStarted(s: string, spans: seq<Span>)
    requires s != "" && Within(s[..|s| - 1], spans)
    ensures Within(s, spans + [(|s| - 1, |s|)])
    ensures Cut(s, spans + [(|s| - 1, |s|)]) == Cut(s[..|s| - 1], spans) + [[s[|s| - 1]]]
  {
    CutBefore(s, spans);
    assert s[|s| - 1..|s|] == [s[|s| - 1]];
  }

  lemma StartedFound(s: string)
    requires s != "" && !IsSpace(s[|s| - 1]) && (|s| > 1 ==> IsSpace(s[|s| - 2]))
    ensures FindWords(s) == FindWords(s[..|s| - 1]) + [(|s| - 1, |s|)]
  {
    WordsFound(s[..|s| - 1]);
  }

  lemma StartedSplit(s: string)
    requires s != "" && !IsSpace(s[|s| - 1]) && (|s| > 1 ==> IsSpace(s[|s| - 2]))
    ensures Split(s) == Split(s[..|s| - 1]) + [[s[|s| - 1]]]
  {
    WordsFound(s[..|s| - 1]);
    StartedFound(s);
    CutStarted(s, FindWords(s[..|s| - 1]));
  }

  lemma SpaceSplit(s: string)
    requires s != "" && IsSpace(s[|s| - 1])
    ensures Split(s) == Split(s[..|s| - 1])
  {
    WordsFound(s[..|s| - 1]);
    CutBefore(s, FindWords(s[..|s| - 1]));
  }

  lemma SpacedMore(words: seq<string>, c: char)
    requires Solid(words)
    ensures Spaced(words + [[c]]) == if Spaced(words) == "" then [c] else Spaced(words) + [' ', c]
  {
    SpacedShape(words);
    DropLast(words, [c]);
    assert words == [] ==> words + [[c]] == [[c]];
    assert Spaced(words) + " " + [c] == Spaced(words) + [' ', c];
  }

  /** The text of a key is the words of the claim, joined by single spaces. */
  lemma {:induction false} CollapsedIsWords(s: string)
    ensures Collapsed(s) == Spaced(Split(s))
  {
    if s != "" {
      var head, c := s[..|s| - 1], s[|s| - 1];
      CollapsedIsWords(head);
      if IsSpace(c) {
        SpaceSplit(s);
      } else if |s| > 1 && !IsSpace(s[|s| - 2]) {
        GrownSplit(s);
      } else {
        StartedSplit(s);
        SplitIsSolid(head);
        SpacedMore(Split(head), c);
      }
    }
  }

  // ---------- the key ----------

  function Place(location: Option<string>): string {
    if location.Some? then location.value else ""
  }

  /** Two texts with a place each: the same place but for whitespace around it, and the same
      words but for case. */
  ghost predicate SameIdentity(casefold: string -> string, text: string, location: Option<string>,
                               text': string, location': Option<string>)
  {
    Strip(Place(location)) == Strip(Place(location')) && casefold(Spaced(Split(text))) == casefold(Spaced(Split(text')))
  }

  /** Keys are equal exactly if the places and the words are. */
  lemma KeysEqualExactly(casefold: string -> string, text: string, location: Option<string>,
                         text': string, location': Option<string>)
    ensures MergeKey(casefold)(text, location) == MergeKey(casefold)(text', location')
       <==> SameIdentity(casefold, text, location, text', location')
  {
    CollapsedIsWords(text);
    CollapsedIsWords(text');
    var key := MergeKey(casefold);
    assert key(text, location) == (casefold(Collapsed(text)), Strip(Place(location)));
    assert key(text', location') == (casefold(Collapsed(text')), Strip(Place(location')));
  }

  ghost predicate Injective(casefold: string -> string) {
    forall a: string, b: string | casefold(a) == casefold(b) :: a == b
  }

  /** Where folding loses nothing, equal keys mean the same words in the same order. */
  lemma DifferentWordsDiffer(casefold: string -> string, text: string, location: Option<string>,
                             text': string, location': Option<string>)
    requires Injective(casefold)
    ensures MergeKey(casefold)(text, location) == MergeKey(casefold)(text', location')
       <==> Split(text) == Split(text') && Strip(Place(location)) == Strip(Place(location'))
  {
    KeysEqualExactly(casefold, text, location, text', location');
    SplitIsSolid(text);
    SplitIsSolid(text');
    if Spaced(Split(text)) == Spaced(Split(text')) {
      SpacedIsInjective(Split(text), Split(text'));
    }
  }

  // ---------- what is merged ----------

  ghost predicate SameClaim(casefold: string -> string, c: Claim, d: Claim) {
    SameIdentity(casefold, c.claim, c.location, d.claim, d.location)
  }

  /** Some of the claims says the same. */
  ghost predicate SaidIn(casefold: string -> string, claims: seq<Claim>, c: Claim) {
    exists i :: 0 <= i < |claims| && SameClaim(casefold, claims[i], c)
  }

  ghost predicate IsDuplicate(aliases: seq<Alias>, id: string) {
    exists k :: 0 <= k < |aliases| && aliases[k].duplicate == id
  }

  lemma SaidInMeaning(casefold: string -> string, claims: seq<Claim>, c: Claim)
    ensures SaidIn(casefold, claims, c) <==> LastMatch(MergeKey(casefold), claims, KeyFor(MergeKey(casefold), c)) >= 0
    ensures SaidIn(casefold, claims, c) <==> HasKey(MergeKey(casefold), claims, KeyFor(MergeKey(casefold), c))
  {
    var key := MergeKey(casefold);
    forall i | 0 <= i < |claims|
      ensures KeyFor(key, claims[i]) == KeyFor(key, c) <==> SameClaim(casefold, claims[i], c)
    {
      KeysEqualExactly(casefold, claims[i].claim, claims[i].location, c.claim, c.location);
    }
    if SaidIn(casefold, claims, c) {
      var i :| 0 <= i < |claims| && SameClaim(casefold, claims[i], c);
      assert KeyFor(key, claims[i]) == KeyFor(key, c) && claims[i] in claims;
    }
    if d :| d in claims && KeyFor(key, d) == KeyFor(key, c) {
      var i :| 0 <= i < |claims| && claims[i] == d;
    }
  }

  lemma SaidBeforeIsMatch(casefold: string -> string, live: seq<Claim>, done: seq<Claim>, c: Claim)
    ensures LastMatch(MergeKey(casefold), Absorbed(MergeKey(casefold), live, done), KeyFor(MergeKey(casefold), c)) >= 0
       <==> SaidIn(casefold, live, c) || SaidIn(casefold, done, c)
  {
    BehindAbsorbed(MergeKey(casefold), live, done, KeyFor(MergeKey(casefold), c), "");
    SaidInMeaning(casefold, live, c);
    SaidInMeaning(casefold, done, c);
  }

  /** `lives[n]` is what is live, `emitted[n]` what aliases there are after `n` incoming
      claims. */
  ghost predicate Emits(key: KeyOf, incoming: seq<Claim>, round: int, lives: seq<seq<Claim>>, emitted: seq<seq<Alias>>) {
    && |lives| == |emitted| == |incoming| + 1 && emitted[0] == []
    && forall n | 0 <= n < |incoming| :: EmitsAt(key, incoming[n], round, lives[n], emitted[n], emitted[n + 1])
  }

  ghost predicate EmitsAt(key: KeyOf, c: Claim, round: int, now: seq<Claim>, before: seq<Alias>, after: seq<Alias>) {
    var i := LastMatch(key, now, KeyFor(key, c));
    after == before + if i < 0 then [] else [AliasFor(now, i, c, round)]
  }

  lemma BatchEmits(key: KeyOf, live: seq<Claim>, incoming: seq<Claim>, round: int)
    returns (lives: seq<seq<Claim>>, emitted: seq<seq<Alias>>)
    ensures Emits(key, incoming, round, lives, emitted)
    ensures emitted[|incoming|] == Aliases(key, live, incoming, round)
    ensures forall n | 0 <= n <= |incoming| :: lives[n] == Absorbed(key, live, incoming[..n])
  {
    var m := |incoming|;
    lives := seq(m + 1, n requires 0 <= n <= m => Absorbed(key, live, incoming[..n]));
    emitted := seq(m + 1, n requires 0 <= n <= m => Aliases(key, live, incoming[..n], round));
    assert incoming[..0] == [] && incoming[..m] == incoming;
    forall n | 0 <= n < m
      ensures EmitsAt(key, incoming[n], round, lives[n], emitted[n], emitted[n + 1])
    {
      OneEmitted(key, live, incoming[..n], incoming[n], round);
      TakeOneMore(incoming, n);
    }
  }

  lemma OneEmitted(key: KeyOf, live: seq<Claim>, done: seq<Claim>, c: Claim, round: int)
    ensures EmitsAt(key, c, round, Absorbed(key, live, done), Aliases(key, live, done, round),
                    Aliases(key, live, done + [c], round))
  {
    AliasesAppend(key, live, done, c, round);
  }

  /** The `n`th incoming claim has this id and met a claim with its key. */
  ghost predicate MatchedAt(key: KeyOf, incoming: seq<Claim>, lives: seq<seq<Claim>>, n: nat, id: string) {
    && n < |incoming| && n < |lives| && incoming[n].id == id
    && LastMatch(key, lives[n], KeyFor(key, incoming[n])) >= 0
  }

  lemma {:induction false} DuplicateMeaning(key: KeyOf, incoming: seq<Claim>, round: int, lives: seq<seq<Claim>>,
                                            emitted: seq<seq<Alias>>, m: nat, id: string)
    requires Emits(key, incoming, round, lives, emitted) && m <= |incoming|
    ensures IsDuplicate(emitted[m], id) <==> exists n: nat :: n < m && MatchedAt(key, incoming, lives, n, id)
  {
    if m > 0 {
      DuplicateMeaning(key, incoming, round, lives, emitted, m - 1, id);
      assert EmitsAt(key, incoming[m - 1], round, lives[m - 1], emitted[m - 1], emitted[m]);
      var matched := LastMatch(key, lives[m - 1], KeyFor(key, incoming[m - 1])) >= 0;
      OneMoreDuplicate(emitted[m - 1], emitted[m], id, matched, incoming[m - 1].id);
      assert MatchedAt(key, incoming, lives, m - 1, id) <==> matched && incoming[m - 1].id == id;
    }
  }

  lemma OneMoreDuplicate(before: seq<Alias>, after: seq<Alias>, id: string, added: bool, duplicate: string)
    requires before <= after && |after| == |before| + if added then 1 else 0
    requires added ==> after[|before|].duplicate == duplicate
    ensures IsDuplicate(after, id) <==> IsDuplicate(before, id) || (added && duplicate == id)
  {
    if k :| 0 <= k < |before| && before[k].duplicate == id {
      assert after[k].duplicate == id;
    }
  }

  /** Over a whole batch: an incoming claim is merged away exactly if an existing claim, or
      an incoming one before it, says the same about the same place. */
  lemma AliasedExactly(casefold: string -> string, live: seq<Claim>, incoming: seq<Claim>, round: int, n: nat)
    requires DistinctIds(live + incoming) && n < |incoming|
    ensures IsDuplicate(Aliases(MergeKey(casefold), live, incoming, round), incoming[n].id)
       <==> SaidIn(casefold, live, incoming[n]) || SaidIn(casefold, incoming[..n], incoming[n])
  {
    var key := MergeKey(casefold);
    assert forall i | 0 <= i < |incoming| :: (live + incoming)[|live| + i] == incoming[i];
    var lives, emitted := BatchEmits(key, live, incoming, round);
    DuplicateMeaning(key, incoming, round, lives, emitted, |incoming|, incoming[n].id);
    SaidBeforeIsMatch(casefold, live, incoming[..n], incoming[n]);
    MatchedOnce(key, incoming, lives, n);
  }

  lemma MatchedOnce(key: KeyOf, incoming: seq<Claim>, lives: seq<seq<Claim>>, n: nat)
    requires DistinctIds(incoming) && n < |incoming| < |lives|
    ensures (exists m: nat :: m < |incoming| && MatchedAt(key, incoming, lives, m, incoming[n].id))
       <==> LastMatch(key, lives[n], KeyFor(key, incoming[n])) >= 0
  {
    assert MatchedAt(key, incoming, lives, n, incoming[n].id) <==> LastMatch(key, lives[n], KeyFor(key, incoming[n])) >= 0;
  }

  /** What is kept says different things: no claim that was kept repeats another one. */
  lemma KeptSayDifferentThings(casefold: string -> string, live: seq<Claim>, incoming: seq<Claim>, i: nat, j: nat)
    requires i < j < |Absorbed(MergeKey(casefold), live, incoming)| && j >= |live|
    ensures var now := Absorbed(MergeKey(casefold), live, incoming);
      !SameClaim(casefold, now[i], now[j])
  {
    var key := MergeKey(casefold);
    var now := Absorbed(key, live, incoming);
    KeptKeysNew(key, live, incoming, i, j);
    KeysEqualExactly(casefold, now[i].claim, now[i].location, now[j].claim, now[j].location);
  }

  // ---------- the order of `updated_existing` ----------

  /** `lives[n]` is what is live after `n` incoming claims, `changes[n]` the list of changed
      claims by then. */
  ghost predicate IsTrace(key: KeyOf, existing: seq<Claim>, incoming: seq<Claim>,
                          lives: seq<seq<Claim>>, changes: seq<seq<string>>)
  {
    && |lives| == |changes| == |incoming| + 1
    && forall n | 0 <= n <= |incoming| ::
         lives[n] == Absorbed(key, existing, incoming[..n]) && changes[n] == Changed(key, existing, incoming[..n])
  }

  ghost predicate ChangeStep(key: KeyOf, existing: seq<Claim>, now: seq<Claim>, c: Claim, next: seq<Claim>,
                             changed: seq<string>, changed': seq<string>)
  {
    var i := LastMatch(key, now, KeyFor(key, c));
    && next == Absorb(key, now, c) && |existing| <= |now|
    && (forall j | 0 <= j < |existing| :: now[j].id == existing[j].id)
    && changed' == if 0 <= i < |existing| && Union(now[i].origin, c.origin) != now[i].origin && now[i].id !in changed
                   then changed + [now[i].id] else changed
  }

  ghost predicate AllSteps(key: KeyOf, existing: seq<Claim>, incoming: seq<Claim>,
                           lives: seq<seq<Claim>>, changes: seq<seq<string>>)
  {
    && |lives| == |changes| == |incoming| + 1 && changes[0] == []
    && forall n | 0 <= n < |incoming| :: StepAt(key, existing, incoming, lives, changes, n)
  }

  ghost predicate StepAt(key: KeyOf, existing: seq<Claim>, incoming: seq<Claim>,
                         lives: seq<seq<Claim>>, changes: seq<seq<string>>, n: nat)
    requires |lives| == |changes| == |incoming| + 1 && n < |incoming|
  {
    ChangeStep(key, existing, lives[n], incoming[n], lives[n + 1], changes[n], changes[n + 1])
  }

  lemma TraceStep(key: KeyOf, existing: seq<Claim>, done: seq<Claim>, c: Claim)
    ensures ChangeStep(key, existing, Absorbed(key, existing, done), c, Absorbed(key, existing, done + [c]),
                       Changed(key, existing, done), Changed(key, existing, done + [c]))
  {
    DropLast(done, c);
    AbsorbedLonger(key, existing, done);
    forall j | 0 <= j < |existing|
      ensures Absorbed(key, existing, done)[j].id == existing[j].id
    {
      AbsorbedKeepsIds(key, existing, done, j);
    }
  }

  lemma TraceSteps(key: KeyOf, existing: seq<Claim>, incoming: seq<Claim>,
                   lives: seq<seq<Claim>>, changes: seq<seq<string>>)
    requires IsTrace(key, existing, incoming, lives, changes)
    ensures AllSteps(key, existing, incoming, lives, changes)
  {
    assert incoming[..0] == [];
    forall n: nat | n < |incoming|
      ensures StepAt(key, existing, incoming, lives, changes, n)
    {
      TakeOneMore(incoming, n);
      TraceStep(key, existing, incoming[..n], incoming[n]);
      assert lives[n] == Absorbed(key, existing, incoming[..n]) && lives[n + 1] == Absorbed(key, existing, incoming[..n + 1]);
    }
  }

  /** The `n`th incoming claim adds to the origin of the claim at `i`. */
  ghost predicate GrowsAt(lives: seq<seq<Claim>>, n: nat, i: nat) {
    n + 1 < |lives| && i < |lives[n]| && i < |lives[n + 1]| && lives[n][i].origin != lives[n + 1][i].origin
  }

  ghost predicate FirstGrows(lives: seq<seq<Claim>>, n: nat, i: nat) {
    GrowsAt(lives, n, i) && forall m: nat | m < n :: !GrowsAt(lives, m, i)
  }

  /** When each entry of a list of changed claims was first seen to grow. */
  ghost predicate Timed(existing: seq<Claim>, lives: seq<seq<Claim>>, changed: seq<string>, when: seq<nat>, who: seq<nat>) {
    && |when| == |who| == |changed|
    && (forall a, b | 0 <= a < b < |when| :: when[a] < when[b])
    && forall a | 0 <= a < |changed| ::
         who[a] < |existing| && existing[who[a]].id == changed[a] && FirstGrows(lives, when[a], who[a])
  }

  lemma {:induction false} GrowthIsRecorded(key: KeyOf, existing: seq<Claim>, incoming: seq<Claim>,
      lives: seq<seq<Claim>>, changes: seq<seq<string>>, n: nat, m: nat, i: nat)
    requires AllSteps(key, existing, incoming, lives, changes)
    requires GrowsAt(lives, n, i) && n < m <= |incoming| && i < |existing|
    ensures existing[i].id in changes[m]
    decreases m
  {
    assert StepAt(key, existing, incoming, lives, changes, m - 1);
    if n < m - 1 {
      GrowthIsRecorded(key, existing, incoming, lives, changes, n, m - 1, i);
    }
  }

  lemma TimedMore(existing: seq<Claim>, lives: seq<seq<Claim>>, changed: seq<string>, when: seq<nat>, who: seq<nat>,
                  n: nat, i: nat)
    requires Timed(existing, lives, changed, when, who) && forall a | 0 <= a < |when| :: when[a] < n
    requires i < |existing| && FirstGrows(lives, n, i)
    ensures Timed(existing, lives, changed + [existing[i].id], when + [n], who + [i])
  {
  }

  lemma FirstGrowth(key: KeyOf, existing: seq<Claim>, incoming: seq<Claim>,
      lives: seq<seq<Claim>>, changes: seq<seq<string>>, n: nat, i: nat)
    requires AllSteps(key, existing, incoming, lives, changes)
    requires n < |incoming| && i < |existing| && GrowsAt(lives, n, i) && existing[i].id !in changes[n]
    ensures FirstGrows(lives, n, i)
  {
    forall p: nat | p < n
      ensures !GrowsAt(lives, p, i)
    {
      if GrowsAt(lives, p, i) {
        GrowthIsRecorded(key, existing, incoming, lives, changes, p, n, i);
        assert false;
      }
    }
  }

  lemma NewlyChanged(key: KeyOf, existing: seq<Claim>, incoming: seq<Claim>,
      lives: seq<seq<Claim>>, changes: seq<seq<string>>, n: nat) returns (i: nat)
    requires AllSteps(key, existing, incoming, lives, changes) && n < |incoming| && changes[n + 1] != changes[n]
    ensures i < |existing| && changes[n + 1] == changes[n] + [existing[i].id] && FirstGrows(lives, n, i)
  {
    assert StepAt(key, existing, incoming, lives, changes, n);
    i := LastMatch(key, lives[n], KeyFor(key, incoming[n]));
    FirstGrowth(key, existing, incoming, lives, changes, n, i);
  }

  lemma {:induction false} ChangedWhen(key: KeyOf, existing: seq<Claim>, incoming: seq<Claim>,
      lives: seq<seq<Claim>>, changes: seq<seq<string>>, m: nat) returns (when: seq<nat>, who: seq<nat>)
    requires AllSteps(key, existing, incoming, lives, changes) && m <= |incoming|
    ensures Timed(existing, lives, changes[m], when, who)
    ensures forall a | 0 <= a < |when| :: when[a] < m
  {
    if m == 0 {
      when, who := [], [];
    } else {
      when, who := ChangedWhen(key, existing, incoming, lives, changes, m - 1);
      if changes[m] != changes[m - 1] {
        var i := NewlyChanged(key, existing, incoming, lives, changes, m - 1);
        TimedMore(existing, lives, changes[m - 1], when, who, m - 1, i);
        when, who := when + [m - 1], who + [i];
      }
    }
  }

  /** `updated_existing` is in the order in which the changes were first seen: each entry
      first grew at an incoming claim before the one at which the next first grew. */
  lemma ChangedInOrder(key: KeyOf, existing: seq<Claim>, incoming: seq<Claim>,
                       lives: seq<seq<Claim>>, changes: seq<seq<string>>)
    requires IsTrace(key, existing, incoming, lives, changes)
    ensures exists when, who :: Timed(existing, lives, Changed(key, existing, incoming), when, who)
  {
    TraceSteps(key, existing, incoming, lives, changes);
    var when, who := ChangedWhen(key, existing, incoming, lives, changes, |incoming|);
    assert incoming[..|incoming|] == incoming;
  }
}
