/** `RepeatTracker`: which friends are disabled after failing the same way again. */
module Failures {
  import opened Ids
  import opened JsonData
  import opened Sequences
  import opened Wrappers

  datatype Outcome = Outcome(exitCode: Option<int>, failureReason: Option<string>)

  /** The tracker's three dicts, and what a failure looks like to it. */
  datatype State = State(last: map<string, string>, count: map<string, int>, disabled: map<string, string>)

  function FailureSignature(outcome: Outcome): Option<string> {
    if outcome.failureReason.None? then None
    else
      var code := if outcome.exitCode.None? then "None" else IntText(outcome.exitCode.value);
      Some(code + ":" + outcome.failureReason.value)
  }

  /** Where the exit code ends. */
  function Colon(s: string): (at: nat)
    ensures at <= |s| && ':' !in s[..at] && (at < |s| ==> s[at] == ':')
  {
    if s == "" || s[0] == ':' then 0 else 1 + Colon(s[1..])
  }

  lemma {:induction false} ColonAfter(code: string, reason: string)
    requires ':' !in code
    ensures Colon(code + ":" + reason) == |code|
    decreases |code|
  {
    var s := code + ":" + reason;
    if code != "" {
      assert s[0] == code[0];
      assert s[1..] == code[1..] + ":" + reason;
      ColonAfter(code[1..], reason);
    }
  }

  lemma CodeHasNoColon(n: int)
    ensures ':' !in IntText(n) && IntText(n) != "None"
  {
    var s := IntText(n);
    assert s[0] == '-' || IsDigit(s[0]) by {
      if n >= 0 {
        assert AllDigits(Decimal(n));
      }
    }
    forall i | 0 <= i < |s|
      ensures s[i] != ':'
    {
      if i > 0 {
        assert s[1..][i - 1] == s[i];
      }
    }
    assert "None"[0] == 'N';
  }

  /** Failures look the same exactly if reason and exit status are. */
  lemma SignatureIsInjective(left: Outcome, right: Outcome)
    requires left.failureReason.Some? && FailureSignature(left) == FailureSignature(right)
    ensures left == right
  {
    var l := if left.exitCode.None? then "None" else IntText(left.exitCode.value);
    var r := if right.exitCode.None? then "None" else IntText(right.exitCode.value);
    if left.exitCode.Some? { CodeHasNoColon(left.exitCode.value); }
    if right.exitCode.Some? { CodeHasNoColon(right.exitCode.value); }
    ColonAfter(l, left.failureReason.value);
    ColonAfter(r, right.failureReason.value);
    var s := FailureSignature(left).value;
    assert s[..|l|] == l && s[..|r|] == r;
    assert s[|l| + 1..] == left.failureReason.value && s[|r| + 1..] == right.failureReason.value;
    if left.exitCode.Some? && right.exitCode.Some? {
      IntTextIsInjective(left.exitCode.value, right.exitCode.value);
    }
  }

  lemma StartsWithMinus(n: int)
    ensures IntText(n)[0] == '-' <==> n < 0
  {
    if n >= 0 {
      assert IsDigit(Decimal(n)[0]);
    }
  }

  lemma IntTextIsInjective(m: int, n: int)
    requires IntText(m) == IntText(n)
    ensures m == n
  {
    NumberOfDecimal(if m < 0 then -m else m);
    NumberOfDecimal(if n < 0 then -n else n);
    StartsWithMinus(m);
    StartsWithMinus(n);
    if m < 0 {
      assert IntText(m)[1..] == Decimal(-m) && IntText(n)[1..] == Decimal(-n);
    }
  }

  // ---------- one outcome more ----------

  function Recorded(limit: int, s: State, friend: string, outcome: Outcome): State {
    var signature := FailureSignature(outcome);
    if signature.None? then
      State(s.last[friend := ""], s.count[friend := 0], s.disabled - {friend})
    else if friend !in s.last || s.last[friend] != signature.value then
      State(s.last[friend := signature.value], s.count[friend := 1], s.disabled)
    else
      var count := (if friend in s.count then s.count[friend] else 0) + 1;
      var reason := if outcome.failureReason.value == "" then "repeated failure" else outcome.failureReason.value;
      State(s.last, s.count[friend := count], if count >= limit then s.disabled[friend := reason] else s.disabled)
  }

  type History = seq<(string, Outcome)>

  function Tracked(limit: int, start: State, history: History): State {
    if history == [] then start
    else
      var (friend, outcome) := history[|history| - 1];
      Recorded(limit, Tracked(limit, start, history[..|history| - 1]), friend, outcome)
  }

  const EMPTY := State(map[], map[], map[])

  // ---------- what disabled means ----------

  /** What one friend's outcomes looked like: no signature is a success. */
  function Of(history: History, friend: string): seq<Option<string>> {
    if history == [] then []
    else
      var before, (name, outcome) := Of(history[..|history| - 1], friend), history[|history| - 1];
      if name == friend then before + [FailureSignature(outcome)] else before
  }

  /** From `from` on there are `n` failures that look alike. */
  predicate Alike(h: seq<Option<string>>, from: nat, n: nat) {
    from + n <= |h| && forall i | from <= i < from + n :: h[i].Some? && h[i] == h[from]
  }

  /** The last `n` outcomes are failures that look alike. */
  predicate EndsAlike(h: seq<Option<string>>, n: nat) {
    n <= |h| && Alike(h, |h| - n, n)
  }

  predicate NoSuccess(h: seq<Option<string>>, from: nat) {
    forall i | from <= i < |h| :: h[i].Some?
  }

  /** The failures it takes: a first failure is never counted against the limit. */
  function Needed(limit: int): nat {
    if limit < 2 then 2 else limit
  }

  /** Since the last success, enough consecutive failures looked alike. */
  ghost predicate Broken(limit: int, h: seq<Option<string>>) {
    exists from: nat :: Alike(h, from, Needed(limit)) && NoSuccess(h, from)
  }

  /** How many failures at the end look alike. */
  function Streak(h: seq<Option<string>>): nat {
    if h == [] || h[|h| - 1].None? then 0
    else if |h| > 1 && h[|h| - 2] == h[|h| - 1] then 1 + Streak(h[..|h| - 1])
    else 1
  }

  lemma EndsAlikeLess(h: seq<Option<string>>, n: nat)
    requires 0 < n <= |h| && h[|h| - 1].Some?
    ensures EndsAlike(h, n) <==> n == 1 || (EndsAlike(h[..|h| - 1], n - 1) && h[|h| - 2] == h[|h| - 1])
  {
    var head, last := h[..|h| - 1], |h| - 1;
    if n > 1 && EndsAlike(h, n) {
      assert Alike(h, |h| - n, n);
      assert forall i | |h| - n <= i < last :: head[i] == h[i];
    }
  }

  lemma {:induction false} StreakMeaning(h: seq<Option<string>>, n: nat)
    ensures EndsAlike(h, n) <==> n <= Streak(h)
    decreases |h|
  {
    if n == 0 {
    } else if n > |h| {
      StreakAtMost(h);
    } else if h[|h| - 1].Some? {
      StreakMeaning(h[..|h| - 1], n - 1);
      EndsAlikeLess(h, n);
    } else {
      assert h[|h| - n + (n - 1)].None?;
    }
  }

  lemma {:induction false} StreakAtMost(h: seq<Option<string>>)
    ensures Streak(h) <= |h|
  {
    if h != [] {
      StreakAtMost(h[..|h| - 1]);
    }
  }

  lemma BrokenStep(limit: int, h: seq<Option<string>>, o: Option<string>)
    ensures Broken(limit, h + [o]) <==> o.Some? && (Broken(limit, h) || Streak(h + [o]) >= Needed(limit))
  {
    var next, k := h + [o], Needed(limit);
    StreakMeaning(next, k);
    assert next[|h|] == o;
    if Broken(limit, next) {
      var from: nat :| Alike(next, from, k) && NoSuccess(next, from);
      assert next[|h|].Some?;
      if from + k <= |h| {
        assert forall i | from <= i < |h| :: next[i] == h[i];
        assert Alike(h, from, k) && NoSuccess(h, from);
      } else {
        assert EndsAlike(next, k);
      }
    }
    if o.Some? && Broken(limit, h) {
      var from: nat :| Alike(h, from, k) && NoSuccess(h, from);
      assert forall i | from <= i < |h| :: next[i] == h[i];
      assert Alike(next, from, k) && NoSuccess(next, from);
    }
    if o.Some? && Streak(next) >= k {
      assert NoSuccess(next, |next| - k);
    }
  }

  /** What the dicts hold about a friend with history `h`. */
  ghost predicate Knows(limit: int, s: State, friend: string, h: seq<Option<string>>) {
    && (friend in s.last <==> h != []) && (friend in s.count <==> h != [])
    && (h != [] ==> s.last[friend] == if h[|h| - 1].Some? then h[|h| - 1].value else "")
    && (forall i | 0 <= i < |h| :: h[i] != Some(""))
    && (h != [] ==> s.count[friend] == Streak(h))
    && (friend in s.disabled <==> Broken(limit, h))
  }

  lemma KnowsMore(limit: int, s: State, friend: string, h: seq<Option<string>>, o: Outcome)
    requires Knows(limit, s, friend, h)
    ensures Knows(limit, Recorded(limit, s, friend, o), friend, h + [FailureSignature(o)])
  {
    var signature := FailureSignature(o);
    BrokenStep(limit, h, signature);
    assert (h + [signature])[..|h|] == h;
  }

  /** A friend is disabled exactly if, since its last success, `limit` consecutive
      failures had the same signature; a limit below two counts as two. */
  lemma {:induction false} DisabledExactly(limit: int, history: History, friend: string)
    ensures Knows(limit, Tracked(limit, EMPTY, history), friend, Of(history, friend))
    ensures friend in Tracked(limit, EMPTY, history).disabled <==> Broken(limit, Of(history, friend))
  {
    if history == [] {
      assert !Broken(limit, []);
    } else {
      var before := history[..|history| - 1];
      DisabledExactly(limit, before, friend);
      if history[|history| - 1].0 == friend {
        KnowsMore(limit, Tracked(limit, EMPTY, before), friend, Of(before, friend), history[|history| - 1].1);
      }
    }
  }

  /** What a disabled friend is said to have failed with. */
  function Reason(outcome: Outcome): string
    requires outcome.failureReason.Some?
  {
    if outcome.failureReason.value == "" then "repeated failure" else outcome.failureReason.value
  }

  /** The `n`th outcome is the friend's, and it and enough before it failed alike. */
  ghost predicate DisablesAt(limit: int, history: History, n: nat, friend: string) {
    && n < |history| && history[n].0 == friend && history[n].1.failureReason.Some?
    && Streak(Of(history[..n + 1], friend)) >= Needed(limit)
  }

  lemma DisablesLast(limit: int, before: History, friend: string, outcome: Outcome)
    ensures var s, h := Tracked(limit, EMPTY, before), Of(before, friend);
      var t := Recorded(limit, s, friend, outcome);
      if outcome.failureReason.Some? && Streak(h + [FailureSignature(outcome)]) >= Needed(limit)
      then friend in t.disabled && t.disabled[friend] == Reason(outcome)
      else friend in t.disabled ==> friend in s.disabled && t.disabled[friend] == s.disabled[friend]
  {
    var h := Of(before, friend);
    DisabledExactly(limit, before, friend);
    assert (h + [FailureSignature(outcome)])[..|h|] == h;
  }

  lemma DisablesPrefix(limit: int, before: History, history: History, n: nat, friend: string)
    requires before <= history && n < |before|
    ensures DisablesAt(limit, before, n, friend) <==> DisablesAt(limit, history, n, friend)
  {
    assert before[..n + 1] == history[..n + 1];
  }

  lemma OneMoreOf(before: History, friend: string, outcome: Outcome)
    ensures Of(before + [(friend, outcome)], friend) == Of(before, friend) + [FailureSignature(outcome)]
  {
    DropLast(before, (friend, outcome));
  }

  lemma ReasonStep(limit: int, before: History, name: string, outcome: Outcome, friend: string)
    requires friend in Tracked(limit, EMPTY, before + [(name, outcome)]).disabled
    ensures var s, t := Tracked(limit, EMPTY, before), Tracked(limit, EMPTY, before + [(name, outcome)]);
      if DisablesAt(limit, before + [(name, outcome)], |before|, friend) then t.disabled[friend] == Reason(outcome)
      else friend in s.disabled && t.disabled[friend] == s.disabled[friend]
  {
    var history := before + [(name, outcome)];
    DropLast(before, (name, outcome));
    assert history[..|before| + 1] == history;
    if name == friend {
      DisablesLast(limit, before, friend, outcome);
      OneMoreOf(before, friend, outcome);
    }
  }

  lemma NotDisabledLater(limit: int, before: History, history: History, n: nat, friend: string)
    requires |history| == |before| + 1 && before <= history && !DisablesAt(limit, history, |before|, friend)
    requires n < |before| && forall m: nat | n < m < |before| :: !DisablesAt(limit, before, m, friend)
    ensures forall m: nat | n < m < |history| :: !DisablesAt(limit, history, m, friend)
  {
    forall m: nat | n < m < |before|
      ensures !DisablesAt(limit, history, m, friend)
    {
      DisablesPrefix(limit, before, history, m, friend);
    }
  }

  /** A disabled friend is listed with the reason of its last failure that, with enough
      before it, failed alike. */
  lemma {:induction false} DisabledReason(limit: int, history: History, friend: string) returns (n: nat)
    requires friend in Tracked(limit, EMPTY, history).disabled
    ensures DisablesAt(limit, history, n, friend)
    ensures Tracked(limit, EMPTY, history).disabled[friend] == Reason(history[n].1)
    ensures forall m: nat | n < m < |history| :: !DisablesAt(limit, history, m, friend)
  {
    var last := |history| - 1;
    var before := history[..last];
    assert history == before + [(history[last].0, history[last].1)];
    ReasonStep(limit, before, history[last].0, history[last].1, friend);
    if DisablesAt(limit, history, last, friend) {
      n := last;
    } else {
      n := DisabledReason(limit, before, friend);
      DisablesPrefix(limit, before, history, n, friend);
      NotDisabledLater(limit, before, history, n, friend);
    }
  }

  // ---------- the class, its snapshot, and the rounds ----------

  function TextMap(m: map<string, string>): Json {
    JDict(map k | k in m :: JStr(m[k]))
  }

  function Snapshot(s: State): Json {
    JDict(map["last" := TextMap(s.last), "count" := JDict(map k | k in s.count :: JInt(s.count[k])),
              "disabled" := TextMap(s.disabled)])
  }

  /** Python's `str()` of a value, and `int()`, which may raise. */
  datatype Host = Host(str: Json -> string, whole: Json -> Option<int>)

  ghost predicate Plain(host: Host) {
    && (forall s: string :: host.str(JStr(s)) == s)
    && (forall n: int :: host.whole(JInt(n)) == Some(n))
  }

  function RestoredTexts(host: Host, data: Json, key: string): map<string, string> {
    var value := Get(data, key);
    if value.JDict? then map k | k in value.fields :: host.str(value.fields[k]) else map[]
  }

  /** None when an `int()` raises. */
  function RestoredState(host: Host, data: Json): Option<State> {
    var count := Get(data, "count");
    if count.JDict? && exists k | k in count.fields :: host.whole(count.fields[k]).None? then None
    else
      Some(State(
        RestoredTexts(host, data, "last"),
        if count.JDict? then map k | k in count.fields :: host.whole(count.fields[k]).value else map[],
        RestoredTexts(host, data, "disabled")))
  }

  lemma TextsRestored(host: Host, m: map<string, string>, data: Json, key: string)
    requires Plain(host) && Get(data, key) == TextMap(m)
    ensures RestoredTexts(host, data, key) == m
  {
  }

  /** Saving and restoring a tracker changes nothing, so no later history can tell. */
  lemma RestoreIsInvisible(host: Host, limit: int, s: State, later: History)
    requires Plain(host)
    ensures RestoredState(host, Snapshot(s)) == Some(s)
    ensures Tracked(limit, RestoredState(host, Snapshot(s)).value, later) == Tracked(limit, s, later)
  {
    var data := Snapshot(s);
    TextsRestored(host, s.last, data, "last");
    TextsRestored(host, s.disabled, data, "disabled");
    var count := Get(data, "count");
    assert count == JDict(map k | k in s.count :: JInt(s.count[k]));
    forall k | k in s.count
      ensures host.whole(count.fields[k]) == Some(s.count[k])
    {
      assert count.fields[k] == JInt(s.count[k]);
    }
    assert (map k | k in count.fields :: host.whole(count.fields[k]).value) == s.count;
  }

  /** Without a snapshot, or with one of an older version, the missing parts are empty. */
  lemma MissingPartsAreEmpty(host: Host, data: Json)
    requires RestoredState(host, data).Some?
    ensures var s := RestoredState(host, data).value;
      && (!Get(data, "last").JDict? ==> s.last == map[]) && (!Get(data, "count").JDict? ==> s.count == map[])
      && (!Get(data, "disabled").JDict? ==> s.disabled == map[])
    ensures RestoredState(host, JDict(map[])) == Some(EMPTY)
  {
  }

  /** A run before a snapshot and a run after a restore are one run. */
  lemma {:induction false} TrackedAppends(limit: int, start: State, before: History, later: History)
    ensures Tracked(limit, Tracked(limit, start, before), later) == Tracked(limit, start, before + later)
    decreases |later|
  {
    if later == [] {
      assert before + later == before;
    } else {
      assert (before + later)[..|before + later| - 1] == before + later[..|later| - 1];
      TrackedAppends(limit, start, before, later[..|later| - 1]);
    }
  }

  class RepeatTracker {
    const limit: int
    var last: map<string, string>
    var count: map<string, int>
    var disabled: map<string, string>

    ghost function Model(): State
      reads this
    {
      State(last, count, disabled)
    }

    constructor (limit: int)
      ensures this.limit == limit && Model() == EMPTY
    {
      this.limit := limit;
      last, count, disabled := map[], map[], map[];
    }

    constructor Restore(data: Json, host: Host, limit: int)
      requires RestoredState(host, data).Some?
      ensures this.limit == limit && Some(Model()) == RestoredState(host, data)
      ensures forall s {:trigger Snapshot(s)} | Plain(host) && data == Snapshot(s) :: Model() == s
    {
      forall s | Plain(host) && data == Snapshot(s)
        ensures RestoredState(host, data) == Some(s)
      {
        RestoreIsInvisible(host, limit, s, []);
      }
      this.limit := limit;
      var state := RestoredState(host, data).value;
      last, count, disabled := state.last, state.count, state.disabled;
    }

    method TakeSnapshot() returns (data: Json)
      ensures data == Snapshot(Model())
      ensures forall host | Plain(host) :: RestoredState(host, data) == Some(Model())
    {
      data := Snapshot(State(last, count, disabled));
      forall host | Plain(host)
        ensures RestoredState(host, data) == Some(Model())
      {
        RestoreIsInvisible(host, limit, Model(), []);
      }
    }

    method Record(friend: string, outcome: Outcome)
      modifies this
      ensures Model() == Recorded(limit, old(Model()), friend, outcome)
    {
      var signature := FailureSignature(outcome);
      if signature.None? || friend !in last || last[friend] != signature.value {
        count := count[friend := if signature.Some? && signature.value != "" then 1 else 0];
        last := last[friend := if signature.Some? then signature.value else ""];
        if signature.None? {
          disabled := disabled - {friend};
        }
        return;
      }
      count := count[friend := (if friend in count then count[friend] else 0) + 1];
      if count[friend] >= limit {
        var reason := outcome.failureReason.value;
        disabled := disabled[friend := if reason == "" then "repeated failure" else reason];
      }
    }

    predicate IsDisabled(friend: string)
      reads this
    {
      friend in disabled
    }
  }

  /** `partition_dispatchable`: the roster in order, the disabled ones apart. */
  method PartitionDispatchable(names: seq<string>, tracker: RepeatTracker?) returns (ready: seq<string>, skipped: seq<string>)
    ensures ready == Keep(names, if tracker == null then {} else tracker.disabled.Keys, false)
    ensures skipped == Keep(names, if tracker == null then {} else tracker.disabled.Keys, true)
  {
    if tracker == null {
      KeepAll(names);
      return names, [];
    }
    ready, skipped := [], [];
    for n := 0 to |names|
      invariant ready == Keep(names[..n], tracker.disabled.Keys, false)
      invariant skipped == Keep(names[..n], tracker.disabled.Keys, true)
    {
      TakeOneMore(names, n);
      if tracker.IsDisabled(names[n]) {
        skipped := skipped + [names[n]];
      } else {
        ready := ready + [names[n]];
      }
    }
    assert names[..|names|] == names;
  }

  /** The names that are, or are not, in a set. */
  function Keep(names: seq<string>, among: set<string>, inside: bool): seq<string> {
    if names == [] then []
    else
      var before, name := Keep(names[..|names| - 1], among, inside), names[|names| - 1];
      if (name in among) == inside then before + [name] else before
  }

  lemma {:induction false} KeepAll(names: seq<string>)
    ensures Keep(names, {}, false) == names && Keep(names, {}, true) == []
  {
    if names != [] {
      KeepAll(names[..|names| - 1]);
    }
  }

  lemma {:induction false} KeptOnly(names: seq<string>, among: set<string>, inside: bool, name: string)
    ensures name in Keep(names, among, inside) <==> name in names && ((name in among) == inside)
  {
    if names != [] {
      assert names == names[..|names| - 1] + [names[|names| - 1]];
      KeptOnly(names[..|names| - 1], among, inside, name);
    }
  }

  /** Rounds of a run: only friends that may run at the start of a round have an
      outcome in it. */
  ghost predicate Dispatched(limit: int, start: State, roster: seq<string>, rounds: seq<History>) {
    rounds != [] ==>
      && Dispatched(limit, start, roster, rounds[..|rounds| - 1])
      && var before := Played(limit, start, rounds[..|rounds| - 1]);
        forall entry | entry in rounds[|rounds| - 1] :: entry.0 in Keep(roster, before.disabled.Keys, false)
  }

  function Played(limit: int, start: State, rounds: seq<History>): State {
    if rounds == [] then start
    else Tracked(limit, Played(limit, start, rounds[..|rounds| - 1]), rounds[|rounds| - 1])
  }

  lemma {:induction false} OthersDoNotMatter(limit: int, s: State, history: History, friend: string)
    requires forall entry | entry in history :: entry.0 != friend
    ensures var t := Tracked(limit, s, history);
      && (friend in t.disabled <==> friend in s.disabled)
      && (friend in s.disabled ==> t.disabled[friend] == s.disabled[friend])
  {
    if history != [] {
      assert history == history[..|history| - 1] + [history[|history| - 1]];
      OthersDoNotMatter(limit, s, history[..|history| - 1], friend);
    }
  }

  /** Nobody disabled runs again, so nobody is ever enabled again: a friend disabled
      at the start of some round stays so, with the same reason, to the end. */
  lemma {:induction false} DisabledForGood(limit: int, start: State, roster: seq<string>, rounds: seq<History>,
                                           n: nat, friend: string)
    requires Dispatched(limit, start, roster, rounds) && n <= |rounds|
    requires friend in Played(limit, start, rounds[..n]).disabled
    ensures var s, t := Played(limit, start, rounds[..n]), Played(limit, start, rounds);
      friend in t.disabled && t.disabled[friend] == s.disabled[friend]
    decreases |rounds|
  {
    if n == |rounds| {
      assert rounds[..n] == rounds;
    } else {
      var head, last := rounds[..|rounds| - 1], rounds[|rounds| - 1];
      assert head[..n] == rounds[..n];
      DisabledForGood(limit, start, roster, head, n, friend);
      var before := Played(limit, start, head);
      KeptOnly(roster, before.disabled.Keys, false, friend);
      OthersDoNotMatter(limit, before, last, friend);
    }
  }
}
