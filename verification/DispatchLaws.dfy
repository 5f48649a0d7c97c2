/** Whole rounds of `dispatch_round`: what a returned round holds, and that every
    round returns. */
module DispatchLaws {
  import opened DispatchRound
  import opened Sequences
  import opened Wrappers

  // ---------- whole rounds ----------

  lemma {:induction false} RunKeeps(round: Round, abort: bool, actions: seq<Action>)
    requires ValidRound(round) && Run(round, abort, actions).Some?
    ensures Inv(round, Run(round, abort, actions).value)
    decreases |actions|
  {
    if actions != [] {
      var before := actions[..|actions| - 1];
      RunKeeps(round, abort, before);
      StepKeeps(round, Run(round, abort, before).value, actions[|actions| - 1]);
    }
  }

  predicate Passed(job: Job) {
    job.Working? || job.Raised? || (job.Done? && job.attempt.Some?)
  }

  /** What the actions say about friend `i`, job or no job. */
  ghost predicate Recorded(s: State, actions: seq<Action>, i: nat) {
    && (Pass(i) in actions <==> i < |s.jobs| && Passed(s.jobs[i]))
    && (Raise(i) in actions <==> i < |s.jobs| && s.jobs[i].Raised?)
    && (i < |s.jobs| && RowOf(s.jobs[i]) != [] ==> Finish(i, s.jobs[i].attempt.value) in actions)
  }

  lemma {:induction false} RunRecorded(round: Round, abort: bool, actions: seq<Action>, i: nat)
    requires ValidRound(round) && Run(round, abort, actions).Some?
    ensures Recorded(Run(round, abort, actions).value, actions, i)
    decreases |actions|
  {
    if actions == [] {
    } else {
      var before, s, a, t := RunLast(round, abort, actions);
      RunRecorded(round, abort, before, i);
      RunKeeps(round, abort, before);
      StepRecorded(round, s, t, before, a, actions, i);
    }
  }

  lemma RunLast(round: Round, abort: bool, actions: seq<Action>)
    returns (before: seq<Action>, s: State, a: Action, t: State)
    requires actions != [] && Run(round, abort, actions).Some?
    ensures actions == before + [a] && |before| < |actions|
    ensures Run(round, abort, before) == Some(s) && Enabled(round, s, a)
    ensures t == Step(round, s, a) && Run(round, abort, actions) == Some(t)
  {
    before, a := actions[..|actions| - 1], actions[|actions| - 1];
    s, t := Run(round, abort, before).value, Run(round, abort, actions).value;
  }

  lemma StepRecorded(round: Round, s: State, t: State, before: seq<Action>, a: Action, actions: seq<Action>, i: nat)
    requires Inv(round, s) && Enabled(round, s, a) && t == Step(round, s, a) && Recorded(s, before, i)
    requires actions == before + [a]
    ensures Recorded(t, actions, i)
  {
    assert forall b :: b in actions <==> b in before || b == a;
  }

  lemma {:induction false} RowsInOrder(round: Round, jobs: seq<Job>, k: nat, l: nat)
    requires Named(round, jobs) && k < l < |Rows(jobs)|
    ensures exists i, j | 0 <= i < j < |jobs| :: Rows(jobs)[k].name == round.names[i] && Rows(jobs)[l].name == round.names[j]
  {
    var head, last := jobs[..|jobs| - 1], |jobs| - 1;
    if l < |Rows(head)| {
      RowsInOrder(round, head, k, l);
    } else {
      RowNames(round, head);
      assert Rows(jobs)[k] in Rows(head);
      var i :| 0 <= i < |head| && RowOf(head[i]) == [Rows(jobs)[k]] && Rows(jobs)[k].name == round.names[i];
      assert Rows(jobs)[l] == RowOf(jobs[last])[0];
      assert Rows(jobs)[l].name == round.names[last];
    }
  }

  ghost predicate HasRow(results: seq<Row>, name: string) {
    exists row | row in results :: row.name == name
  }

  /** Whatever the interleaving, aborts and interruption: when the round returns, a
      friend has a row exactly if its worker passed the start check and was not lost
      outside the guarded part; the row is the one its worker made. */
  lemma ReturnedRows(round: Round, abort: bool, actions: seq<Action>, i: nat)
    requires ValidRound(round) && Run(round, abort, actions).Some? && i < |round.names|
    requires Run(round, abort, actions).value.phase.Returned?
    ensures var results := Run(round, abort, actions).value.results;
      && (HasRow(results, round.names[i]) <==> Pass(i) in actions && Raise(i) !in actions)
      && forall row | row in results && row.name == round.names[i] ::
        exists error :: Finish(i, Attempt(row, error)) in actions
  {
    var s := Run(round, abort, actions).value;
    RunKeeps(round, abort, actions);
    RunRecorded(round, abort, actions, i);
    if i < |s.jobs| {
      RowByName(round, s.jobs, i);
      assert Over(s.jobs[i]);
    }
    forall row | row in s.results && row.name == round.names[i]
      ensures i < |s.jobs| && RowOf(s.jobs[i]) == [row]
      ensures exists error :: Finish(i, Attempt(row, error)) in actions
    {
      RowNames(round, s.jobs);
      var j :| 0 <= j < |s.jobs| && RowOf(s.jobs[j]) == [row] && row.name == round.names[j];
      assert j == i;
      assert s.jobs[i].attempt.value == Attempt(row, s.jobs[i].attempt.value.error);
    }
  }

  lemma RunMore(round: Round, abort: bool, before: seq<Action>, s: State, a: Action)
    requires Run(round, abort, before) == Some(s) && Enabled(round, s, a)
    ensures Run(round, abort, before + [a]) == Some(Step(round, s, a))
  {
    DropLast(before, a);
  }

  const UNTIL_COLLECTING := [SetUpOne, SetUpEnds, Submit, SubmitEnds]
  const UNTIL_RAISED := [SetUpOne, SetUpEnds, Submit, SubmitEnds, Pick(0), Pass(0), Raise(0)]

  /** One friend, with its job as given, and the main thread waiting for it. */
  function Waiting(job: Job): State {
    State(Collecting(0), false, [job], [], None, 0)
  }

  lemma OneSubmitted(round: Round)
    requires ValidRound(round) && |round.names| == 1
    ensures Run(round, false, UNTIL_COLLECTING) == Some(Waiting(Queued))
  {
    RunMore(round, false, [], Start(false), SetUpOne);
    assert [] + [SetUpOne] == [SetUpOne];
    RunMore(round, false, [SetUpOne], State(SettingUp(1), false, [], [], None, 0), SetUpEnds);
    assert [SetUpOne] + [SetUpEnds] == [SetUpOne, SetUpEnds];
    assert seq(1, _ => Unsubmitted) == [Unsubmitted];
    RunMore(round, false, [SetUpOne, SetUpEnds], State(Submitting(0), false, [Unsubmitted], [], None, 0), Submit);
    assert [SetUpOne, SetUpEnds] + [Submit] == [SetUpOne, SetUpEnds, Submit];
    assert [Unsubmitted][0 := Queued] == [Queued];
    RunMore(round, false, [SetUpOne, SetUpEnds, Submit], State(Submitting(1), false, [Queued], [], None, 0), SubmitEnds);
    assert [SetUpOne, SetUpEnds, Submit] + [SubmitEnds] == UNTIL_COLLECTING;
  }

  lemma JobSteps(round: Round, before: seq<Action>, job: Job, a: Action, next: Job)
    requires Run(round, false, before) == Some(Waiting(job)) && Enabled(round, Waiting(job), a)
    requires Step(round, Waiting(job), a) == Waiting(job).(jobs := [job][0 := next])
    ensures Run(round, false, before + [a]) == Some(Waiting(next))
  {
    RunMore(round, false, before, Waiting(job), a);
    assert [job][0 := next] == [next];
  }

  lemma RaisedOutside(round: Round)
    requires ValidRound(round) && |round.names| == 1
    ensures Run(round, false, UNTIL_RAISED) == Some(Waiting(Raised))
  {
    OneSubmitted(round);
    assert Busy([Queued]) == Busy([Queued][..0]) && Busy([Queued][..0]) == 0;
    JobSteps(round, UNTIL_COLLECTING, Queued, Pick(0), Picked);
    JobSteps(round, UNTIL_COLLECTING + [Pick(0)], Picked, Pass(0), Working);
    JobSteps(round, UNTIL_COLLECTING + [Pick(0)] + [Pass(0)], Working, Raise(0), Raised);
    assert UNTIL_COLLECTING + [Pick(0)] + [Pass(0)] + [Raise(0)] == UNTIL_RAISED;
  }

  /** A run that loses a row: the one friend's worker passes the start check, consumes its
      prompt and fails outside the guarded part; collecting it raises, and the round
      returns the error without any row. */
  lemma LostRow(round: Round, error: string)
    requires ValidRound(round) && |round.names| == 1
    ensures var actions := UNTIL_RAISED + [Interrupt(error), Drained, Recover, Close];
      && Pass(0) in actions
      && Run(round, false, actions) == Some(State(Returned, true, [Raised], [], Some(error), 0))
  {
    RaisedOutside(round);
    var a, b := UNTIL_RAISED, UNTIL_RAISED + [Interrupt(error)];
    RunMore(round, false, a, Waiting(Raised), Interrupt(error));
    RunMore(round, false, b, State(Draining, true, [Raised], [], Some(error), 0), Drained);
    RunMore(round, false, b + [Drained], State(Recovering(0), true, [Raised], [], Some(error), 0), Recover);
    RunMore(round, false, b + [Drained] + [Recover], State(Recovering(1), true, [Raised], [], Some(error), 0), Close);
    assert b + [Drained] + [Recover] + [Close] == a + [Interrupt(error), Drained, Recover, Close];
    assert UNTIL_RAISED[5] == Pass(0);
  }

  /** ... in roster order, one row each. */
  lemma ReturnedOrder(round: Round, abort: bool, actions: seq<Action>, k: nat, l: nat)
    requires ValidRound(round) && Run(round, abort, actions).Some?
    requires Run(round, abort, actions).value.phase.Returned?
    requires k < l < |Run(round, abort, actions).value.results|
    ensures var results := Run(round, abort, actions).value.results;
      exists i, j | 0 <= i < j < |round.names| :: results[k].name == round.names[i] && results[l].name == round.names[j]
  {
    RunKeeps(round, abort, actions);
    RowsInOrder(round, Run(round, abort, actions).value.jobs, k, l);
  }

  /** A round that reports no error lost nothing: every friend that was set up was
      collected, and no worker asked for a stop. */
  lemma CleanReturn(round: Round, abort: bool, actions: seq<Action>)
    requires ValidRound(round) && Run(round, abort, actions).Some?
    requires Run(round, abort, actions).value.phase.Returned?
    ensures Run(round, abort, actions).value.roundError.None? ==>
      var jobs := Run(round, abort, actions).value.jobs;
      AllDone(jobs, |jobs|) && FirstError(jobs) == None
  {
    RunKeeps(round, abort, actions);
  }

  // ---------- rounds end ----------

  function Weight(job: Job): nat {
    match job
    case Unsubmitted => 4
    case Queued => 3
    case Picked => 2
    case Working => 1
    case _ => 0
  }

  function WeightOf(jobs: seq<Job>): nat {
    if jobs == [] then 0 else WeightOf(jobs[..|jobs| - 1]) + Weight(jobs[|jobs| - 1])
  }

  lemma {:induction false} WeightUpdate(jobs: seq<Job>, i: nat, job: Job)
    requires i < |jobs|
    ensures WeightOf(jobs[i := job]) == WeightOf(jobs) - Weight(jobs[i]) + Weight(job)
  {
    var next := jobs[i := job];
    if i == |jobs| - 1 {
      assert next[..|jobs| - 1] == jobs[..|jobs| - 1];
    } else {
      WeightUpdate(jobs[..|jobs| - 1], i, job);
      assert next[..|jobs| - 1] == jobs[..|jobs| - 1][i := job];
    }
  }

  lemma {:induction false} WeightAtMost(jobs: seq<Job>)
    ensures WeightOf(jobs) <= 4 * |jobs|
  {
    if jobs != [] {
      WeightAtMost(jobs[..|jobs| - 1]);
    }
  }

  function PhaseRank(n: nat, phase: Phase): int {
    match phase
    case SettingUp(made) => 8 * n + 6 - made
    case Submitting(_) => 3 * n + 5
    case Collecting(next) => 3 * n + 4 - 2 * next
    case Noting(next) => 3 * n + 3 - 2 * next
    case ShuttingDown => n + 3
    case Draining => n + 2
    case Recovering(next) => n + 1 - next
    case Returned => 0
  }

  function Rank(round: Round, s: State): int {
    PhaseRank(|round.names|, s.phase) + WeightOf(s.jobs) + if s.abort then 0 else 1
  }

  lemma RankIsNatural(round: Round, s: State)
    requires Inv(round, s)
    ensures Rank(round, s) >= 0
  {
  }

  lemma WorkerDescends(round: Round, s: State, a: Action)
    requires Inv(round, s) && Enabled(round, s, a)
    requires a.Submit? || a.Pick? || a.SeeAbort? || a.Pass? || a.Finish? || a.Raise? || a.Cancel?
    ensures Rank(round, Step(round, s, a)) < Rank(round, s)
  {
    var i := if a.Submit? then s.phase.next else a.i;
    WeightUpdate(s.jobs, i, Step(round, s, a).jobs[i]);
  }

  lemma MainDescends(round: Round, s: State, a: Action)
    requires Inv(round, s) && Enabled(round, s, a)
    requires !(a.Submit? || a.Pick? || a.SeeAbort? || a.Pass? || a.Finish? || a.Raise? || a.Cancel?)
    ensures Rank(round, Step(round, s, a)) < Rank(round, s)
  {
    if a.SetUpEnds? {
      WeightAtMost(Step(round, s, a).jobs);
    } else {
      assert Step(round, s, a).jobs == s.jobs;
    }
  }

  lemma StepDescends(round: Round, s: State, a: Action)
    requires Inv(round, s) && Enabled(round, s, a)
    ensures Rank(round, Step(round, s, a)) < Rank(round, s)
  {
    if a.Submit? || a.Pick? || a.SeeAbort? || a.Pass? || a.Finish? || a.Raise? || a.Cancel? {
      WorkerDescends(round, s, a);
    } else {
      MainDescends(round, s, a);
    }
  }

  /** Every run is finite: no schedule takes more than 8 n + 7 steps. */
  lemma {:induction false} RunsEnd(round: Round, abort: bool, actions: seq<Action>)
    requires ValidRound(round) && Run(round, abort, actions).Some?
    ensures |actions| + Rank(round, Run(round, abort, actions).value) <= 8 * |round.names| + 7
    ensures |actions| <= 8 * |round.names| + 7
    decreases |actions|
  {
    RunKeeps(round, abort, actions);
    RankIsNatural(round, Run(round, abort, actions).value);
    if actions != [] {
      var before := actions[..|actions| - 1];
      RunsEnd(round, abort, before);
      RunKeeps(round, abort, before);
      StepDescends(round, Run(round, abort, before).value, actions[|actions| - 1]);
    }
  }

  lemma {:induction false} NobodyBusy(jobs: seq<Job>)
    requires forall i | 0 <= i < |jobs| :: !Active(jobs[i])
    ensures Busy(jobs) == 0
  {
    if jobs != [] {
      NobodyBusy(jobs[..|jobs| - 1]);
    }
  }

  lemma {:induction false} FirstQueued(jobs: seq<Job>, i: nat) returns (first: nat)
    requires i < |jobs| && jobs[i].Queued?
    ensures first < |jobs| && jobs[first].Queued? && forall j | 0 <= j < first :: !jobs[j].Queued?
  {
    if j :| 0 <= j < i && jobs[j].Queued? {
      first := FirstQueued(jobs, j);
    } else {
      first := i;
    }
  }

  /** As long as a job is not over, some worker can take a step. */
  lemma WorkersMove(round: Round, s: State, i: nat) returns (a: Action)
    requires ValidRound(round) && Inv(round, s) && i < |s.jobs| && !Over(s.jobs[i])
    ensures Enabled(round, s, a) && !a.Abort? && !a.Interrupt?
  {
    if k :| 0 <= k < |s.jobs| && s.jobs[k].Picked? {
      a := if s.abort then SeeAbort(k) else Pass(k);
    } else if k :| 0 <= k < |s.jobs| && s.jobs[k].Working? {
      a := Finish(k, Attempt(Row(round.names[k], ""), None));
    } else {
      NobodyBusy(s.jobs);
      var first := FirstQueued(s.jobs, i);
      a := Pick(first);
    }
  }

  /** No deadlock: until it has returned, a round can go on without being aborted or
      interrupted, unless the future it collects raises what its worker raised. */
  lemma GoesOn(round: Round, abort: bool, actions: seq<Action>) returns (a: Action)
    requires ValidRound(round) && Run(round, abort, actions).Some?
    requires !Run(round, abort, actions).value.phase.Returned?
    ensures Enabled(round, Run(round, abort, actions).value, a) && !a.Abort?
    ensures a.Interrupt? ==> RaisedHere(Run(round, abort, actions).value)
  {
    var s := Run(round, abort, actions).value;
    RunKeeps(round, abort, actions);
    match s.phase
    case SettingUp(made) => a := if s.abort || made == |round.names| then SetUpEnds else SetUpOne;
    case Submitting(n) => a := if n == |s.jobs| then SubmitEnds else Submit;
    case Collecting(n) =>
      if n == |s.jobs| {
        a := CollectEnds;
      } else if s.jobs[n].Done? {
        a := Take;
      } else if s.jobs[n].Raised? {
        a := Interrupt("");
      } else {
        a := WorkersMove(round, s, n);
      }
    case Noting(_) => a := Note;
    case ShuttingDown => a := Close;
    case Draining =>
      if AllOver(s.jobs, |s.jobs|) {
        a := Drained;
      } else {
        var i :| 0 <= i < |s.jobs| && !Over(s.jobs[i]);
        a := WorkersMove(round, s, i);
      }
    case Recovering(n) => a := if n < |s.jobs| then Recover else Close;
  }

  // ---------- after the round ----------

  /** `prune_undispatched_prompts`: of the prompts written for the roster, exactly
      those of friends without a row are gone. */
  method PruneUndispatchedPrompts(names: seq<string>, promptFor: map<string, string>, results: seq<Row>,
                                  files: set<string>) returns (kept: set<string>)
    requires forall name | name in names :: name in promptFor
    ensures forall file :: file in kept <==>
      file in files && forall name | name in names && promptFor[name] == file :: HasRow(results, name)
  {
    var dispatched := set row | row in results :: row.name;
    kept := files;
    for n := 0 to |names|
      invariant forall file :: file in kept <==>
        file in files && forall k | 0 <= k < n && promptFor[names[k]] == file :: HasRow(results, names[k])
    {
      if names[n] !in dispatched {
        kept := kept - {promptFor[names[n]]};
      }
      assert names[n] in dispatched <==> HasRow(results, names[n]);
    }
  }
}
