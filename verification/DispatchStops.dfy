/** How far a stop reaches in `dispatch_round`, and which error a round reports. */
module DispatchStops {
  import opened DispatchRound
  import opened DispatchLaws
  import opened Wrappers

  /** What sets the abort event: anyone's abort, an interruption of the main thread, and a
      worker that ends with an error meant to stop the round. */
  predicate Stopping(a: Action) {
    a.Abort? || a.Interrupt? || (a.Finish? && a.attempt.error.Some?)
  }

  ghost predicate Stopped(abort: bool, actions: seq<Action>) {
    abort || exists k :: 0 <= k < |actions| && Stopping(actions[k])
  }

  lemma StepStops(round: Round, s: State, a: Action)
    requires Enabled(round, s, a)
    ensures Step(round, s, a).abort <==> s.abort || Stopping(a)
  {
  }

  lemma StoppedMore(abort: bool, before: seq<Action>, a: Action)
    ensures Stopped(abort, before + [a]) <==> Stopped(abort, before) || Stopping(a)
  {
    var actions := before + [a];
    if k :| 0 <= k < |before| && Stopping(before[k]) {
      assert Stopping(actions[k]);
    }
    assert actions[|before|] == a;
  }

  /** The abort event is set exactly if the round began with it or something stopped it. */
  lemma {:induction false} AbortExactly(round: Round, abort: bool, actions: seq<Action>)
    requires Run(round, abort, actions).Some?
    ensures Run(round, abort, actions).value.abort <==> Stopped(abort, actions)
    decreases |actions|
  {
    if actions != [] {
      var before, s, a, t := RunLast(round, abort, actions);
      AbortExactly(round, abort, before);
      StepStops(round, s, a);
      StoppedMore(abort, before, a);
    }
  }

  /** Every prefix of a run is a run, and the next action is possible after it. */
  lemma {:induction false} RunPrefix(round: Round, abort: bool, actions: seq<Action>, k: nat)
    requires Run(round, abort, actions).Some? && k <= |actions|
    ensures Run(round, abort, actions[..k]).Some?
    ensures k < |actions| ==>
      var s := Run(round, abort, actions[..k]).value;
      Enabled(round, s, actions[k]) && Run(round, abort, actions[..k + 1]) == Some(Step(round, s, actions[k]))
    decreases |actions|
  {
    if k == |actions| {
      assert actions[..k] == actions;
    } else {
      var before, s, a, t := RunLast(round, abort, actions);
      RunPrefix(round, abort, before, k);
      assert before[..k] == actions[..k];
      if k < |before| {
        assert before[..k + 1] == actions[..k + 1];
      } else {
        assert actions[..k + 1] == actions && actions[..k] == before;
      }
    }
  }

  /** Behind a stop, or in a round that began stopped, no worker passes the start check and
      no friend is set up any more; and a worker leaves at that check only behind one. */
  lemma StopIsFinal(round: Round, abort: bool, actions: seq<Action>, n: nat)
    requires Run(round, abort, actions).Some? && n < |actions|
    ensures Stopped(abort, actions[..n]) ==> !actions[n].Pass? && !actions[n].SetUpOne?
    ensures actions[n].SeeAbort? ==> Stopped(abort, actions[..n])
  {
    RunPrefix(round, abort, actions, n);
    AbortExactly(round, abort, actions[..n]);
  }

  /** So whoever had not started by then has no row. */
  lemma NoRowBehindStop(round: Round, abort: bool, actions: seq<Action>, k: nat, i: nat)
    requires ValidRound(round) && Run(round, abort, actions).Some? && Run(round, abort, actions).value.phase.Returned?
    requires k <= |actions| && Stopped(abort, actions[..k]) && Pass(i) !in actions[..k] && i < |round.names|
    ensures !HasRow(Run(round, abort, actions).value.results, round.names[i])
  {
    forall n | 0 <= n < |actions|
      ensures actions[n] != Pass(i)
    {
      if n < k {
        assert actions[..k][n] == actions[n];
      } else {
        StopsStay(abort, actions, k, n);
        StopIsFinal(round, abort, actions, n);
      }
    }
    assert Pass(i) !in actions;
    ReturnedRows(round, abort, actions, i);
  }

  lemma StopsStay(abort: bool, actions: seq<Action>, k: nat, n: nat)
    requires k <= n <= |actions| && Stopped(abort, actions[..k])
    ensures Stopped(abort, actions[..n])
  {
    if m :| 0 <= m < k && Stopping(actions[..k][m]) {
      assert actions[..n][m] == actions[..k][m];
    }
  }

  // ---------- the workers ----------

  lemma {:induction false} BusyUpdate(jobs: seq<Job>, i: nat, job: Job)
    requires i < |jobs|
    ensures Busy(jobs[i := job]) == Busy(jobs) - (if Active(jobs[i]) then 1 else 0) + (if Active(job) then 1 else 0)
  {
    var next := jobs[i := job];
    if i == |jobs| - 1 {
      assert next[..|jobs| - 1] == jobs[..|jobs| - 1];
    } else {
      BusyUpdate(jobs[..|jobs| - 1], i, job);
      assert next[..|jobs| - 1] == jobs[..|jobs| - 1][i := job];
    }
  }

  lemma {:induction false} NoneBusy(jobs: seq<Job>)
    requires forall i | 0 <= i < |jobs| :: jobs[i].Unsubmitted?
    ensures Busy(jobs) == 0
  {
    if jobs != [] {
      NoneBusy(jobs[..|jobs| - 1]);
    }
  }

  lemma StepBusy(round: Round, s: State, a: Action)
    requires Enabled(round, s, a) && Busy(s.jobs) <= round.workers
    ensures Busy(Step(round, s, a).jobs) <= round.workers
  {
    match a
    case SetUpEnds => if s.phase.made > 0 { NoneBusy(Step(round, s, a).jobs); }
    case Submit => BusyUpdate(s.jobs, s.phase.next, Queued);
    case Pick(i) => BusyUpdate(s.jobs, i, Picked);
    case SeeAbort(i) => BusyUpdate(s.jobs, i, Done(None));
    case Pass(i) => BusyUpdate(s.jobs, i, Working);
    case Finish(i, attempt) => BusyUpdate(s.jobs, i, Done(Some(attempt)));
    case Raise(i) => BusyUpdate(s.jobs, i, Raised);
    case Cancel(i) => BusyUpdate(s.jobs, i, Cancelled);
    case _ =>
  }

  /** Never more friends at work than there are workers. */
  lemma {:induction false} BusyBound(round: Round, abort: bool, actions: seq<Action>)
    requires Run(round, abort, actions).Some?
    ensures Busy(Run(round, abort, actions).value.jobs) <= round.workers
    decreases |actions|
  {
    if actions != [] {
      var before, s, a, t := RunLast(round, abort, actions);
      BusyBound(round, abort, before);
      StepBusy(round, s, a);
    }
  }

  // ---------- the error a round reports ----------

  lemma ErrorStays(round: Round, s: State, a: Action)
    requires Enabled(round, s, a) && s.roundError.Some?
    ensures Step(round, s, a).roundError == s.roundError
  {
  }

  /** The first error that is noted is the one reported, whatever happens after it. */
  lemma {:induction false} FirstErrorStays(round: Round, abort: bool, actions: seq<Action>, k: nat)
    requires Run(round, abort, actions).Some? && k <= |actions|
    requires Run(round, abort, actions[..k]).Some? && Run(round, abort, actions[..k]).value.roundError.Some?
    ensures Run(round, abort, actions).value.roundError == Run(round, abort, actions[..k]).value.roundError
    decreases |actions|
  {
    if k == |actions| {
      assert actions[..k] == actions;
    } else {
      var before, s, a, t := RunLast(round, abort, actions);
      assert before[..k] == actions[..k];
      FirstErrorStays(round, abort, before, k);
      ErrorStays(round, s, a);
    }
  }

  /** An interruption is reported if no error was noted before it. */
  lemma InterruptIsReported(round: Round, abort: bool, actions: seq<Action>, k: nat)
    requires Run(round, abort, actions).Some? && k < |actions| && actions[k].Interrupt?
    ensures Run(round, abort, actions[..k]).Some?
    ensures Run(round, abort, actions).value.roundError
         == Or(Run(round, abort, actions[..k]).value.roundError, Some(actions[k].error))
  {
    RunPrefix(round, abort, actions, k);
    FirstErrorStays(round, abort, actions, k + 1);
  }

  lemma {:induction false} FirstErrorMeaning(jobs: seq<Job>, error: string)
    ensures FirstError(jobs) == Some(error) <==>
      exists i :: 0 <= i < |jobs| && ErrorOf(jobs[i]) == Some(error) && NoErrorBefore(jobs, i)
    ensures FirstError(jobs).None? <==> NoErrorBefore(jobs, |jobs|)
  {
    if jobs != [] {
      var head, m := jobs[..|jobs| - 1], |jobs| - 1;
      FirstErrorMeaning(head, error);
      forall i: nat | i <= m
        ensures NoErrorBefore(head, i) <==> NoErrorBefore(jobs, i)
      {
        assert forall j | 0 <= j < i :: head[j] == jobs[j];
      }
      assert NoErrorBefore(jobs, m + 1) <==> NoErrorBefore(jobs, m) && ErrorOf(jobs[m]).None?;
      if i :| 0 <= i < m && ErrorOf(head[i]) == Some(error) && NoErrorBefore(head, i) {
        assert ErrorOf(jobs[i]) == Some(error) && NoErrorBefore(jobs, i);
      }
      if i :| 0 <= i < |jobs| && ErrorOf(jobs[i]) == Some(error) && NoErrorBefore(jobs, i) {
        assert i < m ==> ErrorOf(head[i]) == Some(error) && NoErrorBefore(head, i);
      }
    }
  }

  ghost predicate NoErrorBefore(jobs: seq<Job>, n: nat)
    requires n <= |jobs|
  {
    forall j | 0 <= j < n :: ErrorOf(jobs[j]).None?
  }

  ghost predicate Uninterrupted(s: State) {
    && !s.phase.Draining? && !s.phase.Recovering?
    && (s.phase.Returned? ==> s.roundError == FirstError(s.jobs))
  }

  lemma StepUninterrupted(round: Round, s: State, a: Action)
    requires Inv(round, s) && Enabled(round, s, a) && Uninterrupted(s) && !a.Interrupt?
    ensures Uninterrupted(Step(round, s, a))
  {
  }

  /** Without an interruption it is the first friend's in roster order that has one. */
  lemma {:induction false} ReportedError(round: Round, abort: bool, actions: seq<Action>)
    requires ValidRound(round) && Run(round, abort, actions).Some?
    requires forall k | 0 <= k < |actions| :: !actions[k].Interrupt?
    ensures Uninterrupted(Run(round, abort, actions).value)
    decreases |actions|
  {
    if actions != [] {
      var before, s, a, t := RunLast(round, abort, actions);
      assert forall k | 0 <= k < |before| :: before[k] == actions[k];
      assert actions[|before|] == a;
      ReportedError(round, abort, before);
      RunKeeps(round, abort, before);
      StepUninterrupted(round, s, a);
    }
  }
}
