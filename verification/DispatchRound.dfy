/** `dispatch_round` as a protocol: a pool of workers, an abort event anyone may set,
    and a main thread that collects in roster order and can be interrupted. */
module DispatchRound {
  import opened Numbers
  import opened Sequences
  import opened Wrappers

  datatype Row = Row(name: string, outcome: string)

  /** What a worker that ran returns: its audit row, and the error that must stop the
      round, if any. */
  datatype Attempt = Attempt(row: Row, error: Option<string>)

  /** One friend's future. `Picked` is a worker that took the job and has not looked
      at the abort event yet; `Raised` one that failed outside the guarded part. */
  datatype Job =
    | Unsubmitted
    | Queued
    | Picked
    | Working
    | Done(attempt: Option<Attempt>)
    | Raised
    | Cancelled

  datatype Phase =
    | SettingUp(made: nat)
    | Submitting(next: nat)
    | Collecting(next: nat)
    | Noting(next: nat)
    | ShuttingDown
    | Draining
    | Recovering(next: nat)
    | Returned

  /** The roster, with distinct names, and the number of worker threads. */
  datatype Round = Round(names: seq<string>, workers: nat)

  datatype State = State(
    phase: Phase, abort: bool, jobs: seq<Job>, results: seq<Row>, roundError: Option<string>, collected: nat)

  datatype Action =
    | SetUpOne
    | SetUpEnds
    | Submit
    | SubmitEnds
    | Pick(i: nat)
    | SeeAbort(i: nat)
    | Pass(i: nat)
    | Finish(i: nat, attempt: Attempt)
    | Raise(i: nat)
    | Abort
    | Take
    | Note
    | CollectEnds
    | Interrupt(error: string)
    | Cancel(i: nat)
    | Drained
    | Recover
    | Close

  ghost predicate ValidRound(round: Round) {
    && round.workers >= 1
    && forall i, j | 0 <= i < j < |round.names| :: round.names[i] != round.names[j]
  }

  predicate Active(job: Job) {
    job.Picked? || job.Working?
  }

  predicate Over(job: Job) {
    job.Unsubmitted? || job.Done? || job.Raised? || job.Cancelled?
  }

  function Busy(jobs: seq<Job>): nat {
    if jobs == [] then 0
    else Busy(jobs[..|jobs| - 1]) + if Active(jobs[|jobs| - 1]) then 1 else 0
  }

  function Start(abort: bool): State {
    State(SettingUp(0), abort, [], [], None, 0)
  }

  function Or(first: Option<string>, second: Option<string>): Option<string> {
    if first.Some? then first else second
  }

  // ---------- the steps ----------

  /** The pool hands out jobs in order, to at most `workers` threads. */
  predicate MayPick(round: Round, s: State, i: nat) {
    && i < |s.jobs| && s.jobs[i].Queued? && Busy(s.jobs) < round.workers
    && forall j | 0 <= j < i :: !s.jobs[j].Queued?
  }

  /** An interruption reaches the main thread outside the recovery, and not between
      a submission and remembering its future. */
  predicate Interruptible(phase: Phase) {
    phase.Submitting? || phase.Collecting? || phase.Noting? || phase.ShuttingDown?
  }

  predicate Enabled(round: Round, s: State, a: Action) {
    match a
    case SetUpOne => s.phase.SettingUp? && !s.abort && s.phase.made < |round.names|
    case SetUpEnds => s.phase.SettingUp? && (s.abort || s.phase.made == |round.names|) && s.phase.made <= |round.names|
    case Submit => s.phase.Submitting? && s.phase.next < |s.jobs| && s.jobs[s.phase.next].Unsubmitted?
    case SubmitEnds => s.phase.Submitting? && s.phase.next == |s.jobs|
    case Pick(i) => MayPick(round, s, i)
    case SeeAbort(i) => i < |s.jobs| && s.jobs[i].Picked? && s.abort
    case Pass(i) => i < |s.jobs| && s.jobs[i].Picked? && !s.abort
    case Finish(i, attempt) =>
      i < |s.jobs| <= |round.names| && s.jobs[i].Working? && attempt.row.name == round.names[i]
    case Raise(i) => i < |s.jobs| && s.jobs[i].Working?
    case Abort => !s.abort
    case Take => s.phase.Collecting? && s.phase.next < |s.jobs| && s.jobs[s.phase.next].Done?
    case Note => s.phase.Noting? && s.phase.next < |s.jobs| && s.jobs[s.phase.next].Done?
    case CollectEnds => s.phase.Collecting? && s.phase.next == |s.jobs|
    case Interrupt(error) => Interruptible(s.phase)
    case Cancel(i) => s.phase.Draining? && i < |s.jobs| && s.jobs[i].Queued?
    case Drained => s.phase.Draining? && AllOver(s.jobs, |s.jobs|)
    case Recover => s.phase.Recovering? && s.phase.next < |s.jobs|
    case Close =>
      || (s.phase.ShuttingDown? && AllOver(s.jobs, |s.jobs|))
      || (s.phase.Recovering? && s.phase.next == |s.jobs|)
  }

  /** `future.result()` also raises what a worker raised; the round then ends as if
      the main thread had been interrupted with it. */
  predicate RaisedHere(s: State) {
    s.phase.Collecting? && s.phase.next < |s.jobs| && s.jobs[s.phase.next].Raised?
  }

  function Recovered(s: State, job: Job): seq<Row> {
    if job.Done? && job.attempt.Some? && forall k | 0 <= k < |s.results| :: s.results[k].name != job.attempt.value.row.name
    then s.results + [job.attempt.value.row]
    else s.results
  }

  function Step(round: Round, s: State, a: Action): State
    requires Enabled(round, s, a)
  {
    match a
    case SetUpOne => s.(phase := SettingUp(s.phase.made + 1))
    case SetUpEnds =>
      if s.phase.made == 0 then s.(phase := Returned)
      else s.(phase := Submitting(0), jobs := seq(s.phase.made, _ => Unsubmitted))
    case Submit => s.(phase := Submitting(s.phase.next + 1), jobs := s.jobs[s.phase.next := Queued])
    case SubmitEnds => s.(phase := Collecting(0))
    case Pick(i) => s.(jobs := s.jobs[i := Picked])
    case SeeAbort(i) => s.(jobs := s.jobs[i := Done(None)])
    case Pass(i) => s.(jobs := s.jobs[i := Working])
    case Finish(i, attempt) =>
      s.(jobs := s.jobs[i := Done(Some(attempt))], abort := s.abort || attempt.error.Some?)
    case Raise(i) => s.(jobs := s.jobs[i := Raised])
    case Abort => s.(abort := true)
    case Take =>
      var attempt := s.jobs[s.phase.next].attempt;
      if attempt.None? then s.(phase := Collecting(s.phase.next + 1), collected := s.phase.next + 1)
      else s.(phase := Noting(s.phase.next), collected := s.phase.next + 1, results := s.results + [attempt.value.row])
    case Note =>
      var attempt := s.jobs[s.phase.next].attempt;
      s.(phase := Collecting(s.phase.next + 1),
         roundError := Or(s.roundError, if attempt.Some? then attempt.value.error else None))
    case CollectEnds => s.(phase := ShuttingDown)
    case Interrupt(error) => s.(phase := Draining, abort := true, roundError := Or(s.roundError, Some(error)))
    case Cancel(i) => s.(jobs := s.jobs[i := Cancelled])
    case Drained => s.(phase := Recovering(0))
    case Recover => s.(phase := Recovering(s.phase.next + 1), results := Recovered(s, s.jobs[s.phase.next]))
    case Close => s.(phase := Returned)
  }

  /** The state after the actions, one after the other; none if one was impossible. */
  function Run(round: Round, abort: bool, actions: seq<Action>): Option<State> {
    if actions == [] then Some(Start(abort))
    else
      var before, a := Run(round, abort, actions[..|actions| - 1]), actions[|actions| - 1];
      if before.Some? && Enabled(round, before.value, a) then Some(Step(round, before.value, a)) else None
  }

  // ---------- what the results should be ----------

  function RowOf(job: Job): seq<Row> {
    if job.Done? && job.attempt.Some? then [job.attempt.value.row] else []
  }

  /** The rows of all workers that have one, in roster order. */
  function Rows(jobs: seq<Job>): seq<Row> {
    if jobs == [] then [] else Rows(jobs[..|jobs| - 1]) + RowOf(jobs[|jobs| - 1])
  }

  function ErrorOf(job: Job): Option<string> {
    if job.Done? && job.attempt.Some? then job.attempt.value.error else None
  }

  function FirstError(jobs: seq<Job>): Option<string> {
    if jobs == [] then None else Or(FirstError(jobs[..|jobs| - 1]), ErrorOf(jobs[|jobs| - 1]))
  }

  ghost predicate Named(round: Round, jobs: seq<Job>) {
    |jobs| <= |round.names| && forall i | 0 <= i < |jobs| :: forall row | row in RowOf(jobs[i]) :: row.name == round.names[i]
  }

  lemma {:induction false} RowNames(round: Round, jobs: seq<Job>)
    requires Named(round, jobs)
    ensures forall row | row in Rows(jobs) ::
      exists i | 0 <= i < |jobs| :: RowOf(jobs[i]) == [row] && row.name == round.names[i]
  {
    if jobs != [] {
      var head, last := jobs[..|jobs| - 1], jobs[|jobs| - 1];
      RowNames(round, head);
      forall row | row in Rows(jobs)
        ensures exists i | 0 <= i < |jobs| :: RowOf(jobs[i]) == [row] && row.name == round.names[i]
      {
        if row in Rows(head) {
          var i :| 0 <= i < |head| && RowOf(head[i]) == [row] && row.name == round.names[i];
          assert RowOf(jobs[i]) == [row];
        } else {
          assert RowOf(jobs[|jobs| - 1]) == [row];
        }
      }
    }
  }

  lemma {:induction false} RowsHold(jobs: seq<Job>, i: nat)
    requires i < |jobs|
    ensures forall row | row in RowOf(jobs[i]) :: row in Rows(jobs)
  {
    if i < |jobs| - 1 {
      RowsHold(jobs[..|jobs| - 1], i);
    }
  }

  /** Looking a friend's row up by name finds it exactly when its worker has one. */
  lemma RowByName(round: Round, jobs: seq<Job>, i: nat)
    requires ValidRound(round) && Named(round, jobs) && i < |jobs|
    ensures (exists row | row in Rows(jobs) :: row.name == round.names[i]) <==> RowOf(jobs[i]) != []
  {
    RowsHold(jobs, i);
    if RowOf(jobs[i]) != [] {
      var row := RowOf(jobs[i])[0];
      assert row in Rows(jobs) && row.name == round.names[i];
    }
    if row :| row in Rows(jobs) && row.name == round.names[i] {
      RowNames(round, jobs);
      var j :| 0 <= j < |jobs| && RowOf(jobs[j]) == [row] && row.name == round.names[j];
      assert j == i;
    }
  }

  // ---------- the invariant ----------

  predicate AllOver(jobs: seq<Job>, n: nat) {
    n <= |jobs| && forall i | 0 <= i < n :: Over(jobs[i])
  }

  ghost predicate AllDone(jobs: seq<Job>, n: nat) {
    n <= |jobs| && forall i | 0 <= i < n :: jobs[i].Done?
  }

  ghost predicate AllSubmitted(jobs: seq<Job>, n: nat) {
    n <= |jobs| && forall i | 0 <= i < n :: !jobs[i].Unsubmitted? && !jobs[i].Cancelled?
  }

  ghost predicate InPhase(round: Round, s: State)
    requires s.collected <= |s.jobs|
  {
    match s.phase
    case SettingUp(made) => s.jobs == [] && s.results == [] && s.roundError == None && made <= |round.names|
    case Submitting(n) =>
      && n <= |s.jobs| && s.collected == 0 && s.results == [] && s.roundError == None
      && AllSubmitted(s.jobs, n) && forall i | n <= i < |s.jobs| :: s.jobs[i].Unsubmitted?
    case Collecting(n) =>
      && n == s.collected && s.results == Rows(s.jobs[..n]) && s.roundError == FirstError(s.jobs[..n])
      && AllSubmitted(s.jobs, |s.jobs|) && AllDone(s.jobs, n)
    case Noting(n) =>
      && n + 1 == s.collected && s.results == Rows(s.jobs[..n + 1]) && s.roundError == FirstError(s.jobs[..n])
      && AllSubmitted(s.jobs, |s.jobs|) && AllDone(s.jobs, n + 1)
    case ShuttingDown =>
      s.results == Rows(s.jobs) && s.roundError == FirstError(s.jobs) && AllDone(s.jobs, |s.jobs|) && s.collected == |s.jobs|
    case Draining => s.results == Rows(s.jobs[..s.collected]) && s.abort && s.roundError.Some?
    case Recovering(n) =>
      n <= |s.jobs| && AllOver(s.jobs, |s.jobs|) && s.results == Rows(s.jobs[..Max(n, s.collected)]) && s.roundError.Some?
    case Returned =>
      && AllOver(s.jobs, |s.jobs|) && s.results == Rows(s.jobs)
      && (s.roundError.None? ==> AllDone(s.jobs, |s.jobs|) && FirstError(s.jobs) == None)
  }

  ghost predicate Inv(round: Round, s: State) {
    && Named(round, s.jobs) && s.collected <= |s.jobs| && AllOver(s.jobs, s.collected)
    && InPhase(round, s)
  }

  /** A job that is not over yet is none of the collected ones. */
  lemma JobMoves(round: Round, s: State, i: nat, job: Job)
    requires Inv(round, s) && i < |s.jobs| && !Over(s.jobs[i]) && !job.Unsubmitted?
    requires !s.phase.Submitting? || s.phase.next > i
    requires forall row | row in RowOf(job) :: row.name == round.names[i]
    requires job.Cancelled? ==> s.phase.Draining?
    ensures Inv(round, s.(jobs := s.jobs[i := job]))
  {
    var t := s.(jobs := s.jobs[i := job]);
    assert s.collected <= i by {
      if i < s.collected {
        assert false;
      }
    }
    assert t.jobs[..s.collected] == s.jobs[..s.collected];
    if s.phase.Noting? {
      assert t.jobs[..s.phase.next] == s.jobs[..s.phase.next];
    }
    assert !s.phase.Returned? && !s.phase.Recovering? && !s.phase.ShuttingDown?;
  }

  lemma SubmitKeeps(round: Round, s: State)
    requires Inv(round, s) && Enabled(round, s, Submit)
    ensures Inv(round, Step(round, s, Submit))
  {
    assert Step(round, s, Submit).jobs[..0] == [];
  }

  lemma TakeKeeps(round: Round, s: State)
    requires Inv(round, s) && Enabled(round, s, Take)
    ensures Inv(round, Step(round, s, Take))
  {
    var n, t := s.phase.next, Step(round, s, Take);
    CollectedOneMore(s.jobs, n);
    assert t.results == Rows(s.jobs[..n + 1]);
    TakenState(round, t, n);
  }

  lemma TakenState(round: Round, t: State, n: nat)
    requires Named(round, t.jobs) && n < |t.jobs| && t.collected == n + 1
    requires AllOver(t.jobs, n + 1) && AllSubmitted(t.jobs, |t.jobs|) && AllDone(t.jobs, n + 1)
    requires t.results == Rows(t.jobs[..n + 1])
    requires || (t.phase == Noting(n) && t.roundError == FirstError(t.jobs[..n]))
             || (t.phase == Collecting(n + 1) && t.roundError == FirstError(t.jobs[..n + 1]))
    ensures Inv(round, t)
  {
  }

  lemma CollectedOneMore(jobs: seq<Job>, n: nat)
    requires n < |jobs| && jobs[n].Done?
    ensures Rows(jobs[..n + 1]) == Rows(jobs[..n]) + RowOf(jobs[n])
    ensures FirstError(jobs[..n + 1]) == Or(FirstError(jobs[..n]), ErrorOf(jobs[n]))
    ensures jobs[n].attempt.None? ==>
      Rows(jobs[..n + 1]) == Rows(jobs[..n]) && FirstError(jobs[..n + 1]) == FirstError(jobs[..n])
  {
    TakeOneMore(jobs, n);
  }

  lemma NoteKeeps(round: Round, s: State)
    requires Inv(round, s) && Enabled(round, s, Note)
    ensures Inv(round, Step(round, s, Note))
  {
    TakeOneMore(s.jobs, s.phase.next);
  }

  lemma CollectEndsKeeps(round: Round, s: State)
    requires Inv(round, s) && Enabled(round, s, CollectEnds)
    ensures Inv(round, Step(round, s, CollectEnds))
  {
    assert s.jobs[..|s.jobs|] == s.jobs;
  }

  /** Interrupted before or after a row was added: what is recorded are the rows of
      the futures collected so far. */
  lemma InterruptKeeps(round: Round, s: State, error: string)
    requires Inv(round, s) && Enabled(round, s, Interrupt(error))
    ensures Inv(round, Step(round, s, Interrupt(error)))
  {
    assert s.jobs[..|s.jobs|] == s.jobs;
  }

  /** The recovery adds the rows that are missing, and none twice. */
  lemma RecoverKeeps(round: Round, s: State)
    requires ValidRound(round) && Inv(round, s) && Enabled(round, s, Recover)
    ensures Inv(round, Step(round, s, Recover))
  {
    var n := s.phase.next;
    if n < s.collected {
      CollectedAlready(s, n);
    } else {
      TakeOneMore(s.jobs, n);
      NotYetRecorded(round, s, n);
    }
  }

  lemma CollectedAlready(s: State, n: nat)
    requires n < s.collected <= |s.jobs| && s.results == Rows(s.jobs[..s.collected])
    ensures Recovered(s, s.jobs[n]) == s.results
  {
    RowsHold(s.jobs[..s.collected], n);
    if RowOf(s.jobs[n]) != [] {
      assert RowOf(s.jobs[n])[0] in s.results;
    }
  }

  lemma NotYetRecorded(round: Round, s: State, n: nat)
    requires ValidRound(round) && Named(round, s.jobs) && n < |s.jobs| && s.results == Rows(s.jobs[..n])
    ensures Recovered(s, s.jobs[n]) == s.results + RowOf(s.jobs[n])
  {
    if RowOf(s.jobs[n]) != [] {
      RowNames(round, s.jobs[..n]);
      forall k | 0 <= k < |s.results|
        ensures s.results[k].name != round.names[n]
      {
        assert s.results[k] in Rows(s.jobs[..n]);
      }
      assert RowOf(s.jobs[n])[0].name == round.names[n];
    }
  }

  lemma CloseKeeps(round: Round, s: State)
    requires Inv(round, s) && Enabled(round, s, Close)
    ensures Inv(round, Step(round, s, Close))
  {
    assert s.jobs[..|s.jobs|] == s.jobs;
  }

  /** Steps of the workers, and jobs cancelled before one took them. */
  lemma WorkerKeeps(round: Round, s: State, a: Action)
    requires Inv(round, s) && Enabled(round, s, a)
    requires a.Pick? || a.SeeAbort? || a.Pass? || a.Finish? || a.Raise? || a.Cancel?
    ensures Inv(round, Step(round, s, a))
  {
    match a
    case Pick(i) => JobMoves(round, s, i, Picked);
    case SeeAbort(i) => JobMoves(round, s, i, Done(None));
    case Pass(i) => JobMoves(round, s, i, Working);
    case Finish(i, attempt) => FinishKeeps(round, s, i, attempt);
    case Raise(i) => JobMoves(round, s, i, Raised);
    case Cancel(i) => JobMoves(round, s, i, Cancelled);
  }

  lemma FinishKeeps(round: Round, s: State, i: nat, attempt: Attempt)
    requires Inv(round, s) && Enabled(round, s, Finish(i, attempt))
    ensures Inv(round, Step(round, s, Finish(i, attempt)))
  {
    var job := Done(Some(attempt));
    assert RowOf(job) == [attempt.row];
    JobMoves(round, s, i, job);
    AbortKeeps(round, s.(jobs := s.jobs[i := job]), s.abort || attempt.error.Some?);
  }

  lemma AbortKeeps(round: Round, s: State, abort: bool)
    requires Inv(round, s) && (s.abort ==> abort)
    ensures Inv(round, s.(abort := abort))
  {
  }

  lemma SetUpKeeps(round: Round, s: State, a: Action)
    requires Inv(round, s) && Enabled(round, s, a) && (a.SetUpOne? || a.SetUpEnds? || a.SubmitEnds? || a.Drained?)
    ensures Inv(round, Step(round, s, a))
  {
  }

  lemma StepKeeps(round: Round, s: State, a: Action)
    requires ValidRound(round) && Inv(round, s) && Enabled(round, s, a)
    ensures Inv(round, Step(round, s, a))
  {
    match a
    case Submit => SubmitKeeps(round, s);
    case Take => TakeKeeps(round, s);
    case Note => NoteKeeps(round, s);
    case CollectEnds => CollectEndsKeeps(round, s);
    case Interrupt(error) => InterruptKeeps(round, s, error);
    case Recover => RecoverKeeps(round, s);
    case Close => CloseKeeps(round, s);
    case Abort => AbortKeeps(round, s, true);
    case SetUpOne => SetUpKeeps(round, s, a);
    case SetUpEnds => SetUpKeeps(round, s, a);
    case SubmitEnds => SetUpKeeps(round, s, a);
    case Drained => SetUpKeeps(round, s, a);
    case _ => WorkerKeeps(round, s, a);
  }
}
