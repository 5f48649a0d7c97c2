/** `write_terminal_artifacts`: run.json and report.md as one pair, at every point
    where the process may die and for every step that may fail. */
module TerminalArtifacts {
  import opened Wrappers

  // ---------- the run directory ----------

  datatype Files = Files(
    run: Option<string>, report: Option<string>,
    runNew: Option<string>, reportNew: Option<string>, reportOld: Option<string>)

  /** `OSError`, or anything else, such as an interruption. */
  datatype Raise = OsError | Other

  /** How one call on the directory goes: a rename takes effect or not; a write may
      leave part of its text; either may raise also after it took effect. */
  datatype Fault = Fine | Refused(raise: Raise) | After(raise: Raise) | Torn(part: string, raise: Raise)

  /** What happens at each call of the procedure, in its order. */
  datatype Plan = Plan(
    checks: Fault, read: Fault, stageRun: Fault, stageReport: Fault, stageOld: Fault,
    replaceReport: Fault, replaceRun: Fault, rollback: Fault, syncRollback: Fault, sync: Fault,
    unlinkRunNew: Fault, unlinkReportNew: Fault, unlinkReportOld: Fault)

  /** Where a crash may find the directory: every state it was in. */
  datatype State = State(files: Files, seen: seq<Files>, raised: Option<Raise>)

  function Moved(s: State, files: Files, raised: Option<Raise>): State {
    State(files, s.seen + [files], raised)
  }

  /** A call with an all-or-nothing effect. */
  function Call(s: State, fault: Fault, effect: Files): State {
    match fault
    case Fine => Moved(s, effect, None)
    case After(r) => Moved(s, effect, Some(r))
    case Refused(r) => s.(raised := Some(r))
    case Torn(_, r) => s.(raised := Some(r))
  }

  /** A write into a file nobody else reads. */
  function Write(s: State, fault: Fault, effect: Files, torn: string -> Files): State {
    if fault.Torn? then Moved(s, torn(fault.part), Some(fault.raise)) else Call(s, fault, effect)
  }

  /** A rename of a staged file that may be missing. */
  function Rename(s: State, fault: Fault, source: Option<string>, effect: Files): State {
    if source.None? then s.(raised := Some(OsError)) else Call(s, fault, effect)
  }

  /** Best effort: only what is no `OSError` gets through. */
  function Sync(s: State, fault: Fault): State {
    if fault.Fine? || fault.raise.OsError? then s else s.(raised := Some(fault.raise))
  }

  /** Universal newlines: what reading a text file does to it. */
  function Universal(text: string): string {
    if text == "" then ""
    else if "\r\n" <= text then "\n" + Universal(text[2..])
    else if text[0] == '\r' then "\n" + Universal(text[1..])
    else [text[0]] + Universal(text[1..])
  }

  // ---------- the procedure ----------

  function Staged(s0: State, plan: Plan, metadata: string, report: string, prior: Option<string>): State {
    var s1 := Write(s0, plan.stageRun, s0.files.(runNew := Some(metadata)), t => s0.files.(runNew := Some(t)));
    if s1.raised.Some? then s1
    else
      var s2 := Write(s1, plan.stageReport, s1.files.(reportNew := Some(report)), t => s1.files.(reportNew := Some(t)));
      if s2.raised.Some? || prior.None? then s2
      else Write(s2, plan.stageOld, s2.files.(reportOld := prior), t => s2.files.(reportOld := Some(t)))
  }

  function RolledBack(s: State, plan: Plan, prior: Option<string>): State {
    var restored :=
      if prior.None? then Call(s.(raised := None), plan.rollback, s.files.(report := None))
      else Rename(s.(raised := None), plan.rollback, s.files.reportOld, s.files.(report := s.files.reportOld, reportOld := None));
    var synced := if restored.raised.Some? then restored else Sync(restored, plan.syncRollback);
    // An OSError of the rollback becomes a note; the original error is raised again.
    if synced.raised == Some(Other) then synced else synced.(raised := s.raised)
  }

  function Committed(s0: State, plan: Plan, prior: Option<string>): State {
    var s1 := Rename(s0, plan.replaceReport, s0.files.reportNew, s0.files.(report := s0.files.reportNew, reportNew := None));
    if s1.raised.Some? then s1
    else
      var s2 := Rename(s1, plan.replaceRun, s1.files.runNew, s1.files.(run := s1.files.runNew, runNew := None));
      if s2.raised.Some? then RolledBack(s2, plan, prior) else Sync(s2, plan.sync)
  }

  /** One `unlink` of the cleanup; a missing file is an `OSError` and ignored. */
  function Unlinked(s: State, fault: Fault, there: bool, effect: Files): State {
    if s.raised.Some? || !there then s
    else
      var t := Call(s, fault, effect);
      if t.raised == Some(OsError) then t.(raised := None) else t
  }

  function Cleaned(s: State, plan: Plan): State {
    var s1 := Unlinked(s.(raised := None), plan.unlinkRunNew, s.files.runNew.Some?, s.files.(runNew := None));
    var s2 := Unlinked(s1, plan.unlinkReportNew, s1.files.reportNew.Some?, s1.files.(reportNew := None));
    var s3 := Unlinked(s2, plan.unlinkReportOld, s2.files.reportOld.Some?, s2.files.(reportOld := None));
    if s3.raised.Some? then s3 else s3.(raised := s.raised)
  }

  function Terminal(before: Files, plan: Plan, metadata: string, report: string): State {
    var s0 := State(before, [before], None);
    if !plan.checks.Fine? then s0.(raised := Some(plan.checks.raise))
    else if !plan.read.Fine? then s0.(raised := Some(plan.read.raise))
    else
      var prior := if before.report.Some? then Some(Universal(before.report.value)) else None;
      var s1 := Staged(s0, plan, metadata, report, prior);
      Cleaned(if s1.raised.Some? then s1 else Committed(s1, plan, prior), plan)
  }

  /** The procedure step by step. `seen` records every state of the directory. */
  class RunDirectory {
    var files: Files
    ghost var seen: seq<Files>

    constructor (files: Files)
      ensures this.files == files && seen == [files]
    {
      this.files := files;
      seen := [files];
    }

    ghost function Now(raised: Option<Raise>): State
      reads this
    {
      State(files, seen, raised)
    }

    method Do(fault: Fault, effect: Files) returns (raised: Option<Raise>)
      modifies this
      ensures Now(raised) == Call(old(Now(None)), fault, effect)
    {
      if fault.Fine? || fault.After? {
        files := effect;
        seen := seen + [effect];
      }
      raised := if fault.Fine? then None else Some(fault.raise);
    }

    method StageText(fault: Fault, effect: Files, torn: string -> Files) returns (raised: Option<Raise>)
      modifies this
      ensures Now(raised) == Write(old(Now(None)), fault, effect, torn)
    {
      if fault.Torn? {
        files := torn(fault.part);
        seen := seen + [files];
        return Some(fault.raise);
      }
      raised := Do(fault, effect);
    }

    method Replace(fault: Fault, source: Option<string>, effect: Files) returns (raised: Option<Raise>)
      modifies this
      ensures Now(raised) == Rename(old(Now(None)), fault, source, effect)
    {
      if source.None? {
        return Some(OsError);
      }
      raised := Do(fault, effect);
    }

    method Unlink(fault: Fault, there: bool, effect: Files, pending: Option<Raise>) returns (raised: Option<Raise>)
      modifies this
      ensures Now(raised) == Unlinked(old(Now(pending)), fault, there, effect)
    {
      if pending.Some? || !there {
        return pending;
      }
      raised := Do(fault, effect);
      raised := if raised == Some(OsError) then None else raised;
    }

    method RollBack(plan: Plan, prior: Option<string>, original: Option<Raise>) returns (raised: Option<Raise>)
      requires original.Some?
      modifies this
      ensures Now(raised) == RolledBack(old(Now(original)), plan, prior)
    {
      if prior.None? {
        raised := Do(plan.rollback, files.(report := None));
      } else {
        raised := Replace(plan.rollback, files.reportOld, files.(report := files.reportOld, reportOld := None));
      }
      if raised.None? && !plan.syncRollback.Fine? && !plan.syncRollback.raise.OsError? {
        raised := Some(plan.syncRollback.raise);
      }
      raised := if raised == Some(Other) then raised else original;
    }

    /** The body of the `try`. */
    method Try(plan: Plan, metadata: string, report: string, prior: Option<string>) returns (raised: Option<Raise>)
      modifies this
      ensures var s := Staged(old(Now(None)), plan, metadata, report, prior);
        Now(raised) == if s.raised.Some? then s else Committed(s, plan, prior)
    {
      var f := files;
      raised := StageText(plan.stageRun, f.(runNew := Some(metadata)), t => f.(runNew := Some(t)));
      if raised.Some? { return; }
      var g := files;
      raised := StageText(plan.stageReport, g.(reportNew := Some(report)), t => g.(reportNew := Some(t)));
      if raised.Some? { return; }
      if prior.Some? {
        var h := files;
        raised := StageText(plan.stageOld, h.(reportOld := prior), t => h.(reportOld := Some(t)));
        if raised.Some? { return; }
      }
      raised := Replace(plan.replaceReport, files.reportNew, files.(report := files.reportNew, reportNew := None));
      if raised.Some? { return; }
      raised := Replace(plan.replaceRun, files.runNew, files.(run := files.runNew, runNew := None));
      if raised.Some? {
        raised := RollBack(plan, prior, raised);
        return;
      }
      if !plan.sync.Fine? && !plan.sync.raise.OsError? {
        raised := Some(plan.sync.raise);
      }
    }

    method WriteTerminalArtifacts(plan: Plan, metadata: string, report: string) returns (raised: Option<Raise>)
      requires seen == [files]
      modifies this
      ensures Now(raised) == Terminal(old(files), plan, metadata, report)
    {
      if !plan.checks.Fine? {
        return Some(plan.checks.raise);
      }
      if !plan.read.Fine? {
        return Some(plan.read.raise);
      }
      var prior := if files.report.Some? then Some(Universal(files.report.value)) else None;
      var tried := Try(plan, metadata, report, prior);
      raised := Unlink(plan.unlinkRunNew, files.runNew.Some?, files.(runNew := None), None);
      raised := Unlink(plan.unlinkReportNew, files.reportNew.Some?, files.(reportNew := None), raised);
      raised := Unlink(plan.unlinkReportOld, files.reportOld.Some?, files.(reportOld := None), raised);
      raised := if raised.Some? then raised else tried;
    }
  }

  // ---------- what a reader may find ----------

  function Restored(before: Files): Option<string> {
    if before.report.Some? then Some(Universal(before.report.value)) else None
  }

  /** Each public file is wholly the old or wholly the new one. */
  ghost predicate Whole(before: Files, metadata: string, report: string, f: Files) {
    && (f.run == before.run || f.run == Some(metadata))
    && (f.report == before.report || f.report == Restored(before) || f.report == Some(report))
  }

  /** What the staged files hold by the time they are renamed. */
  ghost predicate Ready(before: Files, s: State, metadata: string, report: string) {
    && s.raised.None? && s.files.run == before.run && s.files.report == before.report
    && s.files.runNew == Some(metadata) && s.files.reportNew == Some(report)
    && (before.report.Some? ==> s.files.reportOld == Restored(before))
  }

  /** Nothing public has changed in any state seen so far. */
  ghost predicate Untouched(before: Files, s: State) {
    && s.files.run == before.run && s.files.report == before.report
    && forall f | f in s.seen :: f.run == before.run && f.report == before.report
  }

  lemma StagingIsPrivate(before: Files, plan: Plan, metadata: string, report: string)
    ensures var s := Staged(State(before, [before], None), plan, metadata, report, Restored(before));
      Untouched(before, s) && (s.raised.None? ==> Ready(before, s, metadata, report))
  {
  }

  /** The second rename was made, yet it raised, and the rollback undid the first. */
  predicate LandedButRaised(before: Files, plan: Plan) {
    && plan.checks.Fine? && plan.read.Fine? && plan.stageRun.Fine? && plan.stageReport.Fine?
    && (before.report.Some? ==> plan.stageOld.Fine?) && Undone(plan)
  }

  /** run.json is new only beside the new report. */
  ghost predicate Paired(metadata: string, report: string, f: Files) {
    f.run == Some(metadata) ==> f.report == Some(report)
  }

  ghost predicate Safe(before: Files, metadata: string, report: string, s: State) {
    forall f | f in s.seen :: Whole(before, metadata, report, f) && Paired(metadata, report, f)
  }

  ghost predicate AllWhole(before: Files, metadata: string, report: string, s: State) {
    forall f | f in s.seen :: Whole(before, metadata, report, f)
  }

  /** The new run.json is not what was there already, and neither is the report. */
  predicate Fresh(before: Files, metadata: string, report: string) {
    before.run != Some(metadata) && Restored(before) != Some(report)
  }

  predicate SamePublic(f: Files, g: Files) {
    f.run == g.run && f.report == g.report
  }

  /** From `s` to `t` nothing public changed, and nothing seen was forgotten. */
  ghost predicate Quiet(s: State, t: State) {
    && SamePublic(t.files, s.files)
    && (forall f | f in t.seen :: f in s.seen || SamePublic(f, s.files))
    && forall f | f in s.seen :: f in t.seen
  }

  lemma UnlinkIsQuiet(s: State, fault: Fault, there: bool, effect: Files)
    requires SamePublic(effect, s.files)
    ensures Quiet(s, Unlinked(s, fault, there, effect))
  {
  }

  lemma QuietTwice(s: State, t: State, u: State)
    requires Quiet(s, t) && Quiet(t, u)
    ensures Quiet(s, u)
  {
  }

  lemma CleanupIsQuiet(s: State, plan: Plan)
    ensures Quiet(s, Cleaned(s, plan))
  {
    var s0 := s.(raised := None);
    var e1 := s.files.(runNew := None);
    var s1 := Unlinked(s0, plan.unlinkRunNew, s.files.runNew.Some?, e1);
    UnlinkIsQuiet(s0, plan.unlinkRunNew, s.files.runNew.Some?, e1);
    var s2 := Unlinked(s1, plan.unlinkReportNew, s1.files.reportNew.Some?, s1.files.(reportNew := None));
    UnlinkIsQuiet(s1, plan.unlinkReportNew, s1.files.reportNew.Some?, s1.files.(reportNew := None));
    var s3 := Unlinked(s2, plan.unlinkReportOld, s2.files.reportOld.Some?, s2.files.(reportOld := None));
    UnlinkIsQuiet(s2, plan.unlinkReportOld, s2.files.reportOld.Some?, s2.files.(reportOld := None));
    QuietTwice(s0, s1, s2);
    QuietTwice(s0, s2, s3);
  }

  lemma QuietKeepsWhole(before: Files, metadata: string, report: string, s: State, t: State)
    requires Quiet(s, t) && AllWhole(before, metadata, report, s) && Whole(before, metadata, report, s.files)
    ensures AllWhole(before, metadata, report, t)
  {
  }

  lemma QuietKeepsSafe(before: Files, metadata: string, report: string, s: State, t: State)
    requires Quiet(s, t) && s.files in s.seen
    ensures Safe(before, metadata, report, t) <==> Safe(before, metadata, report, s)
  {
    if Safe(before, metadata, report, s) {
      assert Whole(before, metadata, report, s.files);
    }
  }

  /** The state before the cleanup. */
  ghost function Tried(before: Files, plan: Plan, metadata: string, report: string): State {
    var s1 := Staged(State(before, [before], None), plan, metadata, report, Restored(before));
    if s1.raised.Some? then s1 else Committed(s1, plan, Restored(before))
  }

  /** What the two renames and the rollback add to what is seen. */
  lemma RollbackSeen(s: State, plan: Plan, prior: Option<string>)
    requires prior.Some? ==> s.files.reportOld.Some?
    ensures var t := RolledBack(s, plan, prior);
      var back := if prior.None? then s.files.(report := None) else s.files.(report := s.files.reportOld, reportOld := None);
      if plan.rollback.Fine? || plan.rollback.After? then t.files == back && t.seen == s.seen + [back]
      else t.files == s.files && t.seen == s.seen
  {
  }

  predicate Undone(plan: Plan) {
    plan.replaceReport.Fine? && plan.replaceRun.After? && (plan.rollback.Fine? || plan.rollback.After?)
  }

  /** The state after the two renames, if both were tried. */
  lemma CommitIsWhole(before: Files, plan: Plan, metadata: string, report: string, s: State)
    requires Ready(before, s, metadata, report) && Untouched(before, s) && s.files in s.seen
    ensures AllWhole(before, metadata, report, Committed(s, plan, Restored(before)))
    ensures Committed(s, plan, Restored(before)).files in Committed(s, plan, Restored(before)).seen
  {
    var s1 := Rename(s, plan.replaceReport, s.files.reportNew, s.files.(report := s.files.reportNew, reportNew := None));
    if s1.raised.None? {
      var s2 := Rename(s1, plan.replaceRun, s1.files.runNew, s1.files.(run := s1.files.runNew, runNew := None));
      RollbackSeen(s2, plan, Restored(before));
    }
  }

  lemma CommitIsSafe(before: Files, plan: Plan, metadata: string, report: string, s: State)
    requires Ready(before, s, metadata, report) && Untouched(before, s) && Fresh(before, metadata, report)
    requires AllWhole(before, metadata, report, Committed(s, plan, Restored(before)))
    ensures Safe(before, metadata, report, Committed(s, plan, Restored(before))) <==> !Undone(plan)
  {
    var t := Committed(s, plan, Restored(before));
    var s1 := Rename(s, plan.replaceReport, s.files.reportNew, s.files.(report := s.files.reportNew, reportNew := None));
    if s1.raised.None? {
      var s2 := Rename(s1, plan.replaceRun, s1.files.runNew, s1.files.(run := s1.files.runNew, runNew := None));
      RollbackSeen(s2, plan, Restored(before));
      if Undone(plan) {
        assert t.files in t.seen && !Paired(metadata, report, t.files);
      }
    }
  }

  lemma StagingReady(before: Files, plan: Plan, metadata: string, report: string)
    ensures var s := Staged(State(before, [before], None), plan, metadata, report, Restored(before));
      && s.files in s.seen
      && (s.raised.None? <==> plan.stageRun.Fine? && plan.stageReport.Fine? && (before.report.Some? ==> plan.stageOld.Fine?))
  {
  }

  lemma TriedIsWhole(before: Files, plan: Plan, metadata: string, report: string)
    ensures var t := Tried(before, plan, metadata, report);
      AllWhole(before, metadata, report, t) && t.files in t.seen
    ensures Fresh(before, metadata, report) && plan.checks.Fine? && plan.read.Fine? ==>
      (Safe(before, metadata, report, Tried(before, plan, metadata, report)) <==> !LandedButRaised(before, plan))
  {
    var s1 := Staged(State(before, [before], None), plan, metadata, report, Restored(before));
    StagingIsPrivate(before, plan, metadata, report);
    StagingReady(before, plan, metadata, report);
    if s1.raised.None? {
      CommitIsWhole(before, plan, metadata, report, s1);
      if Fresh(before, metadata, report) {
        CommitIsSafe(before, plan, metadata, report, s1);
      }
    }
  }

  /** At every point a crash may come, whatever step failed, each public file is
      wholly old or wholly new. */
  lemma CrashFindsWholeFiles(before: Files, plan: Plan, metadata: string, report: string)
    ensures AllWhole(before, metadata, report, Terminal(before, plan, metadata, report))
  {
    if plan.checks.Fine? && plan.read.Fine? {
      var t := Tried(before, plan, metadata, report);
      TriedIsWhole(before, plan, metadata, report);
      CleanupIsQuiet(t, plan);
      QuietKeepsWhole(before, metadata, report, t, Cleaned(t, plan));
    }
  }

  /** ... and a new run.json never stands beside an old report, except when the second
      rename was made and raised all the same. */
  lemma CrashFindsPair(before: Files, plan: Plan, metadata: string, report: string)
    requires Fresh(before, metadata, report)
    ensures Safe(before, metadata, report, Terminal(before, plan, metadata, report)) <==> !LandedButRaised(before, plan)
  {
    if plan.checks.Fine? && plan.read.Fine? {
      var t := Tried(before, plan, metadata, report);
      TriedIsWhole(before, plan, metadata, report);
      CleanupIsQuiet(t, plan);
      QuietKeepsSafe(before, metadata, report, t, Cleaned(t, plan));
    }
  }

  const SMOOTH := Plan(Fine, Fine, Fine, Fine, Fine, Fine, Fine, Fine, Fine, Fine, Fine, Fine, Fine)

  /** An interruption just after the second rename: the run directory is left with a
      terminal run.json and the report of before. */
  lemma InterruptedAfterRename()
    ensures var before := Files(Some("waiting"), Some("old"), None, None, None);
      var after := Terminal(before, SMOOTH.(replaceRun := After(Other)), "terminal", "new");
      after.raised == Some(Other) && after.files == Files(Some("terminal"), Some("old"), None, None, None)
  {
    assert Universal("old") == "old" by {
      UniversalKeeps("old");
    }
  }

  /** A normal return means that both are new, and no new file is left staged. */
  lemma NormalReturn(before: Files, plan: Plan, metadata: string, report: string)
    requires Terminal(before, plan, metadata, report).raised.None?
    ensures var f := Terminal(before, plan, metadata, report).files;
      f.run == Some(metadata) && f.report == Some(report) && f.runNew == None && f.reportNew == None
  {
    var t := Tried(before, plan, metadata, report);
    StagingIsPrivate(before, plan, metadata, report);
    CleanupIsQuiet(t, plan);
  }

  /** When the second rename fails without effect and the rollback succeeds, both are
      as before: an absent report is absent again, another is what reading it gave. */
  lemma FailedSecondRename(before: Files, plan: Plan, metadata: string, report: string)
    requires plan.checks.Fine? && plan.read.Fine? && plan.replaceReport.Fine? && plan.replaceRun.Refused?
    requires plan.stageRun.Fine? && plan.stageReport.Fine? && plan.stageOld.Fine? && plan.rollback.Fine?
    ensures var t := Terminal(before, plan, metadata, report);
      && t.raised.Some? && t.files.run == before.run && t.files.report == Restored(before)
      && (t.files.report == before.report <==> before.report.Some? ==> '\r' !in before.report.value)
  {
    var t := Tried(before, plan, metadata, report);
    StagingIsPrivate(before, plan, metadata, report);
    CleanupIsQuiet(t, plan);
    if before.report.Some? {
      RestoredExactly(before.report.value);
    }
  }

  /** A failure before the first rename changes nothing public at any point. */
  lemma FailedStaging(before: Files, plan: Plan, metadata: string, report: string)
    requires !plan.checks.Fine? || !plan.read.Fine? || !plan.stageRun.Fine? || !plan.stageReport.Fine?
      || (before.report.Some? && !plan.stageOld.Fine?)
    ensures Terminal(before, plan, metadata, report).raised.Some?
    ensures forall f | f in Terminal(before, plan, metadata, report).seen :: SamePublic(f, before)
  {
    if plan.checks.Fine? && plan.read.Fine? {
      var t := Tried(before, plan, metadata, report);
      StagingIsPrivate(before, plan, metadata, report);
      StagingReady(before, plan, metadata, report);
      CleanupIsQuiet(t, plan);
    }
  }

  lemma {:induction false} UniversalKeeps(text: string)
    requires '\r' !in text
    ensures Universal(text) == text
  {
    if text != "" {
      assert text[0] != '\r' && forall c | c in text[1..] :: c in text;
      UniversalKeeps(text[1..]);
    }
  }

  lemma {:induction false} UniversalHasNone(text: string)
    ensures '\r' !in Universal(text)
    decreases |text|
  {
    if text == "" {
    } else if "\r\n" <= text {
      UniversalHasNone(text[2..]);
    } else {
      UniversalHasNone(text[1..]);
    }
  }

  /** Exactly reports without carriage returns come back byte for byte. */
  lemma RestoredExactly(text: string)
    ensures Universal(text) == text <==> '\r' !in text
  {
    UniversalHasNone(text);
    if '\r' !in text {
      UniversalKeeps(text);
    }
  }
}
