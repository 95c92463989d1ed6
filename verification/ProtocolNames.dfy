/** As long as every version is one line, everything the protocol writes down is kept as it is: the links,
    the journals and whatever an upgrade holds in memory, in every view. */
module ProtocolNames {
  import opened Wrappers
  import opened JournalFile
  import opened Versions
  import opened Protocol

  /** A record that its text keeps in every field. */
  predicate Kept(j: Journal) { CleanJournal(j) && OnOneLine(j) == j }

  predicate TidyView(v: View) { Clean(v.current) && (v.journal.Some? ==> Kept(v.journal.value)) }

  predicate TidyPhase(phase: Phase) {
    match phase
    case Idle => true
    case Clearing(to) => Clean(to)
    case Downloading(to) => Clean(to)
    case Unpacking(to) => Clean(to)
    case Staging(to) => Clean(to)
    case Failing(to) => Clean(to)
    case Swapping(j) => Kept(j)
    case Recording(j) => Kept(j)
    case Execing(j) => Kept(j)
    case Reverting(j) => Kept(j)
    case RecordingExecFailure(j) => Kept(j)
  }

  predicate TidyProc(proc: Proc) {
    && (proc.Boot? ==> Clean(proc.version))
    && (proc.Serving? ==> Clean(proc.version) && TidyPhase(proc.phase))
  }

  predicate TidyDisk(d: Disk) { forall v :: v in Views(d) ==> TidyView(v) }

  predicate Tidy(s: State) { TidyDisk(s.disk) && TidyProc(s.proc) }

  lemma RestampedIsKept(j: Journal, state: JournalState, stamp: Stamp)
    requires Kept(j)
    ensures Kept(WithState(j, state, stamp)) && Kept(j.(state := state, updatedAt := stamp.now))
  {
    hide Clean, Flattened;
    FlatStaysFlat(stamp.error);
  }

  lemma StagedIsKept(version: string, to: string, current: string, stamp: Stamp)
    requires Clean(version) && Clean(to) && Clean(current)
    ensures Kept(StagedJournal(version, to, current, stamp))
  {
    hide Clean, Rel;
    CleanNames(to);
  }

  lemma FailureIsKept(version: string, to: string, stamp: Stamp)
    requires Clean(version) && Clean(to)
    ensures Kept(Journal(Failed, version, to, "", "", stamp.now, stamp.error))
  {
    hide Flattened;
    FlatStaysFlat(stamp.error);
  }

  lemma GuardKeepsTidy(s: State, step: GuardStep, t: State)
    requires Tidy(s) && GuardNext(s, step) == Some(t)
    ensures Tidy(t)
  {
    hide Kept, Clean, CleanJournal;
    assert Present(s.disk) in Views(s.disk);
    if step.Revert? {
      PreviousIsClean(s.disk.journal.value);
    } else if step.RecordRevert? {
      RestampedIsKept(s.disk.journal.value, RolledBack, step.stamp);
    }
  }

  lemma PreviousIsClean(j: Journal)
    requires Kept(j)
    ensures Clean(j.previous) && Clean(j.target) && Clean(j.toVersion)
  {
    hide Clean;
  }

  lemma BootKeepsTidy(s: State, step: BootStep, t: State)
    requires Tidy(s) && BootNext(s, step) == Some(t)
    ensures Tidy(t)
  {
    hide Kept, Clean, CleanJournal;
    assert Present(s.disk) in Views(s.disk);
    if step.Confirm? {
      RestampedIsKept(s.disk.journal.value, Confirmed, step.stamp);
    } else if step.Mismatch? {
      RestampedIsKept(s.disk.journal.value, Failed, step.stamp);
    }
  }

  lemma PrepareKeepsTidy(s: State, step: RunStep, t: State)
    requires Tidy(s) && PrepareNext(s, step) == Some(t) && NamesClean(Upgrading(step))
    ensures Tidy(t)
  {
    hide Kept, Clean, TidyView, IsNewer, Rel, HasMain;
    assert Views(t.disk) == Views(s.disk);
  }

  lemma CommitKeepsTidy(s: State, step: RunStep, t: State)
    requires Tidy(s) && CommitNext(s, step) == Some(t) && NamesClean(Upgrading(step))
    ensures Tidy(t)
  {
    hide Kept, Clean, CleanJournal, Rel, HasMain;
    assert Present(s.disk) in Views(s.disk);
    var phase := s.proc.phase;
    if phase.Staging? && step.Stage? {
      StagedIsKept(s.proc.version, phase.to, s.disk.current, step.stamp);
    } else if phase.Swapping? {
      PreviousIsClean(phase.journal);
    } else if phase.Recording? && step.RecordSwap? {
      PreviousIsClean(phase.journal);
      RestampedIsKept(phase.journal, Swapped, step.stamp);
    }
  }

  lemma UndoKeepsTidy(s: State, step: RunStep, t: State)
    requires Tidy(s) && UndoNext(s, step) == Some(t)
    ensures Tidy(t)
  {
    hide Kept, Clean, CleanJournal, Rel, HasMain;
    assert Present(s.disk) in Views(s.disk);
    var phase := s.proc.phase;
    if phase.Reverting? || phase.RecordingExecFailure? {
      PreviousIsClean(phase.journal);
    }
    if step.RecordExecFailure? {
      RestampedIsKept(phase.journal, JournalState.ExecFailed, step.stamp);
    } else if step.RecordFailure? {
      FailureIsKept(s.proc.version, phase.to, step.stamp);
    }
  }

  lemma RunStepKeepsTidy(s: State, step: RunStep, t: State)
    requires Tidy(s) && RunNext(s, step) == Some(t) && NamesClean(Upgrading(step))
    ensures Tidy(t)
  {
    hide PrepareNext, CommitNext, UndoNext, Tidy, NamesClean;
    if CommitNext(s, step) == Some(t) {
      CommitKeepsTidy(s, step, t);
    } else if UndoNext(s, step) == Some(t) {
      UndoKeepsTidy(s, step, t);
    } else {
      PrepareKeepsTidy(s, step, t);
    }
  }

  lemma SmallStepKeepsTidy(s: State, l: Label, t: State)
    requires Tidy(s) && Next(s, l) == Some(t) && NamesClean(l)
    requires l.Crash? || l.PowerLoss? || l.Writeback? || l.Launch?
    ensures Tidy(t)
  {
    hide TidyView, HasMain, Survives, Clean;
  }

  /** Every step of every actor, however it ends, every stop and every power loss keeps names and records as
      they were written, if the version it brings into play is one line. */
  lemma StepKeepsTidy(s: State, l: Label, t: State)
    requires Tidy(s) && Next(s, l) == Some(t) && NamesClean(l)
    ensures Tidy(t)
    decreases l
  {
    hide GuardNext, BootNext, RunNext, TidyDisk, Clean;
    match l
    case Killed(op) => StepKeepsTidy(s, op, Next(s, op).value);
    case Guarding(step) => GuardKeepsTidy(s, step, t);
    case Booting(step) => BootKeepsTidy(s, step, t);
    case Upgrading(step) => RunStepKeepsTidy(s, step, t);
    case _ => SmallStepKeepsTidy(s, l, t);
  }

  lemma {:induction false} RunKeepsTidy(regime: Regime, s: State, ls: seq<Label>, t: State)
    requires Tidy(s) && Run(regime, s, ls) == Some(t) && !regime.Anything?
    ensures Tidy(t)
  {
    hide Next, Tidy, Permits, NamesClean;
    if ls != [] {
      var m := Run(regime, s, ls[..|ls| - 1]).value;
      RunKeepsTidy(regime, s, ls[..|ls| - 1], m);
      StepKeepsTidy(m, ls[|ls| - 1], t);
    }
  }

  lemma InitialIsTidy(s: State)
    requires Initial(s)
    ensures Tidy(s)
  {
    hide Clean;
    assert Views(s.disk) == {Present(s.disk)};
  }

  /** Over every run of a regime the release `current` names, and every version and path in the journal, is
      one line, now and after any power loss. */
  lemma JournalsStayClean(regime: Regime, s: State, ls: seq<Label>, t: State)
    requires Initial(s) && Run(regime, s, ls) == Some(t) && !regime.Anything?
    ensures forall v :: v in Views(t.disk) ==> Clean(v.current)
    ensures forall v :: v in Views(t.disk) && v.journal.Some? ==> CleanJournal(v.journal.value)
    ensures Tidy(t)
  {
    hide Run, Initial, Clean, CleanJournal;
    InitialIsTidy(s);
    RunKeepsTidy(regime, s, ls, t);
  }
}
