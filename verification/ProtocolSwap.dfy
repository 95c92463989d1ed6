/** A staged journal whose target is current is the mark of a process or machine that stopped between the
    swap of the link and its record. */
module ProtocolSwap {
  import opened Wrappers
  import opened JournalFile
  import opened Versions
  import opened Protocol
  import opened ProtocolSafety
  import opened ProtocolChecks
  import opened ProtocolOutcomes

  predicate StagedAtTarget(v: View, j: Journal) { v.journal == Some(j) && j.state == Staged && v.current == j.target }

  /** The link is swapped and the record of it comes next. */
  predicate InRecord(s: State, j: Journal) { s.proc.Serving? && s.proc.phase == Recording(j) }

  predicate InSwap(s: State, j: Journal) { s.proc.Serving? && s.proc.phase == Swapping(j) }

  /** A step that stops everything after the swap of the link and before its record is done. */
  predicate StopsInSwap(m: State, l: Label, j: Journal) {
    Stops(l) && (InRecord(m, j) || (l.Killed? && InSwap(m, j)))
  }

  predicate Was(m: State, j: Journal) { !InRecord(m, j) && exists w :: w in Views(m.disk) && StagedAtTarget(w, j) }

  /** Where such a view comes from, one step back. */
  predicate Explains(m: State, l: Label, t: State, j: Journal) {
    InRecord(t, j) || StopsInSwap(m, l, j) || Was(m, j)
  }

  lemma GuardExplains(m: State, step: GuardStep, t: State, v: View, j: Journal)
    requires GuardNext(m, step) == Some(t) && v in Views(t.disk) && StagedAtTarget(v, j)
    ensures Was(m, j)
  {
    hide IsNewer, Rel, VersionOf;
    assert v in Views(m.disk) || (StagedAtTarget(Present(m.disk), j) && Present(m.disk) in Views(m.disk));
  }

  lemma BootExplains(m: State, step: BootStep, t: State, v: View, j: Journal)
    requires BootNext(m, step) == Some(t) && v in Views(t.disk) && StagedAtTarget(v, j)
    ensures Was(m, j)
  {
    hide IsNewer, Rel, VersionOf;
    assert v in Views(m.disk) || (StagedAtTarget(Present(m.disk), j) && Present(m.disk) in Views(m.disk));
  }

  lemma PrepareExplains(m: State, step: RunStep, t: State, v: View, j: Journal)
    requires PrepareNext(m, step) == Some(t) && v in Views(t.disk) && StagedAtTarget(v, j)
    ensures Was(m, j)
  {
    hide IsNewer, Rel, VersionOf;
    assert v in Views(m.disk);
  }

  lemma StagedElsewhere(d: Disk, version: string, to: string, stamp: Stamp)
    requires d.current == Rel(version) && IsNewer(to, version)
    ensures d.current != StagedJournal(version, to, d.current, stamp).target
  {
    hide IsNewer;
    RelIsRelease(to);
    RelIsRelease(version);
    IsNewerIrreflexive(version);
  }

  lemma CommitExplains(m: State, step: RunStep, t: State, v: View, j: Journal)
    requires ReliableInvariant(m) && CommitNext(m, step) == Some(t) && v in Views(t.disk) && StagedAtTarget(v, j)
    ensures var e := SyncingEffect(Upgrading(step));
            if e.Some? && !e.value.Done? then InRecord(m, j) || InSwap(m, j) || Was(m, j)
            else InRecord(t, j) || Was(m, j)
  {
    hide IsNewer, Rel, VersionOf, Determined;
    var phase := m.proc.phase;
    assert Present(m.disk) in Views(m.disk);
    if phase.Staging? && step.Stage? {
      StagedElsewhere(m.disk, m.proc.version, phase.to, step.stamp);
    }
  }

  lemma UndoExplains(m: State, step: RunStep, t: State, v: View, j: Journal)
    requires ReliableInvariant(m) && UndoNext(m, step) == Some(t) && v in Views(t.disk) && StagedAtTarget(v, j)
    ensures Was(m, j)
  {
    hide IsNewer, Rel, VersionOf, Determined;
    assert v in Views(m.disk);
  }

  lemma RunStepExplains(m: State, step: RunStep, t: State, v: View, j: Journal)
    requires ReliableInvariant(m) && RunNext(m, step) == Some(t) && v in Views(t.disk) && StagedAtTarget(v, j)
    ensures var e := SyncingEffect(Upgrading(step));
            if e.Some? && !e.value.Done? then InRecord(m, j) || InSwap(m, j) || Was(m, j)
            else InRecord(t, j) || Was(m, j)
  {
    hide PrepareNext, CommitNext, UndoNext, ReliableInvariant, Was, InRecord, InSwap, StagedAtTarget, Views;
    if CommitNext(m, step) == Some(t) {
      CommitExplains(m, step, t, v, j);
    } else if UndoNext(m, step) == Some(t) {
      UndoExplains(m, step, t, v, j);
    } else {
      PrepareExplains(m, step, t, v, j);
    }
  }

  lemma StepExplains(m: State, l: Label, t: State, v: View, j: Journal)
    requires ReliableInvariant(m) && Step(Reliable, m, l) == Some(t) && v in Views(t.disk) && StagedAtTarget(v, j)
    ensures Explains(m, l, t, j)
  {
    hide GuardNext, BootNext, RunNext, ReliableInvariant, KeepsReleases, HasMain, Survives;
    match l
    case Guarding(step) => GuardExplains(m, step, t, v, j);
    case Booting(step) => BootExplains(m, step, t, v, j);
    case Upgrading(step) => RunStepExplains(m, step, t, v, j);
    case Killed(op) =>
      match op {
        case Guarding(step) => GuardExplains(m, step, Next(m, op).value, v, j);
        case Booting(step) => BootExplains(m, step, Next(m, op).value, v, j);
        case Upgrading(step) => RunStepExplains(m, step, Next(m, op).value, v, j);
      }
    case _ =>
      assert v in Views(m.disk);
  }

  /** The moment of a run at which it stopped inside the swap that this journal is of. */
  ghost predicate StoppedAt(s: State, ls: seq<Label>, k: nat, j: Journal) {
    k < |ls| && Run(Reliable, s, ls[..k]).Some? && StopsInSwap(Run(Reliable, s, ls[..k]).value, ls[k], j)
  }

  lemma {:induction false} StagedViewsAreExplained(s: State, ls: seq<Label>, t: State, v: View, j: Journal)
    requires Initial(s) && Run(Reliable, s, ls) == Some(t) && v in Views(t.disk) && StagedAtTarget(v, j)
    ensures InRecord(t, j) || exists k: nat :: StoppedAt(s, ls, k, j)
    decreases |ls|
  {
    hide Step, InRecord, InSwap, StopsInSwap, ReliableInvariant;
    if ls != [] {
      var n := |ls| - 1;
      var init, l := ls[..n], ls[n];
      var m := Run(Reliable, s, init).value;
      InitialReliable(s);
      ReliableRunKeeps(s, init, m);
      StepExplains(m, l, t, v, j);
      if StopsInSwap(m, l, j) {
        assert StoppedAt(s, ls, n, j);
      } else if !InRecord(t, j) {
        var w :| w in Views(m.disk) && StagedAtTarget(w, j);
        StagedViewsAreExplained(s, init, m, w, j);
        var k: nat :| StoppedAt(s, init, k, j);
        assert init[..k] == ls[..k] && StoppedAt(s, ls, k, j);
      }
    }
  }

  /** A staged journal whose target is current, now or after a power loss, means that the swap is just
      being recorded, or that the process or the machine stopped between this very swap and its record. */
  lemma StagedTargetNeedsCrash(s: State, ls: seq<Label>, t: State)
    requires Initial(s) && Run(Reliable, s, ls) == Some(t)
    requires t.disk.journal.Some? && t.disk.journal.value.state == Staged
    requires t.disk.current == t.disk.journal.value.target
    ensures InRecord(t, t.disk.journal.value) || exists k: nat :: StoppedAt(s, ls, k, t.disk.journal.value)
  {
    hide Run, Initial;
    assert Present(t.disk) in Views(t.disk);
    StagedViewsAreExplained(s, ls, t, Present(t.disk), t.disk.journal.value);
  }

  // ----- the staged state passes -----

  /** Nothing has stopped: the staged journal belongs to the upgrade that is being committed. */
  predicate StagedOnlyInPassing(s: State) {
    forall v :: v in Views(s.disk) && v.journal.Some? && v.journal.value.state == Staged ==>
      InSwap(s, v.journal.value) || InRecord(s, v.journal.value)
  }

  /** Without a stop the staged state never outlives the upgrade that wrote it. */
  lemma {:induction false} WithoutStopStagedPasses(s: State, ls: seq<Label>, t: State)
    requires Initial(s) && Run(Reliable, s, ls) == Some(t) && forall l :: l in ls ==> !Stops(l)
    ensures StagedOnlyInPassing(t)
  {
    hide Step, StagedOnlyInPassing, ReliableInvariant, Stops;
    if ls == [] {
      assert StagedOnlyInPassing(s) by { NoneStaged(s); }
    } else {
      var init, l := ls[..|ls| - 1], ls[|ls| - 1];
      var m := Run(Reliable, s, init).value;
      assert l in ls && forall k :: k in init ==> k in ls;
      WithoutStopStagedPasses(s, init, m);
      InitialReliable(s);
      ReliableRunKeeps(s, init, m);
      StepStagedPasses(m, l, t);
    }
  }

  lemma NoneStaged(s: State)
    requires Initial(s)
    ensures StagedOnlyInPassing(s)
  {
    assert Views(s.disk) == {Present(s.disk)};
  }

  lemma StepStagedPasses(m: State, l: Label, t: State)
    requires ReliableInvariant(m) && StagedOnlyInPassing(m) && Step(Reliable, m, l) == Some(t) && !Stops(l)
    ensures StagedOnlyInPassing(t)
  {
    hide GuardNext, BootNext, RunNext, ReliableInvariant, HasMain, StagedOnlyInPassing;
    match l
    case Guarding(step) => GuardStagedPasses(m, step, t);
    case Booting(step) => BootStagedPasses(m, step, t);
    case Upgrading(step) => RunStagedPasses(m, step, t);
    case Writeback => SmallStagedPasses(m, t);
    case Launch(_) => SmallStagedPasses(m, t);
  }

  lemma SmallStagedPasses(m: State, t: State)
    requires StagedOnlyInPassing(m) && Views(t.disk) <= Views(m.disk) && (t.proc == m.proc || m.proc == Ready)
    ensures StagedOnlyInPassing(t)
  {
  }

  lemma GuardStagedPasses(m: State, step: GuardStep, t: State)
    requires StagedOnlyInPassing(m) && GuardNext(m, step) == Some(t)
    ensures StagedOnlyInPassing(t)
  {
    hide Rel, VersionOf;
    assert Present(m.disk) in Views(m.disk);
  }

  lemma BootStagedPasses(m: State, step: BootStep, t: State)
    requires StagedOnlyInPassing(m) && BootNext(m, step) == Some(t)
    ensures StagedOnlyInPassing(t)
  {
    hide Rel, VersionOf;
    assert Present(m.disk) in Views(m.disk);
  }

  lemma RunStagedPasses(m: State, step: RunStep, t: State)
    requires ReliableInvariant(m) && StagedOnlyInPassing(m) && RunNext(m, step) == Some(t) && AllDone(Upgrading(step))
    ensures StagedOnlyInPassing(t)
  {
    hide Rel, VersionOf, IsNewer, Determined;
    assert Present(m.disk) in Views(m.disk);
  }
}
