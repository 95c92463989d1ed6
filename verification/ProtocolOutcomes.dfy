/** Runs in which every file operation succeeds, or else stops the process or the machine: the code's own
    check is enough, and the journal says which release `current` names. */
module ProtocolOutcomes {
  import opened Wrappers
  import opened JournalFile
  import opened Versions
  import opened Protocol
  import opened ProtocolSafety
  import opened ProtocolChecks

  /** The releases `current` may name, by journal state. */
  function Named(j: Journal): set<string> {
    match j.state
    case Staged => {j.previous, j.target}
    case Swapped => {j.previous, j.target}
    case Confirmed => {j.target}
    case ExecFailed => {j.previous}
    case RolledBack => {j.previous}
    case Failed => {Rel(j.fromVersion)}
  }

  /** The journal of an upgrade to a newer version. */
  ghost predicate IsUpgrade(j: Journal) {
    j.previous == Rel(j.fromVersion) && j.target == Rel(j.toVersion) && IsNewer(j.toVersion, j.fromVersion)
  }

  /** What the entries of the directory say together, at present or after a power loss. */
  ghost predicate Determined(v: View) {
    v.journal.Some? ==>
      var j := v.journal.value;
      v.current in Named(j) && (j.state != Failed ==> IsUpgrade(j))
  }

  /** The earlier view needs nothing newer than this release. */
  ghost predicate NotBeyond(v: View, path: string) {
    && !IsNewer(VersionOf(v.current), VersionOf(path))
    && (ArmedView(v) ==> !IsNewer(VersionOf(v.journal.value.previous), VersionOf(path)))
  }

  ghost predicate PastNotBeyond(d: Disk) { forall v :: v in d.past ==> NotBeyond(v, d.current) }

  /** The journal is that of an upgrade from this version, and everything is synced. */
  ghost predicate Underway(d: Disk, version: string, j: Journal, state: JournalState) {
    IsUpgrade(j) && j.fromVersion == version && d.journal == Some(j) && j.state == state && d.past == {}
  }

  ghost predicate PhaseReliable(d: Disk, version: string, phase: Phase) {
    match phase
    case Idle => d.current == Rel(version)
    case Failing(_) => d.current == Rel(version)
    case Clearing(to) => d.current == Rel(version) && IsNewer(to, version)
    case Downloading(to) => d.current == Rel(version) && IsNewer(to, version)
    case Unpacking(to) => d.current == Rel(version) && IsNewer(to, version)
    case Staging(to) => d.current == Rel(version) && IsNewer(to, version)
    case Swapping(j) => Underway(d, version, j, Staged) && d.current == j.previous
    case Recording(j) => Underway(d, version, j, Staged) && d.current == j.target
    case Execing(j) => Underway(d, version, j, Swapped) && d.current == j.target
    case Reverting(j) => Underway(d, version, j, Swapped) && d.current == j.target
    case RecordingExecFailure(j) => Underway(d, version, j, Swapped) && d.current == j.previous
  }

  /** Before the guard has looked, an unconfirmed swap may hide an unsynced link; it syncs it. */
  ghost predicate ProcReliable(s: State) {
    var d := s.disk;
    match s.proc
    case Down => Armed(d) || PastNotBeyond(d)
    case Guard(Deciding) => Armed(d) || PastNotBeyond(d)
    case Guard(RecordingRevert) => Armed(d) && d.past == {} && d.current == d.journal.value.previous
    case Guard(Resetting) => PastNotBeyond(d) && !Armed(d)
    case Ready => PastNotBeyond(d)
    case Boot(version, at) => d.current == Rel(version) && PastNotBeyond(d) && (at.Reconciling? || !Armed(d))
    case Serving(version, phase) => PastNotBeyond(d) && PhaseReliable(d, version, phase)
  }

  ghost predicate ReliableInvariant(s: State) {
    && (forall v :: v in Views(s.disk) ==> Determined(v) && IsRelease(v.current))
    && ProcReliable(s)
  }

  // ----- one step -----

  lemma OldPresentNotBeyond(d: Disk)
    requires Determined(Present(d))
             && (Armed(d) ==> d.current == d.journal.value.previous || d.current == d.journal.value.target)
    ensures NotBeyond(Present(d), d.current)
  {
    hide Rel, VersionOf, IsNewer;
    IsNewerIrreflexive(VersionOf(d.current));
    if Armed(d) {
      var j := d.journal.value;
      RelIsRelease(j.fromVersion);
      RelIsRelease(j.toVersion);
      NewerIsAbove(j.fromVersion, j.toVersion);
    }
  }

  /** An operation that leaves the link alone keeps what is past below it. */
  lemma SameLinkNotBeyond(d: Disk, e: Disk)
    requires PastNotBeyond(d) && Determined(Present(d)) && e.current == d.current && e.past <= Views(d)
    ensures PastNotBeyond(e)
  {
    hide IsNewer, Rel, VersionOf, IsUpgrade, NotBeyond;
    OldPresentNotBeyond(d);
  }

  lemma GuardKeepsReliable(s: State, step: GuardStep, t: State)
    requires ReliableInvariant(s) && GuardNext(s, step) == Some(t) && step != StandDown
    requires step.Reset? || step.Count? || step.Revert? || step.RecordRevert? ==> !step.effect.NoEffect?
    ensures forall v :: v in Views(t.disk) ==> Determined(v) && IsRelease(v.current)
    ensures (step.Count? || step.Revert? || step.RecordRevert? ==> step.effect.Done?) ==> ReliableInvariant(t)
    ensures ReliableInvariant(t.(proc := Down))
  {
    hide IsNewer, Rel, VersionOf, NotBeyond;
    assert Present(s.disk) in Views(s.disk);
    if step.Revert? {
      RelIsRelease(s.disk.journal.value.fromVersion);
    }
    OldPresentNotBeyond(s.disk);
  }

  lemma BootKeepsReliable(s: State, step: BootStep, t: State)
    requires ReliableInvariant(s) && BootNext(s, step) == Some(t) && step != Unread
    requires step.Confirm? || step.Mismatch? || step.ClearCounter? ==> !step.effect.NoEffect?
    ensures ReliableInvariant(t) && ReliableInvariant(t.(proc := Down))
  {
    hide IsNewer, Rel, VersionOf, NotBeyond;
    assert Present(s.disk) in Views(s.disk);
    RelIsRelease(s.proc.version);
    if Armed(s.disk) {
      RelIsRelease(s.disk.journal.value.fromVersion);
      RelIsRelease(s.disk.journal.value.toVersion);
    }
    SameLinkNotBeyond(s.disk, t.disk);
  }

  lemma PrepareKeepsReliable(s: State, step: RunStep, t: State)
    requires ReliableInvariant(s) && PrepareNext(s, step) == Some(t)
    ensures ReliableInvariant(t)
  {
    hide IsNewer, Rel, VersionOf, NotBeyond;
    assert Views(t.disk) == Views(s.disk);
  }

  lemma CommitKeepsReliable(s: State, step: RunStep, t: State)
    requires ReliableInvariant(s) && CommitNext(s, step) == Some(t) && Honest(s, Upgrading(step))
    requires step.Stage? || step.Swap? || step.RecordSwap? ==> !step.effect.NoEffect?
    ensures (step.Stage? || step.Swap? || step.RecordSwap? ==> step.effect.Done?) ==> ReliableInvariant(t)
    ensures ReliableInvariant(t.(proc := Down))
  {
    hide IsNewer, Rel, VersionOf, NotBeyond;
    assert Present(s.disk) in Views(s.disk);
    var phase := s.proc.phase;
    if phase.Staging? {
      RelIsRelease(s.proc.version);
      RelIsRelease(phase.to);
      SameLinkNotBeyond(s.disk, t.disk);
    } else if phase.Swapping? {
      RelIsRelease(phase.journal.fromVersion);
      RelIsRelease(phase.journal.toVersion);
      SwapNotBeyond(s.disk, t.disk);
    }
  }

  lemma SwapNotBeyond(d: Disk, e: Disk)
    requires d.journal.Some? && IsUpgrade(d.journal.value) && !Armed(d) && d.past == {}
    requires d.current == d.journal.value.previous && e.current == d.journal.value.target && e.past <= Views(d)
    ensures PastNotBeyond(e)
  {
    hide IsNewer, Rel, VersionOf;
    var j := d.journal.value;
    RelIsRelease(j.fromVersion);
    RelIsRelease(j.toVersion);
    NewerIsAbove(j.fromVersion, j.toVersion);
  }

  lemma UndoKeepsReliable(s: State, step: RunStep, t: State)
    requires ReliableInvariant(s) && UndoNext(s, step) == Some(t)
    requires step.SwapBack? || step.RecordExecFailure? || step.RecordFailure? ==> !step.effect.NoEffect?
    ensures (step.SwapBack? || step.RecordExecFailure? || step.RecordFailure? ==> step.effect.Done?) ==>
            ReliableInvariant(t)
    ensures ReliableInvariant(t.(proc := Down))
  {
    hide IsNewer, Rel, VersionOf, NotBeyond;
    assert Present(s.disk) in Views(s.disk);
    var phase := s.proc.phase;
    if phase.Reverting? || phase.RecordingExecFailure? {
      RelIsRelease(phase.journal.fromVersion);
    }
    if !phase.Reverting? {
      SameLinkNotBeyond(s.disk, t.disk);
    }
  }

  lemma RunStepKeepsReliable(s: State, step: RunStep, t: State)
    requires ReliableInvariant(s) && RunNext(s, step) == Some(t) && Honest(s, Upgrading(step))
    requires var e := SyncingEffect(Upgrading(step)); e.Some? ==> !e.value.NoEffect?
    ensures (var e := SyncingEffect(Upgrading(step)); e.Some? ==> e.value.Done?) ==> ReliableInvariant(t)
    ensures SyncingEffect(Upgrading(step)).Some? ==> ReliableInvariant(t.(proc := Down))
  {
    hide PrepareNext, CommitNext, UndoNext, ReliableInvariant;
    if CommitNext(s, step) == Some(t) {
      CommitKeepsReliable(s, step, t);
    } else if UndoNext(s, step) == Some(t) {
      UndoKeepsReliable(s, step, t);
    } else {
      PrepareKeepsReliable(s, step, t);
    }
  }

  lemma CrashKeepsReliable(s: State)
    requires ReliableInvariant(s)
    ensures ReliableInvariant(s.(proc := Down))
  {
    hide IsNewer, Rel, VersionOf, NotBeyond, Determined;
  }

  lemma SmallStepKeepsReliable(s: State, l: Label, t: State)
    requires ReliableInvariant(s) && Next(s, l) == Some(t) && (l.PowerLoss? || l.Writeback? || l.Launch?)
             && Honest(s, l)
    ensures ReliableInvariant(t)
  {
    hide IsNewer, Rel, VersionOf, NotBeyond, Determined, Survives, HasMain;
  }

  lemma KilledKeepsReliable(s: State, op: Label, m: State)
    requires ReliableInvariant(s) && SyncingEffect(op) == Some(LateError) && Next(s, op) == Some(m)
    ensures ReliableInvariant(m.(proc := Down))
  {
    hide GuardNext, BootNext, RunNext, ReliableInvariant;
    match op
    case Guarding(step) => GuardKeepsReliable(s, step, m);
    case Booting(step) => BootKeepsReliable(s, step, m);
    case Upgrading(step) => RunStepKeepsReliable(s, step, m);
  }

  lemma StepKeepsReliable(s: State, l: Label, t: State)
    requires ReliableInvariant(s) && Step(Reliable, s, l) == Some(t)
    ensures ReliableInvariant(t)
  {
    hide GuardNext, BootNext, RunNext, ReliableInvariant, KeepsReleases;
    match l
    case Crash => CrashKeepsReliable(s);
    case Killed(op) => KilledKeepsReliable(s, op, Next(s, op).value);
    case Guarding(step) => GuardKeepsReliable(s, step, t);
    case Booting(step) => BootKeepsReliable(s, step, t);
    case Upgrading(step) => RunStepKeepsReliable(s, step, t);
    case _ => SmallStepKeepsReliable(s, l, t);
  }

  // ----- the check is enough -----

  lemma PastNeedsNothingNewer(s: State, to: string)
    requires ReliableInvariant(s) && s.proc.Serving? && s.proc.phase == Idle && IsNewer(to, s.proc.version)
    ensures !NamedIn(s.disk.past, Rel(to))
  {
    hide IsNewer, Rel, VersionOf, Determined;
    RelIsRelease(to);
    RelIsRelease(s.proc.version);
  }

  lemma ReliableIsTolerant(s: State, l: Label)
    requires ReliableInvariant(s) && Step(Reliable, s, l).Some?
    ensures Allowed(Tolerant, s, l)
  {
    hide GuardNext, BootNext, CommitNext, UndoNext, IsNewer, Rel, ProcReliable, Determined, NamedIn, KeepsReleases;
    if StartsBinary(l) {
      RelIsRelease(Reported(l));
      IsNewerIrreflexive(Reported(l));
    }
    if l.Upgrading? && l.run.Start? {
      PastNeedsNothingNewer(s, l.run.to);
    }
  }

  lemma {:induction false} ReliableRunKeeps(s: State, ls: seq<Label>, t: State)
    requires ReliableInvariant(s) && Run(Reliable, s, ls) == Some(t)
    ensures ReliableInvariant(t) && Run(Tolerant, s, ls) == Some(t)
  {
    hide Next, ReliableInvariant, Allowed;
    if ls != [] {
      var m := Run(Reliable, s, ls[..|ls| - 1]).value;
      ReliableRunKeeps(s, ls[..|ls| - 1], m);
      ReliableIsTolerant(m, ls[|ls| - 1]);
      StepKeepsReliable(m, ls[|ls| - 1], t);
    }
  }

  lemma InitialReliable(s: State)
    requires Initial(s)
    ensures ReliableInvariant(s)
  {
    hide Rel, VersionOf;
    assert Views(s.disk) == {Present(s.disk)};
  }

  /** When every file operation succeeds or stops the process or the machine, the code as it is keeps
      `current`, and what the guard would revert to, able to run. */
  lemma ReliableSafety(s: State, ls: seq<Label>, t: State)
    requires Initial(s) && Run(Reliable, s, ls) == Some(t)
    ensures Safe(t)
  {
    hide Run, Initial, ReliableInvariant, Safe;
    InitialReliable(s);
    ReliableRunKeeps(s, ls, t);
    TolerantSafety(s, ls, t);
  }

  // ----- the journal determines `current` -----

  /** In every reachable state, and after any power loss, the journal state says which release `current`
      names; for a failed upgrade that is the release the process was running. */
  lemma JournalDeterminesCurrent(s: State, ls: seq<Label>, t: State)
    requires Initial(s) && Run(Reliable, s, ls) == Some(t)
    ensures forall v :: v in Views(t.disk) && v.journal.Some? ==> v.current in Named(v.journal.value)
    ensures t.disk.journal.Some? ==> t.disk.current in Named(t.disk.journal.value)
    ensures t.proc.Serving? && t.proc.phase == Idle ==> t.disk.current == Rel(t.proc.version)
  {
    hide Run, IsNewer, Initial, Rel;
    InitialReliable(s);
    ReliableRunKeeps(s, ls, t);
    assert Present(t.disk) in Views(t.disk);
  }
}
