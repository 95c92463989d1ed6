/** The versions ever recorded as confirmed only go up, whatever fails and wherever the power is lost,
    exactly as long as a confirmation is recorded durably or not at all. */
module ProtocolHistory {
  import opened Wrappers
  import opened JournalFile
  import opened Versions
  import opened Protocol
  import opened ProtocolNames
  import opened ProtocolSafety

  /** At or above every version confirmed so far. */
  ghost predicate Above(confirmed: seq<string>, version: string) {
    confirmed == [] || version == confirmed[|confirmed| - 1] || IsNewer(version, confirmed[|confirmed| - 1])
  }

  /** Strictly above. */
  ghost predicate Beyond(confirmed: seq<string>, version: string) {
    confirmed == [] || IsNewer(version, confirmed[|confirmed| - 1])
  }

  ghost predicate Increasing(confirmed: seq<string>) {
    forall i, k :: 0 <= i < k < |confirmed| ==> IsNewer(confirmed[k], confirmed[i])
  }

  /** What the history promises: it goes up, and `current` never names a version below its last. */
  ghost predicate Monotone(s: State) { Increasing(s.confirmed) && Above(s.confirmed, VersionOf(s.disk.current)) }

  ghost predicate UpgradesBeyond(confirmed: seq<string>, j: Journal) {
    Above(confirmed, VersionOf(j.previous)) && Beyond(confirmed, j.toVersion) && j.target == Rel(j.toVersion)
  }

  ghost predicate ViewAbove(confirmed: seq<string>, v: View) {
    && Above(confirmed, VersionOf(v.current))
    && (ArmedView(v) ==> UpgradesBeyond(confirmed, v.journal.value))
  }

  ghost predicate PhaseAbove(confirmed: seq<string>, phase: Phase) {
    match phase
    case Clearing(to) => Beyond(confirmed, to)
    case Downloading(to) => Beyond(confirmed, to)
    case Unpacking(to) => Beyond(confirmed, to)
    case Staging(to) => Beyond(confirmed, to)
    case Swapping(j) => UpgradesBeyond(confirmed, j)
    case Recording(j) => UpgradesBeyond(confirmed, j)
    case Execing(j) => UpgradesBeyond(confirmed, j)
    case Reverting(j) => UpgradesBeyond(confirmed, j)
    case RecordingExecFailure(j) => true
    case Idle => true
    case Failing(_) => true
  }

  ghost predicate History(s: State) {
    && Increasing(s.confirmed)
    && (forall v :: v in Views(s.disk) ==> ViewAbove(s.confirmed, v))
    && (s.proc.Boot? ==> s.disk.current == Rel(s.proc.version))
    && (s.proc.Serving? ==> Above(s.confirmed, s.proc.version) && PhaseAbove(s.confirmed, s.proc.phase))
  }

  lemma VersionOfRel(version: string)
    ensures VersionOf(Rel(version)) == version
  {
  }

  lemma NewerIsBeyond(confirmed: seq<string>, newer: string, version: string)
    requires IsNewer(newer, version) && Above(confirmed, version)
    ensures Beyond(confirmed, newer)
  {
    if confirmed != [] && version != confirmed[|confirmed| - 1] {
      IsNewerTransitive(newer, version, confirmed[|confirmed| - 1]);
    }
  }

  lemma AppendIncreases(confirmed: seq<string>, version: string)
    requires Increasing(confirmed) && Beyond(confirmed, version)
    ensures Increasing(confirmed + [version])
  {
    hide IsNewer;
    var n := |confirmed|;
    forall i | 0 <= i < n ensures IsNewer(version, confirmed[i]) {
      if i < n - 1 {
        IsNewerTransitive(version, confirmed[n - 1], confirmed[i]);
      }
    }
  }

  lemma GuardKeepsHistory(s: State, step: GuardStep, t: State)
    requires History(s) && GuardNext(s, step) == Some(t)
    ensures History(t)
  {
    hide IsNewer, Rel, VersionOf, Above, Beyond;
    assert Present(s.disk) in Views(s.disk);
  }

  lemma BootKeepsHistory(s: State, step: BootStep, t: State)
    requires History(s) && BootNext(s, step) == Some(t) && ConfirmSettles(Booting(step))
    ensures History(t)
  {
    hide IsNewer, Rel, VersionOf, Above, Beyond;
    assert Present(s.disk) in Views(s.disk);
    VersionOfRel(s.proc.version);
    if step.Confirm? {
      ConfirmKeepsHistory(s, step, t);
    }
  }

  /** A version is confirmed on top of strictly older ones, and then nothing a power loss can bring back
      is below it or waits to confirm it again. */
  lemma ConfirmKeepsHistory(s: State, step: BootStep, t: State)
    requires History(s) && step.Confirm? && BootNext(s, step) == Some(t) && !step.effect.LateError?
    ensures History(t)
    ensures t.confirmed == s.confirmed || t.confirmed == s.confirmed + [s.proc.version]
  {
    hide IsNewer, Rel, VersionOf;
    assert Present(s.disk) in Views(s.disk);
    VersionOfRel(s.proc.version);
    if step.effect.Done? {
      AppendIncreases(s.confirmed, s.proc.version);
      assert Views(t.disk) == {Present(t.disk)};
    }
  }

  lemma PrepareKeepsHistory(s: State, step: RunStep, t: State)
    requires History(s) && PrepareNext(s, step) == Some(t)
    ensures History(t)
  {
    hide IsNewer, Rel, VersionOf, Above, Beyond, Increasing;
    assert Views(t.disk) == Views(s.disk);
    if step.Start? {
      NewerIsBeyond(s.confirmed, step.to, s.proc.version);
    }
  }

  lemma CommitKeepsHistory(s: State, step: RunStep, t: State)
    requires History(s) && CommitNext(s, step) == Some(t) && Honest(s, Upgrading(step))
    ensures History(t)
  {
    hide IsNewer, Rel, VersionOf, Increasing;
    assert Present(s.disk) in Views(s.disk);
    if s.proc.phase.Swapping? {
      VersionOfRel(s.proc.phase.journal.toVersion);
    }
  }

  lemma UndoKeepsHistory(s: State, step: RunStep, t: State)
    requires History(s) && UndoNext(s, step) == Some(t)
    ensures History(t)
  {
    hide IsNewer, Rel, VersionOf, Increasing, Above, Beyond;
    assert Present(s.disk) in Views(s.disk);
  }

  lemma RunStepKeepsHistory(s: State, step: RunStep, t: State)
    requires History(s) && RunNext(s, step) == Some(t) && Honest(s, Upgrading(step))
    ensures History(t)
  {
    hide PrepareNext, CommitNext, UndoNext, History;
    if CommitNext(s, step) == Some(t) {
      CommitKeepsHistory(s, step, t);
    } else if UndoNext(s, step) == Some(t) {
      UndoKeepsHistory(s, step, t);
    } else {
      PrepareKeepsHistory(s, step, t);
    }
  }

  lemma SmallStepKeepsHistory(s: State, l: Label, t: State)
    requires History(s) && Next(s, l) == Some(t) && (l.Crash? || l.PowerLoss? || l.Writeback? || l.Launch?)
    requires Honest(s, l)
    ensures History(t)
  {
    hide IsNewer, Rel, VersionOf, HasMain, Increasing, ViewAbove, Survives;
  }

  lemma StepKeepsHistory(s: State, l: Label, t: State)
    requires History(s) && Step(Ordered, s, l) == Some(t)
    ensures History(t)
    decreases l
  {
    hide GuardNext, BootNext, RunNext, Increasing, ViewAbove, PhaseAbove;
    match l
    case Killed(op) =>
      assert Allowed(Ordered, s, op) by { SyncsAreOrdered(s, op); }
      StepKeepsHistory(s, op, Next(s, op).value);
    case Guarding(step) => GuardKeepsHistory(s, step, t);
    case Booting(step) => BootKeepsHistory(s, step, t);
    case Upgrading(step) => RunStepKeepsHistory(s, step, t);
    case _ => SmallStepKeepsHistory(s, l, t);
  }

  lemma SyncsAreOrdered(s: State, op: Label)
    requires SyncingEffect(op).Some? && !IsConfirm(op)
    ensures Allowed(Ordered, s, op)
  {
  }

  lemma {:induction false} RunKeepsHistory(s: State, ls: seq<Label>, t: State)
    requires History(s) && Run(Ordered, s, ls) == Some(t)
    ensures History(t)
  {
    hide Step, History;
    if ls != [] {
      var m := Run(Ordered, s, ls[..|ls| - 1]).value;
      RunKeepsHistory(s, ls[..|ls| - 1], m);
      StepKeepsHistory(m, ls[|ls| - 1], t);
    }
  }

  lemma HistoryIsMonotone(s: State)
    requires History(s)
    ensures Monotone(s)
  {
    hide Increasing, Above;
    assert Present(s.disk) in Views(s.disk);
  }

  /** The versions recorded as confirmed strictly increase over every run, and `current` never names a
      version below the last one confirmed, not even after a power loss. */
  lemma ConfirmationsIncrease(s: State, ls: seq<Label>, t: State)
    requires Initial(s) && Run(Ordered, s, ls) == Some(t)
    ensures forall i, k :: 0 <= i < k < |t.confirmed| ==> IsNewer(t.confirmed[k], t.confirmed[i])
    ensures t.confirmed != [] ==>
              var last, now := t.confirmed[|t.confirmed| - 1], VersionOf(t.disk.current);
              now == last || IsNewer(now, last)
  {
    hide Run, IsNewer;
    RunKeepsHistory(s, ls, t);
    HistoryIsMonotone(t);
  }

  // ----- the condition is exact -----

  lemma UndoneConfirm(s: State, l: Label, t: State) returns (u: State)
    requires Safe(s) && History(s) && Tidy(s) && Next(s, l) == Some(t)
    requires (IsConfirm(l) && l.boot.effect.LateError?) || (l.Killed? && IsConfirm(l.op))
    ensures Reach(Ordered, t, u) && u.proc == Down && u.confirmed == s.confirmed + [VersionOf(s.disk.current)]
    ensures Present(u.disk) == Present(s.disk) && Armed(u.disk) && HasMain(u.disk.dirs, u.disk.current)
    ensures s.disk.current == Rel(VersionOf(s.disk.current))
            && u.disk.journal.value.toVersion == VersionOf(s.disk.current) && Clean(VersionOf(s.disk.current))
  {
    hide Run, IsNewer, Rel, VersionOf, Reach, RunNext, GuardNext, History, Above, Clean, Kept;
    assert s.disk.current == Rel(s.proc.version) by { BootsCurrent(s); }
    VersionOfRel(s.proc.version);
    ReachSelf(Ordered, t);
    assert Present(s.disk) in Views(t.disk) && t.disk.dirs == s.disk.dirs;
    u := Then(Ordered, t, t, PowerLoss(Present(s.disk), t.disk.dirs));
  }

  lemma ConfirmAgain(s: State) returns (u: State)
    requires s.proc == Down && Armed(s.disk) && HasMain(s.disk.dirs, s.disk.current)
    requires s.disk.current == Rel(s.disk.journal.value.toVersion) && Clean(s.disk.journal.value.toVersion)
    ensures Reach(Ordered, s, u) && u.confirmed == s.confirmed + [s.disk.journal.value.toVersion]
  {
    hide Run, IsNewer, Rel, VersionOf, Reach, RunNext, Clean;
    var v := s.disk.journal.value.toVersion;
    ReachSelf(Ordered, s);
    u := Then(Ordered, s, s, Guarding(Begin));
    u := Then(Ordered, s, u, Guarding(StandDown));
    u := Then(Ordered, s, u, Launch(v));
    u := Then(Ordered, s, u, Booting(Confirm(Done, Stamp(0, ""))));
  }

  /** A confirmation that a power loss can undo is made a second time. */
  lemma UnsettledConfirmRepeats(s: State, l: Label, t: State) returns (u: State)
    requires Safe(s) && History(s) && Tidy(s) && Next(s, l) == Some(t)
    requires (IsConfirm(l) && l.boot.effect.LateError?) || (l.Killed? && IsConfirm(l.op))
    ensures Reach(Ordered, t, u) && !Monotone(u)
  {
    hide Run, IsNewer, Rel, VersionOf, Reach, Next, History, Tidy, Above, Safe, HasMain, Clean;
    var m := UndoneConfirm(s, l, t);
    u := ConfirmAgain(m);
    ReachTransitive(Ordered, t, m, u);
    var n, v := |s.confirmed|, VersionOf(s.disk.current);
    assert u.confirmed[n] == u.confirmed[n + 1] == v;
    IsNewerIrreflexive(v);
  }

  lemma BootsCurrent(s: State)
    requires History(s)
    ensures s.proc.Boot? ==> s.disk.current == Rel(s.proc.version)
  {
  }

  /** A confirmation may be recorded this way just when every run of honest binaries that goes on from it
      keeps the history monotone. */
  lemma ConfirmMustSettle(s: State, l: Label, t: State)
    requires Safe(s) && History(s) && Tidy(s) && Next(s, l) == Some(t)
    requires IsConfirm(l) || (l.Killed? && IsConfirm(l.op))
    ensures ConfirmSettles(l) <==> forall u :: Reach(Ordered, t, u) ==> Monotone(u)
  {
    hide Run, Next, History, Tidy, Safe, Monotone;
    if ConfirmSettles(l) {
      StepKeepsHistory(s, l, t);
      forall u | Reach(Ordered, t, u) ensures Monotone(u) {
        var ls :| Run(Ordered, t, ls) == Some(u);
        RunKeepsHistory(t, ls, u);
        HistoryIsMonotone(u);
      }
    } else {
      var u := UnsettledConfirmRepeats(s, l, t);
    }
  }
}
