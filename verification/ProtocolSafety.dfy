/** A start always finds a release that can run: over every run, with failures, crashes and power losses
    anywhere, exactly as long as no upgrade starts over a release a start could still need. */
module ProtocolSafety {
  import opened Wrappers
  import opened JournalFile
  import opened Versions
  import opened Protocol

  /** What these entries need can run. */
  predicate Sound(dirs: map<string, set<string>>, v: View) {
    HasMain(dirs, v.current) && (ArmedView(v) ==> HasMain(dirs, v.journal.value.previous))
  }

  /** `current` can be started; and while a swap is unconfirmed, so can what the guard would revert to. */
  predicate Safe(s: State) { Sound(s.disk.dirs, Present(s.disk)) }

  predicate DiskSound(d: Disk) { forall v :: v in Views(d) ==> Sound(d.dirs, v) }

  predicate PhaseSound(d: Disk, phase: Phase) {
    match phase
    case Idle => true
    case Clearing(to) => !NamedIn(Views(d), Rel(to))
    case Downloading(to) => !NamedIn(Views(d), Rel(to))
    case Unpacking(to) => !NamedIn(Views(d), Rel(to))
    case Staging(to) => HasMain(d.dirs, Rel(to))
    case Failing(to) => true
    case Swapping(j) => HasMain(d.dirs, j.target) && HasMain(d.dirs, j.previous)
    case Recording(j) => HasMain(d.dirs, j.previous)
    case Execing(j) => HasMain(d.dirs, j.previous)
    case Reverting(j) => HasMain(d.dirs, j.previous)
    case RecordingExecFailure(j) => true
  }

  /** Every view has this link and this journal, and no swap is unconfirmed. */
  predicate Agreed(d: Disk) {
    !Armed(d) && forall v :: v in d.past ==> v.current == d.current && v.journal == d.journal
  }

  /** What every run of a careful machine keeps: all a start may come to need can run. */
  predicate Invariant(s: State) {
    && DiskSound(s.disk)
    && (s.proc.Serving? ==> PhaseSound(s.disk, s.proc.phase))
    && (s.proc.Boot? && !s.proc.boot.Reconciling? ==> Agreed(s.disk))
  }

  lemma GuardKeepsInvariant(s: State, step: GuardStep, t: State)
    requires Invariant(s) && GuardNext(s, step) == Some(t)
    ensures Invariant(t)
  {
  }

  lemma BootKeepsInvariant(s: State, step: BootStep, t: State)
    requires Invariant(s) && BootNext(s, step) == Some(t)
    ensures Invariant(t)
  {
    if step.PruneFiles? || step.PruneDir? {
      PruneKeepsInvariant(s, step, t);
    }
  }

  /** Retention removes nothing that any view needs. */
  lemma PruneKeepsInvariant(s: State, step: BootStep, t: State)
    requires Invariant(s) && (step.PruneFiles? || step.PruneDir?) && BootNext(s, step) == Some(t)
    ensures Invariant(t)
  {
    hide HasMain;
    assert Views(t.disk) == Views(s.disk);
    forall v | v in Views(t.disk) ensures Sound(t.disk.dirs, v) {
      assert Sound(s.disk.dirs, v) && v.current == s.disk.current && !ArmedView(v);
      assert step.dir != v.current;
      OtherDirKeepsMain(s.disk.dirs, t.disk.dirs, step.dir, v.current);
    }
  }

  lemma OtherDirKeepsMain(before: map<string, set<string>>, after: map<string, set<string>>, dir: string, path: string)
    requires HasMain(before, path) && path != dir && after - {dir} == before - {dir}
    ensures HasMain(after, path)
  {
    assert path in before - {dir} && (before - {dir})[path] == before[path];
    assert path in after - {dir} && (after - {dir})[path] == after[path];
  }

  /** Clearing, downloading and unpacking change one release directory, which nothing needs. */
  lemma PrepareKeepsInvariant(s: State, step: RunStep, t: State)
    requires Invariant(s) && PrepareNext(s, step) == Some(t)
    requires step.Start? ==> !NamedIn(Views(s.disk), Rel(step.to))
    ensures Invariant(t)
  {
    hide IsNewer, Rel, HasMain;
    assert Views(t.disk) == Views(s.disk);
    if step.RemoveFiles? || step.RemoveDir? || step.Downloaded? || step.Extract? {
      var dir := Rel(s.proc.phase.to);
      forall v | v in Views(t.disk) ensures Sound(t.disk.dirs, v) {
        assert Sound(s.disk.dirs, v) && !Needs(v, dir);
        OtherDirKeepsMain(s.disk.dirs, t.disk.dirs, dir, v.current);
        if ArmedView(v) {
          OtherDirKeepsMain(s.disk.dirs, t.disk.dirs, dir, v.journal.value.previous);
        }
      }
    }
  }

  lemma CommitKeepsInvariant(s: State, step: RunStep, t: State)
    requires Invariant(s) && CommitNext(s, step) == Some(t)
    ensures Invariant(t)
  {
    hide Rel, HasMain;
    assert Present(s.disk) in Views(s.disk);
  }

  lemma UndoKeepsInvariant(s: State, step: RunStep, t: State)
    requires Invariant(s) && UndoNext(s, step) == Some(t)
    ensures Invariant(t)
  {
    hide Rel, HasMain;
    assert Present(s.disk) in Views(s.disk);
  }

  /** A power loss that keeps what it leaves needed. */
  lemma PowerLossKeepsInvariant(s: State, l: Label, t: State)
    requires Invariant(s) && l.PowerLoss? && Next(s, l) == Some(t) && KeepsReleases(s, l)
    ensures Invariant(t)
  {
    assert Sound(s.disk.dirs, l.view);
  }

  lemma RunStepKeepsInvariant(s: State, step: RunStep, t: State)
    requires Invariant(s) && RunNext(s, step) == Some(t) && Allowed(Careful, s, Upgrading(step))
    ensures Invariant(t)
  {
    hide PrepareNext, CommitNext, UndoNext, Invariant, NamedIn;
    if CommitNext(s, step) == Some(t) {
      CommitKeepsInvariant(s, step, t);
    } else if UndoNext(s, step) == Some(t) {
      UndoKeepsInvariant(s, step, t);
    } else {
      PrepareKeepsInvariant(s, step, t);
    }
  }

  lemma SmallStepKeepsInvariant(s: State, l: Label, t: State)
    requires Invariant(s) && Next(s, l) == Some(t) && (l.Writeback? || l.Launch?)
    ensures Invariant(t)
  {
  }

  lemma StepKeepsInvariant(s: State, l: Label, t: State)
    requires Invariant(s) && Step(Careful, s, l) == Some(t)
    ensures Invariant(t)
    decreases l
  {
    hide GuardNext, BootNext, RunNext, IsNewer, NamedIn, KeepsReleases, DiskSound;
    match l
    case Crash =>
    case Killed(op) =>
      assert Allowed(Careful, s, op) by { SyncsAreCareful(s, op); }
      StepKeepsInvariant(s, op, Next(s, op).value);
    case PowerLoss(_, _) => PowerLossKeepsInvariant(s, l, t);
    case Writeback => SmallStepKeepsInvariant(s, l, t);
    case Guarding(step) => GuardKeepsInvariant(s, step, t);
    case Launch(_) => SmallStepKeepsInvariant(s, l, t);
    case Booting(step) => BootKeepsInvariant(s, step, t);
    case Upgrading(step) => RunStepKeepsInvariant(s, step, t);
  }

  lemma SyncsAreCareful(s: State, op: Label)
    requires SyncingEffect(op).Some?
    ensures Allowed(Careful, s, op)
  {
  }

  /** The invariant holds after every run from a state that has it. */
  lemma {:induction false} RunKeepsInvariant(s: State, ls: seq<Label>, t: State)
    requires Invariant(s) && Run(Careful, s, ls) == Some(t)
    ensures Invariant(t)
  {
    hide Step, Invariant;
    if ls != [] {
      var m := Run(Careful, s, ls[..|ls| - 1]).value;
      RunKeepsInvariant(s, ls[..|ls| - 1], m);
      StepKeepsInvariant(m, ls[|ls| - 1], t);
    }
  }

  lemma InitialInvariant(s: State)
    requires Initial(s)
    ensures Invariant(s)
  {
    assert Views(s.disk) == {Present(s.disk)};
  }

  lemma InvariantIsSafe(s: State)
    requires Invariant(s)
    ensures Safe(s)
  {
    assert Present(s.disk) in Views(s.disk);
  }

  /** Safety over whole runs: `current` always names a release directory that holds the main binary,
      and so does the release to revert to while a swap is unconfirmed; after every power loss too. */
  lemma Safety(s: State, ls: seq<Label>, t: State)
    requires Initial(s) && Run(Careful, s, ls) == Some(t)
    ensures Safe(t)
  {
    hide Run, Initial, Invariant;
    InitialInvariant(s);
    RunKeepsInvariant(s, ls, t);
    InvariantIsSafe(t);
  }

  // ----- the condition is exact -----

  /** An upgrade over a release that some view needs clears it, and a power loss brings that view back. */
  lemma StartOverIsUnsafe(regime: Regime, s: State, to: string, t: State) returns (u: State)
    requires regime.Careful? || regime.Tolerant?
    requires Invariant(s) && Next(s, Upgrading(Start(to))) == Some(t) && NamedIn(Views(s.disk), Rel(to))
    ensures Reach(regime, t, u) && !Safe(u)
  {
    hide Run, IsNewer, Rel, VersionOf, Reach, CommitNext, UndoNext;
    var view :| view in Views(s.disk) && Needs(view, Rel(to));
    assert Sound(s.disk.dirs, view);
    ReachSelf(regime, t);
    u := Then(regime, t, t, Upgrading(RemoveFiles({})));
    assert u.disk.past == s.disk.past && Present(u.disk) == Present(s.disk);
    u := Then(regime, t, u, PowerLoss(view, u.disk.dirs));
  }

  /** The careful regime is exact. Of the steps that bring single lines into play, one may be taken just
      when everything that can follow it is safe: the one check that decides is whether a release that a
      start could need is about to be cleared. */
  lemma CarefulIsExact(s: State, l: Label, t: State)
    requires Invariant(s) && Next(s, l) == Some(t) && !l.PowerLoss?
    ensures Allowed(Careful, s, l) <==> NamesClean(l) && forall u :: Reach(Careful, t, u) ==> Safe(u)
  {
    hide Run, IsNewer, Rel, VersionOf, Next, Invariant, Safe, NamedIn, Views, Clean;
    if Allowed(Careful, s, l) {
      StepKeepsInvariant(s, l, t);
      forall u | Reach(Careful, t, u) ensures Safe(u) {
        var ls :| Run(Careful, t, ls) == Some(u);
        RunKeepsInvariant(t, ls, u);
        InvariantIsSafe(u);
      }
    } else if NamesClean(l) {
      var u := StartOverIsUnsafe(Careful, s, l.run.to, t);
    }
  }

  // ----- release directories and power losses -----

  /** What a power loss spares: entries whose releases are synced. It spares whatever it brings back,
      come what may, exactly when no view needs a release directory whose entry is not synced. */
  lemma PowerLossSparesExactly(d: Disk)
    requires DiskSound(d)
    ensures (forall v, dirs :: v in Views(d) && Survives(d, dirs) ==> Sound(dirs, v)) <==>
            (forall path :: path in d.loose ==> !NamedIn(Views(d), path))
  {
    if path :| path in d.loose && NamedIn(Views(d), path) {
      var v :| v in Views(d) && Needs(v, path);
      var dirs := d.dirs - {path};
      assert Survives(d, dirs) && !HasMain(dirs, path);
      assert !Sound(dirs, v);
    } else {
      forall v, dirs | v in Views(d) && Survives(d, dirs) ensures Sound(dirs, v) {
        assert Sound(d.dirs, v) && Needs(v, v.current);
        if ArmedView(v) {
          assert Needs(v, v.journal.value.previous);
        }
      }
    }
  }

  /** So where no view needs such a release, a power loss keeps what it leaves needed. */
  lemma SyncedReleasesAreKept(s: State, l: Label)
    requires Invariant(s) && l.PowerLoss? && Next(s, l).Some?
    requires forall path :: path in s.disk.loose ==> !NamedIn(Views(s.disk), path)
    ensures KeepsReleases(s, l) && Safe(Next(s, l).value)
  {
    var v := l.view;
    assert Sound(s.disk.dirs, v) && Needs(v, v.current) && NamedIn(Views(s.disk), v.current);
    if ArmedView(v) {
      assert Needs(v, v.journal.value.previous) && NamedIn(Views(s.disk), v.journal.value.previous);
    }
  }

  /** Of `current` alone: it survives every power loss exactly when no view of the link names a release
      whose entry is not synced. */
  lemma CurrentSurvivesExactly(d: Disk)
    requires DiskSound(d)
    ensures (forall v, dirs :: v in Views(d) && Survives(d, dirs) ==> HasMain(dirs, v.current)) <==>
            (forall v :: v in Views(d) ==> v.current !in d.loose)
  {
    if v :| v in Views(d) && v.current in d.loose {
      var dirs := d.dirs - {v.current};
      assert Survives(d, dirs) && !HasMain(dirs, v.current);
    } else {
      forall v, dirs | v in Views(d) && Survives(d, dirs) ensures HasMain(dirs, v.current) {
        assert Sound(d.dirs, v);
      }
    }
  }
}
