/** The check the code makes before an upgrade, that the version is newer than the running one, is enough
    to never start over a release a start could need, exactly as long as no failure strands an upgrade,
    no binary reports an older version, and no unsynced older view needs the release. */
module ProtocolChecks {
  import opened Wrappers
  import opened JournalFile
  import opened Versions
  import opened Protocol
  import opened ProtocolNames
  import opened ProtocolSafety

  predicate IsRelease(path: string) { path == Rel(VersionOf(path)) }

  ghost predicate NoNewer(path: string, version: string) { !IsNewer(VersionOf(path), version) }

  /** Links name releases; and an unconfirmed swap is between two, the previous one not above the target. */
  ghost predicate InOrder(v: View) {
    && IsRelease(v.current)
    && (ArmedView(v) ==>
          var j := v.journal.value;
          && IsRelease(j.previous) && IsRelease(j.target) && (v.current == j.previous || v.current == j.target)
          && Below(VersionOf(j.previous), VersionOf(j.target)))
  }

  ghost predicate DiskInOrder(d: Disk) { forall v :: v in Views(d) ==> InOrder(v) }

  /** The journal of an upgrade from a process of this version. */
  ghost predicate Upgrades(j: Journal, version: string) {
    IsRelease(j.previous) && j.target == Rel(j.toVersion) && IsNewer(j.toVersion, version)
        && NoNewer(j.previous, version)
  }

  ghost predicate PhaseInOrder(d: Disk, version: string, phase: Phase) {
    match phase
    case Idle => NoNewer(d.current, version)
    case Failing(_) => NoNewer(d.current, version)
    case Clearing(to) => NoNewer(d.current, version) && IsNewer(to, version)
    case Downloading(to) => NoNewer(d.current, version) && IsNewer(to, version)
    case Unpacking(to) => NoNewer(d.current, version) && IsNewer(to, version)
    case Staging(to) => NoNewer(d.current, version) && IsNewer(to, version)
    case Swapping(j) => Upgrades(j, version) && d.current == j.previous && d.journal == Some(j) && j.state == Staged
    case Recording(j) => Upgrades(j, version) && d.current == j.target && d.journal == Some(j) && j.state == Staged
    case Execing(j) => Upgrades(j, version) && d.current == j.target && d.journal == Some(j) && j.state == Swapped
    case Reverting(j) => Upgrades(j, version) && d.current == j.target && d.journal == Some(j) && j.state == Swapped
    case RecordingExecFailure(j) => Upgrades(j, version) && d.current == j.previous
  }

  ghost predicate ProcInOrder(s: State) {
    && (s.proc.Serving? ==> PhaseInOrder(s.disk, s.proc.version, s.proc.phase))
    && (s.proc.Boot? ==> NoNewer(s.disk.current, s.proc.version))
  }

  ghost predicate Order(s: State) { DiskInOrder(s.disk) && ProcInOrder(s) }

  lemma RelIsRelease(version: string)
    ensures IsRelease(Rel(version)) && VersionOf(Rel(version)) == version
  {
  }

  // ----- one step -----

  lemma GuardKeepsOrder(s: State, step: GuardStep, t: State)
    requires Order(s) && GuardNext(s, step) == Some(t)
    ensures Order(t)
  {
    hide IsNewer, Rel, VersionOf, Below;
    assert Present(s.disk) in Views(s.disk);
  }

  lemma BootKeepsOrder(s: State, step: BootStep, t: State)
    requires Order(s) && BootNext(s, step) == Some(t)
    ensures Order(t)
  {
    hide IsNewer, Rel, VersionOf, Below;
    assert Present(s.disk) in Views(s.disk);
  }

  lemma PrepareKeepsOrder(s: State, step: RunStep, t: State)
    requires Order(s) && PrepareNext(s, step) == Some(t)
    ensures Order(t)
  {
    hide IsNewer, Rel, VersionOf, Below;
    assert Views(t.disk) == Views(s.disk);
  }

  /** What is on disk stays in order even when an upgrade is stranded. */
  lemma CommitKeepsOrder(s: State, step: RunStep, t: State)
    requires Order(s) && CommitNext(s, step) == Some(t)
    ensures DiskInOrder(t.disk)
    ensures Allowed(Tolerant, s, Upgrading(step)) ==> Order(t)
  {
    hide IsNewer, Rel, VersionOf, Below;
    var v, phase := s.proc.version, s.proc.phase;
    assert Present(s.disk) in Views(s.disk);
    if phase.Staging? {
      RelIsRelease(phase.to);
    } else if phase.Swapping? || phase.Recording? {
      RelIsRelease(phase.journal.toVersion);
      BelowWhatIsNewer(VersionOf(phase.journal.previous), v, phase.journal.toVersion);
    }
  }

  lemma UndoKeepsOrder(s: State, step: RunStep, t: State)
    requires Order(s) && UndoNext(s, step) == Some(t)
    ensures DiskInOrder(t.disk)
    ensures Allowed(Tolerant, s, Upgrading(step)) ==> Order(t)
  {
    hide IsNewer, Rel, VersionOf, Below;
    assert Present(s.disk) in Views(s.disk);
  }

  lemma RunStepKeepsOrder(s: State, step: RunStep, t: State)
    requires Order(s) && RunNext(s, step) == Some(t)
    ensures DiskInOrder(t.disk)
    ensures Allowed(Tolerant, s, Upgrading(step)) ==> Order(t)
  {
    hide IsNewer, Rel, VersionOf, Below, PrepareNext, CommitNext, UndoNext, Allowed, DiskInOrder, ProcInOrder;
    if CommitNext(s, step) == Some(t) {
      CommitKeepsOrder(s, step, t);
    } else if UndoNext(s, step) == Some(t) {
      UndoKeepsOrder(s, step, t);
    } else {
      PrepareKeepsOrder(s, step, t);
    }
  }

  lemma SmallStepKeepsOrder(s: State, l: Label, t: State)
    requires Order(s) && Next(s, l) == Some(t) && (l.Crash? || l.PowerLoss? || l.Writeback? || l.Launch?)
    ensures NotOlder(s, l) ==> Order(t)
  {
    hide IsNewer, Rel, VersionOf, Below, HasMain;
  }

  lemma StepKeepsOrder(s: State, l: Label, t: State)
    requires Order(s) && Step(Tolerant, s, l) == Some(t)
    ensures Order(t)
  {
    hide GuardNext, BootNext, RunNext, IsNewer, DiskInOrder, ProcInOrder;
    match l
    case Killed(op) =>
      StopKeepsOrder(s, op, Next(s, op).value, t);
    case Guarding(step) => GuardKeepsOrder(s, step, t);
    case Booting(step) => BootKeepsOrder(s, step, t);
    case Upgrading(step) => RunStepKeepsOrder(s, step, t);
    case _ => SmallStepKeepsOrder(s, l, t);
  }

  /** Inside an operation, whatever it is, the process may stop. */
  lemma StopKeepsOrder(s: State, op: Label, m: State, t: State)
    requires Order(s) && SyncingEffect(op).Some? && Next(s, op) == Some(m) && t == m.(proc := Down)
    ensures Order(t)
  {
    hide GuardNext, BootNext, RunNext, IsNewer, DiskInOrder;
    match op
    case Guarding(step) => GuardKeepsOrder(s, step, m);
    case Booting(step) => BootKeepsOrder(s, step, m);
    case Upgrading(step) => RunStepKeepsOrder(s, step, m);
  }

  // ----- the check is enough -----

  /** While a process serves, no newer version than its own is the present link or, with a swap
      unconfirmed, what the guard would revert to. */
  lemma PresentNeedsNothingNewer(s: State, to: string)
    requires Order(s) && s.proc.Serving? && s.proc.phase == Idle && IsNewer(to, s.proc.version)
    ensures !Needs(Present(s.disk), Rel(to))
  {
    hide IsNewer, Rel, VersionOf, Below;
    RelIsRelease(to);
    var v := Present(s.disk);
    assert v in Views(s.disk);
    if ArmedView(v) {
      var j := v.journal.value;
      BelowMeans(VersionOf(j.previous), VersionOf(j.target), s.proc.version);
    }
  }

  /** A tolerant step is a careful one. */
  lemma TolerantIsCareful(s: State, l: Label)
    requires Order(s) && Step(Tolerant, s, l).Some?
    ensures Allowed(Careful, s, l)
  {
    hide GuardNext, BootNext, CommitNext, UndoNext, IsNewer, DiskInOrder, PhaseInOrder, Needs, KeepsReleases, Rel;
    if l.Upgrading? && l.run.Start? {
      PresentNeedsNothingNewer(s, l.run.to);
    }
  }

  lemma {:induction false} TolerantRunIsCareful(s: State, ls: seq<Label>, t: State)
    requires Order(s) && Run(Tolerant, s, ls) == Some(t)
    ensures Order(t) && Run(Careful, s, ls) == Some(t)
  {
    hide Next, Order, Allowed;
    if ls != [] {
      var m := Run(Tolerant, s, ls[..|ls| - 1]).value;
      TolerantRunIsCareful(s, ls[..|ls| - 1], m);
      TolerantIsCareful(m, ls[|ls| - 1]);
      StepKeepsOrder(m, ls[|ls| - 1], t);
    }
  }

  lemma InitialOrder(s: State)
    requires Initial(s)
    ensures Order(s)
  {
    hide Rel, VersionOf;
    assert Views(s.disk) == {Present(s.disk)};
  }

  /** The code as it is, with its own check, is safe over every tolerant run. */
  lemma TolerantSafety(s: State, ls: seq<Label>, t: State)
    requires Initial(s) && Run(Tolerant, s, ls) == Some(t)
    ensures Safe(t)
  {
    hide Run, Initial, Order, Safe;
    InitialOrder(s);
    TolerantRunIsCareful(s, ls, t);
    Safety(s, ls, t);
  }

  // ----- and not otherwise -----

  /** The process serves, with a free live slot, and `current` names a release newer than itself. */
  ghost predicate Stranded(s: State) {
    && s.proc.Serving? && Clean(s.disk.current) && s.proc.phase == Idle && IsRelease(s.disk.current)
    && IsNewer(VersionOf(s.disk.current), s.proc.version) && HasMain(s.disk.dirs, s.disk.current)
  }

  /** Asking again for the version that is already current clears the release `current` names. */
  lemma RetryClearsCurrent(s: State) returns (u: State)
    requires Stranded(s)
    ensures Reach(Tolerant, s, u) && !Safe(u)
  {
    hide Run, IsNewer, Rel, VersionOf, Reach, Clean;
    ReachSelf(Tolerant, s);
    var to := VersionOf(s.disk.current);
    CleanNames(to);
    u := Then(Tolerant, s, s, Writeback);
    u := Then(Tolerant, s, u, Upgrading(Start(to)));
    u := Then(Tolerant, s, u, Upgrading(RemoveFiles({})));
  }

  lemma StrandedFailure(s: State, step: RunStep, t: State) returns (u: State)
    requires Invariant(s) && Order(s) && Tidy(s)
    requires Next(s, Upgrading(step)) == Some(t) && Strands(Upgrading(step))
    ensures Reach(Tolerant, t, u) && Stranded(u)
  {
    hide Run, IsNewer, Rel, VersionOf, Reach, PrepareNext, Clean, Kept;
    var j := s.proc.phase.journal;
    PreviousIsClean(j);
    RelIsRelease(j.toVersion);
    assert HasMain(t.disk.dirs, j.target) by {
      assert Present(s.disk) in Views(s.disk);
    }
    ReachSelf(Tolerant, t);
    u := Then(Tolerant, t, t, Upgrading(RecordFailure(Done, Stamp(0, ""))));
  }

  lemma StartedBelow(s: State, l: Label, t: State)
    requires Invariant(s) && Order(s) && Tidy(s) && Next(s, l) == Some(t) && !NotOlder(s, l)
    ensures t.disk == s.disk && t.proc == Boot(Reported(l), Reconciling)
    ensures IsRelease(t.disk.current) && HasMain(t.disk.dirs, t.disk.current) && Clean(t.disk.current)
  {
    hide IsNewer, Rel, VersionOf, PrepareNext, UndoNext, NamedIn, Clean, Kept;
    assert Present(s.disk) in Views(s.disk);
  }

  lemma OlderReportStrands(s: State, l: Label, t: State) returns (u: State)
    requires Invariant(s) && Order(s) && Tidy(s) && Next(s, l) == Some(t) && !NotOlder(s, l)
    ensures Reach(Tolerant, t, u) && Stranded(u)
  {
    hide Run, IsNewer, Rel, VersionOf, Reach, RunNext, GuardNext, Invariant, Order, Tidy, NamedIn, HasMain, Clean;
    StartedBelow(s, l, t);
    hide Next;
    ReachSelf(Tolerant, t);
    assert Step(Tolerant, t, Booting(Unread)) == Some(t.(proc := Serving(Reported(l), Idle))) by { UnreadServes(t); }
    u := Then(Tolerant, t, t, Booting(Unread));
  }

  lemma UnreadServes(t: State)
    requires t.proc.Boot? && t.proc.boot == Reconciling
    ensures Step(Tolerant, t, Booting(Unread)) == Some(t.(proc := Serving(t.proc.version, Idle)))
  {
    hide RunNext, GuardNext, NamedIn, HasMain, IsNewer;
  }

  /** Each of the three conditions is needed wherever it is broken. */
  lemma ExcludedStepsAreUnsafe(s: State, l: Label, t: State) returns (u: State)
    requires Invariant(s) && Order(s) && Tidy(s)
    requires Next(s, l) == Some(t) && !l.PowerLoss? && !Permits(Tolerant, s, l)
    ensures Reach(Tolerant, t, u) && !Safe(u)
  {
    hide Run, IsNewer, Rel, VersionOf, Reach, Next, Invariant, Order, Tidy, Stranded, Safe, Views, NamedIn;
    if StartsOver(s.disk.past, l) {
      assert NamedIn(Views(s.disk), Rel(l.run.to)) by { PastIsAView(s.disk, Rel(l.run.to)); }
      u := StartOverIsUnsafe(Tolerant, s, l.run.to, t);
    } else {
      var m;
      if Strands(l) {
        m := StrandedFailure(s, l.run, t);
      } else {
        m := OlderReportStrands(s, l, t);
      }
      u := RetryClearsCurrent(m);
      ReachTransitive(Tolerant, t, m, u);
    }
  }

  lemma PastIsAView(d: Disk, path: string)
    requires NamedIn(d.past, path)
    ensures NamedIn(Views(d), path)
  {
  }

  /** The tolerant regime is exact: of the code with its own check, a step that brings single lines into
      play may be taken just when everything that can follow it is safe. */
  lemma TolerantIsExact(s: State, l: Label, t: State)
    requires Invariant(s) && Order(s) && Tidy(s) && Next(s, l) == Some(t) && !l.PowerLoss?
    ensures Allowed(Tolerant, s, l) <==> NamesClean(l) && forall u :: Reach(Tolerant, t, u) ==> Safe(u)
  {
    hide Run, Next, Invariant, Order, Tidy, Safe, Permits, NamesClean;
    if Allowed(Tolerant, s, l) {
      TolerantIsCareful(s, l);
      StepKeepsInvariant(s, l, t);
      StepKeepsOrder(s, l, t);
      forall u | Reach(Tolerant, t, u) ensures Safe(u) {
        var ls :| Run(Tolerant, t, ls) == Some(u);
        TolerantRunIsCareful(t, ls, u);
        RunKeepsInvariant(t, ls, u);
        InvariantIsSafe(u);
      }
    } else if NamesClean(l) {
      var u := ExcludedStepsAreUnsafe(s, l, t);
    }
  }
}
