/** What the code does not do, shown by runs in which every file operation succeeds: the counter the guard
    counts with is inherited, and a new release's directory entry is not synced. */
module ProtocolFaults {
  import opened Wrappers
  import opened JournalFile
  import opened Versions
  import opened Protocol
  import opened ProtocolSafety
  import opened ProtocolChecks
  import opened ProtocolLoop
  import opened ProtocolProgress

  // ----- a release that was not synced -----

  /** From every fresh install and for every newer version, without a single failing operation, an upgrade
      reaches a recorded, settled swap to a release whose own entry a power loss can take away; then
      `current` names nothing that can run. */
  lemma UpgradeCanLoseItsRelease(s: State, version: string, to: string) returns (swapped: State, lost: State)
    requires Initial(s) && s.disk.current == Rel(version) && IsNewer(to, version) && Clean(to)
    ensures Reach(Reliable, s, swapped) && Safe(swapped) && swapped.disk.past == {}
    ensures swapped.disk.current == Rel(to) && swapped.disk.journal == Some(SwappedJournal(version, to))
    ensures Next(swapped, PowerLoss(Present(swapped.disk), swapped.disk.dirs - {Rel(to)})) == Some(lost)
    ensures lost.disk.current == Rel(to) && lost.disk.journal == swapped.disk.journal
            && !HasMain(lost.disk.dirs, Rel(to))
  {
    hide Run, IsNewer, Rel, VersionOf, Clean, Reach, Resting, Initial;
    var m := FirstBoot(s, version);
    swapped := SwapFrom(m, version, to);
    ReachTransitive(Reliable, s, m, swapped);
    lost := State(AfterPowerLoss(Present(swapped.disk), swapped.disk.dirs - {Rel(to)}), Down, swapped.confirmed);
  }

  // ----- the counter is inherited -----

  /** An `exec` that fails, and a crash before that is on record. */
  lemma FailExecAndCrash(s: State, version: string, to: string) returns (t: State)
    requires s.proc == Serving(version, Execing(SwappedJournal(version, to)))
    ensures Reach(Reliable, s, t)
    ensures t == State(s.disk.(current := Rel(version), past := {}), Down, s.confirmed)
  {
    hide Run, IsNewer, Rel, VersionOf, Clean, Reach, GuardNext, BootNext, PrepareNext, NamedIn;
    ReachSelf(Reliable, s);
    t := Then(Reliable, s, s, Upgrading(ExecFails));
    t := Then(Reliable, s, t, Upgrading(SwapBack(Done)));
    t := Then(Reliable, s, t, Crash);
  }

  /** The old version comes back, finds a swap that is not its own, and marks it failed without clearing
      the counter. */
  lemma ComeBackAndFail(s: State, version: string, to: string) returns (t: State)
    requires s.proc == Down && s.disk.journal == Some(SwappedJournal(version, to)) && to != version && Clean(version)
    requires s.disk.current == Rel(version) && HasMain(s.disk.dirs, Rel(version))
             && s.disk.attempts + 1 < MAX_BOOT_ATTEMPTS
    ensures Reach(Reliable, s, t) && Resting(t, version) && t.disk.attempts == s.disk.attempts + 1
  {
    hide Run, IsNewer, Rel, VersionOf, Clean, Reach, RunNext, NamedIn;
    ReachSelf(Reliable, s);
    t := Then(Reliable, s, s, Guarding(Begin));
    t := Then(Reliable, s, t, Guarding(Count(Done)));
    t := Then(Reliable, s, t, Launch(version));
    t := Then(Reliable, s, t, Booting(Mismatch(Done, QUIET)));
  }

  lemma FailedRound(s: State, version: string, to: string) returns (t: State)
    requires Resting(s, version) && IsNewer(to, version) && Clean(to) && Clean(version)
    requires s.disk.attempts + 1 < MAX_BOOT_ATTEMPTS
    ensures Reach(Reliable, s, t) && Resting(t, version) && t.disk.attempts == s.disk.attempts + 1
  {
    hide Run, IsNewer, Rel, VersionOf, Clean, Reach, Resting;
    IsNewerIrreflexive(version);
    var m := SwapFrom(s, version, to);
    var down := FailExecAndCrash(m, version, to);
    ReachTransitive(Reliable, s, m, down);
    t := ComeBackAndFail(down, version, to);
    ReachTransitive(Reliable, s, down, t);
  }

  /** The counter is documented as the starts since the swap, three of which a release gets. It is
      not: from any fresh install and for any newer version, a run in which every file operation
      succeeds reaches a swap with the counter already at two, and one crash later the guard reverts a
      release that was never once started by the service manager. The number of starts a release
      really gets is in `CrashLoopBound`. */
  lemma SwapInheritsCounter(s: State, version: string, to: string) returns (swapped: State, reverted: State)
    requires Initial(s) && s.disk.current == Rel(version) && IsNewer(to, version) && Clean(to)
    ensures Reach(Reliable, s, swapped)
    ensures swapped.proc == Serving(version, Execing(SwappedJournal(version, to)))
    ensures swapped.disk.attempts == MAX_BOOT_ATTEMPTS - 1
    ensures Run(Reliable, swapped, [Upgrading(Exec(to)), Crash] + REVERTING_PASS) == Some(reverted)
    ensures reverted.proc == Ready && RolledBackTo(reverted.disk, Rel(version))
  {
    hide Run, IsNewer, Rel, VersionOf, Clean, Reach, Resting, Initial, REVERTING_PASS;
    var a := FirstBoot(s, version);
    var b := FailedRound(a, version, to);
    ReachTransitive(Reliable, s, a, b);
    var c := FailedRound(b, version, to);
    ReachTransitive(Reliable, s, b, c);
    swapped := SwapFrom(c, version, to);
    ReachTransitive(Reliable, s, c, swapped);
    var crashed := ExecAndCrash(swapped, to);
    reverted := PassReverts(crashed);
    RunAppend(Reliable, swapped, [Upgrading(Exec(to)), Crash], REVERTING_PASS);
  }

  lemma ExecAndCrash(s: State, to: string) returns (t: State)
    requires s.proc.Serving? && s.proc.phase.Execing? && Clean(to)
    requires s.disk.current == Rel(to) && HasMain(s.disk.dirs, Rel(to))
    ensures Run(Reliable, s, [Upgrading(Exec(to)), Crash]) == Some(t) && t == s.(proc := Down)
  {
    hide Run, IsNewer, Rel, VersionOf, Clean;
    var m := s.(proc := Boot(to, Reconciling));
    t := s.(proc := Down);
    assert Run(Reliable, s, []) == Some(s) by { RunNothing(Reliable, s); }
    RunSnoc(Reliable, s, [], Upgrading(Exec(to)));
    assert [] + [Upgrading(Exec(to))] == [Upgrading(Exec(to))];
    RunSnoc(Reliable, s, [Upgrading(Exec(to))], Crash);
    assert [Upgrading(Exec(to))] + [Crash] == [Upgrading(Exec(to)), Crash];
  }
}
