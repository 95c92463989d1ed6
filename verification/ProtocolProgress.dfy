/** What the protocol can do: from every fresh install an upgrade to any newer version can go all the
    way through. */
module ProtocolProgress {
  import opened Wrappers
  import opened JournalFile
  import opened Versions
  import opened Protocol
  import opened ProtocolSafety
  import opened ProtocolChecks
  import opened ProtocolLoop

  /** The process serves `version` from `current`, with a free live slot. */
  predicate Resting(s: State, version: string) {
    s.proc == Serving(version, Idle) && s.disk.current == Rel(version) && HasMain(s.disk.dirs, s.disk.current)
  }

  lemma FirstBoot(s: State, version: string) returns (t: State)
    requires Initial(s) && s.disk.current == Rel(version)
    ensures Reach(Reliable, s, t) && Resting(t, version) && t.disk.attempts == 0 && Clean(version)
  {
    hide Run, IsNewer, Rel, VersionOf, Reach, RunNext, NamedIn, Clean;
    CleanNames(version);
    ReachSelf(Reliable, s);
    t := Then(Reliable, s, s, Guarding(Begin));
    t := Then(Reliable, s, t, Guarding(Reset(Done)));
    t := Then(Reliable, s, t, Launch(version));
    t := Then(Reliable, s, t, Booting(Skip));
  }

  lemma Clear(s: State, version: string, to: string) returns (t: State)
    requires Resting(s, version) && IsNewer(to, version) && Clean(to)
    ensures Reach(Reliable, s, t) && t.proc == Serving(version, Downloading(to))
    ensures t.disk == s.disk.(dirs := s.disk.dirs - {Rel(to)}) && t.confirmed == s.confirmed
  {
    hide Run, IsNewer, Rel, VersionOf, Clean, Reach, GuardNext, BootNext, CommitNext, UndoNext, NamedIn;
    ReachSelf(Reliable, s);
    t := Then(Reliable, s, s, Upgrading(Start(to)));
    t := Then(Reliable, s, t, Upgrading(RemoveDir));
    t := Then(Reliable, s, t, Upgrading(Cleared));
  }

  lemma Install(s: State, version: string, to: string) returns (t: State)
    requires s.proc == Serving(version, Downloading(to)) && Rel(to) !in s.disk.dirs
    ensures Reach(Reliable, s, t) && t.proc == Serving(version, Staging(to)) && t.confirmed == s.confirmed
    ensures t.disk == s.disk.(dirs := t.disk.dirs, loose := s.disk.loose + {Rel(to)})
    ensures HasMain(t.disk.dirs, Rel(to)) && t.disk.dirs - {Rel(to)} == s.disk.dirs - {Rel(to)}
  {
    hide Run, IsNewer, Rel, VersionOf, Clean, Reach, GuardNext, BootNext, CommitNext, UndoNext, NamedIn, Survives;
    ReachSelf(Reliable, s);
    t := Then(Reliable, s, s, Upgrading(Downloaded));
    t := Then(Reliable, s, t, Upgrading(Extract(MAIN_BINARY)));
    t := Then(Reliable, s, t, Upgrading(Unpacked));
  }

  lemma Prepare(s: State, version: string, to: string) returns (t: State)
    requires Resting(s, version) && IsNewer(to, version) && Clean(to)
    ensures Reach(Reliable, s, t) && t.proc == Serving(version, Staging(to)) && t.confirmed == s.confirmed
    ensures t.disk == s.disk.(dirs := t.disk.dirs, loose := s.disk.loose + {Rel(to)})
    ensures HasMain(t.disk.dirs, Rel(version)) && HasMain(t.disk.dirs, Rel(to))
  {
    hide Run, IsNewer, Rel, VersionOf, Clean, Reach, HasMain;
    RelIsRelease(to);
    RelIsRelease(version);
    IsNewerIrreflexive(version);
    var m := Clear(s, version, to);
    t := Install(m, version, to);
    ReachTransitive(Reliable, s, m, t);
    OtherDirKeepsMain(s.disk.dirs, m.disk.dirs, Rel(to), Rel(version));
    OtherDirKeepsMain(m.disk.dirs, t.disk.dirs, Rel(to), Rel(version));
  }

  function SwappedJournal(version: string, to: string): Journal {
    Journal(Swapped, version, to, Rel(version), Rel(to), 0, "")
  }

  lemma CommitUpgrade(s: State, version: string, to: string) returns (t: State)
    requires s.proc == Serving(version, Staging(to)) && s.disk.current == Rel(version)
    ensures Reach(Reliable, s, t) && t.confirmed == s.confirmed
    ensures t.disk == s.disk.(current := Rel(to), journal := Some(SwappedJournal(version, to)), past := {})
    ensures t.proc == Serving(version, Execing(t.disk.journal.value))
  {
    hide Run, IsNewer, Rel, VersionOf, Clean, Reach, GuardNext, BootNext, PrepareNext, UndoNext, NamedIn;
    ReachSelf(Reliable, s);
    t := Then(Reliable, s, s, Upgrading(Stage(Done, QUIET)));
    t := Then(Reliable, s, t, Upgrading(Swap(Done)));
    t := Then(Reliable, s, t, Upgrading(RecordSwap(Done, QUIET)));
  }

  /** A swap to a newer version, on record and settled. Its release directory is new: its entry is not. */
  lemma SwapFrom(s: State, version: string, to: string) returns (t: State)
    requires Resting(s, version) && IsNewer(to, version) && Clean(to)
    ensures Reach(Reliable, s, t) && t.disk.attempts == s.disk.attempts && t.confirmed == s.confirmed
    ensures t.disk.journal == Some(SwappedJournal(version, to)) && t.disk.past == {}
    ensures t.proc == Serving(version, Execing(t.disk.journal.value)) && t.disk.current == Rel(to)
    ensures HasMain(t.disk.dirs, Rel(version)) && HasMain(t.disk.dirs, Rel(to)) && Rel(to) in t.disk.loose
  {
    hide Run, IsNewer, Rel, VersionOf, Clean, Reach, HasMain;
    var m := Prepare(s, version, to);
    t := CommitUpgrade(m, version, to);
    ReachTransitive(Reliable, s, m, t);
  }

  /** The new release starts, recognises the swap as its own, confirms it and clears the counter. */
  lemma ConfirmSwap(s: State, version: string, to: string) returns (t: State)
    requires s.proc == Boot(to, Reconciling) && s.disk.journal == Some(SwappedJournal(version, to))
    requires s.disk.current == Rel(to) && HasMain(s.disk.dirs, Rel(to))
    ensures Reach(Reliable, s, t) && Resting(t, to)
    ensures t.confirmed == s.confirmed + [to] && t.disk.attempts == 0
    ensures t.disk.journal == Some(SwappedJournal(version, to).(state := Confirmed))
  {
    hide Run, IsNewer, Rel, VersionOf, Clean, Reach, GuardNext, RunNext, NamedIn;
    ReachSelf(Reliable, s);
    t := Then(Reliable, s, s, Booting(Confirm(Done, QUIET)));
    t := Then(Reliable, s, t, Booting(ClearCounter(Done)));
    t := Then(Reliable, s, t, Booting(Serve));
  }

  lemma ExecSwap(s: State, version: string, to: string) returns (t: State)
    requires s.proc == Serving(version, Execing(SwappedJournal(version, to)))
    requires s.disk.current == Rel(to) && HasMain(s.disk.dirs, Rel(to)) && Clean(to)
    ensures Reach(Reliable, s, t) && t == s.(proc := Boot(to, Reconciling))
  {
    hide Run, IsNewer, Rel, VersionOf, Clean, Reach, GuardNext, BootNext, PrepareNext, UndoNext, NamedIn;
    ReachSelf(Reliable, s);
    t := Then(Reliable, s, s, Upgrading(Exec(to)));
  }

  /** From wherever a version is serving, any newer one can be reached, confirmed, with the counter
      cleared; and that is again a state an upgrade can start from. */
  lemma UpgradeCanComplete(s: State, version: string, to: string) returns (t: State)
    requires Resting(s, version) && IsNewer(to, version) && Clean(to)
    ensures Reach(Reliable, s, t) && Resting(t, to)
    ensures t.disk.attempts == 0 && t.disk.journal == Some(SwappedJournal(version, to).(state := Confirmed))
    ensures |t.confirmed| > 0 && t.confirmed[|t.confirmed| - 1] == to
  {
    hide Run, IsNewer, Rel, VersionOf, Clean, Reach, Resting;
    var m := SwapFrom(s, version, to);
    var started := ExecSwap(m, version, to);
    ReachTransitive(Reliable, s, m, started);
    t := ConfirmSwap(started, version, to);
    ReachTransitive(Reliable, s, started, t);
  }

  /** In particular a fresh install, first started as it was installed, can be upgraded. */
  lemma FreshInstallCanUpgrade(s: State, version: string, to: string) returns (t: State)
    requires Initial(s) && s.disk.current == Rel(version) && IsNewer(to, version) && Clean(to)
    ensures Reach(Reliable, s, t) && Resting(t, to) && t.disk.attempts == 0
    ensures t.disk.journal.Some? && t.disk.journal.value.state == Confirmed && t.disk.journal.value.toVersion == to
  {
    hide Run, IsNewer, Rel, VersionOf, Clean, Reach, Resting, Initial;
    var m := FirstBoot(s, version);
    t := UpgradeCanComplete(m, version, to);
    ReachTransitive(Reliable, s, m, t);
  }
}
