/** The three actors of the self-upgrade as they are written: the boot guard, the reconciliation of a
    starting process and the upgrade itself, changing the self directory one operation at a time.

    Every method records the protocol step each of its operations is. `Valid` says that the record is a
    run of the protocol in the regime the directory was made for, and each method asks no more of the
    outside than that regime does. So what is proved about all runs of a regime holds for any calls of
    these methods, and holds between any two of their operations. */
module SelfDirectory {
  import opened Wrappers
  import opened JournalFile
  import opened Versions
  import opened Protocol
  import opened ProtocolNames
  import opened ProtocolSafety
  import opened ProtocolChecks
  import opened ProtocolHistory
  import opened ProtocolOutcomes
  import opened ProtocolText
  import opened Tarball

  // ----- what the outside decides -----

  datatype GuardIo = GuardIo(readable: bool, count: Effect, revert: Effect, record: Effect, reset: Effect)

  /** `leftovers` are the releases that cannot be removed whole, and the files that stay. */
  datatype BootIo = BootIo(readable: bool, record: Effect, clear: Effect, leftovers: map<string, set<string>>)

  /** A release the recorded manifest lists. */
  datatype Listing = Listing(version: string, hasDigest: bool)

  /** What is looked at before an upgrade is taken on: the switch, the layout, the recorded manifest and
      the download address. */
  datatype Gate = Gate(enabled: bool, managed: bool, manifest: Option<seq<Listing>>, urlValid: bool)

  /** `left` are the files that stay when clearing fails; `exec` is the version the new binary reports, or
      nothing when it cannot be executed. */
  datatype RunIo = RunIo(
    clears: bool, left: set<string>, downloads: bool, entries: seq<Entry>, finishes: bool, stage: Effect,
    swap: Effect, recordSwap: Effect, exec: Option<string>, swapBack: Effect, recordExecFailure: Effect,
    recordFailure: Effect)

  datatype Outcome = Refused | Replaced | ExecDidNotWork | GaveUp

  function VersionsOf(releases: seq<Listing>): seq<string> {
    if releases == [] then [] else [releases[0].version] + VersionsOf(releases[1..])
  }

  /** The first release of this version, as the list is searched. */
  function Find(releases: seq<Listing>, version: string): Option<Listing> {
    if releases == [] then None
    else if releases[0].version == version then Some(releases[0]) else Find(releases[1..], version)
  }

  /** An upgrade is taken on only to the latest release of the recorded manifest, when that is newer than
      what runs and can be verified. */
  ghost predicate Admits(gate: Gate, version: string, to: string) {
    && gate.enabled && gate.managed && IsNewer(to, version)
    && gate.manifest.Some? && gate.manifest.value != []
    && Find(gate.manifest.value, to).Some? && Find(gate.manifest.value, to).value.hasDigest
    && to == Latest(VersionsOf(gate.manifest.value))
    && gate.urlValid
  }

  lemma FindNothing(releases: seq<Listing>, version: string)
    requires Find(releases, version).Some?
    ensures releases != [] && VersionsOf(releases) != []
  {
  }

  /** None of the failures that leave `current` at the target of an upgrade that gives up. */
  predicate Unstranded(io: RunIo) { !io.swap.LateError? && io.recordSwap.Done? && !io.swapBack.NoEffect? }

  predicate AllSucceed(io: RunIo) {
    && io.stage.Done? && io.swap.Done? && io.recordSwap.Done? && io.swapBack.Done?
    && io.recordExecFailure.Done? && io.recordFailure.Done?
  }

  // ----- what each regime asks of the outside -----

  predicate GuardFits(regime: Regime, io: GuardIo) {
    regime.Reliable? ==> io.readable && io.count.Done? && io.revert.Done? && io.record.Done? && io.reset.Done?
  }

  predicate BootFits(regime: Regime, io: BootIo) {
    && (regime.Reliable? ==> io.readable && io.record.Done? && io.clear.Done?)
    && (regime.Ordered? ==> !io.record.LateError?)
  }

  ghost predicate RunFits(regime: Regime, to: string, io: RunIo) {
    && (!regime.Anything? && io.exec.Some? ==> Clean(io.exec.value))
    && match regime
       case Anything => true
       case Careful => true
       case Tolerant => Unstranded(io) && (io.exec.Some? ==> !IsNewer(to, io.exec.value))
       case Reliable => AllSucceed(io) && (io.exec.Some? ==> io.exec.value == to)
       case Ordered => io.exec.Some? ==> io.exec.value == to
  }

  /** The version is one line, and no release that a start could need is started over; a reliable machine
      needs no such check. */
  predicate StartFits(regime: Regime, d: Disk, to: string) {
    && (!regime.Anything? ==> Clean(to))
    && (regime.Careful? ==> !NamedIn(Views(d), Rel(to)))
    && (regime.Tolerant? ==> !NamedIn(d.past, Rel(to)))
  }

  /** What an upgrade from `previous` means when it is over: replaced, the new binary runs from `current`
      with the swap on record; the `exec` did not work, `current` is back and so is the live slot; given
      up, the failure is on record and, unless the upgrade was stranded, `current` is where it was. */
  ghost predicate Ended(version: string, to: string, io: RunIo, stamp: Stamp, previous: string, t: State,
      outcome: Outcome) {
    match outcome
    case Refused => false
    case Replaced =>
      && io.exec.Some? && t.proc == Boot(io.exec.value, Reconciling) && t.disk.current == Rel(to)
      && t.disk.journal == Some(Journal(Swapped, version, to, previous, Rel(to), stamp.now, ""))
    case ExecDidNotWork =>
      && t.proc == Serving(version, Idle) && t.disk.current == previous
      && t.disk.journal ==
         Some(Journal(JournalState.ExecFailed, version, to, previous, Rel(to), stamp.now, stamp.error))
    case GaveUp =>
      && t.proc == Serving(version, Idle)
      && (io.recordFailure.Done? ==>
         t.disk.journal == Some(Journal(Failed, version, to, "", "", stamp.now, stamp.error)))
      && (Unstranded(io) ==> t.disk.current == previous)
  }

  class Directory {
    var dirs: map<string, set<string>>
    var current: string
    var journal: Option<Journal>
    var attempts: nat
    var past: set<View>
    var loose: set<string>
    var proc: Proc
    var confirmed: seq<string>

    const regime: Regime
    ghost const origin: State
    ghost var trace: seq<Label>

    function OnDisk(): Disk
      reads this
    {
      Disk(dirs, current, journal, attempts, past, loose)
    }

    function Now(): State
      reads this
    {
      State(OnDisk(), proc, confirmed)
    }

    ghost predicate Valid()
      reads this
    {
      Run(regime, origin, trace) == Some(Now())
    }

    /** A fresh install. */
    constructor (regime: Regime, dirs: map<string, set<string>>, version: string)
      requires HasMain(dirs, Rel(version)) && Clean(version)
      ensures Valid() && Initial(origin) && trace == [] && this.regime == regime
      ensures Now() == State(Disk(dirs, Rel(version), None, 0, {}, {}), Down, [])
    {
      this.regime := regime;
      this.dirs, current, journal, attempts, past, loose := dirs, Rel(version), None, 0, {}, {};
      proc, confirmed, trace := Down, [], [];
      CleanNames(version);
      origin := State(Disk(dirs, Rel(version), None, 0, {}, {}), Down, []);
    }

    /** Puts one step on record: what just changed since `before` is what the protocol says of `l`. */
    ghost method Took(before: State, l: Label)
      requires Run(regime, origin, trace) == Some(before) && Allowed(regime, before, l)
               && Next(before, l) == Some(Now())
      modifies `trace
      ensures Valid() && trace == old(trace) + [l]
    {
      hide Next, Allowed;
      RunSnoc(regime, origin, trace, l);
      trace := trace + [l];
    }

    ghost method TookGuard(before: State, step: GuardStep)
      requires Run(regime, origin, trace) == Some(before) && GuardNext(before, step) == Some(Now())
      requires regime.Reliable? ==> AllDone(Guarding(step))
      modifies `trace
      ensures Valid() && trace == old(trace) + [Guarding(step)]
    {
      hide Run, GuardNext;
      Took(before, Guarding(step));
    }

    ghost method TookBoot(before: State, step: BootStep)
      requires Run(regime, origin, trace) == Some(before) && BootNext(before, step) == Some(Now())
      requires regime.Reliable? ==> AllDone(Booting(step))
      requires regime.Ordered? ==> ConfirmSettles(Booting(step))
      modifies `trace
      ensures Valid() && trace == old(trace) + [Booting(step)]
    {
      hide Run, BootNext;
      Took(before, Booting(step));
    }

    ghost method TookPrepare(before: State, step: RunStep)
      requires Run(regime, origin, trace) == Some(before) && PrepareNext(before, step) == Some(Now())
      requires step.Start? ==> StartFits(regime, before.disk, step.to)
      modifies `trace
      ensures Valid() && trace == old(trace) + [Upgrading(step)]
    {
      hide Run, CommitNext, UndoNext, NamedIn, IsNewer, Rel, HasMain;
      PrepareIsNext(before, step);
      PrepareIsAllowed(regime, before, step);
      hide PrepareNext, Next, Allowed;
      Took(before, Upgrading(step));
    }

    ghost method TookCommit(before: State, step: RunStep)
      requires Run(regime, origin, trace) == Some(before) && CommitNext(before, step) == Some(Now())
      requires SwapFits(regime, before, step)
      modifies `trace
      ensures Valid() && trace == old(trace) + [Upgrading(step)]
    {
      hide Run, Allowed, SwapFits;
      SwapIsAllowed(regime, before, step);
      Took(before, Upgrading(step));
    }

    ghost method TookUndo(before: State, step: RunStep)
      requires Run(regime, origin, trace) == Some(before) && UndoNext(before, step) == Some(Now())
      requires SwapFits(regime, before, step)
      modifies `trace
      ensures Valid() && trace == old(trace) + [Upgrading(step)]
    {
      hide Run, Allowed, SwapFits;
      SwapIsAllowed(regime, before, step);
      Took(before, Upgrading(step));
    }

    // ----- the file operations -----

    method Store(j: Journal, effect: Effect)
      modifies `journal, `past
      ensures OnDisk() == StoreJournal(old(OnDisk()), j, effect)
    {
      if !effect.NoEffect? {
        past := Pending(OnDisk(), effect);
        journal := Some(j);
      }
    }

    method PointCurrent(path: string, effect: Effect)
      modifies `current, `past
      ensures OnDisk() == SwapCurrent(old(OnDisk()), path, effect)
    {
      if !effect.NoEffect? {
        past := Pending(OnDisk(), effect);
        current := path;
      }
    }

    method WriteCounter(n: nat, effect: Effect)
      modifies `attempts, `past
      ensures OnDisk() == WriteAttempts(old(OnDisk()), n, effect)
    {
      if !effect.NoEffect? {
        past := Pending(OnDisk(), effect);
        attempts := n;
      }
    }

    method RemoveCounter(effect: Effect)
      modifies `attempts, `past
      ensures OnDisk() == ClearAttempts(old(OnDisk()), effect)
    {
      if !effect.NoEffect? {
        past := Views(OnDisk());
        attempts := 0;
      }
    }

    // ----- the service manager and the machine -----

    /** The service manager starts what `current` names. */
    method Launch(reported: string)
      requires Valid() && proc == Ready && HasMain(dirs, current)
      requires !regime.Anything? ==> Clean(reported)
      requires regime.Tolerant? ==> !IsNewer(VersionOf(current), reported)
      requires regime.Reliable? || regime.Ordered? ==> Rel(reported) == current
      modifies this
      ensures Valid() && Now() == old(Now()).(proc := Boot(reported, Reconciling))
    {
      hide Run, Next, Allowed, HasMain, Rel, IsNewer, VersionOf;
      ghost var before := Now();
      LaunchIsAllowed(regime, before, reported);
      proc := Boot(reported, Reconciling);
      Took(before, Label.Launch(reported));
    }

    /** Whatever runs stops. */
    method Crash()
      requires Valid()
      modifies this
      ensures Valid() && Now() == old(Now()).(proc := Down)
    {
      hide Run, GuardNext, BootNext, RunNext, NamedIn;
      ghost var before := Now();
      proc := Down;
      Took(before, Label.Crash);
    }

    /** The power fails: some view comes back, and what was synced of the releases. */
    method LosePower(view: View, survivors: map<string, set<string>>)
      requires Valid() && view in Views(OnDisk()) && Survives(OnDisk(), survivors)
      requires regime.Careful? || regime.Tolerant? || regime.Reliable? ==>
               KeepsReleases(Now(), PowerLoss(view, survivors))
      modifies this
      ensures Valid() && Now() == State(AfterPowerLoss(view, survivors), Down, old(confirmed))
    {
      hide Run, GuardNext, BootNext, RunNext, NamedIn;
      ghost var before := Now();
      dirs, current, journal, attempts := survivors, view.current, view.journal, view.attempts;
      past, loose, proc := {}, {}, Down;
      Took(before, PowerLoss(view, survivors));
    }

    /** The system syncs on its own, all but a release directory that is still being filled. */
    method WriteBack()
      requires Valid()
      modifies this
      ensures Valid() && Now() == old(Now()).(disk := old(OnDisk()).(past := {}, loose := Filling(proc)))
    {
      hide Run, GuardNext, BootNext, RunNext, NamedIn;
      ghost var before := Now();
      past, loose := {}, Filling(proc);
      Took(before, Writeback);
    }

    // ----- the boot guard -----

    /** The guard before a start. It counts or reverts only while a swap is unconfirmed, reverts exactly
        when the counter is about to reach its limit, and never refuses the start. */
    method GuardMain(io: GuardIo, stamp: Stamp)
      requires Valid() && proc == Down && GuardFits(regime, io)
      modifies this
      ensures Valid() && proc == Ready
      ensures dirs == old(dirs) && confirmed == old(confirmed) && loose == old(loose)
      ensures !io.readable ==> Now() == old(Now()).(proc := Ready)
      ensures io.readable && !old(Armed(Now().disk)) ==>
                Now().disk == ClearAttempts(old(Now().disk), io.reset)
      ensures io.readable && old(Armed(Now().disk)) && old(attempts) + 1 < MAX_BOOT_ATTEMPTS ==>
                Now().disk == WriteAttempts(old(Now().disk), old(attempts) + 1, io.count)
      ensures io.readable && old(Armed(Now().disk)) && old(attempts) + 1 >= MAX_BOOT_ATTEMPTS ==>
                && current == (if io.revert.NoEffect? then old(current) else old(journal).value.previous)
                && (io.revert.Done? && io.record.Done? && io.reset.Done? ==>
                      && journal == Some(old(journal).value
                                         .(state := RolledBack, updatedAt := stamp.now, error := stamp.error))
                      && attempts == 0)
    {
      hide Run, BootNext, PrepareNext, CommitNext, UndoNext, HasMain;
      var before := Now();
      proc := Guard(Deciding);
      TookGuard(before, Begin);
      before := Now();
      if !io.readable {
        proc := Ready;
        TookGuard(before, StandDown);
        return;
      }
      if journal.None? || journal.value.state != Swapped {
        ResetAttempts(io.reset);
        return;
      }
      var attempt := attempts + 1;
      if attempt < MAX_BOOT_ATTEMPTS {
        WriteCounter(attempt, io.count);
        proc := Ready;
        TookGuard(before, Count(io.count));
        return;
      }
      RevertSwap(io, stamp);
    }

    /** The swapped release has had its chances: the link first, then the record, then the counter. */
    method RevertSwap(io: GuardIo, stamp: Stamp)
      requires Valid() && proc == Guard(Deciding) && journal.Some? && journal.value.state == Swapped
      requires attempts + 1 >= MAX_BOOT_ATTEMPTS && GuardFits(regime, io)
      modifies this
      ensures Valid() && proc == Ready && dirs == old(dirs) && confirmed == old(confirmed) && loose == old(loose)
      ensures current == if io.revert.NoEffect? then old(current) else old(journal).value.previous
      ensures !io.revert.Done? ==> journal == old(journal) && attempts == old(attempts)
      ensures io.revert.Done? ==>
                && journal == (if io.record.NoEffect? then old(journal)
                   else Some(old(journal).value.(state := RolledBack, updatedAt := stamp.now, error := stamp.error)))
                && attempts == (if io.reset.NoEffect? then old(attempts) else 0)
    {
      hide Run, BootNext, PrepareNext, CommitNext, UndoNext, HasMain;
      var swapped := journal.value;
      ghost var before := Now();
      PointCurrent(swapped.previous, io.revert);
      proc := if io.revert.Done? then Guard(RecordingRevert) else Ready;
      TookGuard(before, Revert(io.revert));
      if !io.revert.Done? {
        return;
      }
      before := Now();
      Store(WithState(swapped, RolledBack, stamp), io.record);
      proc := Guard(Resetting);
      TookGuard(before, RecordRevert(io.record, stamp));
      ResetAttempts(io.reset);
    }

    method ResetAttempts(effect: Effect)
      requires Valid() && ((proc == Guard(Deciding) && !Armed(Now().disk)) || proc == Guard(Resetting))
      requires regime.Reliable? ==> effect.Done?
      modifies this
      ensures Valid() && trace == old(trace) + [Guarding(Reset(effect))] && proc == Ready
      ensures Now().disk == ClearAttempts(old(Now().disk), effect) && confirmed == old(confirmed)
    {
      hide Run, BootNext, PrepareNext, CommitNext, UndoNext;
      ghost var before := Now();
      RemoveCounter(effect);
      proc := Ready;
      TookGuard(before, Reset(effect));
    }

    // ----- reconciliation -----

    /** What a started process makes of the journal, if it can read it. Only a swapped one concerns it: the
        version it was swapped to confirms itself, any other version records the failure. */
    method Reconcile(running: string, io: BootIo, stamp: Stamp, names: seq<string>) returns (ghost listing: seq<string>)
      requires Valid() && proc == Boot(running, Reconciling) && BootFits(regime, io)
      modifies this
      ensures Valid() && proc == Serving(running, Idle) && current == old(current) && loose == old(loose)
      ensures !io.readable || !old(Armed(Now().disk)) ==> Now() == old(Now()).(proc := Serving(running, Idle))
      ensures io.readable && old(Armed(Now().disk)) && old(journal).value.toVersion == running ==>
                && journal == (if io.record.NoEffect? then old(journal)
                   else Some(old(journal).value.(state := Confirmed, updatedAt := stamp.now, error := stamp.error)))
                && confirmed == (if io.record.NoEffect? then old(confirmed) else old(confirmed) + [running])
                && attempts == (if !io.record.Done? || io.clear.NoEffect? then old(attempts) else 0)
                && (if io.record.Done?
                   then Retains(listing, names, old(journal).value, current, io.leftovers, old(dirs), dirs)
                    else dirs == old(dirs))
      ensures io.readable && old(Armed(Now().disk)) && old(journal).value.toVersion != running ==>
                && journal == (if io.record.NoEffect? then old(journal)
                   else Some(old(journal).value.(state := Failed, updatedAt := stamp.now, error := stamp.error)))
                && attempts == old(attempts) && dirs == old(dirs) && confirmed == old(confirmed)
    {
      hide Run, Rel, GuardNext, PrepareNext, CommitNext, UndoNext, Retains, HasMain;
      listing := [];
      ghost var before := Now();
      if !io.readable {
        proc := Serving(running, Idle);
        TookBoot(before, Unread);
        return;
      }
      if journal.None? || journal.value.state != Swapped {
        proc := Serving(running, Idle);
        TookBoot(before, Skip);
        return;
      }
      var swapped := journal.value;
      if swapped.toVersion != running {
        Store(WithState(swapped, Failed, stamp), io.record);
        proc := Serving(running, Idle);
        TookBoot(before, Mismatch(io.record, stamp));
        return;
      }
      listing := ConfirmUpgrade(running, swapped, io, stamp, names);
    }

    /** Record the confirmation, clear the counter, prune. Without the record, nothing else happens. */
    method ConfirmUpgrade(running: string, swapped: Journal, io: BootIo, stamp: Stamp, names: seq<string>)
      returns (ghost listing: seq<string>)
      requires Valid() && proc == Boot(running, Reconciling) && BootFits(regime, io)
      requires journal == Some(swapped) && swapped.state == Swapped && swapped.toVersion == running
      modifies this
      ensures Valid() && proc == Serving(running, Idle) && current == old(current) && loose == old(loose)
      ensures journal == if io.record.NoEffect? then old(journal)
                         else Some(swapped.(state := Confirmed, updatedAt := stamp.now, error := stamp.error))
      ensures confirmed == if io.record.NoEffect? then old(confirmed) else old(confirmed) + [running]
      ensures attempts == if !io.record.Done? || io.clear.NoEffect? then old(attempts) else 0
      ensures if io.record.Done? then Retains(listing, names, swapped, current, io.leftovers, old(dirs), dirs)
              else dirs == old(dirs)
    {
      hide Run, Rel, GuardNext, PrepareNext, CommitNext, UndoNext, Retains, HasMain;
      listing := [];
      RecordConfirmation(running, swapped, io, stamp);
      if !io.record.Done? {
        return;
      }
      ghost var before := Now();
      RemoveCounter(io.clear);
      proc := Boot(running, Pruning(swapped));
      TookBoot(before, ClearCounter(io.clear));
      listing := PruneReleases(swapped, names, io.leftovers);
      before := Now();
      proc := Serving(running, Idle);
      TookBoot(before, Serve);
    }

    method RecordConfirmation(running: string, swapped: Journal, io: BootIo, stamp: Stamp)
      requires Valid() && proc == Boot(running, Reconciling) && BootFits(regime, io)
      requires journal == Some(swapped) && swapped.state == Swapped && swapped.toVersion == running
      modifies this
      ensures Valid() && dirs == old(dirs) && current == old(current) && attempts == old(attempts)
              && loose == old(loose)
      ensures proc == if io.record.Done? then Boot(running, ClearingCounter(swapped)) else Serving(running, Idle)
      ensures journal == if io.record.NoEffect? then old(journal)
                         else Some(swapped.(state := Confirmed, updatedAt := stamp.now, error := stamp.error))
      ensures confirmed == if io.record.NoEffect? then old(confirmed) else old(confirmed) + [running]
    {
      hide Run, Rel, GuardNext, PrepareNext, CommitNext, UndoNext, HasMain;
      ghost var before := Now();
      Store(WithState(swapped, Confirmed, stamp), io.record);
      if !io.record.NoEffect? {
        confirmed := confirmed + [running];
      }
      proc := if io.record.Done? then Boot(running, ClearingCounter(swapped)) else Serving(running, Idle);
      TookBoot(before, Confirm(io.record, stamp));
    }

    /** Retention over the names found among the releases. It removes exactly those behind the newest
        `KEEP_RELEASES` that neither the journal nor `current` names, as far as they can be removed. */
    method PruneReleases(j: Journal, names: seq<string>, leftovers: map<string, set<string>>)
        returns (ghost listing: seq<string>)
      requires Valid() && proc.Boot? && proc.boot == Pruning(j)
      modifies this
      ensures Valid()
      ensures proc == old(proc) && current == old(current) && journal == old(journal) && past == old(past)
      ensures attempts == old(attempts) && confirmed == old(confirmed) && loose == old(loose)
      ensures Retains(listing, names, j, current, leftovers, old(dirs), dirs)
    {
      hide Run, Rel, Pruned, NewestFirst, AllParse;
      var versions := SortNewestFirst(names);
      listing := versions;
      var i := KEEP_RELEASES;
      NonePruned(First(versions, i), j, current, leftovers, dirs);
      while i < |versions|
        invariant Valid()
        invariant proc == old(proc) && current == old(current) && journal == old(journal) && past == old(past)
        invariant attempts == old(attempts) && confirmed == old(confirmed) && loose == old(loose)
        invariant KEEP_RELEASES <= i && (i <= |versions| || |versions| < i == KEEP_RELEASES)
        invariant dirs == Pruned(First(versions, i), j, current, leftovers, old(dirs))
      {
        PrunedSnoc(versions[..i], versions[i], j, current, leftovers, old(dirs));
        assert versions[..i + 1] == versions[..i] + [versions[i]];
        PruneOne(Rel(versions[i]), j, leftovers);
        i := i + 1;
      }
      assert First(versions, i) == versions;
    }

    method PruneOne(dir: string, j: Journal, leftovers: map<string, set<string>>)
      requires Valid() && proc.Boot? && proc.boot == Pruning(j)
      modifies this
      ensures Valid() && Now() == old(Now()).(disk := old(OnDisk()).(dirs := dirs))
      ensures dirs == if dir == j.previous || dir == j.target || dir == current || dir !in old(dirs) then old(dirs)
                      else if dir in leftovers then old(dirs)[dir := old(dirs)[dir] * leftovers[dir]]
                      else old(dirs) - {dir}
    {
      hide Run, Rel, GuardNext, PrepareNext, CommitNext, UndoNext;
      if dir != j.previous && dir != j.target && dir != current && dir in dirs {
        ghost var before := Now();
        if dir in leftovers {
          dirs := dirs[dir := dirs[dir] * leftovers[dir]];
          TookBoot(before, PruneFiles(dir, leftovers[dir]));
        } else {
          dirs := dirs - {dir};
          TookBoot(before, PruneDir(dir));
        }
      }
    }

    // ----- the upgrade -----

    /** An upgrade from the version that is running, to its end. It is refused, changing nothing, exactly
        when it is not admitted; `Ended` says what the other outcomes mean. Whatever the outcome, no other
        release directory is touched. */
    method Upgrade(version: string, to: string, gate: Gate, io: RunIo, stamp: Stamp) returns (outcome: Outcome)
      requires Valid() && proc == Serving(version, Idle)
      requires RunFits(regime, to, io) && StartFits(regime, OnDisk(), to)
      modifies this
      ensures Valid() && attempts == old(attempts) && confirmed == old(confirmed)
      ensures outcome.Refused? <==> !Admits(gate, version, to)
      ensures if outcome.Refused? then Now() == old(Now())
              else Ended(version, to, io, stamp, old(current), Now(), outcome)
      ensures dirs - {Rel(to)} == old(dirs) - {Rel(to)}
      ensures outcome.Replaced? || outcome.ExecDidNotWork? ==>
                Unpackable(io.entries) && Rel(to) in dirs && dirs[Rel(to)] == Unpacks(io.entries)
    {
      hide Run, Rel, IsNewer, Unpacks, Ended, Compare, Admits, NamedIn, Allowed;
      var admitted := Admit(gate, version, to);
      if !admitted {
        return Refused;
      }
      AdmittedIsNewer(gate, version, to);
      var staged := PrepareRelease(version, to, io);
      if staged {
        outcome := CommitRelease(version, to, io, stamp);
      } else {
        outcome := RecordTheFailure(version, to, current, io, stamp);
      }
    }

    /** The checks in front of an upgrade, in their order. */
    method Admit(gate: Gate, version: string, to: string) returns (ok: bool)
      ensures ok <==> Admits(gate, version, to)
    {
      hide Compare, Parts, Latest;
      if !gate.enabled || !gate.managed {
        return false;
      }
      var order := CompareVersions(to, version);
      NewerMeansGreater(to, version);
      if order != Some(Greater) || gate.manifest.None? {
        return false;
      }
      var release := Find(gate.manifest.value, to);
      if release.None? {
        return false;
      }
      FindNothing(gate.manifest.value, to);
      var latest := LatestVersion(VersionsOf(gate.manifest.value));
      if to != latest {
        return false;
      }
      ok := release.value.hasDigest && gate.urlValid;
    }

    /** Clear what an earlier attempt left, download, verify and unpack. */
    method PrepareRelease(version: string, to: string, io: RunIo) returns (ok: bool)
      requires Valid() && proc == Serving(version, Idle) && IsNewer(to, version) && StartFits(regime, OnDisk(), to)
      modifies this
      ensures Valid() && past == old(past)
      ensures current == old(current) && journal == old(journal) && attempts == old(attempts)
              && confirmed == old(confirmed)
      ensures ok <==> io.clears && io.downloads && Unpackable(io.entries) && io.finishes
      ensures proc == Serving(version, if ok then Staging(to) else Failing(to))
      ensures ok ==> Rel(to) in dirs && dirs[Rel(to)] == Unpacks(io.entries)
      ensures dirs - {Rel(to)} == old(dirs) - {Rel(to)}
    {
      hide Run, Rel, IsNewer, PrepareNext, CommitNext, UndoNext, Unpacks, Unpackable;
      ok := Fetch(version, to, io);
      if ok {
        ok := Unpack(version, to, io.entries);
      }
      if !ok || !io.finishes {
        GiveUp(version, to);
        return false;
      }
    }

    /** Clear the release directory, download the tarball and verify it. */
    method Fetch(version: string, to: string, io: RunIo) returns (ok: bool)
      requires Valid() && proc == Serving(version, Idle) && IsNewer(to, version) && StartFits(regime, OnDisk(), to)
      modifies this
      ensures Valid() && past == old(past)
      ensures current == old(current) && journal == old(journal) && attempts == old(attempts)
              && confirmed == old(confirmed)
      ensures ok <==> io.clears && io.downloads
      ensures proc.Serving? && proc.version == version
      ensures ok ==> proc.phase == Unpacking(to) && dirs == old(dirs)[Rel(to) := {}] && loose == old(loose) + {Rel(to)}
      ensures !ok ==> proc.phase in {Clearing(to), Downloading(to)} && loose == old(loose)
      ensures dirs - {Rel(to)} == old(dirs) - {Rel(to)}
      ensures !io.clears && Rel(to) in old(dirs) ==> dirs == old(dirs)[Rel(to) := old(dirs)[Rel(to)] * io.left]
    {
      hide Run, Rel, IsNewer, HasMain, StartFits;
      TakeOn(version, to);
      if !io.clears {
        LeaveRest(version, to, io.left);
        return false;
      }
      ClearRelease(version, to);
      if !io.downloads {
        return false;
      }
      MakeRelease(version, to);
      ok := true;
    }

    method TakeOn(version: string, to: string)
      requires Valid() && proc == Serving(version, Idle) && IsNewer(to, version) && StartFits(regime, OnDisk(), to)
      modifies this
      ensures Valid() && Now() == old(Now()).(proc := Serving(version, Clearing(to)))
    {
      hide Run, Rel, IsNewer, HasMain, StartFits;
      ghost var before := Now();
      proc := Serving(version, Clearing(to));
      TookPrepare(before, Start(to));
    }

    method MakeRelease(version: string, to: string)
      requires Valid() && proc == Serving(version, Downloading(to)) && Rel(to) !in dirs
      modifies this
      ensures Valid() && confirmed == old(confirmed) && proc == Serving(version, Unpacking(to))
      ensures OnDisk() == old(OnDisk()).(dirs := old(dirs)[Rel(to) := {}], loose := old(loose) + {Rel(to)})
    {
      hide Run, Rel, IsNewer, HasMain, StartFits;
      ghost var before := Now();
      dirs := dirs[Rel(to) := {}];
      loose := loose + {Rel(to)};
      proc := Serving(version, Unpacking(to));
      TookPrepare(before, Downloaded);
    }

    /** Clearing that fails leaves some of the files. */
    method LeaveRest(version: string, to: string, left: set<string>)
      requires Valid() && proc == Serving(version, Clearing(to))
      modifies this
      ensures Valid() && proc == old(proc) && past == old(past) && loose == old(loose)
      ensures current == old(current) && journal == old(journal) && attempts == old(attempts)
              && confirmed == old(confirmed)
      ensures dirs == if Rel(to) in old(dirs) then old(dirs)[Rel(to) := old(dirs)[Rel(to)] * left] else old(dirs)
    {
      hide Run, Rel, IsNewer, HasMain, GuardNext, BootNext, CommitNext, UndoNext, StartFits;
      if Rel(to) in dirs {
        ghost var before := Now();
        dirs := dirs[Rel(to) := dirs[Rel(to)] * left];
        TookPrepare(before, RemoveFiles(left));
      }
    }

    method ClearRelease(version: string, to: string)
      requires Valid() && proc == Serving(version, Clearing(to))
      modifies this
      ensures Valid() && proc == Serving(version, Downloading(to)) && dirs == old(dirs) - {Rel(to)}
      ensures past == old(past) && loose == old(loose)
      ensures current == old(current) && journal == old(journal) && attempts == old(attempts)
              && confirmed == old(confirmed)
    {
      hide Run, Rel, IsNewer, HasMain, GuardNext, BootNext, CommitNext, UndoNext;
      ghost var before := Now();
      if Rel(to) in dirs {
        dirs := dirs - {Rel(to)};
        TookPrepare(before, RemoveDir);
      }
      before := Now();
      proc := Serving(version, Downloading(to));
      TookPrepare(before, Cleared);
    }

    /** Unpack the tarball into the fresh release directory. It succeeds exactly when every entry can be
        processed, none has a hostile path, and the main binary is among the files. */
    method Unpack(version: string, to: string, entries: seq<Entry>) returns (ok: bool)
      requires Valid() && proc == Serving(version, Unpacking(to)) && Rel(to) in dirs && dirs[Rel(to)] == {}
      modifies this
      ensures Valid() && past == old(past) && loose == old(loose)
      ensures current == old(current) && journal == old(journal) && attempts == old(attempts)
              && confirmed == old(confirmed)
      ensures ok <==> Unpackable(entries)
      ensures proc == Serving(version, if ok then Staging(to) else Unpacking(to))
      ensures Rel(to) in dirs && dirs == old(dirs)[Rel(to) := dirs[Rel(to)]]
      ensures ok ==> dirs[Rel(to)] == Unpacks(entries)
    {
      hide Run, Rel, IsNewer, GuardNext, BootNext, CommitNext, UndoNext, Expected, Hostile;
      var extractedMain := false;
      for i := 0 to |entries|
        invariant Valid() && proc == old(proc) && past == old(past) && loose == old(loose)
        invariant current == old(current) && journal == old(journal) && attempts == old(attempts)
                  && confirmed == old(confirmed)
        invariant Rel(to) in dirs && dirs == old(dirs)[Rel(to) := dirs[Rel(to)]]
        invariant dirs[Rel(to)] == Unpacks(entries[..i])
        invariant extractedMain <==> MAIN_BINARY in Unpacks(entries[..i])
        invariant forall k :: 0 <= k < i ==> !Fatal(entries[k])
      {
        var e := entries[i];
        assert entries[..i + 1] == entries[..i] + [e];
        UnpacksSnoc(entries[..i], e);
        if !e.sound || (e.isFile && Hostile(e)) {
          assert Fatal(entries[i]);
          return false;
        }
        if Expected(e) {
          var name := ExpectedName(e);
          ghost var before := Now();
          dirs := dirs[Rel(to) := dirs[Rel(to)] + {name}];
          TookPrepare(before, Extract(name));
          if name == MAIN_BINARY {
            extractedMain := true;
          }
        }
      }
      assert entries[..|entries|] == entries;
      if !extractedMain {
        return false;
      }
      ghost var before := Now();
      proc := Serving(version, Staging(to));
      TookPrepare(before, Unpacked);
      ok := true;
    }

    method GiveUp(version: string, to: string)
      requires Valid() && proc.Serving? && proc.version == version
      requires proc.phase in {Clearing(to), Downloading(to), Unpacking(to), Staging(to)}
      modifies `trace, `proc
      ensures Valid() && trace == old(trace) + [Upgrading(Abort)] && proc == Serving(version, Failing(to))
    {
      hide Run, Rel, IsNewer, GuardNext, BootNext, CommitNext, UndoNext, StartFits;
      ghost var before := Now();
      proc := Serving(version, Failing(to));
      TookPrepare(before, Abort);
    }

    /** The end of every upgrade that gives up: a generic failure on record and the live slot free. */
    method RecordTheFailure(version: string, to: string, previous: string, io: RunIo, stamp: Stamp)
        returns (outcome: Outcome)
      requires Valid() && proc == Serving(version, Failing(to)) && (Unstranded(io) ==> current == previous)
      requires RunFits(regime, to, io)
      modifies this
      ensures Valid() && attempts == old(attempts) && confirmed == old(confirmed) && dirs == old(dirs)
      ensures outcome == GaveUp && Ended(version, to, io, stamp, previous, Now(), outcome)
    {
      hide Run, Rel, PrepareNext, CommitNext;
      ghost var before := Now();
      Store(Journal(Failed, version, to, "", "", stamp.now, stamp.error), io.recordFailure);
      proc := Serving(version, Idle);
      TookUndo(before, RecordFailure(io.recordFailure, stamp));
      outcome := GaveUp;
    }

    // The steps between the staged release and the end, one operation each.

    method StageRelease(version: string, to: string, effect: Effect, stamp: Stamp)
      requires Valid() && proc == Serving(version, Staging(to)) && SwapFits(regime, Now(), Stage(effect, stamp))
      modifies this
      ensures Valid() && confirmed == old(confirmed)
      ensures var j := StagedJournal(version, to, old(current), stamp);
              && OnDisk() == StoreJournal(old(OnDisk()), j, effect)
              && proc == Serving(version, if effect.Done? then Swapping(j) else Failing(to))
    {
      hide Run, Rel, PrepareNext, UndoNext, HasMain, SwapFits;
      ghost var before := Now();
      var j := StagedJournal(version, to, current, stamp);
      Store(j, effect);
      proc := Serving(version, if effect.Done? then Swapping(j) else Failing(to));
      TookCommit(before, Stage(effect, stamp));
    }

    method SwapLink(version: string, j: Journal, effect: Effect)
      requires Valid() && proc == Serving(version, Swapping(j)) && SwapFits(regime, Now(), Swap(effect))
      modifies this
      ensures Valid() && confirmed == old(confirmed)
      ensures OnDisk() == SwapCurrent(old(OnDisk()), j.target, effect)
      ensures proc == Serving(version, if effect.Done? then Recording(j) else Failing(j.toVersion))
    {
      hide Run, Rel, PrepareNext, UndoNext, HasMain, SwapFits;
      ghost var before := Now();
      PointCurrent(j.target, effect);
      proc := Serving(version, if effect.Done? then Recording(j) else Failing(j.toVersion));
      TookCommit(before, Swap(effect));
    }

    method RecordSwapped(version: string, staged: Journal, effect: Effect, stamp: Stamp)
      requires Valid() && proc == Serving(version, Recording(staged))
               && SwapFits(regime, Now(), RecordSwap(effect, stamp))
      modifies this
      ensures Valid() && confirmed == old(confirmed)
      ensures var j := staged.(state := Swapped, updatedAt := stamp.now);
              && OnDisk() == StoreJournal(old(OnDisk()), j, effect)
              && proc == Serving(version, if effect.Done? then Execing(j) else Failing(staged.toVersion))
    {
      hide Run, Rel, PrepareNext, UndoNext, HasMain, SwapFits;
      ghost var before := Now();
      var j := staged.(state := Swapped, updatedAt := stamp.now);
      Store(j, effect);
      proc := Serving(version, if effect.Done? then Execing(j) else Failing(j.toVersion));
      TookCommit(before, RecordSwap(effect, stamp));
    }

    method TryExec(version: string, j: Journal, exec: Option<string>)
      requires Valid() && proc == Serving(version, Execing(j)) && HasMain(dirs, current)
      requires exec.Some? ==> SwapFits(regime, Now(), Exec(exec.value))
      modifies this
      ensures Valid() && OnDisk() == old(OnDisk()) && confirmed == old(confirmed)
      ensures proc == if exec.Some? then Boot(exec.value, Reconciling) else Serving(version, Reverting(j))
    {
      hide Run, Rel, PrepareNext, UndoNext, HasMain, IsNewer, VersionOf;
      ghost var before := Now();
      if exec.Some? {
        proc := Boot(exec.value, Reconciling);
        TookCommit(before, Exec(exec.value));
      } else {
        proc := Serving(version, Reverting(j));
        TookCommit(before, ExecFails);
      }
    }

    method SwapLinkBack(version: string, j: Journal, effect: Effect)
      requires Valid() && proc == Serving(version, Reverting(j)) && SwapFits(regime, Now(), SwapBack(effect))
      modifies this
      ensures Valid() && confirmed == old(confirmed)
      ensures OnDisk() == SwapCurrent(old(OnDisk()), j.previous, effect)
      ensures proc == Serving(version, if effect.Done? then RecordingExecFailure(j) else Failing(j.toVersion))
    {
      hide Run, Rel, PrepareNext, CommitNext, HasMain, SwapFits;
      ghost var before := Now();
      PointCurrent(j.previous, effect);
      proc := Serving(version, if effect.Done? then RecordingExecFailure(j) else Failing(j.toVersion));
      TookUndo(before, SwapBack(effect));
    }

    method RecordExecFailed(version: string, j: Journal, effect: Effect, stamp: Stamp)
      requires Valid() && proc == Serving(version, RecordingExecFailure(j))
      requires SwapFits(regime, Now(), RecordExecFailure(effect, stamp))
      modifies this
      ensures Valid() && confirmed == old(confirmed)
      ensures OnDisk() == StoreJournal(old(OnDisk()), WithState(j, JournalState.ExecFailed, stamp), effect)
      ensures proc == Serving(version, if effect.Done? then Idle else Failing(j.toVersion))
    {
      hide Run, Rel, PrepareNext, CommitNext, HasMain, SwapFits;
      ghost var before := Now();
      Store(WithState(j, JournalState.ExecFailed, stamp), effect);
      proc := Serving(version, if effect.Done? then Idle else Failing(j.toVersion));
      TookUndo(before, RecordExecFailure(effect, stamp));
    }

    /** Stage the journal and swap; then record the swap and `exec`. */
    method CommitRelease(version: string, to: string, io: RunIo, stamp: Stamp) returns (outcome: Outcome)
      requires Valid() && proc == Serving(version, Staging(to)) && HasMain(dirs, Rel(to)) && RunFits(regime, to, io)
      modifies this
      ensures Valid() && attempts == old(attempts) && confirmed == old(confirmed) && dirs == old(dirs)
      ensures !outcome.Refused? && Ended(version, to, io, stamp, old(current), Now(), outcome)
    {
      hide Run, Rel, HasMain, Ended, IsNewer, Views;
      var previous := current;
      var j := StagedJournal(version, to, previous, stamp);
      StageRelease(version, to, io.stage, stamp);
      if !io.stage.Done? {
        outcome := RecordTheFailure(version, to, previous, io, stamp);
        return;
      }
      SwapLink(version, j, io.swap);
      if !io.swap.Done? {
        outcome := RecordTheFailure(version, to, previous, io, stamp);
        return;
      }
      outcome := RecordAndExec(version, to, previous, j, io, stamp);
    }

    /** Record the swap and `exec`; and undo the swap when `exec` returns. */
    method RecordAndExec(version: string, to: string, previous: string, staged: Journal, io: RunIo, stamp: Stamp)
      returns (outcome: Outcome)
      requires Valid() && proc == Serving(version, Recording(staged))
               && staged == StagedJournal(version, to, previous, stamp)
      requires current == Rel(to) && HasMain(dirs, current) && RunFits(regime, to, io)
      modifies this
      ensures Valid() && attempts == old(attempts) && confirmed == old(confirmed) && dirs == old(dirs)
      ensures !outcome.Refused? && Ended(version, to, io, stamp, previous, Now(), outcome)
    {
      hide Run, Rel, HasMain, IsNewer, Views;
      var j := staged.(state := Swapped, updatedAt := stamp.now);
      RecordSwapped(version, staged, io.recordSwap, stamp);
      if !io.recordSwap.Done? {
        outcome := RecordTheFailure(version, to, previous, io, stamp);
        return;
      }
      RelIsRelease(to);
      TryExec(version, j, io.exec);
      if io.exec.Some? {
        return Replaced;
      }
      outcome := SwapItBack(version, to, j, io, stamp);
    }

    method SwapItBack(version: string, to: string, j: Journal, io: RunIo, stamp: Stamp) returns (outcome: Outcome)
      requires Valid() && proc == Serving(version, Reverting(j)) && journal == Some(j)
      requires j == StagedJournal(version, to, j.previous, stamp).(state := Swapped) && RunFits(regime, to, io)
      modifies this
      ensures Valid() && attempts == old(attempts) && confirmed == old(confirmed) && dirs == old(dirs)
      ensures !outcome.Refused? && Ended(version, to, io, stamp, j.previous, Now(), outcome)
    {
      hide Run, Rel, HasMain, IsNewer, Views;
      SwapLinkBack(version, j, io.swapBack);
      if !io.swapBack.Done? {
        outcome := RecordTheFailure(version, to, j.previous, io, stamp);
        return;
      }
      RecordExecFailed(version, j, io.recordExecFailure, stamp);
      if !io.recordExecFailure.Done? {
        outcome := RecordTheFailure(version, to, j.previous, io, stamp);
        return;
      }
      outcome := ExecDidNotWork;
    }
  }

  /** What the methods did is a run of the protocol; so whatever was called, in a regime that keeps
      releases needed, what is in the directory is safe, and was after every single operation. */
  lemma WhatTheyDidIsSafe(dir: Directory)
    requires dir.Valid() && Initial(dir.origin) && (dir.regime.Careful? || dir.regime.Tolerant? || dir.regime.Reliable?)
    ensures Safe(dir.Now())
    ensures forall k :: 0 <= k <= |dir.trace| ==>
              Run(dir.regime, dir.origin, dir.trace[..k]).Some?
                  && Safe(Run(dir.regime, dir.origin, dir.trace[..k]).value)
  {
    hide Run, Initial, Safe;
    assert dir.trace[..|dir.trace|] == dir.trace;
    forall k | 0 <= k <= |dir.trace|
      ensures Run(dir.regime, dir.origin, dir.trace[..k]).Some?
              && Safe(Run(dir.regime, dir.origin, dir.trace[..k]).value)
    {
      PrefixIsARun(dir.regime, dir.origin, dir.trace, k);
      var m := Run(dir.regime, dir.origin, dir.trace[..k]).value;
      match dir.regime
      case Careful => Safety(dir.origin, dir.trace[..k], m);
      case Tolerant => TolerantSafety(dir.origin, dir.trace[..k], m);
      case Reliable => ReliableSafety(dir.origin, dir.trace[..k], m);
    }
  }

  /** And the machine whose journal is a text does the same: what a method stores is what is read back. */
  lemma WhatTheyDidIsOnFile(dir: Directory)
    requires dir.Valid() && Initial(dir.origin) && !dir.regime.Anything?
    ensures TextRun(dir.regime, dir.origin, dir.trace) == Some(dir.Now())
    ensures Reread(dir.journal) == dir.journal
  {
    hide Run, TextRun, Initial, Tidy, AllClean, Kept, Parse, Render;
    InitialIsTidy(dir.origin);
    TheSameRuns(dir.regime, dir.origin, dir.trace);
    RunKeepsTidy(dir.regime, dir.origin, dir.trace, dir.Now());
    TidyIsReread(dir.Now());
  }

  /** And in the regime of durable confirmations, the versions on record only went up. */
  lemma WhatTheyConfirmedIncreases(dir: Directory)
    requires dir.Valid() && Initial(dir.origin) && dir.regime.Ordered?
    ensures forall i, k :: 0 <= i < k < |dir.confirmed| ==> IsNewer(dir.confirmed[k], dir.confirmed[i])
    ensures dir.confirmed != [] ==>
              var last, now := dir.confirmed[|dir.confirmed| - 1], VersionOf(dir.current);
              now == last || IsNewer(now, last)
  {
    hide Run, Initial, IsNewer;
    ConfirmationsIncrease(dir.origin, dir.trace, dir.Now());
  }

  lemma {:induction false} PrefixIsARun(regime: Regime, s: State, ls: seq<Label>, k: nat)
    requires k <= |ls| && Run(regime, s, ls).Some?
    ensures Run(regime, s, ls[..k]).Some?
  {
    hide Step;
    if k == |ls| {
      assert ls[..k] == ls;
    } else {
      PrefixIsARun(regime, s, ls[..|ls| - 1], k);
      assert ls[..|ls| - 1][..k] == ls[..k];
    }
  }

  lemma PrepareIsNext(s: State, step: RunStep)
    requires PrepareNext(s, step).Some?
    ensures Next(s, Upgrading(step)) == PrepareNext(s, step)
  {
    hide IsNewer, Rel, HasMain;
  }

  lemma PrepareIsAllowed(regime: Regime, s: State, step: RunStep)
    requires PrepareNext(s, step).Some? && (step.Start? ==> StartFits(regime, s.disk, step.to))
    ensures Allowed(regime, s, Upgrading(step))
  {
    hide IsNewer, Rel, HasMain, NamedIn;
  }

  lemma LaunchIsAllowed(regime: Regime, s: State, reported: string)
    requires s.proc == Ready && HasMain(s.disk.dirs, s.disk.current)
    requires !regime.Anything? ==> Clean(reported)
    requires regime.Tolerant? ==> !IsNewer(VersionOf(s.disk.current), reported)
    requires regime.Reliable? || regime.Ordered? ==> Rel(reported) == s.disk.current
    ensures Allowed(regime, s, Launch(reported))
    ensures Next(s, Launch(reported)) == Some(s.(proc := Boot(reported, Reconciling)))
  {
    hide IsNewer, Rel, VersionOf, HasMain, NamedIn, GuardNext, BootNext, RunNext;
  }

  /** What a regime asks of a step that commits or undoes a swap. */
  ghost predicate SwapFits(regime: Regime, s: State, step: RunStep) {
    && (!regime.Anything? ==> NamesClean(Upgrading(step)))
    && (regime.Reliable? ==> AllDone(Upgrading(step)) && Honest(s, Upgrading(step)))
    && (regime.Tolerant? ==> !Strands(Upgrading(step)) && NotOlder(s, Upgrading(step)))
    && (regime.Ordered? ==> Honest(s, Upgrading(step)))
  }

  lemma SwapIsAllowed(regime: Regime, s: State, step: RunStep)
    requires !step.Start? && SwapFits(regime, s, step)
    ensures Allowed(regime, s, Upgrading(step))
  {
    hide IsNewer, Rel, VersionOf, NamedIn;
  }

  lemma NewerMeansGreater(candidate: string, current: string)
    ensures Compare(candidate, current) == Some(Greater) <==> IsNewer(candidate, current)
  {
  }

  lemma AdmittedIsNewer(gate: Gate, version: string, to: string)
    requires Admits(gate, version, to)
    ensures IsNewer(to, version)
  {
  }

  // ----- what the gates let through -----

  /** The first listed release of this version carries a digest. */
  predicate FirstHasDigest(listed: seq<Listing>, version: string) {
    exists i :: 0 <= i < |listed| && listed[i].version == version && listed[i].hasDigest
                && forall j :: 0 <= j < i ==> listed[j].version != version
  }

  /** The listed release that stands out: newer than every one behind it, and the first that is. */
  ghost predicate StandsOutAmong(listed: seq<Listing>, k: nat) {
    && k < |listed|
    && (forall j :: k < j < |listed| ==> IsNewer(listed[k].version, listed[j].version))
    && (forall i :: 0 <= i < k ==> exists j :: i < j < |listed| && !IsNewer(listed[i].version, listed[j].version))
  }

  lemma {:induction false} VersionsInOrder(listed: seq<Listing>)
    ensures |VersionsOf(listed)| == |listed|
    ensures forall i :: 0 <= i < |listed| ==> VersionsOf(listed)[i] == listed[i].version
  {
    if listed != [] {
      VersionsInOrder(listed[1..]);
    }
  }

  lemma {:induction false} FindsTheFirst(listed: seq<Listing>, version: string)
    ensures Find(listed, version).Some? && Find(listed, version).value.hasDigest <==> FirstHasDigest(listed, version)
  {
    if listed != [] {
      var rest := listed[1..];
      FindsTheFirst(rest, version);
      if listed[0].version == version {
        assert listed[0].hasDigest ==> FirstHasDigest(listed, version);
      } else {
        FirstHasDigestBehind(listed, version);
      }
    }
  }

  lemma FirstHasDigestBehind(listed: seq<Listing>, version: string)
    requires listed != [] && listed[0].version != version
    ensures FirstHasDigest(listed, version) <==> FirstHasDigest(listed[1..], version)
  {
    var rest := listed[1..];
    if i :| 0 <= i < |rest| && rest[i].version == version && rest[i].hasDigest
            && forall j :: 0 <= j < i ==> rest[j].version != version {
      forall j | 0 <= j < i + 1 ensures listed[j].version != version {
        assert j == 0 || listed[j] == rest[j - 1];
      }
      assert listed[i + 1] == rest[i];
    }
    if i :| 0 <= i < |listed| && listed[i].version == version && listed[i].hasDigest
            && forall j :: 0 <= j < i ==> listed[j].version != version {
      assert rest[i - 1] == listed[i];
      forall j | 0 <= j < i - 1 ensures rest[j].version != version {
        assert rest[j] == listed[j + 1];
      }
    }
  }

  lemma SameStandsOut(listed: seq<Listing>, versions: seq<string>, k: nat)
    requires |versions| == |listed| && forall i :: 0 <= i < |listed| ==> versions[i] == listed[i].version
    ensures StandsOut(versions, k) <==> StandsOutAmong(listed, k)
  {
    hide IsNewer;
    if StandsOut(versions, k) {
      forall i | 0 <= i < k ensures exists j :: i < j < |listed| && !IsNewer(listed[i].version, listed[j].version) {
        var j :| i < j < |versions| && !IsNewer(versions[i], versions[j]);
        assert !IsNewer(listed[i].version, listed[j].version);
      }
      assert forall j :: k < j < |listed| ==> IsNewer(versions[k], versions[j]);
    }
    if StandsOutAmong(listed, k) {
      forall i | 0 <= i < k ensures exists j :: i < j < |versions| && !IsNewer(versions[i], versions[j]) {
        var j :| i < j < |listed| && !IsNewer(listed[i].version, listed[j].version);
        assert !IsNewer(versions[i], versions[j]);
      }
      assert forall j :: k < j < |listed| ==> IsNewer(listed[k].version, listed[j].version);
    }
  }

  /** It has this version. */
  ghost predicate Outstanding(listed: seq<Listing>, version: string) {
    exists k: nat :: k < |listed| && listed[k].version == version && StandsOutAmong(listed, k)
  }

  lemma LatestIsOutstanding(listed: seq<Listing>, to: string)
    requires listed != [] && VersionsOf(listed) != []
    ensures to == Latest(VersionsOf(listed)) <==> Outstanding(listed, to)
  {
    hide IsNewer, Latest, VersionsOf, StandsOut, StandsOutAmong;
    VersionsInOrder(listed);
    var k := LatestStandsOut(VersionsOf(listed));
    SameStandsOut(listed, VersionsOf(listed), k);
    assert k < |listed| by { StandsInBounds(listed, k); }
    if to == Latest(VersionsOf(listed)) {
      assert listed[k].version == to && StandsOutAmong(listed, k);
    }
    if l: nat :| l < |listed| && listed[l].version == to && StandsOutAmong(listed, l) {
      SameStandsOut(listed, VersionsOf(listed), l);
    }
  }

  lemma StandsInBounds(listed: seq<Listing>, k: nat)
    requires StandsOutAmong(listed, k)
    ensures k < |listed|
  {
  }

  lemma NoneOutstanding(to: string)
    ensures !Outstanding([], to)
  {
  }

  /** The gates, of any manifest and in terms of its entries alone: with the switch on, a managed layout
      and a valid address, an upgrade is admitted exactly to the release that stands out, if it is newer
      than what runs and the first entry of its version has a digest. */
  lemma AdmitsExactly(gate: Gate, version: string, to: string)
    ensures Admits(gate, version, to) <==>
            && gate.enabled && gate.managed && gate.urlValid && gate.manifest.Some? && IsNewer(to, version)
            && FirstHasDigest(gate.manifest.value, to) && Outstanding(gate.manifest.value, to)
  {
    hide IsNewer, Latest, VersionsOf, Find, Outstanding, FirstHasDigest;
    if gate.manifest.Some? {
      var listed := gate.manifest.value;
      FindsTheFirst(listed, to);
      if listed == [] {
        NoneOutstanding(to);
      } else {
        VersionsInOrder(listed);
        LatestIsOutstanding(listed, to);
      }
    }
  }

  /** Of a manifest all of whose versions can be read, what is admitted is listed, its first entry has a
      digest, it is newer than what runs, and no listed release is newer. */
  lemma AdmittedIsNewest(gate: Gate, version: string, to: string)
    requires Admits(gate, version, to) && gate.manifest.Some?
    requires forall i :: 0 <= i < |gate.manifest.value| ==> Parses(gate.manifest.value[i].version)
    ensures IsNewer(to, version) && FirstHasDigest(gate.manifest.value, to)
    ensures forall i :: 0 <= i < |gate.manifest.value| ==> !IsNewer(gate.manifest.value[i].version, to)
  {
    hide IsNewer, Parses, FirstHasDigest, Admits;
    AdmitsExactly(gate, version, to);
    var listed := gate.manifest.value;
    var k: nat :| k < |listed| && listed[k].version == to && StandsOutAmong(listed, k);
    forall i | 0 <= i < |listed| ensures !IsNewer(listed[i].version, to) {
      StandsAbove(listed, k, i);
    }
  }

  lemma {:induction false} StandsAbove(listed: seq<Listing>, k: nat, i: nat)
    requires StandsOutAmong(listed, k) && i < |listed|
    requires forall n :: 0 <= n < |listed| ==> Parses(listed[n].version)
    ensures !IsNewer(listed[i].version, listed[k].version)
    decreases |listed| - i
  {
    hide Parses, IsNewer;
    var to := listed[k].version;
    if i == k {
      IsNewerIrreflexive(to);
    } else if i > k {
      if IsNewer(listed[i].version, to) {
        IsNewerTransitive(to, listed[i].version, to);
      }
    } else {
      var j :| i < j < |listed| && !IsNewer(listed[i].version, listed[j].version);
      StandsAbove(listed, k, j);
      NotNewerChain(listed[i].version, listed[j].version, to);
    }
  }

  lemma NotNewerChain(a: string, b: string, c: string)
    requires Parses(a) && Parses(b) && Parses(c) && !IsNewer(a, b) && !IsNewer(b, c)
    ensures !IsNewer(a, c)
  {
    hide Parses, Compare;
    CompareReversed(a, b);
    CompareReversed(b, c);
    CompareReversed(a, c);
    TotalPreorder(a, b, c);
  }

  /** And a listed release that is newer than what runs and than every other listed version, with a digest
      in its first entry, is admitted when the other gates are open. */
  lemma NewestIsAdmitted(gate: Gate, version: string, to: string)
    requires gate.enabled && gate.managed && gate.urlValid && gate.manifest.Some? && IsNewer(to, version)
    requires FirstHasDigest(gate.manifest.value, to)
    requires forall i :: 0 <= i < |gate.manifest.value| && gate.manifest.value[i].version != to ==>
               IsNewer(to, gate.manifest.value[i].version)
    ensures Admits(gate, version, to)
  {
    hide IsNewer, Admits;
    var listed := gate.manifest.value;
    AdmitsExactly(gate, version, to);
    var i :| 0 <= i < |listed| && listed[i].version == to;
    var k := LastOfVersion(listed, to, i);
    forall n | 0 <= n < k ensures exists j :: n < j < |listed| && !IsNewer(listed[n].version, listed[j].version) {
      IsNewerIrreflexive(to);
      if IsNewer(listed[n].version, listed[k].version) {
        IsNewerTransitive(to, listed[n].version, to);
      }
    }
    assert StandsOutAmong(listed, k);
  }

  lemma {:induction false} LastOfVersion(listed: seq<Listing>, version: string, i: nat) returns (k: nat)
    requires i < |listed| && listed[i].version == version
    ensures k < |listed| && listed[k].version == version
    ensures forall j :: k < j < |listed| ==> listed[j].version != version
    decreases |listed| - i
  {
    if j :| i < j < |listed| && listed[j].version == version {
      k := LastOfVersion(listed, version, j);
    } else {
      k := i;
    }
  }

  // ----- retention -----

  /** How many releases are kept beyond what is named. */
  const KEEP_RELEASES: nat := 3

  function First(listing: seq<string>, n: nat): seq<string> { if n <= |listing| then listing[..n] else listing }

  predicate Doomed(listing: seq<string>, j: Journal, current: string, dir: string) {
    && dir != j.previous && dir != j.target && dir != current
    && exists i :: KEEP_RELEASES <= i < |listing| && dir == Rel(listing[i])
  }

  /** The releases after pruning: the doomed ones are gone, or left with the files that stayed. */
  function Pruned(listing: seq<string>, j: Journal, current: string, leftovers: map<string, set<string>>,
                  dirs: map<string, set<string>>): map<string, set<string>> {
    map dir | dir in dirs && (Doomed(listing, j, current, dir) ==> dir in leftovers) ::
      if Doomed(listing, j, current, dir) then dirs[dir] * leftovers[dir] else dirs[dir]
  }

  /** What pruning leaves, by some listing of the names, newest first if they can be ordered. */
  ghost predicate Retains(listing: seq<string>, names: seq<string>, j: Journal, current: string,
                          leftovers: map<string, set<string>>, before: map<string, set<string>>,
                          after: map<string, set<string>>) {
    && multiset(listing) == multiset(names) && (AllParse(names) ==> NewestFirst(listing))
    && after == Pruned(listing, j, current, leftovers, before)
  }

  lemma NonePruned(listing: seq<string>, j: Journal, current: string, leftovers: map<string, set<string>>,
                   dirs: map<string, set<string>>)
    requires |listing| <= KEEP_RELEASES
    ensures Pruned(listing, j, current, leftovers, dirs) == dirs
  {
  }

  lemma PrunedSnoc(listing: seq<string>, v: string, j: Journal, current: string, leftovers: map<string, set<string>>,
                   dirs: map<string, set<string>>)
    requires KEEP_RELEASES <= |listing|
    ensures var was, dir := Pruned(listing, j, current, leftovers, dirs), Rel(v);
            Pruned(listing + [v], j, current, leftovers, dirs) ==
              if dir == j.previous || dir == j.target || dir == current || dir !in was then was
              else if dir in leftovers then was[dir := was[dir] * leftovers[dir]]
              else was - {dir}
  {
    hide Rel;
    var all := listing + [v];
    assert all[|listing|] == v;
    forall dir ensures Doomed(all, j, current, dir) <==>
        Doomed(listing, j, current, dir) || (dir == Rel(v) && dir != j.previous && dir != j.target && dir != current)
    {
      if i :| KEEP_RELEASES <= i < |listing| && dir == Rel(listing[i]) {
        assert all[i] == listing[i];
      }
    }
  }

  /** Of versions that can be read, what is pruned is never newer than what is kept for being new. */
  lemma PrunesNothingNewer(listing: seq<string>, j: Journal, current: string, dir: string, k: nat)
    requires NewestFirst(listing) && Doomed(listing, j, current, dir) && k < KEEP_RELEASES
    ensures k < |listing| && !IsNewer(VersionOf(dir), listing[k])
  {
    hide IsNewer;
    var i :| KEEP_RELEASES <= i < |listing| && dir == Rel(listing[i]);
    RelIsRelease(listing[i]);
  }

  /** Of different names, the first three stay for being new, and those behind them go unless they are named. */
  lemma NewestThreeStay(listing: seq<string>, j: Journal, current: string, k: nat)
    requires k < |listing| && forall i, l :: 0 <= i < l < |listing| ==> listing[i] != listing[l]
    ensures var dir := Rel(listing[k]);
            Doomed(listing, j, current, dir) <==> k >= 3 && dir !in {j.previous, j.target, current}
  {
    hide Rel, VersionOf;
    RelIsRelease(listing[k]);
    if i :| 3 <= i < |listing| && Rel(listing[k]) == Rel(listing[i]) {
      RelIsRelease(listing[i]);
    }
  }

  // ----- any life of the machine -----

  /** What can happen next, as far as it can happen. */
  datatype Action =
    | RunGuard(guard: GuardIo, stamp: Stamp)
    | StartBinary(reported: string)
    | Come(boot: BootIo, stamp: Stamp, names: seq<string>)
    | AskFor(to: string, gate: Gate, run: RunIo, stamp: Stamp)
    | Stop
    | PowerOff(view: View, survivors: map<string, set<string>>)
    | Settle

  /** Conditions on the outcomes of operations alone. */
  ghost predicate Fits(regime: Regime, a: Action) {
    match a
    case RunGuard(io, _) => GuardFits(regime, io)
    case Come(io, _, _) => BootFits(regime, io)
    case AskFor(to, _, io, _) => RunFits(regime, to, io) && (!regime.Anything? ==> Clean(to))
    case _ => true
  }

  /** A machine that starts from a fresh install and goes on in any way, with the code's own checks and
      honest binaries, every operation succeeding or the process or the machine stopping: at the end,
      and after every operation on the way, the directory is safe and the journal says which release
      is current. */
  method Live(version: string, dirs: map<string, set<string>>, actions: seq<Action>) returns (dir: Directory)
    requires HasMain(dirs, Rel(version)) && Clean(version)
    requires forall i :: 0 <= i < |actions| ==> Fits(Reliable, actions[i])
    ensures fresh(dir) && dir.Valid() && Safe(dir.Now())
    ensures forall k :: 0 <= k <= |dir.trace| ==>
              Run(Reliable, dir.origin, dir.trace[..k]).Some? && Safe(Run(Reliable, dir.origin, dir.trace[..k]).value)
    ensures dir.journal.Some? ==> dir.current in Named(dir.journal.value)
  {
    hide Run, Initial, Safe, HasMain, Survives, KeepsReleases, RunFits, GuardFits, BootFits, Ended, Admits, Named,
        Retains, NamedIn;
    dir := new Directory(Reliable, dirs, version);
    for i := 0 to |actions|
      invariant fresh(dir) && dir.Valid() && dir.regime == Reliable && Initial(dir.origin)
    {
      Perform(dir, actions[i]);
    }
    WhatTheyDidIsSafe(dir);
    JournalDeterminesCurrent(dir.origin, dir.trace, dir.Now());
  }

  method Perform(dir: Directory, a: Action)
    requires dir.Valid() && dir.regime == Reliable && Initial(dir.origin) && Fits(Reliable, a)
    modifies dir
    ensures dir.Valid()
  {
    hide Run, Initial, Clean, Tidy, CleanJournal, HasMain, Survives, RunFits, GuardFits, BootFits, Ended, Admits, Named,
        Retains, NamedIn, Rel, VersionOf;
    match a
    case RunGuard(io, stamp) =>
      if dir.proc == Down {
        dir.GuardMain(io, stamp);
      }
    case StartBinary(reported) =>
      if dir.proc == Ready && HasMain(dir.dirs, dir.current) && Rel(reported) == dir.current {
        JournalsStayClean(Reliable, dir.origin, dir.trace, dir.Now());
        assert Present(dir.OnDisk()) in Views(dir.OnDisk());
        CleanNames(reported);
        dir.Launch(reported);
      }
    case Come(io, stamp, names) =>
      if dir.proc.Boot? && dir.proc.boot == Reconciling {
        ghost var _ := dir.Reconcile(dir.proc.version, io, stamp, names);
      }
    case AskFor(to, gate, io, stamp) =>
      if dir.proc.Serving? && dir.proc.phase == Idle {
        var _ := dir.Upgrade(dir.proc.version, to, gate, io, stamp);
      }
    case Stop =>
      dir.Crash();
    case PowerOff(view, survivors) =>
      if view in Views(dir.OnDisk()) && Survives(dir.OnDisk(), survivors)
          && KeepsReleases(dir.Now(), PowerLoss(view, survivors)) {
        dir.LosePower(view, survivors);
      }
    case Settle =>
      dir.WriteBack();
  }
}
