/** The self-upgrade protocol as a transition system.

    Three actors share one directory: the process that upgrades itself, the boot guard that runs
    before every start by the service manager, and the newly started process that reconciles the
    journal. Every file operation is one step, so a crash can fall between any two of them. `exec`
    replaces the process without a start by the service manager, hence without the guard.

    What was not synced can be undone by a power loss. The link, the journal and the counter are
    entries of one directory, so one sync of it settles all three. */
module Protocol {
  import opened Wrappers
  import opened JournalFile
  import opened Versions

  const MAIN_BINARY: string := "nudo-all-in-one"

  // ----- names -----

  const RELEASES: string := "releases/"

  /** The release directory of a version, relative to the self directory. */
  function Rel(version: string): (path: string)
    ensures VersionOf(path) == version
  {
    RELEASES + version
  }

  lemma CleanNames(version: string)
    ensures Clean(Rel(version)) <==> Clean(version)
  {
    assert '\n' !in RELEASES && RELEASES[|RELEASES| - 1] == '/';
    if '\n' in version {
      assert '\n' in Rel(version);
    }
  }

  function VersionOf(path: string): string { if |RELEASES| <= |path| then path[|RELEASES|..] else path }

  // ----- state -----

  /** The entries of the self directory: where `current` points, the journal and the boot-attempts
      counter (an absent counter is zero). */
  datatype View = View(current: string, journal: Option<Journal>, attempts: nat)

  /** The files in each release directory, the present entries of the self directory, the earlier ones a
      power loss can bring back, and the release directories whose own entry is not synced. */
  datatype Disk = Disk(
    dirs: map<string, set<string>>, current: string, journal: Option<Journal>, attempts: nat,
    past: set<View>, loose: set<string>)

  function Present(d: Disk): View { View(d.current, d.journal, d.attempts) }

  /** Everything a start may find: the present entries and those a power loss can bring back. */
  function Views(d: Disk): set<View> { d.past + {Present(d)} }

  predicate HasMain(dirs: map<string, set<string>>, path: string) { path in dirs && MAIN_BINARY in dirs[path] }

  /** The journal says a release is swapped in and has not confirmed itself. */
  predicate ArmedView(v: View) { v.journal.Some? && v.journal.value.state == Swapped }

  predicate Armed(d: Disk) { ArmedView(Present(d)) }

  /** What a start from these entries may have to run: the current release, and while a swap is
      unconfirmed the one the guard would revert to. */
  predicate Needs(v: View, path: string) { path == v.current || (ArmedView(v) && path == v.journal.value.previous) }

  predicate NamedIn(views: set<View>, path: string) { exists v :: v in views && Needs(v, path) }

  /** Where an upgrade is; anything but `Idle` holds the one live slot. */
  datatype Phase =
    | Idle
    | Clearing(to: string)
    | Downloading(to: string)
    | Unpacking(to: string)
    | Staging(to: string)
    | Swapping(journal: Journal)
    | Recording(journal: Journal)
    | Execing(journal: Journal)
    | Reverting(journal: Journal)
    | RecordingExecFailure(journal: Journal)
    | Failing(to: string)

  datatype GuardAt = Deciding | RecordingRevert | Resetting

  datatype BootAt = Reconciling | ClearingCounter(journal: Journal) | Pruning(journal: Journal)

  datatype Proc =
    | Down
    | Guard(guard: GuardAt)
    | Ready
    | Boot(version: string, boot: BootAt)
    | Serving(version: string, phase: Phase)

  /** `confirmed` is a history variable: the versions ever recorded as confirmed, in order. */
  datatype State = State(disk: Disk, proc: Proc, confirmed: seq<string>)

  // ----- steps -----

  /** How a file operation ends: it succeeds and the directory is synced, it fails without having changed
      anything, or it fails after the change (a rename that worked, a directory sync that did not). */
  datatype Effect = Done | NoEffect | LateError

  /** An error text as the journal keeps it, on one line. */
  type Message = s: string | '\n' !in s && '\r' !in s

  /** The time and the message that go into a journal record. */
  datatype Stamp = Stamp(now: Seconds, error: Message)

  datatype GuardStep =
    | Begin
    | StandDown
    | Reset(effect: Effect)
    | Count(effect: Effect)
    | Revert(effect: Effect)
    | RecordRevert(effect: Effect, stamp: Stamp)

  datatype BootStep =
    | Unread
    | Skip
    | Confirm(effect: Effect, stamp: Stamp)
    | Mismatch(effect: Effect, stamp: Stamp)
    | ClearCounter(effect: Effect)
    | PruneFiles(dir: string, left: set<string>)
    | PruneDir(dir: string)
    | Serve

  datatype RunStep =
    | Start(to: string)
    | RemoveFiles(left: set<string>)
    | RemoveDir
    | Cleared
    | Downloaded
    | Extract(file: string)
    | Unpacked
    | Abort
    | Stage(effect: Effect, stamp: Stamp)
    | Swap(effect: Effect)
    | RecordSwap(effect: Effect, stamp: Stamp)
    | Exec(reported: string)
    | ExecFails
    | SwapBack(effect: Effect)
    | RecordExecFailure(effect: Effect, stamp: Stamp)
    | RecordFailure(effect: Effect, stamp: Stamp)

  /** `Launch` is the service manager starting what `current` names; `reported` is the version that
      binary says it is. A process can stop between two operations (`Crash`) or inside one, after the
      change and before the sync (`Killed`). A power loss brings back one of the views and any release
      directories that keep what was synced; `Writeback` is the system syncing on its own. */
  datatype Label =
    | Crash
    | Killed(op: Label)
    | PowerLoss(view: View, dirs: map<string, set<string>>)
    | Writeback
    | Guarding(guard: GuardStep)
    | Launch(reported: string)
    | Booting(boot: BootStep)
    | Upgrading(run: RunStep)

  predicate Stops(l: Label) { l.Crash? || l.Killed? || l.PowerLoss? }

  /** The directory-syncing operation a step is, and how it ends. */
  function SyncingEffect(l: Label): Option<Effect> {
    match l
    case Guarding(g) => if g.Count? || g.Revert? || g.RecordRevert? then Some(g.effect) else None
    case Booting(b) => if b.Confirm? || b.Mismatch? then Some(b.effect) else None
    case Upgrading(r) =>
      if r.Stage? || r.Swap? || r.RecordSwap? || r.SwapBack? || r.RecordExecFailure? || r.RecordFailure?
      then Some(r.effect) else None
    case _ => None
  }

  // ----- the file operations -----

  /** What a power loss can bring back after a directory-syncing operation on `d`. */
  function Pending(d: Disk, effect: Effect): set<View> {
    match effect
    case Done => {}
    case NoEffect => d.past
    case LateError => Views(d)
  }

  function StoreJournal(d: Disk, j: Journal, effect: Effect): Disk {
    if effect.NoEffect? then d else d.(journal := Some(j), past := Pending(d, effect))
  }

  function SwapCurrent(d: Disk, path: string, effect: Effect): Disk {
    if effect.NoEffect? then d else d.(current := path, past := Pending(d, effect))
  }

  function WriteAttempts(d: Disk, n: nat, effect: Effect): Disk {
    if effect.NoEffect? then d else d.(attempts := n, past := Pending(d, effect))
  }

  /** Removing the counter does not sync the directory. */
  function ClearAttempts(d: Disk, effect: Effect): Disk {
    if effect.NoEffect? then d else d.(attempts := 0, past := Views(d))
  }

  /** A release directory whose entry is synced keeps at least its files; of the others anything may be
      left. */
  predicate Survives(d: Disk, dirs: map<string, set<string>>) {
    forall dir :: dir in d.dirs && dir !in d.loose ==> dir in dirs && d.dirs[dir] <= dirs[dir]
  }

  function AfterPowerLoss(v: View, dirs: map<string, set<string>>): Disk {
    Disk(dirs, v.current, v.journal, v.attempts, {}, {})
  }

  function WithState(j: Journal, state: JournalState, stamp: Stamp): Journal {
    j.(state := state, updatedAt := stamp.now, error := stamp.error)
  }

  function StagedJournal(version: string, to: string, current: string, stamp: Stamp): Journal {
    Journal(Staged, version, to, current, Rel(to), stamp.now, "")
  }

  // ----- the boot guard -----

  ghost function GuardNext(s: State, step: GuardStep): Option<State> {
    var d := s.disk;
    match step
    case Begin =>
      if s.proc != Down then None else Some(s.(proc := Guard(Deciding)))
    case StandDown =>
      if s.proc != Guard(Deciding) then None else Some(s.(proc := Ready))
    case Reset(effect) =>
      if !((s.proc == Guard(Deciding) && !Armed(d)) || s.proc == Guard(Resetting)) then None
      else Some(s.(disk := ClearAttempts(d, effect), proc := Ready))
    case Count(effect) =>
      if !(s.proc == Guard(Deciding) && Armed(d) && d.attempts + 1 < MAX_BOOT_ATTEMPTS) then None
      else Some(s.(disk := WriteAttempts(d, d.attempts + 1, effect), proc := Ready))
    case Revert(effect) =>
      if !(s.proc == Guard(Deciding) && Armed(d) && d.attempts + 1 >= MAX_BOOT_ATTEMPTS) then None
      else
        Some(s.(disk := SwapCurrent(d, d.journal.value.previous, effect),
                proc := if effect.Done? then Guard(RecordingRevert) else Ready))
    case RecordRevert(effect, stamp) =>
      if s.proc != Guard(RecordingRevert) || d.journal.None? then None
      else
        Some(s.(disk := StoreJournal(d, WithState(d.journal.value, RolledBack, stamp), effect),
                proc := Guard(Resetting)))
  }

  // ----- a starting process -----

  ghost function BootNext(s: State, step: BootStep): Option<State> {
    if !s.proc.Boot? then None
    else
      var d, v, at := s.disk, s.proc.version, s.proc.boot;
      match step
      case Unread =>
        if at != Reconciling then None else Some(s.(proc := Serving(v, Idle)))
      case Skip =>
        if at != Reconciling || Armed(d) then None else Some(s.(proc := Serving(v, Idle)))
      case Confirm(effect, stamp) =>
        if at != Reconciling || !Armed(d) || d.journal.value.toVersion != v then None
        else
          Some(State(StoreJournal(d, WithState(d.journal.value, Confirmed, stamp), effect),
                     if effect.Done? then Boot(v, ClearingCounter(d.journal.value)) else Serving(v, Idle),
                     if effect.NoEffect? then s.confirmed else s.confirmed + [v]))
      case Mismatch(effect, stamp) =>
        if at != Reconciling || !Armed(d) || d.journal.value.toVersion == v then None
        else
          Some(s.(disk := StoreJournal(d, WithState(d.journal.value, Failed, stamp), effect),
                  proc := Serving(v, Idle)))
      case ClearCounter(effect) =>
        if !at.ClearingCounter? then None
        else Some(s.(disk := ClearAttempts(d, effect), proc := Boot(v, Pruning(at.journal))))
      case PruneFiles(dir, left) =>
        if !at.Pruning? || !Prunable(d, at.journal, dir) then None
        else Some(s.(disk := d.(dirs := d.dirs[dir := d.dirs[dir] * left])))
      case PruneDir(dir) =>
        if !at.Pruning? || !Prunable(d, at.journal, dir) then None
        else Some(s.(disk := d.(dirs := d.dirs - {dir})))
      case Serve =>
        if !at.Pruning? then None else Some(s.(proc := Serving(v, Idle)))
  }

  /** Retention never touches what `current` or the journal names. */
  predicate Prunable(d: Disk, j: Journal, dir: string) {
    dir in d.dirs && dir != j.previous && dir != j.target && dir != d.current
  }

  // ----- the upgrade itself -----

  /** Everything before the journal is written: clear the leftovers, download, verify, and unpack into a release
      directory made anew, which nothing but this upgrade could have made since. */
  ghost function PrepareNext(s: State, step: RunStep): Option<State> {
    if !s.proc.Serving? then None
    else
      var d, v, phase := s.disk, s.proc.version, s.proc.phase;
      match step
      case Start(to) =>
        if phase != Idle || !IsNewer(to, v) then None else Some(s.(proc := Serving(v, Clearing(to))))
      case RemoveFiles(left) =>
        if !phase.Clearing? || Rel(phase.to) !in d.dirs then None
        else Some(s.(disk := d.(dirs := d.dirs[Rel(phase.to) := d.dirs[Rel(phase.to)] * left])))
      case RemoveDir =>
        if !phase.Clearing? then None else Some(s.(disk := d.(dirs := d.dirs - {Rel(phase.to)})))
      case Cleared =>
        if !phase.Clearing? || Rel(phase.to) in d.dirs then None
        else Some(s.(proc := Serving(v, Downloading(phase.to))))
      case Downloaded =>
        if !phase.Downloading? || Rel(phase.to) in d.dirs then None
        else
          Some(s.(disk := d.(dirs := d.dirs[Rel(phase.to) := {}], loose := d.loose + {Rel(phase.to)}),
                  proc := Serving(v, Unpacking(phase.to))))
      case Extract(file) =>
        if !phase.Unpacking? || Rel(phase.to) !in d.dirs then None
        else Some(s.(disk := d.(dirs := d.dirs[Rel(phase.to) := d.dirs[Rel(phase.to)] + {file}])))
      case Unpacked =>
        if !phase.Unpacking? || !HasMain(d.dirs, Rel(phase.to)) then None
        else Some(s.(proc := Serving(v, Staging(phase.to))))
      case Abort =>
        if !(phase.Clearing? || phase.Downloading? || phase.Unpacking? || phase.Staging?) then None
        else Some(s.(proc := Serving(v, Failing(phase.to))))
      case _ => None
  }

  /** From the staged journal to `exec`. */
  ghost function CommitNext(s: State, step: RunStep): Option<State> {
    if !s.proc.Serving? then None
    else
      var d, v, phase := s.disk, s.proc.version, s.proc.phase;
      match step
      case Stage(effect, stamp) =>
        if !phase.Staging? then None
        else
          var j := StagedJournal(v, phase.to, d.current, stamp);
          Some(s.(disk := StoreJournal(d, j, effect),
                  proc := Serving(v, if effect.Done? then Swapping(j) else Failing(phase.to))))
      case Swap(effect) =>
        if !phase.Swapping? then None
        else
          Some(s.(disk := SwapCurrent(d, phase.journal.target, effect),
                  proc := Serving(v, if effect.Done? then Recording(phase.journal)
                      else Failing(phase.journal.toVersion))))
      case RecordSwap(effect, stamp) =>
        if !phase.Recording? then None
        else
          var j := phase.journal.(state := Swapped, updatedAt := stamp.now);
          Some(s.(disk := StoreJournal(d, j, effect),
                  proc := Serving(v, if effect.Done? then Execing(j) else Failing(j.toVersion))))
      case Exec(reported) =>
        if !phase.Execing? || !HasMain(d.dirs, d.current) then None else Some(s.(proc := Boot(reported, Reconciling)))
      case ExecFails =>
        if !phase.Execing? then None else Some(s.(proc := Serving(v, Reverting(phase.journal))))
      case _ => None
  }

  /** What follows a failed `exec`, and the record of a failed upgrade. */
  ghost function UndoNext(s: State, step: RunStep): Option<State> {
    if !s.proc.Serving? then None
    else
      var d, v, phase := s.disk, s.proc.version, s.proc.phase;
      match step
      case SwapBack(effect) =>
        if !phase.Reverting? then None
        else
          Some(s.(disk := SwapCurrent(d, phase.journal.previous, effect),
                  proc := Serving(v, if effect.Done? then RecordingExecFailure(phase.journal)
                      else Failing(phase.journal.toVersion))))
      case RecordExecFailure(effect, stamp) =>
        if !phase.RecordingExecFailure? then None
        else
          Some(s.(disk := StoreJournal(d, WithState(phase.journal, JournalState.ExecFailed, stamp), effect),
                  proc := Serving(v, if effect.Done? then Idle else Failing(phase.journal.toVersion))))
      case RecordFailure(effect, stamp) =>
        if !phase.Failing? then None
        else
          Some(s.(disk := StoreJournal(d, Journal(Failed, v, phase.to, "", "", stamp.now, stamp.error), effect),
                  proc := Serving(v, Idle)))
      case _ => None
  }

  ghost function RunNext(s: State, step: RunStep): Option<State> {
    match step
    case Stage(_, _) => CommitNext(s, step)
    case Swap(_) => CommitNext(s, step)
    case RecordSwap(_, _) => CommitNext(s, step)
    case Exec(_) => CommitNext(s, step)
    case ExecFails => CommitNext(s, step)
    case SwapBack(_) => UndoNext(s, step)
    case RecordExecFailure(_, _) => UndoNext(s, step)
    case RecordFailure(_, _) => UndoNext(s, step)
    case _ => PrepareNext(s, step)
  }

  // ----- runs -----

  /** The release directory that is being filled; it is only on disk when it is complete and synced. */
  function Filling(proc: Proc): set<string> {
    if proc.Serving? && proc.phase.Unpacking? then {Rel(proc.phase.to)} else {}
  }

  ghost function Next(s: State, l: Label): Option<State> {
    match l
    case Crash => Some(s.(proc := Down))
    case Killed(op) =>
      if SyncingEffect(op) != Some(LateError) || Next(s, op).None? then None
      else Some(Next(s, op).value.(proc := Down))
    case PowerLoss(view, dirs) =>
      if view !in Views(s.disk) || !Survives(s.disk, dirs) then None
      else Some(s.(disk := AfterPowerLoss(view, dirs), proc := Down))
    case Writeback => Some(s.(disk := s.disk.(past := {}, loose := Filling(s.proc))))
    case Guarding(step) => GuardNext(s, step)
    case Launch(reported) =>
      if s.proc != Ready || !HasMain(s.disk.dirs, s.disk.current) then None
      else Some(s.(proc := Boot(reported, Reconciling)))
    case Booting(step) => BootNext(s, step)
    case Upgrading(step) => RunNext(s, step)
  }

  /** A step that starts a binary through `current`, and the version that binary says it is. */
  predicate StartsBinary(l: Label) { l.Launch? || (l.Upgrading? && l.run.Exec?) }

  function Reported(l: Label): string
    requires StartsBinary(l)
  {
    if l.Launch? then l.reported else l.run.reported
  }

  /** A version that comes into play, as the target of an upgrade or reported by a binary, is a line that the
      journal keeps as it is. */
  predicate NamesClean(l: Label) {
    && (l.Upgrading? && l.run.Start? ==> Clean(l.run.to))
    && (StartsBinary(l) ==> Clean(Reported(l)))
  }

  /** It reports the version of the directory it was started from. */
  predicate Honest(s: State, l: Label) { StartsBinary(l) ==> Rel(Reported(l)) == s.disk.current }

  /** It does not report an older version than that of its directory. */
  ghost predicate NotOlder(s: State, l: Label) {
    StartsBinary(l) ==> !IsNewer(VersionOf(s.disk.current), Reported(l))
  }

  /** The failures after which an upgrade gives up while `current` still names its target: the swap
      reports an error after the rename, the swap cannot be recorded, or the swap back does nothing. */
  predicate Strands(l: Label) {
    match l
    case Upgrading(Swap(effect)) => effect.LateError?
    case Upgrading(RecordSwap(effect, _)) => !effect.Done?
    case Upgrading(SwapBack(effect)) => effect.NoEffect?
    case _ => false
  }

  /** An upgrade to a release that one of these views needs. */
  predicate StartsOver(views: set<View>, l: Label) {
    l.Upgrading? && l.run.Start? && NamedIn(views, Rel(l.run.to))
  }

  predicate KeepsDir(before: map<string, set<string>>, after: map<string, set<string>>, path: string) {
    path in before ==> path in after && before[path] <= after[path]
  }

  /** A power loss does not lose a release that what it brings back needs. */
  predicate KeepsReleases(s: State, l: Label) {
    l.PowerLoss? ==>
      && KeepsDir(s.disk.dirs, l.dirs, l.view.current)
      && (ArmedView(l.view) ==> KeepsDir(s.disk.dirs, l.dirs, l.view.journal.value.previous))
  }

  predicate IsConfirm(l: Label) { l.Booting? && l.boot.Confirm? }

  /** A confirmation is either durable or not recorded. */
  predicate ConfirmSettles(l: Label) {
    && (IsConfirm(l) ==> !l.boot.effect.LateError?)
    && (l.Killed? ==> !IsConfirm(l.op))
  }

  /** The journal can be read, and every operation succeeds. */
  predicate AllDone(l: Label) {
    && l != Guarding(StandDown) && l != Booting(Unread)
    && (SyncingEffect(l).Some? ==> SyncingEffect(l).value.Done?)
    && (l.Guarding? && l.guard.Reset? ==> l.guard.effect.Done?)
    && (l.Booting? && l.boot.ClearCounter? ==> l.boot.effect.Done?)
  }

  /** What a run may contain, apart from downloads, verification, unpacking and `exec`, which may fail in
      every regime, and crashes and power losses, which may come at any time.

      `Careful`: anything may fail and binaries may report anything, but no upgrade starts over a release
      that a start could still need. `Tolerant`: any operation may fail except where that strands the
      upgrade, no binary reports an older version, and no upgrade starts over a release that only an
      unsynced older view needs. `Reliable`: honest binaries, and an operation that does not succeed
      stops the process or the machine. `Ordered`: honest binaries, and confirmations are recorded
      durably or not at all. In the first three a power loss keeps the releases it leaves needed. In all
      four a version is a single line (`NamesClean`). */
  datatype Regime = Anything | Careful | Tolerant | Reliable | Ordered

  /** What a regime asks of a step, apart from names. */
  ghost predicate Permits(regime: Regime, s: State, l: Label) {
    match regime
    case Anything => true
    case Careful => KeepsReleases(s, l) && !StartsOver(Views(s.disk), l)
    case Tolerant => KeepsReleases(s, l) && NotOlder(s, l) && !Strands(l) && !StartsOver(s.disk.past, l)
    case Reliable => KeepsReleases(s, l) && Honest(s, l) && AllDone(l)
    case Ordered => Honest(s, l) && ConfirmSettles(l)
  }

  ghost predicate Allowed(regime: Regime, s: State, l: Label) {
    Permits(regime, s, l) && (regime.Anything? || NamesClean(l))
  }

  ghost function Step(regime: Regime, s: State, l: Label): Option<State> {
    if Allowed(regime, s, l) then Next(s, l) else None
  }

  /** The state after a run, if it is one. */
  ghost function Run(regime: Regime, s: State, ls: seq<Label>): Option<State> {
    if ls == [] then Some(s)
    else
      match Run(regime, s, ls[..|ls| - 1])
      case None => None
      case Some(m) => Step(regime, m, ls[|ls| - 1])
  }

  lemma RunSnoc(regime: Regime, s: State, ls: seq<Label>, l: Label)
    requires Run(regime, s, ls).Some?
    ensures Run(regime, s, ls + [l]) == Step(regime, Run(regime, s, ls).value, l)
  {
    assert (ls + [l])[..|ls|] == ls;
  }

  lemma {:induction false} RunAppend(regime: Regime, s: State, a: seq<Label>, b: seq<Label>)
    requires Run(regime, s, a).Some?
    ensures Run(regime, s, a + b) == Run(regime, Run(regime, s, a).value, b)
  {
    if b == [] {
      assert a + b == a;
    } else {
      var init := b[..|b| - 1];
      RunAppend(regime, s, a, init);
      assert (a + b)[..|a + b| - 1] == a + init;
    }
  }

  /** A regime only removes steps. */
  lemma {:induction false} RunIsARun(regime: Regime, s: State, ls: seq<Label>)
    requires Run(regime, s, ls).Some?
    ensures Run(Anything, s, ls) == Run(regime, s, ls)
  {
    hide Next, Allowed;
    if ls != [] {
      RunIsARun(regime, s, ls[..|ls| - 1]);
      assert Allowed(Anything, Run(regime, s, ls[..|ls| - 1]).value, ls[|ls| - 1]) by { AnythingIsAllowed(); }
    }
  }

  lemma AnythingIsAllowed()
    ensures forall s, l :: Allowed(Anything, s, l)
  {
  }

  ghost predicate Reach(regime: Regime, s: State, t: State) { exists ls :: Run(regime, s, ls) == Some(t) }

  lemma ReachSelf(regime: Regime, s: State)
    ensures Reach(regime, s, s)
  {
    assert Run(regime, s, []) == Some(s);
  }

  lemma Then(regime: Regime, s: State, m: State, l: Label) returns (t: State)
    requires Reach(regime, s, m) && Step(regime, m, l).Some?
    ensures Reach(regime, s, t) && Step(regime, m, l) == Some(t)
  {
    hide Step;
    var ls :| Run(regime, s, ls) == Some(m);
    t := Step(regime, m, l).value;
    RunSnoc(regime, s, ls, l);
  }

  lemma ReachTransitive(regime: Regime, s: State, m: State, t: State)
    requires Reach(regime, s, m) && Reach(regime, m, t)
    ensures Reach(regime, s, t)
  {
    hide Step;
    var a :| Run(regime, s, a) == Some(m);
    var b :| Run(regime, m, b) == Some(t);
    RunAppend(regime, s, a, b);
  }

  /** A freshly installed layout, synced: `current` names a release that has the main binary and whose
      version is one line, and there is no journal yet. The counter may hold anything. */
  predicate Initial(s: State) {
    && s.proc == Down && s.confirmed == [] && s.disk.journal.None?
    && s.disk.past == {} && s.disk.loose == {} && Clean(s.disk.current)
    && s.disk.current == Rel(VersionOf(s.disk.current)) && HasMain(s.disk.dirs, s.disk.current)
  }
}
