/** The whole machine, the self directory and the directory of releases on their file systems, next to the
    protocol: over any history of the operations as they are carried out, of stops inside them and of power
    losses, what is on the file systems is what the protocol says. */
module DurableHistory {
  import opened Wrappers
  import opened JournalFile
  import Text
  import opened Versions
  import opened FileSystem
  import opened Protocol
  import opened ProtocolNames
  import opened ProtocolSafety
  import opened ProtocolText
  import opened DurableViews
  import opened DurableReleases

  datatype Machine = Machine(self: Fs, releases: Store)

  ghost predicate MachineShows(m: Machine, s: State) {
    Protected(m.self, SELF) && Shows(m.self, s.disk) && ShowsReleases(m.releases, s)
  }

  // ----- what a step does to the file systems -----

  /** The operation a step is, also when the process stops inside it. */
  function Operation(l: Label): Label { if l.Killed? then l.op else l }

  /** The entry a directory-syncing operation writes. */
  function EntryOf(l: Label): string {
    match Operation(l)
    case Guarding(Count(_)) => ATTEMPTS_FILE
    case Guarding(Revert(_)) => CURRENT_LINK
    case Upgrading(Swap(_)) => CURRENT_LINK
    case Upgrading(SwapBack(_)) => CURRENT_LINK
    case _ => JOURNAL_FILE
  }

  /** What it writes there, to make the entry what the protocol says it becomes. */
  function ContentOf(d: Disk, entry: string): string {
    if entry == CURRENT_LINK then d.current
    else if entry == ATTEMPTS_FILE then Text.Decimal(d.attempts)
    else if d.journal.Some? then Render(d.journal.value) else ""
  }

  /** The removal of the counter, and how it ends. */
  function Removal(l: Label): Option<Effect> {
    match l
    case Guarding(Reset(effect)) => Some(effect)
    case Booting(ClearCounter(effect)) => Some(effect)
    case _ => None
  }

  /** What becomes of the self directory in a step to `next`: a write that ended as the protocol says, as
      `StoreFile` and `ReplaceLink` guarantee; a removal, as `RemoveFile` does; a sync; or nothing. */
  ghost predicate SelfGoes(before: Fs, next: State, l: Label, now: Fs) {
    && Protected(now, SELF)
    && if SyncingEffect(Operation(l)).Some? then
         EndsAs(before, now, EntryOf(l), ContentOf(next.disk, EntryOf(l)), SyncingEffect(Operation(l)).value)
       else if Removal(l).Some? then
         if Removal(l).value.NoEffect? then now == before else Removed(before, now, SELF, ATTEMPTS_FILE)
       else if l.Writeback? then now == SyncDir(before)
       else now == before
  }

  /** What becomes of the directory of releases. */
  ghost predicate ReleasesGo(before: Store, s: State, l: Label, now: Store) {
    match l
    case Booting(PruneFiles(dir, left)) => dir in before.fs.entries && now == DropFiles(before, dir, left)
    case Booting(PruneDir(dir)) => now == DropDir(before, dir)
    case Writeback => now == SyncAllBut(before, Filling(s.proc))
    case Upgrading(step) =>
      if !(s.proc.Serving? && (s.proc.phase.Clearing? || s.proc.phase.Downloading? || s.proc.phase.Unpacking?))
      then now == before
      else
        var path := Rel(s.proc.phase.to);
        (match step
         case RemoveFiles(left) => path in before.fs.entries && now == DropFiles(before, path, left)
         case RemoveDir => now == DropDir(before, path)
         case Downloaded => path !in before.fs.entries && now == MakeDir(before, path)
         case Extract(file) => path in before.fs.entries && now == PutFile(before, path, file)
         case Unpacked => now == SyncRelease(before, path)
         case _ => now == before)
    case _ => now == before
  }

  /** The machine goes from `m` to `n` in this step of the protocol from `s`. */
  ghost predicate Goes(m: Machine, s: State, l: Label, n: Machine) {
    && !l.PowerLoss? && Next(s, l).Some?
    && SelfGoes(m.self, Next(s, l).value, l, n.self) && ReleasesGo(m.releases, s, l, n.releases)
  }

  /** The power fails: each of the two directories comes back as it may. */
  ghost predicate PowerFails(m: Machine, n: Machine) {
    Crashed(m.self, n.self) && StoreCrashed(m.releases, n.releases)
  }

  /** What the protocol makes of that. */
  function Loss(n: Machine): Label { PowerLoss(ViewOf(n.self), DirsOf(n.releases)) }

  // ----- the self directory -----

  /** The disk of the protocol changes by a write of this entry that ended so, and in nothing else. */
  predicate Writes(d: Disk, entry: string, effect: Effect, e: Disk) {
    if effect.NoEffect? then e == d
    else if entry == CURRENT_LINK then e == SwapCurrent(d, e.current, effect)
    else if entry == ATTEMPTS_FILE then e == WriteAttempts(d, e.attempts, effect) && e.attempts < MAX_BOOT_ATTEMPTS
    else e.journal.Some? && e == StoreJournal(d, e.journal.value, effect)
  }

  lemma GuardWrites(s: State, step: GuardStep, t: State)
    requires GuardNext(s, step) == Some(t) && SyncingEffect(Guarding(step)).Some?
    ensures Writes(s.disk, EntryOf(Guarding(step)), SyncingEffect(Guarding(step)).value, t.disk)
  {
    NamesDiffer();
  }

  lemma BootWrites(s: State, step: BootStep, t: State)
    requires BootNext(s, step) == Some(t) && SyncingEffect(Booting(step)).Some?
    ensures Writes(s.disk, EntryOf(Booting(step)), SyncingEffect(Booting(step)).value, t.disk)
  {
    NamesDiffer();
  }

  lemma CommitWrites(s: State, step: RunStep, t: State)
    requires CommitNext(s, step) == Some(t) && SyncingEffect(Upgrading(step)).Some?
    ensures Writes(s.disk, EntryOf(Upgrading(step)), SyncingEffect(Upgrading(step)).value, t.disk)
  {
    hide Rel, HasMain;
    NamesDiffer();
  }

  lemma UndoWrites(s: State, step: RunStep, t: State)
    requires UndoNext(s, step) == Some(t) && SyncingEffect(Upgrading(step)).Some?
    ensures Writes(s.disk, EntryOf(Upgrading(step)), SyncingEffect(Upgrading(step)).value, t.disk)
  {
    hide Rel, HasMain;
    NamesDiffer();
  }

  lemma RunWrites(s: State, step: RunStep, t: State)
    requires RunNext(s, step) == Some(t) && SyncingEffect(Upgrading(step)).Some?
    ensures Writes(s.disk, EntryOf(Upgrading(step)), SyncingEffect(Upgrading(step)).value, t.disk)
  {
    hide CommitNext, UndoNext, PrepareNext, Writes, EntryOf;
    if CommitNext(s, step) == Some(t) {
      CommitWrites(s, step, t);
    } else {
      UndoWrites(s, step, t);
    }
  }

  /** A directory-syncing operation changes the entry it writes and nothing else. */
  lemma SyncingWrites(s: State, l: Label, t: State)
    requires Next(s, l) == Some(t) && SyncingEffect(Operation(l)).Some?
    ensures Writes(s.disk, EntryOf(l), SyncingEffect(Operation(l)).value, t.disk)
  {
    hide GuardNext, BootNext, RunNext, Writes;
    var m := Next(s, Operation(l)).value;
    assert t.disk == m.disk;
    match Operation(l)
    case Guarding(step) => GuardWrites(s, step, m);
    case Booting(step) => BootWrites(s, step, m);
    case Upgrading(step) => RunWrites(s, step, m);
  }

  lemma RecordsTheJournal(l: Label)
    requires SyncingEffect(Operation(l)).Some?
    ensures Records(l) <==> EntryOf(l) == JOURNAL_FILE && !SyncingEffect(Operation(l)).value.NoEffect?
  {
    NamesDiffer();
  }

  /** What it does to the file system shows as what it does to the machine with the text. */
  lemma WriteShows(before: Fs, now: Fs, d: Disk, entry: string, effect: Effect, e: Disk)
    requires Shows(before, d) && EndsAs(before, now, entry, ContentOf(e, entry), effect) && Writes(d, entry, effect, e)
    requires entry == CURRENT_LINK || entry == ATTEMPTS_FILE || entry == JOURNAL_FILE
    ensures Shows(now, if entry == JOURNAL_FILE && !effect.NoEffect? then RereadDisk(e) else e)
  {
    hide Render, Parse, EndsAs, Shows;
    NamesDiffer();
    if effect.NoEffect? {
      NothingShows(before, now, d, entry, ContentOf(e, entry));
    } else if entry == CURRENT_LINK {
      SwapShows(before, now, d, e.current, effect);
    } else if entry == ATTEMPTS_FILE {
      CountShows(before, now, d, e.attempts, effect);
    } else {
      StoreShows(before, now, d, e.journal.value, effect);
    }
  }

  lemma NothingShows(before: Fs, now: Fs, d: Disk, entry: string, v: string)
    requires Shows(before, d) && EndsAs(before, now, entry, v, NoEffect)
    ensures Shows(now, d)
  {
    hide ToView, ToViews, States, PresentContents;
  }

  lemma SyncDirShows(fs: Fs, d: Disk, e: Disk)
    requires Shows(fs, d) && Protected(fs, SELF) && Present(e) == Present(d) && e.past == {}
    ensures Shows(SyncDir(fs), e) && Protected(SyncDir(fs), SELF)
  {
    SyncDirSettlesStates(fs, SELF.names);
    ViewsOfOne(PresentContents(fs, SELF.names));
    hide ToView, ToViews, States, PresentContents;
  }

  /** A step that neither writes nor removes an entry leaves the self directory as the protocol has it. */
  lemma OtherStepsLeave(s: State, l: Label, t: State)
    requires Next(s, l) == Some(t) && SyncingEffect(Operation(l)).None? && Removal(l).None?
    requires !l.PowerLoss? && !l.Writeback?
    ensures Present(t.disk) == Present(s.disk) && t.disk.past == s.disk.past && !Records(l)
  {
    hide Rel, IsNewer, HasMain;
  }

  lemma RemovalClears(s: State, l: Label, t: State)
    requires Next(s, l) == Some(t) && Removal(l).Some?
    ensures t.disk == ClearAttempts(s.disk, Removal(l).value) && !Records(l) && SyncingEffect(Operation(l)).None?
  {
    hide RunNext;
  }

  /** The self directory keeps showing what the protocol says. */
  lemma SelfKeepsShowing(before: Fs, s: State, l: Label, t: State, now: Fs)
    requires Protected(before, SELF) && Shows(before, s.disk) && !l.PowerLoss?
    requires Next(s, l) == Some(t) && SelfGoes(before, t, l, now)
    ensures Shows(now, if Records(l) then RereadDisk(t.disk) else t.disk)
  {
    hide Next, Shows, Protected, EndsAs, Removed, Writes, Reread, SyncDir, RunNext;
    if SyncingEffect(Operation(l)).Some? {
      SyncingWrites(s, l, t);
      RecordsTheJournal(l);
      WriteShows(before, now, s.disk, EntryOf(l), SyncingEffect(Operation(l)).value, t.disk);
    } else if Removal(l).Some? {
      RemovalClears(s, l, t);
      if !Removal(l).value.NoEffect? {
        ClearShows(before, now, s.disk);
      }
    } else if l.Writeback? {
      SyncsWhole(s, t);
      SyncDirShows(before, s.disk, t.disk);
    } else {
      OtherStepsLeave(s, l, t);
      SameViewsShow(before, s.disk, t.disk);
    }
  }

  lemma SyncsWhole(s: State, t: State)
    requires Next(s, Writeback) == Some(t)
    ensures Present(t.disk) == Present(s.disk) && t.disk.past == {} && t.proc == s.proc
    ensures t.disk.dirs == s.disk.dirs && t.disk.loose == Filling(s.proc)
  {
  }

  lemma SameViewsShow(fs: Fs, d: Disk, e: Disk)
    requires Shows(fs, d) && Present(e) == Present(d) && e.past == d.past
    ensures Shows(fs, e)
  {
    hide ToView, ToViews, States, PresentContents;
  }

  // ----- the directory of releases -----

  /** Nothing becomes of the releases, and none is begun. */
  predicate LeavesReleases(s: State, t: State) {
    t.disk.dirs == s.disk.dirs && t.disk.loose == s.disk.loose && Filling(t.proc) <= Filling(s.proc)
  }

  lemma LeftAsTheyAre(st: Store, s: State, t: State)
    requires ShowsReleases(st, s) && LeavesReleases(s, t)
    ensures ShowsReleases(st, t)
  {
    hide Consistent, DirsOf, Durable, MayLack, Filling;
  }

  lemma GuardLeavesReleases(s: State, step: GuardStep, t: State)
    requires GuardNext(s, step) == Some(t)
    ensures LeavesReleases(s, t)
  {
  }

  lemma CommitLeavesReleases(s: State, step: RunStep, t: State)
    requires CommitNext(s, step) == Some(t)
    ensures LeavesReleases(s, t)
  {
    hide Rel, HasMain;
  }

  lemma UndoLeavesReleases(s: State, step: RunStep, t: State)
    requires UndoNext(s, step) == Some(t)
    ensures LeavesReleases(s, t)
  {
    hide Rel;
  }

  lemma BootReleasesGo(before: Store, s: State, step: BootStep, t: State, now: Store)
    requires ShowsReleases(before, s) && BootNext(s, step) == Some(t)
    requires ReleasesGo(before, s, Booting(step), now)
    ensures ShowsReleases(now, t)
  {
    hide ShowsReleases, DirsOf;
    match step
    case PruneFiles(dir, left) => DropFilesShows(before, s, t, dir, left);
    case PruneDir(dir) => DropDirShows(before, s, t, dir);
    case _ => LeftAsTheyAre(before, s, t);
  }

  lemma ClearReleasesGo(before: Store, s: State, step: RunStep, t: State, now: Store)
    requires ShowsReleases(before, s) && PrepareNext(s, step) == Some(t)
    requires ReleasesGo(before, s, Upgrading(step), now) && (step.RemoveFiles? || step.RemoveDir?)
    ensures ShowsReleases(now, t)
  {
    hide ShowsReleases, DirsOf, Rel, IsNewer, HasMain, DropFiles, DropDir, MakeDir, PutFile, SyncRelease;
    var path := Rel(s.proc.phase.to);
    if step.RemoveFiles? {
      DropFilesShows(before, s, t, path, step.left);
    } else {
      DropDirShows(before, s, t, path);
    }
  }

  lemma FillReleasesGo(before: Store, s: State, step: RunStep, t: State, now: Store)
    requires ShowsReleases(before, s) && PrepareNext(s, step) == Some(t)
    requires ReleasesGo(before, s, Upgrading(step), now) && (step.Downloaded? || step.Extract? || step.Unpacked?)
    ensures ShowsReleases(now, t)
  {
    hide ShowsReleases, DirsOf, Rel, IsNewer, HasMain, DropFiles, DropDir, MakeDir, PutFile, SyncRelease;
    var path := Rel(s.proc.phase.to);
    FillingIsLoose(before, s);
    if step.Downloaded? {
      MakeShows(before, s, t, path);
    } else if step.Extract? {
      PutShows(before, s, t, path, step.file);
    } else {
      SyncShows(before, s, t, path);
    }
  }

  lemma FillingIsLoose(st: Store, s: State)
    requires ShowsReleases(st, s)
    ensures Filling(s.proc) <= s.disk.loose
  {
  }

  lemma OtherReleasesGo(before: Store, s: State, step: RunStep, t: State, now: Store)
    requires ShowsReleases(before, s) && PrepareNext(s, step) == Some(t)
    requires ReleasesGo(before, s, Upgrading(step), now)
    requires step.Start? || step.Cleared? || step.Abort?
    ensures ShowsReleases(now, t)
  {
    hide ShowsReleases, DirsOf, Rel, IsNewer, HasMain, DropFiles, DropDir, MakeDir, PutFile, SyncRelease;
    LeftAsTheyAre(before, s, t);
  }

  lemma PrepareReleasesGo(before: Store, s: State, step: RunStep, t: State, now: Store)
    requires ShowsReleases(before, s) && PrepareNext(s, step) == Some(t)
    requires ReleasesGo(before, s, Upgrading(step), now)
    ensures ShowsReleases(now, t)
  {
    hide ShowsReleases, ReleasesGo;
    if step.RemoveFiles? || step.RemoveDir? {
      ClearReleasesGo(before, s, step, t, now);
    } else if step.Downloaded? || step.Extract? || step.Unpacked? {
      FillReleasesGo(before, s, step, t, now);
    } else {
      OtherReleasesGo(before, s, step, t, now);
    }
  }

  lemma UpgradeReleasesGo(before: Store, s: State, step: RunStep, t: State, now: Store)
    requires ShowsReleases(before, s) && RunNext(s, step) == Some(t)
    requires ReleasesGo(before, s, Upgrading(step), now)
    ensures ShowsReleases(now, t)
  {
    hide ShowsReleases, PrepareNext, LeavesReleases, Rel;
    if PrepareNext(s, step) == Some(t) {
      PrepareReleasesGo(before, s, step, t, now);
    } else {
      assert now == before by { CommitsLater(s, step, t); }
      hide CommitNext, UndoNext, ReleasesGo;
      if CommitNext(s, step) == Some(t) {
        CommitLeavesReleases(s, step, t);
      } else {
        UndoLeavesReleases(s, step, t);
      }
      LeftAsTheyAre(before, s, t);
    }
  }

  lemma CommitsLater(s: State, step: RunStep, t: State)
    requires CommitNext(s, step) == Some(t) || UndoNext(s, step) == Some(t)
    ensures s.proc.Serving? && !s.proc.phase.Clearing? && !s.proc.phase.Downloading? && !s.proc.phase.Unpacking?
  {
    hide Rel, HasMain;
  }

  lemma StopLeavesReleases(s: State, op: Label, m: State)
    requires Next(s, op) == Some(m) && SyncingEffect(op).Some?
    ensures LeavesReleases(s, m.(proc := Down))
  {
    hide GuardNext, CommitNext, UndoNext, PrepareNext;
    match op
    case Guarding(step) => GuardLeavesReleases(s, step, m);
    case Booting(step) =>
    case Upgrading(step) =>
      if CommitNext(s, step) == Some(m) {
        CommitLeavesReleases(s, step, m);
      } else {
        UndoLeavesReleases(s, step, m);
      }
  }

  /** So does the directory of releases. */
  lemma ReleasesKeepShowing(before: Store, s: State, l: Label, t: State, now: Store)
    requires ShowsReleases(before, s) && !l.PowerLoss? && Next(s, l) == Some(t) && ReleasesGo(before, s, l, now)
    ensures ShowsReleases(now, t)
  {
    hide ShowsReleases, GuardNext, BootNext, RunNext;
    match l
    case Killed(op) =>
      StopLeavesReleases(s, op, Next(s, op).value);
      LeftAsTheyAre(before, s, t);
    case Writeback => WritebackShows(before, s, t);
    case Booting(step) => BootReleasesGo(before, s, step, t, now);
    case Upgrading(step) => UpgradeReleasesGo(before, s, step, t, now);
    case Guarding(step) =>
      GuardLeavesReleases(s, step, t);
      LeftAsTheyAre(before, s, t);
    case _ => LeftAsTheyAre(before, s, t);
  }

  // ----- one step, and a power loss -----

  lemma RereadShowsReleases(st: Store, s: State)
    requires ShowsReleases(st, s)
    ensures ShowsReleases(st, s.(disk := RereadDisk(s.disk)))
  {
    hide Consistent, DirsOf, Durable, MayLack, Reread;
  }

  lemma StepKeepsShowing(m: Machine, s: State, l: Label, n: Machine, t: State)
    requires MachineShows(m, s) && Goes(m, s, l, n) && TextNext(s, l) == Some(t)
    ensures MachineShows(n, t)
  {
    hide Next, Shows, ShowsReleases, Protected, Records, Reread, ReleasesGo;
    var next := Next(s, l).value;
    SelfKeepsShowing(m.self, s, l, next, n.self);
    ReleasesKeepShowing(m.releases, s, l, next, n.releases);
    RereadShowsReleases(n.releases, next);
  }

  lemma LossIsAStep(s: State, view: View, dirs: map<string, set<string>>)
    requires view in Views(s.disk) && Survives(s.disk, dirs)
    ensures TextNext(s, PowerLoss(view, dirs)) == Some(State(AfterPowerLoss(view, dirs), Down, s.confirmed))
  {
    hide GuardNext, BootNext, RunNext;
  }

  /** Whatever comes back after a power loss is a power loss of the protocol, and then shows. */
  lemma LossKeepsShowing(m: Machine, s: State, n: Machine) returns (t: State)
    requires MachineShows(m, s) && PowerFails(m, n)
    ensures TextNext(s, Loss(n)) == Some(t) && MachineShows(n, t)
    ensures t == State(AfterPowerLoss(ViewOf(n.self), DirsOf(n.releases)), Down, s.confirmed)
  {
    t := State(AfterPowerLoss(ViewOf(n.self), DirsOf(n.releases)), Down, s.confirmed);
    hide Next, Shows, ShowsReleases, ViewOf, DirsOf, Survives, Crashed;
    assert Protected(n.self, SELF) by { CrashProtects(m.self, n.self, SELF); }
    hide Protected;
    CrashShows(m.self, n.self, s.disk, t.disk);
    hide StoreCrashed;
    CrashSurvives(m.releases, s, n.releases, t);
    LossIsAStep(s, ViewOf(n.self), DirsOf(n.releases));
  }

  // ----- whole histories -----

  /** What can happen to the machine: a step of one of the actors or of the system, or a power failure. */
  datatype Happening = Does(l: Label) | PowerFailure

  /** The step of the protocol that is, when it leaves the machine as `n`. */
  function StepOf(h: Happening, n: Machine): Label { if h.Does? then h.l else Loss(n) }

  /** It happens to the machine `m` next to the protocol in `s`, in a regime. A power failure leaves nothing
      to the protocol but what came back. */
  ghost predicate Happens(regime: Regime, m: Machine, s: State, h: Happening, n: Machine, t: State) {
    && Permits(regime, s, StepOf(h, n))
    && match h
       case Does(l) => Goes(m, s, l, n) && TextNext(s, l) == Some(t)
       case PowerFailure =>
         PowerFails(m, n) && t == State(AfterPowerLoss(ViewOf(n.self), DirsOf(n.releases)), Down, s.confirmed)
  }

  ghost predicate Lives(regime: Regime, m: Machine, s: State, hs: seq<Happening>, n: Machine, t: State)
    decreases |hs|
  {
    if hs == [] then n == m && t == s
    else
      var init, last := hs[..|hs| - 1], hs[|hs| - 1];
      exists m1, s1 :: Lives(regime, m, s, init, m1, s1) && Happens(regime, m1, s1, last, n, t)
  }

  lemma HappeningKeepsShowing(regime: Regime, m: Machine, s: State, h: Happening, n: Machine, t: State)
    requires MachineShows(m, s) && Happens(regime, m, s, h, n, t)
    ensures MachineShows(n, t) && TextNext(s, StepOf(h, n)) == Some(t) && Permits(regime, s, StepOf(h, n))
  {
    hide MachineShows, TextNext, Permits, Goes, PowerFails;
    match h
    case Does(l) => StepKeepsShowing(m, s, l, n, t);
    case PowerFailure =>
      var u := LossKeepsShowing(m, s, n);
  }

  predicate Follows(ls: seq<Label>, hs: seq<Happening>) {
    |ls| == |hs| && forall i :: 0 <= i < |hs| ==> if hs[i].Does? then ls[i] == hs[i].l else ls[i].PowerLoss?
  }

  lemma FollowsSnoc(ls: seq<Label>, hs: seq<Happening>, l: Label)
    requires hs != [] && Follows(ls, hs[..|hs| - 1])
    requires if hs[|hs| - 1].Does? then l == hs[|hs| - 1].l else l.PowerLoss?
    ensures Follows(ls + [l], hs)
  {
    assert forall i :: 0 <= i < |ls| ==> hs[..|hs| - 1][i] == hs[i];
  }

  /** Over every history of the machine, whatever its operations do and wherever they are cut short, and
      however often the power fails, the file systems show what the protocol says; and what happened is a
      run of it, with every power failure one of its power losses. */
  lemma {:induction false} HistoryShows(regime: Regime, m: Machine, s: State, hs: seq<Happening>, n: Machine, t: State)
      returns (ls: seq<Label>)
    requires MachineShows(m, s) && Lives(regime, m, s, hs, n, t)
    ensures MachineShows(n, t) && TextRun(regime, s, ls) == Some(t) && Follows(ls, hs)
    decreases |hs|
  {
    hide MachineShows, Happens, TextNext, Permits, TextRun, Follows;
    if hs == [] {
      assert TextRun(regime, s, []) == Some(s) && Follows([], []) by { NothingHappens(regime, s); }
      ls := [];
    } else {
      var init, h := hs[..|hs| - 1], hs[|hs| - 1];
      var m1, s1 :| Lives(regime, m, s, init, m1, s1) && Happens(regime, m1, s1, h, n, t);
      var before := HistoryShows(regime, m, s, init, m1, s1);
      HappeningKeepsShowing(regime, m1, s1, h, n, t);
      ls := before + [StepOf(h, n)];
      FollowsSnoc(before, hs, StepOf(h, n));
      TextRunSnoc(regime, s, before, s1, StepOf(h, n));
    }
  }

  lemma NothingHappens(regime: Regime, s: State)
    ensures TextRun(regime, s, []) == Some(s) && Follows([], [])
  {
  }

  // ----- where it begins -----

  function OneEntry(name: string, content: string): Fs {
    Fs(map[name := 0], map[0 := Inode(content, true)], 1, {map[name := 0]})
  }

  lemma LayoutIsApart()
    ensures SELF.names !! SELF.temps
  {
    assert forall name :: name in SELF.names ==> |name| == 7 || |name| == 13;
    assert forall temp :: temp in SELF.temps ==> |temp| == 11 || |temp| == 17;
  }

  lemma OneEntryIsWellFormed(name: string, content: string)
    ensures WellFormed(OneEntry(name, content))
  {
  }

  lemma LinkIsProtected(path: string)
    ensures Protected(OneEntry(CURRENT_LINK, path), SELF)
  {
    OneEntryIsWellFormed(CURRENT_LINK, path);
    LayoutIsApart();
    hide WellFormed;
    assert CURRENT_LINK in SELF.names;
  }

  lemma LinkContents(path: string)
    ensures PresentContents(OneEntry(CURRENT_LINK, path), SELF.names) == map[CURRENT_LINK := path]
  {
    assert CURRENT_LINK in SELF.names;
  }

  lemma LinkView(path: string)
    ensures ToView(map[CURRENT_LINK := path]) == View(path, None, 0)
  {
    NamesDiffer();
    assert Attempts(None) == 0;
    hide Attempts;
  }

  lemma LinkAloneShows(path: string, d: Disk)
    requires Present(d) == View(path, None, 0) && d.past == {}
    ensures Protected(OneEntry(CURRENT_LINK, path), SELF) && Shows(OneEntry(CURRENT_LINK, path), d)
  {
    LinkIsProtected(path);
    LinkContents(path);
    LinkView(path);
    OneSnapshot(OneEntry(CURRENT_LINK, path), SELF.names);
    ViewsOfOne(map[CURRENT_LINK := path]);
    hide Protected, States, PresentContents, ToViews, ToView;
  }

  lemma ReleaseAloneShows(path: string, files: set<string>, s: State)
    requires s.disk.dirs == map[path := files] && s.disk.loose == {} && s.proc == Down
    ensures ShowsReleases(Store(OneEntry(path, ""), map[0 := files]), s)
  {
    var st := Store(OneEntry(path, ""), map[0 := files]);
    OneEntryIsWellFormed(path, "");
    hide WellFormed;
    assert DirsOf(st) == map[path := files];
  }

  /** There is such a machine for every fresh install with a release of any version. */
  lemma FreshMachine(version: string, files: set<string>) returns (m: Machine, s: State)
    requires Clean(version) && MAIN_BINARY in files
    ensures Initial(s) && MachineShows(m, s)
    ensures s.disk.current == Rel(version) && s.disk.dirs == map[Rel(version) := files]
  {
    var path := Rel(version);
    CleanNames(version);
    s := State(Disk(map[path := files], path, None, 0, {}, {}), Down, []);
    m := Machine(OneEntry(CURRENT_LINK, path), Store(OneEntry(path, ""), map[0 := files]));
    hide Clean, Rel, Protected, Shows, VersionOf, ShowsReleases, OneEntry;
    LinkAloneShows(path, s.disk);
    ReleaseAloneShows(path, files, s);
  }

  // ----- what that means on disk -----

  /** What a start finds on the file systems can run, and so can what the guard would revert to. */
  ghost predicate CanStart(n: Machine) { Sound(DirsOf(n.releases), ViewOf(n.self)) }

  /** From every fresh install and over every history in a regime that has safety, with single-line versions,
      what is found on disk can be started. */
  lemma MachineIsSafe(regime: Regime, m: Machine, s: State, hs: seq<Happening>, n: Machine, t: State)
    requires regime.Careful? || regime.Tolerant? || regime.Reliable?
    requires Initial(s) && MachineShows(m, s) && Lives(regime, m, s, hs, n, t)
    requires forall h :: h in hs && h.Does? ==> NamesClean(h.l)
    ensures CanStart(n)
  {
    hide MachineShows, Lives, Initial, TextRun, NamesClean, Safe;
    var ls := HistoryShows(regime, m, s, hs, n, t);
    assert AllClean(ls) by { FollowsCleanly(ls, hs); }
    TextSafety(regime, s, ls, t);
    SafeCanStart(n, t);
  }

  lemma FollowsCleanly(ls: seq<Label>, hs: seq<Happening>)
    requires Follows(ls, hs) && forall h :: h in hs && h.Does? ==> NamesClean(h.l)
    ensures AllClean(ls)
  {
    forall l | l in ls ensures NamesClean(l) {
      var i :| 0 <= i < |ls| && ls[i] == l;
      assert hs[i] in hs;
    }
  }

  lemma SafeCanStart(n: Machine, t: State)
    requires MachineShows(n, t) && Safe(t)
    ensures CanStart(n)
  {
    hide Protected, ToView, ToViews, States, PresentContents, DirsOf, Sound, Consistent, Durable, MayLack;
  }

  /** Whatever power failure comes next, `current` can be started after it, exactly when no state of the link
      that may come back names a release whose entry is not synced. */
  lemma PowerFailureSparesExactly(m: Machine, s: State)
    requires MachineShows(m, s) && DiskSound(s.disk)
    ensures (forall n :: PowerFails(m, n) ==> HasMain(DirsOf(n.releases), ViewOf(n.self).current)) <==>
            (forall v :: v in Views(s.disk) ==> v.current !in s.disk.loose)
  {
    hide MachineShows, PowerFails, DirsOf, ViewOf, DiskSound, HasMain;
    if v :| v in Views(s.disk) && v.current in s.disk.loose {
      var n := LosesCurrent(m, s, v);
    } else {
      forall n | PowerFails(m, n) ensures HasMain(DirsOf(n.releases), ViewOf(n.self).current) {
        var t := LossKeepsShowing(m, s, n);
        LossIsPossible(s, n, t);
        CurrentSurvivesExactly(s.disk);
      }
    }
  }

  lemma LossIsPossible(s: State, n: Machine, t: State)
    requires TextNext(s, Loss(n)) == Some(t)
    ensures ViewOf(n.self) in Views(s.disk) && Survives(s.disk, DirsOf(n.releases))
  {
    hide GuardNext, BootNext, RunNext, ViewOf, DirsOf, Survives;
  }

  lemma LosesCurrent(m: Machine, s: State, v: View) returns (n: Machine)
    requires MachineShows(m, s) && DiskSound(s.disk) && v in Views(s.disk) && v.current in s.disk.loose
    ensures PowerFails(m, n) && !HasMain(DirsOf(n.releases), ViewOf(n.self).current)
  {
    assert Sound(s.disk.dirs, v);
    hide Shows, ShowsReleases, Protected, Crashed, StoreCrashed, DirsOf, ViewOf;
    var self := EveryViewMayCome(m.self, s.disk, v);
    var releases := LooseMayBeLost(m.releases, s, v.current);
    n := Machine(self, releases);
  }
}
