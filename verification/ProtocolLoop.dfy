/** How many starts a release gets that never confirms itself, and what the guard leaves alone. */
module ProtocolLoop {
  import opened Wrappers
  import opened JournalFile
  import opened Versions
  import opened Protocol
  import opened ProtocolSafety

  /** A release that is started again and again without ever reconciling the journal, with crashes and
      power losses anywhere, inside the guard's operations too. */
  predicate Looping(l: Label) {
    l.Crash? || l.Guarding? || l.Launch? || l.PowerLoss? || l.Writeback? || (l.Killed? && l.op.Guarding?)
  }

  /** How often the service manager started the release at `path`. */
  ghost function Starts(regime: Regime, s: State, ls: seq<Label>, path: string): nat {
    if ls == [] then 0
    else
      var init := ls[..|ls| - 1];
      Starts(regime, s, init, path) +
      if ls[|ls| - 1].Launch? && Run(regime, s, init).Some?
          && Run(regime, s, init).value.disk.current == path then 1 else 0
  }

  function Max(a: int, b: int): int { if a >= b then a else b }

  predicate RolledBackView(v: View, path: string) {
    v.journal.Some? && v.journal.value.state == RolledBack && v.current == path
  }

  /** The rollback is on record and `current` is back at `path`. */
  predicate RolledBackTo(d: Disk, path: string) { RolledBackView(Present(d), path) }

  /** Still counting, with at least `low` on the counter, or reverted for good. */
  predicate LoopView(v: View, j: Journal, low: int) {
    if v.journal == Some(j) then v.attempts >= low else RolledBackView(v, j.previous)
  }

  /** Where a crash loop can be, `n` starts of the target after the counter stood at `c` or above. */
  predicate LoopInvariant(t: State, j: Journal, c: nat, n: nat) {
    && (forall v :: v in Views(t.disk) ==> LoopView(v, j, c + n))
    && (n == 0 || c + n < MAX_BOOT_ATTEMPTS)
    && (t.disk.journal == Some(j) && t.proc == Ready ==>
          t.disk.past == {} && c + n + 1 <= t.disk.attempts < MAX_BOOT_ATTEMPTS)
    && (t.proc.Guard? && t.proc.guard.RecordingRevert? ==>
          t.disk.past == {} && t.disk.current == j.previous && t.disk.journal == Some(j))
    && (t.proc.Guard? && t.proc.guard.Resetting? ==> t.disk.journal != Some(j))
    && !t.proc.Serving?
  }

  lemma GuardKeepsLoop(m: State, step: GuardStep, t: State, j: Journal, c: nat, n: nat)
    requires j.state == Swapped && LoopInvariant(m, j, c, n) && GuardNext(m, step) == Some(t) && step != StandDown
    requires step.Reset? || step.Count? || step.Revert? || step.RecordRevert? ==> !step.effect.NoEffect?
    ensures (step.Count? || step.Revert? || step.RecordRevert? ==> step.effect.Done?) ==> LoopInvariant(t, j, c, n)
    ensures LoopInvariant(t.(proc := Down), j, c, n)
  {
    assert Present(m.disk) in Views(m.disk);
  }

  lemma StepKeepsLoop(m: State, l: Label, t: State, j: Journal, c: nat, n: nat)
    requires j.state == Swapped && j.previous != j.target && LoopInvariant(m, j, c, n)
    requires Step(Reliable, m, l) == Some(t) && Looping(l)
    ensures LoopInvariant(t, j, c, n + if l.Launch? && m.disk.current == j.target then 1 else 0)
  {
    hide GuardNext, BootNext, RunNext, HasMain, Survives, KeepsReleases, Rel;
    assert Present(m.disk) in Views(m.disk);
    match l
    case Guarding(step) => GuardKeepsLoop(m, step, t, j, c, n);
    case Killed(op) => GuardKeepsLoop(m, op.guard, Next(m, op).value, j, c, n);
    case _ =>
  }

  lemma {:induction false} LoopKeepsInvariant(s: State, ls: seq<Label>, t: State, j: Journal, c: nat)
    requires j.state == Swapped && j.previous != j.target && s.proc == Down
    requires forall v :: v in Views(s.disk) ==> v.journal == Some(j) && v.attempts >= c
    requires Run(Reliable, s, ls) == Some(t) && forall l :: l in ls ==> Looping(l)
    ensures LoopInvariant(t, j, c, Starts(Reliable, s, ls, j.target))
  {
    hide Step, LoopInvariant, Looping;
    if ls == [] {
      assert LoopInvariant(s, j, c, 0) by { LoopBegins(s, j, c); }
    } else {
      var init, l := ls[..|ls| - 1], ls[|ls| - 1];
      assert l in ls && forall k :: k in init ==> k in ls;
      var m := Run(Reliable, s, init).value;
      LoopKeepsInvariant(s, init, m, j, c);
      StepKeepsLoop(m, l, t, j, c, Starts(Reliable, s, init, j.target));
    }
  }

  lemma LoopBegins(s: State, j: Journal, c: nat)
    requires s.proc == Down && forall v :: v in Views(s.disk) ==> v.journal == Some(j) && v.attempts >= c
    ensures LoopInvariant(s, j, c, 0)
  {
  }

  /** The crash-loop bound. From a swapped journal with the counter at `c` or above in everything a start
      may find, a release that never gets to reconcile is started at most `2 - c` times, and the start
      after that runs the previous release, with the rollback on record, whatever crashes and power
      losses fall inside the guard on the way. */
  lemma CrashLoopBound(s: State, ls: seq<Label>, t: State, j: Journal, c: nat)
    requires j.state == Swapped && j.previous != j.target && s.proc == Down
    requires forall v :: v in Views(s.disk) ==> v.journal == Some(j) && v.attempts >= c
    requires Run(Reliable, s, ls) == Some(t) && forall l :: l in ls ==> Looping(l)
    ensures var n, allowed := Starts(Reliable, s, ls, j.target), Max(0, 2 - c);
            && n <= allowed
            && (t.proc == Ready && n == allowed ==> RolledBackTo(t.disk, j.previous))
            && (t.disk.journal != Some(j) ==> RolledBackTo(t.disk, j.previous))
  {
    hide Run, Starts;
    LoopKeepsInvariant(s, ls, t, j, c);
    assert Present(t.disk) in Views(t.disk);
  }

  // ----- what the guard leaves alone -----

  predicate SameRecord(v: View, w: View) { v.current == w.current && v.journal == w.journal }

  predicate Unguarded(t: State, s: State) {
    && (forall v :: v in Views(t.disk) ==> !ArmedView(v) && exists w :: w in Views(s.disk) && SameRecord(v, w))
    && !t.proc.Serving? && !(t.proc.Guard? && !t.proc.guard.Deciding?)
  }

  lemma StepStaysUnguarded(s: State, m: State, l: Label, t: State)
    requires Unguarded(m, s) && Next(m, l) == Some(t) && Looping(l)
    ensures Unguarded(t, s)
  {
    hide BootNext, RunNext, HasMain, Survives;
    assert Present(m.disk) in Views(m.disk);
  }

  /** The guard only ever acts on a swapped journal: in a crash loop under any other record nothing moves
      `current` or the record but a power loss, back to what was there before, whatever fails. A process
      that stops between the swap and its record leaves such a state, so a release that came in that way
      is not guarded. */
  lemma {:induction false} OnlySwappedIsGuarded(s: State, ls: seq<Label>, t: State)
    requires s.proc == Down && forall v :: v in Views(s.disk) ==> !ArmedView(v)
    requires Run(Anything, s, ls) == Some(t) && forall l :: l in ls ==> Looping(l)
    ensures exists v :: v in Views(s.disk) && SameRecord(v, Present(t.disk))
    ensures s.disk.past == {} ==> t.disk.current == s.disk.current && t.disk.journal == s.disk.journal
    ensures Unguarded(t, s)
  {
    hide Next, Looping;
    if ls == [] {
      assert forall v :: v in Views(s.disk) ==> SameRecord(v, v);
    } else {
      var init, l := ls[..|ls| - 1], ls[|ls| - 1];
      assert l in ls && forall k :: k in init ==> k in ls;
      OnlySwappedIsGuarded(s, init, Run(Anything, s, init).value);
      StepStaysUnguarded(s, Run(Anything, s, init).value, l, t);
    }
    assert Present(t.disk) in Views(t.disk);
  }

  // ----- the bound is reached -----

  const QUIET: Stamp := Stamp(0, "")

  /** One guarded start that is counted and then crashes. */
  function CountedStart(version: string): seq<Label> {
    [Guarding(Begin), Guarding(Count(Done)), Launch(version), Crash]
  }

  /** One pass of the guard that reverts. */
  const REVERTING_PASS: seq<Label> :=
    [Guarding(Begin), Guarding(Revert(Done)), Guarding(RecordRevert(Done, QUIET)), Guarding(Reset(Done))]

  lemma RunNothing(regime: Regime, s: State)
    ensures Run(regime, s, []) == Some(s) && forall path :: Starts(regime, s, [], path) == 0
  {
  }

  lemma RunMore(regime: Regime, s: State, ls: seq<Label>, m: State, l: Label, t: State)
    requires Run(regime, s, ls) == Some(m) && Step(regime, m, l) == Some(t)
    ensures Run(regime, s, ls + [l]) == Some(t)
    ensures forall path :: Starts(regime, s, ls + [l], path) ==
              Starts(regime, s, ls, path) + if l.Launch? && m.disk.current == path then 1 else 0
  {
    hide Step;
    assert (ls + [l])[..|ls|] == ls;
  }

  /** Only the third of four steps may start anything. */
  lemma RunFour(regime: Regime, s: State, ls: seq<Label>, s1: State, s2: State, s3: State, s4: State)
    requires |ls| == 4 && Step(regime, s, ls[0]) == Some(s1) && Step(regime, s1, ls[1]) == Some(s2)
    requires Step(regime, s2, ls[2]) == Some(s3) && Step(regime, s3, ls[3]) == Some(s4)
    requires !ls[0].Launch? && !ls[1].Launch? && !ls[3].Launch?
    ensures Run(regime, s, ls) == Some(s4)
    ensures forall path :: Starts(regime, s, ls, path) == if ls[2].Launch? && s2.disk.current == path then 1 else 0
  {
    hide Step, Run, Starts;
    RunNothing(regime, s);
    RunMore(regime, s, [], s, ls[0], s1);
    RunMore(regime, s, [] + [ls[0]], s1, ls[1], s2);
    RunMore(regime, s, [] + [ls[0]] + [ls[1]], s2, ls[2], s3);
    RunMore(regime, s, [] + [ls[0]] + [ls[1]] + [ls[2]], s3, ls[3], s4);
    assert ls == [] + [ls[0]] + [ls[1]] + [ls[2]] + [ls[3]];
  }

  lemma {:induction false} StartsAppend(regime: Regime, s: State, a: seq<Label>, b: seq<Label>, path: string)
    requires Run(regime, s, a).Some? && Run(regime, Run(regime, s, a).value, b).Some?
    ensures Starts(regime, s, a + b, path) ==
            Starts(regime, s, a, path) + Starts(regime, Run(regime, s, a).value, b, path)
  {
    hide Step;
    if b == [] {
      assert a + b == a;
    } else {
      var init := b[..|b| - 1];
      assert (a + b)[..|a + b| - 1] == a + init;
      StartsAppend(regime, s, a, init, path);
      RunAppend(regime, s, a, init);
    }
  }

  /** A complete pass at the limit ends with the rollback on record and the counter at zero. */
  lemma PassReverts(s: State) returns (t: State)
    requires Armed(s.disk) && s.proc == Down && s.disk.attempts >= MAX_BOOT_ATTEMPTS - 1
    ensures Run(Reliable, s, REVERTING_PASS) == Some(t)
    ensures forall path :: Starts(Reliable, s, REVERTING_PASS, path) == 0
    ensures t.proc == Ready && RolledBackTo(t.disk, s.disk.journal.value.previous) && t.disk.attempts == 0
  {
    hide Run, Starts;
    var j := s.disk.journal.value;
    var s1 := s.(proc := Guard(Deciding));
    var s2 := State(SwapCurrent(s.disk, j.previous, Done), Guard(RecordingRevert), s.confirmed);
    var s3 := State(StoreJournal(s2.disk, WithState(j, RolledBack, QUIET), Done), Guard(Resetting), s.confirmed);
    t := State(ClearAttempts(s3.disk, Done), Ready, s.confirmed);
    RunFour(Reliable, s, REVERTING_PASS, s1, s2, s3, t);
  }

  lemma CountedStartCounts(s: State, version: string) returns (t: State)
    requires Armed(s.disk) && s.proc == Down && s.disk.attempts + 1 < MAX_BOOT_ATTEMPTS
    requires s.disk.current == Rel(version) && HasMain(s.disk.dirs, s.disk.current) && Clean(version)
    ensures Run(Reliable, s, CountedStart(version)) == Some(t)
    ensures Starts(Reliable, s, CountedStart(version), s.disk.current) == 1
    ensures t == s.(disk := WriteAttempts(s.disk, s.disk.attempts + 1, Done))
  {
    hide Run, Starts, Rel, Clean;
    var s1 := s.(proc := Guard(Deciding));
    var s2 := State(WriteAttempts(s.disk, s.disk.attempts + 1, Done), Ready, s.confirmed);
    var s3 := s2.(proc := Boot(version, Reconciling));
    t := s2.(proc := Down);
    RunFour(Reliable, s, CountedStart(version), s1, s2, s3, t);
  }

  /** The bound is reached: the release really gets its `2 - c` starts, and the next pass of the guard
      really reverts it and leaves the counter at zero. */
  lemma CrashLoopBoundIsReached(s: State, version: string) returns (ls: seq<Label>, t: State)
    requires Armed(s.disk) && s.proc == Down && s.disk.attempts < 3
    requires s.disk.current == Rel(version) && HasMain(s.disk.dirs, s.disk.current) && Clean(version)
    ensures Run(Reliable, s, ls) == Some(t) && forall l :: l in ls ==> Looping(l)
    ensures Starts(Reliable, s, ls, s.disk.current) == 2 - s.disk.attempts
    ensures t.proc == Ready && RolledBackTo(t.disk, s.disk.journal.value.previous) && t.disk.attempts == 0
    decreases MAX_BOOT_ATTEMPTS - s.disk.attempts
  {
    hide Run, Starts, Rel, Clean;
    if s.disk.attempts == MAX_BOOT_ATTEMPTS - 1 {
      ls := REVERTING_PASS;
      t := PassReverts(s);
    } else {
      var first := CountedStart(version);
      var m := CountedStartCounts(s, version);
      var rest;
      rest, t := CrashLoopBoundIsReached(m, version);
      ls := first + rest;
      RunAppend(Reliable, s, first, rest);
      StartsAppend(Reliable, s, first, rest, s.disk.current);
    }
  }
}
