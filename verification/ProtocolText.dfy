/** The protocol with the journal as it is on disk: a text. What a start finds is what that text is read back
    as, and that is the record that was stored exactly when every version in it is one line. As long as
    versions are, the two are the same machine, run for run. */
module ProtocolText {
  import opened Wrappers
  import Text
  import opened JournalFile
  import opened Versions
  import opened Protocol
  import opened ProtocolNames
  import opened ProtocolSafety
  import opened ProtocolChecks
  import opened ProtocolOutcomes

  /** A step that writes the journal. */
  predicate Records(l: Label) {
    match l
    case Guarding(g) => g.RecordRevert? && !g.effect.NoEffect?
    case Booting(b) => (b.Confirm? || b.Mismatch?) && !b.effect.NoEffect?
    case Upgrading(r) =>
      (r.Stage? || r.RecordSwap? || r.RecordExecFailure? || r.RecordFailure?) && !r.effect.NoEffect?
    case Killed(op) => Records(op)
    case _ => false
  }

  /** What the file of a journal is read back as. */
  function Reread(j: Option<Journal>): Option<Journal> { if j.None? then None else Parse(Some(Render(j.value))) }

  function RereadDisk(d: Disk): Disk { d.(journal := Reread(d.journal)) }

  /** A step of the machine whose journal is a text. */
  ghost function TextNext(s: State, l: Label): Option<State> {
    match Next(s, l)
    case None => None
    case Some(t) => Some(if Records(l) then t.(disk := RereadDisk(t.disk)) else t)
  }

  /** The state after a run of it. A regime says nothing here of what versions look like. */
  ghost function TextRun(regime: Regime, s: State, ls: seq<Label>): Option<State> {
    if ls == [] then Some(s)
    else
      match TextRun(regime, s, ls[..|ls| - 1])
      case None => None
      case Some(m) => if Permits(regime, m, ls[|ls| - 1]) then TextNext(m, ls[|ls| - 1]) else None
  }

  lemma TextRunSnoc(regime: Regime, s: State, ls: seq<Label>, m: State, l: Label)
    requires TextRun(regime, s, ls) == Some(m) && Permits(regime, m, l)
    ensures TextRun(regime, s, ls + [l]) == TextNext(m, l)
  {
    hide TextNext, Permits;
    assert (ls + [l])[..|ls|] == ls;
  }

  predicate AllClean(ls: seq<Label>) { forall l :: l in ls ==> NamesClean(l) }

  ghost predicate TextReach(regime: Regime, s: State, t: State) {
    exists ls :: AllClean(ls) && TextRun(regime, s, ls) == Some(t)
  }

  // ----- one step -----

  lemma RecordStores(s: State, l: Label, t: State)
    requires Next(s, l) == Some(t) && Records(l)
    ensures t.disk.journal.Some?
    decreases l
  {
    hide Rel, IsNewer, HasMain, PrepareNext;
    if l.Killed? {
      RecordStores(s, l.op, Next(s, l.op).value);
    }
  }

  /** A record is read back as it is exactly when it is kept. */
  lemma ReadBackExactly(j: Journal)
    ensures Parse(Some(Render(j))) == Some(j) <==> Kept(j)
  {
    hide Render, Text.Lines, Flattened, FirstLine, ReadLines, Text.StripCr;
    RoundTrip(j);
    if !Kept(j) && Parse(Some(Render(j))) == Some(j) {
      ReadValuesHaveNoNewline(BLANK, Text.Lines(Render(j)));
      NoNewlineIsInert(j);
      LoadRendered(j);
    }
  }

  /** A store of the protocol is what the file is read back as, exactly when the record is one its text
      keeps. */
  lemma StoreIsReadBack(s: State, l: Label, t: State)
    requires Next(s, l) == Some(t) && Records(l)
    ensures t.disk.journal.Some?
    ensures TextNext(s, l) == Some(t) <==> Kept(t.disk.journal.value)
  {
    hide Next, Render, Parse, Kept, Records;
    RecordStores(s, l, t);
    ReadBackExactly(t.disk.journal.value);
  }

  lemma SameStep(s: State, l: Label)
    requires Tidy(s) && NamesClean(l)
    ensures TextNext(s, l) == Next(s, l)
  {
    hide Next, NamesClean, Records, Kept, Reread;
    if Next(s, l).Some? && Records(l) {
      var t := Next(s, l).value;
      StepKeepsTidy(s, l, t);
      StoreIsReadBack(s, l, t);
      assert Present(t.disk) in Views(t.disk);
    }
  }

  // ----- runs -----

  lemma AllCleanSnoc(ls: seq<Label>)
    requires ls != []
    ensures AllClean(ls) <==> AllClean(ls[..|ls| - 1]) && NamesClean(ls[|ls| - 1])
  {
    hide NamesClean;
    var init, l := ls[..|ls| - 1], ls[|ls| - 1];
    assert ls == init + [l];
  }

  /** The protocol is the machine with the text: the same steps from the same state lead to the same state,
      now, in what a power loss can bring back, and in what an upgrade holds in memory. */
  lemma {:induction false} TheSameRuns(regime: Regime, s: State, ls: seq<Label>)
    requires Tidy(s) && !regime.Anything?
    ensures Run(regime, s, ls) == if AllClean(ls) then TextRun(regime, s, ls) else None
  {
    hide Next, TextNext, Tidy, Permits, NamesClean, AllClean;
    if ls == [] {
      assert AllClean(ls) by { EmptyIsClean(); }
    } else {
      var init, l := ls[..|ls| - 1], ls[|ls| - 1];
      TheSameRuns(regime, s, init);
      AllCleanSnoc(ls);
      if Run(regime, s, init).Some? {
        var m := Run(regime, s, init).value;
        RunKeepsTidy(regime, s, init, m);
        if NamesClean(l) {
          SameStep(m, l);
        }
      }
    }
  }

  lemma EmptyIsClean()
    ensures AllClean([])
  {
  }

  lemma TheSameReach(regime: Regime, s: State, t: State)
    requires Tidy(s) && !regime.Anything?
    ensures TextReach(regime, s, t) <==> Reach(regime, s, t)
  {
    hide Run, TextRun, Tidy, AllClean;
    if ls :| AllClean(ls) && TextRun(regime, s, ls) == Some(t) {
      TheSameRuns(regime, s, ls);
      assert Run(regime, s, ls) == Some(t);
    }
    if ls :| Run(regime, s, ls) == Some(t) {
      TheSameRuns(regime, s, ls);
      assert AllClean(ls) && TextRun(regime, s, ls) == Some(t);
    }
  }

  // ----- what that means for the text -----

  lemma TidyIsReread(s: State)
    requires Tidy(s)
    ensures Reread(s.disk.journal) == s.disk.journal
  {
    hide Kept, Parse, Render;
    assert Present(s.disk) in Views(s.disk);
    if s.disk.journal.Some? {
      ReadBackExactly(s.disk.journal.value);
    }
  }

  /** Safety of the machine with the text, in each of the three regimes that have it. */
  lemma TextSafety(regime: Regime, s: State, ls: seq<Label>, t: State)
    requires regime.Careful? || regime.Tolerant? || regime.Reliable?
    requires Initial(s) && AllClean(ls) && TextRun(regime, s, ls) == Some(t)
    ensures Safe(t)
    ensures Reread(t.disk.journal) == t.disk.journal
  {
    hide Run, TextRun, Initial, Safe, AllClean, Tidy, Reread;
    InitialIsTidy(s);
    TheSameRuns(regime, s, ls);
    RunKeepsTidy(regime, s, ls, t);
    match regime {
      case Careful => Safety(s, ls, t);
      case Tolerant => TolerantSafety(s, ls, t);
      case Reliable => ReliableSafety(s, ls, t);
    }
    TidyIsReread(t);
  }

  /** The careful regime is exact of the text as well. */
  lemma TextCarefulIsExact(s: State, l: Label, t: State)
    requires Invariant(s) && Tidy(s) && TextNext(s, l) == Some(t) && !l.PowerLoss?
    ensures Allowed(Careful, s, l) <==> NamesClean(l) && forall u :: TextReach(Careful, t, u) ==> Safe(u)
  {
    hide Next, TextNext, Run, Tidy, Invariant, Safe, Permits, NamesClean, TextReach, Reach;
    if NamesClean(l) {
      SameStep(s, l);
      StepKeepsTidy(s, l, t);
      CarefulIsExact(s, l, t);
      forall u ensures TextReach(Careful, t, u) <==> Reach(Careful, t, u) {
        TheSameReach(Careful, t, u);
      }
    }
  }

  /** And so is the tolerant one. */
  lemma TextTolerantIsExact(s: State, l: Label, t: State)
    requires Invariant(s) && Order(s) && Tidy(s) && TextNext(s, l) == Some(t) && !l.PowerLoss?
    ensures Allowed(Tolerant, s, l) <==> NamesClean(l) && forall u :: TextReach(Tolerant, t, u) ==> Safe(u)
  {
    hide Next, TextNext, Run, Tidy, Invariant, Order, Safe, Permits, NamesClean, TextReach, Reach;
    if NamesClean(l) {
      SameStep(s, l);
      StepKeepsTidy(s, l, t);
      TolerantIsExact(s, l, t);
      forall u ensures TextReach(Tolerant, t, u) <==> Reach(Tolerant, t, u) {
        TheSameReach(Tolerant, t, u);
      }
    }
  }
}
