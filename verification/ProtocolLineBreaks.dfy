/** Why versions have to be single lines: a run in which everything else is in order, and in which the
    journal comes to name a release to revert to that does not exist. */
module ProtocolLineBreaks {
  import opened Wrappers
  import opened JournalFile
  import Text
  import opened Versions
  import opened Protocol
  import opened ProtocolNames
  import opened ProtocolSafety
  import opened ProtocolChecks
  import opened ProtocolLoop
  import opened ProtocolText

  /** A tolerant run of the text in which no version but this one is unclean. */
  predicate CleanBut(ls: seq<Label>, to: string) {
    forall l :: l in ls ==> NamesClean(l) || l == Upgrading(Start(to))
  }

  ghost predicate Comes(s: State, t: State, to: string) {
    exists ls :: CleanBut(ls, to) && TextRun(Tolerant, s, ls) == Some(t)
  }

  lemma ComesSelf(s: State, to: string)
    ensures Comes(s, s, to)
  {
    assert CleanBut([], to) && TextRun(Tolerant, s, []) == Some(s);
  }

  lemma Also(s: State, m: State, l: Label, to: string) returns (t: State)
    requires Comes(s, m, to) && (NamesClean(l) || l == Upgrading(Start(to)))
    requires Permits(Tolerant, m, l) && TextNext(m, l).Some?
    ensures Comes(s, t, to) && TextNext(m, l) == Some(t)
  {
    hide TextNext, TextRun, Permits, NamesClean;
    var ls :| CleanBut(ls, to) && TextRun(Tolerant, s, ls) == Some(m);
    t := TextNext(m, l).value;
    TextRunSnoc(Tolerant, s, ls, m, l);
    assert CleanBut(ls + [l], to) && TextRun(Tolerant, s, ls + [l]) == Some(t);
  }

  /** A step that does not write the journal. */
  lemma Plain(s: State, m: State, l: Label, to: string) returns (t: State)
    requires Comes(s, m, to) && (NamesClean(l) || l == Upgrading(Start(to)))
    requires Permits(Tolerant, m, l) && Next(m, l).Some? && !Records(l)
    ensures Comes(s, t, to) && Next(m, l) == Some(t)
  {
    hide Next, Permits, NamesClean, Comes;
    t := Also(s, m, l, to);
  }

  /** One that does. */
  lemma Recorded(s: State, m: State, l: Label, to: string) returns (t: State)
    requires Comes(s, m, to) && NamesClean(l) && Permits(Tolerant, m, l) && Next(m, l).Some? && Records(l)
    ensures Comes(s, t, to) && t == Next(m, l).value.(disk := RereadDisk(Next(m, l).value.disk))
  {
    hide Next, Permits, NamesClean, Comes, Reread;
    t := Also(s, m, l, to);
  }

  // ----- what is read back -----

  lemma PrefixIsPlain()
    ensures '\n' !in RELEASES && RELEASES != "" && RELEASES[|RELEASES| - 1] == '/'
  {
  }

  lemma FirstLineOfRelease(version: string)
    ensures FirstLine(Rel(version)) == Rel(FirstLine(version))
    ensures Inert(version) ==> Inert(Rel(version))
  {
    PrefixIsPlain();
    hide RELEASES, Text.StripCr, Text.IndexOf;
    var path, i := Rel(version), Text.IndexOf(version, '\n');
    Text.IndexOfBehind(RELEASES, '\n', version);
    assert path[..|RELEASES| + i] == RELEASES + version[..i] && path[|RELEASES| + i..] == version[i..];
    StripCrOfRelease(version[..i]);
  }

  lemma StripCrOfRelease(line: string)
    ensures Text.StripCr(Rel(line)) == Rel(Text.StripCr(line))
  {
    PrefixIsPlain();
    hide RELEASES;
    if line != "" {
      assert Rel(line)[..|Rel(line)| - 1] == Rel(line[..|line| - 1]);
    }
  }

  function SwapOf(version: string, to: string, previous: string): Journal {
    Journal(Swapped, version, to, previous, Rel(to), 0, "")
  }

  /** The swap to a release with such a name, and the next one away from it, as their journals read. */
  lemma SwapIsRead(version: string, to: string, from: string)
    requires Inert(version) && Inert(to) && Inert(from)
    ensures Reread(Some(SwapOf(version, to, Rel(from)))) ==
            Some(SwapOf(FirstLine(version), FirstLine(to), Rel(FirstLine(from))))
  {
    hide Parse, Render, Inert, FirstLine, Rel;
    FirstLineOfRelease(to);
    FirstLineOfRelease(from);
    LoadRendered(SwapOf(version, to, Rel(from)));
    assert Flattened("") == "";
  }

  // ----- the run -----

  lemma FirstStart(s: State, version: string, to: string) returns (t: State)
    requires Initial(s) && s.disk.current == Rel(version)
    ensures Comes(s, t, to) && t.proc == Serving(version, Idle) && Clean(version)
    ensures t.disk.current == s.disk.current && t.disk.dirs == s.disk.dirs && !Armed(t.disk)
  {
    hide IsNewer, Rel, VersionOf, Comes, RunNext, NamedIn, Clean;
    CleanNames(version);
    IsNewerIrreflexive(version);
    RelIsRelease(version);
    ComesSelf(s, to);
    t := Plain(s, s, Guarding(Begin), to);
    t := Plain(s, t, Guarding(Reset(Done)), to);
    t := Plain(s, t, Launch(version), to);
    t := Plain(s, t, Booting(Skip), to);
  }

  /** A release of this name is downloaded, whatever the name is. */
  lemma Downloads(start: State, s: State, version: string, name: string, to: string) returns (t: State)
    requires Comes(start, s, to) && s.proc == Serving(version, Idle) && IsNewer(name, version)
    requires (name == to || Clean(name)) && Rel(name) != s.disk.current && !Armed(s.disk)
    ensures Comes(start, t, to) && t.proc == Serving(version, Downloading(name))
    ensures t.disk == s.disk.(dirs := s.disk.dirs - {Rel(name)}, past := {}, loose := {})
  {
    hide IsNewer, Rel, VersionOf, Comes, GuardNext, BootNext, CommitNext, UndoNext, Clean;
    t := Plain(start, s, Writeback, to);
    t := Plain(start, t, Upgrading(Start(name)), to);
    t := Plain(start, t, Upgrading(RemoveDir), to);
    t := Plain(start, t, Upgrading(Cleared), to);
  }

  lemma Unpacks(start: State, s: State, version: string, name: string, to: string) returns (t: State)
    requires Comes(start, s, to) && s.proc == Serving(version, Downloading(name)) && Rel(name) !in s.disk.dirs
    ensures Comes(start, t, to) && t.proc == Serving(version, Staging(name))
    ensures t.disk == s.disk.(dirs := s.disk.dirs[Rel(name) := {MAIN_BINARY}], loose := t.disk.loose)
  {
    hide IsNewer, Rel, VersionOf, Comes, GuardNext, BootNext, CommitNext, UndoNext, Clean, NamedIn;
    t := Plain(start, s, Upgrading(Downloaded), to);
    t := Plain(start, t, Upgrading(Extract(MAIN_BINARY)), to);
    assert {} + {MAIN_BINARY} == {MAIN_BINARY};
    t := Plain(start, t, Upgrading(Unpacked), to);
  }

  /** It is swapped in; the record of that reads as its text does. */
  lemma Swaps(start: State, s: State, version: string, name: string, to: string) returns (t: State)
    requires Comes(start, s, to) && s.proc == Serving(version, Staging(name))
    ensures Comes(start, t, to) && t.proc.Serving? && t.proc.phase.Execing?
    ensures t.disk == s.disk.(current := Rel(name), past := {},
                              journal := Reread(Some(SwapOf(version, name, s.disk.current))))
  {
    hide IsNewer, Rel, VersionOf, Comes, GuardNext, BootNext, PrepareNext, UndoNext, Clean, NamedIn, Reread;
    t := Recorded(start, s, Upgrading(Stage(Done, QUIET)), to);
    t := Plain(start, t, Upgrading(Swap(Done)), to);
    t := Recorded(start, t, Upgrading(RecordSwap(Done, QUIET)), to);
  }

  lemma Upgrades(start: State, s: State, version: string, name: string, to: string) returns (t: State)
    requires Comes(start, s, to) && s.proc == Serving(version, Idle) && IsNewer(name, version)
    requires (name == to || Clean(name)) && Rel(name) != s.disk.current && !Armed(s.disk)
    ensures Comes(start, t, to) && t.proc.Serving? && t.proc.phase.Execing? && t.disk.current == Rel(name)
    ensures t.disk.dirs == (s.disk.dirs - {Rel(name)})[Rel(name) := {MAIN_BINARY}]
    ensures t.disk.journal == Reread(Some(SwapOf(version, name, s.disk.current))) && t.disk.past == {}
  {
    hide IsNewer, Rel, VersionOf, Comes, Clean, Reread;
    t := Downloads(start, s, version, name, to);
    t := Unpacks(start, t, version, name, to);
    t := Swaps(start, t, version, name, to);
  }

  /** The new release reports the version its journal says, and so confirms itself. */
  lemma Confirms(start: State, s: State, cut: string, to: string) returns (t: State)
    requires Comes(start, s, to) && s.proc.Serving? && s.proc.phase.Execing? && s.disk.current == Rel(to)
    requires HasMain(s.disk.dirs, s.disk.current) && Clean(cut) && !IsNewer(to, cut)
    requires Armed(s.disk) && s.disk.journal.value.toVersion == cut && Kept(s.disk.journal.value)
    ensures Comes(start, t, to) && t.proc == Serving(cut, Idle) && t.disk.current == s.disk.current
    ensures t.disk.dirs == s.disk.dirs && !Armed(t.disk)
  {
    hide IsNewer, Rel, VersionOf, Comes, GuardNext, PrepareNext, UndoNext, Clean, NamedIn;
    RelIsRelease(to);
    t := Plain(start, s, Upgrading(Exec(cut)), to);
    t := ConfirmsItself(start, t, cut, to);
  }

  lemma ConfirmsItself(start: State, s: State, cut: string, to: string) returns (t: State)
    requires Comes(start, s, to) && s.proc == Boot(cut, Reconciling)
    requires Armed(s.disk) && s.disk.journal.value.toVersion == cut && Kept(s.disk.journal.value)
    ensures Comes(start, t, to) && t.proc == Serving(cut, Idle) && t.disk.current == s.disk.current
    ensures t.disk.dirs == s.disk.dirs && !Armed(t.disk)
  {
    hide IsNewer, Rel, VersionOf, Comes, GuardNext, RunNext, Clean, NamedIn, Reread;
    var j := WithState(s.disk.journal.value, Confirmed, QUIET);
    t := Recorded(start, s, Booting(Confirm(Done, QUIET)), to);
    assert t.disk.journal == Some(j) by { ConfirmationIsRead(s.disk.journal.value, j); }
    t := Plain(start, t, Booting(ClearCounter(Done)), to);
    t := Plain(start, t, Booting(Serve), to);
  }

  lemma ConfirmationIsRead(swapped: Journal, j: Journal)
    requires Kept(swapped) && j == WithState(swapped, Confirmed, QUIET)
    ensures Reread(Some(j)) == Some(j)
  {
    hide Kept, Parse, Render;
    RestampedIsKept(swapped, Confirmed, QUIET);
    ReadBackExactly(j);
  }

  lemma SwapIsKept(version: string, to: string, from: string)
    requires Clean(version) && Clean(to) && Clean(from)
    ensures Kept(SwapOf(version, to, Rel(from)))
  {
    hide Clean, Rel;
    CleanNames(to);
    CleanNames(from);
  }

  /** From every fresh install: an upgrade to a newer release whose name has a line break in it or a carriage
      return at its end, every operation done, the new release reporting and confirming the version its
      journal reads; then an upgrade to any newer release. Nothing but that one name is out of order. Yet
      the journal of the second swap reads as one to revert to the first line of the path the first
      upgrade made, where nothing was ever installed. */
  lemma UncleanNameIsUnsafe(s: State, version: string, to: string, next: string)
      returns (ls: seq<Label>, t: State)
    requires Initial(s) && s.disk.current == Rel(version) && IsNewer(to, version)
    requires !Clean(to) && Inert(to) && Clean(FirstLine(to)) && !IsNewer(to, FirstLine(to))
    requires !HasMain(s.disk.dirs, Rel(FirstLine(to)))
    requires Clean(next) && IsNewer(next, FirstLine(to))
    ensures TextRun(Tolerant, s, ls) == Some(t) && CleanBut(ls, to)
    ensures t.disk.current == Rel(next) && t.disk.journal == Some(SwapOf(FirstLine(to), next, Rel(FirstLine(to))))
    ensures !HasMain(t.disk.dirs, Rel(FirstLine(to))) && !Safe(t)
  {
    hide IsNewer, Rel, VersionOf, Clean, Inert, FirstLine, Initial, TextRun, CleanBut, Reread, Kept;
    var cut := FirstLine(to);
    t := FirstStart(s, version, to);
    Different(version, to, next, cut);
    CleanIsInert(version);
    SwapIsRead(version, to, version);
    SwapIsKept(version, cut, version);
    t := Upgrades(s, t, version, to, to);
    t := Confirms(s, t, cut, to);
    CleanIsInert(cut);
    CleanIsInert(next);
    SwapIsRead(cut, next, to);
    t := Upgrades(s, t, cut, next, to);
    ls :| CleanBut(ls, to) && TextRun(Tolerant, s, ls) == Some(t);
  }

  lemma Different(version: string, to: string, next: string, cut: string)
    requires IsNewer(to, version) && !IsNewer(to, cut) && IsNewer(next, cut)
    requires !Clean(to) && Clean(next) && Clean(cut)
    ensures Rel(to) != Rel(version) && Rel(next) != Rel(to) && Rel(cut) != Rel(to) && Rel(cut) != Rel(next)
  {
    hide IsNewer, Clean, Rel;
    IsNewerIrreflexive(version);
    IsNewerIrreflexive(cut);
    RelIsRelease(version);
    RelIsRelease(to);
    RelIsRelease(next);
    RelIsRelease(cut);
  }

  /** The simplest such name is that of any newer release with a line break behind it, which the comparison
      of versions trims away. */
  lemma LineBreakIsUnsafe(s: State, version: string, newer: string, next: string)
      returns (ls: seq<Label>, t: State)
    requires Initial(s) && s.disk.current == Rel(version) && !HasMain(s.disk.dirs, Rel(newer))
    requires IsNewer(newer, version) && Clean(newer) && IsNewer(next, newer) && Clean(next)
    ensures TextRun(Tolerant, s, ls) == Some(t) && CleanBut(ls, newer + "\n") && !Safe(t)
    ensures Armed(t.disk) && t.disk.journal.value.previous == Rel(newer)
  {
    hide IsNewer, Rel, VersionOf, Clean, Inert, FirstLine, Initial, TextRun, CleanBut, Reread;
    LineBreakCompares(newer, version);
    LineBreakCompares(newer, newer);
    IsNewerIrreflexive(newer);
    LineIsCut(newer);
    ls, t := UncleanNameIsUnsafe(s, version, newer + "\n", next);
  }

  lemma LineIsCut(version: string)
    requires Clean(version)
    ensures !Clean(version + "\n") && Inert(version + "\n") && FirstLine(version + "\n") == version
  {
    var line := version + "\n";
    assert line[|version|] == '\n';
    Text.IndexOfAfter(version, '\n', "");
    assert line == version + ['\n'] + "";
    assert line[..|version|] == version && line[|version|..] == "\n";
  }
}
