/** The journal's text and the way it is written, together: a reader of the journal file always gets a
    whole record, so a crash can never disarm the guard. */
module JournalOnDisk {
  import opened Wrappers
  import opened Text
  import opened JournalFile
  import opened FileSystem

  /** The file holds one of the records `js`. */
  ghost predicate HoldsOneOf(r: Option<string>, js: set<Journal>) {
    exists j :: j in js && r == Some(Render(j))
  }

  lemma {:induction false} ExplainedHoldsOneOf(fs: Fs, name: string, events: seq<Event>, js: set<Journal>,
      r: Option<string>)
    requires forall i :: 0 <= i < |events| && events[i].name == name ==> HoldsOneOf(events[i].content, js)
    requires forall v :: MayRead(fs, name, v) ==> HoldsOneOf(v, js)
    requires Explained(fs, name, events, r)
    ensures HoldsOneOf(r, js)
    decreases |events|
  {
    hide HoldsOneOf, MayRead;
    if events != [] {
      var init := events[..|events| - 1];
      if Explained(fs, name, init, r) {
        ExplainedHoldsOneOf(fs, name, init, js, r);
      }
    }
  }

  /** Once there is a journal, then whatever changes of the directory fail or are cut short, and
      wherever the machine crashes, loading the journal gives one of the records ever stored, with its
      error on one line. It never comes back as "no journal". */
  lemma LoadAfterCrashes(fs: Fs, lay: Layout, name: string, events: seq<Event>, end: Fs, after: Fs, js: set<Journal>)
    requires Protected(fs, lay) && History(fs, lay, events, end) && Crashed(end, after) && name in lay.names
    requires forall j :: j in js ==> CleanJournal(j)
    requires forall i :: 0 <= i < |events| && events[i].name == name ==> HoldsOneOf(events[i].content, js)
    requires forall v :: MayRead(fs, name, v) ==> HoldsOneOf(v, js)
    ensures exists j :: j in js && Parse(FileSystem.Read(after, name)) == Some(OnOneLine(j))
  {
    hide Protected, Crashed, History, MayRead, Render, Parse, CleanJournal, Explained, OnOneLine;
    HistoryIsExplained(fs, lay, events, end);
    CrashReads(end, after, name);
    var r := FileSystem.Read(after, name);
    ExplainedHoldsOneOf(fs, name, events, js, r);
    var j :| j in js && r == Some(Render(j));
    RoundTrip(j);
  }

  /** A store that reported success is what is loaded, before any crash and after it. */
  lemma LoadAfterStore(fs: Fs, after: Fs, name: string, j: Journal)
    requires CleanJournal(j)
    requires forall r :: MayRead(fs, name, r) <==> r == Some(Render(j))
    requires Crashed(fs, after)
    ensures Parse(FileSystem.Read(after, name)) == Some(OnOneLine(j))
  {
    hide MayRead, Render, Parse, CleanJournal, OnOneLine, Crashed;
    CrashReads(fs, after, name);
    RoundTrip(j);
  }
}
