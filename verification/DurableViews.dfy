/** The protocol's views are what the file system can show: each file operation, as it is carried out below,
    does to the directory what the protocol says, for what is seen now and for what a power loss can
    bring back. */
module DurableViews {
  import opened Wrappers
  import opened JournalFile
  import opened FileSystem
  import opened Protocol
  import opened ProtocolText

  const CURRENT_LINK: string := "current"
  const JOURNAL_FILE: string := "journal"
  const ATTEMPTS_FILE: string := "boot-attempts"

  /** The three names of the self directory and the temp names they are replaced by way of. */
  const SELF: Layout := Layout(
    {CURRENT_LINK, JOURNAL_FILE, ATTEMPTS_FILE}, {"current.tmp", "journal.tmp", "boot-attempts.tmp"})

  function Lookup(c: map<string, string>, name: string): Option<string> { if name in c then Some(c[name]) else None }

  /** What one state of the directory says to the protocol. */
  function ToView(c: map<string, string>): View {
    View(
      if CURRENT_LINK in c then c[CURRENT_LINK] else "",
      Parse(Lookup(c, JOURNAL_FILE)),
      Attempts(Lookup(c, ATTEMPTS_FILE)))
  }

  function ToViews(states: set<map<string, string>>): set<View> { set c | c in states :: ToView(c) }

  /** The file system shows what the disk of the protocol says. */
  predicate Shows(fs: Fs, d: Disk) {
    Present(d) == ToView(PresentContents(fs, SELF.names)) && Views(d) == ToViews(States(fs, SELF.names))
  }

  /** How a write ended, in the protocol's terms. */
  predicate EndsAs(before: Fs, now: Fs, name: string, v: string, effect: Effect) {
    match effect
    case Done => SettledOn(before, now, SELF, name, v)
    case NoEffect => NoChange(before, now, SELF)
    case LateError => Added(before, now, SELF, name, v)
  }

  lemma ViewsOfSum(a: set<map<string, string>>, c: map<string, string>)
    ensures ToViews(a + {c}) == ToViews(a) + {ToView(c)}
  {
    hide ToView;
  }

  lemma ViewsOfOne(c: map<string, string>)
    ensures ToViews({c}) == {ToView(c)}
  {
    hide ToView;
  }

  lemma NamesDiffer()
    ensures CURRENT_LINK != JOURNAL_FILE && CURRENT_LINK != ATTEMPTS_FILE && JOURNAL_FILE != ATTEMPTS_FILE
  {
    assert CURRENT_LINK[0] == 'c' && JOURNAL_FILE[0] == 'j' && ATTEMPTS_FILE[0] == 'b';
  }

  /** Each name is one part of the view. */
  lemma OneNameOnePart(c: map<string, string>, v: string)
    ensures ToView(c[CURRENT_LINK := v]) == ToView(c).(current := v)
    ensures ToView(c[JOURNAL_FILE := v]) == ToView(c).(journal := Parse(Some(v)))
    ensures ToView(c[ATTEMPTS_FILE := v]) == ToView(c).(attempts := Attempts(Some(v)))
    ensures ToView(c - {ATTEMPTS_FILE}) == ToView(c).(attempts := 0)
  {
    hide Parse;
    NamesDiffer();
    var removed := c - {ATTEMPTS_FILE};
    assert Lookup(removed, ATTEMPTS_FILE) == None && Lookup(removed, JOURNAL_FILE) == Lookup(c, JOURNAL_FILE);
    assert Attempts(None) == 0;
  }

  /** An operation that changes one part of the present view and ends as an effect says. */
  lemma OperationShows(before: Fs, now: Fs, name: string, v: string, effect: Effect, d: Disk, e: Disk)
    requires Shows(before, d) && EndsAs(before, now, name, v, effect)
    requires if effect.NoEffect? then e == d
             else e.past == Pending(d, effect) && Present(e) == ToView(PresentContents(before, SELF.names)[name := v])
    ensures Shows(now, e)
  {
    hide ToView, ToViews, States, PresentContents;
    var c := PresentContents(now, SELF.names);
    ViewsOfSum(States(before, SELF.names), c);
    ViewsOfOne(c);
  }

  /** What a store does to the machine with the text: what is read back is what the file means. */
  function StoreText(d: Disk, j: Journal, effect: Effect): Disk {
    if effect.NoEffect? then d else RereadDisk(StoreJournal(d, j, effect))
  }

  /** `store`, of any journal whatever. */
  lemma StoreShows(before: Fs, now: Fs, d: Disk, j: Journal, effect: Effect)
    requires Shows(before, d) && EndsAs(before, now, JOURNAL_FILE, Render(j), effect)
    ensures Shows(now, StoreText(d, j, effect))
  {
    hide Render, Parse, ToView, EndsAs, PresentContents, ToViews, States;
    OneNameOnePart(PresentContents(before, SELF.names), Render(j));
    OperationShows(before, now, JOURNAL_FILE, Render(j), effect, d, StoreText(d, j, effect));
  }

  /** `swap_current`. */
  lemma SwapShows(before: Fs, now: Fs, d: Disk, path: string, effect: Effect)
    requires Shows(before, d) && EndsAs(before, now, CURRENT_LINK, path, effect)
    ensures Shows(now, SwapCurrent(d, path, effect))
  {
    hide Parse, ToView, EndsAs, PresentContents, ToViews, States;
    OneNameOnePart(PresentContents(before, SELF.names), path);
    OperationShows(before, now, CURRENT_LINK, path, effect, d, SwapCurrent(d, path, effect));
  }

  /** `write_attempts`. */
  lemma CountShows(before: Fs, now: Fs, d: Disk, n: nat, effect: Effect)
    requires Shows(before, d) && EndsAs(before, now, ATTEMPTS_FILE, Text.Decimal(n), effect) && n < Text.U32_BOUND
    ensures Shows(now, WriteAttempts(d, n, effect))
  {
    hide Parse, Attempts, ToView, EndsAs, PresentContents, ToViews, States;
    AttemptsRoundTrip(n);
    OneNameOnePart(PresentContents(before, SELF.names), Text.Decimal(n));
    OperationShows(before, now, ATTEMPTS_FILE, Text.Decimal(n), effect, d, WriteAttempts(d, n, effect));
  }

  /** `clear_attempts`, which does not sync: the counter may come back. */
  lemma ClearShows(before: Fs, now: Fs, d: Disk)
    requires Shows(before, d) && Removed(before, now, SELF, ATTEMPTS_FILE)
    ensures Shows(now, ClearAttempts(d, Done))
  {
    hide Parse, States, ToViews, ToView, PresentContents;
    OneNameOnePart(PresentContents(before, SELF.names), "");
    ViewsOfSum(States(before, SELF.names), PresentContents(now, SELF.names));
  }

  /** A process that stops inside an operation leaves the directory as before it, or changed and settled or
      not: in the protocol, a stop before it, inside it or after it. */
  lemma StopInsideShows(before: Fs, at: Fs, name: string, v: string)
    requires OneOfThree(before, at, SELF, name, v)
    ensures exists effect :: EndsAs(before, at, name, v, effect)
  {
    if NoChange(before, at, SELF) {
      assert EndsAs(before, at, name, v, NoEffect);
    } else if Added(before, at, SELF, name, v) {
      assert EndsAs(before, at, name, v, LateError);
    } else {
      assert EndsAs(before, at, name, v, Done);
    }
  }

  lemma SnapshotIsAState(fs: Fs, s: map<string, nat>, names: set<string>)
    requires s in fs.snapshots
    ensures Contents(fs, s, names) in States(fs, names)
  {
    hide Contents;
  }

  lemma OneSnapshot(fs: Fs, names: set<string>)
    requires fs.snapshots == {fs.entries}
    ensures States(fs, names) == {PresentContents(fs, names)}
  {
    hide Contents;
    SnapshotIsAState(fs, fs.entries, names);
  }

  /** The names only ever name synced files, so a crash leaves of them what one state of the directory held. */
  lemma SameAfterCrash(fs: Fs, after: Fs)
    requires Crashed(fs, after) && Protected(fs, SELF)
    ensures PresentContents(after, SELF.names) == Contents(fs, after.entries, SELF.names)
  {
    forall n | n in SELF.names && n in after.entries && after.entries[n] in fs.inodes
      ensures after.inodes[after.entries[n]].content == fs.inodes[after.entries[n]].content
    {
      assert fs.inodes[after.entries[n]].synced;
    }
  }

  lemma CrashIsOneState(fs: Fs, after: Fs)
    requires Crashed(fs, after) && Protected(fs, SELF)
    ensures PresentContents(after, SELF.names) in States(fs, SELF.names)
    ensures States(after, SELF.names) == {PresentContents(after, SELF.names)}
  {
    SameAfterCrash(fs, after);
    hide Protected, States, Contents;
    SnapshotIsAState(fs, after.entries, SELF.names);
    OneSnapshot(after, SELF.names);
  }

  /** What the directory says now, to the protocol. */
  function ViewOf(fs: Fs): View { ToView(PresentContents(fs, SELF.names)) }

  lemma StateIsAView(c: map<string, string>, states: set<map<string, string>>)
    requires c in states
    ensures ToView(c) in ToViews(states)
  {
    hide ToView;
  }

  /** After a power loss the directory shows one of the views, and nothing else can come back. */
  lemma CrashShows(fs: Fs, after: Fs, d: Disk, e: Disk)
    requires Shows(fs, d) && Crashed(fs, after) && Protected(fs, SELF)
    requires Present(e) == ViewOf(after) && e.past == {}
    ensures ViewOf(after) in Views(d) && Shows(after, e)
  {
    CrashIsOneState(fs, after);
    hide Protected, Crashed, States, ToView, ToViews, PresentContents;
    StateIsAView(PresentContents(after, SELF.names), States(fs, SELF.names));
    ViewsOfOne(PresentContents(after, SELF.names));
  }

  function AfterCrash(fs: Fs, entries: map<string, nat>): Fs {
    Fs(entries, map id | id in fs.inodes :: fs.inodes[id].(synced := true), fs.next, {entries})
  }

  lemma MayCrash(fs: Fs, entries: map<string, nat>)
    requires entries in fs.snapshots
    ensures Crashed(fs, AfterCrash(fs, entries))
  {
  }

  /** And every one of the views may be what comes back. */
  lemma EveryViewMayCome(fs: Fs, d: Disk, v: View) returns (after: Fs)
    requires Shows(fs, d) && Protected(fs, SELF) && v in Views(d)
    ensures Crashed(fs, after) && ViewOf(after) == v
  {
    var c := StateOfView(States(fs, SELF.names), v);
    var entries := SnapshotOfState(fs, c, SELF.names);
    after := AfterCrash(fs, entries);
    hide Protected, Crashed, States, ToView, ToViews, Contents;
    MayCrash(fs, entries);
    SameAfterCrash(fs, after);
  }

  lemma StateOfView(states: set<map<string, string>>, v: View) returns (c: map<string, string>)
    requires v in ToViews(states)
    ensures c in states && ToView(c) == v
  {
    hide ToView;
    c :| c in states && ToView(c) == v;
  }

  lemma SnapshotOfState(fs: Fs, c: map<string, string>, names: set<string>) returns (entries: map<string, nat>)
    requires c in States(fs, names)
    ensures entries in fs.snapshots && Contents(fs, entries, names) == c
  {
    hide Contents;
    entries :| entries in fs.snapshots && Contents(fs, entries, names) == c;
  }
}
