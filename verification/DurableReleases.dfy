/** The directory of releases on the file system: its entries are release directories, and an entry is only
    as durable as the directory it is in. What the protocol calls loose is what is not synced here. */
module DurableReleases {
  import opened Wrappers
  import opened FileSystem
  import opened Protocol

  /** The directory of releases; of each release directory, by inode, the files in it, and whether those are
      synced. Entries are named as the protocol names them, by their path from the self directory. */
  datatype Store = Store(fs: Fs, files: map<nat, set<string>>)

  function DirsOf(st: Store): map<string, set<string>> {
    map path | path in st.fs.entries && st.fs.entries[path] in st.files :: st.files[st.fs.entries[path]]
  }

  /** Every state of the directory a crash could bring back has this entry, and its files are synced. */
  predicate Durable(fs: Fs, path: string) {
    && path in fs.entries && fs.entries[path] in fs.inodes && fs.inodes[fs.entries[path]].synced
    && forall entries :: entries in fs.snapshots ==> path in entries && entries[path] == fs.entries[path]
  }

  /** A crash could bring back a state without it. */
  predicate MayLack(fs: Fs, path: string) { exists entries :: entries in fs.snapshots && path !in entries }

  ghost predicate Consistent(st: Store) { WellFormed(st.fs) && st.files.Keys == st.fs.inodes.Keys }

  /** The directory shows what the protocol says of the releases: what is loose is what is not synced. */
  ghost predicate ShowsReleases(st: Store, s: State) {
    && Consistent(st) && s.disk.dirs == DirsOf(st) && Filling(s.proc) <= s.disk.loose
    && forall path :: path in s.disk.dirs ==>
         if path in s.disk.loose then MayLack(st.fs, path) else Durable(st.fs, path)
  }

  // ----- operations -----

  /** `create_dir_all` where there is none yet. */
  function MakeDir(st: Store, path: string): Store
    requires path !in st.fs.entries
  {
    Store(Create(st.fs, path), st.files[st.fs.next := {}])
  }

  function WithFiles(st: Store, path: string, files: set<string>): Store
    requires path in st.fs.entries
  {
    st.(files := st.files[st.fs.entries[path] := files])
  }

  function FilesOf(st: Store, path: string): set<string> {
    if path in st.fs.entries && st.fs.entries[path] in st.files then st.files[st.fs.entries[path]] else {}
  }

  /** A file is unpacked; it is not synced yet. */
  function PutFile(st: Store, path: string, file: string): Store
    requires path in st.fs.entries
  {
    WithFiles(st, path, FilesOf(st, path) + {file}).(fs := Write(st.fs, path, ""))
  }

  /** The files of a release and its own directory are synced, but not the entry of it. */
  function SyncRelease(st: Store, path: string): Store { st.(fs := SyncFile(st.fs, path)) }

  /** Only some of the files are left. */
  function DropFiles(st: Store, path: string, left: set<string>): Store
    requires path in st.fs.entries
  {
    WithFiles(st, path, FilesOf(st, path) * left)
  }

  function DropDir(st: Store, path: string): Store { st.(fs := Remove(st.fs, path)) }

  function AllSynced(inodes: map<nat, Inode>): map<nat, Inode> { map id | id in inodes :: inodes[id].(synced := true) }

  /** The system syncs everything but the entries that are being filled. */
  function SyncAllBut(st: Store, filling: set<string>): Store {
    st.(fs := st.fs.(inodes := AllSynced(st.fs.inodes), snapshots := {st.fs.entries, st.fs.entries - filling}))
  }

  /** Files that were synced are there after a crash; ones removed since may be again. */
  ghost predicate StoreCrashed(st: Store, after: Store) {
    && Crashed(st.fs, after.fs) && after.files.Keys == st.files.Keys
    && forall id :: id in st.files && id in st.fs.inodes && st.fs.inodes[id].synced ==> st.files[id] <= after.files[id]
  }

  // ----- each keeps what is shown -----

  /** A new state of the directory in which an entry is as before leaves that entry as synced as it was. */
  lemma MoreEntries(fs: Fs, now: Fs, path: string)
    requires now.snapshots == fs.snapshots + {now.entries} && path in fs.entries && path in now.entries
    requires now.entries[path] == fs.entries[path] && fs.entries[path] in fs.inodes && fs.entries[path] in now.inodes
    requires now.inodes[fs.entries[path]] == fs.inodes[fs.entries[path]]
    ensures MayLack(fs, path) ==> MayLack(now, path)
    ensures Durable(fs, path) ==> Durable(now, path)
  {
    if MayLack(fs, path) {
      var entries :| entries in fs.snapshots && path !in entries;
      assert entries in now.snapshots;
    }
  }

  lemma MakeIsConsistent(st: Store, path: string)
    requires Consistent(st) && path !in st.fs.entries
    ensures Consistent(MakeDir(st, path)) && DirsOf(MakeDir(st, path)) == DirsOf(st)[path := {}]
  {
    MakeIsWellFormed(st.fs, path);
    hide WellFormed;
    InodesOfEntries(st);
  }

  lemma MakeIsWellFormed(fs: Fs, path: string)
    requires WellFormed(fs) && path !in fs.entries
    ensures WellFormed(Create(fs, path))
  {
  }

  lemma MakeShows(st: Store, s: State, t: State, path: string)
    requires ShowsReleases(st, s) && path !in s.disk.dirs && Filling(t.proc) <= t.disk.loose
    requires t.disk.dirs == s.disk.dirs[path := {}] && t.disk.loose == s.disk.loose + {path}
    ensures path !in st.fs.entries && ShowsReleases(MakeDir(st, path), t)
  {
    assert path !in st.fs.entries && st.fs.entries in st.fs.snapshots;
    var now := MakeDir(st, path);
    MakeIsConsistent(st, path);
    InodesOfEntries(st);
    hide Consistent, MayLack, Durable, DirsOf;
    forall q | q in s.disk.dirs
      ensures if q in s.disk.loose then MayLack(now.fs, q) else Durable(now.fs, q)
    {
      MoreEntries(st.fs, now.fs, q);
    }
    EntryMayLack(now.fs, st.fs.entries, path);
  }

  lemma EntryMayLack(fs: Fs, entries: map<string, nat>, path: string)
    requires entries in fs.snapshots && path !in entries
    ensures MayLack(fs, path)
  {
  }

  lemma InodesOfEntries(st: Store)
    requires Consistent(st)
    ensures forall path :: path in DirsOf(st) <==> path in st.fs.entries
    ensures forall path :: path in st.fs.entries ==>
              st.fs.entries[path] in st.fs.inodes && st.fs.entries[path] < st.fs.next
  {
  }

  /** No two entries share a directory. */
  lemma OthersKeepTheirs(st: Store, path: string)
    requires Consistent(st) && path in st.fs.entries
    ensures forall q :: q in st.fs.entries && q != path ==> st.fs.entries[q] != st.fs.entries[path]
    ensures st.fs.entries[path] in st.files
  {
  }

  /** Files and contents of one release change; its entry and the others do not. */
  lemma WithinOne(st: Store, now: Store, path: string, files: set<string>)
    requires Consistent(st) && path in st.fs.entries
    requires now.fs.entries == st.fs.entries && now.fs.snapshots == st.fs.snapshots && now.fs.next == st.fs.next
    requires now.fs.inodes.Keys == st.fs.inodes.Keys && now.files == st.files[st.fs.entries[path] := files]
    requires forall id :: id in st.fs.inodes && id != st.fs.entries[path] ==> now.fs.inodes[id] == st.fs.inodes[id]
    ensures Consistent(now) && DirsOf(now) == DirsOf(st)[path := files]
    ensures forall q :: q in st.fs.entries && MayLack(st.fs, q) ==> MayLack(now.fs, q)
    ensures forall q :: q in st.fs.entries && q != path && Durable(st.fs, q) ==> Durable(now.fs, q)
    ensures now.fs.inodes == st.fs.inodes && Durable(st.fs, path) ==> Durable(now.fs, path)
  {
    OthersKeepTheirs(st, path);
  }

  lemma PutShows(st: Store, s: State, t: State, path: string, file: string)
    requires ShowsReleases(st, s) && path in s.disk.dirs && path in s.disk.loose && Filling(t.proc) <= t.disk.loose
    requires t.disk.dirs == s.disk.dirs[path := s.disk.dirs[path] + {file}] && t.disk.loose == s.disk.loose
    ensures path in st.fs.entries && ShowsReleases(PutFile(st, path, file), t)
  {
    OthersKeepTheirs(st, path);
    WithinOne(st, PutFile(st, path, file), path, FilesOf(st, path) + {file});
    hide Consistent, MayLack, Durable;
  }

  lemma SyncShows(st: Store, s: State, t: State, path: string)
    requires ShowsReleases(st, s) && Filling(t.proc) <= t.disk.loose
    requires t.disk.dirs == s.disk.dirs && t.disk.loose == s.disk.loose
    ensures ShowsReleases(SyncRelease(st, path), t)
  {
    assert DirsOf(SyncRelease(st, path)) == DirsOf(st);
  }

  lemma DropFilesShows(st: Store, s: State, t: State, path: string, left: set<string>)
    requires ShowsReleases(st, s) && path in s.disk.dirs && Filling(t.proc) <= t.disk.loose
    requires t.disk.dirs == s.disk.dirs[path := s.disk.dirs[path] * left] && t.disk.loose == s.disk.loose
    ensures path in st.fs.entries && ShowsReleases(DropFiles(st, path, left), t)
  {
    OthersKeepTheirs(st, path);
    WithinOne(st, DropFiles(st, path, left), path, FilesOf(st, path) * left);
    hide Consistent, MayLack, Durable;
  }

  lemma DropIsConsistent(st: Store, path: string)
    requires Consistent(st)
    ensures Consistent(DropDir(st, path)) && DirsOf(DropDir(st, path)) == DirsOf(st) - {path}
  {
  }

  lemma DropDirShows(st: Store, s: State, t: State, path: string)
    requires ShowsReleases(st, s) && Filling(t.proc) <= t.disk.loose
    requires t.disk.dirs == s.disk.dirs - {path} && t.disk.loose == s.disk.loose
    ensures ShowsReleases(DropDir(st, path), t)
  {
    var now := DropDir(st, path);
    DropIsConsistent(st, path);
    InodesOfEntries(st);
    hide Consistent, MayLack, Durable, DirsOf;
    forall q | q in t.disk.dirs
      ensures if q in t.disk.loose then MayLack(now.fs, q) else Durable(now.fs, q)
    {
      MoreEntries(st.fs, now.fs, q);
    }
  }

  lemma SyncIsConsistent(st: Store, filling: set<string>)
    requires Consistent(st)
    ensures Consistent(SyncAllBut(st, filling)) && DirsOf(SyncAllBut(st, filling)) == DirsOf(st)
  {
    assert (st.fs.entries - filling).Keys <= st.fs.entries.Keys;
  }

  lemma SyncSettles(st: Store, filling: set<string>, path: string)
    requires Consistent(st) && path in st.fs.entries
    ensures var now := SyncAllBut(st, filling).fs;
            if path in filling then MayLack(now, path) else Durable(now, path)
  {
    var now, less := SyncAllBut(st, filling).fs, st.fs.entries - filling;
    assert less in now.snapshots && (path in less <==> path !in filling);
  }

  lemma WritebackShows(st: Store, s: State, t: State)
    requires ShowsReleases(st, s) && t.proc == s.proc
    requires t.disk.dirs == s.disk.dirs && t.disk.loose == Filling(s.proc)
    ensures ShowsReleases(SyncAllBut(st, Filling(s.proc)), t)
  {
    var now := SyncAllBut(st, Filling(s.proc));
    SyncIsConsistent(st, Filling(s.proc));
    InodesOfEntries(st);
    forall path | path in t.disk.dirs
      ensures if path in t.disk.loose then MayLack(now.fs, path) else Durable(now.fs, path)
    {
      SyncSettles(st, Filling(s.proc), path);
    }
    hide Consistent, MayLack, Durable, DirsOf, SyncAllBut;
  }

  // ----- power losses -----

  /** After a crash the directory of releases has what the protocol says a power loss leaves, and all of it is
      on disk for good. */
  lemma CrashSurvives(st: Store, s: State, after: Store, t: State)
    requires ShowsReleases(st, s) && StoreCrashed(st, after)
    requires t.disk.dirs == DirsOf(after) && t.disk.loose == {} && t.proc == Down
    ensures Survives(s.disk, DirsOf(after)) && ShowsReleases(after, t)
  {
    forall path | path in s.disk.dirs && path !in s.disk.loose
      ensures path in DirsOf(after) && s.disk.dirs[path] <= DirsOf(after)[path]
    {
      assert Durable(st.fs, path) && after.fs.entries in st.fs.snapshots;
    }
  }

  /** And every loose release may be gone. */
  lemma LooseMayBeLost(st: Store, s: State, path: string) returns (after: Store)
    requires ShowsReleases(st, s) && path in s.disk.dirs && path in s.disk.loose
    ensures StoreCrashed(st, after) && path !in DirsOf(after)
  {
    var entries :| entries in st.fs.snapshots && path !in entries;
    after := st.(fs := Fs(entries, AllSynced(st.fs.inodes), st.fs.next, {entries}));
  }
}
