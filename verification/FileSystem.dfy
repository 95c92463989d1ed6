/** One directory with a volatile and a durable layer, and the two crash-atomic writes made on it: a
    file replaced by temp file, sync, rename and directory sync, and the `current` link replaced by a
    new link and a rename.

    A crash leaves the directory as it was at some moment since it was last synced, and leaves a file
    that was not synced with any content at all. */
module FileSystem {
  import opened Wrappers

  datatype Inode = Inode(content: string, synced: bool)

  /** `snapshots` are the directory states since the last directory sync, the present one included;
      inode numbers from `next` on are unused. */
  datatype Fs = Fs(entries: map<string, nat>, inodes: map<nat, Inode>, next: nat, snapshots: set<map<string, nat>>)

  function Read(fs: Fs, name: string): Option<string> {
    if name in fs.entries && fs.entries[name] in fs.inodes then Some(fs.inodes[fs.entries[name]].content) else None
  }

  // ----- operations -----

  function WithEntries(fs: Fs, entries: map<string, nat>): Fs {
    fs.(entries := entries, snapshots := fs.snapshots + {entries})
  }

  function AddInode(fs: Fs, name: string, inode: Inode): Fs {
    WithEntries(fs.(inodes := fs.inodes[fs.next := inode], next := fs.next + 1), fs.entries[name := fs.next])
  }

  /** `File::create`: truncates a file that is there, otherwise makes one. */
  function Create(fs: Fs, name: string): Fs {
    if name in fs.entries then fs.(inodes := fs.inodes[fs.entries[name] := Inode("", false)])
    else AddInode(fs, name, Inode("", false))
  }

  function Write(fs: Fs, name: string, content: string): Fs {
    if name in fs.entries then fs.(inodes := fs.inodes[fs.entries[name] := Inode(content, false)]) else fs
  }

  function SyncFile(fs: Fs, name: string): Fs {
    if name in fs.entries && fs.entries[name] in fs.inodes
    then fs.(inodes := fs.inodes[fs.entries[name] := fs.inodes[fs.entries[name]].(synced := true)]) else fs
  }

  /** `rename` replaces the target in one directory state. */
  function Rename(fs: Fs, from: string, to: string): Fs {
    if from in fs.entries then WithEntries(fs, (fs.entries - {from})[to := fs.entries[from]]) else fs
  }

  function Remove(fs: Fs, name: string): Fs { WithEntries(fs, fs.entries - {name}) }

  /** A symbolic link is written together with its directory entry. */
  function Symlink(fs: Fs, target: string, name: string): Fs { AddInode(fs, name, Inode(target, true)) }

  function SyncDir(fs: Fs): Fs { fs.(snapshots := {fs.entries}) }

  // ----- crashes -----

  /** What is on disk after a crash is on disk for good. */
  ghost predicate Crashed(fs: Fs, after: Fs) {
    && after.entries in fs.snapshots && after.snapshots == {after.entries}
    && after.next == fs.next && after.inodes.Keys == fs.inodes.Keys
    && forall id :: id in fs.inodes ==>
         after.inodes[id].synced && (fs.inodes[id].synced ==> after.inodes[id].content == fs.inodes[id].content)
  }

  /** What a name can read as after a crash. */
  ghost predicate MayRead(fs: Fs, name: string, v: Option<string>) {
    exists s :: s in fs.snapshots && MayReadIn(fs, s, name, v)
  }

  ghost predicate MayReadIn(fs: Fs, s: map<string, nat>, name: string, v: Option<string>) {
    if name in s && s[name] in fs.inodes
    then v.Some? && (fs.inodes[s[name]].synced ==> v.value == fs.inodes[s[name]].content)
    else v.None?
  }

  lemma CrashReads(fs: Fs, after: Fs, name: string)
    requires Crashed(fs, after)
    ensures MayRead(fs, name, Read(after, name))
  {
    assert MayReadIn(fs, after.entries, name, Read(after, name));
  }

  // ----- invariants -----

  /** No two names share a file, in any directory state a crash could bring back. */
  ghost predicate WellFormed(fs: Fs) {
    && fs.entries in fs.snapshots
    && (forall id :: id in fs.inodes ==> id < fs.next)
    && (forall s, n :: s in fs.snapshots && n in s ==> s[n] in fs.inodes)
    && (forall s, n, m :: s in fs.snapshots && n in s && m in s && s[n] == s[m] ==> n == m)
  }

  /** The files that are replaced atomically and the temp files used for it. */
  datatype Layout = Layout(names: set<string>, temps: set<string>)

  /** Each of the names only ever names synced files, and what a temp name names now no other
      name ever named. */
  ghost predicate Protected(fs: Fs, lay: Layout) {
    && WellFormed(fs) && lay.names !! lay.temps
    && (forall name, s :: name in lay.names && s in fs.snapshots && name in s ==> fs.inodes[s[name]].synced)
    && (forall temp, s, n ::
          temp in lay.temps && temp in fs.entries && s in fs.snapshots && n in s && s[n] == fs.entries[temp] ==>
            n == temp)
  }

  /** After a crash every name is protected again, whatever temp files were left behind. */
  lemma CrashProtects(fs: Fs, after: Fs, lay: Layout)
    requires WellFormed(fs) && Crashed(fs, after) && lay.names !! lay.temps
    ensures Protected(after, lay)
  {
  }

  /** Nothing but `v` can come to be read under `name`, and under other names nothing new at all. */
  ghost predicate OnlyAdds(before: Fs, now: Fs, lay: Layout, name: string, v: Option<string>) {
    && (forall r :: MayRead(now, name, r) ==> MayRead(before, name, r) || r == v)
    && (forall n, r :: n != name && n !in lay.temps && MayRead(now, n, r) ==> MayRead(before, n, r))
  }

  lemma OnlyAddsTransitive(a: Fs, b: Fs, c: Fs, lay: Layout, name: string, v: Option<string>)
    requires OnlyAdds(a, b, lay, name, v) && OnlyAdds(b, c, lay, name, v)
    ensures OnlyAdds(a, c, lay, name, v)
  {
    hide MayRead;
  }

  lemma OnlyAddsSelf(a: Fs, lay: Layout, name: string, v: Option<string>)
    ensures OnlyAdds(a, a, lay, name, v)
  {
    hide MayRead;
  }

  // ----- each operation on the temp file -----

  /** What may be read only changes where a snapshot is new or an inode of the name changed. */
  lemma TempOpOnlyAdds(before: Fs, now: Fs, lay: Layout, name: string, temp: string, v: Option<string>)
    requires Protected(before, lay) && name in lay.names && temp in lay.temps
    requires now.snapshots <= before.snapshots + {now.entries}
    requires forall n :: n != temp ==>
               (n in now.entries <==> n in before.entries) && (n in now.entries ==> now.entries[n] == before.entries[n])
    requires before.inodes.Keys <= now.inodes.Keys
    requires forall id :: id in before.inodes && !(temp in before.entries && id == before.entries[temp]) ==>
               now.inodes[id] == before.inodes[id]
    ensures OnlyAdds(before, now, lay, name, v)
  {
    forall n, r | n != temp && MayRead(now, n, r) ensures MayRead(before, n, r) {
      var s :| s in now.snapshots && MayReadIn(now, s, n, r);
      if s in before.snapshots {
        assert MayReadIn(before, s, n, r);
      } else {
        assert MayReadIn(before, before.entries, n, r);
      }
    }
  }

  lemma CreateTemp(fs: Fs, lay: Layout, name: string, temp: string, v: string)
    requires Protected(fs, lay) && name in lay.names && temp in lay.temps
    ensures Protected(Create(fs, temp), lay) && OnlyAdds(fs, Create(fs, temp), lay, name, Some(v))
    ensures temp in Create(fs, temp).entries
  {
    TempOpOnlyAdds(fs, Create(fs, temp), lay, name, temp, Some(v));
  }

  lemma WriteTemp(fs: Fs, lay: Layout, name: string, temp: string, w: string, v: string)
    requires Protected(fs, lay) && name in lay.names && temp in lay.temps && temp in fs.entries
    ensures Protected(Write(fs, temp, w), lay) && OnlyAdds(fs, Write(fs, temp, w), lay, name, Some(v))
    ensures Read(Write(fs, temp, w), temp) == Some(w)
  {
    TempOpOnlyAdds(fs, Write(fs, temp, w), lay, name, temp, Some(v));
  }

  /** The temp file holds all of `v`, durably. */
  predicate Holds(fs: Fs, temp: string, v: string) {
    temp in fs.entries && fs.entries[temp] in fs.inodes && fs.inodes[fs.entries[temp]] == Inode(v, true)
  }

  lemma SyncTemp(fs: Fs, lay: Layout, name: string, temp: string, v: string)
    requires Protected(fs, lay) && name in lay.names && temp in lay.temps && Read(fs, temp) == Some(v)
    ensures Protected(SyncFile(fs, temp), lay) && OnlyAdds(fs, SyncFile(fs, temp), lay, name, Some(v))
    ensures Holds(SyncFile(fs, temp), temp, v)
  {
    TempOpOnlyAdds(fs, SyncFile(fs, temp), lay, name, temp, Some(v));
  }

  lemma RemoveTemp(fs: Fs, lay: Layout, name: string, temp: string, v: string)
    requires Protected(fs, lay) && name in lay.names && temp in lay.temps
    ensures Protected(Remove(fs, temp), lay) && OnlyAdds(fs, Remove(fs, temp), lay, name, Some(v))
  {
    TempOpOnlyAdds(fs, Remove(fs, temp), lay, name, temp, Some(v));
  }

  lemma LinkTemp(fs: Fs, lay: Layout, name: string, temp: string, v: string)
    requires Protected(fs, lay) && name in lay.names && temp in lay.temps && temp !in fs.entries
    ensures Protected(Symlink(fs, v, temp), lay) && OnlyAdds(fs, Symlink(fs, v, temp), lay, name, Some(v))
    ensures Holds(Symlink(fs, v, temp), temp, v)
  {
    TempOpOnlyAdds(fs, Symlink(fs, v, temp), lay, name, temp, Some(v));
  }

  lemma RenameTemp(fs: Fs, lay: Layout, name: string, temp: string, v: string)
    requires Protected(fs, lay) && name in lay.names && temp in lay.temps && Holds(fs, temp, v)
    ensures Protected(Rename(fs, temp, name), lay) && OnlyAdds(fs, Rename(fs, temp, name), lay, name, Some(v))
    ensures Holds(Rename(fs, temp, name), name, v)
  {
    var now := Rename(fs, temp, name);
    forall n, r | n != temp && MayRead(now, n, r) ensures MayRead(fs, n, r) || (n == name && r == Some(v)) {
      var s :| s in now.snapshots && MayReadIn(now, s, n, r);
      if s in fs.snapshots {
        assert MayReadIn(fs, s, n, r);
      } else if n != name {
        assert MayReadIn(fs, fs.entries, n, r);
      }
    }
  }

  lemma RemoveName(fs: Fs, lay: Layout, name: string)
    requires Protected(fs, lay) && name in lay.names
    ensures Protected(Remove(fs, name), lay) && OnlyAdds(fs, Remove(fs, name), lay, name, None)
  {
    var now := Remove(fs, name);
    forall n, r | MayRead(now, n, r) ensures MayRead(fs, n, r) || (n == name && r == None) {
      var s :| s in now.snapshots && MayReadIn(now, s, n, r);
      if s in fs.snapshots {
        assert MayReadIn(fs, s, n, r);
      } else if n != name {
        assert MayReadIn(fs, fs.entries, n, r);
      }
    }
  }

  /** Once the directory is synced, the present content is the only one a crash can leave. */
  lemma SyncDirSettles(fs: Fs, lay: Layout, name: string, temp: string, v: string)
    requires Protected(fs, lay) && name in lay.names && temp in lay.temps && Holds(fs, name, v)
    ensures Protected(SyncDir(fs), lay) && OnlyAdds(fs, SyncDir(fs), lay, name, Some(v))
    ensures forall r :: MayRead(SyncDir(fs), name, r) <==> r == Some(v)
  {
    var now := SyncDir(fs);
    forall n, r | MayRead(now, n, r) ensures MayRead(fs, n, r) {
      assert MayReadIn(fs, fs.entries, n, r);
    }
    forall r ensures MayRead(now, name, r) <==> r == Some(v) {
      assert MayRead(now, name, r) <==> MayReadIn(now, fs.entries, name, r);
    }
  }

  // ----- whole states of the directory -----

  /** What some names hold in one state of the directory. */
  function Contents(fs: Fs, s: map<string, nat>, names: set<string>): map<string, string> {
    map n | n in names && n in s && s[n] in fs.inodes :: fs.inodes[s[n]].content
  }

  function PresentContents(fs: Fs, names: set<string>): map<string, string> { Contents(fs, fs.entries, names) }

  /** Everything a crash may leave of these names, each state as a whole. */
  function States(fs: Fs, names: set<string>): set<map<string, string>> {
    set s | s in fs.snapshots :: Contents(fs, s, names)
  }

  lemma TempKeepsStates(before: Fs, now: Fs, lay: Layout, temp: string)
    requires Protected(before, lay) && temp in lay.temps
    requires before.snapshots <= now.snapshots <= before.snapshots + {now.entries}
    requires forall n :: n != temp ==>
               (n in now.entries <==> n in before.entries) && (n in now.entries ==> now.entries[n] == before.entries[n])
    requires before.inodes.Keys <= now.inodes.Keys
    requires forall id :: id in before.inodes && !(temp in before.entries && id == before.entries[temp]) ==>
               now.inodes[id] == before.inodes[id]
    ensures States(now, lay.names) == States(before, lay.names)
    ensures PresentContents(now, lay.names) == PresentContents(before, lay.names)
  {
    hide States, Contents;
    assert before.entries in before.snapshots && temp !in lay.names;
    SameNames(now, now.entries, before.entries, temp, lay.names);
    forall s | s in before.snapshots ensures Contents(now, s, lay.names) == Contents(before, s, lay.names) {
      TempKeepsContents(before, now, lay, temp, s);
    }
    SameStates(before, now, lay.names);
  }

  lemma SameStates(before: Fs, now: Fs, names: set<string>)
    requires before.entries in before.snapshots && before.snapshots <= now.snapshots <= before.snapshots + {now.entries}
    requires forall s :: s in before.snapshots ==> Contents(now, s, names) == Contents(before, s, names)
    requires Contents(now, now.entries, names) == Contents(now, before.entries, names)
    ensures States(now, names) == States(before, names)
    ensures PresentContents(now, names) == PresentContents(before, names)
  {
    hide Contents;
    forall c | c in States(now, names) ensures c in States(before, names) {
      var s :| s in now.snapshots && c == Contents(now, s, names);
      var t := if s in before.snapshots then s else before.entries;
      assert t in before.snapshots && c == Contents(before, t, names);
    }
    forall c | c in States(before, names) ensures c in States(now, names) {
      var s :| s in before.snapshots && c == Contents(before, s, names);
      assert s in now.snapshots && c == Contents(now, s, names);
    }
  }

  lemma SameNames(fs: Fs, s: map<string, nat>, t: map<string, nat>, temp: string, names: set<string>)
    requires temp !in names && forall n :: n != temp ==> (n in s <==> n in t) && (n in s ==> s[n] == t[n])
    ensures Contents(fs, s, names) == Contents(fs, t, names)
  {
  }

  lemma TempKeepsContents(before: Fs, now: Fs, lay: Layout, temp: string, s: map<string, nat>)
    requires Protected(before, lay) && temp in lay.temps && s in before.snapshots
    requires before.inodes.Keys <= now.inodes.Keys
    requires forall id :: id in before.inodes && !(temp in before.entries && id == before.entries[temp]) ==>
               now.inodes[id] == before.inodes[id]
    ensures Contents(now, s, lay.names) == Contents(before, s, lay.names)
  {
  }

  lemma RenameAddsState(fs: Fs, lay: Layout, name: string, temp: string, v: string)
    requires Protected(fs, lay) && name in lay.names && temp in lay.temps && Holds(fs, temp, v)
    ensures var after := PresentContents(fs, lay.names)[name := v];
            && PresentContents(Rename(fs, temp, name), lay.names) == after
            && States(Rename(fs, temp, name), lay.names) == States(fs, lay.names) + {after}
  {
    hide States;
    var entries := (fs.entries - {temp})[name := fs.entries[temp]];
    EntriesAddState(fs, entries, lay.names);
    assert temp !in lay.names;
    RenamedContents(fs, name, temp, v, lay.names);
  }

  lemma RenamedContents(fs: Fs, name: string, temp: string, v: string, names: set<string>)
    requires name in names && temp !in names && Holds(fs, temp, v)
    ensures Contents(fs, (fs.entries - {temp})[name := fs.entries[temp]], names) ==
            PresentContents(fs, names)[name := v]
  {
  }

  lemma RemoveAddsState(fs: Fs, lay: Layout, name: string)
    requires Protected(fs, lay) && name in lay.names
    ensures var after := PresentContents(fs, lay.names) - {name};
            && PresentContents(Remove(fs, name), lay.names) == after
            && States(Remove(fs, name), lay.names) == States(fs, lay.names) + {after}
  {
    EntriesAddState(fs, fs.entries - {name}, lay.names);
    assert Contents(fs, fs.entries - {name}, lay.names) == PresentContents(fs, lay.names) - {name};
  }

  lemma SameInodes(fs: Fs, now: Fs, s: map<string, nat>, names: set<string>)
    requires now.inodes == fs.inodes
    ensures Contents(now, s, names) == Contents(fs, s, names)
  {
  }

  /** A new state of the directory is one more state a crash may leave. */
  lemma EntriesAddState(fs: Fs, entries: map<string, nat>, names: set<string>)
    ensures States(WithEntries(fs, entries), names) == States(fs, names) + {Contents(fs, entries, names)}
    ensures PresentContents(WithEntries(fs, entries), names) == Contents(fs, entries, names)
  {
    hide Contents;
    var now := WithEntries(fs, entries);
    forall s ensures Contents(now, s, names) == Contents(fs, s, names) {
      SameInodes(fs, now, s, names);
    }
    forall c | c in States(fs, names) + {Contents(fs, entries, names)} ensures c in States(now, names) {
      if c in States(fs, names) {
        var s :| s in fs.snapshots && c == Contents(fs, s, names);
        assert s in now.snapshots && c == Contents(now, s, names);
      } else {
        assert entries in now.snapshots;
      }
    }
  }

  lemma SyncDirSettlesStates(fs: Fs, names: set<string>)
    ensures States(SyncDir(fs), names) == {PresentContents(fs, names)}
    ensures PresentContents(SyncDir(fs), names) == PresentContents(fs, names)
  {
    var now := SyncDir(fs);
    assert Contents(now, fs.entries, names) == Contents(fs, fs.entries, names);
    assert fs.entries in now.snapshots;
  }

  /** Nothing to be seen under the names has changed, now or after a crash. */
  predicate NoChange(before: Fs, now: Fs, lay: Layout) {
    && States(now, lay.names) == States(before, lay.names)
    && PresentContents(now, lay.names) == PresentContents(before, lay.names)
  }

  /** The name is changed, and a crash may leave that or whatever it could leave before. */
  predicate Added(before: Fs, now: Fs, lay: Layout, name: string, v: string) {
    && PresentContents(now, lay.names) == PresentContents(before, lay.names)[name := v]
    && States(now, lay.names) == States(before, lay.names) + {PresentContents(now, lay.names)}
  }

  /** The name is changed, and that is what a crash leaves, of all names. */
  predicate SettledOn(before: Fs, now: Fs, lay: Layout, name: string, v: string) {
    && PresentContents(now, lay.names) == PresentContents(before, lay.names)[name := v]
    && States(now, lay.names) == {PresentContents(now, lay.names)}
  }

  predicate Removed(before: Fs, now: Fs, lay: Layout, name: string) {
    && PresentContents(now, lay.names) == PresentContents(before, lay.names) - {name}
    && States(now, lay.names) == States(before, lay.names) + {PresentContents(now, lay.names)}
  }

  predicate OneOfThree(before: Fs, now: Fs, lay: Layout, name: string, v: string) {
    NoChange(before, now, lay) || Added(before, now, lay, name, v) || SettledOn(before, now, lay, name, v)
  }

  /** Whatever is done to the temp name shows under no other. */
  lemma TempDoesNotShow(start: Fs, fs: Fs, lay: Layout, temp: string, v: string)
    requires Protected(fs, lay) && temp in lay.temps && NoChange(start, fs, lay)
    ensures NoChange(start, Create(fs, temp), lay) && NoChange(start, Remove(fs, temp), lay)
    ensures temp in fs.entries ==> NoChange(start, Write(fs, temp, v), lay) && NoChange(start, SyncFile(fs, temp), lay)
    ensures temp !in fs.entries ==> NoChange(start, Symlink(fs, v, temp), lay)
  {
    hide States, PresentContents;
    TempKeepsStates(fs, Create(fs, temp), lay, temp);
    TempKeepsStates(fs, Remove(fs, temp), lay, temp);
    if temp in fs.entries {
      TempKeepsStates(fs, Write(fs, temp, v), lay, temp);
      TempKeepsStates(fs, SyncFile(fs, temp), lay, temp);
    } else {
      TempKeepsStates(fs, Symlink(fs, v, temp), lay, temp);
    }
  }

  lemma SameIsNoChange(fs: Fs, lay: Layout)
    ensures NoChange(fs, fs, lay)
  {
  }

  lemma RenameShows(start: Fs, fs: Fs, lay: Layout, name: string, temp: string, v: string)
    requires Protected(fs, lay) && name in lay.names && temp in lay.temps && Holds(fs, temp, v)
             && NoChange(start, fs, lay)
    ensures Added(start, Rename(fs, temp, name), lay, name, v)
    ensures SettledOn(start, SyncDir(Rename(fs, temp, name)), lay, name, v)
  {
    hide States, PresentContents, Rename, SyncDir, Protected, Holds;
    RenameAddsState(fs, lay, name, temp, v);
    SyncDirSettlesStates(Rename(fs, temp, name), lay.names);
  }

  // ----- the two writes -----

  /** Every state on the way can crash only into the old content or the new one. */
  ghost predicate CrashAtomic(before: Fs, seen: seq<Fs>, lay: Layout, name: string, v: string) {
    forall k :: 0 <= k < |seen| ==>
      Protected(seen[k], lay) && OnlyAdds(before, seen[k], lay, name, Some(v))
          && OneOfThree(before, seen[k], lay, name, v)
  }

  /** The directory as the program sees it, with every state it has been in. `failAt` is the operation
      of a write that fails, if one does. */
  class Directory {
    var fs: Fs
    ghost var seen: seq<Fs>

    constructor (fs: Fs)
      ensures this.fs == fs && seen == []
    {
      this.fs, seen := fs, [];
    }

    method Become(now: Fs)
      modifies this
      ensures fs == now && seen == old(seen) + [now]
    {
      fs := now;
      seen := seen + [now];
    }

    /** Replace `name` by way of `temp` and sync the directory, as the journal and the counter are
        written. Whenever it is cut short, by a crash or a failing operation, the old content or all of
        the new one is there; once it reports success, only the new one. */
    method StoreFile(lay: Layout, name: string, temp: string, content: string, failAt: Option<nat>, partial: string)
      returns (ok: bool)
      requires Protected(fs, lay) && name in lay.names && temp in lay.temps
      modifies this
      ensures |old(seen)| <= |seen| && seen[..|old(seen)|] == old(seen)
      ensures CrashAtomic(old(fs), seen[|old(seen)|..], lay, name, content)
      ensures Protected(fs, lay) && OnlyAdds(old(fs), fs, lay, name, Some(content))
      ensures ok ==> Read(fs, name) == Some(content) && forall r :: MayRead(fs, name, r) <==> r == Some(content)
      ensures ok <==> !(failAt.Some? && failAt.value < 5)
      ensures if ok then SettledOn(old(fs), fs, lay, name, content)
              else if failAt.value == 4 then Added(old(fs), fs, lay, name, content)
              else NoChange(old(fs), fs, lay)
    {
      hide MayRead, Protected, OnlyAdds, Create, Write, SyncFile, Rename, SyncDir, NoChange, Added, SettledOn;
      ghost var start, first := fs, |seen|;
      OnlyAddsSelf(fs, lay, name, Some(content));
      SameIsNoChange(fs, lay);
      ok := false;
      if failAt == Some(0) { return; }
      TempDoesNotShow(start, fs, lay, temp, "");
      CreateTemp(fs, lay, name, temp, content);
      Become(Create(fs, temp));
      TempDoesNotShow(start, fs, lay, temp, partial);
      TempDoesNotShow(start, fs, lay, temp, content);
      if failAt == Some(1) {
        WriteTemp(fs, lay, name, temp, partial, content);
        OnlyAddsTransitive(start, fs, Write(fs, temp, partial), lay, name, Some(content));
        Become(Write(fs, temp, partial));
        return;
      }
      WriteTemp(fs, lay, name, temp, content, content);
      OnlyAddsTransitive(start, fs, Write(fs, temp, content), lay, name, Some(content));
      Become(Write(fs, temp, content));
      if failAt == Some(2) { return; }
      TempDoesNotShow(start, fs, lay, temp, "");
      SyncTemp(fs, lay, name, temp, content);
      OnlyAddsTransitive(start, fs, SyncFile(fs, temp), lay, name, Some(content));
      Become(SyncFile(fs, temp));
      if failAt == Some(3) { return; }
      ok := RenameAndSync(start, first, lay, name, temp, content, failAt == Some(4));
    }

    /** Point `name` at `target`: a leftover temp link goes first, then a new link is renamed over. */
    method ReplaceLink(lay: Layout, name: string, temp: string, target: string, failAt: Option<nat>) returns (ok: bool)
      requires Protected(fs, lay) && name in lay.names && temp in lay.temps
      modifies this
      ensures |old(seen)| <= |seen| && seen[..|old(seen)|] == old(seen)
      ensures CrashAtomic(old(fs), seen[|old(seen)|..], lay, name, target)
      ensures Protected(fs, lay) && OnlyAdds(old(fs), fs, lay, name, Some(target))
      ensures ok ==> Read(fs, name) == Some(target) && forall r :: MayRead(fs, name, r) <==> r == Some(target)
      ensures ok <==> !(failAt.Some? && failAt.value < 4)
      ensures if ok then SettledOn(old(fs), fs, lay, name, target)
              else if failAt.value == 3 then Added(old(fs), fs, lay, name, target)
              else NoChange(old(fs), fs, lay)
    {
      hide MayRead, Protected, OnlyAdds, Symlink, Rename, SyncDir, NoChange, Added, SettledOn;
      ghost var start, first := fs, |seen|;
      OnlyAddsSelf(fs, lay, name, Some(target));
      SameIsNoChange(fs, lay);
      ok := false;
      if failAt == Some(0) { return; }
      TempDoesNotShow(start, fs, lay, temp, "");
      RemoveTemp(fs, lay, name, temp, target);
      Become(Remove(fs, temp));
      if failAt == Some(1) { return; }
      TempDoesNotShow(start, fs, lay, temp, target);
      LinkTemp(fs, lay, name, temp, target);
      OnlyAddsTransitive(start, fs, Symlink(fs, target, temp), lay, name, Some(target));
      Become(Symlink(fs, target, temp));
      if failAt == Some(2) { return; }
      ok := RenameAndSync(start, first, lay, name, temp, target, failAt == Some(3));
    }

    /** Remove a file that may be missing, without syncing the directory: it may come back. */
    method RemoveFile(lay: Layout, name: string)
      requires Protected(fs, lay) && name in lay.names
      modifies this
      ensures seen == old(seen) + [fs] && Protected(fs, lay) && OnlyAdds(old(fs), fs, lay, name, None)
      ensures Read(fs, name) == None && Removed(old(fs), fs, lay, name)
    {
      RemoveName(fs, lay, name);
      RemoveAddsState(fs, lay, name);
      Become(Remove(fs, name));
    }

    /** The common end of both: rename over the name, then sync the directory. */
    method RenameAndSync(ghost start: Fs, ghost first: nat, lay: Layout, name: string, temp: string, v: string,
        syncFails: bool) returns (ok: bool)
      requires Protected(fs, lay) && name in lay.names && temp in lay.temps
               && OnlyAdds(start, fs, lay, name, Some(v)) && Holds(fs, temp, v)
      requires first <= |seen| && CrashAtomic(start, seen[first..], lay, name, v) && NoChange(start, fs, lay)
      modifies this
      ensures |old(seen)| <= |seen| && seen[..|old(seen)|] == old(seen)
      ensures CrashAtomic(start, seen[first..], lay, name, v)
      ensures Protected(fs, lay) && OnlyAdds(start, fs, lay, name, Some(v))
      ensures Read(fs, name) == Some(v) && ok == !syncFails
      ensures ok ==> forall r :: MayRead(fs, name, r) <==> r == Some(v)
      ensures if ok then SettledOn(start, fs, lay, name, v) else Added(start, fs, lay, name, v)
    {
      hide MayRead, Protected, OnlyAdds, Rename, NoChange, Added, SettledOn;
      RenameShows(start, fs, lay, name, temp, v);
      RenameTemp(fs, lay, name, temp, v);
      OnlyAddsTransitive(start, fs, Rename(fs, temp, name), lay, name, Some(v));
      Become(Rename(fs, temp, name));
      if syncFails {
        return false;
      }
      SyncDirSettles(fs, lay, name, temp, v);
      OnlyAddsTransitive(start, fs, SyncDir(fs), lay, name, Some(v));
      Become(SyncDir(fs));
      ok := true;
    }
  }

  // ----- any number of writes and crashes -----

  /** How a change ended: settled by a directory sync, left unsettled by a failing operation or (the
      removal of the counter) by not syncing, or cut short by a crash in a state on the way. */
  datatype End = Settled | Unsettled | CutShort(at: Fs)

  /** An attempt to give `name` a content, or none by removing it, and the state afterwards. */
  datatype Event = Event(name: string, content: Option<string>, end: End, now: Fs)

  /** What the methods guarantee about a change that ran to its end and about a state on the way. */
  ghost predicate Follows(fs: Fs, lay: Layout, e: Event) {
    && e.name in lay.names
    && match e.end
       case Settled =>
         && Protected(e.now, lay) && OnlyAdds(fs, e.now, lay, e.name, e.content)
         && forall r :: MayRead(e.now, e.name, r) <==> r == e.content
       case Unsettled => Protected(e.now, lay) && OnlyAdds(fs, e.now, lay, e.name, e.content)
       case CutShort(at) => Protected(at, lay) && OnlyAdds(fs, at, lay, e.name, e.content) && Crashed(at, e.now)
  }

  ghost predicate History(fs: Fs, lay: Layout, events: seq<Event>, end: Fs)
    decreases |events|
  {
    if events == [] then end == fs
    else
      var last := events[|events| - 1];
      exists before :: History(fs, lay, events[..|events| - 1], before) && Follows(before, lay, last) && end == last.now
  }

  /** What may be found under `name`: what was there at the start, until a change of it settles; what
      the last settled change made it; and what the unsettled and interrupted changes since wanted it
      to be. Changes of other names do not matter. */
  ghost predicate Explained(fs: Fs, name: string, events: seq<Event>, r: Option<string>) {
    if events == [] then MayRead(fs, name, r)
    else
      var last, init := events[|events| - 1], events[..|events| - 1];
      if last.name != name then Explained(fs, name, init, r)
      else r == last.content || (!last.end.Settled? && Explained(fs, name, init, r))
  }

  /** However often changes of the journal, the counter and the link fail or are cut short, what is
      found under a name is always the whole of one content: the last that settled or one begun since.
      Torn contents and leftover temp files never show. */
  lemma {:induction false} HistoryIsExplained(fs: Fs, lay: Layout, events: seq<Event>, end: Fs)
    requires Protected(fs, lay) && History(fs, lay, events, end)
    ensures Protected(end, lay)
    ensures forall name, r :: name in lay.names && MayRead(end, name, r) ==> Explained(fs, name, events, r)
    decreases |events|
  {
    hide MayRead, Protected, OnlyAdds, Crashed;
    if events != [] {
      var last, init := events[|events| - 1], events[..|events| - 1];
      var before :| History(fs, lay, init, before) && Follows(before, lay, last);
      HistoryIsExplained(fs, lay, init, before);
      FollowsKeeps(before, lay, last);
    }
  }

  lemma FollowsKeeps(before: Fs, lay: Layout, e: Event)
    requires Protected(before, lay) && Follows(before, lay, e)
    ensures Protected(e.now, lay)
    ensures forall name, r :: name in lay.names && MayRead(e.now, name, r) ==>
              if name == e.name then r == e.content || (!e.end.Settled? && MayRead(before, name, r))
              else MayRead(before, name, r)
  {
    if e.end.CutShort? {
      CrashProtects(e.end.at, e.now, lay);
      forall name, r | MayRead(e.now, name, r) ensures MayRead(e.end.at, name, r) {
        CrashAddsNothing(e.end.at, e.now, name, r);
      }
    }
  }

  lemma CrashAddsNothing(at: Fs, now: Fs, name: string, r: Option<string>)
    requires Crashed(at, now) && MayRead(now, name, r)
    ensures MayRead(at, name, r)
  {
    var s :| s in now.snapshots && MayReadIn(now, s, name, r);
    assert MayReadIn(at, s, name, r);
  }
}
