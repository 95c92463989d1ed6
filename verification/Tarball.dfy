/** Which tarballs `unpack` accepts, and what it takes from them. */
module Tarball {
  import opened Protocol

  datatype Component = RootDir | CurDir | ParentDir | Normal(name: string)

  /** A tarball entry; `sound` says that reading it and writing it out works. */
  datatype Entry = Entry(sound: bool, isFile: bool, components: seq<Component>)

  /** The binaries and the documents a release is expected to carry. */
  predicate Known(name: string) {
    || name == "nudo-server" || name == "nudo-web" || name == "nudo" || name == "nudo-mcp"
    || name == MAIN_BINARY || name == "nudo-boot-guard"
    || name == "README.md" || name == "CHANGES.md" || name == "CHANGELOG.md" || name == "NOTICE"
    || name == "LICENSE" || name == "nudo.service"
  }

  predicate Hostile(e: Entry) { e.components != [] && (e.components[0] == RootDir || ParentDir in e.components) }

  /** Below the top-level directory, a plain known name. */
  predicate Expected(e: Entry) {
    e.isFile && |e.components| == 2 && e.components[1].Normal? && Known(e.components[1].name)
  }

  function ExpectedName(e: Entry): string
    requires Expected(e)
  {
    e.components[1].name
  }

  predicate Fatal(e: Entry) { !e.sound || (e.isFile && Hostile(e)) }

  /** The files that end up in the release directory. */
  function Unpacks(entries: seq<Entry>): set<string> {
    set i | 0 <= i < |entries| && Expected(entries[i]) :: ExpectedName(entries[i])
  }

  lemma UnpacksSnoc(entries: seq<Entry>, e: Entry)
    ensures Unpacks(entries + [e]) == Unpacks(entries) + if Expected(e) then {ExpectedName(e)} else {}
  {
    hide Expected;
    var all := entries + [e];
    assert all[|entries|] == e;
    forall name | name in Unpacks(entries) ensures name in Unpacks(all) {
      var i :| 0 <= i < |entries| && Expected(entries[i]) && ExpectedName(entries[i]) == name;
      assert all[i] == entries[i];
    }
  }

  /** Every entry can be processed, none has a hostile path, and the main binary is there. */
  predicate Unpackable(entries: seq<Entry>) {
    (forall i :: 0 <= i < |entries| ==> !Fatal(entries[i])) && MAIN_BINARY in Unpacks(entries)
  }

  /** The files a release is published with. */
  const PUBLISHED: set<string> := {
    "nudo-server", "nudo-web", "nudo", "nudo-mcp", "nudo-all-in-one", "nudo-boot-guard",
    "README.md", "CHANGES.md", "CHANGELOG.md", "NOTICE", "LICENSE", "nudo.service"
  }

  /** A file right below some top-level directory. */
  predicate LiesAt(e: Entry, name: string) { e.isFile && |e.components| == 2 && e.components[1] == Normal(name) }

  /** What lands in the release directory is exactly what lies below a top-level directory under a published
      name, and it lands under that name. */
  lemma FileLands(entries: seq<Entry>, name: string)
    ensures name in Unpacks(entries) <==>
            name in PUBLISHED && exists i :: 0 <= i < |entries| && LiesAt(entries[i], name)
  {
    PublishedIsKnown(name);
    hide Known, PUBLISHED;
    if name in Unpacks(entries) {
      var i :| 0 <= i < |entries| && Expected(entries[i]) && ExpectedName(entries[i]) == name;
      assert LiesAt(entries[i], name);
    }
    if i :| 0 <= i < |entries| && LiesAt(entries[i], name) {
      if name in PUBLISHED {
        assert Expected(entries[i]) && ExpectedName(entries[i]) == name;
      }
    }
  }

  lemma PublishedIsKnown(name: string)
    ensures Known(name) <==> name in PUBLISHED
  {
  }

  /** A tarball is accepted exactly when every entry can be processed, no file has an absolute path or one
      that goes up, and the main binary lies below a top-level directory. */
  lemma AcceptedExactly(entries: seq<Entry>)
    ensures Unpackable(entries) <==>
            && (forall i :: 0 <= i < |entries| ==> entries[i].sound)
            && (forall i :: 0 <= i < |entries| && entries[i].isFile ==>
                  ParentDir !in entries[i].components && !([RootDir] <= entries[i].components))
            && exists i :: 0 <= i < |entries| && LiesAt(entries[i], "nudo-all-in-one")
  {
    hide Expected, LiesAt, Unpacks;
    FileLands(entries, MAIN_BINARY);
    assert MAIN_BINARY in PUBLISHED;
  }
}
