/** The upgrade journal as text: `key=value` lines, written by the server and by the boot guard and
    read back by both. */
module JournalFile {
  import opened Wrappers
  import opened Text

  datatype JournalState = Staged | Swapped | Confirmed | ExecFailed | RolledBack | Failed

  /** The time of a record, in seconds of 64 bits. */
  type Seconds = n: nat | n < U64_BOUND

  datatype Journal = Journal(
    state: JournalState,
    fromVersion: string,
    toVersion: string,
    previous: string,
    target: string,
    updatedAt: Seconds,
    error: string)

  function StateName(state: JournalState): string {
    match state
    case Staged => "staged"
    case Swapped => "swapped"
    case Confirmed => "confirmed"
    case ExecFailed => "exec-failed"
    case RolledBack => "rolled-back"
    case Failed => "failed"
  }

  function ParseState(raw: string): Option<JournalState> {
    if raw == "staged" then Some(Staged)
    else if raw == "swapped" then Some(Swapped)
    else if raw == "confirmed" then Some(Confirmed)
    else if raw == "exec-failed" then Some(ExecFailed)
    else if raw == "rolled-back" then Some(RolledBack)
    else if raw == "failed" then Some(Failed)
    else None
  }

  lemma StateNameRoundTrip(state: JournalState)
    ensures ParseState(StateName(state)) == Some(state)
    ensures Clean(StateName(state))
  {
  }

  // ----- writing -----

  /** Every line break of the error becomes "; ", so that the error stays one line. */
  function Flattened(error: string): (r: string)
    ensures '\n' !in r && '\r' !in r
  {
    if error == "" then ""
    else (if error[0] == '\n' || error[0] == '\r' then "; " else [error[0]]) + Flattened(error[1..])
  }

  /** The keys of the file; a key the reader does not know is skipped. */
  datatype Key = StateKey | FromVersionKey | ToVersionKey | PreviousKey | TargetKey | UpdatedAtKey | ErrorKey

  function KeyName(key: Key): string {
    match key
    case StateKey => "state"
    case FromVersionKey => "from_version"
    case ToVersionKey => "to_version"
    case PreviousKey => "previous"
    case TargetKey => "target"
    case UpdatedAtKey => "updated_at"
    case ErrorKey => "error"
  }

  function ParseKey(raw: string): Option<Key> {
    if raw == "state" then Some(StateKey)
    else if raw == "from_version" then Some(FromVersionKey)
    else if raw == "to_version" then Some(ToVersionKey)
    else if raw == "previous" then Some(PreviousKey)
    else if raw == "target" then Some(TargetKey)
    else if raw == "updated_at" then Some(UpdatedAtKey)
    else if raw == "error" then Some(ErrorKey)
    else None
  }

  lemma KeyNameRoundTrip(key: Key)
    ensures ParseKey(KeyName(key)) == Some(key) && '=' !in KeyName(key) && '\n' !in KeyName(key)
  {
  }

  function Line(key: Key, value: string): string { KeyName(key) + "=" + value + "\n" }

  function RenderFields(fields: seq<(Key, string)>): string {
    if fields == [] then "" else Line(fields[0].0, fields[0].1) + RenderFields(fields[1..])
  }

  function FieldsOf(j: Journal): seq<(Key, string)> {
    [(StateKey, StateName(j.state)), (FromVersionKey, j.fromVersion), (ToVersionKey, j.toVersion),
     (PreviousKey, j.previous), (TargetKey, j.target), (UpdatedAtKey, Decimal(j.updatedAt)),
     (ErrorKey, Flattened(j.error))]
  }

  function Render(j: Journal): string { RenderFields(FieldsOf(j)) }

  // ----- reading -----

  /** What has been read so far: the state, if it was one the reader knows, and the other fields. */
  datatype Reading = Reading(state: Option<JournalState>, fields: Journal)

  const BLANK: Reading := Reading(None, Journal(Failed, "", "", "", "", 0, ""))

  function Assign(r: Reading, key: Key, value: string): Reading {
    match key
    case StateKey => r.(state := ParseState(value))
    case FromVersionKey => r.(fields := r.fields.(fromVersion := value))
    case ToVersionKey => r.(fields := r.fields.(toVersion := value))
    case PreviousKey => r.(fields := r.fields.(previous := value))
    case TargetKey => r.(fields := r.fields.(target := value))
    case UpdatedAtKey =>
      var n := ParseUnsigned(value, U64_BOUND);
      r.(fields := r.fields.(updatedAt := if n.Some? then n.value else 0))
    case ErrorKey => r.(fields := r.fields.(error := value))
  }

  /** One line: everything before the first `=` is the key; lines without one are skipped. */
  function ReadLine(r: Reading, line: string): Reading {
    match SplitOnce(line, '=')
    case None => r
    case Some((name, value)) =>
      match ParseKey(name)
      case None => r
      case Some(key) => Assign(r, key, value)
  }

  function ReadLines(r: Reading, lines: seq<string>): Reading
    decreases |lines|
  {
    if lines == [] then r else ReadLines(ReadLine(r, lines[0]), lines[1..])
  }

  function Finish(r: Reading): Option<Journal> {
    if r.state.None? then None else Some(r.fields.(state := r.state.value))
  }

  /** What a journal file means: no file, or no state the reader knows, is no journal. */
  function Parse(file: Option<string>): Option<Journal> {
    if file.None? then None else Finish(ReadLines(BLANK, Lines(file.value)))
  }

  lemma {:induction false} ReadLinesAppend(r: Reading, a: seq<string>, b: seq<string>)
    ensures ReadLines(r, a + b) == ReadLines(ReadLines(r, a), b)
    decreases |a|
  {
    if a == [] {
      assert a + b == b;
    } else {
      assert (a + b)[1..] == a[1..] + b;
      ReadLinesAppend(ReadLine(r, a[0]), a[1..], b);
    }
  }

  method Load(file: Option<string>) returns (r: Option<Journal>)
    ensures r == Parse(file)
  {
    hide ReadLine, Lines;
    if file.None? {
      return None;
    }
    var lines := Lines(file.value);
    var reading := BLANK;
    for i := 0 to |lines|
      invariant reading == ReadLines(BLANK, lines[..i])
    {
      reading := ReadLine(reading, lines[i]);
      assert lines[..i + 1] == lines[..i] + [lines[i]];
      ReadLinesAppend(BLANK, lines[..i], [lines[i]]);
    }
    assert lines[..|lines|] == lines;
    r := Finish(reading);
  }

  // ----- the round trip -----

  /** A value that survives being one line of the file. */
  predicate Clean(value: string) { '\n' !in value && (value == "" || value[|value| - 1] != '\r') }

  /** What a value is read back as. */
  function FirstLine(value: string): (r: string)
    ensures '\n' !in r
    ensures r == value <==> Clean(value)
  {
    StripCr(value[..IndexOf(value, '\n')])
  }

  /** The reader skips whatever lines the value has behind its first. */
  predicate Inert(value: string) { '=' !in value[IndexOf(value, '\n')..] }

  lemma CleanIsInert(value: string)
    requires Clean(value)
    ensures Inert(value) && FirstLine(value) == value
  {
    assert IndexOf(value, '\n') == |value|;
  }

  lemma ReadsNothing(r: Reading, line: string, rest: string)
    requires '=' !in line && '\n' !in line
    ensures ReadLines(r, Lines(line + "\n" + rest)) == ReadLines(r, Lines(rest))
  {
    LinesCons(line, rest);
    assert SplitOnce(StripCr(line), '=').None?;
    assert ([StripCr(line)] + Lines(rest))[1..] == Lines(rest);
  }

  lemma {:induction false} SkipsInert(r: Reading, tail: string, rest: string)
    requires '=' !in tail
    ensures ReadLines(r, Lines(tail + "\n" + rest)) == ReadLines(r, Lines(rest))
    decreases |tail|
  {
    hide ReadLines, Lines;
    var i := IndexOf(tail, '\n');
    if i == |tail| {
      ReadsNothing(r, tail, rest);
    } else {
      var more := tail[i + 1..];
      assert tail + "\n" + rest == tail[..i] + "\n" + (more + "\n" + rest);
      ReadsNothing(r, tail[..i], more + "\n" + rest);
      SkipsInert(r, more, rest);
    }
  }

  /** One line with its key is one assignment. */
  lemma ReadPlain(r: Reading, key: Key, value: string, rest: string)
    requires '\n' !in value
    ensures ReadLines(r, Lines(Line(key, value) + rest)) == ReadLines(Assign(r, key, StripCr(value)), Lines(rest))
  {
    hide Assign, ParseKey, KeyName;
    KeyNameRoundTrip(key);
    var name := KeyName(key);
    var line := name + "=" + value;
    assert Line(key, value) + rest == line + "\n" + rest;
    LinesCons(line, rest);
    assert StripCr(line) == name + ['='] + StripCr(value) by {
      if value == "" {
        assert line[|line| - 1] == '=';
      } else {
        assert line[|line| - 1] == value[|value| - 1];
      }
    }
    SplitOnceAt(name, '=', StripCr(value));
  }

  /** The reader takes a rendered field off the front: its first line is the value. */
  lemma ReadField(r: Reading, key: Key, value: string, rest: string)
    requires Inert(value)
    ensures ReadLines(r, Lines(Line(key, value) + rest)) == ReadLines(Assign(r, key, FirstLine(value)), Lines(rest))
  {
    hide Assign, ParseKey, KeyName, ReadLines, Lines, StripCr;
    var i := IndexOf(value, '\n');
    if i == |value| {
      assert value[..i] == value;
      ReadPlain(r, key, value, rest);
    } else {
      var head, tail := value[..i], value[i + 1..];
      assert value == head + "\n" + tail;
      assert Line(key, value) + rest == Line(key, head) + (tail + "\n" + rest);
      ReadPlain(r, key, head, tail + "\n" + rest);
      assert forall c :: c in tail ==> c in value[i..];
      SkipsInert(Assign(r, key, StripCr(head)), tail, rest);
    }
  }

  function AssignAll(r: Reading, fields: seq<(Key, string)>): Reading
    decreases |fields|
  {
    if fields == [] then r
    else AssignAll(Assign(r, fields[0].0, FirstLine(fields[0].1)), fields[1..])
  }

  lemma {:induction false} ReadFields(r: Reading, fields: seq<(Key, string)>)
    requires forall f :: f in fields ==> Inert(f.1)
    ensures ReadLines(r, Lines(RenderFields(fields))) == AssignAll(r, fields)
    decreases |fields|
  {
    hide Assign, Line, Inert, FirstLine;
    if fields != [] {
      var (key, value) := fields[0];
      ReadField(r, key, value, RenderFields(fields[1..]));
      ReadFields(Assign(r, key, FirstLine(value)), fields[1..]);
    }
  }

  lemma AssignNext(r: Reading, key: Key, value: string, rest: seq<(Key, string)>) returns (next: Reading)
    ensures AssignAll(r, [(key, value)] + rest) == AssignAll(next, rest)
    ensures next == Assign(r, key, FirstLine(value))
  {
    hide Assign, FirstLine;
    assert ([(key, value)] + rest)[1..] == rest;
    next := Assign(r, key, FirstLine(value));
  }

  lemma AssignNone(r: Reading)
    ensures AssignAll(r, []) == r
  {
  }

  lemma {:induction false} DigitsHaveNoBreak(at: string)
    requires AllDigits(at) && at != ""
    ensures Clean(at)
  {
    assert IsDigit(at[|at| - 1]);
  }

  predicate InertJournal(j: Journal) {
    Inert(j.fromVersion) && Inert(j.toVersion) && Inert(j.previous) && Inert(j.target)
  }

  /** The record with the error on one line, which is all the file keeps of it. */
  function OnOneLine(j: Journal): Journal { j.(error := Flattened(j.error)) }

  lemma FieldsAreInert(j: Journal)
    requires InertJournal(j)
    ensures forall f :: f in FieldsOf(j) ==> Inert(f.1)
  {
    hide Decimal, Flattened, StateName, Inert, Clean, FirstLine;
    StateNameRoundTrip(j.state);
    DigitsHaveNoBreak(Decimal(j.updatedAt));
    FlattenedIsClean(j.error);
    CleanIsInert(StateName(j.state));
    CleanIsInert(Decimal(j.updatedAt));
    CleanIsInert(Flattened(j.error));
  }

  /** The assignments, one after the other. */
  lemma AssignFields(j: Journal)
    ensures var r := Journal(
              j.state, FirstLine(j.fromVersion), FirstLine(j.toVersion), FirstLine(j.previous),
              FirstLine(j.target), j.updatedAt, Flattened(j.error));
            AssignAll(BLANK, FieldsOf(j)) == Reading(Some(j.state), r.(state := Failed))
  {
    hide ParseUnsigned, Decimal, Flattened, AssignAll, ParseState, StateName, FirstLine, Clean;
    var state, at, error := StateName(j.state), Decimal(j.updatedAt), Flattened(j.error);
    StateNameRoundTrip(j.state);
    DecimalRoundTrip(j.updatedAt, U64_BOUND);
    DigitsHaveNoBreak(at);
    FlattenedIsClean(j.error);
    var f6 := [(ErrorKey, error)] + [];
    var f5 := [(UpdatedAtKey, at)] + f6;
    var f4 := [(TargetKey, j.target)] + f5;
    var f3 := [(PreviousKey, j.previous)] + f4;
    var f2 := [(ToVersionKey, j.toVersion)] + f3;
    var f1 := [(FromVersionKey, j.fromVersion)] + f2;
    assert FieldsOf(j) == [(StateKey, state)] + f1;
    var r := BLANK;
    r := AssignNext(r, StateKey, state, f1);
    r := AssignNext(r, FromVersionKey, j.fromVersion, f2);
    r := AssignNext(r, ToVersionKey, j.toVersion, f3);
    r := AssignNext(r, PreviousKey, j.previous, f4);
    r := AssignNext(r, TargetKey, j.target, f5);
    r := AssignNext(r, UpdatedAtKey, at, f6);
    r := AssignNext(r, ErrorKey, error, []);
    AssignNone(r);
  }

  /** A journal whose further lines say nothing is read back field by field, of each its first line. */
  lemma LoadRendered(j: Journal)
    requires InertJournal(j)
    ensures Parse(Some(Render(j))) == Some(Journal(
              j.state, FirstLine(j.fromVersion), FirstLine(j.toVersion), FirstLine(j.previous),
              FirstLine(j.target), j.updatedAt, Flattened(j.error)))
  {
    hide FieldsOf, Flattened, RenderFields, Lines, AssignAll, FirstLine, Inert;
    FieldsAreInert(j);
    ReadFields(BLANK, FieldsOf(j));
    AssignFields(j);
  }

  lemma FlattenedIsClean(error: string)
    ensures Clean(Flattened(error))
  {
    var r := Flattened(error);
    assert r != "" ==> r[|r| - 1] in r;
  }

  /** An error that is one line already stays as it is. */
  lemma {:induction false} FlatStaysFlat(error: string)
    requires '\n' !in error && '\r' !in error
    ensures Flattened(error) == error
  {
    if error != "" {
      assert error[0] in error;
      FlatStaysFlat(error[1..]);
      assert error == [error[0]] + error[1..];
    }
  }

  lemma {:induction false} FlattenedAppend(a: string, b: string)
    ensures Flattened(a + b) == Flattened(a) + Flattened(b)
  {
    if a == "" {
      assert a + b == b;
    } else {
      assert (a + b)[1..] == a[1..] + b;
      FlattenedAppend(a[1..], b);
    }
  }

  /** A line break in an error is replaced by a semicolon and a blank, and the text around it stays. */
  lemma FlattenedBreak(before: string, c: char, after: string)
    requires (c == '\n' || c == '\r') && '\n' !in before && '\r' !in before
    ensures Flattened(before + [c] + after) == before + "; " + Flattened(after)
  {
    FlattenedAppend(before + [c], after);
    FlattenedAppend(before, [c]);
    FlatStaysFlat(before);
    assert [c][1..] == "" && Flattened("") == "";
    assert Flattened([c]) == "; ";
  }

  lemma KeysSpelled()
    ensures KeyName(StateKey) + "=" == "state=" && KeyName(FromVersionKey) + "=" == "from_version="
    ensures KeyName(ToVersionKey) + "=" == "to_version=" && KeyName(PreviousKey) + "=" == "previous="
    ensures KeyName(TargetKey) + "=" == "target=" && KeyName(UpdatedAtKey) + "=" == "updated_at="
    ensures KeyName(ErrorKey) + "=" == "error="
  {
  }

  /** The file, spelled out. */
  lemma RenderSpells(j: Journal)
    ensures Render(j) ==
            "state=" + StateName(j.state) + "\n" + ("from_version=" + j.fromVersion + "\n"
            + ("to_version=" + j.toVersion + "\n" + ("previous=" + j.previous + "\n"
            + ("target=" + j.target + "\n" + ("updated_at=" + Decimal(j.updatedAt) + "\n"
            + ("error=" + Flattened(j.error) + "\n" + ""))))))
  {
    hide StateName, Decimal, Flattened, RenderFields;
    var fields := FieldsOf(j);
    KeysSpelled();
    hide KeyName;
    RenderTail(fields, 0);
    RenderTail(fields, 1);
    RenderTail(fields, 2);
    RenderTail(fields, 3);
    RenderTail(fields, 4);
    RenderTail(fields, 5);
    RenderTail(fields, 6);
    RenderNone(fields);
  }

  lemma RenderTail(fields: seq<(Key, string)>, i: nat)
    requires i < |fields|
    ensures RenderFields(fields[i..]) == Line(fields[i].0, fields[i].1) + RenderFields(fields[i + 1..])
    ensures i == 0 ==> fields[i..] == fields
  {
    hide Line;
    assert fields[i..][1..] == fields[i + 1..];
  }

  lemma RenderNone(fields: seq<(Key, string)>)
    ensures RenderFields(fields[|fields|..]) == ""
  {
  }

  /** Reading one line keeps the values free of newlines. */
  lemma ReadLineHasNoNewline(r: Reading, line: string)
    requires '\n' !in line && NoNewline(r.fields)
    ensures NoNewline(ReadLine(r, line).fields)
  {
    hide ParseKey, SplitOnce, ParseUnsigned, ParseState;
    var split := SplitOnce(line, '=');
    if split.Some? {
      assert forall c :: c in split.value.1 ==> c in line;
    }
  }

  predicate NoNewline(j: Journal) {
    '\n' !in j.fromVersion && '\n' !in j.toVersion && '\n' !in j.previous && '\n' !in j.target
  }

  /** A value the reader ends up with is part of a line, so it never holds a newline. */
  lemma {:induction false} ReadValuesHaveNoNewline(r: Reading, lines: seq<string>)
    requires (forall line :: line in lines ==> '\n' !in line) && NoNewline(r.fields)
    ensures NoNewline(ReadLines(r, lines).fields)
    decreases |lines|
  {
    hide ReadLine;
    if lines != [] {
      ReadLineHasNoNewline(r, lines[0]);
      ReadValuesHaveNoNewline(ReadLine(r, lines[0]), lines[1..]);
    }
  }

  predicate CleanJournal(j: Journal) {
    Clean(j.fromVersion) && Clean(j.toVersion) && Clean(j.previous) && Clean(j.target)
  }

  /** Load after store gives the record back, with the error on one line, exactly when no version and
      no path holds a newline or ends in a carriage return. */
  lemma RoundTrip(j: Journal)
    ensures Parse(Some(Render(j))) == Some(OnOneLine(j)) <==> CleanJournal(j)
  {
    hide Render, ReadLines, Lines, Flattened;
    if NoNewline(j) {
      NoNewlineIsInert(j);
      LoadRendered(j);
    } else {
      ReadValuesHaveNoNewline(BLANK, Lines(Render(j)));
    }
  }

  lemma NoNewlineIsInert(j: Journal)
    requires NoNewline(j)
    ensures InertJournal(j)
  {
  }

  // ----- what a reader does not know -----

  lemma OtherKeys(name: string)
    requires name !in {"state", "from_version", "to_version", "previous", "target", "updated_at", "error"}
    ensures ParseKey(name) == None
  {
  }

  /** A line of a key the reader never learned changes nothing, wherever in the file it stands. */
  lemma UnknownKeyIsSkipped(r: Reading, name: string, value: string, rest: string)
    requires name !in {"state", "from_version", "to_version", "previous", "target", "updated_at", "error"}
    requires '=' !in name && '\n' !in name && '\n' !in value
    ensures ReadLines(r, Lines(name + "=" + value + "\n" + rest)) == ReadLines(r, Lines(rest))
  {
    hide ParseKey, StripCr;
    OtherKeys(name);
    var line := name + "=" + value;
    LinesCons(line, rest);
    CutBehindKey(name, value);
    SplitOnceAt(name, '=', StripCr(value));
  }

  lemma CutBehindKey(name: string, value: string)
    ensures StripCr(name + "=" + value) == name + ['='] + StripCr(value)
  {
    var line := name + "=" + value;
    if value == "" {
      assert line[|line| - 1] == '=';
    } else {
      assert line[|line| - 1] == value[|value| - 1];
    }
  }

  /** The states a reader knows, by name. */
  lemma StatesKnown(raw: string)
    ensures ParseState(raw).Some? <==>
            raw in {"staged", "swapped", "confirmed", "exec-failed", "rolled-back", "failed"}
    ensures ParseState(raw).Some? ==> StateName(ParseState(raw).value) == raw
  {
  }

  // ----- the attempts counter -----

  /** The start of a swapped release, counted from one, that the guard turns into a revert. */
  const MAX_BOOT_ATTEMPTS: nat := 3

  /** What the counter file means; anything unreadable counts as zero. */
  function Attempts(file: Option<string>): nat {
    if file.None? then 0
    else
      var n := ParseUnsigned(Trim(file.value), U32_BOUND);
      if n.Some? then n.value else 0
  }

  lemma AttemptsRoundTrip(n: nat)
    requires n < U32_BOUND
    ensures Attempts(Some(Decimal(n))) == n
  {
    DecimalRoundTrip(n, U32_BOUND);
    var s := Decimal(n);
    assert IsDigit(s[0]) && IsDigit(s[|s| - 1]);
    TrimIsIdentity(s);
  }

  /** The same with whitespace around it; a number of more than 32 bits counts as zero. */
  lemma CounterIsRead(before: string, n: nat, after: string)
    requires AllWhitespace(before) && AllWhitespace(after)
    ensures Attempts(Some(before + Decimal(n) + after)) == if n < U32_BOUND then n else 0
  {
    DecimalRoundTrip(n, U32_BOUND);
    var s := Decimal(n);
    assert IsDigit(s[0]) && IsDigit(s[|s| - 1]);
    hide Trim, Decimal, AllWhitespace;
    TrimBetween(before, s, after);
  }

  /** And so does anything with a character that is no digit, but for a leading plus sign. */
  lemma OtherCounterIsZero(text: string, i: nat)
    requires 0 < i < |Trim(text)| && !IsDigit(Trim(text)[i])
    ensures Attempts(Some(text)) == 0 && Attempts(None) == 0
  {
    hide Trim;
    var s := Trim(text);
    assert s[0] == '+' ==> s[1..][i - 1] == s[i];
  }
}
