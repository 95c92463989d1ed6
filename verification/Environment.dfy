/** Escaping values for a double-quoted assignment, in an environment file and in a unit file, and
    reading them back. */
module Environment {
  import opened Wrappers
  import opened Text

  /** What one character is written as; only a unit file expands dollars. */
  function Escape(c: char, dollars: bool): string {
    if c == '\\' then "\\\\"
    else if c == '"' then "\\\""
    else if c == '\n' then "\\n"
    else if c == '\r' then "\\r"
    else if c == '$' && dollars then "$$"
    else [c]
  }

  function Escaped(value: string, dollars: bool): string {
    if value == "" then "" else Escaped(value[..|value| - 1], dollars) + Escape(value[|value| - 1], dollars)
  }

  lemma EscapedSnoc(value: string, c: char, dollars: bool)
    ensures Escaped(value + [c], dollars) == Escaped(value, dollars) + Escape(c, dollars)
  {
    assert (value + [c])[..|value|] == value;
  }

  method EscapeEnvFile(value: string) returns (out: string)
    ensures out == Escaped(value, false) && Unescape(out, false) == Some(value)
  {
    hide Escaped;
    out := "";
    assert Escaped("", false) == "" by { EscapedNothing(false); }
    var i := 0;
    while i < |value|
      invariant 0 <= i <= |value| && out == Escaped(value[..i], false)
    {
      var ch := value[i];
      EscapedSnoc(value[..i], ch, false);
      assert value[..i + 1] == value[..i] + [ch];
      match ch {
        case '\\' => out := out + "\\\\";
        case '"' => out := out + "\\\"";
        case '\n' => out := out + "\\n";
        case '\r' => out := out + "\\r";
        case other => out := out + [other];
      }
      i := i + 1;
    }
    assert value[..i] == value;
    EscapeRoundTrip(value, false);
  }

  method EscapeUnitEnv(value: string) returns (out: string)
    ensures out == Escaped(value, true) && Unescape(out, true) == Some(value)
  {
    hide Escaped;
    out := "";
    assert Escaped("", true) == "" by { EscapedNothing(true); }
    var i := 0;
    while i < |value|
      invariant 0 <= i <= |value| && out == Escaped(value[..i], true)
    {
      var ch := value[i];
      EscapedSnoc(value[..i], ch, true);
      assert value[..i + 1] == value[..i] + [ch];
      match ch {
        case '\\' => out := out + "\\\\";
        case '"' => out := out + "\\\"";
        case '\n' => out := out + "\\n";
        case '\r' => out := out + "\\r";
        case '$' => out := out + "$$";
        case other => out := out + [other];
      }
      i := i + 1;
    }
    assert value[..i] == value;
    EscapeRoundTrip(value, true);
  }

  lemma EscapedNothing(dollars: bool)
    ensures Escaped("", dollars) == ""
  {
  }

  lemma EscapedOne(c: char, dollars: bool)
    ensures Escaped([c], dollars) == Escape(c, dollars)
  {
    assert [c] == [] + [c];
    EscapedSnoc([], c, dollars);
  }

  /** What the special characters are written as; a dollar is special in a unit file only. */
  lemma SpecialsSpelled(dollars: bool)
    ensures Escaped("\\", dollars) == "\\\\" && Escaped("\"", dollars) == "\\\""
    ensures Escaped("\n", dollars) == "\\n" && Escaped("\r", dollars) == "\\r"
    ensures Escaped("$", dollars) == if dollars then "$$" else "$"
  {
    hide Escaped;
    EscapedOne('\\', dollars);
    EscapedOne('"', dollars);
    EscapedOne('\n', dollars);
    EscapedOne('\r', dollars);
    EscapedOne('$', dollars);
  }

  /** Everything else is written as it is. */
  lemma {:induction false} PlainStaysPlain(value: string, dollars: bool)
    requires '\\' !in value && '"' !in value && '\n' !in value && '\r' !in value && (dollars ==> '$' !in value)
    ensures Escaped(value, dollars) == value
  {
    if value != "" {
      PlainStaysPlain(value[..|value| - 1], dollars);
      assert value == value[..|value| - 1] + [value[|value| - 1]];
    }
  }

  // ----- reading a value back -----

  /** The character a backslash and a letter stand for. */
  function Letter(c: char): Option<char> {
    if c == '\\' || c == '"' then Some(c)
    else if c == 'n' then Some('\n')
    else if c == 'r' then Some('\r')
    else None
  }

  /** Reverses the substitutions, and refuses what they never produce. */
  function Unescape(text: string, dollars: bool): Option<string> {
    if text == "" then Some("")
    else if text[0] == '\\' || (dollars && text[0] == '$') then
      if |text| == 1 then None
      else
        var c := if text[0] == '\\' then Letter(text[1]) else if text[1] == '$' then Some('$') else None;
        var rest := Unescape(text[2..], dollars);
        if c.Some? && rest.Some? then Some([c.value] + rest.value) else None
    else if text[0] == '"' || text[0] == '\n' || text[0] == '\r' then None
    else
      var rest := Unescape(text[1..], dollars);
      if rest.Some? then Some([text[0]] + rest.value) else None
  }

  lemma {:induction false} EscapedCons(c: char, value: string, dollars: bool)
    ensures Escaped([c] + value, dollars) == Escape(c, dollars) + Escaped(value, dollars)
  {
    hide Escape;
    if value == "" {
      assert [c] + value == [] + [c];
      EscapedSnoc([], c, dollars);
    } else {
      var front, last := value[..|value| - 1], value[|value| - 1];
      assert [c] + value == ([c] + front) + [last];
      EscapedSnoc([c] + front, last, dollars);
      EscapedCons(c, front, dollars);
    }
  }

  lemma UnescapeOne(c: char, rest: string, dollars: bool)
    ensures Unescape(Escape(c, dollars) + rest, dollars) ==
            match Unescape(rest, dollars) case Some(v) => Some([c] + v) case None => None
  {
    var one := Escape(c, dollars);
    var text := one + rest;
    assert text[0] == one[0] && text[|one|..] == rest;
  }

  lemma {:induction false} EscapeRoundTrip(value: string, dollars: bool)
    ensures Unescape(Escaped(value, dollars), dollars) == Some(value)
    decreases |value|
  {
    hide Escape, Escaped;
    if value == "" {
      EscapedNothing(dollars);
    } else {
      assert value == [value[0]] + value[1..];
      EscapedCons(value[0], value[1..], dollars);
      EscapeRoundTrip(value[1..], dollars);
      UnescapeOne(value[0], Escaped(value[1..], dollars), dollars);
    }
  }

  lemma {:induction false} UnescapedIsEscaped(text: string, dollars: bool)
    requires Unescape(text, dollars).Some?
    ensures Escaped(Unescape(text, dollars).value, dollars) == text
    decreases |text|
  {
    hide Escaped;
    if text == "" {
      EscapedNothing(dollars);
    } else {
      var taken := if text[0] == '\\' || (dollars && text[0] == '$') then 2 else 1;
      UnescapedIsEscaped(text[taken..], dollars);
      var value := Unescape(text, dollars).value;
      var rest := Unescape(text[taken..], dollars).value;
      assert value == [value[0]] + rest;
      EscapedCons(value[0], rest, dollars);
      assert text[..taken] == Escape(value[0], dollars);
      assert text == text[..taken] + text[taken..];
    }
  }

  /** The escaper and the reader are exact inverses: a text reads as a value exactly when it is what the
      value is written as. */
  lemma ExactInverse(text: string, value: string, dollars: bool)
    ensures Unescape(text, dollars) == Some(value) <==> text == Escaped(value, dollars)
  {
    hide Escaped, Unescape;
    EscapeRoundTrip(value, dollars);
    if Unescape(text, dollars).Some? {
      UnescapedIsEscaped(text, dollars);
    }
  }

  // ----- staying on one line and inside the quotes -----

  /** Where a quoted value ends: the first quote that no backslash stands in front of. */
  function Closing(text: string): (i: nat) {
    if text == "" || text[0] == '"' then 0
    else if text[0] == '\\' && |text| >= 2 then 2 + Closing(text[2..])
    else 1 + Closing(text[1..])
  }

  lemma ClosingPlain(c: char, rest: string)
    requires c != '"' && c != '\\'
    ensures Closing([c] + rest) == 1 + Closing(rest)
  {
    assert ([c] + rest)[1..] == rest;
  }

  lemma ClosingPair(c: char, rest: string)
    ensures Closing(['\\', c] + rest) == 2 + Closing(rest)
  {
    assert (['\\', c] + rest)[2..] == rest;
  }

  lemma ClosingOne(c: char, rest: string, dollars: bool)
    ensures Closing(Escape(c, dollars) + rest) == |Escape(c, dollars)| + Closing(rest)
  {
    hide Closing;
    var one := Escape(c, dollars);
    if one == "$$" {
      ClosingPlain('$', rest);
      ClosingPlain('$', ['$'] + rest);
      assert one + rest == ['$'] + (['$'] + rest);
    } else if |one| == 2 {
      assert one == ['\\', one[1]];
      ClosingPair(one[1], rest);
    } else {
      ClosingPlain(c, rest);
    }
  }

  /** A written value holds no line break, and the quote after it is the one that ends it, whatever
      comes behind. */
  lemma {:induction false} StaysQuoted(value: string, dollars: bool, rest: string)
    ensures '\n' !in Escaped(value, dollars) && '\r' !in Escaped(value, dollars)
    ensures Closing(Escaped(value, dollars) + "\"" + rest) == |Escaped(value, dollars)|
    decreases |value|
  {
    hide Escaped, Closing, Escape;
    if value == "" {
      EscapedNothing(dollars);
      ClosingQuote(rest);
      assert Escaped(value, dollars) + "\"" + rest == "\"" + rest;
    } else {
      assert value == [value[0]] + value[1..];
      EscapedCons(value[0], value[1..], dollars);
      StaysQuoted(value[1..], dollars, rest);
      var more := Escaped(value[1..], dollars);
      ClosingOne(value[0], more + "\"" + rest, dollars);
      assert Escaped(value, dollars) + "\"" + rest == Escape(value[0], dollars) + (more + "\"" + rest);
      OneCharIsOneLine(value[0], dollars);
    }
  }

  lemma OneCharIsOneLine(c: char, dollars: bool)
    ensures '\n' !in Escape(c, dollars) && '\r' !in Escape(c, dollars)
  {
  }

  lemma ClosingQuote(rest: string)
    ensures Closing("\"" + rest) == 0
  {
  }

  // ----- the whole file -----

  function EnvLine(key: string, value: string): string { key + "=\"" + Escaped(value, false) + "\"" }

  function EnvFile(entries: seq<(string, string)>): string {
    if entries == [] then ""
    else
      var (key, value) := entries[|entries| - 1];
      EnvFile(entries[..|entries| - 1]) + (EnvLine(key, value) + "\n")
  }

  /** The entries of a map come in key order, one line each. */
  method RenderEnvFile(entries: seq<(string, string)>) returns (out: string)
    ensures out == EnvFile(entries)
  {
    out := "";
    var i := 0;
    while i < |entries|
      invariant 0 <= i <= |entries| && out == EnvFile(entries[..i])
    {
      var (key, value) := entries[i];
      var escaped := EscapeEnvFile(value);
      out := out + (key + "=\"" + escaped + "\"" + "\n");
      assert entries[..i + 1][..i] == entries[..i];
      i := i + 1;
    }
    assert entries[..i] == entries;
  }

  /** One assignment: a key up to the first equals sign, and a value between quotes. */
  function ReadLine(line: string): Option<(string, string)> {
    var parts := SplitOnce(line, '=');
    if parts.None? then None
    else
      var quoted := parts.value.1;
      if |quoted| < 2 || quoted[0] != '"' || Closing(quoted[1..]) != |quoted| - 2 then None
      else
        var value := Unescape(quoted[1..|quoted| - 1], false);
        if value.Some? then Some((parts.value.0, value.value)) else None
  }

  function ReadLines(lines: seq<string>): Option<seq<(string, string)>> {
    if lines == [] then Some([])
    else
      var first := ReadLine(lines[0]);
      var rest := ReadLines(lines[1..]);
      if first.Some? && rest.Some? then Some([first.value] + rest.value) else None
  }

  /** A file is read line by line; every line ends in a line break. */
  function ReadEnvFile(text: string): Option<seq<(string, string)>> {
    var lines := Split(text, '\n');
    if lines[|lines| - 1] == "" then ReadLines(lines[..|lines| - 1]) else None
  }

  predicate PlainKey(key: string) { '=' !in key && '\n' !in key }

  lemma ReadEnvLine(key: string, value: string)
    requires PlainKey(key)
    ensures '\n' !in EnvLine(key, value) && ReadLine(EnvLine(key, value)) == Some((key, value))
  {
    hide Closing, Escaped, Unescape, SplitOnce;
    var inner := Escaped(value, false);
    var quoted := "\"" + inner + "\"";
    StaysQuoted(value, false, "");
    EscapeRoundTrip(value, false);
    assert EnvLine(key, value) == key + ['='] + quoted;
    SplitOnceAt(key, '=', quoted);
    assert quoted[1..] == inner + "\"" + "" && quoted[1..|quoted| - 1] == inner;
  }

  lemma {:induction false} ReadLinesAppend(a: seq<string>, b: seq<string>)
    ensures ReadLines(a + b) ==
            if ReadLines(a).Some? && ReadLines(b).Some? then Some(ReadLines(a).value + ReadLines(b).value) else None
  {
    hide ReadLine;
    if a == [] {
      assert a + b == b;
      if ReadLines(b).Some? {
        assert [] + ReadLines(b).value == ReadLines(b).value;
      }
    } else {
      assert (a + b)[1..] == a[1..] + b;
      ReadLinesAppend(a[1..], b);
      if ReadLine(a[0]).Some? && ReadLines(a[1..]).Some? && ReadLines(b).Some? {
        var first, more, last := [ReadLine(a[0]).value], ReadLines(a[1..]).value, ReadLines(b).value;
        assert first + (more + last) == first + more + last;
      }
    }
  }

  /** A plain value stands between double quotes behind its key and an equals sign. */
  lemma EnvLineSpelled(key: string, value: string)
    requires '\\' !in value && '"' !in value && '\n' !in value && '\r' !in value
    ensures EnvFile([(key, value)]) == key + "=\"" + value + "\"" + "\n"
  {
    PlainStaysPlain(value, false);
    hide Escaped;
    assert [(key, value)][..0] == [] && EnvFile([]) == "";
  }

  function EnvLines(entries: seq<(string, string)>): seq<string> {
    if entries == [] then []
    else
      var (key, value) := entries[|entries| - 1];
      EnvLines(entries[..|entries| - 1]) + [EnvLine(key, value)]
  }

  lemma EnvFileSnoc(front: seq<(string, string)>, key: string, value: string)
    ensures EnvFile(front + [(key, value)]) == EnvFile(front) + EnvLine(key, value) + "\n"
    ensures EnvLines(front + [(key, value)]) == EnvLines(front) + [EnvLine(key, value)]
  {
    hide EnvLine;
    assert (front + [(key, value)])[..|front|] == front;
  }

  lemma ReadOneLine(line: string, entry: (string, string))
    requires ReadLine(line) == Some(entry)
    ensures ReadLines([line]) == Some([entry])
  {
    hide ReadLine;
    assert [line][1..] == [] && ReadLines([]) == Some([]);
    assert [entry] + [] == [entry];
  }

  lemma {:induction false} SplitEnvFile(entries: seq<(string, string)>, rest: string)
    requires forall i :: 0 <= i < |entries| ==> PlainKey(entries[i].0)
    ensures Split(EnvFile(entries) + rest, '\n') == EnvLines(entries) + Split(rest, '\n')
    ensures ReadLines(EnvLines(entries)) == Some(entries)
  {
    hide EnvLine, Split, ReadLine, EnvFile, EnvLines, ReadLines, PlainKey;
    if entries == [] {
      NoEntries();
      assert "" + rest == rest && [] + Split(rest, '\n') == Split(rest, '\n');
    } else {
      var front := entries[..|entries| - 1];
      var (key, value) := entries[|entries| - 1];
      var line := EnvLine(key, value);
      assert entries == front + [(key, value)];
      EnvFileSnoc(front, key, value);
      ReadEnvLine(key, value);
      InOneLine(EnvFile(front), line, rest);
      SplitEnvFile(front, line + ['\n'] + rest);
      SplitCons(line, '\n', rest);
      JoinLines(EnvLines(front), line, Split(rest, '\n'));
      ReadLinesAppend(EnvLines(front), [line]);
      ReadOneLine(line, (key, value));
    }
  }

  lemma NoEntries()
    ensures EnvFile([]) == "" && EnvLines([]) == [] && ReadLines([]) == Some([])
  {
  }

  lemma InOneLine(file: string, line: string, rest: string)
    ensures file + line + "\n" + rest == file + (line + ['\n'] + rest)
  {
  }

  lemma JoinLines(lines: seq<string>, line: string, rest: seq<string>)
    ensures lines + ([line] + rest) == lines + [line] + rest
  {
  }

  lemma {:induction false} ReadKeysArePlain(lines: seq<string>)
    requires ReadLines(lines).Some? && forall line :: line in lines ==> '\n' !in line
    ensures forall i :: 0 <= i < |ReadLines(lines).value| ==> PlainKey(ReadLines(lines).value[i].0)
  {
    if lines != [] {
      assert lines[0] in lines;
      ReadKeysArePlain(lines[1..]);
    }
  }

  /** A rendered file reads back as its entries, whatever their values are, exactly when no key holds an
      equals sign or a line break. */
  lemma EnvFileRoundTrip(entries: seq<(string, string)>)
    ensures ReadEnvFile(EnvFile(entries)) == Some(entries) <==>
            forall i :: 0 <= i < |entries| ==> PlainKey(entries[i].0)
  {
    hide EnvFile, ReadLines, PlainKey, EnvLines;
    var lines := Split(EnvFile(entries), '\n');
    if forall i :: 0 <= i < |entries| ==> PlainKey(entries[i].0) {
      SplitEnvFile(entries, "");
      assert EnvFile(entries) + "" == EnvFile(entries) && Split("", '\n') == [""];
      assert lines[..|lines| - 1] == EnvLines(entries);
    }
    if ReadEnvFile(EnvFile(entries)) == Some(entries) {
      ReadKeysArePlain(lines[..|lines| - 1]);
    }
  }
}
