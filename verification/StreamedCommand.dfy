/** A streamed command's lines do not depend on how its output was cut into chunks, and exactly when
    they do not; and the loop that keeps one buffer for each of the two streams. */
module StreamedCommand {
  import opened Text
  import opened Streaming

  // ----- cutting a stream into chunks -----

  function Concat(chunks: seq<seq<byte>>): seq<byte> {
    if chunks == [] then [] else chunks[0] + Concat(chunks[1..])
  }

  /** Everything a buffer hands over when it is fed some chunks and then flushed. */
  function Feed(buffer: seq<byte>, chunks: seq<seq<byte>>): seq<seq<byte>>
    decreases |chunks|
  {
    if chunks == [] then Last(buffer)
    else Emitted(buffer + chunks[0]) + Feed(Kept(buffer + chunks[0]), chunks[1..])
  }

  lemma FeedOne(buffer: seq<byte>, chunk: seq<byte>, chunks: seq<seq<byte>>)
    ensures Feed(buffer, [chunk] + chunks) == Emitted(buffer + chunk) + Feed(Kept(buffer + chunk), chunks)
    ensures Concat([chunk] + chunks) == chunk + Concat(chunks)
  {
    hide Emitted, Kept, Last;
    assert ([chunk] + chunks)[1..] == chunks;
  }

  lemma FeedNone(buffer: seq<byte>)
    ensures Feed(buffer, []) == Last(buffer) && Concat([]) == []
  {
    hide Last;
  }

  /** No line that ends is longer than a buffer may be, and the piece after the last newline is at most
      one byte longer, and then only if it does not end in a carriage return. */
  predicate Tame(s: seq<byte>)
    decreases |s|
  {
    var i := IndexOf(s, NEWLINE);
    if i == |s| then |s| <= MAX_PARTIAL || (|s| == MAX_PARTIAL + 1 && s[|s| - 1] != RETURN)
    else i <= MAX_PARTIAL && Tame(s[i + 1..])
  }

  predicate TameEnded(s: seq<byte>)
    decreases |s|
  {
    var i := IndexOf(s, NEWLINE);
    i < |s| ==> i <= MAX_PARTIAL && TameEnded(s[i + 1..])
  }

  lemma TameStep(s: seq<byte>)
    requires NEWLINE in s
    ensures var i := IndexOf(s, NEWLINE);
            i < |s| && (Tame(s) <==> i <= MAX_PARTIAL && Tame(s[i + 1..]))
  {
    hide IndexOf;
  }

  lemma TameEndedStep(s: seq<byte>)
    requires NEWLINE in s
    ensures var i := IndexOf(s, NEWLINE);
            i < |s| && (TameEnded(s) <==> i <= MAX_PARTIAL && TameEnded(s[i + 1..]))
  {
    hide IndexOf;
  }

  lemma TameTail(s: seq<byte>)
    requires NEWLINE !in s
    ensures TameEnded(s)
    ensures Tame(s) <==> |s| <= MAX_PARTIAL || (|s| == MAX_PARTIAL + 1 && s[|s| - 1] != RETURN)
  {
    hide IndexOf;
  }

  lemma {:induction false} TameAppend(a: seq<byte>, b: seq<byte>)
    ensures Tame(a + b) <==> TameEnded(a) && Tame(Rest(a) + b)
    decreases |a|
  {
    hide IndexOf, Tame, TameEnded, Rest, Complete;
    if NEWLINE in a {
      FirstLine(a, b);
      OneEnded(a);
      TameEndedStep(a);
      assert NEWLINE in a + b;
      TameStep(a + b);
      TameAppend(a[IndexOf(a, NEWLINE) + 1..], b);
    } else {
      NothingEnded(a);
      TameTail(a);
    }
  }

  lemma NoBreakToTrim(s: seq<byte>)
    requires NEWLINE !in s && s != [] && s[|s| - 1] != RETURN
    ensures Last(s) == [s]
  {
    assert s[|s| - 1] != NEWLINE;
  }

  /** When what is left over is too long, nothing but its last byte made it so. */
  lemma OverlongIsLast(rest: seq<byte>, c: seq<byte>)
    requires NEWLINE !in rest && |rest| > MAX_PARTIAL && Tame(rest + c)
    ensures c == [] && Last(rest) == [rest]
  {
    hide Last, Tame, IndexOf;
    var s := rest + c;
    if NEWLINE in s {
      IndexPast(rest, c);
      TameStep(s);
    } else {
      TameTail(s);
    }
    assert s == rest;
    NoBreakToTrim(rest);
  }

  lemma NothingAdded<T>(a: seq<T>, none: seq<T>)
    requires none == []
    ensures a + none == a
  {
  }

  lemma {:induction false} FeedIsWhole(buffer: seq<byte>, chunks: seq<seq<byte>>)
    requires NEWLINE !in buffer && |buffer| <= MAX_PARTIAL && Tame(buffer + Concat(chunks))
    ensures Feed(buffer, chunks) == LinesOf(buffer + Concat(chunks))
    decreases |chunks|
  {
    hide Tame, TameEnded, Complete, Rest, Last, LinesOf, Emitted, Kept, IndexOf, Feed, Concat;
    var s := buffer + Concat(chunks);
    LinesAreCompleteAndRest(s);
    if chunks == [] {
      FeedNone(buffer);
      assert s == buffer;
      NothingEnded(buffer);
    } else {
      var x, c := buffer + chunks[0], Concat(chunks[1..]);
      assert chunks == [chunks[0]] + chunks[1..];
      FeedOne(buffer, chunks[0], chunks[1..]);
      JoinedInTurn(buffer, chunks[0], c);
      CompleteAppend(x, c);
      TameAppend(x, c);
      LinesAreCompleteAndRest(Rest(x) + c);
      if |Rest(x)| <= MAX_PARTIAL {
        FitsBuffer(x);
        FeedIsWhole(Rest(x), chunks[1..]);
      } else {
        Overlong(x);
        OverlongIsLast(Rest(x), c);
        NothingAdded(Rest(x), c);
        NothingAdded([], c);
        NothingAdded(x, c);
        NothingEnded(Rest(x));
        EmptyStream();
        FeedIsWhole([], chunks[1..]);
        NothingAdded(Complete(x) + [Rest(x)], []);
      }
    }
  }

  lemma FitsBuffer(s: seq<byte>)
    requires |Rest(s)| <= MAX_PARTIAL
    ensures Emitted(s) == Complete(s) && Kept(s) == Rest(s)
  {
    hide Complete, Rest;
  }

  lemma Overlong(s: seq<byte>)
    requires |Rest(s)| > MAX_PARTIAL
    ensures Emitted(s) == Complete(s) + [Rest(s)] && Kept(s) == []
  {
    hide Complete, Rest;
  }

  lemma EmptyStream()
    ensures Tame([]) && LinesOf([]) == [] && Last([]) == []
  {
    NothingEnded([]);
    assert TrimAll([[]][..0]) == [];
  }

  // ----- when the cutting shows -----

  lemma ConcatTwo(a: seq<byte>, b: seq<byte>)
    ensures Concat([a, b]) == a + b && Concat([a]) == a
    ensures Feed([], [a, b]) == Emitted(a) + (Emitted(Kept(a) + b) + Last(Kept(Kept(a) + b)))
    ensures Feed([], [a]) == Emitted(a) + Last(Kept(a))
  {
    hide Emitted, Kept, Last, Feed, Concat;
    assert [a, b] == [a] + [b] && [b] == [b] + [] && [a] == [a] + [];
    assert [] + a == a && b + [] == b && a + [] == a;
    FeedOne([], a, [b]);
    FeedOne([], a, []);
    FeedOne(Kept(a), b, []);
    FeedNone(Kept(a));
    FeedNone(Kept(Kept(a) + b));
  }

  /** Cut one byte past what a buffer may hold, a long start of a line is handed over on its own. */
  lemma CutOff(s: seq<byte>)
    requires |s| > MAX_PARTIAL && NEWLINE !in s[..MAX_PARTIAL + 1]
    ensures var a, b := s[..MAX_PARTIAL + 1], s[MAX_PARTIAL + 1..];
            Concat([a, b]) == s && Feed([], [a, b]) == [a] + (Emitted(b) + Last(Kept(b)))
  {
    hide Last, Complete, Rest, Emitted, Kept, Feed, Concat, IndexOf;
    var a, b := s[..MAX_PARTIAL + 1], s[MAX_PARTIAL + 1..];
    ConcatTwo(a, b);
    NothingEnded(a);
    Overlong(a);
    assert s == a + b && [] + b == b && [] + [a] == [a];
  }

  lemma LongLineIsCut(s: seq<byte>)
    requires NEWLINE in s && IndexOf(s, NEWLINE) > MAX_PARTIAL
    ensures var chunks := [s[..MAX_PARTIAL + 1], s[MAX_PARTIAL + 1..]];
            Concat(chunks) == s && |Feed([], chunks)| > |LinesOf(s)|
  {
    hide Last, Complete, Rest, TrimBreaks, LinesOf, Feed, Concat, Emitted, Kept, IndexOf;
    var i := IndexOf(s, NEWLINE);
    var a, b := s[..MAX_PARTIAL + 1], s[MAX_PARTIAL + 1..];
    assert a == s[..i][..MAX_PARTIAL + 1];
    CutOff(s);
    assert s == a + b;
    LinesAreCompleteAndRest(s);
    IndexPast(a, b);
    NothingIsLost(b);
  }

  /** A call and a flush hand over at least one line for each that the input holds. */
  lemma NothingIsLost(s: seq<byte>)
    ensures |Emitted(s) + Last(Kept(s))| >= |Complete(s) + Last(Rest(s))|
  {
    hide Complete, Rest, TrimBreaks, Emitted, Kept;
    if |Rest(s)| > MAX_PARTIAL {
      Overlong(s);
    } else {
      FitsBuffer(s);
    }
  }

  lemma IndexPast(a: seq<byte>, b: seq<byte>)
    requires NEWLINE !in a && NEWLINE in a + b
    ensures NEWLINE in b && IndexOf(a + b, NEWLINE) == |a| + IndexOf(b, NEWLINE)
    ensures (a + b)[IndexOf(a + b, NEWLINE) + 1..] == b[IndexOf(b, NEWLINE) + 1..]
    ensures |Complete(a + b)| == |Complete(b)| && Rest(a + b) == Rest(b)
  {
    hide IndexOf, TrimBreaks, Complete, Rest;
    var i := IndexOf(b, NEWLINE);
    assert a + b == (a + b[..i]) + [NEWLINE] + b[i + 1..];
    IndexOfAfter(a + b[..i], NEWLINE, b[i + 1..]);
    OneEnded(a + b);
    OneEnded(b);
  }

  lemma LastIsShort(rest: seq<byte>)
    ensures |Last(rest)| <= 1
  {
  }

  lemma LongTailIsCut(s: seq<byte>)
    requires NEWLINE !in s && !Tame(s)
    ensures exists chunks :: Concat(chunks) == s && Feed([], chunks) != LinesOf(s)
  {
    hide LinesOf, Feed, Concat, Complete, Rest, Last, Emitted, Kept, IndexOf;
    NothingEnded(s);
    LinesAreCompleteAndRest(s);
    assert LinesOf(s) == Last(s);
    if s[|s| - 1] == RETURN {
      ConcatTwo(s, []);
      Overlong(s);
      TrimsSomething(s);
      assert [] + [s] == [s];
      assert Concat([s]) == s;
    } else {
      assert |s| > MAX_PARTIAL + 1;
      TailInTwo(s);
      assert Concat([s[..MAX_PARTIAL + 1], s[MAX_PARTIAL + 1..]]) == s;
    }
  }

  lemma TailInTwo(s: seq<byte>)
    requires NEWLINE !in s && |s| > MAX_PARTIAL + 1 && s[|s| - 1] != RETURN
    ensures var chunks := [s[..MAX_PARTIAL + 1], s[MAX_PARTIAL + 1..]];
            Concat(chunks) == s && Feed([], chunks) != Last(s)
  {
    hide Feed, Concat, Complete, Rest, Last, Emitted, Kept, IndexOf;
    var b := s[MAX_PARTIAL + 1..];
    CutOff(s);
    NothingEnded(b);
    assert b[|b| - 1] == s[|s| - 1];
    NoBreakToTrim(b);
    NothingIsLost(b);
    LastIsShort(s);
    assert |Complete(b) + Last(Rest(b))| == 1;
  }

  lemma TrimsSomething(s: seq<byte>)
    requires s != [] && s[|s| - 1] == RETURN
    ensures Last(s) != [s] + Last([])
  {
    assert TrimBreaks(s) != s;
    assert [TrimBreaks(s)][0] != ([s] + Last([]))[0];
  }

  lemma {:induction false} SomeCuttingShows(s: seq<byte>)
    requires !Tame(s)
    ensures exists chunks :: Concat(chunks) == s && Feed([], chunks) != LinesOf(s)
    decreases |s|
  {
    if NEWLINE !in s {
      LongTailIsCut(s);
    } else if IndexOf(s, NEWLINE) > MAX_PARTIAL {
      LongLineIsCut(s);
    } else {
      var i := IndexOf(s, NEWLINE);
      SomeCuttingShows(s[i + 1..]);
      var chunks :| Concat(chunks) == s[i + 1..] && Feed([], chunks) != LinesOf(s[i + 1..]);
      LineInFront(s, chunks);
    }
  }

  lemma LineInFront(s: seq<byte>, chunks: seq<seq<byte>>)
    requires NEWLINE in s && Concat(chunks) == s[IndexOf(s, NEWLINE) + 1..]
    requires Feed([], chunks) != LinesOf(s[IndexOf(s, NEWLINE) + 1..])
    ensures exists chunks :: Concat(chunks) == s && Feed([], chunks) != LinesOf(s)
  {
    hide IndexOf, LinesOf, TrimBreaks, Feed, Concat;
    var i := IndexOf(s, NEWLINE);
    var first := [TrimBreaks(s[..i])];
    LinesOfStep(s);
    FeedLine(s, chunks);
    Unprefixed(first, LinesOf(s[i + 1..]), Feed([], chunks));
    assert Concat([s[..i + 1]] + chunks) == s;
  }

  lemma LinesOfStep(s: seq<byte>)
    requires NEWLINE in s
    ensures var i := IndexOf(s, NEWLINE);
            i < |s| && LinesOf(s) == [TrimBreaks(s[..i])] + LinesOf(s[i + 1..])
  {
    hide IndexOf, Last, Complete, Rest, LinesOf, TrimBreaks, Split;
    OneEnded(s);
    var i := IndexOf(s, NEWLINE);
    var first, rest := [TrimBreaks(s[..i])], s[i + 1..];
    LinesAreCompleteAndRest(s);
    LinesAreCompleteAndRest(rest);
    assert first + Complete(rest) + Last(Rest(rest)) == first + (Complete(rest) + Last(Rest(rest)));
  }

  lemma FeedLine(s: seq<byte>, chunks: seq<seq<byte>>)
    requires NEWLINE in s && Concat(chunks) == s[IndexOf(s, NEWLINE) + 1..]
    ensures var i := IndexOf(s, NEWLINE);
            && i < |s| && Concat([s[..i + 1]] + chunks) == s
            && Feed([], [s[..i + 1]] + chunks) == [TrimBreaks(s[..i])] + Feed([], chunks)
  {
    hide IndexOf, TrimBreaks, Emitted, Kept, Feed, Concat;
    var line := s[..IndexOf(s, NEWLINE) + 1];
    EndedLine(s);
    FeedOne([], line, chunks);
    assert [] + line == line;
  }

  lemma Unprefixed<T>(first: seq<T>, a: seq<T>, b: seq<T>)
    ensures first + a == first + b <==> a == b
  {
    if first + a == first + b {
      assert a == (first + a)[|first|..] && b == (first + b)[|first|..];
    }
  }

  lemma JustEnded(piece: seq<byte>)
    requires NEWLINE !in piece
    ensures Complete(piece + [NEWLINE]) == [TrimBreaks(piece)] && Rest(piece + [NEWLINE]) == []
  {
    hide IndexOf, Complete, Rest, TrimBreaks, Split;
    var line := piece + [NEWLINE];
    assert line == piece + [NEWLINE] + [];
    IndexOfAfter(piece, NEWLINE, []);
    OneEnded(line);
    assert line[|piece| + 1..] == [] && line[..|piece|] == piece;
    NothingEnded([]);
  }

  lemma EndedLine(s: seq<byte>)
    requires NEWLINE in s
    ensures var i := IndexOf(s, NEWLINE);
            i < |s| && Emitted(s[..i + 1]) == [TrimBreaks(s[..i])] && Kept(s[..i + 1]) == []
  {
    hide IndexOf, Complete, Rest, TrimBreaks, Emitted, Kept, Split;
    OneEnded(s);
    var i := IndexOf(s, NEWLINE);
    JustEnded(s[..i]);
    assert s[..i + 1] == s[..i] + [NEWLINE];
    FitsBuffer(s[..i + 1]);
  }

  /** Chunk independence: the lines handed over are the lines of the whole stream for every way of
      cutting it exactly when no line is too long for the buffer. */
  lemma ChunkIndependence(stream: seq<byte>)
    ensures Tame(stream) <==> forall chunks :: Concat(chunks) == stream ==> Feed([], chunks) == LinesOf(stream)
  {
    hide Tame, Feed, Concat, LinesOf;
    if Tame(stream) {
      forall chunks | Concat(chunks) == stream ensures Feed([], chunks) == LinesOf(stream) {
        assert [] + stream == stream;
        FeedIsWhole([], chunks);
      }
    } else {
      SomeCuttingShows(stream);
    }
  }

  lemma StretchOfRest(s: seq<byte>, from: nat, i: nat, j: nat)
    requires from <= |s| && i <= j <= |s| - from
    ensures s[from..][i..j] == s[from + i..from + j]
  {
  }

  /** In particular when no stretch without a newline is longer than the buffer. */
  lemma {:induction false} ShortStretchesAreTame(s: seq<byte>)
    requires forall i, j :: 0 <= i <= j <= |s| && NEWLINE !in s[i..j] ==> j - i <= MAX_PARTIAL
    ensures Tame(s)
    decreases |s|
  {
    var n := IndexOf(s, NEWLINE);
    assert s[0..n] == s[..n];
    if n < |s| {
      var t := s[n + 1..];
      forall i, j | 0 <= i <= j <= |t| && NEWLINE !in t[i..j] ensures j - i <= MAX_PARTIAL {
        StretchOfRest(s, n + 1, i, j);
      }
      ShortStretchesAreTame(t);
    }
  }

  // ----- a command's two streams -----

  datatype Message = Data(data: seq<byte>) | ExtendedData(data: seq<byte>) | ExitStatus(status: nat) | Close | Other

  /** An unsigned 32-bit status as a signed one. */
  function AsI32(n: nat): int {
    var low := n % 0x1_0000_0000;
    if low >= 0x8000_0000 then low - 0x1_0000_0000 else low
  }

  /** It is the 32-bit number with the same bits: in range, the same up to a multiple of 2^32, and itself when
      it is below 2^31. */
  lemma StatusAsSigned(n: nat)
    requires n < 0x1_0000_0000
    ensures -0x8000_0000 <= AsI32(n) < 0x8000_0000 && (AsI32(n) - n) % 0x1_0000_0000 == 0
    ensures n < 0x8000_0000 ==> AsI32(n) == n
    ensures AsI32(n) == 0 <==> n == 0
  {
  }

  function Chunks(messages: seq<Message>, stderr: bool): seq<seq<byte>> {
    if messages == [] || messages[0].Close? then []
    else if (messages[0].Data? && !stderr) || (messages[0].ExtendedData? && stderr)
    then [messages[0].data] + Chunks(messages[1..], stderr)
    else Chunks(messages[1..], stderr)
  }

  /** Everything handed over from here on, when the receiver stays. */
  function Output(out: seq<byte>, err: seq<byte>, messages: seq<Message>): seq<OutputLine>
    decreases |messages|
  {
    if messages == [] || messages[0].Close? then Tagged(Last(out), false) + Tagged(Last(err), true)
    else if messages[0].Data? then
      Tagged(Emitted(out + messages[0].data), false) + Output(Kept(out + messages[0].data), err, messages[1..])
    else if messages[0].ExtendedData? then
      Tagged(Emitted(err + messages[0].data), true) + Output(out, Kept(err + messages[0].data), messages[1..])
    else Output(out, err, messages[1..])
  }

  function ExitAfter(code: int, messages: seq<Message>): int
    decreases |messages|
  {
    if messages == [] || messages[0].Close? then code
    else ExitAfter(if messages[0].ExitStatus? then AsI32(messages[0].status) else code, messages[1..])
  }

  /** The command has not been closed before message `i`. */
  predicate OpenUntil(messages: seq<Message>, i: nat)
    requires i <= |messages|
  {
    forall j :: 0 <= j < i ==> !messages[j].Close?
  }

  /** Message `i` is the last status that comes before the close. */
  predicate LastStatus(messages: seq<Message>, i: nat) {
    && i < |messages| && messages[i].ExitStatus? && OpenUntil(messages, i)
    && forall j :: i < j < |messages| && messages[j].ExitStatus? ==> !OpenUntil(messages, j)
  }

  /** No status comes before the close. */
  predicate NoStatus(messages: seq<Message>) {
    forall i :: 0 <= i < |messages| && messages[i].ExitStatus? ==> !OpenUntil(messages, i)
  }

  lemma OpenBehind(messages: seq<Message>, i: nat)
    requires messages != [] && !messages[0].Close? && i < |messages|
    ensures OpenUntil(messages[1..], i) <==> OpenUntil(messages, i + 1)
  {
    if OpenUntil(messages[1..], i) {
      forall j | 0 <= j < i + 1 ensures !messages[j].Close? {
        assert j == 0 || messages[j] == messages[1..][j - 1];
      }
    }
    if OpenUntil(messages, i + 1) {
      forall j | 0 <= j < i ensures !messages[1..][j].Close? {
        assert messages[1..][j] == messages[j + 1];
      }
    }
  }

  /** The code that is left when all messages are taken: the last status before the close, or what it was. */
  lemma {:induction false} LastStatusDecides(code: int, messages: seq<Message>)
    ensures NoStatus(messages) ==> ExitAfter(code, messages) == code
    ensures forall i: nat :: LastStatus(messages, i) ==> ExitAfter(code, messages) == AsI32(messages[i].status)
    decreases |messages|
  {
    hide AsI32, OpenUntil;
    if messages != [] && !messages[0].Close? {
      var rest := messages[1..];
      var next := if messages[0].ExitStatus? then AsI32(messages[0].status) else code;
      LastStatusDecides(next, rest);
      forall i | 0 <= i < |rest| ensures OpenUntil(rest, i) <==> OpenUntil(messages, i + 1) {
        OpenBehind(messages, i);
      }
      assert OpenUntil(messages, 0) by { OpenAtFirst(messages); }
      if NoStatus(messages) || LastStatus(messages, 0) {
        forall i | 0 <= i < |rest| && rest[i].ExitStatus? ensures !OpenUntil(rest, i) {
          assert messages[i + 1] == rest[i];
        }
        assert NoStatus(rest);
      }
      forall i: nat | i > 0 && LastStatus(messages, i) ensures LastStatus(rest, i - 1) {
        StatusBehind(messages, i);
      }
    } else if messages != [] {
      ClosedAtOnce(messages);
    }
  }

  lemma StatusBehind(messages: seq<Message>, i: nat)
    requires messages != [] && !messages[0].Close? && i > 0 && LastStatus(messages, i)
    ensures LastStatus(messages[1..], i - 1)
  {
    hide OpenUntil;
    var rest := messages[1..];
    OpenBehind(messages, i - 1);
    forall j | i - 1 < j < |rest| && rest[j].ExitStatus? ensures !OpenUntil(rest, j) {
      OpenBehind(messages, j);
      assert messages[j + 1] == rest[j];
    }
  }

  lemma OpenAtFirst(messages: seq<Message>)
    ensures OpenUntil(messages, 0)
  {
  }

  lemma ClosedFirst(messages: seq<Message>, i: nat)
    requires messages != [] && messages[0].Close? && 0 < i <= |messages|
    ensures !OpenUntil(messages, i)
  {
  }

  lemma ClosedAtOnce(messages: seq<Message>)
    requires messages != [] && messages[0].Close?
    ensures forall i: nat :: !LastStatus(messages, i)
  {
    hide OpenUntil;
    forall i: nat | 0 < i < |messages| ensures !OpenUntil(messages, i) {
      ClosedFirst(messages, i);
    }
  }

  /** The messages that are taken in full before the receiver, with room for so many more lines, is found
      gone. */
  function TakenBefore(out: seq<byte>, err: seq<byte>, messages: seq<Message>, room: nat): seq<Message>
    decreases |messages|
  {
    if messages == [] then []
    else
      var lines :=
        if messages[0].Data? then |Emitted(out + messages[0].data)|
        else if messages[0].ExtendedData? then |Emitted(err + messages[0].data)|
        else 0;
      if lines > room then []
      else
        var out' := if messages[0].Data? then Kept(out + messages[0].data) else out;
        var err' := if messages[0].ExtendedData? then Kept(err + messages[0].data) else err;
        [messages[0]] + TakenBefore(out', err', messages[1..], room - lines)
  }

  function Texts(lines: seq<OutputLine>, stderr: bool): seq<seq<byte>> {
    if lines == [] then []
    else (if lines[0].stderr == stderr then [lines[0].text] else []) + Texts(lines[1..], stderr)
  }

  lemma TextsCons(line: OutputLine, rest: seq<OutputLine>, stderr: bool)
    ensures Texts([line] + rest, stderr) == (if line.stderr == stderr then [line.text] else []) + Texts(rest, stderr)
  {
    assert ([line] + rest)[1..] == rest;
  }

  lemma {:induction false} TextsAppend(a: seq<OutputLine>, b: seq<OutputLine>, stderr: bool)
    ensures Texts(a + b, stderr) == Texts(a, stderr) + Texts(b, stderr)
    decreases |a|
  {
    if a == [] {
      assert a + b == b && [] + Texts(b, stderr) == Texts(b, stderr);
    } else {
      var line, rest := a[0], a[1..];
      assert a == [line] + rest && a + b == [line] + (rest + b);
      hide Texts;
      TextsCons(line, rest, stderr);
      TextsCons(line, rest + b, stderr);
      TextsAppend(rest, b, stderr);
      JoinedInTurn(if line.stderr == stderr then [line.text] else [], Texts(rest, stderr), Texts(b, stderr));
    }
  }

  lemma {:induction false} TextsTagged(texts: seq<seq<byte>>, tag: bool, stderr: bool)
    ensures Texts(Tagged(texts, tag), stderr) == if tag == stderr then texts else []
  {
    if texts != [] {
      TextsTagged(texts[1..], tag, stderr);
      assert Tagged(texts, tag)[1..] == Tagged(texts[1..], tag);
    }
  }

  /** Each stream's lines are what its own buffer would hand over, whatever comes in between. */
  lemma {:induction false} StreamsDoNotMix(out: seq<byte>, err: seq<byte>, messages: seq<Message>, stderr: bool)
    ensures Texts(Output(out, err, messages), stderr) == Feed(if stderr then err else out, Chunks(messages, stderr))
    decreases |messages|
  {
    hide Emitted, Kept, Last, Tagged, Texts;
    if messages == [] || messages[0].Close? {
      TextsAppend(Tagged(Last(out), false), Tagged(Last(err), true), stderr);
      TextsTagged(Last(out), false, stderr);
      TextsTagged(Last(err), true, stderr);
    } else {
      var rest := messages[1..];
      if messages[0].Data? {
        var d := messages[0].data;
        StreamsDoNotMix(Kept(out + d), err, rest, stderr);
        TextsAppend(Tagged(Emitted(out + d), false), Output(Kept(out + d), err, rest), stderr);
        TextsTagged(Emitted(out + d), false, stderr);
        assert ([d] + Chunks(rest, false))[1..] == Chunks(rest, false);
      } else if messages[0].ExtendedData? {
        var d := messages[0].data;
        StreamsDoNotMix(out, Kept(err + d), rest, stderr);
        TextsAppend(Tagged(Emitted(err + d), true), Output(out, Kept(err + d), rest), stderr);
        TextsTagged(Emitted(err + d), true, stderr);
        assert ([d] + Chunks(rest, true))[1..] == Chunks(rest, true);
      } else {
        StreamsDoNotMix(out, err, rest, stderr);
      }
    }
  }

  /** What a consumer that stays sees of each stream: its lines, however the two were cut and mixed. */
  lemma EachStreamWhole(messages: seq<Message>, stderr: bool)
    requires Tame(Concat(Chunks(messages, stderr)))
    ensures Texts(Output([], [], messages), stderr) == LinesOf(Concat(Chunks(messages, stderr)))
  {
    hide Tame, Feed, Concat, LinesOf, Chunks, Texts, Output;
    StreamsDoNotMix([], [], messages, stderr);
    assert [] + Concat(Chunks(messages, stderr)) == Concat(Chunks(messages, stderr));
    FeedIsWhole([], Chunks(messages, stderr));
  }

  /** A receiver with room for everything is never found gone. */
  lemma {:induction false} RoomForAll(out: seq<byte>, err: seq<byte>, messages: seq<Message>, room: nat, code: int)
    requires |Output(out, err, messages)| <= room
    ensures ExitTaken(out, err, messages, room, code) == ExitAfter(code, messages)
    decreases |messages|
  {
    hide Emitted, Kept, Last, Tagged;
    if messages != [] && !messages[0].Close? {
      var rest := messages[1..];
      var code' := if messages[0].ExitStatus? then AsI32(messages[0].status) else code;
      if messages[0].Data? {
        RoomForAll(Kept(out + messages[0].data), err, rest, room - |Emitted(out + messages[0].data)|, code');
      } else if messages[0].ExtendedData? {
        RoomForAll(out, Kept(err + messages[0].data), rest, room - |Emitted(err + messages[0].data)|, code');
      } else {
        RoomForAll(out, err, rest, room, code');
      }
      var taken := TakenBefore(out, err, messages, room);
      assert taken == [messages[0]] + taken[1..];
    }
  }

  function ExitTaken(out: seq<byte>, err: seq<byte>, messages: seq<Message>, room: nat, code: int): int {
    ExitAfter(code, TakenBefore(out, err, messages, room))
  }

  lemma ExitCodeMeans(messages: seq<Message>)
    ensures NoStatus(messages) ==> ExitAfter(-1, messages) == -1
    ensures forall i: nat :: LastStatus(messages, i) && messages[i].status < 0x1_0000_0000 ==>
              var code := ExitAfter(-1, messages);
              && (messages[i].status < 0x8000_0000 ==> code == messages[i].status)
              && (code == 0 <==> messages[i].status == 0)
  {
    hide AsI32, ExitAfter, NoStatus;
    LastStatusDecides(-1, messages);
    forall i: nat | LastStatus(messages, i) && messages[i].status < 0x1_0000_0000
      ensures var code := ExitAfter(-1, messages);
              && (messages[i].status < 0x8000_0000 ==> code == messages[i].status)
              && (code == 0 <==> messages[i].status == 0)
    {
      StatusAsSigned(messages[i].status);
    }
  }

  /** What one message does to the output to come and to the exit code. */
  lemma NextMessage(out: seq<byte>, err: seq<byte>, messages: seq<Message>, room: nat, code: int)
    requires messages != []
    ensures messages[0].Data? ==>
              var d, rest := messages[0].data, messages[1..];
              && Output(out, err, messages) == Tagged(Emitted(out + d), false) + Output(Kept(out + d), err, rest)
              && ExitTaken(out, err, messages, room, code) ==
                 if |Emitted(out + d)| > room then code
                 else ExitTaken(Kept(out + d), err, rest, room - |Emitted(out + d)|, code)
    ensures messages[0].ExtendedData? ==>
              var d, rest := messages[0].data, messages[1..];
              && Output(out, err, messages) == Tagged(Emitted(err + d), true) + Output(out, Kept(err + d), rest)
              && ExitTaken(out, err, messages, room, code) ==
                 if |Emitted(err + d)| > room then code
                 else ExitTaken(out, Kept(err + d), rest, room - |Emitted(err + d)|, code)
    ensures messages[0].ExitStatus? || messages[0].Other? ==>
              var code' := if messages[0].ExitStatus? then AsI32(messages[0].status) else code;
              && ExitTaken(out, err, messages, room, code) == ExitTaken(out, err, messages[1..], room, code')
              && Output(out, err, messages) == Output(out, err, messages[1..])
    ensures messages[0].Close? ==>
              && Output(out, err, messages) == Tagged(Last(out), false) + Tagged(Last(err), true)
              && ExitTaken(out, err, messages, room, code) == code
  {
    hide Emitted, Kept, Last, Tagged, AsI32;
    var taken := TakenBefore(out, err, messages, room);
    if taken != [] {
      assert taken == [messages[0]] + taken[1..];
    }
  }

  lemma NoMessage(out: seq<byte>, err: seq<byte>, room: nat, code: int)
    ensures Output(out, err, []) == Tagged(Last(out), false) + Tagged(Last(err), true)
    ensures ExitTaken(out, err, [], room, code) == code
  {
    hide Last, Tagged;
  }

  /** What both buffers still hold goes to the receiver. */
  method FlushBoth(out: Buffer, err: Buffer, sink: Sink)
    requires sink.Valid()
    modifies sink
    ensures sink.Valid()
    ensures sink.sent ==
            Clip(sink.limit, old(sink.sent) + (Tagged(Last(out.bytes), false) + Tagged(Last(err.bytes), true)))
  {
    hide Last, Tagged, Clip;
    ghost var start, last, lastErr := sink.sent, Tagged(Last(out.bytes), false), Tagged(Last(err.bytes), true);
    out.FlushRemainder(false, sink);
    err.FlushRemainder(true, sink);
    ClipTwice(sink.limit, start + last, lastErr);
    JoinedInTurn(start, last, lastErr);
  }

  /** The loop over a channel's messages. The receiver gets the first lines of the output, as many as it
      takes; the exit code is the last status before the close or before the receiver was found gone, or
      -1. */
  method ExecStreaming(messages: seq<Message>, sink: Sink) returns (exitCode: int)
    requires sink.Valid()
    modifies sink
    ensures sink.Valid()
    ensures sink.sent == Clip(sink.limit, old(sink.sent) + Output([], [], messages))
    ensures exitCode == ExitTaken([], [], messages, sink.limit - |old(sink.sent)|, -1)
    ensures |old(sink.sent)| + |Output([], [], messages)| <= sink.limit ==>
              && exitCode == ExitAfter(-1, messages)
              && (NoStatus(messages) ==> exitCode == -1)
              && forall i: nat :: LastStatus(messages, i) && messages[i].status < 0x1_0000_0000 ==>
                   && (messages[i].status < 0x8000_0000 ==> exitCode == messages[i].status)
                   && (exitCode == 0 <==> messages[i].status == 0)
  {
    hide LastStatus, NoStatus;
    hide Emitted, Kept, Last, Tagged, Clip, AsI32, Output, TakenBefore, ExitAfter, ExitTaken;
    ghost var start, all := sink.sent, Output([], [], messages);
    ghost var done: seq<OutputLine> := [];
    ghost var code := ExitTaken([], [], messages, sink.limit - |start|, -1);
    if |start| + |all| <= sink.limit {
      RoomForAll([], [], messages, sink.limit - |start|, -1);
      ExitCodeMeans(messages);
    }
    exitCode := -1;
    var out := new Buffer();
    var err := new Buffer();
    var i := 0;
    assert start + done == start && done + all == all && messages[0..] == messages;
    ClipShort(sink.limit, start);
    while i < |messages|
      invariant 0 <= i <= |messages| && sink.Valid() && fresh(out) && fresh(err) && out != err
      invariant done + Output(out.bytes, err.bytes, messages[i..]) == all
      invariant sink.sent == start + done == Clip(sink.limit, start + done)
      invariant ExitTaken(out.bytes, err.bytes, messages[i..], sink.limit - |sink.sent|, exitCode) == code
    {
      ghost var rest := messages[i + 1..];
      assert messages[i..][1..] == rest && messages[i..][0] == messages[i];
      NextMessage(out.bytes, err.bytes, messages[i..], sink.limit - |sink.sent|, exitCode);
      match messages[i] {
        case Data(data) =>
          ghost var more := Tagged(Emitted(out.bytes + data), false);
          ghost var after := Output(Kept(out.bytes + data), err.bytes, rest);
          var ok := out.DrainLines(data, false, sink);
          Regroup(start, done, more, after);
          done := done + more;
          if !ok {
            NothingMore(sink.limit, start, done, out.bytes, err.bytes, after);
            break;
          }
          ClipShort(sink.limit, start + done);
        case ExtendedData(data) =>
          ghost var more := Tagged(Emitted(err.bytes + data), true);
          ghost var after := Output(out.bytes, Kept(err.bytes + data), rest);
          var ok := err.DrainLines(data, true, sink);
          Regroup(start, done, more, after);
          done := done + more;
          if !ok {
            NothingMore(sink.limit, start, done, out.bytes, err.bytes, after);
            break;
          }
          ClipShort(sink.limit, start + done);
        case ExitStatus(status) =>
          exitCode := AsI32(status);
        case Close =>
          break;
        case Other =>
      }
      i := i + 1;
    }
    assert i == |messages| ==> messages[i..] == [];
    NoMessage(out.bytes, err.bytes, sink.limit - |sink.sent|, exitCode);
    ghost var last := Tagged(Last(out.bytes), false) + Tagged(Last(err.bytes), true);
    ClipTwice(sink.limit, start + done, last);
    FlushBoth(out, err, sink);
    JoinedInTurn(start, done, last);
  }

  lemma Regroup(start: seq<OutputLine>, done: seq<OutputLine>, more: seq<OutputLine>, after: seq<OutputLine>)
    ensures start + done + more == start + (done + more)
    ensures done + (more + after) == (done + more) + after
    ensures start + done + more + after == start + (done + (more + after))
  {
  }

  /** Once the receiver is gone it gets nothing that was still to come. */
  lemma NothingMore(limit: nat, start: seq<OutputLine>, done: seq<OutputLine>, out: seq<byte>, err: seq<byte>,
      after: seq<OutputLine>)
    requires |start| + |done| > limit
    ensures var last := Tagged(Last(out), false) + Tagged(Last(err), true);
            Clip(limit, start + (done + last)) == Clip(limit, start + (done + after))
  {
  }
}
