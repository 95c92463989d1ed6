/** Splitting a streamed command's output into lines: two byte buffers fed in chunks, a sink whose
    receiver may hang up, and the lines of the whole stream the result is compared with. */
module Streaming {
  import opened Text

  newtype byte = x: int | 0 <= x < 256

  const NEWLINE: byte := 10
  const RETURN: byte := 13

  /** The most a buffer may hold of a line that has not ended. */
  const MAX_PARTIAL: nat := 1024 * 1024

  datatype OutputLine = OutputLine(text: seq<byte>, stderr: bool)

  predicate IsBreak(b: byte) { b == NEWLINE || b == RETURN }

  function TrimBreaks(s: seq<byte>): seq<byte> { TrimEndWhile(s, IsBreak) }

  // ----- the lines of a whole stream -----

  function TrimAll(pieces: seq<seq<byte>>): seq<seq<byte>> {
    if pieces == [] then [] else [TrimBreaks(pieces[0])] + TrimAll(pieces[1..])
  }

  /** What an unfinished last line adds: nothing when only line breaks are left. */
  function Last(rest: seq<byte>): seq<seq<byte>> {
    if TrimBreaks(rest) == [] then [] else [TrimBreaks(rest)]
  }

  /** The lines of a stream: its pieces between newlines without their trailing breaks, and the piece
      after the last newline when it holds anything. */
  function LinesOf(stream: seq<byte>): seq<seq<byte>> {
    var pieces := Split(stream, NEWLINE);
    TrimAll(pieces[..|pieces| - 1]) + Last(pieces[|pieces| - 1])
  }

  /** The lines that have ended, and what comes after them. */
  function Complete(s: seq<byte>): seq<seq<byte>> {
    var i := IndexOf(s, NEWLINE);
    if i == |s| then [] else [TrimBreaks(s[..i])] + Complete(s[i + 1..])
  }

  function Rest(s: seq<byte>): (r: seq<byte>)
    ensures NEWLINE !in r && |r| <= |s|
  {
    var i := IndexOf(s, NEWLINE);
    if i == |s| then s else Rest(s[i + 1..])
  }

  lemma NothingEnded(s: seq<byte>)
    requires NEWLINE !in s
    ensures IndexOf(s, NEWLINE) == |s| && Complete(s) == [] && Rest(s) == s && Split(s, NEWLINE) == [s]
  {
  }

  lemma OneEnded(s: seq<byte>)
    requires NEWLINE in s
    ensures var i := IndexOf(s, NEWLINE);
            && i < |s| && Complete(s) == [TrimBreaks(s[..i])] + Complete(s[i + 1..]) && Rest(s) == Rest(s[i + 1..])
            && Split(s, NEWLINE) == [s[..i]] + Split(s[i + 1..], NEWLINE)
  {
    hide TrimBreaks;
  }

  lemma TrimAllCons(piece: seq<byte>, pieces: seq<seq<byte>>)
    ensures TrimAll([piece] + pieces) == [TrimBreaks(piece)] + TrimAll(pieces)
  {
    assert ([piece] + pieces)[1..] == pieces;
  }

  lemma {:induction false} LinesAreCompleteAndRest(s: seq<byte>)
    ensures LinesOf(s) == Complete(s) + Last(Rest(s))
    ensures Split(s, NEWLINE)[|Split(s, NEWLINE)| - 1] == Rest(s)
  {
    hide TrimBreaks, Last, IndexOf, Split, Complete, Rest, TrimAll;
    var pieces := Split(s, NEWLINE);
    if NEWLINE !in s {
      NothingEnded(s);
      NothingToTrim();
      assert pieces[..|pieces| - 1] == [];
    } else {
      OneEnded(s);
      var i := IndexOf(s, NEWLINE);
      LinesAreCompleteAndRest(s[i + 1..]);
      var more := Split(s[i + 1..], NEWLINE);
      assert pieces[..|pieces| - 1] == [s[..i]] + more[..|more| - 1];
      TrimAllCons(s[..i], more[..|more| - 1]);
      assert [TrimBreaks(s[..i])] + Complete(s[i + 1..]) + Last(Rest(s)) == [TrimBreaks(s[..i])] + LinesOf(s[i + 1..]);
    }
  }

  /** Lines written one after the other, each with its newline. */
  function Ended(lines: seq<seq<byte>>): seq<byte> {
    if lines == [] then [] else lines[0] + [NEWLINE] + Ended(lines[1..])
  }

  /** A line as it can be written: it holds no newline and does not end in a carriage return. */
  predicate IsLine(line: seq<byte>) { NEWLINE !in line && (line == [] || line[|line| - 1] != RETURN) }

  lemma LineStays(line: seq<byte>)
    requires IsLine(line)
    ensures TrimBreaks(line) == line && TrimBreaks(line + [RETURN]) == line
  {
    if line != [] {
      assert line[|line| - 1] in line;
    }
    assert (line + [RETURN])[..|line|] == line;
  }

  /** The lines written to a stream are the lines read from it, an unended last one included. */
  lemma {:induction false} WrittenLinesAreRead(lines: seq<seq<byte>>, last: seq<byte>)
    requires IsLine(last) && forall i :: 0 <= i < |lines| ==> IsLine(lines[i])
    ensures LinesOf(Ended(lines) + last) == lines + if last == [] then [] else [last]
    decreases |lines|
  {
    hide TrimBreaks, IndexOf, Split, Complete, Rest, TrimAll, LinesOf, IsLine;
    LinesAreCompleteAndRest(Ended(lines) + last);
    if lines == [] {
      assert Ended(lines) + last == last;
      OnlyLast(last);
    } else {
      var line, more := lines[0], Ended(lines[1..]) + last;
      assert Ended(lines) + last == line + [NEWLINE] + more;
      EndsFirst(line, more);
      WrittenLinesAreRead(lines[1..], last);
      LinesAreCompleteAndRest(more);
      JoinedInTurn([line], Complete(more), Last(Rest(more)));
      JoinedInTurn([line], lines[1..], if last == [] then [] else [last]);
      assert lines == [line] + lines[1..];
    }
  }

  lemma OnlyLast(last: seq<byte>)
    requires IsLine(last)
    ensures Complete(last) + Last(Rest(last)) == [] + if last == [] then [] else [last]
  {
    hide TrimBreaks;
    NothingEnded(last);
    LineStays(last);
  }

  lemma EndsFirst(line: seq<byte>, more: seq<byte>)
    requires IsLine(line)
    ensures var s := line + [NEWLINE] + more; Complete(s) == [line] + Complete(more) && Rest(s) == Rest(more)
  {
    hide TrimBreaks, Split, Complete, Rest;
    var s := line + [NEWLINE] + more;
    IndexOfAfter(line, NEWLINE, more);
    assert s[|line|] == NEWLINE && s[..|line|] == line && s[|line| + 1..] == more;
    OneEnded(s);
    LineStays(line);
  }

  lemma NothingToTrim()
    ensures TrimAll([]) == []
  {
  }

  /** More input only continues what had not ended. */
  lemma {:induction false} CompleteAppend(a: seq<byte>, b: seq<byte>)
    ensures Complete(a + b) == Complete(a) + Complete(Rest(a) + b)
    ensures Rest(a + b) == Rest(Rest(a) + b)
    decreases |a|
  {
    hide TrimBreaks, IndexOf, Split, Complete, Rest;
    if NEWLINE !in a {
      NothingEnded(a);
    } else {
      OneEnded(a);
      var i := IndexOf(a, NEWLINE);
      CompleteAppend(a[i + 1..], b);
      FirstLine(a, b);
      assert NEWLINE in a + b;
      OneEnded(a + b);
    }
  }

  lemma FirstLine(a: seq<byte>, b: seq<byte>)
    requires NEWLINE in a
    ensures IndexOf(a, NEWLINE) < |a| && IndexOf(a + b, NEWLINE) == IndexOf(a, NEWLINE)
    ensures (a + b)[..IndexOf(a, NEWLINE)] == a[..IndexOf(a, NEWLINE)]
    ensures (a + b)[IndexOf(a, NEWLINE) + 1..] == a[IndexOf(a, NEWLINE) + 1..] + b
  {
    var i := IndexOf(a, NEWLINE);
    assert a + b == a[..i] + [NEWLINE] + (a[i + 1..] + b);
    IndexOfAfter(a[..i], NEWLINE, a[i + 1..] + b);
  }

  // ----- one buffer -----

  /** What one call hands to the sink when a buffer and its new data are `s`, and what it keeps. */
  function Emitted(s: seq<byte>): seq<seq<byte>> {
    Complete(s) + if |Rest(s)| > MAX_PARTIAL then [Rest(s)] else []
  }

  function Kept(s: seq<byte>): (r: seq<byte>)
    ensures NEWLINE !in r && |r| <= MAX_PARTIAL
  {
    if |Rest(s)| > MAX_PARTIAL then [] else Rest(s)
  }

  function Tagged(texts: seq<seq<byte>>, stderr: bool): (r: seq<OutputLine>)
    ensures |r| == |texts|
  {
    seq(|texts|, i requires 0 <= i < |texts| => OutputLine(texts[i], stderr))
  }

  /** At most `limit` lines of a list. */
  function Clip(limit: nat, lines: seq<OutputLine>): (r: seq<OutputLine>)
    ensures |r| <= limit && r <= lines
  {
    if |lines| <= limit then lines else lines[..limit]
  }

  /** As many as there are or as fit. */
  lemma ClipIsFull(limit: nat, lines: seq<OutputLine>)
    ensures |Clip(limit, lines)| == if |lines| <= limit then |lines| else limit
  {
  }

  lemma ClipTwice(limit: nat, a: seq<OutputLine>, b: seq<OutputLine>)
    ensures Clip(limit, Clip(limit, a) + b) == Clip(limit, a + b)
  {
    if |a| > limit {
      assert (a[..limit] + b)[..limit] == (a + b)[..limit];
    }
  }

  /** A channel to a receiver that takes `limit` lines and then hangs up, for good. */
  class Sink {
    var sent: seq<OutputLine>
    const limit: nat

    ghost predicate Valid()
      reads this
    {
      |sent| <= limit
    }

    constructor (limit: nat)
      ensures Valid() && sent == [] && this.limit == limit
    {
      this.limit := limit;
      sent := [];
    }

    method Send(line: OutputLine) returns (ok: bool)
      requires Valid()
      modifies this
      ensures Valid()
      ensures ok <==> |old(sent)| < limit
      ensures sent == Clip(limit, old(sent) + [line])
    {
      ok := |sent| < limit;
      if ok {
        sent := sent + [line];
      }
    }
  }

  class Buffer {
    var bytes: seq<byte>

    constructor ()
      ensures bytes == []
    {
      bytes := [];
    }

    /** Takes the next chunk and hands over every line it ends, in order, until the receiver hangs up.
        After a call that does not find the receiver gone, the buffer holds no newline and is bounded. */
    method DrainLines(data: seq<byte>, stderr: bool, sink: Sink) returns (ok: bool)
      requires sink.Valid()
      modifies this, sink
      ensures sink.Valid()
      ensures sink.sent == Clip(sink.limit, old(sink.sent) + Tagged(Emitted(old(bytes) + data), stderr))
      ensures ok <==> |old(sink.sent)| + |Emitted(old(bytes) + data)| <= sink.limit
      ensures ok ==> bytes == Kept(old(bytes) + data) && NEWLINE !in bytes && |bytes| <= MAX_PARTIAL
    {
      hide TrimBreaks, Clip, IndexOf, Complete, Rest, Tagged, Split;
      ghost var s := old(bytes) + data;
      ghost var start := sink.sent;
      bytes := bytes + data;
      ghost var done: seq<seq<byte>> := [];
      NoneTagged(stderr);
      var newline := IndexOf(bytes, NEWLINE);
      while newline < |bytes|
        invariant sink.Valid()
        invariant newline == IndexOf(bytes, NEWLINE)
        invariant done + Complete(bytes) == Complete(s) && Rest(bytes) == Rest(s)
        invariant sink.sent == start + Tagged(done, stderr)
        decreases |bytes|
      {
        var line := bytes[..newline + 1];
        ghost var before := bytes;
        bytes := bytes[newline + 1..];
        var text := TrimBreaks(line);
        FirstEnded(before, done);
        ghost var had := sink.sent;
        ok := sink.Send(OutputLine(text, stderr));
        TaggedAppend(done, [text], stderr);
        OneTagged(text, stderr);
        assert had + [OutputLine(text, stderr)] == start + Tagged(done + [text], stderr);
        done := done + [text];
        if !ok {
          HungUp(sink.limit, start, done, Emitted(s), stderr);
          return;
        }
        ClipShort(sink.limit, had + [OutputLine(text, stderr)]);
        newline := IndexOf(bytes, NEWLINE);
      }
      NothingEnded(bytes);
      assert done == Complete(s);
      if |bytes| > MAX_PARTIAL {
        var text := bytes;
        bytes := [];
        ghost var had := sink.sent;
        ok := sink.Send(OutputLine(text, stderr));
        TaggedAppend(done, [text], stderr);
        OneTagged(text, stderr);
        assert had + [OutputLine(text, stderr)] == start + Tagged(Emitted(s), stderr);
        if !ok {
          return;
        }
      }
      assert done + [] == done;
      ClipShort(sink.limit, sink.sent);
      ok := true;
    }

    /** Hands over what is left without a newline, if it holds anything. */
    method FlushRemainder(stderr: bool, sink: Sink)
      requires sink.Valid()
      modifies sink
      ensures sink.Valid()
      ensures sink.sent == Clip(sink.limit, old(sink.sent) + Tagged(Last(bytes), stderr))
    {
      if bytes == [] {
        return;
      }
      var text := TrimBreaks(bytes);
      if text == [] {
        return;
      }
      var _ := sink.Send(OutputLine(text, stderr));
    }
  }

  lemma NoneTagged(stderr: bool)
    ensures Tagged([], stderr) == []
  {
  }

  lemma OneTagged(text: seq<byte>, stderr: bool)
    ensures Tagged([text], stderr) == [OutputLine(text, stderr)]
  {
  }

  lemma ClipShort(limit: nat, lines: seq<OutputLine>)
    requires |lines| <= limit
    ensures Clip(limit, lines) == lines
  {
  }

  lemma TaggedAppend(a: seq<seq<byte>>, b: seq<seq<byte>>, stderr: bool)
    ensures Tagged(a + b, stderr) == Tagged(a, stderr) + Tagged(b, stderr)
  {
  }

  lemma TrimSnoc(s: seq<byte>)
    ensures TrimBreaks(s + [NEWLINE]) == TrimBreaks(s)
  {
    assert (s + [NEWLINE])[..|s|] == s;
  }

  lemma TrimUpTo(s: seq<byte>, i: nat)
    requires i < |s| && s[i] == NEWLINE
    ensures TrimBreaks(s[..i + 1]) == TrimBreaks(s[..i])
  {
    hide TrimBreaks;
    TrimSnoc(s[..i]);
    assert s[..i + 1] == s[..i] + [NEWLINE];
  }

  /** The line that ends first, cut off with its newline, is the first of those that end. */
  lemma FirstEnded(s: seq<byte>, done: seq<seq<byte>>)
    requires NEWLINE in s
    ensures var i := IndexOf(s, NEWLINE);
            && i < |s| && Rest(s) == Rest(s[i + 1..])
            && done + Complete(s) == done + [TrimBreaks(s[..i + 1])] + Complete(s[i + 1..])
  {
    hide TrimBreaks, IndexOf, Complete, Rest, Split;
    var i := IndexOf(s, NEWLINE);
    TrimUpTo(s, i);
    OneEnded(s);
    JoinedInTurn(done, [TrimBreaks(s[..i])], Complete(s[i + 1..]));
  }

  lemma HungUp(limit: nat, start: seq<OutputLine>, done: seq<seq<byte>>, all: seq<seq<byte>>, stderr: bool)
    requires done <= all && |start| + |done| > limit
    ensures Clip(limit, start + Tagged(done, stderr)) == Clip(limit, start + Tagged(all, stderr))
    ensures |start| + |all| > limit
  {
    TaggedAppend(done, all[|done|..], stderr);
    assert all == done + all[|done|..];
    assert start + Tagged(all, stderr) == (start + Tagged(done, stderr)) + Tagged(all[|done|..], stderr);
  }
}
