/** Fetching a file from a remote host in chunks. The remote is arbitrary: its size answer is any text
    or none, and each round's answer is any bytes or none, whatever was asked. */
module RemoteFile {
  import opened Wrappers
  import opened Text
  import opened Streaming
  import opened StreamedCommand

  const CHUNK: nat := 1024 * 1024

  datatype ReadError = NoSize | EmptyFile | TooLarge(size: nat) | ChunkFailed | Stalled(at: nat) | WrongSize(got: nat)

  /** The size the remote says, when it says one. */
  function SaidSize(answer: Option<string>): Option<nat> {
    match answer
    case Some(text) => ParseUnsigned(Trim(text), U64_BOUND)
    case None => None
  }

  /** A size in decimal digits, with whatever whitespace around it, is read as that size. */
  lemma SizeIsRead(before: string, size: nat, after: string)
    requires AllWhitespace(before) && AllWhitespace(after)
    ensures SaidSize(Some(before + Decimal(size) + after)) == if size < U64_BOUND then Some(size) else None
  {
    hide Decimal, Trim, AllWhitespace, ParseUnsigned;
    DigitsStay(Decimal(size));
    TrimBetween(before, Decimal(size), after);
    DecimalRoundTrip(size, U64_BOUND);
  }

  lemma DigitsStay(s: string)
    requires AllDigits(s) && s != ""
    ensures !IsWhitespace(s[0]) && !IsWhitespace(s[|s| - 1])
  {
    assert IsDigit(s[0]) && IsDigit(s[|s| - 1]);
  }

  lemma TrimmedSizeIsRead(text: string, size: nat)
    requires Trim(text) == Decimal(size)
    ensures SaidSize(Some(text)) == if size < U64_BOUND then Some(size) else None
  {
    DecimalRoundTrip(size, U64_BOUND);
  }

  /** A remote whose file stays as it is answers with its size in digits and, for every offset inside it,
      with the next chunk. */
  ghost predicate Holds(file: seq<byte>, sizeAnswer: Option<string>, chunk: (nat, nat) -> Option<seq<byte>>) {
    && sizeAnswer.Some? && Trim(sizeAnswer.value) == Decimal(|file|)
    && forall round: nat, at: nat :: at < |file| ==>
         chunk(round, at) == Some(file[at..if at + CHUNK <= |file| then at + CHUNK else |file|])
  }

  /** Pieces are the answers of successive rounds, each asked for at the offset reached so far. */
  ghost predicate Answers(pieces: seq<seq<byte>>, chunk: (nat, nat) -> Option<seq<byte>>) {
    forall k :: 0 <= k < |pieces| ==> pieces[k] != [] && chunk(k, |Concat(pieces[..k])|) == Some(pieces[k])
  }

  lemma {:induction false} ConcatAppend(a: seq<seq<byte>>, piece: seq<byte>)
    ensures Concat(a + [piece]) == Concat(a) + piece
  {
    if a == [] {
      assert a + [piece] == [piece] + [] && piece + [] == piece;
      FeedOne([], piece, []);
      FeedNone([]);
    } else {
      assert (a + [piece])[1..] == a[1..] + [piece];
      ConcatAppend(a[1..], piece);
    }
  }

  lemma HeldSize(file: seq<byte>, sizeAnswer: Option<string>, chunk: (nat, nat) -> Option<seq<byte>>)
    requires Holds(file, sizeAnswer, chunk)
    ensures SaidSize(sizeAnswer) == if |file| < U64_BOUND then Some(|file|) else None
  {
    hide Decimal, Trim, SaidSize;
    TrimmedSizeIsRead(sizeAnswer.value, |file|);
  }

  lemma NextChunk(file: seq<byte>, sizeAnswer: Option<string>, chunk: (nat, nat) -> Option<seq<byte>>, round: nat,
      out: seq<byte>)
    requires Holds(file, sizeAnswer, chunk) && out <= file
    ensures |out| < |file| ==>
              var answer := chunk(round, |out|);
              answer.Some? && answer.value != [] && out + answer.value <= file
  {
    hide Decimal, Trim;
    if |out| < |file| {
      var end := if |out| + CHUNK <= |file| then |out| + CHUNK else |file|;
      assert chunk(round, |out|) == Some(file[|out|..end]);
      assert out + file[|out|..end] == file[..end];
    }
  }

  /** Whatever the remote does, the fetch ends, with at most as many rounds as there are bytes; it
      succeeds only with exactly the measured number of bytes, within the limit, put together from the
      answers without a gap; and of a file that does not change it returns exactly the file. */
  method ReadFile(sizeAnswer: Option<string>, chunk: (nat, nat) -> Option<seq<byte>>, maxBytes: nat)
    returns (r: Result<seq<byte>, ReadError>, ghost pieces: seq<seq<byte>>)
    ensures r.Ok? ==> SaidSize(sizeAnswer) == Some(|r.value|) && 0 < |r.value| <= maxBytes
    ensures Answers(pieces, chunk) && (r.Ok? ==> r.value == Concat(pieces) && |pieces| <= |r.value|)
    ensures r.Err? && r.error.WrongSize? ==> SaidSize(sizeAnswer).Some? && r.error.got > SaidSize(sizeAnswer).value
    ensures forall file :: Holds(file, sizeAnswer, chunk) ==>
              r == if |file| >= U64_BOUND then Err(NoSize)
                   else if |file| == 0 then Err(EmptyFile)
                   else if |file| > maxBytes then Err(TooLarge(|file|))
                   else Ok(file)
  {
    hide SaidSize, Holds, Answers, Concat;
    pieces := [];
    assert Answers([], chunk) by { NoAnswers(chunk); }
    forall file | Holds(file, sizeAnswer, chunk)
      ensures SaidSize(sizeAnswer) == if |file| < U64_BOUND then Some(|file|) else None
    {
      HeldSize(file, sizeAnswer, chunk);
    }
    var said := SaidSize(sizeAnswer);
    if said.None? {
      return Err(NoSize), pieces;
    }
    var size := said.value;
    if size == 0 {
      return Err(EmptyFile), pieces;
    }
    if size > maxBytes {
      return Err(TooLarge(size)), pieces;
    }
    var out: seq<byte> := [];
    var round := 0;
    FeedNone([]);
    while |out| < size
      invariant round == |pieces| <= |out|
      invariant out == Concat(pieces)
      invariant Answers(pieces, chunk)
      invariant forall file :: Holds(file, sizeAnswer, chunk) ==> out <= file
      decreases size - |out|
    {
      var decoded := chunk(round, |out|);
      forall file | Holds(file, sizeAnswer, chunk)
        ensures decoded.Some? && decoded.value != [] && out + decoded.value <= file
      {
        NextChunk(file, sizeAnswer, chunk, round, out);
      }
      if decoded.None? {
        return Err(ChunkFailed), pieces;
      }
      if decoded.value == [] {
        return Err(Stalled(|out|)), pieces;
      }
      ConcatAppend(pieces, decoded.value);
      AnswersMore(pieces, decoded.value, chunk);
      out := out + decoded.value;
      pieces := pieces + [decoded.value];
      round := round + 1;
    }
    forall file | Holds(file, sizeAnswer, chunk) ensures out == file {
      assert |out| == |file| && file[..|out|] == file;
    }
    if |out| != size {
      return Err(WrongSize(|out|)), pieces;
    }
    return Ok(out), pieces;
  }

  lemma NoAnswers(chunk: (nat, nat) -> Option<seq<byte>>)
    ensures Answers([], chunk)
  {
  }

  lemma AnswersMore(pieces: seq<seq<byte>>, piece: seq<byte>, chunk: (nat, nat) -> Option<seq<byte>>)
    requires Answers(pieces, chunk) && piece != [] && chunk(|pieces|, |Concat(pieces)|) == Some(piece)
    ensures Answers(pieces + [piece], chunk)
  {
    var more := pieces + [piece];
    assert more[..|pieces|] == pieces;
    forall k | 0 <= k < |more| ensures more[k] != [] && chunk(k, |Concat(more[..k])|) == Some(more[k]) {
      assert k < |pieces| ==> more[..k] == pieces[..k];
    }
  }
}
