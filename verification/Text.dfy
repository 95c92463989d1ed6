/** The parts of Rust's string library the modelled code relies on, on `string` (a sequence of
    Unicode scalar values) and, where the code works on bytes, on any sequence. */
module Text {
  import opened Wrappers

  // ----- trimming -----

  function TrimStartWhile<T>(s: seq<T>, p: T -> bool): (r: seq<T>)
    ensures |r| <= |s| && r == s[|s| - |r|..]
    ensures r == [] || !p(r[0])
    ensures forall i :: 0 <= i < |s| - |r| ==> p(s[i])
  {
    if s == [] || !p(s[0]) then s else TrimStartWhile(s[1..], p)
  }

  function TrimEndWhile<T>(s: seq<T>, p: T -> bool): (r: seq<T>)
    ensures r <= s
    ensures r == [] || !p(r[|r| - 1])
    ensures forall i :: |r| <= i < |s| ==> p(s[i])
  {
    if s == [] || !p(s[|s| - 1]) then s else TrimEndWhile(s[..|s| - 1], p)
  }

  /** The Unicode `White_Space` property, which `str::trim` uses. */
  predicate IsWhitespace(c: char) {
    var n := c as int;
    || 0x09 <= n <= 0x0D || n == 0x20 || n == 0x85 || n == 0xA0 || n == 0x1680
    || 0x2000 <= n <= 0x200A || n == 0x2028 || n == 0x2029 || n == 0x202F || n == 0x205F || n == 0x3000
  }

  /** The Unicode general category `Cc`, which `char::is_control` uses. */
  predicate IsControl(c: char) {
    var n := c as int;
    n <= 0x1F || 0x7F <= n <= 0x9F
  }

  predicate IsDigit(c: char) { '0' <= c <= '9' }

  predicate IsAsciiAlphanumeric(c: char) { IsDigit(c) || 'a' <= c <= 'z' || 'A' <= c <= 'Z' }

  function Trim(s: string): (r: string)
    ensures r == [] || (!IsWhitespace(r[0]) && !IsWhitespace(r[|r| - 1]))
  {
    TrimEndWhile(TrimStartWhile(s, IsWhitespace), IsWhitespace)
  }

  /** A string without outer whitespace is left alone. */
  lemma TrimIsIdentity(s: string)
    requires s == [] || (!IsWhitespace(s[0]) && !IsWhitespace(s[|s| - 1]))
    ensures Trim(s) == s
  {
  }

  lemma {:induction false} TrimStartOver<T>(a: seq<T>, s: seq<T>, p: T -> bool)
    requires forall i :: 0 <= i < |a| ==> p(a[i])
    ensures TrimStartWhile(a + s, p) == TrimStartWhile(s, p)
  {
    if a == [] {
      assert a + s == s;
    } else {
      assert (a + s)[0] == a[0] && (a + s)[1..] == a[1..] + s;
      TrimStartOver(a[1..], s, p);
    }
  }

  lemma {:induction false} TrimEndOver<T>(s: seq<T>, c: seq<T>, p: T -> bool)
    requires forall i :: 0 <= i < |c| ==> p(c[i])
    ensures TrimEndWhile(s + c, p) == TrimEndWhile(s, p)
  {
    if c == [] {
      assert s + c == s;
    } else {
      var front := c[..|c| - 1];
      assert (s + c)[|s + c| - 1] == c[|c| - 1] && (s + c)[..|s + c| - 1] == s + front;
      TrimEndOver(s, front, p);
    }
  }

  predicate AllWhitespace(s: string) { forall i :: 0 <= i < |s| ==> IsWhitespace(s[i]) }

  lemma VisibleEnds(s: string)
    ensures s != "" && !IsWhitespace(s[0]) ==> TrimStartWhile(s, IsWhitespace) == s
    ensures s == "" || !IsWhitespace(s[|s| - 1]) ==> TrimEndWhile(s, IsWhitespace) == s
  {
    hide IsWhitespace;
  }

  /** Trimming takes away exactly the outer whitespace. */
  lemma TrimBetween(a: string, s: string, c: string)
    requires AllWhitespace(a) && AllWhitespace(c)
    requires s == "" || (!IsWhitespace(s[0]) && !IsWhitespace(s[|s| - 1]))
    ensures Trim(a + s + c) == s
  {
    hide IsWhitespace, TrimStartWhile, TrimEndWhile;
    if s == "" {
      TrimNothing(a, c);
    } else {
      JoinedInTurn(a, s, c);
      TrimStartOver(a, s + c, IsWhitespace);
      assert (s + c)[0] == s[0];
      VisibleEnds(s + c);
      TrimEndOver(s, c, IsWhitespace);
      VisibleEnds(s);
    }
  }

  lemma TrimNothing(a: string, c: string)
    requires AllWhitespace(a) && AllWhitespace(c)
    ensures Trim(a + "" + c) == ""
  {
    hide IsWhitespace;
    assert a + "" + c == (a + c) + [];
    TrimStartOver(a + c, [], IsWhitespace);
  }

  /** Every character of a trimmed string comes from the original. */
  lemma TrimKeeps(s: string, c: char)
    requires c in Trim(s)
    ensures c in s
  {
    var t := TrimStartWhile(s, IsWhitespace);
    assert c in t;
  }

  lemma {:induction false} TrimStartOfLine(s: string)
    ensures var r := TrimStartWhile(s, IsWhitespace);
            TrimStartWhile(s + "\n", IsWhitespace) == if r == "" then "" else r + "\n"
  {
    var line := s + "\n";
    if s == "" {
      assert line == ['\n'] && line[1..] == "";
    } else {
      assert line[1..] == s[1..] + "\n";
      TrimStartOfLine(s[1..]);
    }
  }

  lemma TrimEndOfLine(s: string)
    ensures TrimEndWhile(s + "\n", IsWhitespace) == TrimEndWhile(s, IsWhitespace)
  {
    var line := s + "\n";
    assert line[|line| - 1] == '\n' && line[..|line| - 1] == s;
  }

  /** A line break behind a string is trimmed away. */
  lemma TrimLine(s: string)
    ensures Trim(s + "\n") == Trim(s)
  {
    TrimStartOfLine(s);
    TrimEndOfLine(TrimStartWhile(s, IsWhitespace));
    hide TrimStartWhile, TrimEndWhile;
  }

  // ----- searching and splitting -----

  lemma JoinedInTurn<T>(a: seq<T>, b: seq<T>, c: seq<T>)
    ensures a + (b + c) == a + b + c
  {
  }

  lemma LastApart<T>(s: seq<T>)
    requires s != []
    ensures s == s[..|s| - 1] + [s[|s| - 1]]
  {
  }

  /** The index of the first `x`, or the length when there is none. */
  function IndexOf<T(==)>(s: seq<T>, x: T): (i: nat)
    ensures i <= |s|
    ensures x !in s[..i]
    ensures i < |s| ==> s[i] == x
    ensures i < |s| <==> x in s
  {
    if s == [] || s[0] == x then 0 else
      assert s == [s[0]] + s[1..];
      var i := 1 + IndexOf(s[1..], x);
      assert s[..i] == [s[0]] + s[1..][..i - 1];
      i
  }

  /** The first occurrence is found behind any prefix that does not hold the element. */
  lemma IndexOfAfter<T>(a: seq<T>, x: T, rest: seq<T>)
    requires x !in a
    ensures IndexOf(a + [x] + rest, x) == |a|
  {
    var s := a + [x] + rest;
    assert s[|a|] == x;
    assert s[..|a|] == a;
  }

  /** And so is the first one of what comes behind. */
  lemma {:induction false} IndexOfBehind<T>(a: seq<T>, x: T, s: seq<T>)
    requires x !in a
    ensures IndexOf(a + s, x) == |a| + IndexOf(s, x)
  {
    if a == [] {
      assert a + s == s;
    } else {
      assert (a + s)[1..] == a[1..] + s && (a + s)[0] == a[0] && a[0] in a;
      IndexOfBehind(a[1..], x, s);
    }
  }

  function Split<T(==)>(s: seq<T>, x: T): (parts: seq<seq<T>>)
    ensures |parts| >= 1
    ensures forall part :: part in parts ==> x !in part
  {
    var i := IndexOf(s, x);
    if i == |s| then [s] else [s[..i]] + Split(s[i + 1..], x)
  }

  lemma SplitCons<T>(a: seq<T>, x: T, rest: seq<T>)
    requires x !in a
    ensures Split(a + [x] + rest, x) == [a] + Split(rest, x)
  {
    IndexOfAfter(a, x, rest);
    var s := a + [x] + rest;
    assert s[..|a|] == a && s[|a| + 1..] == rest;
  }

  /** Splitting loses nothing but the separators. */
  lemma {:induction false} SplitCovers(s: string, x: char, i: nat)
    requires i < |s| && s[i] != x
    ensures exists part, k :: part in Split(s, x) && 0 <= k < |part| && part[k] == s[i]
    decreases |s|
  {
    var n := IndexOf(s, x);
    if n == |s| {
      assert s in Split(s, x) && s[i] == s[i];
    } else if i < n {
      assert s[..n] in Split(s, x) && s[..n][i] == s[i];
    } else {
      SplitCovers(s[n + 1..], x, i - n - 1);
      var part, k :| part in Split(s[n + 1..], x) && 0 <= k < |part| && part[k] == s[i];
      assert part in Split(s, x) && part[k] == s[i];
    }
  }

  lemma {:induction false} SplitFrom(s: string, x: char, at: nat, c: char)
    requires at < |Split(s, x)| && c in Split(s, x)[at]
    ensures c in s
    decreases |s|
  {
    var i := IndexOf(s, x);
    if i < |s| && at > 0 {
      SplitFrom(s[i + 1..], x, at - 1, c);
    }
  }

  /** `str::split_once`. */
  function SplitOnce(s: string, x: char): (r: Option<(string, string)>)
    ensures r.Some? <==> x in s
    ensures r.Some? ==> s == r.value.0 + [x] + r.value.1 && x !in r.value.0
  {
    var i := IndexOf(s, x);
    if i == |s| then None else Some((s[..i], s[i + 1..]))
  }

  lemma SplitOnceAt(a: string, x: char, b: string)
    requires x !in a
    ensures SplitOnce(a + [x] + b, x) == Some((a, b))
  {
    IndexOfAfter(a, x, b);
    var s := a + [x] + b;
    assert s[..|a|] == a && s[|a| + 1..] == b;
  }

  /** `str::rsplit_once`. */
  function RSplitOnce(s: string, x: char): (r: Option<(string, string)>)
    ensures r.Some? <==> x in s
    ensures r.Some? ==> s == r.value.0 + [x] + r.value.1 && x !in r.value.1
  {
    if s == "" then None
    else if s[|s| - 1] == x then Some((s[..|s| - 1], ""))
    else
      match RSplitOnce(s[..|s| - 1], x)
      case None => None
      case Some((a, b)) => Some((a, b + [s[|s| - 1]]))
  }

  lemma RSplitOnceAt(a: string, x: char, b: string)
    requires x !in b
    ensures RSplitOnce(a + [x] + b, x) == Some((a, b))
  {
    var s := a + [x] + b;
    assert s[|a|] == x && s[|a| + 1..] == b && s[..|a|] == a;
    var (a', b') := RSplitOnce(s, x).value;
    assert s[|a'|] == x && s[|a'| + 1..] == b' && s[..|a'|] == a';
  }

  // ----- lines -----

  function StripCr(s: string): string {
    if s != "" && s[|s| - 1] == '\r' then s[..|s| - 1] else s
  }

  /** `str::lines`: a final newline ends the last line, and one `\r` before a newline goes with it. */
  function Lines(s: string): (lines: seq<string>)
    ensures forall line :: line in lines ==> '\n' !in line
  {
    if s == "" then []
    else
      var i := IndexOf(s, '\n');
      if i == |s| then [s] else [StripCr(s[..i])] + Lines(s[i + 1..])
  }

  lemma LinesCons(a: string, rest: string)
    requires '\n' !in a
    ensures Lines(a + "\n" + rest) == [StripCr(a)] + Lines(rest)
  {
    var s := a + "\n" + rest;
    assert s == a + ['\n'] + rest;
    IndexOfAfter(a, '\n', rest);
    assert s[..|a|] == a && s[|a| + 1..] == rest;
  }

  // ----- unsigned integers -----

  predicate AllDigits(s: string) { forall i :: 0 <= i < |s| ==> IsDigit(s[i]) }

  function DigitsValue(s: string): nat
    requires AllDigits(s)
  {
    if s == "" then 0
    else DigitsValue(s[..|s| - 1]) * 10 + (s[|s| - 1] as int - '0' as int)
  }

  /** `str::parse` for an unsigned type whose values are the naturals below `bound`: an optional
      plus sign, then at least one digit, and no overflow. */
  function ParseUnsigned(s: string, bound: nat): (r: Option<nat>)
    ensures r.Some? ==> r.value < bound
  {
    var digits := if |s| > 1 && s[0] == '+' then s[1..] else s;
    if digits != "" && AllDigits(digits) && DigitsValue(digits) < bound
    then Some(DigitsValue(digits))
    else None
  }

  const U32_BOUND: nat := 0x1_0000_0000
  const U64_BOUND: nat := 0x1_0000_0000_0000_0000

  function Decimal(n: nat): (s: string)
    ensures s != ""
    ensures AllDigits(s)
  {
    var last := [(n % 10 + '0' as int) as char];
    if n < 10 then last else Decimal(n / 10) + last
  }

  lemma {:induction false} DecimalValue(n: nat)
    ensures DigitsValue(Decimal(n)) == n
  {
    var s := Decimal(n);
    if n >= 10 {
      DecimalValue(n / 10);
      assert s[..|s| - 1] == Decimal(n / 10);
    } else {
      assert s[..|s| - 1] == "";
    }
  }

  /** Reading back a printed number gives the number, whenever the type can hold it. */
  lemma DecimalRoundTrip(n: nat, bound: nat)
    ensures ParseUnsigned(Decimal(n), bound) == if n < bound then Some(n) else None
  {
    DecimalValue(n);
  }

  // ----- ordering -----

  /** Rust compares strings bytewise; UTF-8 keeps scalar-value order, so this is that order. */
  predicate Before(a: string, b: string) {
    b != "" && (a == "" || a[0] < b[0] || (a[0] == b[0] && Before(a[1..], b[1..])))
  }

  lemma {:induction false} BeforeTotal(a: string, b: string)
    ensures Before(a, b) || a == b || Before(b, a)
    ensures !(Before(a, b) && Before(b, a)) && !Before(a, a)
  {
    if a != "" {
      BeforeTotal(a[1..], if b != "" then b[1..] else "");
      assert a == [a[0]] + a[1..];
      if b != "" {
        assert b == [b[0]] + b[1..];
      }
    }
  }

  lemma {:induction false} BeforeTransitive(a: string, b: string, c: string)
    requires Before(a, b) && Before(b, c)
    ensures Before(a, c)
  {
    if a != "" && a[0] == b[0] == c[0] {
      BeforeTransitive(a[1..], b[1..], c[1..]);
    }
  }

  /** The first character that differs decides, and the end of a string comes before any character. */
  lemma {:induction false} BeforeDecides(front: string, c: char, d: char, a: string, b: string)
    requires c < d
    ensures Before(front + [c] + a, front + [d] + b) && Before(front, front + [c] + a)
  {
    if front == "" {
      assert ("" + [c] + a)[0] == c && ("" + [d] + b)[0] == d;
    } else {
      BeforeDecides(front[1..], c, d, a, b);
      assert (front + [c] + a)[1..] == front[1..] + [c] + a && (front + [d] + b)[1..] == front[1..] + [d] + b;
      assert (front + [c] + a)[0] == front[0] == (front + [d] + b)[0];
    }
  }

  /** `str::len`, which counts UTF-8 bytes. */
  function Utf8Len(s: string): nat {
    if s == "" then 0
    else
      var n := s[0] as int;
      (if n < 0x80 then 1 else if n < 0x800 then 2 else if n < 0x1_0000 then 3 else 4) + Utf8Len(s[1..])
  }

  lemma {:induction false} Utf8LenAscii(s: string)
    requires forall i :: 0 <= i < |s| ==> s[i] as int < 0x80
    ensures Utf8Len(s) == |s|
  {
    if s != "" {
      Utf8LenAscii(s[1..]);
    }
  }
}
