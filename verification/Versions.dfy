/** Version comparison and the anti-rollback ladder of the update checker.

    A version string is read as a list of 64-bit numbers and a pre-release flag. Comparison pads the
    shorter list with zeros, so the question is whether that still is an order. */
module Versions {
  import opened Wrappers
  import opened Text

  datatype Ordering = Less | Equal | Greater

  // ----- reading a version -----

  function WithoutPrefix(raw: string): string { TrimStartWhile(Trim(raw), c => c == 'v') }

  /** The release part: everything before the first `-` or `+`. */
  function Core(raw: string): string {
    var text := WithoutPrefix(raw);
    var dash, plus := IndexOf(text, '-'), IndexOf(text, '+');
    text[..if dash <= plus then dash else plus]
  }

  function ParseAll(pieces: seq<string>): (r: Option<seq<nat>>)
    ensures r.Some? ==> |r.value| == |pieces|
  {
    if pieces == [] then Some([])
    else
      match (ParseUnsigned(pieces[0], U64_BOUND), ParseAll(pieces[1..]))
      case (Some(n), Some(rest)) => Some([n] + rest)
      case _ => None
  }

  function Parts(raw: string): Option<seq<nat>> { ParseAll(Split(Core(raw), '.')) }

  predicate Parses(raw: string) { Parts(raw).Some? }

  predicate IsPrerelease(raw: string) { '-' in WithoutPrefix(raw) }

  // ----- the order -----

  /** A missing component counts as zero. */
  function At(parts: seq<nat>, i: nat): nat { if i < |parts| then parts[i] else 0 }

  ghost predicate FirstDifference(a: seq<nat>, b: seq<nat>, i: nat) {
    At(a, i) != At(b, i) && forall j: nat :: j < i ==> At(a, j) == At(b, j)
  }

  ghost predicate SameNumbers(a: seq<nat>, b: seq<nat>) { forall i: nat :: At(a, i) == At(b, i) }

  /** `a` is older than `b`: it has the smaller number at the first position where they differ, or
      they do not differ and only `a` is a pre-release. */
  ghost predicate Older(a: string, b: string) {
    && Parses(a) && Parses(b)
    && var x, y := Parts(a).value, Parts(b).value;
       || (exists i: nat :: FirstDifference(x, y, i) && At(x, i) < At(y, i))
       || (SameNumbers(x, y) && IsPrerelease(a) && !IsPrerelease(b))
  }

  ghost function Compare(left: string, right: string): Option<Ordering> {
    if !Parses(left) || !Parses(right) then None
    else if Older(left, right) then Some(Less)
    else if Older(right, left) then Some(Greater)
    else Some(Equal)
  }

  ghost predicate IsNewer(candidate: string, current: string) {
    Compare(candidate, current) == Some(Greater)
  }

  ghost predicate NotAfter(a: string, b: string) {
    Compare(a, b) == Some(Less) || Compare(a, b) == Some(Equal)
  }

  lemma FirstDifferenceUnique(a: seq<nat>, b: seq<nat>, i: nat, j: nat)
    requires FirstDifference(a, b, i) && (FirstDifference(a, b, j) || FirstDifference(b, a, j))
    ensures i == j
  {
  }

  lemma OlderAsymmetric(a: string, b: string)
    requires Older(a, b)
    ensures !Older(b, a)
  {
    hide Parts, IsPrerelease;
    var x, y := Parts(a).value, Parts(b).value;
    if i: nat, j: nat :|
      FirstDifference(x, y, i) && At(x, i) < At(y, i) && FirstDifference(y, x, j) && At(y, j) < At(x, j)
    {
      FirstDifferenceUnique(x, y, i, j);
    }
  }

  lemma SmallerTwice(x: seq<nat>, y: seq<nat>, z: seq<nat>, i: nat, j: nat)
    requires FirstDifference(x, y, i) && At(x, i) < At(y, i) && FirstDifference(y, z, j) && At(y, j) < At(z, j)
    ensures var k := if i < j then i else j; FirstDifference(x, z, k) && At(x, k) < At(z, k)
  {
  }

  lemma SmallerUpToZeros(x: seq<nat>, y: seq<nat>, z: seq<nat>, i: nat)
    requires SameNumbers(y, z)
    ensures FirstDifference(x, y, i) ==> FirstDifference(x, z, i) && At(z, i) == At(y, i)
    ensures FirstDifference(y, x, i) ==> FirstDifference(z, x, i) && At(z, i) == At(y, i)
  {
  }

  lemma SameNumbersChain(x: seq<nat>, y: seq<nat>, z: seq<nat>)
    requires SameNumbers(x, y)
    ensures SameNumbers(y, x) && (SameNumbers(y, z) ==> SameNumbers(x, z))
  {
  }

  lemma OlderTransitive(a: string, b: string, c: string)
    requires Older(a, b) && Older(b, c)
    ensures Older(a, c)
  {
    hide Parts, IsPrerelease, FirstDifference, SameNumbers, At;
    var x, y, z := Parts(a).value, Parts(b).value, Parts(c).value;
    if i: nat :| FirstDifference(x, y, i) && At(x, i) < At(y, i) {
      if j: nat :| FirstDifference(y, z, j) && At(y, j) < At(z, j) {
        SmallerTwice(x, y, z, i, j);
      } else {
        SmallerUpToZeros(x, y, z, i);
      }
    } else {
      SameNumbersChain(x, y, z);
      if j: nat :| FirstDifference(y, z, j) && At(y, j) < At(z, j) {
        SmallerUpToZeros(z, y, x, j);
      }
    }
  }

  /** Swapping the arguments turns the answer round. */
  lemma CompareReversed(a: string, b: string)
    ensures Compare(a, b) == Some(Less) <==> Compare(b, a) == Some(Greater)
    ensures Compare(a, b) == Some(Equal) <==> Compare(b, a) == Some(Equal)
    ensures Compare(a, b).Some? <==> Parses(a) && Parses(b)
    ensures Parses(a) && Parses(b) ==> (NotAfter(a, b) <==> !IsNewer(a, b))
  {
    hide Parts, IsPrerelease;
    if Older(a, b) {
      OlderAsymmetric(a, b);
    }
    if Older(b, a) {
      OlderAsymmetric(b, a);
    }
  }

  /** Two lists that agree nowhere differently have a first difference. */
  lemma SameOrDifferent(a: seq<nat>, b: seq<nat>, i: nat)
    requires forall j: nat :: j < i ==> At(a, j) == At(b, j)
    ensures SameNumbers(a, b) || exists k: nat :: FirstDifference(a, b, k)
    decreases |a| + |b| - i
  {
    if i >= |a| + |b| {
      assert SameNumbers(a, b);
    } else if At(a, i) == At(b, i) {
      SameOrDifferent(a, b, i + 1);
    } else {
      assert FirstDifference(a, b, i);
    }
  }

  /** Equal means the same numbers, up to trailing zeros, and the same pre-release flag. */
  lemma EqualMeans(a: string, b: string)
    requires Parses(a) && Parses(b)
    ensures Compare(a, b) == Some(Equal) <==>
            SameNumbers(Parts(a).value, Parts(b).value) && IsPrerelease(a) == IsPrerelease(b)
  {
    hide Parts, IsPrerelease;
    var x, y := Parts(a).value, Parts(b).value;
    SameOrDifferent(x, y, 0);
    if k: nat :| FirstDifference(x, y, k) {
      assert FirstDifference(y, x, k);
    }
  }

  /** The comparison is a total preorder on the strings it can read, with its strict part. */
  lemma TotalPreorder(a: string, b: string, c: string)
    requires Parses(a) && Parses(b) && Parses(c)
    ensures NotAfter(a, a)
    ensures NotAfter(a, b) || NotAfter(b, a)
    ensures NotAfter(a, b) && NotAfter(b, c) ==> NotAfter(a, c)
    ensures NotAfter(a, b) && IsNewer(c, b) ==> IsNewer(c, a)
    ensures IsNewer(b, a) && NotAfter(b, c) ==> IsNewer(c, a)
  {
    hide Parts, IsPrerelease;
    CompareReversed(a, b);
    CompareReversed(b, c);
    CompareReversed(a, c);
    EqualMeans(a, a);
    EqualMeans(a, b);
    EqualMeans(b, c);
    EqualMeans(a, c);
    if Older(a, b) && Older(b, c) {
      OlderTransitive(a, b, c);
    }
    if Older(a, b) && Compare(b, c) == Some(Equal) {
      OlderUpToEqual(a, b, a, c);
    }
    if Compare(a, b) == Some(Equal) && Older(b, c) {
      OlderUpToEqual(b, c, a, c);
    }
  }

  lemma OlderUpToEqual(a: string, b: string, a': string, b': string)
    requires Older(a, b) && Parses(a') && Parses(b')
    requires SameNumbers(Parts(a).value, Parts(a').value) && IsPrerelease(a) == IsPrerelease(a')
    requires SameNumbers(Parts(b).value, Parts(b').value) && IsPrerelease(b) == IsPrerelease(b')
    ensures Older(a', b')
  {
    hide Parts, IsPrerelease;
    var x, y := Parts(a).value, Parts(b).value;
    if i: nat :| FirstDifference(x, y, i) && At(x, i) < At(y, i) {
      assert FirstDifference(Parts(a').value, Parts(b').value, i);
    }
  }

  lemma IsNewerTransitive(a: string, b: string, c: string)
    requires IsNewer(a, b) && IsNewer(b, c)
    ensures IsNewer(a, c) && a != c
  {
    hide Parts, IsPrerelease;
    TotalPreorder(c, b, a);
    CompareReversed(a, b);
    CompareReversed(b, c);
    EqualMeans(a, a);
  }

  lemma SameText(a: string, b: string)
    requires Trim(a) == Trim(b)
    ensures WithoutPrefix(a) == WithoutPrefix(b)
  {
    hide Trim, TrimStartWhile;
  }

  lemma SameCore(a: string, b: string)
    requires WithoutPrefix(a) == WithoutPrefix(b)
    ensures Core(a) == Core(b) && IsPrerelease(a) == IsPrerelease(b)
  {
    hide WithoutPrefix, IndexOf;
  }

  lemma SameReading(a: string, b: string)
    requires Trim(a) == Trim(b)
    ensures Parts(a) == Parts(b) && IsPrerelease(a) == IsPrerelease(b)
  {
    SameText(a, b);
    SameCore(a, b);
    hide ParseAll, Split, Core, IsPrerelease, WithoutPrefix, Trim;
  }

  /** A line break behind a version makes no difference to the comparison. */
  lemma LineBreakCompares(a: string, b: string)
    ensures IsNewer(a + "\n", b) <==> IsNewer(a, b)
  {
    hide FirstDifference, SameNumbers, Parts, IsPrerelease, Trim;
    TrimLine(a);
    SameReading(a + "\n", a);
  }

  lemma IsNewerIrreflexive(a: string)
    ensures !IsNewer(a, a)
  {
    hide Parts, IsPrerelease;
    if Older(a, a) {
      OlderAsymmetric(a, a);
    }
  }

  /** Whatever `a` is newer than, `b` is newer than: true of all versions that cannot be read. */
  ghost predicate Below(a: string, b: string) { Parses(a) ==> Parses(b) && NotAfter(a, b) }

  lemma BelowMeans(a: string, b: string, c: string)
    requires Below(a, b)
    ensures IsNewer(a, c) ==> IsNewer(b, c)
    ensures !IsNewer(a, b)
    ensures Below(b, c) ==> Below(a, c)
  {
    hide Parses, Compare;
    CompareReversed(a, b);
    CompareReversed(a, c);
    if Parses(a) {
      if Parses(c) {
        TotalPreorder(c, a, b);
        TotalPreorder(a, b, c);
        CompareReversed(b, c);
      }
    }
  }

  lemma NewerIsAbove(a: string, b: string)
    requires IsNewer(b, a)
    ensures Below(a, b) && Below(a, a) && !IsNewer(a, b) && a != b
  {
    hide Parts, IsPrerelease;
    CompareReversed(b, a);
    CompareReversed(a, b);
    IsNewerIrreflexive(a);
    CompareReversed(a, a);
  }

  /** What is not newer than `b` is below whatever is newer than `b`. */
  lemma BelowWhatIsNewer(a: string, b: string, c: string)
    requires !IsNewer(a, b) && IsNewer(c, b)
    ensures Below(a, c)
  {
    hide Parses, Compare;
    CompareReversed(a, b);
    CompareReversed(c, b);
    CompareReversed(a, c);
    if Parses(a) {
      TotalPreorder(a, b, c);
    }
  }

  /** The comparison as it runs: component by component, then the pre-release flags. */
  method CompareVersions(left: string, right: string) returns (r: Option<Ordering>)
    ensures r == Compare(left, right)
  {
    hide Parts, IsPrerelease;
    var leftParts, rightParts := Parts(left), Parts(right);
    if leftParts.None? || rightParts.None? {
      return None;
    }
    var a, b := leftParts.value, rightParts.value;
    var width := if |a| >= |b| then |a| else |b|;
    for index := 0 to width
      invariant forall j: nat :: j < index ==> At(a, j) == At(b, j)
    {
      if At(a, index) != At(b, index) {
        assert FirstDifference(a, b, index) && FirstDifference(b, a, index);
        if At(a, index) < At(b, index) {
          return Some(Less);
        }
        CompareReversed(left, right);
        return Some(Greater);
      }
    }
    assert SameNumbers(a, b);
    EqualMeans(left, right);
    CompareReversed(left, right);
    if IsPrerelease(left) && !IsPrerelease(right) {
      return Some(Less);
    } else if !IsPrerelease(left) && IsPrerelease(right) {
      return Some(Greater);
    }
    return Some(Equal);
  }

  // ----- writing a version -----

  /** The usual spelling of a list of numbers. */
  function Dotted(parts: seq<nat>): (s: string)
    requires parts != []
    ensures s != "" && IsDigit(s[0]) && IsDigit(s[|s| - 1])
    ensures forall i :: 0 <= i < |s| ==> IsDigit(s[i]) || s[i] == '.'
  {
    if |parts| == 1 then Decimal(parts[0]) else Decimal(parts[0]) + "." + Dotted(parts[1..])
  }

  predicate AllBelow(parts: seq<nat>, bound: nat) { forall i :: 0 <= i < |parts| ==> parts[i] < bound }

  lemma {:induction false} ParseDotted(parts: seq<nat>)
    requires parts != [] && AllBelow(parts, U64_BOUND)
    ensures ParseAll(Split(Dotted(parts), '.')) == Some(parts)
  {
    hide Decimal, ParseUnsigned, Split;
    DecimalRoundTrip(parts[0], U64_BOUND);
    var first := Decimal(parts[0]);
    assert '.' !in first by { DigitsHoldNoDot(first); }
    if |parts| == 1 {
      SplitWhole(first, '.');
      ParseCons(first, []);
      assert ParseAll([]) == Some([]) && [first] + [] == [first] && [parts[0]] + [] == parts;
    } else {
      ParseDotted(parts[1..]);
      assert Dotted(parts) == first + ['.'] + Dotted(parts[1..]);
      SplitCons(first, '.', Dotted(parts[1..]));
      ParseCons(first, Split(Dotted(parts[1..]), '.'));
      assert [parts[0]] + parts[1..] == parts;
    }
  }

  lemma DigitsHoldNoDot(s: string)
    requires AllDigits(s)
    ensures '.' !in s
  {
  }

  lemma SplitWhole(s: string, x: char)
    requires x !in s
    ensures Split(s, x) == [s]
  {
  }

  lemma ParseCons(piece: string, rest: seq<string>)
    ensures ParseAll([piece] + rest) ==
            match (ParseUnsigned(piece, U64_BOUND), ParseAll(rest))
            case (Some(n), Some(more)) => Some([n] + more)
            case _ => None
  {
    hide ParseUnsigned;
    assert ([piece] + rest)[1..] == rest;
  }

  /** What may follow the numbers: nothing, or a pre-release or build part without outer whitespace. */
  predicate IsSuffix(s: string) { s == "" || ((s[0] == '-' || s[0] == '+') && !IsWhitespace(s[|s| - 1])) }

  /** A version written from its numbers, with or without the prefix and a suffix, is read as those
      numbers, and as a pre-release exactly when the suffix holds a dash. */
  lemma WrittenVersionIsRead(prefix: string, parts: seq<nat>, suffix: string)
    requires (prefix == "" || prefix == "v") && parts != [] && AllBelow(parts, U64_BOUND) && IsSuffix(suffix)
    ensures Parts(prefix + Dotted(parts) + suffix) == Some(parts)
    ensures IsPrerelease(prefix + Dotted(parts) + suffix) <==> '-' in suffix
  {
    hide Split, Dotted, Trim, IsDigit, IsWhitespace, ParseAll;
    var core := Dotted(parts);
    var raw := prefix + core + suffix;
    DigitsAreVisible(core[0]);
    DigitsAreVisible(core[|core| - 1]);
    DigitsAreNoSigns(core);
    WithoutPrefixOf(prefix, core, suffix);
    CoreOf(core, suffix);
    ParseDotted(parts);
  }

  lemma DigitsAreVisible(c: char)
    requires IsDigit(c)
    ensures !IsWhitespace(c) && c != 'v'
  {
  }

  lemma DigitsAreNoSigns(core: string)
    requires forall i :: 0 <= i < |core| ==> IsDigit(core[i]) || core[i] == '.'
    ensures '-' !in core && '+' !in core
  {
  }

  lemma WithoutPrefixOf(prefix: string, core: string, suffix: string)
    requires (prefix == "" || prefix == "v") && IsSuffix(suffix)
    requires core != "" && core[0] != 'v' && !IsWhitespace(core[0]) && !IsWhitespace(core[|core| - 1])
    ensures WithoutPrefix(prefix + core + suffix) == core + suffix
  {
    hide Trim;
    var raw := prefix + core + suffix;
    assert raw[|raw| - 1] == if suffix == "" then core[|core| - 1] else suffix[|suffix| - 1];
    assert raw[0] == if prefix == "" then core[0] else 'v';
    assert !IsWhitespace('v');
    hide IsWhitespace;
    TrimIsIdentity(raw);
    assert raw == prefix + (core + suffix);
    DropPrefix(prefix, core + suffix, raw);
  }

  lemma DropPrefix(prefix: string, rest: string, raw: string)
    requires (prefix == "" || prefix == "v") && raw == prefix + rest && Trim(raw) == raw && rest != "" && rest[0] != 'v'
    ensures WithoutPrefix(raw) == rest
  {
    hide Trim;
    if prefix == "" {
      assert raw == rest;
    } else {
      assert raw[0] == 'v' && raw[1..] == rest;
    }
  }

  lemma CoreOf(core: string, suffix: string)
    requires '-' !in core && '+' !in core && IsSuffix(suffix)
    ensures var text := core + suffix;
            && (var dash, plus := IndexOf(text, '-'), IndexOf(text, '+');
                text[..if dash <= plus then dash else plus] == core)
  {
    var text := core + suffix;
    var dash, plus := IndexOf(text, '-'), IndexOf(text, '+');
    var at := if dash <= plus then dash else plus;
    assert forall i :: 0 <= i < |core| ==> text[i] == core[i] && core[i] != '-' && core[i] != '+';
    assert dash >= |core| && plus >= |core|;
    if suffix != "" {
      assert text[|core|] == suffix[0];
      assert at == |core|;
    }
    assert text[..|core|] == core;
  }

  // ----- the order of written versions -----

  /** A version as it is written down. */
  datatype Written = Written(prefix: string, parts: seq<nat>, suffix: string) {
    predicate Valid() {
      (prefix == "" || prefix == "v") && parts != [] && AllBelow(parts, U64_BOUND) && IsSuffix(suffix)
    }

    function Text(): string
      requires Valid()
    {
      prefix + Dotted(parts) + suffix
    }
  }

  lemma WrittenParses(a: Written)
    requires a.Valid()
    ensures Parts(a.Text()) == Some(a.parts) && (IsPrerelease(a.Text()) <==> '-' in a.suffix)
  {
    hide Parts, IsPrerelease, Dotted;
    WrittenVersionIsRead(a.prefix, a.parts, a.suffix);
  }

  lemma OlderAt(a: string, b: string, i: nat)
    requires Parses(a) && Parses(b) && FirstDifference(Parts(a).value, Parts(b).value, i)
    requires At(Parts(a).value, i) < At(Parts(b).value, i)
    ensures Compare(a, b) == Some(Less) && Compare(b, a) == Some(Greater) && IsNewer(b, a)
  {
    hide Parts, IsPrerelease;
    CompareReversed(a, b);
  }

  /** The first number that differs decides: the version with the smaller one is the older, whatever the
      prefixes, the numbers behind it and the suffixes are. */
  lemma SmallerNumberIsOlder(a: Written, b: Written, front: seq<nat>, n: nat, m: nat, more: seq<nat>, rest: seq<nat>)
    requires a.Valid() && b.Valid() && n < m
    requires a.parts == front + [n] + more && b.parts == front + [m] + rest
    ensures Compare(a.Text(), b.Text()) == Some(Less) && Compare(b.Text(), a.Text()) == Some(Greater)
  {
    hide Parts, IsPrerelease, Compare;
    WrittenParses(a);
    WrittenParses(b);
    assert forall j :: 0 <= j < |front| ==> a.parts[j] == front[j] == b.parts[j];
    assert a.parts[|front|] == n && b.parts[|front|] == m;
    assert FirstDifference(a.parts, b.parts, |front|);
    OlderAt(a.Text(), b.Text(), |front|);
  }

  /** More numbers make it newer if one of them is not zero. */
  lemma LongerIsNewer(a: Written, b: Written, more: seq<nat>, i: nat)
    requires a.Valid() && b.Valid() && b.parts == a.parts + more
    requires i < |more| && more[i] != 0 && forall j :: 0 <= j < i ==> more[j] == 0
    ensures Compare(a.Text(), b.Text()) == Some(Less) && Compare(b.Text(), a.Text()) == Some(Greater)
  {
    hide Parts, IsPrerelease, Compare;
    WrittenParses(a);
    WrittenParses(b);
    var at := |a.parts| + i;
    assert b.parts[at] == more[i];
    forall j: nat | j < at ensures At(a.parts, j) == At(b.parts, j) {
      if j >= |a.parts| {
        assert b.parts[j] == more[j - |a.parts|];
      }
    }
    assert FirstDifference(a.parts, b.parts, at);
    OlderAt(a.Text(), b.Text(), at);
  }

  /** Zeros behind the numbers make no difference, so then the suffixes decide: a pre-release is older
      than the release it leads to, and nothing else of a suffix counts. */
  lemma SuffixDecides(a: Written, b: Written, zeros: seq<nat>)
    requires a.Valid() && b.Valid() && b.parts == a.parts + zeros && forall i :: 0 <= i < |zeros| ==> zeros[i] == 0
    ensures Compare(a.Text(), b.Text()) ==
            if '-' in a.suffix && '-' !in b.suffix then Some(Less)
            else if '-' !in a.suffix && '-' in b.suffix then Some(Greater) else Some(Equal)
  {
    hide Parts, IsPrerelease;
    WrittenParses(a);
    WrittenParses(b);
    forall j: nat ensures At(a.parts, j) == At(b.parts, j) {
      if |a.parts| <= j < |b.parts| {
        assert b.parts[j] == zeros[j - |a.parts|];
      }
    }
    assert SameNumbers(a.parts, b.parts) && SameNumbers(b.parts, a.parts);
    EqualMeans(a.Text(), b.Text());
    CompareReversed(a.Text(), b.Text());
  }

  lemma {:induction false} PiecesAreNumbers(pieces: seq<string>, i: nat)
    requires ParseAll(pieces).Some? && i < |pieces|
    ensures ParseUnsigned(pieces[i], U64_BOUND).Some?
  {
    hide ParseUnsigned;
    if i > 0 {
      PiecesAreNumbers(pieces[1..], i - 1);
    }
  }

  lemma BadPiece(piece: string, k: nat)
    requires k < |piece| && !IsDigit(piece[k]) && '+' !in piece
    ensures ParseUnsigned(piece, U64_BOUND).None?
  {
    assert |piece| > 1 ==> piece[0] in piece;
  }

  lemma BadCore(core: string, i: nat)
    requires i < |core| && !IsDigit(core[i]) && core[i] != '.' && '+' !in core
    ensures ParseAll(Split(core, '.')).None?
  {
    hide Split, ParseUnsigned, IsDigit, ParseAll;
    SplitCovers(core, '.', i);
    var pieces := Split(core, '.');
    var part, k :| part in pieces && 0 <= k < |part| && part[k] == core[i];
    var at :| 0 <= at < |pieces| && pieces[at] == part;
    if '+' in part {
      SplitFrom(core, '.', at, '+');
    }
    BadPiece(part, k);
    if ParseAll(pieces).Some? {
      PiecesAreNumbers(pieces, at);
    }
  }

  /** Nothing but digits and dots is read as the numbers of a version. */
  lemma OnlyNumbersAreRead(prefix: string, core: string, suffix: string, i: nat)
    requires (prefix == "" || prefix == "v") && IsSuffix(suffix) && '-' !in core && '+' !in core && i < |core|
    requires core[0] != 'v' && !IsWhitespace(core[0]) && !IsWhitespace(core[|core| - 1])
    requires !IsDigit(core[i]) && core[i] != '.'
    ensures !Parses(prefix + core + suffix)
  {
    hide Split, Trim, IsWhitespace, ParseAll, WithoutPrefix, IsDigit;
    WithoutPrefixOf(prefix, core, suffix);
    CoreOf(core, suffix);
    BadCore(core, i);
  }

  // ----- the anti-rollback ladder -----

  ghost function Better(best: string, candidate: string): string {
    if IsNewer(candidate, best) then candidate else best
  }

  /** What `best_known_version` returns: the running version, unless the recorded one and then the
      manifest's one is newer than the best so far. */
  ghost function Advertised(fromManifest: string, recorded: string, running: string): string {
    Better(Better(running, recorded), fromManifest)
  }

  method BestKnownVersion(fromManifest: string, recorded: string, running: string) returns (best: string)
    ensures best == Advertised(fromManifest, recorded, running)
  {
    hide Parts, IsPrerelease;
    best := running;
    var candidates := [recorded, fromManifest];
    for i := 0 to 2
      invariant best == if i == 0 then running else if i == 1 then Better(running, recorded)
                        else Advertised(fromManifest, recorded, running)
    {
      var order := CompareVersions(candidates[i], best);
      if order == Some(Greater) {
        best := candidates[i];
      }
    }
  }

  /** The advertised version is one of the three, and no readable one of them is newer. It protects
      what was recorded exactly when the running version can be read: a running version that cannot
      be read is advertised whatever else is known. */
  lemma AdvertisedIsNewest(fromManifest: string, recorded: string, running: string)
    ensures Advertised(fromManifest, recorded, running) in {fromManifest, recorded, running}
    ensures Parses(running) ==>
              forall v :: v in {fromManifest, recorded, running} && Parses(v) ==>
                            NotAfter(v, Advertised(fromManifest, recorded, running))
    ensures Parses(recorded) ==>
              (NotAfter(recorded, Advertised(fromManifest, recorded, running)) <==> Parses(running))
    ensures !Parses(running) ==> Advertised(fromManifest, recorded, running) == running
  {
    hide Parses, Compare;
    var first := Better(running, recorded);
    var best := Better(first, fromManifest);
    if Parses(running) {
      BetterKeeps(running, recorded);
      BetterKeeps(first, fromManifest);
      TotalPreorder(running, first, best);
      if Parses(recorded) {
        TotalPreorder(recorded, first, best);
      }
    } else {
      CompareReversed(recorded, running);
      CompareReversed(fromManifest, running);
      CompareReversed(recorded, running);
    }
  }

  lemma BetterKeeps(best: string, candidate: string)
    requires Parses(best)
    ensures var r := Better(best, candidate);
            Parses(r) && NotAfter(best, r) && (Parses(candidate) ==> NotAfter(candidate, r))
  {
    hide Parses;
    CompareReversed(candidate, best);
    TotalPreorder(best, best, best);
    if Parses(candidate) {
      TotalPreorder(candidate, candidate, candidate);
    }
  }

  /** One check: the manifest's latest release and the version running at the time. */
  datatype Check = Check(latest: string, running: string)

  /** What is recorded after each of a series of checks. */
  ghost function Recorded(start: string, checks: seq<Check>): string {
    if checks == [] then start
    else
      var last := checks[|checks| - 1];
      Advertised(last.latest, Recorded(start, checks[..|checks| - 1]), last.running)
  }

  /** Whatever manifests are served and whatever versions run in between, the recorded version never
      goes backwards from one check to any later one. */
  lemma {:induction false} RecordedNeverGoesBack(start: string, checks: seq<Check>, earlier: nat)
    requires earlier <= |checks|
    requires forall i :: 0 <= i < |checks| ==> Parses(checks[i].running)
    requires Parses(Recorded(start, checks[..earlier]))
    ensures NotAfter(Recorded(start, checks[..earlier]), Recorded(start, checks))
    decreases |checks|
  {
    hide Parses, Compare;
    var was := Recorded(start, checks[..earlier]);
    if earlier == |checks| {
      assert checks[..earlier] == checks;
      TotalPreorder(was, was, was);
    } else {
      var init := checks[..|checks| - 1];
      assert init[..earlier] == checks[..earlier];
      RecordedNeverGoesBack(start, init, earlier);
      var last := checks[|checks| - 1];
      var before := Recorded(start, init);
      CompareReversed(was, before);
      AdvertisedIsNewest(last.latest, before, last.running);
      CompareReversed(before, Recorded(start, checks));
      TotalPreorder(was, before, Recorded(start, checks));
    }
  }

  // ----- the latest release of a manifest -----

  /** One step of `max_by` with "cannot compare" read as equal: of two equals the later one stays. */
  ghost function Later(best: string, next: string): string { if IsNewer(best, next) then best else next }

  ghost function Latest(versions: seq<string>): string
    requires versions != []
  {
    var last := versions[|versions| - 1];
    if |versions| == 1 then last else Later(Latest(versions[..|versions| - 1]), last)
  }

  /** Where the readable entries behind the last unreadable one begin. */
  function TailStart(versions: seq<string>): (k: nat)
    ensures k <= |versions|
  {
    if versions == [] then 0
    else if Parses(versions[|versions| - 1]) then TailStart(versions[..|versions| - 1])
    else |versions|
  }

  function ReadableTail(versions: seq<string>): seq<string> { versions[TailStart(versions)..] }

  /** What `latest` picks: a newest entry among those behind the last unreadable one, or the last
      entry when that one is unreadable. Everything in front of an unreadable entry is forgotten. */
  lemma {:induction false} LatestOfTail(versions: seq<string>)
    requires versions != []
    ensures var tail, pick := ReadableTail(versions), Latest(versions);
            if tail == [] then pick == versions[|versions| - 1] && !Parses(pick)
            else pick in tail && forall v :: v in tail ==> Parses(v) && NotAfter(v, pick)
  {
    hide Parses, Compare;
    var last, init := versions[|versions| - 1], versions[..|versions| - 1];
    var tail, pick := ReadableTail(versions), Latest(versions);
    if init != [] {
      LatestOfTail(init);
      CompareReversed(Latest(init), last);
    }
    if Parses(last) {
      TotalPreorder(last, last, last);
      assert tail == ReadableTail(init) + [last] && last == tail[|tail| - 1];
      if ReadableTail(init) != [] {
        LaterKeeps(Latest(init), last);
        forall v | v in ReadableTail(init) ensures Parses(v) && NotAfter(v, pick) {
          TotalPreorder(v, Latest(init), pick);
        }
      }
    }
  }

  lemma LaterKeeps(best: string, next: string)
    requires Parses(best) && Parses(next)
    ensures var r := Later(best, next); Parses(r) && NotAfter(best, r) && NotAfter(next, r)
  {
    hide Parses;
    CompareReversed(best, next);
    TotalPreorder(best, best, next);
    TotalPreorder(next, next, best);
  }

  /** The entry that stands out: newer than every one behind it, and the first that is. */
  ghost predicate StandsOut(versions: seq<string>, k: nat) {
    && k < |versions|
    && (forall j :: k < j < |versions| ==> IsNewer(versions[k], versions[j]))
    && (forall i :: 0 <= i < k ==> exists j :: i < j < |versions| && !IsNewer(versions[i], versions[j]))
  }

  /** What is picked, of any entries, readable or not. */
  lemma {:induction false} LatestStandsOut(versions: seq<string>) returns (k: nat)
    requires versions != []
    ensures StandsOut(versions, k) && Latest(versions) == versions[k]
    ensures forall l: nat :: StandsOut(versions, l) ==> l == k
  {
    hide IsNewer;
    var last := |versions| - 1;
    var init := versions[..last];
    if init == [] {
      k := 0;
    } else {
      k := LatestStandsOut(init);
      assert forall i :: 0 <= i < last ==> init[i] == versions[i];
      if !IsNewer(versions[k], versions[last]) {
        forall i | 0 <= i < last ensures exists j :: i < j <= last && !IsNewer(versions[i], versions[j]) {
          NothingBetween(versions, k, i);
        }
        k := last;
      } else {
        forall i | 0 <= i < k ensures exists j :: i < j <= last && !IsNewer(versions[i], versions[j]) {
          var j :| i < j < |init| && !IsNewer(init[i], init[j]);
          assert !IsNewer(versions[i], versions[j]);
        }
      }
    }
  }

  lemma NothingBetween(versions: seq<string>, k: nat, i: nat)
    requires versions != [] && StandsOut(versions[..|versions| - 1], k) && i < |versions| - 1
    requires !IsNewer(versions[k], versions[|versions| - 1])
    ensures exists j :: i < j < |versions| && !IsNewer(versions[i], versions[j])
  {
    hide IsNewer;
    var last := |versions| - 1;
    var init := versions[..last];
    if i < k {
      var j :| i < j < |init| && !IsNewer(init[i], init[j]);
      assert !IsNewer(versions[i], versions[j]);
    } else if i == k {
      assert !IsNewer(versions[i], versions[last]);
    } else {
      assert IsNewer(init[k], init[i]);
      if IsNewer(versions[i], versions[last]) {
        IsNewerTransitive(versions[k], versions[i], versions[last]);
      }
    }
  }

  method LatestVersion(versions: seq<string>) returns (latest: string)
    requires versions != []
    ensures latest == Latest(versions)
  {
    hide Parts, IsPrerelease;
    latest := versions[0];
    assert versions[..1] == [versions[0]];
    for i := 1 to |versions|
      invariant latest == Latest(versions[..i])
    {
      assert versions[..i + 1][..i] == versions[..i];
      var order := CompareVersions(latest, versions[i]);
      if order != Some(Greater) {
        latest := versions[i];
      }
    }
    assert versions[..|versions|] == versions;
  }

  ghost predicate IsMaximum(v: string, versions: seq<string>) {
    v in versions && Parses(v) && forall w :: w in versions && Parses(w) ==> NotAfter(w, v)
  }

  /** `latest` is a true maximum exactly when a maximum stands behind the last unreadable entry; in
      particular always when every entry can be read. */
  lemma LatestIsMaximum(versions: seq<string>)
    requires versions != []
    ensures IsMaximum(Latest(versions), versions) <==>
            exists v :: v in ReadableTail(versions) && IsMaximum(v, versions)
    ensures (forall v :: v in versions ==> Parses(v)) ==> IsMaximum(Latest(versions), versions)
  {
    hide Parses, Compare;
    LatestOfTail(versions);
    var tail, pick := ReadableTail(versions), Latest(versions);
    if v :| v in tail && IsMaximum(v, versions) {
      forall w | w in versions && Parses(w) ensures NotAfter(w, pick) {
        TotalPreorder(w, v, pick);
      }
    }
    if forall v :: v in versions ==> Parses(v) {
      AllReadable(versions);
    }
  }

  lemma {:induction false} AllReadable(versions: seq<string>)
    requires forall v :: v in versions ==> Parses(v)
    ensures ReadableTail(versions) == versions
  {
    hide Parts, IsPrerelease;
    if versions != [] {
      var init := versions[..|versions| - 1];
      assert forall v :: v in init ==> v in versions;
      AllReadable(init);
      assert versions == init + [versions[|versions| - 1]];
    }
  }

  // ----- sorting releases -----

  ghost predicate NewestFirst(versions: seq<string>) {
    forall i, k :: 0 <= i < k < |versions| ==> !IsNewer(versions[k], versions[i])
  }

  predicate AllParse(versions: seq<string>) { forall i :: 0 <= i < |versions| ==> Parses(versions[i]) }

  lemma InsertKeepsOrder(sorted: seq<string>, version: string, k: nat)
    requires k <= |sorted| && AllParse(sorted) && Parses(version) && NewestFirst(sorted)
    requires forall i :: 0 <= i < k ==> Compare(sorted[i], version) != Some(Less)
    requires k < |sorted| ==> Compare(sorted[k], version) == Some(Less)
    ensures NewestFirst(sorted[..k] + [version] + sorted[k..]) && AllParse(sorted[..k] + [version] + sorted[k..])
  {
    hide Parses, Compare;
    forall i | 0 <= i < k ensures !IsNewer(version, sorted[i]) {
      CompareReversed(sorted[i], version);
    }
    forall i | k <= i < |sorted| ensures !IsNewer(sorted[i], version) {
      CompareReversed(sorted[k], version);
      CompareReversed(sorted[i], sorted[k]);
      CompareReversed(sorted[i], version);
      TotalPreorder(sorted[i], sorted[k], version);
    }
  }

  /** Newest first, when every version can be read; otherwise some order of the same names. */
  method SortNewestFirst(names: seq<string>) returns (sorted: seq<string>)
    ensures multiset(sorted) == multiset(names)
    ensures AllParse(names) ==> NewestFirst(sorted)
  {
    hide Parses, Compare, NewestFirst, AllParse;
    sorted := [];
    assert NewestFirst([]) && AllParse([]) by { NothingToSort(); }
    for i := 0 to |names|
      invariant multiset(sorted) == multiset(names[..i])
      invariant AllParse(names) ==> NewestFirst(sorted) && AllParse(sorted)
    {
      var k := 0;
      while k < |sorted|
        invariant 0 <= k <= |sorted|
        invariant forall a :: 0 <= a < k ==> Compare(sorted[a], names[i]) != Some(Less)
      {
        var order := CompareVersions(sorted[k], names[i]);
        if order == Some(Less) {
          break;
        }
        k := k + 1;
      }
      if AllParse(names) {
        ParsesOne(names, i);
        InsertKeepsOrder(sorted, names[i], k);
      }
      InsertIsSame(sorted, names[i], k);
      sorted := sorted[..k] + [names[i]] + sorted[k..];
      assert names[..i + 1] == names[..i] + [names[i]];
    }
    assert names[..|names|] == names;
  }

  lemma NothingToSort()
    ensures NewestFirst([]) && AllParse([])
  {
  }

  lemma ParsesOne(names: seq<string>, i: nat)
    requires AllParse(names) && i < |names|
    ensures Parses(names[i])
  {
  }

  lemma InsertIsSame(sorted: seq<string>, version: string, k: nat)
    requires k <= |sorted|
    ensures multiset(sorted[..k] + [version] + sorted[k..]) == multiset(sorted) + multiset{version}
  {
    assert sorted == sorted[..k] + sorted[k..];
  }
}
