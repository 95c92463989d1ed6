/** Routes: what may be written into a proxy config, the order they are written in, and the one-line
    form the command line takes them in. */
module Routes {
  import opened Wrappers
  import opened Text

  datatype Route = Route(serviceId: string, serviceName: string, domain: string, path: string, port: nat, protocol: int)

  datatype Service = Service(id: string, name: string, routes: seq<Route>)

  // ----- domains and ports -----

  predicate LabelChar(c: char) { IsAsciiAlphanumeric(c) || c == '-' }

  predicate ValidLabel(piece: string) {
    && piece != "" && Utf8Len(piece) <= 63 && piece[0] != '-' && piece[|piece| - 1] != '-'
    && forall i :: 0 <= i < |piece| ==> LabelChar(piece[i])
  }

  /** A wildcard counts only as the first piece. */
  function Body(domain: string): string {
    if |domain| >= 2 && domain[0] == '*' && domain[1] == '.' then domain[2..] else domain
  }

  predicate ValidDomain(raw: string) {
    var domain := Trim(raw);
    && domain != "" && Utf8Len(domain) <= 253
    && '*' !in Body(domain) && '.' in Body(domain)
    && forall piece :: piece in Split(Body(domain), '.') ==> ValidLabel(piece)
  }

  predicate ValidPort(port: nat) { 1 <= port <= 65535 }

  // ----- paths -----

  predicate PathChar(c: char) {
    IsAsciiAlphanumeric(c) || c == '/' || c == '-' || c == '.' || c == '_' || c == '~' || c == '%' || c == '+'
  }

  predicate Doubled(s: string, c: char) { exists i :: 0 <= i < |s| - 1 && s[i] == c && s[i + 1] == c }

  predicate IsSlash(c: char) { c == '/' }

  /** What is checked of a path once it has its leading slash. */
  predicate WritablePath(path: string) {
    && Utf8Len(path) <= 255 && !Doubled(path, '.') && !Doubled(path, '/')
    && forall i :: 0 <= i < |path| ==> PathChar(path[i])
  }

  /** Paths that mean the same come out the same, if they can be written down at all. */
  function NormalizePath(raw: string): Option<string> {
    var path := Trim(raw);
    if path == "" || path == "/" then Some("")
    else
      var trimmed := TrimEndWhile(path, IsSlash);
      var withSlash := if trimmed != "" && trimmed[0] == '/' then trimmed else "/" + trimmed;
      if WritablePath(withSlash) then Some(withSlash) else None
  }

  predicate ValidRoute(r: Route) {
    ValidDomain(r.domain) && ValidPort(r.port) && NormalizePath(r.path).Some?
  }

  function Label(r: Route): string {
    var path := NormalizePath(r.path);
    Trim(r.domain) + if path.Some? then path.value else ""
  }

  predicate OnlySlashes(s: string) { |s| >= 2 && forall i :: 0 <= i < |s| ==> s[i] == '/' }

  lemma SlashesTrimmed(path: string)
    ensures TrimEndWhile(path, IsSlash) == "" <==> forall i :: 0 <= i < |path| ==> path[i] == '/'
  {
    var trimmed := TrimEndWhile(path, IsSlash);
    if trimmed == "" {
      assert forall i :: 0 <= i < |path| ==> IsSlash(path[i]);
    }
  }

  /** The shape of a normalised path. */
  lemma NormalizedShape(raw: string)
    requires NormalizePath(raw).Some?
    ensures var r := NormalizePath(raw).value;
            && (forall i :: 0 <= i < |r| ==> PathChar(r[i]))
            && (r == "" || r == "/" || (WritablePath(r) && |r| >= 2 && r[0] == '/' && r[|r| - 1] != '/'))
            && (r == "/" <==> OnlySlashes(Trim(raw)))
  {
    hide Trim, Doubled, Utf8Len, PathChar;
    var path := Trim(raw);
    SlashesTrimmed(path);
    var trimmed := TrimEndWhile(path, IsSlash);
    assert trimmed != "" ==> !IsSlash(trimmed[|trimmed| - 1]);
    hide TrimEndWhile;
  }

  lemma PathCharsAreVisible(s: string)
    requires forall i :: 0 <= i < |s| ==> PathChar(s[i])
    ensures Trim(s) == s
  {
    TrimIsIdentity(s);
  }

  /** Normalising is idempotent except on paths of two or more slashes, which become "/" and only then
      the whole domain; a second application always reaches a fixed point. */
  lemma NormalizeTwice(raw: string)
    requires NormalizePath(raw).Some?
    ensures var once := NormalizePath(raw).value;
            && NormalizePath(once) == Some(if once == "/" then "" else once)
            && (NormalizePath(once) == Some(once) <==> !OnlySlashes(Trim(raw)))
            && NormalizePath(NormalizePath(once).value) == NormalizePath(once)
  {
    NormalizedShape(raw);
    var once := NormalizePath(raw).value;
    hide WritablePath, NormalizePath;
    if once != "" && once != "/" {
      PathCharsAreVisible(once);
      NormalizeCanonical(once);
    } else {
      NormalizeRoot();
    }
  }

  lemma NormalizeRoot()
    ensures NormalizePath("") == Some("") && NormalizePath("/") == Some("")
  {
    hide Trim, WritablePath, TrimEndWhile;
    TrimIsIdentity("");
    TrimIsIdentity("/");
  }

  lemma NormalizeCanonical(path: string)
    requires Trim(path) == path && WritablePath(path) && |path| >= 2 && path[0] == '/' && path[|path| - 1] != '/'
    ensures NormalizePath(path) == Some(path)
  {
    hide WritablePath;
    assert TrimEndWhile(path, IsSlash) == path;
  }

  /** A path in the form it is kept in. */
  predicate Canonical(path: string) {
    WritablePath(path) && |path| >= 2 && path[0] == '/' && path[|path| - 1] != '/'
  }

  predicate AllSlashes(s: string) { forall i :: 0 <= i < |s| ==> s[i] == '/' }

  /** The same path as somebody may write it: with or without its leading slash, and any slashes behind. */
  ghost predicate Spells(text: string, path: string)
    requires path != ""
  {
    exists tail :: AllSlashes(tail) && (text == path + tail || text == path[1..] + tail)
  }

  lemma SecondIsNoSlash(path: string)
    requires Canonical(path)
    ensures path[1] != '/'
  {
    hide Utf8Len;
    assert !(path[0] == '/' && path[1] == '/') by { assert !Doubled(path, '/'); }
  }

  lemma SlashesGo(text: string, tail: string)
    requires AllSlashes(tail) && text != "" && text[|text| - 1] != '/'
    ensures TrimEndWhile(text + tail, IsSlash) == text
  {
    TrimEndOver(text, tail, IsSlash);
    assert TrimEndWhile(text, IsSlash) == text;
  }

  lemma SlashesCome(text: string)
    ensures var trimmed := TrimEndWhile(text, IsSlash);
            AllSlashes(text[|trimmed|..]) && text == trimmed + text[|trimmed|..]
  {
    var trimmed := TrimEndWhile(text, IsSlash);
    assert forall i :: |trimmed| <= i < |text| ==> IsSlash(text[i]);
  }

  /** What normalises to a path is exactly what spells it. */
  lemma NormalizesExactly(raw: string, path: string)
    requires Canonical(path)
    ensures NormalizePath(raw) == Some(path) <==> Spells(Trim(raw), path)
  {
    hide Trim, WritablePath, TrimEndWhile;
    var text := Trim(raw);
    SecondIsNoSlash(path);
    if tail :| AllSlashes(tail) && (text == path + tail || text == path[1..] + tail) {
      SpelledNormalizes(raw, path, tail);
    }
    if NormalizePath(raw) == Some(path) {
      SlashesCome(text);
      var trimmed := TrimEndWhile(text, IsSlash);
      assert trimmed == path || trimmed == path[1..];
    }
  }

  lemma SpelledNormalizes(raw: string, path: string, tail: string)
    requires Canonical(path) && AllSlashes(tail) && (Trim(raw) == path + tail || Trim(raw) == path[1..] + tail)
    ensures NormalizePath(raw) == Some(path)
  {
    SecondIsNoSlash(path);
    hide Trim, WritablePath, TrimEndWhile;
    var text := Trim(raw);
    if text == path + tail {
      SlashesGo(path, tail);
    } else {
      SlashesGo(path[1..], tail);
      assert text[0] == path[1] && "/" + path[1..] == path;
    }
  }

  /** And a path is the whole domain exactly when nothing is written, or a single slash. */
  lemma RootExactly(raw: string)
    ensures NormalizePath(raw) == Some("") <==> Trim(raw) == "" || Trim(raw) == "/"
  {
    hide Trim, WritablePath;
  }

  /** So a path may be written with whitespace around it, with or without its leading slash, and with any
      slashes behind it. */
  lemma WrittenPathNormalizes(before: string, path: string, tail: string, after: string)
    requires Canonical(path) && AllSlashes(tail) && AllWhitespace(before) && AllWhitespace(after)
    ensures NormalizePath(before + (path + tail) + after) == Some(path)
    ensures NormalizePath(before + (path[1..] + tail) + after) == Some(path)
  {
    SpelledIsVisible(path, tail);
    hide Trim, WritablePath, TrimEndWhile, NormalizePath, AllWhitespace;
    TrimBetween(before, path + tail, after);
    SpelledNormalizes(before + (path + tail) + after, path, tail);
    TrimBetween(before, path[1..] + tail, after);
    SpelledNormalizes(before + (path[1..] + tail) + after, path, tail);
  }

  lemma SpelledIsVisible(path: string, tail: string)
    requires Canonical(path) && AllSlashes(tail)
    ensures var s := path + tail; s != "" && !IsWhitespace(s[0]) && !IsWhitespace(s[|s| - 1])
    ensures var s := path[1..] + tail; s != "" && !IsWhitespace(s[0]) && !IsWhitespace(s[|s| - 1])
  {
    assert forall i :: 0 <= i < |path| ==> PathChar(path[i]);
    hide Doubled, Utf8Len;
    PathCharIsVisible(path[0]);
    PathCharIsVisible(path[1]);
    PathCharIsVisible(path[|path| - 1]);
  }

  lemma PathCharIsVisible(c: char)
    ensures PathChar(c) ==> !IsWhitespace(c)
  {
  }

  /** One word of letters and digits is a path. */
  lemma WordIsAPath(word: string)
    requires 0 < |word| <= 254 && forall i :: 0 <= i < |word| ==> IsAsciiAlphanumeric(word[i])
    ensures Canonical("/" + word)
  {
    Utf8LenAscii("/" + word);
  }

  /** Nothing that could end a word, a line or a block of the config is in a path, and no segment is empty
      or leads up. */
  lemma RefusedPaths(raw: string, i: nat)
    requires NormalizePath(raw).Some? && i < |NormalizePath(raw).value|
    ensures var path := NormalizePath(raw).value;
            && path[i] !in {' ', '\t', '\n', '\r', '{', '}', '"', '\\', '*', '#', '?', ':'}
            && (i + 1 < |path| ==> path[i..i + 2] != "..") && (i + 1 < |path| ==> path[i..i + 2] != "//")
  {
    hide Trim, TrimEndWhile, Utf8Len;
    var path := NormalizePath(raw).value;
    if i + 1 < |path| {
      assert path[i..i + 2][0] == path[i] && path[i..i + 2][1] == path[i + 1];
    }
  }

  // ----- characters of a domain -----

  predicate DomainChar(c: char) { LabelChar(c) || c == '.' || c == '*' }

  /** A valid domain holds nothing that could end a line, a word or a block of the config. */
  lemma DomainChars(raw: string, i: nat)
    requires ValidDomain(raw) && i < |Trim(raw)|
    ensures DomainChar(Trim(raw)[i])
  {
    hide Trim, Utf8Len;
    var domain := Trim(raw);
    var body := Body(domain);
    var at := i - (|domain| - |body|);
    if at >= 0 && body[at] != '.' {
      SplitCovers(body, '.', at);
      var part, k :| part in Split(body, '.') && 0 <= k < |part| && part[k] == body[at];
      assert ValidLabel(part);
    }
  }

  // ----- the one-line form -----

  const HTTPS: string := "https://"
  const HTTP: string := "http://"

  function StripScheme(raw: string): string {
    if HTTPS <= raw then raw[|HTTPS|..] else if HTTP <= raw then raw[|HTTP|..] else raw
  }

  /** The domain and the path of the part in front of the port. */
  function SplitHost(hostAndPath: string): (string, string) {
    match SplitOnce(hostAndPath, '/')
    case Some((domain, path)) => (domain, "/" + path)
    case None => (hostAndPath, "")
  }

  function ParseRoute(text: string, grpc: bool): Option<Route> {
    match RSplitOnce(StripScheme(Trim(text)), ':')
    case None => None
    case Some((hostAndPath, digits)) =>
      var port := ParseUnsigned(digits, U32_BOUND);
      if port.None? then None
      else
        var (domain, path) := SplitHost(hostAndPath);
        var route := Route("", "", Trim(domain), path, port.value, if grpc then 1 else 0);
        if ValidRoute(route) then Some(route) else None
  }

  /** A plain string: nothing a scheme, a port separator or a path begins with. */
  predicate Plain(s: string) { forall i :: 0 <= i < |s| ==> s[i] != ':' && s[i] != '/' && !IsWhitespace(s[i]) }

  lemma TrimmedDomain(raw: string)
    requires ValidDomain(raw)
    ensures Plain(Trim(raw)) && Trim(raw) != "" && Trim(Trim(raw)) == Trim(raw) && ValidDomain(Trim(raw))
  {
    hide Split, Trim, Utf8Len, ValidLabel, Body;
    var domain := Trim(raw);
    TrimIsIdentity(domain);
    forall i | 0 <= i < |domain| ensures domain[i] != ':' && domain[i] != '/' && !IsWhitespace(domain[i]) {
      DomainChars(raw, i);
    }
  }

  lemma NoScheme(piece: string, digits: string)
    requires ':' !in piece && AllDigits(digits)
    ensures StripScheme(piece + ":" + digits) == piece + ":" + digits
  {
    var raw := piece + ":" + digits;
    assert forall i :: 0 <= i < |raw| && raw[i] == ':' ==> i == |piece|;
    assert forall i :: |piece| < i < |raw| ==> IsDigit(raw[i]);
    assert HTTPS[5] == ':' && HTTPS[6] == '/' && HTTP[4] == ':' && HTTP[5] == '/';
  }

  /** Every valid route can be written down as its piece and its port and read back: same domain, same
      path in normalised form, same port. */
  lemma RouteTextRoundTrip(r: Route, grpc: bool)
    requires ValidRoute(r)
    ensures ParseRoute(Label(r) + ":" + Decimal(r.port), grpc) ==
            Some(Route("", "", Trim(r.domain), NormalizePath(r.path).value, r.port, if grpc then 1 else 0))
  {
    hide Trim, NormalizePath, ValidDomain, RSplitOnce, SplitHost, ParseUnsigned, StripScheme, Decimal, PathChar, Plain;
    var domain, path, digits := Trim(r.domain), NormalizePath(r.path).value, Decimal(r.port);
    TrimmedDomain(r.domain);
    NormalizedShape(r.path);
    NormalizeTwice(r.path);
    DecimalRoundTrip(r.port, U32_BOUND);
    var text := Label(r) + ":" + digits;
    assert text == (domain + path) + [':'] + digits;
    TextOfRoute(domain, path, digits);
    HostOfRoute(domain, path);
    var route := Route("", "", domain, path, r.port, if grpc then 1 else 0);
    assert ValidRoute(route);
    assert Label(r) == domain + path && Label(r) + ":" + digits == text;
  }

  /** The pieces of the text come apart again. */
  lemma TextOfRoute(domain: string, path: string, digits: string)
    requires Plain(domain) && domain != "" && AllDigits(digits) && digits != ""
    requires (forall i :: 0 <= i < |path| ==> PathChar(path[i])) && (path == "" || path[0] == '/')
    ensures var text := (domain + path) + [':'] + digits;
            && Trim(text) == text && StripScheme(text) == text
            && RSplitOnce(text, ':') == Some((domain + path, digits))
  {
    var text := (domain + path) + [':'] + digits;
    assert text[0] == domain[0] && text[|text| - 1] == digits[|digits| - 1] && IsDigit(digits[|digits| - 1]);
    TrimIsIdentity(text);
    NoScheme(domain + path, digits);
    assert text == (domain + path) + ":" + digits;
    RSplitOnceAt(domain + path, ':', digits);
  }

  lemma HostOfRoute(domain: string, path: string)
    requires Plain(domain) && (path == "" || path[0] == '/')
    ensures SplitHost(domain + path) == (domain, path)
  {
    if path == "" {
      assert domain + path == domain;
    } else {
      assert domain + path == domain + ['/'] + path[1..];
      SplitOnceAt(domain, '/', path[1..]);
      assert "/" + path[1..] == path;
    }
  }

  /** The port behind a route, in digits. */
  function PortText(port: nat): string { ":" + Decimal(port) }

  lemma SchemeGoes(scheme: string, text: string)
    requires scheme == HTTPS || scheme == HTTP || (scheme == "" && StripScheme(text) == text)
    ensures StripScheme(scheme + text) == text
  {
    if scheme == HTTPS {
      assert (HTTPS + text)[|HTTPS|..] == text;
    } else if scheme == HTTP {
      assert (HTTP + text)[4] == ':' && HTTPS[4] == 's';
      assert (HTTP + text)[|HTTP|..] == text;
    } else {
      assert scheme + text == text;
    }
  }

  /** A route as it is typed, perhaps as a pasted address and with whitespace around it, is read as its
      parts. */
  lemma TypedRouteIsRead(before: string, scheme: string, domain: string, path: string, port: nat, after: string,
      grpc: bool)
    requires AllWhitespace(before) && AllWhitespace(after) && (scheme == "" || scheme == HTTP || scheme == HTTPS)
    requires ValidDomain(domain) && Trim(domain) == domain && ValidPort(port)
    requires (path == "" || path[0] == '/') && NormalizePath(path).Some?
    requires forall i :: 0 <= i < |path| ==> PathChar(path[i])
    ensures ParseRoute(before + (scheme + (domain + path + PortText(port))) + after, grpc) ==
            Some(Route("", "", domain, path, port, if grpc then 1 else 0))
  {
    hide Trim, NormalizePath, ValidDomain, RSplitOnce, SplitHost, ParseUnsigned, StripScheme, Decimal, PathChar, Plain,
        AllWhitespace;
    var digits := Decimal(port);
    var text := (domain + path) + [':'] + digits;
    assert domain + path + PortText(port) == text;
    TrimmedDomain(domain);
    TextOfRoute(domain, path, digits);
    HostOfRoute(domain, path);
    DecimalRoundTrip(port, U32_BOUND);
    SchemeGoes(scheme, text);
    TypedIsVisible(scheme, text, domain);
    TrimBetween(before, scheme + text, after);
    assert ValidRoute(Route("", "", domain, path, port, if grpc then 1 else 0));
  }

  lemma TypedIsVisible(scheme: string, text: string, domain: string)
    requires scheme == "" || scheme == HTTP || scheme == HTTPS
    requires Trim(text) == text && text != "" && domain <= text && domain != "" && Plain(domain)
    ensures var s := scheme + text; s != "" && !IsWhitespace(s[0]) && !IsWhitespace(s[|s| - 1])
  {
    hide Trim;
    assert text[0] == domain[0];
    assert (scheme + text)[|scheme + text| - 1] == text[|text| - 1];
    assert HTTP[0] == 'h' && HTTPS[0] == 'h';
  }

  lemma PathWithSlashes(path: string, tail: string)
    requires Canonical(path) && AllSlashes(tail)
    ensures NormalizePath(path + tail) == Some(path)
  {
    SpelledIsVisible(path, tail);
    hide WritablePath, NormalizePath, IsWhitespace;
    TrimIsIdentity(path + tail);
    SpelledNormalizes(path + tail, path, tail);
  }

  lemma Unframed(text: string)
    ensures "" + ("" + text) + "" == text
  {
  }

  /** So a path typed with slashes behind it is that path and not the whole domain. */
  lemma TypedPathIsKept(domain: string, path: string, tail: string, port: nat, grpc: bool)
    requires ValidDomain(domain) && Trim(domain) == domain && ValidPort(port) && Canonical(path) && AllSlashes(tail)
    ensures var r := Route("", "", domain, path + tail, port, if grpc then 1 else 0);
            && ParseRoute(domain + (path + tail) + PortText(port), grpc) == Some(r)
            && NormalizePath(r.path) == Some(path) && Label(r) == domain + path
  {
    PathWithSlashes(path, tail);
    CanonicalChars(path, tail);
    hide NormalizePath, ValidDomain, Trim, WritablePath, PortText, ParseRoute, PathChar;
    TypedRouteIsRead("", "", domain, path + tail, port, "", grpc);
    Unframed(domain + (path + tail) + PortText(port));
  }

  lemma CanonicalChars(path: string, tail: string)
    requires Canonical(path) && AllSlashes(tail)
    ensures forall i :: 0 <= i < |path + tail| ==> PathChar((path + tail)[i])
  {
    hide Doubled, Utf8Len;
  }

  predicate IsWord(s: string) { 0 < |s| <= 63 && forall i :: 0 <= i < |s| ==> IsAsciiAlphanumeric(s[i]) }

  lemma WordIsALabel(word: string)
    requires IsWord(word)
    ensures ValidLabel(word) && '.' !in word && '*' !in word
  {
    Utf8LenAscii(word);
  }

  lemma PlainChar(c: char)
    requires IsAsciiAlphanumeric(c) || c == '.' || c == '*'
    ensures !IsWhitespace(c) && c as int < 0x80
  {
  }

  lemma PlainText(s: string)
    requires s != "" && forall i :: 0 <= i < |s| ==> IsAsciiAlphanumeric(s[i]) || s[i] == '.' || s[i] == '*'
    ensures Trim(s) == s && Utf8Len(s) == |s|
  {
    forall i | 0 <= i < |s| ensures !IsWhitespace(s[i]) && s[i] as int < 0x80 {
      PlainChar(s[i]);
    }
    hide IsWhitespace, IsAsciiAlphanumeric, Trim, Utf8Len;
    TrimIsIdentity(s);
    Utf8LenAscii(s);
  }

  lemma TwoLabels(a: string, b: string)
    requires IsWord(a) && IsWord(b)
    ensures Split(a + "." + b, '.') == [a, b]
  {
    WordIsALabel(a);
    WordIsALabel(b);
    hide IsWord;
    SplitCons(a, '.', b);
    assert a + "." + b == a + ['.'] + b;
    OneLabel(b);
  }

  lemma OneLabel(a: string)
    requires '.' !in a
    ensures Split(a, '.') == [a]
  {
  }

  lemma PlainWords(a: string, b: string)
    requires IsWord(a) && IsWord(b)
    ensures var domain := a + "." + b;
            && Trim(domain) == domain && Utf8Len(domain) == |domain| && Trim(a) == a
            && Trim("*." + domain) == "*." + domain && Utf8Len("*." + domain) == |domain| + 2
  {
    var domain := a + "." + b;
    hide Trim, Utf8Len;
    PlainText(a);
    PlainText(domain);
    PlainText("*." + domain);
  }

  lemma LabelsMakeADomain(raw: string, a: string, b: string)
    requires Trim(raw) == raw && raw != "" && Utf8Len(raw) <= 253
    requires Body(raw) == a + "." + b && '*' !in Body(raw) && '.' in Body(raw)
    requires Split(a + "." + b, '.') == [a, b] && ValidLabel(a) && ValidLabel(b)
    ensures ValidDomain(raw)
  {
    hide Split, Trim, Utf8Len, ValidLabel, Body;
  }

  /** Two words of letters and digits with a dot between them are a domain, and so they are with a wildcard in
      front; one word is none. */
  lemma WordsAreADomain(a: string, b: string)
    requires IsWord(a) && IsWord(b)
    ensures ValidDomain(a + "." + b) && ValidDomain("*." + (a + "." + b)) && !ValidDomain(a)
  {
    hide Split, Trim, Utf8Len, ValidLabel, Body, IsWord;
    WordIsALabel(a);
    WordIsALabel(b);
    TwoLabels(a, b);
    PlainWords(a, b);
    BodyOfWords(a, b);
    assert !ValidDomain(a);
    hide ValidDomain;
    LabelsMakeADomain(a + "." + b, a, b);
    LabelsMakeADomain("*." + (a + "." + b), a, b);
  }

  lemma BodyOfWords(a: string, b: string)
    requires IsWord(a) && IsWord(b)
    ensures var domain := a + "." + b;
            && Body(domain) == domain && Body("*." + domain) == domain && Body(a) == a
            && '*' !in domain && '.' in domain && 1 <= |domain| <= 127 && |"*." + domain| == |domain| + 2
  {
    var domain := a + "." + b;
    assert domain[0] == a[0] && domain[|a|] == '.';
    assert ("*." + domain)[0] == '*' && ("*." + domain)[1] == '.' && ("*." + domain)[2..] == domain;
  }

  /** What the command line accepts is valid, and writing it down and reading it again only normalises
      its path. */
  lemma ParsedRoutesAreValid(text: string, grpc: bool)
    requires ParseRoute(text, grpc).Some?
    ensures var r := ParseRoute(text, grpc).value;
            && ValidRoute(r) && Trim(r.domain) == r.domain
            && ParseRoute(Label(r) + ":" + Decimal(r.port), grpc) == Some(r.(path := NormalizePath(r.path).value))
  {
    var r := ParseRoute(text, grpc).value;
    ParsedDomain(text, grpc);
    hide NormalizePath, ValidDomain, ParseRoute, Label, Decimal, Trim;
    RouteTextRoundTrip(r, grpc);
  }

  lemma ParsedDomain(text: string, grpc: bool)
    requires ParseRoute(text, grpc).Some?
    ensures var r := ParseRoute(text, grpc).value;
            && ValidRoute(r) && Trim(r.domain) == r.domain
            && r == Route("", "", r.domain, r.path, r.port, if grpc then 1 else 0)
  {
    hide NormalizePath, ValidDomain, RSplitOnce, SplitHost, ParseUnsigned, StripScheme, Trim;
    var (hostAndPath, digits) := RSplitOnce(StripScheme(Trim(text)), ':').value;
    TrimTwice(SplitHost(hostAndPath).0);
  }

  lemma TrimTwice(s: string)
    ensures Trim(Trim(s)) == Trim(s)
  {
    TrimIsIdentity(Trim(s));
  }
}
