/** A line reader for the config the printer emits, and the proof that reading the text back recovers
    exactly the routes that were written. The reader refuses any line it does not know and any block
    left open. */
module IngressReader {
  import opened Wrappers
  import opened Text
  import opened Routes
  import opened RouteOrder
  import opened Ingress

  datatype Handler = Handler(path: string, h2c: bool, port: nat)

  datatype Site = Site(domain: string, handlers: seq<Handler>)

  datatype Config = Config(admin: Option<nat>, email: string, sites: seq<Site>)

  /** The options come first and once: before them only comments, after them only sites. */
  datatype Mode = Start | Global | Top | InSite | InHandler(path: string) | Handled

  datatype Reader = Reader(mode: Mode, config: Config)

  // ----- pieces of a line -----

  function After(line: string, prefix: string): Option<string> {
    if prefix <= line then Some(line[|prefix|..]) else None
  }

  function UpTo(line: string, suffix: string): Option<string> {
    if |suffix| <= |line| && line[|line| - |suffix|..] == suffix then Some(line[..|line| - |suffix|]) else None
  }

  lemma AfterPrefix(prefix: string, rest: string)
    ensures After(prefix + rest, prefix) == Some(rest)
  {
  }

  lemma UpToSuffix(rest: string, suffix: string)
    ensures UpTo(rest + suffix, suffix) == Some(rest)
  {
    assert (rest + suffix)[|rest|..] == suffix;
  }

  function ReadUpstream(text: string): Option<(bool, nat)> {
    var h2c := After(text, H2C_SCHEME).Some?;
    var address := After(if h2c then After(text, H2C_SCHEME).value else text, LOOPBACK);
    if address.None? then None
    else
      match ParseUnsigned(address.value, 65536)
      case Some(port) => Some((h2c, port))
      case None => None
  }

  // ----- one line -----

  function AddHandler(sites: seq<Site>, h: Handler): seq<Site> {
    if sites == [] then []
    else
      var last := sites[|sites| - 1];
      sites[..|sites| - 1] + [Site(last.domain, last.handlers + [h])]
  }

  predicate Ignored(line: string) { line == "" || line[0] == '#' }

  function ReadStart(c: Config, line: string): Option<Reader> {
    if Ignored(line) then Some(Reader(Start, c)) else if line == "{" then Some(Reader(Global, c)) else None
  }

  function ReadTop(c: Config, line: string): Option<Reader> {
    if Ignored(line) then Some(Reader(Top, c))
    else
      match UpTo(line, OPENS)
      case Some(domain) =>
        if domain != "" && ' ' !in domain
        then Some(Reader(InSite, c.(sites := c.sites + [Site(domain, [])])))
        else None
      case None => None
  }

  function ReadGlobal(c: Config, line: string): Option<Reader> {
    if line == "}" then Some(Reader(Top, c))
    else if After(line, ADMIN).Some? then
      var port := ParseUnsigned(After(line, ADMIN).value, U32_BOUND);
      if port.Some? then Some(Reader(Global, c.(admin := port))) else None
    else
      match After(line, EMAIL)
      case Some(email) => Some(Reader(Global, c.(email := email)))
      case None => None
  }

  function ReadSite(c: Config, line: string): Option<Reader> {
    if line == "}" then Some(Reader(Top, c))
    else if After(line, NOTE).Some? then Some(Reader(InSite, c))
    else if line == ROOT then Some(Reader(InHandler(""), c))
    else
      var rest := After(line, PATH);
      if rest.None? then None
      else
        match UpTo(rest.value, PATH_OPENS)
        case Some(path) => Some(Reader(InHandler(path), c))
        case None => None
  }

  function ReadHandler(c: Config, path: string, line: string): Option<Reader> {
    var upstream := After(line, PROXY);
    if upstream.None? then None
    else
      match ReadUpstream(upstream.value)
      case Some((h2c, port)) => Some(Reader(Handled, c.(sites := AddHandler(c.sites, Handler(path, h2c, port)))))
      case None => None
  }

  function Step(r: Reader, line: string): Option<Reader> {
    match r.mode
    case Start => ReadStart(r.config, line)
    case Top => ReadTop(r.config, line)
    case Global => ReadGlobal(r.config, line)
    case InSite => ReadSite(r.config, line)
    case InHandler(path) => ReadHandler(r.config, path, line)
    case Handled => if line == HANDLED then Some(Reader(InSite, r.config)) else None
  }

  // ----- a whole text -----

  function Steps(r: Option<Reader>, lines: seq<string>): Option<Reader>
    decreases |lines|
  {
    if lines == [] || r.None? then r else Steps(Step(r.value, lines[0]), lines[1..])
  }

  const NOTHING_READ: Reader := Reader(Start, Config(None, "", []))

  /** The config a text says, or nothing when it is not a text of this form. */
  function Read(text: string): Option<Config> {
    match Steps(Some(NOTHING_READ), Split(text, '\n'))
    case Some(Reader(Top, config)) => Some(config)
    case _ => None
  }

  lemma {:induction false} StepsAppend(r: Option<Reader>, a: seq<string>, b: seq<string>)
    ensures Steps(r, a + b) == Steps(Steps(r, a), b)
    decreases |a|
  {
    hide Step;
    if a == [] || r.None? {
      assert a == [] ==> a + b == b;
    } else {
      assert (a + b)[1..] == a[1..] + b;
      StepsAppend(Step(r.value, a[0]), a[1..], b);
    }
  }

  lemma StepsOne(r: Reader, line: string)
    ensures Steps(Some(r), [line]) == Step(r, line)
  {
    hide Step;
    assert [line][1..] == [];
  }

  lemma StepsTwo(r: Reader, a: string, b: string)
    ensures Steps(Some(r), [a, b]) == Steps(Step(r, a), [b])
  {
    hide Step;
    assert [a, b][1..] == [b];
  }

  /** Text made of lines comes apart into those lines. */
  lemma {:induction false} SplitUnlines(lines: seq<string>, rest: string)
    requires forall i :: 0 <= i < |lines| ==> OneLine(lines[i])
    ensures Split(Unlines(lines) + rest, '\n') == lines + Split(rest, '\n')
  {
    hide Split;
    if lines == [] {
      assert Unlines(lines) + rest == rest && lines + Split(rest, '\n') == Split(rest, '\n');
    } else {
      var front, line := lines[..|lines| - 1], lines[|lines| - 1];
      assert Unlines(lines) + rest == Unlines(front) + (line + ['\n'] + rest);
      SplitUnlines(front, line + ['\n'] + rest);
      SplitCons(line, '\n', rest);
      assert front + ([line] + Split(rest, '\n')) == lines + Split(rest, '\n');
    }
  }

  // ----- what the written routes say -----

  function HandlerOf(r: Route): Handler
    requires ValidRoute(r)
  {
    Handler(NormalizePath(r.path).value, r.protocol == H2C, r.port)
  }

  /** One site for each run of routes with the same domain. */
  function Groups(routes: seq<Route>): seq<Site>
    requires AllValid(routes)
  {
    if routes == [] then []
    else
      var front, r := routes[..|routes| - 1], routes[|routes| - 1];
      var sites := Groups(front);
      if front != [] && front[|front| - 1].domain == r.domain
      then AddHandler(sites, HandlerOf(r))
      else sites + [Site(r.domain, [HandlerOf(r)])]
  }

  lemma ReadNote(c: Config, r: Route)
    ensures ReadSite(c, NoteLine(r)) == Some(Reader(InSite, c))
  {
    hide CommentSafe, Decimal;
    var rest := CommentSafe(r.serviceName) + ARROW + Decimal(r.port);
    assert NoteLine(r) == NOTE + rest;
    AfterPrefix(NOTE, rest);
  }

  lemma ReadOpening(c: Config, path: string)
    ensures ReadSite(c, OpeningLine(path)) == Some(Reader(InHandler(path), c))
  {
    if path == "" {
      assert ROOT[1] == 'h' && NOTE[1] == '#';
    } else {
      var rest := path + PATH_OPENS;
      assert OpeningLine(path) == PATH + rest;
      assert PATH[1] == 'h' && NOTE[1] == '#' && PATH[7] == '_' && ROOT[7] == ' ';
      AfterPrefix(PATH, rest);
      UpToSuffix(path, PATH_OPENS);
    }
  }

  lemma ReadUpstreamOf(r: Route)
    requires ValidPort(r.port)
    ensures ReadUpstream(Upstream(r)) == Some((r.protocol == H2C, r.port))
  {
    hide Decimal, ParseUnsigned;
    var address := LOOPBACK + Decimal(r.port);
    DecimalRoundTrip(r.port, 65536);
    AfterPrefix(LOOPBACK, Decimal(r.port));
    if r.protocol == H2C {
      assert Upstream(r) == H2C_SCHEME + address;
      AfterPrefix(H2C_SCHEME, address);
    } else {
      assert Upstream(r) == address;
      assert address[0] == '1' && H2C_SCHEME[0] == 'h';
    }
  }

  /** Inside a site, the four lines of a route add its handler. */
  lemma ReadRoute(c: Config, r: Route)
    requires ValidRoute(r)
    ensures Steps(Some(Reader(InSite, c)), RouteLines(r)) ==
            Some(Reader(InSite, c.(sites := AddHandler(c.sites, HandlerOf(r)))))
  {
    hide ReadSite, ReadUpstream, Upstream, NoteLine, OpeningLine, NormalizePath, ValidDomain, AddHandler;
    var path := NormalizePath(r.path).value;
    ReadNote(c, r);
    ReadOpening(c, path);
    ReadUpstreamOf(r);
    AfterPrefix(PROXY, Upstream(r));
    var a, b, d := NoteLine(r), OpeningLine(path), PROXY + Upstream(r);
    var lines := RouteLines(r);
    assert lines[1..] == [b, d, HANDLED] && [b, d, HANDLED][1..] == [d, HANDLED] && [d, HANDLED][1..] == [HANDLED];
    StepsTwo(Reader(InHandler(path), c), d, HANDLED);
    StepsOne(Reader(Handled, c.(sites := AddHandler(c.sites, HandlerOf(r)))), HANDLED);
  }

  lemma ReadDomain(c: Config, domain: string)
    requires ValidDomain(domain) && Trim(domain) == domain
    ensures ReadTop(c, domain + OPENS) == Some(Reader(InSite, c.(sites := c.sites + [Site(domain, [])])))
  {
    hide ValidDomain, Trim;
    assert domain != "" by { TrimmedDomain(domain); }
    forall i | 0 <= i < |domain| ensures DomainChar(domain[i]) {
      DomainChars(domain, i);
    }
    var line := domain + OPENS;
    assert line[0] == domain[0] && |line| >= 2;
    UpToSuffix(domain, OPENS);
  }

  predicate DomainsTrimmed(routes: seq<Route>) {
    forall i :: 0 <= i < |routes| ==> Trim(routes[i].domain) == routes[i].domain
  }

  function AtSite(routes: seq<Route>): Mode { if routes == [] then Top else InSite }

  /** The turn to a route leaves the reader inside a site for it. */
  lemma ReadTurn(c: Config, front: seq<Route>, r: Route)
    requires ValidDomain(r.domain) && Trim(r.domain) == r.domain
    ensures Steps(Some(Reader(AtSite(front), c)), Turn(front, r)) ==
            Some(Reader(InSite, if front != [] && front[|front| - 1].domain == r.domain then c
                                else c.(sites := c.sites + [Site(r.domain, [])])))
  {
    hide ValidDomain, Trim;
    ReadDomain(c, r.domain);
    hide ReadTop;
    var line := r.domain + OPENS;
    if front != [] && front[|front| - 1].domain == r.domain {
    } else {
      StepsTwo(Reader(Top, c), "", line);
      assert ReadTop(c, "") == Some(Reader(Top, c)) by { ReadBlank(c); }
      StepsOne(Reader(Top, c), line);
      if front != [] {
        assert Turn(front, r) == ["}"] + ["", line];
        StepsAppend(Some(Reader(InSite, c)), ["}"], ["", line]);
        StepsOne(Reader(InSite, c), "}");
      } else {
        assert Turn(front, r) == ["", line];
      }
    }
  }

  lemma ReadBlank(c: Config)
    ensures ReadTop(c, "") == Some(Reader(Top, c))
  {
  }

  lemma AddToNew(sites: seq<Site>, domain: string, h: Handler)
    ensures AddHandler(sites + [Site(domain, [])], h) == sites + [Site(domain, [h])]
  {
    var s := sites + [Site(domain, [])];
    assert s[..|s| - 1] == sites && [] + [h] == [h];
  }

  /** Reading what one more route adds. */
  lemma ReadNext(c: Config, front: seq<Route>, r: Route)
    requires ValidRoute(r) && Trim(r.domain) == r.domain
    ensures Steps(Some(Reader(AtSite(front), c)), Turn(front, r) + RouteLines(r)) ==
            Some(Reader(InSite, c.(sites := if front != [] && front[|front| - 1].domain == r.domain
                                            then AddHandler(c.sites, HandlerOf(r))
                                            else c.sites + [Site(r.domain, [HandlerOf(r)])])))
  {
    hide Step, ValidDomain, Turn, RouteLines, AddHandler, HandlerOf, NormalizePath, ValidPort, Trim;
    StepsAppend(Some(Reader(AtSite(front), c)), Turn(front, r), RouteLines(r));
    ReadTurn(c, front, r);
    if front != [] && front[|front| - 1].domain == r.domain {
      ReadRoute(c, r);
    } else {
      ReadRoute(c.(sites := c.sites + [Site(r.domain, [])]), r);
      AddToNew(c.sites, r.domain, HandlerOf(r));
    }
  }

  lemma {:induction false} ReadBlocks(c: Config, routes: seq<Route>)
    requires AllValid(routes) && DomainsTrimmed(routes) && c.sites == []
    ensures Steps(Some(Reader(Top, c)), Blocks(routes)) == Some(Reader(AtSite(routes), c.(sites := Groups(routes))))
  {
    hide Steps, ValidRoute, Turn, RouteLines, Blocks, AddHandler, HandlerOf, Trim;
    BlocksOf(routes);
    if routes == [] {
      StepsNone(Some(Reader(Top, c)));
      assert c.(sites := []) == c;
    } else {
      var front, r := routes[..|routes| - 1], routes[|routes| - 1];
      ReadBlocks(c, front);
      ReadNext(c.(sites := Groups(front)), front, r);
      StepsAppend(Some(Reader(Top, c)), Blocks(front), Turn(front, r) + RouteLines(r));
      assert Blocks(routes) == Blocks(front) + (Turn(front, r) + RouteLines(r));
    }
  }

  lemma StepsNone(r: Option<Reader>)
    ensures Steps(r, []) == r
  {
  }

  // ----- the header and the comments -----

  lemma ReadComment(c: Config, line: string)
    requires line != "" && line[0] == '#'
    ensures Steps(Some(Reader(Top, c)), ["", line]) == Some(Reader(Top, c))
  {
    StepsTwo(Reader(Top, c), "", line);
    StepsOne(Reader(Top, c), line);
  }

  lemma {:induction false} ReadSkipped(c: Config, routes: seq<Route>)
    ensures Steps(Some(Reader(Top, c)), SkippedLines(routes)) == Some(Reader(Top, c))
  {
    hide Step, CommentSafe;
    if routes != [] {
      var front, line := routes[..|routes| - 1], SkippedLine(routes[|routes| - 1]);
      ReadSkipped(c, front);
      StepsAppend(Some(Reader(Top, c)), SkippedLines(front), ["", line]);
      assert line[0] == SKIPPED[0] == '#';
      ReadComment(c, line);
    }
  }

  /** In front of the options every comment and blank line is passed over. */
  lemma {:induction false} ReadIgnored(c: Config, lines: seq<string>)
    requires forall i :: 0 <= i < |lines| ==> Ignored(lines[i])
    ensures Steps(Some(Reader(Start, c)), lines) == Some(Reader(Start, c))
    decreases |lines|
  {
    hide Ignored;
    if lines != [] {
      assert Step(Reader(Start, c), lines[0]) == Some(Reader(Start, c));
      ReadIgnored(c, lines[1..]);
    }
  }

  lemma ReadBlankLine(c: Config)
    ensures Step(Reader(Top, c), "") == Some(Reader(Top, c))
  {
  }

  lemma ReadAdmin(c: Config, port: nat)
    requires port < U32_BOUND
    ensures ReadGlobal(c, ADMIN + Decimal(port)) == Some(Reader(Global, c.(admin := Some(port))))
  {
    hide Decimal, ParseUnsigned;
    DecimalRoundTrip(port, U32_BOUND);
    AfterPrefix(ADMIN, Decimal(port));
    assert (ADMIN + Decimal(port))[0] == ADMIN[0] == '\t';
  }

  lemma ReadEmail(c: Config, email: string)
    ensures ReadGlobal(c, EMAIL + email) == Some(Reader(Global, c.(email := email)))
  {
    AfterPrefix(EMAIL, email);
    assert (EMAIL + email)[0] == EMAIL[0] == '\t';
    assert EMAIL[1] == 'e' && ADMIN[1] == 'a' && (EMAIL + email)[1] == EMAIL[1];
  }

  /** The lines of the options, with what separates them from the comments in front. */
  function OptionLines(target: Target): seq<string> {
    ["", "{", ADMIN + Decimal(AdminPort(target))]
    + (if Trim(target.acmeEmail) == "" then [] else [EMAIL + Trim(target.acmeEmail)]) + ["}"]
  }

  lemma HeaderParts(target: Target)
    ensures Header(target) == [BANNER, BANNER_END, NAMED + target.name] + OptionLines(target)
  {
    hide Trim, Decimal;
  }

  lemma ReadOptions(target: Target)
    requires target.adminPort < U32_BOUND
    ensures Steps(Some(NOTHING_READ), OptionLines(target)) ==
            Some(Reader(Top, Config(Some(AdminPort(target)), Trim(target.acmeEmail), [])))
  {
    hide ReadTop, ReadGlobal, Trim, Decimal;
    var none := NOTHING_READ.config;
    var email := Trim(target.acmeEmail);
    var admin := ADMIN + Decimal(AdminPort(target));
    var c := none.(admin := Some(AdminPort(target)));
    ReadAdmin(none, AdminPort(target));
    ReadEmail(c, email);
    var open := ["", "{"];
    StepsTwo(NOTHING_READ, "", "{");
    StepsOne(NOTHING_READ, "{");
    assert Steps(Some(NOTHING_READ), open) == Some(Reader(Global, none)) by { ReadOpen(none); }
    StepsOne(Reader(Global, none), admin);
    StepsAppend(Some(NOTHING_READ), open, [admin]);
    if email == "" {
      assert OptionLines(target) == open + [admin] + ["}"];
      StepsAppend(Some(NOTHING_READ), open + [admin], ["}"]);
      StepsOne(Reader(Global, c), "}");
      ReadEnd(c);
    } else {
      assert OptionLines(target) == open + [admin] + [EMAIL + email, "}"];
      StepsAppend(Some(NOTHING_READ), open + [admin], [EMAIL + email, "}"]);
      StepsTwo(Reader(Global, c), EMAIL + email, "}");
      StepsOne(Reader(Global, c.(email := email)), "}");
      ReadEnd(c.(email := email));
    }
  }

  lemma ReadOpen(c: Config)
    ensures Step(Reader(Start, c), "") == Some(Reader(Start, c))
            && Step(Reader(Start, c), "{") == Some(Reader(Global, c))
  {
  }

  lemma ReadEnd(c: Config)
    ensures ReadGlobal(c, "}") == Some(Reader(Top, c)) && ReadSite(c, "}") == Some(Reader(Top, c))
  {
  }
}
