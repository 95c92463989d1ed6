/** What a rendered config means: reading it back gives the valid routes, one site per domain, and the
    first handler that matches a request is the one with the longest path. */
module IngressMeaning {
  import opened Wrappers
  import opened Text
  import opened Routes
  import opened RouteOrder
  import opened Ingress
  import opened IngressReader

  // ----- every line is one line -----

  // The long fixed texts, each taken apart for the solver.

  lemma BannerParts()
    ensures BANNER == "# Managed by nudo. Changes here are over" + "written on the next"
  {
  }

  lemma BannerEndParts()
    ensures BANNER_END == "# deploy or reload — edit the service's " + "domain in nudo instead."
  {
  }

  lemma EmptyParts()
    ensures EMPTY == "# No services on this target have " + "a domain yet."
  {
  }

  lemma ReasonParts()
    ensures REASON == ": its domain, path or port is not one " + "nudo will write"
  {
  }

  lemma BannerPiece()
    ensures OneLine(BANNER) && BANNER[0] == '#'
  {
    BannerParts();
    hide BANNER;
    OneLineJoin("# Managed by nudo. Changes here are over", "written on the next");
  }

  lemma BannerEndPiece()
    ensures OneLine(BANNER_END) && BANNER_END[0] == '#'
  {
    BannerEndParts();
    hide BANNER_END;
    OneLineJoin("# deploy or reload — edit the service's ", "domain in nudo instead.");
  }

  lemma EmptyPiece()
    ensures OneLine(EMPTY) && EMPTY[0] == '#'
  {
    EmptyParts();
    hide EMPTY;
    OneLineJoin("# No services on this target have ", "a domain yet.");
  }

  lemma ReasonPiece()
    ensures OneLine(REASON)
  {
    ReasonParts();
    hide REASON;
    OneLineJoin(": its domain, path or port is not one ", "nudo will write");
  }

  lemma CommentPieces()
    ensures OneLine(BANNER) && OneLine(BANNER_END) && OneLine(EMPTY)
    ensures BANNER[0] == BANNER_END[0] == EMPTY[0] == '#'
  {
    hide OneLine, BANNER, BANNER_END, EMPTY;
    BannerPiece();
    BannerEndPiece();
    EmptyPiece();
  }

  lemma HeaderPieces()
    ensures OneLine(NAMED) && OneLine(ADMIN) && OneLine(EMAIL) && OneLine("{") && OneLine("}") && OneLine("")
  {
  }

  lemma SkippedPieces()
    ensures OneLine(SKIPPED) && OneLine(REASON)
  {
    ReasonPiece();
    hide REASON;
  }

  lemma RoutePieces()
    ensures OneLine(OPENS) && OneLine(NOTE) && OneLine(ARROW) && OneLine(PATH) && OneLine(PATH_OPENS) && OneLine(ROOT)
  {
  }

  lemma UpstreamPieces()
    ensures OneLine(PROXY) && OneLine(H2C_SCHEME) && OneLine(LOOPBACK) && OneLine(HANDLED)
  {
  }

  lemma OneLineJoin(a: string, b: string)
    requires OneLine(a) && OneLine(b)
    ensures OneLine(a + b)
  {
  }

  lemma OneLineDecimal(n: nat)
    ensures OneLine(Decimal(n))
  {
    assert forall c :: c in Decimal(n) ==> IsDigit(c);
  }

  lemma OneLineDomain(domain: string)
    requires ValidDomain(domain) && Trim(domain) == domain
    ensures OneLine(domain)
  {
    hide ValidDomain, Trim;
    forall i | 0 <= i < |domain| ensures domain[i] != '\n' {
      DomainChars(domain, i);
    }
  }

  lemma OneLineRoute(r: Route)
    requires ValidRoute(r)
    ensures OneLine(NoteLine(r)) && OneLine(PROXY + Upstream(r))
    ensures OneLine(OpeningLine(NormalizePath(r.path).value)) && OneLine(HANDLED)
  {
    hide OneLine, Decimal, NormalizePath, ValidDomain, CommentSafe;
    OneLineDecimal(r.port);
    CommentSafeIsOneLine(r.serviceName);
    OneLinePath(r.path);
    RoutePieces();
    UpstreamPieces();
    OneLineJoin(NOTE, CommentSafe(r.serviceName));
    OneLineJoin(NOTE + CommentSafe(r.serviceName), ARROW);
    OneLineJoin(NOTE + CommentSafe(r.serviceName) + ARROW, Decimal(r.port));
    OneLineJoin(H2C_SCHEME, LOOPBACK);
    OneLineJoin(H2C_SCHEME + LOOPBACK, Decimal(r.port));
    OneLineJoin(LOOPBACK, Decimal(r.port));
    assert "" + LOOPBACK == LOOPBACK;
    OneLineJoin(PROXY, Upstream(r));
    var path := NormalizePath(r.path).value;
    OneLineJoin(PATH, path);
    OneLineJoin(PATH + path, PATH_OPENS);
  }

  lemma OneLinePath(raw: string)
    requires NormalizePath(raw).Some?
    ensures OneLine(NormalizePath(raw).value)
  {
    hide NormalizePath, Trim, WritablePath, OnlySlashes;
    NormalizedShape(raw);
    assert !PathChar('\n');
  }

  predicate OneLiners(lines: seq<string>) { forall i :: 0 <= i < |lines| ==> OneLine(lines[i]) }

  lemma OneLinersAppend(a: seq<string>, b: seq<string>)
    requires OneLiners(a) && OneLiners(b)
    ensures OneLiners(a + b)
  {
    hide OneLine;
  }

  lemma OneLineTurn(front: seq<Route>, r: Route)
    requires ValidDomain(r.domain) && Trim(r.domain) == r.domain
    ensures OneLiners(Turn(front, r))
  {
    hide ValidDomain, Trim, OneLine;
    OneLineDomain(r.domain);
    RoutePieces();
    HeaderPieces();
    OneLineJoin(r.domain, OPENS);
  }

  lemma {:induction false} OneLineBlocks(routes: seq<Route>)
    requires AllValid(routes) && DomainsTrimmed(routes)
    ensures OneLiners(Blocks(routes))
  {
    hide OneLiners, ValidDomain, Trim, Turn, RouteLines, Blocks, NormalizePath;
    BlocksOf(routes);
    if routes == [] {
      NoLines();
    } else {
      var front, r := routes[..|routes| - 1], routes[|routes| - 1];
      assert ValidRoute(r) && Trim(r.domain) == r.domain;
      OneLineBlocks(front);
      OneLineTurn(front, r);
      assert OneLiners(RouteLines(r)) by { RouteOneLiners(r); }
      OneLinersAppend(Blocks(front), Turn(front, r));
      OneLinersAppend(Blocks(front) + Turn(front, r), RouteLines(r));
    }
  }

  lemma RouteOneLiners(r: Route)
    requires ValidRoute(r)
    ensures OneLiners(RouteLines(r))
  {
    hide OneLine, NoteLine, OpeningLine, Upstream, NormalizePath, ValidDomain;
    OneLineRoute(r);
  }

  lemma NoLines()
    ensures OneLiners([])
  {
  }

  lemma {:induction false} OneLineSkipped(routes: seq<Route>)
    ensures OneLiners(SkippedLines(routes))
  {
    hide CommentSafe, OneLine;
    if routes != [] {
      var name := CommentSafe(routes[|routes| - 1].serviceName);
      OneLineSkipped(routes[..|routes| - 1]);
      CommentSafeIsOneLine(routes[|routes| - 1].serviceName);
      SkippedPieces();
      HeaderPieces();
      OneLineJoin(SKIPPED, name);
      OneLineJoin(SKIPPED + name, REASON);
    }
  }

  lemma OneLineHeader(target: Target)
    requires OneLine(target.name) && OneLine(Trim(target.acmeEmail))
    ensures OneLiners(Header(target))
  {
    hide Trim, Decimal, OneLine;
    OneLineDecimal(AdminPort(target));
    CommentPieces();
    HeaderPieces();
    OneLineJoin(NAMED, target.name);
    OneLineJoin(ADMIN, Decimal(AdminPort(target)));
    OneLineJoin(EMAIL, Trim(target.acmeEmail));
  }

  // ----- the routes that are written -----

  lemma {:induction false} FilterMember(s: seq<Route>, p: Route -> bool, r: Route)
    ensures r in Filter(s, p) <==> r in s && p(r)
  {
    if s != [] {
      FilterMember(s[1..], p, r);
      assert s == [s[0]] + s[1..];
    }
  }

  lemma {:induction false} FilterSorted(s: seq<Route>, p: Route -> bool)
    requires Sorted(s)
    ensures Sorted(Filter(s, p))
  {
    hide Precedes;
    if s != [] {
      FilterSorted(s[1..], p);
      var rest := Filter(s[1..], p);
      forall j | 0 <= j < |rest| ensures !Precedes(rest[j], s[0]) {
        FilterMember(s[1..], p, rest[j]);
        var k :| 0 <= k < |s| - 1 && s[1..][k] == rest[j];
        assert s[k + 1] == rest[j];
      }
    }
  }

  /** A route as it stands in the list: its domain trimmed, its path the result of normalising. */
  predicate InListForm(r: Route) {
    Trim(r.domain) == r.domain && NormalizePath(r.path) == Some(if r.path == "/" then "" else r.path)
    && (r.path == "" || r.path == "/" || |r.path| >= 2) && Utf8Len(r.path) == |r.path|
  }

  /** Listing keeps a route's validity, and a valid route is listed in its final form. */
  lemma ListedIsValid(s: Service, r: Route)
    ensures ValidRoute(Listed(s, r)) <==> ValidRoute(r)
    ensures ValidRoute(r) ==> InListForm(Listed(s, r))
  {
    hide ValidDomain, Trim, NormalizePath, Utf8Len;
    assert ValidDomain(Trim(r.domain)) == ValidDomain(r.domain) by { ValidTrimmed(r.domain); }
    if NormalizePath(r.path).Some? {
      NormalizeTwice(r.path);
      NormalizedShape(r.path);
      Utf8LenAscii(NormalizePath(r.path).value);
    }
    if ValidDomain(r.domain) {
      TrimmedDomain(r.domain);
    }
  }

  lemma ValidTrimmed(domain: string)
    ensures ValidDomain(Trim(domain)) <==> ValidDomain(domain)
  {
    hide Trim, ValidDomain, IsWhitespace;
    TrimIsIdentity(Trim(domain));
    TrimDecides(domain, Trim(domain));
  }

  lemma TrimDecides(a: string, b: string)
    requires Trim(a) == Trim(b)
    ensures ValidDomain(a) <==> ValidDomain(b)
  {
    hide Trim, Body, Utf8Len, Split, ValidLabel;
  }

  /** The written routes are exactly the valid routes of the services, in list form, in order. */
  lemma UsableRoutes(services: seq<Service>)
    ensures Sorted(Usable(services)) && DomainsTrimmed(Usable(services))
    ensures forall i :: 0 <= i < |Usable(services)| ==> InListForm(Usable(services)[i])
    ensures forall r :: r in Usable(services) <==>
              exists i, k :: 0 <= i < |services| && 0 <= k < |services[i].routes|
                             && ValidRoute(services[i].routes[k]) && r == Listed(services[i], services[i].routes[k])
  {
    hide Sort, Sorted, ValidRoute, Listed, Trim, NormalizePath, AllListed, Utf8Len;
    var p := (r: Route) => ValidRoute(r);
    var usable := Usable(services);
    SortSorts(AllListed(services));
    FilterSorted(RoutesOf(services), p);
    forall r ensures r in usable <==>
        exists i, k :: 0 <= i < |services| && 0 <= k < |services[i].routes|
                       && ValidRoute(services[i].routes[k]) && r == Listed(services[i], services[i].routes[k])
    {
      FilterMember(RoutesOf(services), p, r);
      ListedRoutes(services, r);
      forall i, k | 0 <= i < |services| && 0 <= k < |services[i].routes|
        ensures ValidRoute(Listed(services[i], services[i].routes[k])) <==> ValidRoute(services[i].routes[k])
      {
        ListedIsValid(services[i], services[i].routes[k]);
      }
    }
    forall j | 0 <= j < |usable| ensures InListForm(usable[j]) {
      assert usable[j] in usable;
      var i, k :| 0 <= i < |services| && 0 <= k < |services[i].routes|
                  && ValidRoute(services[i].routes[k]) && usable[j] == Listed(services[i], services[i].routes[k]);
      ListedIsValid(services[i], services[i].routes[k]);
    }
  }

  // ----- reading the text back -----

  lemma BodyIsOneLiners(services: seq<Service>)
    ensures OneLiners(BodyLines(services))
  {
    hide OneLiners, Trim, Sorted, InListForm, RoutesOf, Usable, Unusable, SkippedLines, Blocks;
    UsableRoutes(services);
    OneLineSkipped(Unusable(services));
    OneLineBlocks(Usable(services));
    ClosingLines();
    OneLinersAppend(SkippedLines(Unusable(services)), Blocks(Usable(services)));
    OneLinersAppend(SkippedLines(Unusable(services)) + Blocks(Usable(services)), ["}"]);
    OneLinersAppend(SkippedLines(Unusable(services)) + Blocks(Usable(services)), []);
  }

  lemma ClosingLines()
    ensures OneLiners(["", EMPTY]) && OneLiners(["}"]) && OneLiners([])
  {
    hide OneLine;
    CommentPieces();
    HeaderPieces();
  }

  lemma OneLineOptions(target: Target)
    requires OneLine(Trim(target.acmeEmail))
    ensures OneLiners(OptionLines(target))
  {
    hide Trim, Decimal, OneLine;
    OneLineDecimal(AdminPort(target));
    HeaderPieces();
    OneLineJoin(ADMIN, Decimal(AdminPort(target)));
    OneLineJoin(EMAIL, Trim(target.acmeEmail));
  }

  /** No value breaks out of its line when the name and the address are single lines. */
  lemma ConfigIsOneLiners(target: Target, services: seq<Service>)
    requires OneLine(target.name) && OneLine(Trim(target.acmeEmail))
    ensures OneLiners(ConfigLines(target, services))
  {
    hide OneLiners, Header, Trim, BodyLines;
    OneLineHeader(target);
    BodyIsOneLiners(services);
    OneLinersAppend(Header(target), BodyLines(services));
  }

  lemma ReadBody(c: Config, services: seq<Service>)
    requires c.sites == []
    ensures Steps(Some(Reader(Top, c)), BodyLines(services)) == Some(Reader(Top, c.(sites := Groups(Usable(services)))))
  {
    hide Step, Steps, Trim, Sorted, InListForm, SkippedLines, Blocks, RoutesOf, Usable, Unusable;
    var top := Some(Reader(Top, c));
    var usable, unusable := Usable(services), Unusable(services);
    if RoutesOf(services) == [] {
      CommentPieces();
      ReadComment(c, EMPTY);
      NothingUsable(services);
      assert c.(sites := []) == c;
    } else {
      ReadSkipped(c, unusable);
      UsableRoutes(services);
      ReadBlocks(c, usable);
      StepsAppend(top, SkippedLines(unusable), Blocks(usable));
      StepsAppend(top, SkippedLines(unusable) + Blocks(usable), if usable == [] then [] else ["}"]);
      var done := c.(sites := Groups(usable));
      if usable == [] {
        StepsNone(Some(Reader(Top, done)));
      } else {
        StepsOne(Reader(InSite, done), "}");
        ReadClose(done);
      }
    }
  }

  lemma ReadClose(c: Config)
    ensures Step(Reader(InSite, c), "}") == Some(Reader(Top, c))
  {
    ReadEnd(c);
  }

  lemma NothingUsable(services: seq<Service>)
    requires RoutesOf(services) == []
    ensures Usable(services) == []
  {
    hide RoutesOf;
  }

  lemma {:induction false} UnlinesAppend(a: seq<string>, b: seq<string>)
    ensures Unlines(a + b) == Unlines(a) + Unlines(b)
  {
    if b == [] {
      assert a + b == a && Unlines(a) + "" == Unlines(a);
    } else {
      assert (a + b)[..|a + b| - 1] == a + b[..|b| - 1];
      UnlinesAppend(a, b[..|b| - 1]);
    }
  }

  // ----- names and addresses of several lines -----

  /** The lines of a name after its first stand in the config as they are. */
  function Continuation(name: string): seq<string> { Split(name, '\n')[1..] }

  predicate CommentsOnly(name: string) {
    forall i :: 0 <= i < |Continuation(name)| ==> Ignored(Continuation(name)[i])
  }

  lemma {:induction false} SplitJoin(a: string, b: string)
    ensures Split(a + ['\n'] + b, '\n') == Split(a, '\n') + Split(b, '\n')
    decreases |a|
  {
    hide IndexOf, Split;
    if '\n' in a {
      var i := IndexOf(a, '\n');
      var first, rest := a[..i], a[i + 1..];
      SplitJoin(rest, b);
      assert a == first + ['\n'] + rest;
      assert a + ['\n'] + b == first + ['\n'] + (rest + ['\n'] + b);
      SplitCons(first, '\n', rest + ['\n'] + b);
      SplitCons(first, '\n', rest);
    } else {
      SplitNothing(a);
      SplitCons(a, '\n', b);
    }
  }

  lemma SplitPrefix(prefix: string, name: string)
    requires OneLine(prefix)
    ensures Split(prefix + name, '\n') == [prefix + Split(name, '\n')[0]] + Continuation(name)
  {
    hide IndexOf, Split;
    if '\n' !in name {
      SplitNothing(prefix + name);
      SplitNothing(name);
    } else {
      var i := IndexOf(name, '\n');
      var rest := name[i + 1..];
      assert name == name[..i] + ['\n'] + rest;
      SplitCons(name[..i], '\n', rest);
      assert prefix + name == (prefix + name[..i]) + ['\n'] + rest;
      SplitCons(prefix + name[..i], '\n', rest);
    }
  }

  lemma SplitNothing(s: string)
    requires '\n' !in s
    ensures Split(s, '\n') == [s]
  {
  }

  function AfterHead(target: Target, services: seq<Service>): seq<string> { OptionLines(target) + BodyLines(services) }

  /** The lines a reader of the text sees. */
  lemma LinesOfConfig(target: Target, services: seq<Service>)
    ensures Split(Unlines(ConfigLines(target, services)), '\n') ==
            [BANNER, BANNER_END, NAMED + Split(target.name, '\n')[0]] + Continuation(target.name)
            + Split(Unlines(AfterHead(target, services)), '\n')
  {
    hide Unlines, Split, OptionLines, BodyLines, Header, OneLine, Continuation;
    HeaderParts(target);
    var title := [BANNER, BANNER_END];
    var after := AfterHead(target, services);
    assert ConfigLines(target, services) == title + [NAMED + target.name] + after;
    UnlinesAppend(title + [NAMED + target.name], after);
    Push(title, NAMED + target.name);
    var rest := (NAMED + target.name) + ['\n'] + Unlines(after);
    assert Unlines(ConfigLines(target, services)) == Unlines(title) + rest;
    CommentPieces();
    HeaderPieces();
    SplitUnlines(title, rest);
    SplitJoin(NAMED + target.name, Unlines(after));
    SplitPrefix(NAMED, target.name);
  }

  /** Reading starts with the comments; what comes of the rest depends on the lines the name adds. */
  lemma ReadHead(target: Target, services: seq<Service>)
    ensures Steps(Some(NOTHING_READ), Split(Unlines(ConfigLines(target, services)), '\n')) ==
            Steps(Steps(Some(NOTHING_READ), Continuation(target.name)),
                Split(Unlines(AfterHead(target, services)), '\n'))
  {
    hide Unlines, Split, ConfigLines, AfterHead, Continuation, Step, Steps;
    LinesOfConfig(target, services);
    var front := [BANNER, BANNER_END, NAMED + Split(target.name, '\n')[0]];
    var after := Split(Unlines(AfterHead(target, services)), '\n');
    StepsAppend(Some(NOTHING_READ), front + Continuation(target.name), after);
    StepsAppend(Some(NOTHING_READ), front, Continuation(target.name));
    CommentPieces();
    assert front[2][0] == NAMED[0] == '#';
    ReadIgnored(NOTHING_READ.config, front);
  }

  /** Given an address of one line, what follows the comments reads as the options and the sites. */
  lemma ReadAfterHead(target: Target, services: seq<Service>)
    requires OneLine(Trim(target.acmeEmail)) && target.adminPort < U32_BOUND
    ensures Steps(Some(NOTHING_READ), Split(Unlines(AfterHead(target, services)), '\n')) ==
            Some(Reader(Top, Config(Some(AdminPort(target)), Trim(target.acmeEmail), Groups(Usable(services)))))
  {
    hide Unlines, Split, OptionLines, BodyLines, OneLine, Step, Steps, Trim, Usable, Groups;
    var lines := AfterHead(target, services);
    OneLineOptions(target);
    BodyIsOneLiners(services);
    OneLinersAppend(OptionLines(target), BodyLines(services));
    SplitUnlines(lines, "");
    assert Unlines(lines) + "" == Unlines(lines);
    SplitNothing("");
    StepsAppend(Some(NOTHING_READ), lines, [""]);
    ReadOptions(target);
    StepsAppend(Some(NOTHING_READ), OptionLines(target), BodyLines(services));
    var c := Config(Some(AdminPort(target)), Trim(target.acmeEmail), []);
    ReadBody(c, services);
    var done := c.(sites := Groups(Usable(services)));
    StepsOne(Reader(Top, done), "");
    ReadBlankLine(done);
  }

  predicate Started(r: Option<Reader>) { r.Some? ==> r.value.mode != Start }

  lemma {:induction false} StaysStarted(r: Option<Reader>, lines: seq<string>)
    requires Started(r)
    ensures Started(Steps(r, lines))
    decreases |lines|
  {
    hide ReadStart, ReadGlobal, ReadSite, ReadHandler, ReadTop;
    if lines != [] && r.Some? {
      StepStaysStarted(r.value, lines[0]);
      StaysStarted(Step(r.value, lines[0]), lines[1..]);
    }
  }

  lemma StepStaysStarted(r: Reader, line: string)
    requires r.mode != Start
    ensures Started(Step(r, line))
  {
    hide After, UpTo, ReadUpstream, ParseUnsigned, Ignored;
  }

  lemma {:induction false} OtherLinesStart(c: Config, lines: seq<string>)
    requires exists i :: 0 <= i < |lines| && !Ignored(lines[i])
    ensures Started(Steps(Some(Reader(Start, c)), lines))
    decreases |lines|
  {
    hide Ignored;
    if Ignored(lines[0]) {
      assert Step(Reader(Start, c), lines[0]) == Some(Reader(Start, c));
      var i :| 0 <= i < |lines| && !Ignored(lines[i]);
      assert lines[1..][i - 1] == lines[i];
      OtherLinesStart(c, lines[1..]);
    } else {
      StaysStarted(Step(Reader(Start, c), lines[0]), lines[1..]);
    }
  }

  /** The options are not accepted a second time. */
  lemma NoSecondOptions(r: Option<Reader>, target: Target, services: seq<Service>)
    requires Started(r)
    ensures Steps(r, Split(Unlines(AfterHead(target, services)), '\n')) == None
  {
    hide Unlines, Split, BodyLines, OneLine, Step, Steps, Trim, Decimal;
    var lines := AfterHead(target, services);
    var open, rest := ["", "{"], lines[2..];
    assert lines == open + rest;
    UnlinesAppend(open, rest);
    HeaderPieces();
    SplitUnlines(open, Unlines(rest));
    StepsAppend(r, open, Split(Unlines(rest), '\n'));
    if r.Some? {
      StepsTwo(r.value, "", "{");
      NoBraceOnceStarted(r.value);
    }
    StepsNoMore(open);
    StepsNoMore(Split(Unlines(rest), '\n'));
  }

  lemma NoBraceOnceStarted(r: Reader)
    requires r.mode != Start
    ensures Steps(Step(r, ""), ["{"]) == None
  {
    assert ADMIN[0] == '\t' && EMAIL[0] == '\t' && NOTE[0] == '\t' && PATH[0] == '\t' && ROOT[0] == '\t'
        && PROXY[0] == '\t';
    if r.mode == Top {
      StepsOne(r, "{");
    } else {
      assert Step(r, "").None?;
    }
  }

  lemma StepsNoMore(lines: seq<string>)
    ensures Steps(None, lines) == None
  {
  }

  lemma {:induction false} EmailStaysOneLine(r: Option<Reader>, lines: seq<string>)
    requires forall line :: line in lines ==> OneLine(line)
    requires r.Some? ==> OneLine(r.value.config.email)
    ensures var t := Steps(r, lines); t.Some? ==> OneLine(t.value.config.email)
    decreases |lines|
  {
    hide OneLine, Step;
    if lines != [] && r.Some? {
      StepKeepsEmail(r.value, lines[0]);
      EmailStaysOneLine(Step(r.value, lines[0]), lines[1..]);
    }
  }

  lemma StepKeepsEmail(r: Reader, line: string)
    requires OneLine(line) && OneLine(r.config.email)
    ensures var t := Step(r, line); t.Some? ==> OneLine(t.value.config.email)
  {
    hide UpTo, ReadUpstream, ParseUnsigned, AddHandler, Ignored;
  }

  /** Reading a rendered config gives exactly the admin port, the address and the sites of the valid
      routes, whatever the service names are and whatever invalid routes there are, exactly when the
      address is one line and every further line of the target's name is blank or a comment. In
      particular always when both are single lines. */
  lemma ReadsBack(target: Target, services: seq<Service>)
    requires target.adminPort < U32_BOUND
    ensures Read(Unlines(ConfigLines(target, services))) ==
            Some(Config(Some(AdminPort(target)), Trim(target.acmeEmail), Groups(Usable(services)))) <==>
            OneLine(Trim(target.acmeEmail)) && CommentsOnly(target.name)
    ensures OneLine(target.name) ==> CommentsOnly(target.name)
  {
    hide Unlines, ConfigLines, AfterHead, Step, Steps, OneLine, Continuation, Trim, Usable, Groups, Ignored;
    var text := Unlines(ConfigLines(target, services));
    ReadHead(target, services);
    SingleLineHasNoMore(target.name);
    if CommentsOnly(target.name) {
      ReadIgnored(NOTHING_READ.config, Continuation(target.name));
      if OneLine(Trim(target.acmeEmail)) {
        ReadAfterHead(target, services);
      }
    } else {
      OtherLinesStart(NOTHING_READ.config, Continuation(target.name));
      NoSecondOptions(Steps(Some(NOTHING_READ), Continuation(target.name)), target, services);
    }
    assert OneLine(NOTHING_READ.config.email) by { HeaderPieces(); }
    PiecesAreOneLine(text);
    EmailStaysOneLine(Some(NOTHING_READ), Split(text, '\n'));
  }

  lemma PiecesAreOneLine(text: string)
    ensures forall line :: line in Split(text, '\n') ==> OneLine(line)
  {
  }

  lemma SingleLineHasNoMore(name: string)
    ensures OneLine(name) ==> CommentsOnly(name)
  {
    if OneLine(name) {
      SplitNothing(name);
    }
  }

  // ----- one site per domain -----

  function Tag(domain: string, handlers: seq<Handler>): seq<(string, Handler)> {
    if handlers == [] then []
    else Tag(domain, handlers[..|handlers| - 1]) + [(domain, handlers[|handlers| - 1])]
  }

  function Flatten(sites: seq<Site>): seq<(string, Handler)> {
    if sites == [] then []
    else
      var last := sites[|sites| - 1];
      Flatten(sites[..|sites| - 1]) + Tag(last.domain, last.handlers)
  }

  lemma LastSite(routes: seq<Route>)
    requires AllValid(routes) && routes != []
    ensures var g := Groups(routes);
            && g != [] && g[|g| - 1].domain == routes[|routes| - 1].domain
            && g[|g| - 1].handlers != []
            && g[|g| - 1].handlers[|g[|g| - 1].handlers| - 1] == HandlerOf(routes[|routes| - 1])
  {
    hide ValidRoute, HandlerOf;
    if |routes| > 1 {
      LastSite(routes[..|routes| - 1]);
    }
  }

  lemma FlattenSnoc(sites: seq<Site>, site: Site)
    ensures Flatten(sites + [site]) == Flatten(sites) + Tag(site.domain, site.handlers)
  {
    hide Tag;
    assert (sites + [site])[..|sites|] == sites;
  }

  lemma TagSnoc(domain: string, handlers: seq<Handler>, h: Handler)
    ensures Tag(domain, handlers + [h]) == Tag(domain, handlers) + [(domain, h)]
  {
    assert (handlers + [h])[..|handlers|] == handlers;
  }

  lemma FlattenLonger(front: seq<Site>, last: Site, h: Handler)
    ensures Flatten(front + [Site(last.domain, last.handlers + [h])]) ==
            Flatten(front + [last]) + [(last.domain, h)]
  {
    hide Flatten, Tag;
    TagSnoc(last.domain, last.handlers, h);
    FlattenSnoc(front, Site(last.domain, last.handlers + [h]));
    FlattenSnoc(front, last);
    JoinedInTurn(Flatten(front), Tag(last.domain, last.handlers), [(last.domain, h)]);
  }

  lemma FlattenAdd(sites: seq<Site>, h: Handler)
    requires sites != []
    ensures Flatten(AddHandler(sites, h)) == Flatten(sites) + [(sites[|sites| - 1].domain, h)]
  {
    hide Flatten;
    FlattenLonger(sites[..|sites| - 1], sites[|sites| - 1], h);
    LastApart(sites);
  }

  /** What is written, route by route. */
  function Written(routes: seq<Route>): seq<(string, Handler)>
    requires AllValid(routes)
  {
    seq(|routes|, i requires 0 <= i < |routes| => (routes[i].domain, HandlerOf(routes[i])))
  }

  /** The sites, taken apart, are the written routes in order: nothing is lost, added or moved. */
  lemma {:induction false} FlattenGroups(routes: seq<Route>)
    requires AllValid(routes)
    ensures Flatten(Groups(routes)) == Written(routes)
  {
    hide ValidRoute, HandlerOf, AddHandler, Tag, Flatten;
    if routes == [] {
      FlattenNone();
    } else {
      var front, r := routes[..|routes| - 1], routes[|routes| - 1];
      var sites := Groups(front);
      FlattenGroups(front);
      assert Written(routes) == Written(front) + [(r.domain, HandlerOf(r))];
      if front != [] && front[|front| - 1].domain == r.domain {
        LastSite(front);
        FlattenAdd(sites, HandlerOf(r));
      } else {
        FlattenSnoc(sites, Site(r.domain, [HandlerOf(r)]));
        TagSnoc(r.domain, [], HandlerOf(r));
        assert [] + [HandlerOf(r)] == [HandlerOf(r)];
        FlattenNone();
        assert Tag(r.domain, []) + [(r.domain, HandlerOf(r))] == [(r.domain, HandlerOf(r))] by { TagNone(r.domain); }
      }
    }
  }

  lemma FlattenNone()
    ensures Flatten([]) == []
  {
  }

  lemma TagNone(domain: string)
    ensures Tag(domain, []) == []
  {
  }

  predicate Increasing(sites: seq<Site>) {
    forall i, j :: 0 <= i < j < |sites| ==> Before(sites[i].domain, sites[j].domain)
  }

  /** Every domain opens one block, and the blocks are in order. */
  lemma {:induction false} OneBlockPerDomain(routes: seq<Route>)
    requires AllValid(routes) && Sorted(routes)
    ensures Increasing(Groups(routes))
    ensures forall i, j :: 0 <= i < j < |Groups(routes)| ==> Groups(routes)[i].domain != Groups(routes)[j].domain
  {
    hide ValidRoute, HandlerOf, Before, AddHandler;
    if routes != [] {
      var front, r := routes[..|routes| - 1], routes[|routes| - 1];
      var sites := Groups(front);
      OneBlockPerDomain(front);
      if front != [] {
        LastSite(front);
        var d := front[|front| - 1].domain;
        assert !Precedes(routes[|routes| - 1], routes[|routes| - 2]);
        BeforeTotal(d, r.domain);
        if d == r.domain {
          SameDomains(sites, HandlerOf(r));
        } else {
          forall i | 0 <= i < |sites| ensures Before(sites[i].domain, r.domain) {
            if i < |sites| - 1 {
              BeforeTransitive(sites[i].domain, d, r.domain);
            }
          }
        }
      }
    }
    forall i, j | 0 <= i < j < |Groups(routes)| ensures Groups(routes)[i].domain != Groups(routes)[j].domain {
      BeforeTotal(Groups(routes)[i].domain, Groups(routes)[j].domain);
    }
  }

  lemma SameDomains(sites: seq<Site>, h: Handler)
    ensures |AddHandler(sites, h)| == |sites|
    ensures forall i :: 0 <= i < |sites| ==> AddHandler(sites, h)[i].domain == sites[i].domain
  {
  }

  // ----- the first match -----

  /** How a request path is matched: a handler with a path takes what lies below it, one without takes
      everything. */
  predicate Matches(h: Handler, query: string) { h.path == "" || h.path + "/" <= query }

  function FirstMatch(handlers: seq<Handler>, query: string): Option<Handler> {
    if handlers == [] then None
    else if Matches(handlers[0], query) then Some(handlers[0])
    else FirstMatch(handlers[1..], query)
  }

  function Answer(sites: seq<Site>, host: string, query: string): Option<Handler> {
    if sites == [] then None
    else if sites[0].domain == host then FirstMatch(sites[0].handlers, query)
    else Answer(sites[1..], host, query)
  }

  predicate LongestFirst(handlers: seq<Handler>) {
    forall i, j :: 0 <= i < j < |handlers| ==> |handlers[i].path| >= |handlers[j].path|
  }

  lemma LongerComesFirst(a: Route, b: Route)
    requires InListForm(a) && InListForm(b) && a.domain == b.domain && !Precedes(b, a)
    requires ValidRoute(a) && ValidRoute(b)
    ensures |HandlerOf(a).path| >= |HandlerOf(b).path|
  {
    hide Trim, NormalizePath, Before, Utf8Len, ValidDomain;
  }

  lemma {:induction false} GroupsLongestFirst(routes: seq<Route>)
    requires AllValid(routes) && Sorted(routes) && forall i :: 0 <= i < |routes| ==> InListForm(routes[i])
    ensures forall s :: 0 <= s < |Groups(routes)| ==> LongestFirst(Groups(routes)[s].handlers)
  {
    hide ValidRoute, HandlerOf, Precedes, InListForm;
    if routes != [] {
      var front, r := routes[..|routes| - 1], routes[|routes| - 1];
      GroupsLongestFirst(front);
      if front != [] && front[|front| - 1].domain == r.domain {
        LastSite(front);
        LongerComesFirst(front[|front| - 1], r);
      }
    }
  }

  lemma {:induction false} FirstMatchIsLongest(handlers: seq<Handler>, query: string)
    requires LongestFirst(handlers)
    ensures match FirstMatch(handlers, query)
            case None => forall h :: h in handlers ==> !Matches(h, query)
            case Some(first) =>
              && first in handlers && Matches(first, query)
              && forall h :: h in handlers && Matches(h, query) ==>
                   |h.path| <= |first.path| && (|h.path| == |first.path| ==> h.path == first.path)
  {
    if handlers != [] {
      assert handlers == [handlers[0]] + handlers[1..];
      if Matches(handlers[0], query) {
        var first := handlers[0];
        forall h | h in handlers && Matches(h, query) && |h.path| == |first.path| ensures h.path == first.path {
          assert h.path == query[..|h.path|] || h.path == "";
        }
      } else {
        FirstMatchIsLongest(handlers[1..], query);
      }
    }
  }

  lemma {:induction false} TagMember(domain: string, handlers: seq<Handler>, e: (string, Handler))
    ensures e in Tag(domain, handlers) <==> e.0 == domain && e.1 in handlers
  {
    if handlers != [] {
      TagMember(domain, handlers[..|handlers| - 1], e);
      assert handlers == handlers[..|handlers| - 1] + [handlers[|handlers| - 1]];
    }
  }

  lemma {:induction false} FlattenMember(sites: seq<Site>, e: (string, Handler))
    ensures e in Flatten(sites) <==> exists s :: 0 <= s < |sites| && sites[s].domain == e.0 && e.1 in sites[s].handlers
  {
    if sites != [] {
      FlattenMember(sites[..|sites| - 1], e);
      TagMember(sites[|sites| - 1].domain, sites[|sites| - 1].handlers, e);
    }
  }

  lemma {:induction false} AnswerOf(sites: seq<Site>, host: string, query: string)
    requires forall i, j :: 0 <= i < j < |sites| ==> sites[i].domain != sites[j].domain
    ensures forall s :: 0 <= s < |sites| && sites[s].domain == host ==>
              Answer(sites, host, query) == FirstMatch(sites[s].handlers, query)
    ensures (forall s :: 0 <= s < |sites| ==> sites[s].domain != host) ==> Answer(sites, host, query) == None
  {
    hide FirstMatch;
    if sites != [] {
      AnswerOf(sites[1..], host, query);
      forall s | 0 < s < |sites| && sites[s].domain == host
        ensures Answer(sites, host, query) == FirstMatch(sites[s].handlers, query)
      {
        assert sites[1..][s - 1] == sites[s];
      }
    }
  }

  // ----- the whole config -----

  /** The handler a valid route is served by: what its path says once it is written, a bare "/" being
      the whole domain. */
  function Served(r: Route): Handler
    requires ValidRoute(r)
  {
    var path := NormalizePath(r.path).value;
    Handler(if path == "/" then "" else path, r.protocol == H2C, r.port)
  }

  lemma ServedAsListed(s: Service, r: Route)
    requires ValidRoute(r)
    ensures ValidRoute(Listed(s, r)) && HandlerOf(Listed(s, r)) == Served(r) && Listed(s, r).domain == Trim(r.domain)
  {
    hide ValidDomain, Trim, NormalizePath, Utf8Len, InListForm;
    ListedIsValid(s, r);
    NormalizeTwice(r.path);
  }

  /** A valid route of some service on this host, and how it is served. */
  ghost predicate Offers(services: seq<Service>, host: string, h: Handler) {
    exists i, k :: 0 <= i < |services| && 0 <= k < |services[i].routes| && ValidRoute(services[i].routes[k])
                   && Trim(services[i].routes[k].domain) == host && h == Served(services[i].routes[k])
  }

  /** The sites hold exactly what the services offer. */
  lemma SitesOffer(services: seq<Service>, host: string, h: Handler)
    ensures Offers(services, host, h) <==>
            exists s :: 0 <= s < |Groups(Usable(services))|
                        && Groups(Usable(services))[s].domain == host && h in Groups(Usable(services))[s].handlers
  {
    hide ValidRoute, Served, Listed, Trim, HandlerOf, Usable, Groups, Sorted, InListForm, Flatten, DomainsTrimmed;
    var usable := Usable(services);
    UsableRoutes(services);
    FlattenGroups(usable);
    FlattenMember(Groups(usable), (host, h));
    forall i, k | 0 <= i < |services| && 0 <= k < |services[i].routes| && ValidRoute(services[i].routes[k])
      ensures ValidRoute(Listed(services[i], services[i].routes[k]))
      ensures HandlerOf(Listed(services[i], services[i].routes[k])) == Served(services[i].routes[k])
      ensures Listed(services[i], services[i].routes[k]).domain == Trim(services[i].routes[k].domain)
    {
      ServedAsListed(services[i], services[i].routes[k]);
    }
    if Offers(services, host, h) {
      var i, k :| 0 <= i < |services| && 0 <= k < |services[i].routes| && ValidRoute(services[i].routes[k])
                  && Trim(services[i].routes[k].domain) == host && h == Served(services[i].routes[k]);
      var listed := Listed(services[i], services[i].routes[k]);
      assert listed in usable;
      var n :| 0 <= n < |usable| && usable[n] == listed;
      assert Written(usable)[n] == (host, h);
    }
    if (host, h) in Written(usable) {
      var n :| 0 <= n < |usable| && Written(usable)[n] == (host, h);
      assert usable[n] in usable;
    }
  }

  /** Whatever the services are, a request to the rendered config is answered by a valid route on that
      host whose path is the longest of all that match, and by none only when none matches. */
  lemma LongestPathWins(services: seq<Service>, host: string, query: string)
    ensures match Answer(Groups(Usable(services)), host, query)
            case None => forall h :: Offers(services, host, h) ==> !Matches(h, query)
            case Some(first) =>
              && Offers(services, host, first) && Matches(first, query)
              && forall h :: Offers(services, host, h) && Matches(h, query) ==>
                   |h.path| <= |first.path| && (|h.path| == |first.path| ==> h.path == first.path)
  {
    hide Usable, Groups, Sorted, InListForm, Matches, Offers, FirstMatch, LongestFirst, Increasing, DomainsTrimmed;
    var usable := Usable(services);
    var sites := Groups(usable);
    UsableRoutes(services);
    OneBlockPerDomain(usable);
    GroupsLongestFirst(usable);
    AnswerOf(sites, host, query);
    forall h ensures Offers(services, host, h) <==>
                     exists s :: 0 <= s < |sites| && sites[s].domain == host && h in sites[s].handlers {
      SitesOffer(services, host, h);
    }
    if s :| 0 <= s < |sites| && sites[s].domain == host {
      FirstMatchIsLongest(sites[s].handlers, query);
    }
  }

  // ----- wildcards -----

  /** The wildcard domain one level up, if the host has one. */
  function WildcardOf(host: string): Option<string> {
    match SplitOnce(host, '.')
    case Some((_, parent)) => Some("*." + parent)
    case None => None
  }

  predicate HasSite(sites: seq<Site>, domain: string) { exists s :: 0 <= s < |sites| && sites[s].domain == domain }

  /** The domain whose block answers for a host: its own, or the wildcard one level up. */
  function Answering(sites: seq<Site>, host: string): string {
    if !HasSite(sites, host) && WildcardOf(host).Some? && HasSite(sites, WildcardOf(host).value)
    then WildcardOf(host).value else host
  }

  /** Some service has a valid route for exactly this domain. */
  ghost predicate Serves(services: seq<Service>, domain: string) { exists h :: Offers(services, domain, h) }

  /** A host is answered by the routes of its own domain if there is one, and otherwise by those of the
      wildcard one level up: always by the one with the longest path that matches. */
  lemma HostIsAnswered(services: seq<Service>, host: string, query: string)
    ensures var domain := if Serves(services, host) || WildcardOf(host).None? then host else WildcardOf(host).value;
            match Answer(Groups(Usable(services)), Answering(Groups(Usable(services)), host), query)
            case None => forall h :: Offers(services, domain, h) ==> !Matches(h, query)
            case Some(first) =>
              && Offers(services, domain, first) && Matches(first, query)
              && forall h :: Offers(services, domain, h) && Matches(h, query) ==> |h.path| <= |first.path|
  {
    hide Usable, Groups, Matches, Offers, Answer, HasSite;
    var sites := Groups(Usable(services));
    SiteIsServed(services, host);
    LongestPathWins(services, host, query);
    if WildcardOf(host).Some? {
      SiteIsServed(services, WildcardOf(host).value);
      LongestPathWins(services, WildcardOf(host).value, query);
    }
  }

  lemma SiteIsServed(services: seq<Service>, domain: string)
    ensures HasSite(Groups(Usable(services)), domain) <==> Serves(services, domain)
  {
    hide Usable, Groups, Offers;
    var sites := Groups(Usable(services));
    if s :| 0 <= s < |sites| && sites[s].domain == domain {
      NoEmptySite(Usable(services), s);
      var h := sites[s].handlers[0];
      SitesOffer(services, domain, h);
      assert h in sites[s].handlers;
    }
    if h :| Offers(services, domain, h) {
      SitesOffer(services, domain, h);
    }
  }

  lemma {:induction false} NoEmptySite(routes: seq<Route>, s: nat)
    requires AllValid(routes) && s < |Groups(routes)|
    ensures Groups(routes)[s].handlers != []
  {
    hide ValidRoute, HandlerOf;
    var front := routes[..|routes| - 1];
    if s < |Groups(front)| {
      NoEmptySite(front, s);
    }
  }

  /** Rearranging the services, or the routes within one, leaves the config byte for byte the same when
      no two different listed routes share a domain and a path. */
  lemma SameRoutesSameConfig(target: Target, a: seq<Service>, b: seq<Service>)
    requires multiset(AllListed(a)) == multiset(AllListed(b)) && KeysDecide(AllListed(a))
    ensures Unlines(ConfigLines(target, a)) == Unlines(ConfigLines(target, b))
  {
    hide AllListed, KeysDecide, Sort, Header, Blocks, SkippedLines, Filter;
    OrderIndependence(AllListed(a));
    assert Sort(AllListed(b)) == Sort(AllListed(a));
  }

  // ----- the lines as they are written -----

  lemma NothingToFlatten(value: string)
    requires forall i :: 0 <= i < |value| ==> !IsControl(value[i])
    ensures seq(|value|, i requires 0 <= i < |value| => if IsControl(value[i]) then ' ' else value[i]) == value
  {
  }

  /** A name without control characters and outer whitespace is written into its comment as it is. */
  lemma CommentKeepsNames(value: string)
    requires forall i :: 0 <= i < |value| ==> !IsControl(value[i])
    requires value == "" || (!IsWhitespace(value[0]) && !IsWhitespace(value[|value| - 1]))
    ensures CommentSafe(value) == value
  {
    NothingToFlatten(value);
    TrimIsIdentity(value);
  }

  /** A control character inside becomes a blank. */
  lemma CommentFlattens(before: string, c: char, after: string)
    requires forall i :: 0 <= i < |before| ==> !IsControl(before[i])
    requires forall i :: 0 <= i < |after| ==> !IsControl(after[i])
    requires before != "" && after != "" && !IsWhitespace(before[0]) && !IsWhitespace(after[|after| - 1])
    requires IsControl(c)
    ensures CommentSafe(before + [c] + after) == before + " " + after
  {
    var value, flat := before + [c] + after, before + " " + after;
    assert seq(|value|, i requires 0 <= i < |value| => if IsControl(value[i]) then ' ' else value[i]) == flat;
    hide IsControl, IsWhitespace;
    assert flat[0] == before[0] && flat[|flat| - 1] == after[|after| - 1];
    TrimIsIdentity(flat);
  }

  /** The lines of a route, spelled out: protocol 1 is the one that keeps HTTP/2 in the clear. */
  lemma RouteSpelled(r: Route, path: string)
    requires ValidRoute(r) && NormalizePath(r.path) == Some(path)
    ensures RouteLines(r) == [
              "\t# " + CommentSafe(r.serviceName) + " -> :" + Decimal(r.port),
              if path == "" then "\thandle {" else "\thandle_path " + path + "/* {",
              "\t\treverse_proxy " + ((if r.protocol == 1 then "h2c://" else "") + "127.0.0.1:" + Decimal(r.port)),
              "\t}"]
  {
    hide CommentSafe, Decimal, ValidDomain, NormalizePath;
  }

  lemma {:induction false} SkippedLineIsWritten(routes: seq<Route>, k: nat)
    requires k < |routes|
    ensures SkippedLine(routes[k]) in SkippedLines(routes)
  {
    hide SkippedLine;
    if k < |routes| - 1 {
      SkippedLineIsWritten(routes[..|routes| - 1], k);
    } else {
      assert ["", SkippedLine(routes[k])][1] == SkippedLine(routes[k]);
    }
  }

  lemma SkippedSpelled(r: Route)
    ensures SkippedLine(r) ==
            "# skipped " + CommentSafe(r.serviceName) + ": its domain, path or port is not one nudo will write"
  {
    hide CommentSafe;
  }

  /** Every invalid route is named, with its service, in a comment. */
  lemma InvalidIsNamed(target: Target, services: seq<Service>, i: nat, k: nat)
    requires i < |services| && k < |services[i].routes| && !ValidRoute(services[i].routes[k])
    ensures ("# skipped " + CommentSafe(services[i].name) + ": its domain, path or port is not one nudo will write")
            in ConfigLines(target, services)
  {
    hide CommentSafe, SkippedLine, SkippedLines, Header, Blocks, ValidRoute, Trim, NormalizePath, RoutesOf, Usable,
        AllListed;
    var listed := Listed(services[i], services[i].routes[k]);
    ListedIsValid(services[i], services[i].routes[k]);
    ListedRoutes(services, listed);
    FilterMember(RoutesOf(services), r => !ValidRoute(r), listed);
    var unusable := Unusable(services);
    assert listed in unusable;
    var n :| 0 <= n < |unusable| && unusable[n] == listed;
    SkippedLineIsWritten(unusable, n);
    SkippedSpelled(listed);
    assert RoutesOf(services) != [];
    assert SkippedLine(listed) in BodyLines(services);
  }

  lemma DefaultPortSpelled()
    ensures Decimal(2019) == "2019"
  {
    assert Decimal(2) == "2" && Decimal(20) == "20" && Decimal(201) == "201";
  }

  /** The admin line: the default port when none is set, and otherwise the port that is. */
  lemma AdminSpelled(target: Target)
    ensures (if target.adminPort == 0 then "\tadmin 127.0.0.1:2019"
             else "\tadmin 127.0.0.1:" + Decimal(target.adminPort)) in Header(target)
  {
    DefaultPortSpelled();
    hide Decimal, Trim;
    assert Header(target)[5] == ADMIN + Decimal(AdminPort(target));
    assert "\tadmin 127.0.0.1:" + "2019" == "\tadmin 127.0.0.1:2019";
  }

  /** And so it is read back. */
  lemma AdminIsRead(target: Target, services: seq<Service>)
    requires target.adminPort < U32_BOUND && OneLine(Trim(target.acmeEmail)) && CommentsOnly(target.name)
    ensures var config := Read(Unlines(ConfigLines(target, services)));
            config.Some? && config.value.admin == Some(if target.adminPort == 0 then 2019 else target.adminPort)
  {
    hide Read, Unlines, ConfigLines, Usable, Groups, Trim, CommentsOnly;
    ReadsBack(target, services);
  }

  /** From the command line to the proxy: a route typed with this domain, path and port, with slashes behind
      the path or not, and listed for some service, is offered on that domain under exactly that path, over
      HTTP/2 in the clear exactly when it was given as gRPC. */
  lemma TypedRouteIsOffered(services: seq<Service>, i: nat, k: nat, domain: string, path: string, tail: string,
      port: nat, grpc: bool)
    requires ValidDomain(domain) && Trim(domain) == domain && ValidPort(port) && Canonical(path) && AllSlashes(tail)
    requires i < |services| && k < |services[i].routes|
    requires ParseRoute(domain + (path + tail) + PortText(port), grpc) == Some(services[i].routes[k])
    ensures Offers(services, domain, Handler(path, grpc, port))
  {
    hide ParseRoute, ValidDomain, Trim, NormalizePath, WritablePath, Decimal, PortText;
    TypedPathIsKept(domain, path, tail, port, grpc);
    var r := services[i].routes[k];
    assert ValidRoute(r) && Served(r) == Handler(path, grpc, port);
  }
}
