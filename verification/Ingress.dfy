/** Rendering a target's proxy config. */
module Ingress {
  import opened Wrappers
  import opened Text
  import opened Routes
  import opened RouteOrder

  datatype Target = Target(name: string, adminPort: nat, acmeEmail: string)

  const DEFAULT_ADMIN_PORT: nat := 2019

  const H2C: int := 1

  const BANNER: string := "# Managed by nudo. Changes here are overwritten on the next"
  const BANNER_END: string := "# deploy or reload — edit the service's domain in nudo instead."
  const NAMED: string := "# target: "
  const ADMIN: string := "\tadmin 127.0.0.1:"
  const EMAIL: string := "\temail "
  const EMPTY: string := "# No services on this target have a domain yet."
  const SKIPPED: string := "# skipped "
  const REASON: string := ": its domain, path or port is not one nudo will write"
  const OPENS: string := " {"
  const NOTE: string := "\t# "
  const ARROW: string := " -> :"
  const PATH: string := "\thandle_path "
  const PATH_OPENS: string := "/* {"
  const ROOT: string := "\thandle {"
  const PROXY: string := "\t\treverse_proxy "
  const H2C_SCHEME: string := "h2c://"
  const LOOPBACK: string := "127.0.0.1:"
  const HANDLED: string := "\t}"

  function AdminPort(target: Target): nat {
    if target.adminPort == 0 then DEFAULT_ADMIN_PORT else target.adminPort
  }

  /** A value flattened onto one comment line. */
  function CommentSafe(value: string): string {
    Trim(seq(|value|, i requires 0 <= i < |value| => if IsControl(value[i]) then ' ' else value[i]))
  }

  predicate OneLine(s: string) { '\n' !in s }

  lemma CommentSafeIsOneLine(value: string)
    ensures OneLine(CommentSafe(value))
  {
    var flat := seq(|value|, i requires 0 <= i < |value| => if IsControl(value[i]) then ' ' else value[i]);
    if '\n' in Trim(flat) {
      TrimKeeps(flat, '\n');
    }
  }

  function Filter(s: seq<Route>, p: Route -> bool): (r: seq<Route>)
    ensures forall i :: 0 <= i < |r| ==> p(r[i])
  {
    if s == [] then [] else (if p(s[0]) then [s[0]] else []) + Filter(s[1..], p)
  }

  /** The routes that are written, in order. */
  function Usable(services: seq<Service>): (r: seq<Route>)
    ensures AllValid(r)
  {
    Filter(RoutesOf(services), r => ValidRoute(r))
  }

  function Unusable(services: seq<Service>): seq<Route> { Filter(RoutesOf(services), r => !ValidRoute(r)) }

  // ----- the config as lines -----

  function Header(target: Target): seq<string> {
    [BANNER, BANNER_END, NAMED + target.name, "", "{", ADMIN + Decimal(AdminPort(target))]
    + (if Trim(target.acmeEmail) == "" then [] else [EMAIL + Trim(target.acmeEmail)]) + ["}"]
  }

  function SkippedLine(r: Route): string { SKIPPED + CommentSafe(r.serviceName) + REASON }

  function SkippedLines(routes: seq<Route>): seq<string> {
    if routes == [] then []
    else SkippedLines(routes[..|routes| - 1]) + ["", SkippedLine(routes[|routes| - 1])]
  }

  function Upstream(r: Route): string { (if r.protocol == H2C then H2C_SCHEME else "") + LOOPBACK + Decimal(r.port) }

  function NoteLine(r: Route): string { NOTE + CommentSafe(r.serviceName) + ARROW + Decimal(r.port) }

  function OpeningLine(path: string): string { if path == "" then ROOT else PATH + path + PATH_OPENS }

  function RouteLines(r: Route): seq<string>
    requires ValidRoute(r)
  {
    [NoteLine(r), OpeningLine(NormalizePath(r.path).value), PROXY + Upstream(r), HANDLED]
  }

  /** What is written before a route when the routes in front of it are already written: nothing inside
      a block of the same domain, and otherwise the end of one block and the start of the next. */
  function Turn(routes: seq<Route>, r: Route): seq<string> {
    if routes != [] && routes[|routes| - 1].domain == r.domain then []
    else (if routes == [] then [] else ["}"]) + ["", r.domain + OPENS]
  }

  predicate AllValid(routes: seq<Route>) { forall i :: 0 <= i < |routes| ==> ValidRoute(routes[i]) }

  function Blocks(routes: seq<Route>): seq<string>
    requires AllValid(routes)
  {
    if routes == [] then []
    else
      var front, r := routes[..|routes| - 1], routes[|routes| - 1];
      Blocks(front) + Turn(front, r) + RouteLines(r)
  }

  lemma BlocksOf(routes: seq<Route>)
    requires AllValid(routes)
    ensures routes == [] ==> Blocks(routes) == []
    ensures routes != [] ==>
              var front, r := routes[..|routes| - 1], routes[|routes| - 1];
              Blocks(routes) == Blocks(front) + Turn(front, r) + RouteLines(r)
  {
    hide ValidRoute, Turn, RouteLines;
  }

  function BodyLines(services: seq<Service>): seq<string> {
    if RoutesOf(services) == [] then ["", EMPTY]
    else
      SkippedLines(Unusable(services)) + Blocks(Usable(services)) + if Usable(services) == [] then [] else ["}"]
  }

  function ConfigLines(target: Target, services: seq<Service>): seq<string> { Header(target) + BodyLines(services) }

  function Unlines(lines: seq<string>): string {
    if lines == [] then "" else Unlines(lines[..|lines| - 1]) + lines[|lines| - 1] + "\n"
  }

  lemma Push(lines: seq<string>, line: string)
    ensures Unlines(lines + [line]) == Unlines(lines) + line + "\n"
  {
    assert (lines + [line])[..|lines|] == lines;
  }

  lemma PushBlank(lines: seq<string>)
    ensures Unlines(lines + [""]) == Unlines(lines) + "\n"
  {
    Push(lines, "");
    assert Unlines(lines) + "" == Unlines(lines);
  }

  // ----- the printer -----

  lemma NoneSkipped(front: seq<string>, skipped: seq<Route>)
    ensures front + SkippedLines(skipped[..0]) == front
  {
  }

  lemma OneMoreSkipped(front: seq<string>, skipped: seq<Route>, i: nat)
    requires i < |skipped|
    ensures front + SkippedLines(skipped[..i + 1]) ==
            front + SkippedLines(skipped[..i]) + [""] + [SkippedLine(skipped[i])]
  {
    hide SkippedLine;
    assert skipped[..i + 1][..i] == skipped[..i];
  }

  /** The text is built piece by piece, with the current domain and whether a block is open as the only
      memory between routes. */
  method Render(target: Target, services: seq<Service>) returns (out: string)
    ensures out == Unlines(ConfigLines(target, services))
  {
    hide RoutesOf, Usable, Unusable, Trim, Decimal, SkippedLine, NormalizePath, ValidRoute, Unlines, AllValid,
        Header, Blocks, SkippedLines;
    var routes := RoutesOf(services);
    out := RenderHeader(target);
    if routes == [] {
      out := out + "\n" + EMPTY + "\n";
      PushBlank(Header(target));
      Push(Header(target) + [""], EMPTY);
      assert Header(target) + [""] + [EMPTY] == Header(target) + ["", EMPTY];
      return;
    }
    var usable, skipped := Usable(services), Unusable(services);
    ghost var lines := Header(target);
    var i := 0;
    NoneSkipped(lines, skipped);
    while i < |skipped|
      invariant 0 <= i <= |skipped|
      invariant lines == Header(target) + SkippedLines(skipped[..i])
      invariant out == Unlines(lines)
    {
      out := out + "\n" + SkippedLine(skipped[i]) + "\n";
      PushBlank(lines);
      Push(lines + [""], SkippedLine(skipped[i]));
      lines := lines + [""] + [SkippedLine(skipped[i])];
      OneMoreSkipped(Header(target), skipped, i);
      i := i + 1;
    }
    assert skipped[..i] == skipped;
    ghost var closing := if usable == [] then [] else ["}"];
    out := RenderBlocks(usable, out, lines);
    assert Header(target) + SkippedLines(skipped) + Blocks(usable) + closing == ConfigLines(target, services);
  }

  method RenderHeader(target: Target) returns (out: string)
    ensures out == Unlines(Header(target))
  {
    hide Trim, Decimal;
    ghost var lines := [BANNER];
    out := BANNER + "\n";
    Push([], BANNER);
    assert [] + [BANNER] == lines && Unlines([]) + BANNER == BANNER;
    out := out + BANNER_END + "\n";
    Push(lines, BANNER_END);
    lines := lines + [BANNER_END];
    out := out + (NAMED + target.name) + "\n" + "\n";
    Push(lines, NAMED + target.name);
    lines := lines + [NAMED + target.name];
    PushBlank(lines);
    lines := lines + [""];
    out := out + "{" + "\n";
    Push(lines, "{");
    lines := lines + ["{"];
    out := out + (ADMIN + Decimal(AdminPort(target))) + "\n";
    Push(lines, ADMIN + Decimal(AdminPort(target)));
    lines := lines + [ADMIN + Decimal(AdminPort(target))];
    var email := Trim(target.acmeEmail);
    if email != "" {
      out := out + (EMAIL + email) + "\n";
      Push(lines, EMAIL + email);
      lines := lines + [EMAIL + email];
    }
    out := out + "}" + "\n";
    Push(lines, "}");
    lines := lines + ["}"];
    assert lines == Header(target);
  }

  /** One more route adds what opens its block, if it opens one, and its own lines. */
  lemma OneMoreRoute(head: seq<string>, usable: seq<Route>, i: nat)
    requires AllValid(usable) && i < |usable|
    ensures AllValid(usable[..i]) && AllValid(usable[..i + 1])
    ensures head + Blocks(usable[..i + 1]) ==
            head + Blocks(usable[..i]) + Turn(usable[..i], usable[i]) + RouteLines(usable[i])
  {
    hide ValidRoute, Turn, RouteLines, Blocks;
    BlocksOf(usable[..i + 1]);
    assert usable[..i + 1][..i] == usable[..i];
    var front, turn, own := Blocks(usable[..i]), Turn(usable[..i], usable[i]), RouteLines(usable[i]);
    JoinedInTurn(head, front + turn, own);
    JoinedInTurn(head, front, turn);
  }

  /** What the two variables decide is what is written between the last route and this one. */
  lemma TurnWritten(lines: seq<string>, front: seq<Route>, r: Route)
    ensures lines + Turn(front, r) ==
            if front != [] && front[|front| - 1].domain == r.domain then lines
            else if front == [] then lines + [""] + [r.domain + OPENS]
            else lines + ["}"] + [""] + [r.domain + OPENS]
  {
  }

  method RenderBlocks(usable: seq<Route>, before: string, ghost head: seq<string>) returns (out: string)
    requires AllValid(usable) && before == Unlines(head)
    ensures out == Unlines(head + Blocks(usable) + if usable == [] then [] else ["}"])
  {
    hide Trim, Decimal, RouteLines, ValidRoute, Unlines, Blocks, Turn;
    BlocksOf([]);
    out := before;
    var currentDomain: Option<string> := None;
    var open := false;
    var i := 0;
    ghost var lines := head;
    while i < |usable|
      invariant 0 <= i <= |usable|
      invariant open <==> i > 0
      invariant currentDomain == if i == 0 then None else Some(usable[i - 1].domain)
      invariant lines == head + Blocks(usable[..i])
      invariant out == Unlines(lines)
    {
      var route := usable[i];
      ghost var front := usable[..i];
      ghost var was := lines;
      if currentDomain != Some(route.domain) {
        if open {
          out := out + "}" + "\n";
          Push(lines, "}");
          lines := lines + ["}"];
        }
        out := out + "\n";
        PushBlank(lines);
        lines := lines + [""];
        out := out + (route.domain + OPENS) + "\n";
        Push(lines, route.domain + OPENS);
        lines := lines + [route.domain + OPENS];
        currentDomain := Some(route.domain);
        open := true;
      }
      TurnWritten(was, front, route);
      assert lines == was + Turn(front, route);
      out := RenderRoute(route, out, lines);
      lines := lines + RouteLines(route);
      OneMoreRoute(head, usable, i);
      i := i + 1;
    }
    assert usable[..i] == usable;
    if open {
      out := out + "}" + "\n";
      Push(lines, "}");
    } else {
      assert lines + [] == lines;
    }
  }

  method RenderRoute(route: Route, before: string, ghost lines: seq<string>) returns (out: string)
    requires ValidRoute(route) && before == Unlines(lines)
    ensures out == Unlines(lines + RouteLines(route))
  {
    hide Trim, Decimal, NormalizePath, ValidDomain, Unlines, Upstream;
    out := before + NoteLine(route) + "\n";
    Push(lines, NoteLine(route));
    ghost var all := lines + [NoteLine(route)];
    var path := NormalizePath(route.path).value;
    if path != "" {
      out := out + (PATH + path + PATH_OPENS) + "\n";
    } else {
      out := out + ROOT + "\n";
    }
    Push(all, OpeningLine(path));
    all := all + [OpeningLine(path)];
    out := out + (PROXY + Upstream(route)) + "\n";
    Push(all, PROXY + Upstream(route));
    all := all + [PROXY + Upstream(route)];
    out := out + HANDLED + "\n";
    Push(all, HANDLED);
    all := all + [HANDLED];
    assert all == lines + RouteLines(route);
  }
}
