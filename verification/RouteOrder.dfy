/** The order routes are rendered in: by domain, longest path first. It is a stable sort, and whether
    the result depends on the order of the input is decided by the keys. */
module RouteOrder {
  import opened Wrappers
  import opened Text
  import opened Routes

  /** The comparison of the sort. */
  predicate Precedes(a: Route, b: Route) {
    || Before(a.domain, b.domain)
    || (a.domain == b.domain &&
        (Utf8Len(a.path) > Utf8Len(b.path) || (Utf8Len(a.path) == Utf8Len(b.path) && Before(a.path, b.path))))
  }

  /** Of one domain the longer path comes first, and of paths of one length the one with the smaller
      character where they first differ; and so do domains. */
  lemma OrderSpelled(a: Route, b: Route, front: string, c: char, d: char, x: string, y: string)
    requires c < d
    ensures a.domain == front + [c] + x && b.domain == front + [d] + y ==> Precedes(a, b) && !Precedes(b, a)
    ensures a.domain == b.domain && Utf8Len(a.path) > Utf8Len(b.path) ==> Precedes(a, b) && !Precedes(b, a)
    ensures (&& a.domain == b.domain && Utf8Len(a.path) == Utf8Len(b.path)
             && a.path == front + [c] + x && b.path == front + [d] + y) ==>
              Precedes(a, b) && !Precedes(b, a)
  {
    hide Utf8Len, Before;
    BeforeDecides(front, c, d, x, y);
    BeforeTotal(a.domain, b.domain);
    BeforeTotal(a.path, b.path);
  }

  predicate SameKey(a: Route, b: Route) { a.domain == b.domain && a.path == b.path }

  lemma PrecedesTotal(a: Route, b: Route)
    ensures Precedes(a, b) || SameKey(a, b) || Precedes(b, a)
    ensures !(Precedes(a, b) && Precedes(b, a)) && !(Precedes(a, b) && SameKey(a, b))
  {
    BeforeTotal(a.domain, b.domain);
    BeforeTotal(a.path, b.path);
  }

  lemma PrecedesTransitive(a: Route, b: Route, c: Route)
    requires Precedes(a, b) && Precedes(b, c)
    ensures Precedes(a, c)
  {
    hide Before, Utf8Len;
    if Before(a.domain, b.domain) && Before(b.domain, c.domain) {
      BeforeTransitive(a.domain, b.domain, c.domain);
    }
    if Before(a.path, b.path) && Before(b.path, c.path) {
      BeforeTransitive(a.path, b.path, c.path);
    }
  }

  lemma PrecedesUpToKey(a: Route, b: Route, c: Route)
    requires SameKey(a, b)
    ensures (Precedes(a, c) <==> Precedes(b, c)) && (Precedes(c, a) <==> Precedes(c, b))
  {
    hide Before, Utf8Len;
  }

  // ----- the stable sort -----

  /** A route goes in front of the first one it does not come after, so equal keys keep their order. */
  function Insert(x: Route, s: seq<Route>): seq<Route> {
    if s == [] || !Precedes(s[0], x) then [x] + s else [s[0]] + Insert(x, s[1..])
  }

  function Sort(s: seq<Route>): seq<Route> {
    if s == [] then [] else Insert(s[0], Sort(s[1..]))
  }

  predicate Sorted(s: seq<Route>) { forall i, j :: 0 <= i < j < |s| ==> !Precedes(s[j], s[i]) }

  lemma NotAfterTransitive(a: Route, b: Route, c: Route)
    requires !Precedes(b, a) && !Precedes(c, b)
    ensures !Precedes(c, a)
  {
    hide Precedes;
    PrecedesTotal(a, b);
    PrecedesTotal(b, c);
    if Precedes(c, a) {
      if SameKey(a, b) {
        PrecedesUpToKey(a, b, c);
      } else {
        PrecedesTransitive(c, a, b);
      }
    }
  }

  lemma {:induction false} InsertKeeps(x: Route, s: seq<Route>)
    ensures multiset(Insert(x, s)) == multiset([x] + s)
  {
    hide Precedes;
    if s != [] && Precedes(s[0], x) {
      InsertKeeps(x, s[1..]);
      assert s == [s[0]] + s[1..];
    }
  }

  lemma HeadFirst(x: Route, rest: seq<Route>)
    requires Sorted(rest) && forall j :: 0 <= j < |rest| ==> !Precedes(rest[j], x)
    ensures Sorted([x] + rest)
  {
    hide Precedes;
  }

  lemma {:induction false} InsertSorts(x: Route, s: seq<Route>)
    requires Sorted(s)
    ensures Sorted(Insert(x, s)) && multiset(Insert(x, s)) == multiset([x] + s)
  {
    hide Precedes;
    InsertKeeps(x, s);
    if s != [] && !Precedes(s[0], x) {
      forall j | 0 <= j < |s| ensures !Precedes(s[j], x) {
        if j > 0 {
          NotAfterTransitive(x, s[0], s[j]);
        }
      }
      HeadFirst(x, s);
    } else if s != [] {
      InsertSorts(x, s[1..]);
      var rest := Insert(x, s[1..]);
      PrecedesTotal(s[0], x);
      forall j | 0 <= j < |rest| ensures !Precedes(rest[j], s[0]) {
        assert rest[j] in multiset([x] + s[1..]);
      }
      HeadFirst(s[0], rest);
    }
  }

  lemma {:induction false} SortSorts(s: seq<Route>)
    ensures Sorted(Sort(s)) && multiset(Sort(s)) == multiset(s)
  {
    if s != [] {
      SortSorts(s[1..]);
      InsertSorts(s[0], Sort(s[1..]));
      assert s == [s[0]] + s[1..];
    }
  }

  lemma TakeOut<T>(s: seq<T>, i: nat)
    requires i < |s|
    ensures multiset(s) == multiset{s[i]} + multiset(s[..i] + s[i + 1..])
  {
    assert s == s[..i] + [s[i]] + s[i + 1..];
  }

  lemma TakeOutSame<T>(a: seq<T>, i: nat, b: seq<T>, j: nat)
    requires multiset(a) == multiset(b) && i < |a| && j < |b| && a[i] == b[j]
    ensures multiset(a[..i] + a[i + 1..]) == multiset(b[..j] + b[j + 1..])
  {
    TakeOut(a, i);
    TakeOut(b, j);
    assert multiset(a[..i] + a[i + 1..]) == multiset(a) - multiset{a[i]};
    assert multiset(b[..j] + b[j + 1..]) == multiset(b) - multiset{b[j]};
  }

  lemma FindIn<T>(a: seq<T>, x: T, b: seq<T>) returns (j: nat)
    requires multiset(a) == multiset(b) && x in a
    ensures j < |b| && b[j] == x
  {
    assert x in multiset(b);
    j :| 0 <= j < |b| && b[j] == x;
  }

  /** Routes with the same domain and path are the same route. */
  predicate KeysDecide(s: seq<Route>) {
    forall i, j :: 0 <= i < |s| && 0 <= j < |s| && SameKey(s[i], s[j]) ==> s[i] == s[j]
  }

  lemma HeadsAgree(a: seq<Route>, b: seq<Route>)
    requires Sorted(a) && Sorted(b) && multiset(a) == multiset(b) && KeysDecide(a) && a != []
    ensures b != [] && a[0] == b[0]
  {
    hide Precedes, SameKey;
    var j := FindIn(a, a[0], b);
    var i := FindIn(b, b[0], a);
    PrecedesTotal(a[0], b[0]);
  }

  lemma TailsSame<T>(a: seq<T>, b: seq<T>)
    requires multiset(a) == multiset(b) && a != [] && b != [] && a[0] == b[0]
    ensures multiset(a[1..]) == multiset(b[1..])
  {
    HeadApart(a);
    HeadApart(b);
    assert multiset(a[1..]) == multiset(a) - multiset{a[0]};
    assert multiset(b[1..]) == multiset(b) - multiset{b[0]};
  }

  lemma HeadApart<T>(s: seq<T>)
    requires s != []
    ensures multiset(s) == multiset{s[0]} + multiset(s[1..])
  {
    assert s == [s[0]] + s[1..];
  }

  lemma Tails(s: seq<Route>)
    requires s != []
    ensures Sorted(s) ==> Sorted(s[1..])
    ensures KeysDecide(s) ==> KeysDecide(s[1..])
  {
    hide Precedes, SameKey;
  }

  lemma {:induction false} SortedIsUnique(a: seq<Route>, b: seq<Route>)
    requires Sorted(a) && Sorted(b) && multiset(a) == multiset(b) && KeysDecide(a)
    ensures a == b
  {
    hide Sorted, KeysDecide;
    if a == [] {
      assert |multiset(a)| == |multiset(b)|;
    } else {
      HeadsAgree(a, b);
      Tails(a);
      Tails(b);
      TailsSame(a, b);
      SortedIsUnique(a[1..], b[1..]);
      assert a == [a[0]] + a[1..] && b == [b[0]] + b[1..];
    }
  }

  lemma KeysDecidePermuted(a: seq<Route>, b: seq<Route>)
    requires multiset(a) == multiset(b) && KeysDecide(a)
    ensures KeysDecide(b)
  {
    forall i, j | 0 <= i < |b| && 0 <= j < |b| && SameKey(b[i], b[j]) ensures b[i] == b[j] {
      assert b[i] in multiset(a) && b[j] in multiset(a);
      var k :| 0 <= k < |a| && a[k] == b[i];
      var l :| 0 <= l < |a| && a[l] == b[j];
    }
  }

  function Among(s: seq<Route>, key: Route): seq<Route> {
    if s == [] then [] else (if SameKey(s[0], key) then [s[0]] else []) + Among(s[1..], key)
  }

  lemma {:induction false} InsertIsStable(x: Route, s: seq<Route>, key: Route)
    ensures Among(Insert(x, s), key) == Among([x] + s, key)
  {
    hide Precedes, SameKey;
    assert ([x] + s)[1..] == s;
    if s != [] && Precedes(s[0], x) {
      InsertIsStable(x, s[1..], key);
      assert ([x] + s[1..])[1..] == s[1..];
      assert Insert(x, s)[1..] == Insert(x, s[1..]);
      PrecedesTotal(s[0], x);
      assert !(SameKey(s[0], key) && SameKey(x, key)) by { KeysThrough(s[0], x, key); }
    }
  }

  lemma KeysThrough(a: Route, b: Route, key: Route)
    ensures SameKey(a, key) && SameKey(b, key) ==> SameKey(a, b)
  {
  }

  /** Routes with the same domain and path stay in the order they were listed in. */
  lemma {:induction false} SortIsStable(s: seq<Route>, key: Route)
    ensures Among(Sort(s), key) == Among(s, key)
  {
    hide SameKey, Insert;
    if s != [] {
      SortIsStable(s[1..], key);
      InsertIsStable(s[0], Sort(s[1..]), key);
      assert ([s[0]] + Sort(s[1..]))[1..] == Sort(s[1..]);
    }
  }

  /** Two routes with the same key end up side by side, in the order they came in. */
  lemma {:induction false} InsertTwice(a: Route, b: Route, s: seq<Route>) returns (k: nat)
    requires SameKey(a, b)
    ensures k <= |s| && Insert(a, Insert(b, s)) == s[..k] + [a, b] + s[k..]
    ensures Insert(b, Insert(a, s)) == s[..k] + [b, a] + s[k..]
  {
    hide Precedes, SameKey;
    PrecedesTotal(a, b);
    if s == [] || !Precedes(s[0], b) {
      k := 0;
      if s != [] {
        PrecedesUpToKey(a, b, s[0]);
      }
      assert Insert(b, s) == [b] + s && Insert(a, s) == [a] + s;
      assert Insert(a, [b] + s) == [a] + ([b] + s) by { KeysDoNotPrecede(a, b); }
      assert Insert(b, [a] + s) == [b] + ([a] + s) by { KeysDoNotPrecede(a, b); }
    } else {
      PrecedesUpToKey(a, b, s[0]);
      k := InsertTwice(a, b, s[1..]);
      InsertPast(a, b, s);
      InsertPast(b, a, s);
      k := k + 1;
      assert s[..k] == [s[0]] + s[1..][..k - 1] && s[k..] == s[1..][k - 1..];
    }
  }

  lemma KeysDoNotPrecede(a: Route, b: Route)
    requires SameKey(a, b)
    ensures !Precedes(a, b) && !Precedes(b, a)
  {
    PrecedesTotal(a, b);
    PrecedesTotal(b, a);
  }

  lemma InsertPast(a: Route, b: Route, s: seq<Route>)
    requires s != [] && Precedes(s[0], a) && Precedes(s[0], b)
    ensures Insert(a, Insert(b, s)) == [s[0]] + Insert(a, Insert(b, s[1..]))
  {
    hide Precedes;
    assert Insert(b, s)[1..] == Insert(b, s[1..]);
  }

  /** The sorted list is the same for every order of the same routes exactly when no two different
      routes have the same domain and path. */
  lemma OrderIndependence(routes: seq<Route>)
    ensures KeysDecide(routes) <==> forall other :: multiset(other) == multiset(routes) ==> Sort(other) == Sort(routes)
  {
    hide Precedes, KeysDecide, Sort, Sorted;
    SortSorts(routes);
    if KeysDecide(routes) {
      KeysDecidePermuted(routes, Sort(routes));
      forall other | multiset(other) == multiset(routes) ensures Sort(other) == Sort(routes) {
        SortSorts(other);
        SortedIsUnique(Sort(routes), Sort(other));
      }
    } else {
      ClashingRoutesDependOnOrder(routes);
    }
  }

  lemma ClashingRoutesDependOnOrder(routes: seq<Route>)
    requires !KeysDecide(routes)
    ensures exists other :: multiset(other) == multiset(routes) && Sort(other) != Sort(routes)
  {
    hide Precedes, Insert, Sort, SameKey;
    var i, j :| 0 <= i < |routes| && 0 <= j < |routes| && SameKey(routes[i], routes[j]) && routes[i] != routes[j];
    if i < j {
      PairDependsOnOrder(routes, i, j);
    } else {
      assert SameKey(routes[j], routes[i]) by { SameKeySymmetric(routes[i], routes[j]); }
      PairDependsOnOrder(routes, j, i);
    }
  }

  lemma SameKeySymmetric(a: Route, b: Route)
    requires SameKey(a, b)
    ensures SameKey(b, a)
  {
    assert a.path == b.path;
  }

  lemma PairDependsOnOrder(routes: seq<Route>, i: nat, j: nat)
    requires i < j < |routes| && SameKey(routes[i], routes[j]) && routes[i] != routes[j]
    ensures exists other :: multiset(other) == multiset(routes) && Sort(other) != Sort(routes)
  {
    hide Precedes, Insert, Sort, SameKey;
    var a, b := routes[i], routes[j];
    var rest := PairInFront(routes, i, j);
    SwapShows(a, b, rest);
    if Sort([a, b] + rest) == Sort(routes) {
      assert Sort([b, a] + rest) != Sort(routes);
    }
  }

  lemma SwapShows(a: Route, b: Route, rest: seq<Route>)
    requires SameKey(a, b) && a != b
    ensures Sort([a, b] + rest) != Sort([b, a] + rest)
  {
    hide Precedes, Insert, Sort, SameKey;
    var s := Sort(rest);
    var k := InsertTwice(a, b, s);
    SortTwo(a, b, rest);
    SortTwo(b, a, rest);
    assert (s[..k] + [a, b] + s[k..])[k] == a && (s[..k] + [b, a] + s[k..])[k] == b;
  }

  lemma SortTwo(a: Route, b: Route, rest: seq<Route>)
    ensures Sort([a, b] + rest) == Insert(a, Insert(b, Sort(rest)))
  {
    hide Insert;
    assert ([a, b] + rest)[1..] == [b] + rest && ([b] + rest)[1..] == rest;
  }

  lemma TwoAndTheRest<T>(a: T, b: T, rest: seq<T>)
    ensures multiset([a, b] + rest) == multiset{a} + multiset{b} + multiset(rest)
  {
  }

  lemma PairInFront<T>(s: seq<T>, i: nat, j: nat) returns (rest: seq<T>)
    requires i < j < |s|
    ensures multiset([s[i], s[j]] + rest) == multiset(s) == multiset([s[j], s[i]] + rest)
  {
    var t := s[..j] + s[j + 1..];
    rest := t[..i] + t[i + 1..];
    TakeOut(s, j);
    assert t[i] == s[i];
    TakeOut(t, i);
    TwoAndTheRest(s[i], s[j], rest);
    TwoAndTheRest(s[j], s[i], rest);
  }

  // ----- the routes of a set of services -----

  /** A route as it is listed: stamped with its service, its domain trimmed, its path normalised, or as
      it is when it cannot be. */
  function Listed(service: Service, r: Route): Route {
    var path := NormalizePath(r.path);
    Route(service.id, service.name, Trim(r.domain), if path.Some? then path.value else r.path, r.port, r.protocol)
  }

  /** The form a route is listed in: stamped with its service, its domain trimmed, and its path as it
      normalises; a path that does not normalise is listed as it is, and not as the whole domain. */
  lemma ListedExactly(service: Service, r: Route, path: string)
    requires Canonical(path)
    ensures var l := Listed(service, r);
            && l.serviceId == service.id && l.serviceName == service.name && l.domain == Trim(r.domain)
            && l.port == r.port && l.protocol == r.protocol
            && (Spells(Trim(r.path), path) ==> l.path == path)
            && (Trim(r.path) == "" || Trim(r.path) == "/" ==> l.path == "")
            && (NormalizePath(r.path).None? ==> l.path == r.path)
            && (l.path == "" ==> Trim(r.path) == "" || Trim(r.path) == "/")
  {
    hide Trim, NormalizePath, Spells, WritablePath;
    NormalizesExactly(r.path, path);
    RootExactly(r.path);
    if r.path == "" {
      NormalizeRoot();
    }
  }

  function FlatMap<T, U>(f: T -> seq<U>, s: seq<T>): seq<U> {
    if s == [] then [] else f(s[0]) + FlatMap(f, s[1..])
  }

  function ListedOf(service: Service): seq<Route> { FlatMap((r: Route) => [Listed(service, r)], service.routes) }

  function AllListed(services: seq<Service>): seq<Route> { FlatMap((s: Service) => ListedOf(s), services) }

  function RoutesOf(services: seq<Service>): seq<Route> { Sort(AllListed(services)) }

  lemma {:induction false} FlatMapAppend<T, U>(f: T -> seq<U>, a: seq<T>, b: seq<T>)
    ensures FlatMap(f, a + b) == FlatMap(f, a) + FlatMap(f, b)
  {
    if a == [] {
      assert a + b == b;
    } else {
      assert (a + b)[1..] == a[1..] + b;
      FlatMapAppend(f, a[1..], b);
    }
  }

  /** Rearranging the input of a flat map rearranges its output. */
  lemma {:induction false} FlatMapPermuted<T, U>(f: T -> seq<U>, a: seq<T>, b: seq<T>)
    requires multiset(a) == multiset(b)
    ensures multiset(FlatMap(f, a)) == multiset(FlatMap(f, b))
    decreases |a|
  {
    if a == [] {
      assert |multiset(a)| == |multiset(b)|;
    } else {
      var before, after := HeadOut(a, b);
      FlatMapPermuted(f, a[1..], before + after);
      FlatMapAppend(f, before, after);
      FlatMapMiddle(f, before, a[0], after);
    }
  }

  lemma HeadOut<T>(a: seq<T>, b: seq<T>) returns (before: seq<T>, after: seq<T>)
    requires multiset(a) == multiset(b) && a != []
    ensures b == before + [a[0]] + after && multiset(a[1..]) == multiset(before + after)
  {
    var i := FindIn(a, a[0], b);
    before, after := b[..i], b[i + 1..];
    TakeOutSame(a, 0, b, i);
    assert a[..0] + a[1..] == a[1..];
  }

  lemma FlatMapMiddle<T, U>(f: T -> seq<U>, before: seq<T>, x: T, after: seq<T>)
    ensures FlatMap(f, before + [x] + after) == FlatMap(f, before) + f(x) + FlatMap(f, after)
  {
    FlatMapAppend(f, before, [x] + after);
    assert before + [x] + after == before + ([x] + after);
    assert ([x] + after)[1..] == after;
  }

  /** The same services in another order, or one service with its routes in another order, list the
      same routes in another order. */
  lemma RearrangedServices(a: seq<Service>, b: seq<Service>)
    requires multiset(a) == multiset(b)
    ensures multiset(AllListed(a)) == multiset(AllListed(b))
  {
    FlatMapPermuted((s: Service) => ListedOf(s), a, b);
  }

  lemma RearrangedRoutes(before: seq<Service>, s: Service, after: seq<Service>, routes: seq<Route>)
    requires multiset(routes) == multiset(s.routes)
    ensures multiset(AllListed(before + [s.(routes := routes)] + after)) == multiset(AllListed(before + [s] + after))
  {
    var f := (s: Service) => ListedOf(s);
    var t := s.(routes := routes);
    FlatMapPermuted((r: Route) => [Listed(s, r)], routes, s.routes);
    FlatMapMiddle(f, before, s, after);
    FlatMapMiddle(f, before, t, after);
    SameListing(s, t, routes);
  }

  lemma {:induction false} SameListing(s: Service, t: Service, routes: seq<Route>)
    requires s.id == t.id && s.name == t.name
    ensures FlatMap((r: Route) => [Listed(s, r)], routes) == FlatMap((r: Route) => [Listed(t, r)], routes)
  {
    if routes != [] {
      SameListing(s, t, routes[1..]);
    }
  }

  /** What the listing does to each route: nothing is lost, nothing is added. */
  lemma {:induction false} ListedRoutes(services: seq<Service>, r: Route)
    ensures r in RoutesOf(services) <==>
            exists i, k :: 0 <= i < |services| && 0 <= k < |services[i].routes|
                && r == Listed(services[i], services[i].routes[k])
  {
    hide Sort, Listed;
    SortSorts(AllListed(services));
    assert r in RoutesOf(services) <==> r in multiset(RoutesOf(services));
    assert r in AllListed(services) <==> r in multiset(AllListed(services));
    FlatMapMember((s: Service) => ListedOf(s), services, r);
    forall s: Service ensures r in ListedOf(s) <==> exists k :: 0 <= k < |s.routes| && r == Listed(s, s.routes[k]) {
      FlatMapMember((x: Route) => [Listed(s, x)], s.routes, r);
    }
  }

  lemma {:induction false} FlatMapMember<T, U>(f: T -> seq<U>, s: seq<T>, y: U)
    ensures y in FlatMap(f, s) <==> exists i :: 0 <= i < |s| && y in f(s[i])
  {
    if s != [] {
      FlatMapMember(f, s[1..], y);
      if i :| 0 <= i < |s| && y in f(s[i]) {
        assert i == 0 || s[1..][i - 1] == s[i];
      }
      if i :| 0 <= i < |s| - 1 && y in f(s[1..][i]) {
        assert s[i + 1] == s[1..][i];
      }
    }
  }
}
