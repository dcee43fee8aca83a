/** Choosing a route: the longest matching path prefix wins, the first declared among equals. */
module Routing {
  import opened Wrappers

  datatype Route = Route(name: string, host: string, prefix: string, verbs: set<string>)

  datatype Request = Request(host: string, path: string, verb: string)

  function TrimSlash(s: string): string {
    if s != "" && s[|s| - 1] == '/' then s[..|s| - 1] else s
  }

  predicate PathMatches(prefix: string, path: string) {
    prefix == "/" || path == prefix || TrimSlash(prefix) + "/" <= path
  }

  predicate HostMatches(r: Route, q: Request) {
    r.host == "" || r.host == q.host
  }

  predicate Located(r: Route, q: Request) {
    HostMatches(r, q) && PathMatches(r.prefix, q.path)
  }

  predicate VerbAllowed(r: Route, q: Request) {
    r.verbs == {} || q.verb in r.verbs
  }

  predicate Applies(r: Route, q: Request) {
    Located(r, q) && VerbAllowed(r, q)
  }

  /** Route number i is the one to use: it applies, no applicable route has a longer prefix, and
      no earlier one a prefix as long. */
  ghost predicate Best(routes: seq<Route>, q: Request, i: int) {
    && 0 <= i < |routes|
    && Applies(routes[i], q)
    && (forall j :: 0 <= j < |routes| && Applies(routes[j], q) ==> |routes[j].prefix| <= |routes[i].prefix|)
    && (forall j :: 0 <= j < i && Applies(routes[j], q) ==> |routes[j].prefix| < |routes[i].prefix|)
  }

  lemma BestIsUnique(routes: seq<Route>, q: Request, i: int, j: int)
    requires Best(routes, q, i) && Best(routes, q, j)
    ensures i == j
  {
  }

  /** The one-pass search over the route table. */
  method Match(routes: seq<Route>, q: Request) returns (best: Option<int>, methodMismatch: bool)
    ensures forall i :: Best(routes, q, i) <==> best == Some(i)
    ensures best.None? <==> forall i :: 0 <= i < |routes| ==> !Applies(routes[i], q)
    ensures methodMismatch <==> exists i :: 0 <= i < |routes| && Located(routes[i], q) && !VerbAllowed(routes[i], q)
    ensures best.None? ==> (methodMismatch <==> exists i :: 0 <= i < |routes| && Located(routes[i], q))
  {
    hide PathMatches;
    best, methodMismatch := None, false;
    for index := 0 to |routes|
      invariant best.Some? ==> Best(routes[..index], q, best.value)
      invariant best.None? ==> forall i :: 0 <= i < index ==> !Applies(routes[i], q)
      invariant methodMismatch <==> exists i :: 0 <= i < index && Located(routes[i], q) && !VerbAllowed(routes[i], q)
    {
      var route := routes[index];
      if route.host != "" && route.host != q.host {
        continue;
      }
      if !PathMatches(route.prefix, q.path) {
        continue;
      }
      if route.verbs != {} && q.verb !in route.verbs {
        methodMismatch := true;
        continue;
      }
      if best.None? || |route.prefix| > |routes[best.value].prefix| {
        best := Some(index);
      }
    }
    assert routes[..|routes|] == routes;
    forall i | Best(routes, q, i) ensures best == Some(i) {
      BestIsUnique(routes, q, i, best.value);
    }
  }

  // ---------- The shape of matching prefixes ----------

  /** The prefix "/" matches every path. */
  lemma RootMatchesAll(path: string)
    ensures PathMatches("/", path)
  {
  }

  /** Wherever a route applies there is a best one. */
  lemma BestExists(routes: seq<Route>, q: Request, k: int) returns (j: int)
    requires 0 <= k < |routes| && Applies(routes[k], q)
    ensures Best(routes, q, j)
  {
    hide Applies;
    j := -1;
    for index := 0 to |routes|
      invariant j == -1 ==> forall i :: 0 <= i < index ==> !Applies(routes[i], q)
      invariant j != -1 ==> Best(routes[..index], q, j)
    {
      if Applies(routes[index], q) && (j == -1 || |routes[index].prefix| > |routes[j].prefix|) {
        j := index;
      }
    }
    assert routes[..|routes|] == routes;
  }

  /** So a table with a route for any host, method and path leaves no request without a match. */
  lemma CatchAllLeavesNone(routes: seq<Route>, q: Request, k: int) returns (best: int)
    requires 0 <= k < |routes|
    requires routes[k].host == "" && routes[k].prefix == "/" && routes[k].verbs == {}
    ensures Best(routes, q, best)
  {
    RootMatchesAll(q.path);
    best := BestExists(routes, q, k);
  }

  /** A prefix matches at a segment boundary only: the path is the prefix, or continues it after
      the slash that the prefix ends with, or after a slash of its own. */
  lemma MatchesAtBoundary(prefix: string, path: string)
    requires prefix != "" && prefix != "/"
    ensures PathMatches(prefix, path) <==>
            && prefix <= path
            && (path == prefix || prefix[|prefix| - 1] == '/' || path[|prefix|] == '/')
  {
  }

  /** For a path that starts with a slash, every matching prefix is a prefix of the path. */
  lemma MatchingPrefixesNest(p: string, q: string, path: string)
    requires "/" <= path && p != "" && q != ""
    requires PathMatches(p, path) && PathMatches(q, path) && |p| <= |q|
    ensures p <= q
    ensures |p| == |q| ==> p == q
  {
    if p != "/" { MatchesAtBoundary(p, path); }
    if q != "/" { MatchesAtBoundary(q, path); }
    assert p == path[..|p|] && q == path[..|q|];
  }

  ghost predicate Nonempty(routes: seq<Route>) {
    forall i :: 0 <= i < |routes| ==> routes[i].prefix != ""
  }

  /** Reordering the route table changes neither whether there is a match nor the prefix that
      matches; only routes with that very prefix compete by their order. */
  lemma OrderMattersOnlyAmongEquals(routes: seq<Route>, permuted: seq<Route>, q: Request, i: int, j: int)
    requires multiset(routes) == multiset(permuted) && Nonempty(routes) && "/" <= q.path
    requires Best(routes, q, i) && Best(permuted, q, j)
    ensures routes[i].prefix == permuted[j].prefix
  {
    assert routes[i] in multiset(permuted) && permuted[j] in multiset(routes);
    var i' :| 0 <= i' < |permuted| && permuted[i'] == routes[i];
    var j' :| 0 <= j' < |routes| && routes[j'] == permuted[j];
    assert routes[j'].prefix != "";
    MatchingPrefixesNest(routes[i].prefix, permuted[j].prefix, q.path);
  }

  lemma MatchSurvivesReordering(routes: seq<Route>, permuted: seq<Route>, q: Request, i: int)
    returns (j: int)
    requires multiset(routes) == multiset(permuted)
    requires Best(routes, q, i)
    ensures Best(permuted, q, j)
  {
    assert routes[i] in multiset(permuted);
    var k :| 0 <= k < |permuted| && permuted[k] == routes[i];
    j := BestExists(permuted, q, k);
  }

  /** Of two applicable routes, i ranks before j. */
  predicate Outranks(routes: seq<Route>, i: int, j: int)
    requires 0 <= i < |routes| && 0 <= j < |routes|
  {
    |routes[i].prefix| > |routes[j].prefix| || (|routes[i].prefix| == |routes[j].prefix| && i < j)
  }

  /** The host plays no part in the ranking: the winner names the host exactly if some applicable route that
      names it has a longer prefix than every applicable route for any host, or one as long, declared
      earlier. */
  lemma HostWinsIff(routes: seq<Route>, q: Request, winner: int)
    requires Best(routes, q, winner)
    ensures routes[winner].host != "" <==>
            exists i :: 0 <= i < |routes| && Applies(routes[i], q) && routes[i].host != ""
                        && forall j :: 0 <= j < |routes| && Applies(routes[j], q) && routes[j].host == "" ==>
                             Outranks(routes, i, j)
  {
    hide Applies;
    if routes[winner].host != "" {
      forall j | 0 <= j < |routes| && Applies(routes[j], q) && routes[j].host == ""
        ensures Outranks(routes, winner, j)
      {
      }
    }
  }

  /** So a route for any host, declared first, hides a route
      for one host with the same prefix and methods on every request. */
  lemma AnyHostRouteHides(routes: seq<Route>, q: Request, i: int, j: int)
    requires 0 <= i < j < |routes|
    requires routes[i].host == "" && routes[i].prefix == routes[j].prefix && routes[i].verbs == routes[j].verbs
    ensures !Best(routes, q, j)
  {
  }
}
