/** Who can write to a configuration.  Here slices and maps are objects in the heap, shared by
    assignment; `Clone` copies all of them, so that a snapshot cannot be reached from outside. */
module Ownership {
  import opened Wrappers
  import C = Config

  /** A Go map. */
  class StringMap {
    var entries: map<string, string>

    constructor (entries: map<string, string>)
      ensures this.entries == entries
    {
      this.entries := entries;
    }
  }

  /** The structures of the configuration: `plain` holds the fields that are values, and its slices and
      maps are ignored in favour of the references beside it. */
  datatype Route = Route(plain: C.Route, verbs: array?<string>, scopes: array?<string>, headers: StringMap?)

  datatype Upstream = Upstream(plain: C.Upstream, urls: array?<string>)

  datatype Config = Config(plain: C.Config, allowedScopes: array?<string>, peers: array?<C.Peer>,
                           routes: array?<Route>, upstreams: array?<Upstream>)

  // ---------- What a configuration says ----------

  function SliceOf<T>(a: array?<T>): C.Slice<T>
    reads a
  {
    if a == null then C.Nil else C.Items(a[..])
  }

  function RouteValue(r: Route): C.Route
    reads r.verbs, r.scopes, r.headers
  {
    r.plain.(verbs := SliceOf(r.verbs), scopes := SliceOf(r.scopes),
             headers := if r.headers == null then C.NoHeaders else C.HeaderMap(r.headers.entries))
  }

  function UpstreamValue(u: Upstream): C.Upstream
    reads u.urls
  {
    u.plain.(urls := SliceOf(u.urls))
  }

  // ---------- What it can reach ----------

  ghost function Objects(o: object?): set<object> {
    if o == null then {} else {o}
  }

  ghost function RouteObjects(r: Route): set<object> {
    Objects(r.verbs) + Objects(r.scopes) + Objects(r.headers)
  }

  ghost function Union(sets: seq<set<object>>): (all: set<object>)
    ensures forall i :: 0 <= i < |sets| ==> sets[i] <= all
    ensures forall o :: o in all ==> exists i :: 0 <= i < |sets| && o in sets[i]
  {
    if sets == [] then {} else Union(sets[..|sets| - 1]) + sets[|sets| - 1]
  }

  ghost function RouteSeqReach(s: seq<Route>): set<object> {
    Union(seq(|s|, i requires 0 <= i < |s| => RouteObjects(s[i])))
  }

  ghost function UpstreamSeqReach(s: seq<Upstream>): set<object> {
    Union(seq(|s|, i requires 0 <= i < |s| => Objects(s[i].urls)))
  }

  lemma RouteReached(s: seq<Route>, i: int)
    requires 0 <= i < |s|
    ensures RouteObjects(s[i]) <= RouteSeqReach(s)
  {
    var sets := seq(|s|, i requires 0 <= i < |s| => RouteObjects(s[i]));
    assert sets[i] == RouteObjects(s[i]);
  }

  lemma UpstreamReached(s: seq<Upstream>, i: int)
    requires 0 <= i < |s|
    ensures Objects(s[i].urls) <= UpstreamSeqReach(s)
  {
    var sets := seq(|s|, i requires 0 <= i < |s| => Objects(s[i].urls));
    assert sets[i] == Objects(s[i].urls);
  }

  lemma {:induction false} UnionWithin(sets: seq<set<object>>, all: set<object>)
    requires forall i :: 0 <= i < |sets| ==> sets[i] <= all
    ensures Union(sets) <= all
  {
    if sets == [] {
    } else {
      UnionWithin(sets[..|sets| - 1], all);
    }
  }

  lemma RoutesWithin(s: seq<Route>, all: set<object>)
    requires forall i :: 0 <= i < |s| ==> RouteObjects(s[i]) <= all
    ensures RouteSeqReach(s) <= all
  {
    UnionWithin(seq(|s|, i requires 0 <= i < |s| => RouteObjects(s[i])), all);
  }

  lemma UpstreamsWithin(s: seq<Upstream>, all: set<object>)
    requires forall i :: 0 <= i < |s| ==> Objects(s[i].urls) <= all
    ensures UpstreamSeqReach(s) <= all
  {
    UnionWithin(seq(|s|, i requires 0 <= i < |s| => Objects(s[i].urls)), all);
  }

  ghost function RoutesReach(a: array?<Route>): set<object>
    reads a
  {
    if a == null then {} else {a} + RouteSeqReach(a[..])
  }

  ghost function UpstreamsReach(a: array?<Upstream>): set<object>
    reads a
  {
    if a == null then {} else {a} + UpstreamSeqReach(a[..])
  }

  ghost function Reach(c: Config): (reach: set<object>)
    reads c.routes, c.upstreams
    ensures c.routes != null ==> c.routes in reach
    ensures c.upstreams != null ==> c.upstreams in reach
  {
    Objects(c.allowedScopes) + Objects(c.peers) + RoutesReach(c.routes) + UpstreamsReach(c.upstreams)
  }

  ghost function RouteAt(a: array<Route>, i: int): C.Route
    requires 0 <= i < a.Length
    reads a, RoutesReach(a)
  {
    RouteReached(a[..], i);
    RouteValue(a[i])
  }

  ghost function RouteValues(a: array?<Route>): C.Slice<C.Route>
    reads a, RoutesReach(a)
  {
    if a == null then C.Nil
    else C.Items(seq(a.Length, i requires 0 <= i < a.Length reads a, RoutesReach(a) => RouteAt(a, i)))
  }

  ghost function UpstreamAt(a: array<Upstream>, i: int): C.Upstream
    requires 0 <= i < a.Length
    reads a, UpstreamsReach(a)
  {
    UpstreamReached(a[..], i);
    UpstreamValue(a[i])
  }

  ghost function UpstreamValues(a: array?<Upstream>): C.Slice<C.Upstream>
    reads a, UpstreamsReach(a)
  {
    if a == null then C.Nil
    else C.Items(seq(a.Length, i requires 0 <= i < a.Length reads a, UpstreamsReach(a) => UpstreamAt(a, i)))
  }

  function ClonedRoutes(routes: C.Slice<C.Route>): C.Slice<C.Route> {
    C.CloneSlice(C.Items(C.CloneRoutes(routes.Elems())))
  }

  function ClonedUpstreams(upstreams: C.Slice<C.Upstream>): C.Slice<C.Upstream> {
    C.CloneSlice(C.Items(C.CloneUpstreams(upstreams.Elems())))
  }

  /** The parts of a configuration that live in the heap, as values, beside those that do not. */
  datatype Parts = Parts(plain: C.Config, allowedScopes: C.Slice<string>, peers: C.Slice<C.Peer>,
                         routes: C.Slice<C.Route>, upstreams: C.Slice<C.Upstream>) {
    function Whole(): C.Config {
      plain.(auth := plain.auth.(allowedScopes := allowedScopes), cluster := plain.cluster.(peers := peers),
             routes := routes, upstreams := upstreams)
    }

    function Cloned(): Parts {
      Parts(plain, C.CloneSlice(allowedScopes), C.CloneSlice(peers), ClonedRoutes(routes), ClonedUpstreams(upstreams))
    }
  }

  lemma ClonedWhole(p: Parts)
    ensures p.Cloned().Whole() == C.Clone(p.Whole())
  {
  }

  ghost function PartsOf(c: Config): Parts
    reads c.routes, c.upstreams, Reach(c)
  {
    Parts(c.plain, SliceOf(c.allowedScopes), SliceOf(c.peers), RouteValues(c.routes), UpstreamValues(c.upstreams))
  }

  /** The configuration as a value. */
  ghost function Value(c: Config): C.Config
    reads c.routes, c.upstreams, Reach(c)
  {
    PartsOf(c).Whole()
  }

  // ---------- Copying ----------

  method CloneArray<T>(a: array?<T>) returns (b: array?<T>)
    ensures SliceOf(b) == C.CloneSlice(SliceOf(a))
    ensures fresh(Objects(b))
  {
    if a == null || a.Length == 0 {
      return null;
    }
    b := new T[a.Length](i requires 0 <= i < a.Length reads a => a[i]);
    assert b[..] == a[..];
  }

  method CloneStringMap(h: StringMap?) returns (copy: StringMap?)
    ensures h == null <==> copy == null
    ensures copy != null ==> copy.entries == h.entries
    ensures fresh(Objects(copy))
  {
    if h == null {
      return null;
    }
    copy := new StringMap(map[]);
    var rest := h.entries.Keys;
    while rest != {}
      invariant rest <= h.entries.Keys && fresh(copy)
      invariant copy.entries.Keys == h.entries.Keys - rest
      invariant forall k :: k in copy.entries ==> copy.entries[k] == h.entries[k]
      decreases rest
    {
      var key :| key in rest;
      copy.entries := copy.entries[key := h.entries[key]];
      rest := rest - {key};
    }
  }

  method CloneRoute(r: Route) returns (copy: Route)
    ensures RouteValue(copy) == C.CloneRoute(RouteValue(r))
    ensures fresh(RouteObjects(copy))
  {
    var verbs := CloneArray(r.verbs);
    var scopes := CloneArray(r.scopes);
    var headers := CloneStringMap(r.headers);
    copy := Route(r.plain, verbs, scopes, headers);
  }

  lemma NotInRow(b: array<Route>, r: Route)
    ensures b !in RouteObjects(r)
  {
  }

  method CloneRouteRows(b: array<Route>, ghost before: seq<C.Route>)
    requires |before| == b.Length && forall k :: 0 <= k < b.Length ==> RouteValue(b[k]) == before[k]
    modifies b
    ensures forall k :: 0 <= k < b.Length ==> fresh(RouteObjects(b[k]))
    ensures forall k :: 0 <= k < b.Length ==> RouteValue(b[k]) == C.CloneRoute(before[k])
  {
    hide C.CloneRoute, RouteValue;
    for i := 0 to b.Length
      invariant forall k :: i <= k < b.Length ==> RouteValue(b[k]) == before[k]
      invariant forall k :: 0 <= k < i ==> fresh(RouteObjects(b[k])) && RouteValue(b[k]) == C.CloneRoute(before[k])
    {
      var copy := CloneRoute(b[i]);
      forall k | 0 <= k < b.Length ensures b !in RouteObjects(b[k]) && b !in RouteObjects(copy) {
        NotInRow(b, b[k]);
        NotInRow(b, copy);
      }
      b[i] := copy;
    }
  }

  method CloneRoutes(a: array?<Route>) returns (b: array?<Route>)
    ensures RouteValues(b) == ClonedRoutes(old(RouteValues(a)))
    ensures fresh(RoutesReach(b))
  {
    hide C.CloneRoute, RouteValue, RouteObjects;
    b := CloneArray(a);
    if b == null {
      return;
    }
    ghost var before := RouteValues(a).items;
    assert forall k :: 0 <= k < b.Length ==> b[k] == a[k];
    CloneRouteRows(b, before);
    RouteRowsCloned(b, before);
  }

  lemma RouteRowsCloned(b: array<Route>, before: seq<C.Route>)
    requires |before| == b.Length && forall k :: 0 <= k < b.Length ==> RouteValue(b[k]) == C.CloneRoute(before[k])
    ensures RouteValues(b) == C.Items(C.CloneRoutes(before))
  {
    hide C.CloneRoute, RouteValue, RouteSeqReach;
    assert RouteValues(b).items == C.CloneRoutes(before);
  }

  method CloneUpstream(u: Upstream) returns (copy: Upstream)
    ensures UpstreamValue(copy) == C.CloneUpstream(UpstreamValue(u))
    ensures fresh(Objects(copy.urls))
  {
    var urls := CloneArray(u.urls);
    copy := Upstream(u.plain, urls);
  }

  lemma NotTheSlice(b: array<Upstream>, s: array?<string>)
    ensures b !in Objects(s)
  {
  }

  method CloneUpstreamRows(b: array<Upstream>, ghost before: seq<C.Upstream>)
    requires |before| == b.Length && forall k :: 0 <= k < b.Length ==> UpstreamValue(b[k]) == before[k]
    modifies b
    ensures forall k :: 0 <= k < b.Length ==> fresh(Objects(b[k].urls))
    ensures forall k :: 0 <= k < b.Length ==> UpstreamValue(b[k]) == C.CloneUpstream(before[k])
  {
    hide C.CloneUpstream, UpstreamValue;
    for i := 0 to b.Length
      invariant forall k :: i <= k < b.Length ==> UpstreamValue(b[k]) == before[k]
      invariant forall k :: 0 <= k < i ==> fresh(Objects(b[k].urls))
      invariant forall k :: 0 <= k < i ==> UpstreamValue(b[k]) == C.CloneUpstream(before[k])
    {
      var copy := CloneUpstream(b[i]);
      forall k | 0 <= k < b.Length ensures b !in Objects(b[k].urls) && b !in Objects(copy.urls) {
        NotTheSlice(b, b[k].urls);
        NotTheSlice(b, copy.urls);
      }
      b[i] := copy;
    }
  }

  method CloneUpstreams(a: array?<Upstream>) returns (b: array?<Upstream>)
    ensures UpstreamValues(b) == ClonedUpstreams(old(UpstreamValues(a)))
    ensures fresh(UpstreamsReach(b))
  {
    hide C.CloneUpstream, UpstreamValue;
    b := CloneArray(a);
    if b == null {
      return;
    }
    ghost var before := UpstreamValues(a).items;
    assert forall k :: 0 <= k < b.Length ==> b[k] == a[k];
    CloneUpstreamRows(b, before);
    UpstreamRowsCloned(b, before);
  }

  lemma UpstreamRowsCloned(b: array<Upstream>, before: seq<C.Upstream>)
    requires |before| == b.Length && forall k :: 0 <= k < b.Length ==> UpstreamValue(b[k]) == C.CloneUpstream(before[k])
    ensures UpstreamValues(b) == C.Items(C.CloneUpstreams(before))
  {
    hide C.CloneUpstream, UpstreamValue, UpstreamSeqReach;
    assert UpstreamValues(b).items == C.CloneUpstreams(before);
  }

  lemma KnownRoutes(a: array?<Route>)
    ensures forall o :: o in RoutesReach(a) ==> allocated(o)
  {
  }

  lemma KnownUpstreams(a: array?<Upstream>)
    ensures forall o :: o in UpstreamsReach(a) ==> allocated(o)
  {
  }

  /** Both lists of structures, one after the other. */
  method CloneTables(r: array?<Route>, u: array?<Upstream>) returns (routes: array?<Route>, upstreams: array?<Upstream>)
    ensures RouteValues(routes) == ClonedRoutes(old(RouteValues(r))) && fresh(RoutesReach(routes))
    ensures UpstreamValues(upstreams) == ClonedUpstreams(old(UpstreamValues(u))) && fresh(UpstreamsReach(upstreams))
  {
    hide RouteValues, UpstreamValues, ClonedRoutes, ClonedUpstreams, RoutesReach, UpstreamsReach;
    KnownUpstreams(u);
    routes := CloneRoutes(r);
    KnownRoutes(routes);
    upstreams := CloneUpstreams(u);
  }

  method CloneFlat(scopes: array?<string>, peers: array?<C.Peer>)
    returns (scopes': array?<string>, peers': array?<C.Peer>)
    ensures SliceOf(scopes') == C.CloneSlice(SliceOf(scopes)) && fresh(Objects(scopes'))
    ensures SliceOf(peers') == C.CloneSlice(SliceOf(peers)) && fresh(Objects(peers'))
  {
    scopes' := CloneArray(scopes);
    peers' := CloneArray(peers);
  }

  method CloneParts(c: Config) returns (copy: Config)
    ensures PartsOf(copy) == old(PartsOf(c)).Cloned()
    ensures fresh(Reach(copy))
  {
    hide RouteValues, UpstreamValues, ClonedRoutes, ClonedUpstreams, RoutesReach, UpstreamsReach;
    hide C.CloneSlice, SliceOf;
    var routes, upstreams := CloneTables(c.routes, c.upstreams);
    KnownRoutes(routes);
    KnownUpstreams(upstreams);
    var allowedScopes, peers := CloneFlat(c.allowedScopes, c.peers);
    copy := Config(c.plain, allowedScopes, peers, routes, upstreams);
  }

  /** Everything a configuration reaches exists. */
  lemma Known(c: Config)
    ensures forall o :: o in Reach(c) ==> allocated(o)
  {
    KnownRoutes(c.routes);
    KnownUpstreams(c.upstreams);
  }

  /** A deep copy: the value of the copy is the copy of the value, and nothing it reaches
      existed before, so it shares no storage with anything. */
  method Clone(c: Config) returns (copy: Config)
    ensures Value(copy) == C.Clone(old(Value(c)))
    ensures fresh(Reach(copy)) && forall o :: o in Reach(copy) ==> allocated(o)
  {
    hide PartsOf, Reach;
    ghost var before := PartsOf(c);
    copy := CloneParts(c);
    ClonedWhole(before);
    Known(copy);
  }

  /** An immutable copy of a configuration, made by NewSnapshot and shown by Get. */
  datatype Snapshot = Snapshot(value: Config) {
    method Get() returns (copy: Config)
      ensures Value(copy) == C.Clone(old(Value(value)))
      ensures fresh(Reach(copy)) && forall o :: o in Reach(copy) ==> allocated(o)
    {
      hide Value, Reach;
      copy := Clone(value);
    }
  }

  method NewSnapshot(value: Config) returns (s: Snapshot)
    ensures Value(s.value) == C.Clone(old(Value(value)))
    ensures fresh(Reach(s.value)) && forall o :: o in Reach(s.value) ==> allocated(o)
  {
    hide Value, Reach;
    var copy := Clone(value);
    s := Snapshot(copy);
  }

  // ---------- Isolation ----------

  /** What the holder of some configurations can do, any number of times: read the snapshot again, follow a
      reference, make a slice, map or row of its own, and store anything it holds wherever it fits.
      Numbers name what is held; one that names nothing has no effect. */
  datatype Action =
    | Ask
    | NewStrings(items: seq<string>)
    | NewPeers(list: seq<C.Peer>)
    | NewMap(entries: map<string, string>)
    | NewRoutes(rows: seq<nat>)
    | NewUpstreams(rows: seq<nat>)
    | ReadRoute(table: nat, i: nat)
    | ReadUpstream(table: nat, i: nat)
    | MakeRoute(plain: C.Route, verbs: nat, scopes: nat, headers: nat)
    | MakeUpstream(fields: C.Upstream, urls: nat)
    | SetString(slice: nat, i: nat, text: string)
    | SetPeer(slice: nat, i: nat, peer: C.Peer)
    | SetMap(m: nat, entries: map<string, string>)
    | SetRoute(table: nat, i: nat, row: nat)
    | SetUpstream(table: nat, i: nat, row: nat)

  class Holder {
    var strings: seq<array?<string>>
    var peers: seq<array?<C.Peer>>
    var maps: seq<StringMap?>
    var routes: seq<Route>
    var upstreams: seq<Upstream>
    var routeTables: seq<array<Route>>
    var upstreamTables: seq<array<Upstream>>
    /** All storage that can be reached through these: what holds no references, and the tables. */
    ghost var ground: set<object>
    ghost var tables: set<array<Route>>
    ghost var lists: set<array<Upstream>>

    ghost function World(): set<object>
      reads this
    {
      ground + tables + lists
    }

    ghost predicate HoldsWithin()
      reads this
    {
      && (forall s :: s in strings ==> Objects(s) <= ground)
      && (forall s :: s in peers ==> Objects(s) <= ground)
      && (forall m :: m in maps ==> Objects(m) <= ground)
      && (forall r :: r in routes ==> RouteObjects(r) <= ground)
      && (forall u :: u in upstreams ==> Objects(u.urls) <= ground)
      && (forall t :: t in routeTables ==> t in tables)
      && (forall t :: t in upstreamTables ==> t in lists)
    }

    /** No reference leads out of the world. */
    ghost predicate Closed()
      reads this, tables, lists
    {
      && (forall t, i :: t in tables && 0 <= i < t.Length ==> RouteObjects(t[i]) <= ground)
      && (forall t, i :: t in lists && 0 <= i < t.Length ==> Objects(t[i].urls) <= ground)
      && this !in ground
    }

    ghost predicate Valid()
      reads this, tables, lists
    {
      HoldsWithin() && Closed()
    }

    constructor ()
      ensures Valid() && World() == {}
    {
      strings, peers, maps, routes, upstreams, routeTables, upstreamTables := [null], [null], [null], [], [], [], [];
      ground, tables, lists := {}, {}, {};
    }

    // Taking hold of a reference: of everything it leads to, that is.

    method KeepStrings(s: array?<string>)
      requires Valid()
      modifies this`strings, this`ground
      ensures Valid() && World() == old(World()) + Objects(s)
    {
      strings, ground := strings + [s], ground + Objects(s);
    }

    method KeepPeers(s: array?<C.Peer>)
      requires Valid()
      modifies this`peers, this`ground
      ensures Valid() && World() == old(World()) + Objects(s)
    {
      peers, ground := peers + [s], ground + Objects(s);
    }

    method KeepMap(m: StringMap?)
      requires Valid()
      modifies this`maps, this`ground
      ensures Valid() && World() == old(World()) + Objects(m)
    {
      maps, ground := maps + [m], ground + Objects(m);
    }

    method KeepRouteRow(r: Route)
      requires Valid()
      modifies this`routes, this`ground
      ensures Valid() && World() == old(World()) + RouteObjects(r)
    {
      routes, ground := routes + [r], ground + RouteObjects(r);
    }

    method KeepRoute(r: Route)
      requires Valid()
      modifies this
      ensures Valid() && World() == old(World()) + RouteObjects(r)
    {
      hide Valid, Objects;
      KeepRouteRow(r);
      KeepStrings(r.verbs);
      KeepStrings(r.scopes);
      KeepMap(r.headers);
    }

    method KeepUpstreamRow(u: Upstream)
      requires Valid()
      modifies this`upstreams, this`ground
      ensures Valid() && World() == old(World()) + Objects(u.urls)
    {
      upstreams, ground := upstreams + [u], ground + Objects(u.urls);
    }

    method KeepUpstream(u: Upstream)
      requires Valid()
      modifies this
      ensures Valid() && World() == old(World()) + Objects(u.urls)
    {
      hide Valid, Objects;
      KeepUpstreamRow(u);
      KeepStrings(u.urls);
    }

    method KeepRoutes(t: array?<Route>)
      requires Valid() && this !in RoutesReach(t)
      modifies this`routeTables, this`tables, this`ground
      ensures Valid() && World() == old(World()) + RoutesReach(t)
    {
      if t != null {
        routeTables, tables, ground := routeTables + [t], tables + {t}, ground + RouteSeqReach(t[..]);
        forall i | 0 <= i < t.Length ensures RouteObjects(t[i]) <= ground {
          RouteReached(t[..], i);
        }
      }
    }

    method KeepUpstreams(t: array?<Upstream>)
      requires Valid() && this !in UpstreamsReach(t)
      modifies this`upstreamTables, this`lists, this`ground
      ensures Valid() && World() == old(World()) + UpstreamsReach(t)
    {
      if t != null {
        upstreamTables, lists, ground := upstreamTables + [t], lists + {t}, ground + UpstreamSeqReach(t[..]);
        forall i | 0 <= i < t.Length ensures Objects(t[i].urls) <= ground {
          UpstreamReached(t[..], i);
        }
      }
    }

    method Receive(c: Config)
      requires Valid() && this !in Reach(c)
      modifies this
      ensures Valid() && World() == old(World()) + Reach(c)
    {
      hide Valid, Objects, RoutesReach, UpstreamsReach;
      KeepStrings(c.allowedScopes);
      KeepPeers(c.peers);
      KeepRoutes(c.routes);
      KeepUpstreams(c.upstreams);
    }

    // Acting on what is held.

    /** A slice or a map of its own. */
    method Allocate(action: Action)
      requires Valid()
      modifies this
      ensures Valid() && forall o :: o in World() ==> o in old(World()) || fresh(o)
    {
      match action
      case NewStrings(items) =>
        var s := new string[|items|](i requires 0 <= i < |items| => items[i]);
        KeepStrings(s);
      case NewPeers(list) =>
        var s := new C.Peer[|list|](i requires 0 <= i < |list| => list[i]);
        KeepPeers(s);
      case NewMap(entries) =>
        var m := new StringMap(entries);
        KeepMap(m);
      case _ =>
    }

    /** A table of its own, filled with rows that it holds. */
    method AllocateRoutes(rows: seq<nat>)
      requires Valid()
      modifies this
      ensures Valid() && forall o :: o in World() ==> o in old(World()) || fresh(o)
    {
      if forall k :: 0 <= k < |rows| ==> rows[k] < |routes| {
        var held := routes;
        var t := new Route[|rows|](i requires 0 <= i < |rows| => held[rows[i]]);
        assert forall i :: 0 <= i < t.Length ==> t[i] in routes;
        RoutesWithin(t[..], ground);
        hide Valid, RouteSeqReach;
        KeepRoutes(t);
      }
    }

    method AllocateUpstreams(rows: seq<nat>)
      requires Valid()
      modifies this
      ensures Valid() && forall o :: o in World() ==> o in old(World()) || fresh(o)
    {
      if forall k :: 0 <= k < |rows| ==> rows[k] < |upstreams| {
        var held := upstreams;
        var t := new Upstream[|rows|](i requires 0 <= i < |rows| => held[rows[i]]);
        assert forall i :: 0 <= i < t.Length ==> t[i] in upstreams;
        UpstreamsWithin(t[..], ground);
        hide Valid, UpstreamSeqReach;
        KeepUpstreams(t);
      }
    }

    /** Following a reference, or putting a row together. */
    method Look(action: Action)
      requires Valid()
      modifies this
      ensures Valid() && World() == old(World())
    {
      match action
      case ReadRoute(table, i) =>
        if table < |routeTables| && i < routeTables[table].Length {
          assert routeTables[table] in tables;
          KeepRoute(routeTables[table][i]);
        }
      case ReadUpstream(table, i) =>
        if table < |upstreamTables| && i < upstreamTables[table].Length {
          assert upstreamTables[table] in lists;
          KeepUpstream(upstreamTables[table][i]);
        }
      case MakeRoute(plain, verbs, scopes, headers) =>
        if verbs < |strings| && scopes < |strings| && headers < |maps| {
          assert strings[verbs] in strings && strings[scopes] in strings && maps[headers] in maps;
          KeepRoute(Route(plain, strings[verbs], strings[scopes], maps[headers]));
        }
      case MakeUpstream(fields, urls) =>
        if urls < |strings| {
          assert strings[urls] in strings;
          KeepUpstream(Upstream(fields, strings[urls]));
        }
      case _ =>
    }

    /** Writing into what holds no references. */
    method Write(action: Action)
      requires Valid()
      modifies ground
      ensures Valid() && World() == old(World())
    {
      match action
      case SetString(slice, i, text) =>
        if slice < |strings| && strings[slice] != null && i < strings[slice].Length {
          assert strings[slice] in strings && strings[slice] in Objects(strings[slice]);
          strings[slice][i] := text;
        }
      case SetPeer(slice, i, peer) =>
        if slice < |peers| && peers[slice] != null && i < peers[slice].Length {
          assert peers[slice] in peers && peers[slice] in Objects(peers[slice]);
          peers[slice][i] := peer;
        }
      case SetMap(m, entries) =>
        if m < |maps| && maps[m] != null {
          assert maps[m] in maps && maps[m] in Objects(maps[m]);
          maps[m].entries := entries;
        }
      case _ =>
    }

    /** Writing a row, with all its references, into a table. */
    method WriteRow(action: Action)
      requires Valid()
      modifies tables, lists
      ensures Valid() && World() == old(World())
    {
      match action
      case SetRoute(table, i, row) =>
        if table < |routeTables| && i < routeTables[table].Length && row < |routes| {
          routeTables[table][i] := routes[row];
        }
      case SetUpstream(table, i, row) =>
        if table < |upstreamTables| && i < upstreamTables[table].Length && row < |upstreams| {
          upstreamTables[table][i] := upstreams[row];
        }
      case _ =>
    }

    method Act(action: Action)
      requires Valid()
      modifies this, World()
      ensures Valid() && forall o :: o in World() ==> o in old(World()) || fresh(o)
    {
      match action
      case NewRoutes(rows) => AllocateRoutes(rows);
      case NewUpstreams(rows) => AllocateUpstreams(rows);
      case NewStrings(_) => Allocate(action);
      case NewPeers(_) => Allocate(action);
      case NewMap(_) => Allocate(action);
      case SetString(_, _, _) => Write(action);
      case SetPeer(_, _, _) => Write(action);
      case SetMap(_, _) => Write(action);
      case SetRoute(_, _, _) => WriteRow(action);
      case SetUpstream(_, _, _) => WriteRow(action);
      case _ => Look(action);
    }
  }

  /** One move of the holder leaves the snapshot alone and out of reach. */
  method Turn(snapshot: Snapshot, holder: Holder, action: Action)
    requires holder.Valid() && holder !in Reach(snapshot.value) && holder.World() !! Reach(snapshot.value)
    requires forall o :: o in Reach(snapshot.value) ==> allocated(o)
    modifies holder, holder.World()
    ensures holder.Valid() && holder.World() !! Reach(snapshot.value)
    ensures Reach(snapshot.value) == old(Reach(snapshot.value)) && Value(snapshot.value) == old(Value(snapshot.value))
    ensures forall o :: o in holder.World() ==> o in old(holder.World()) || fresh(o)
  {
    hide Value, Reach, C.Clone, Holder.Valid;
    if action.Ask? {
      var copy := snapshot.Get();
      holder.Receive(copy);
    } else {
      holder.Act(action);
    }
  }

  /** Snapshot isolation: whatever the holder of the constructor's argument does with it, and with
      everything that reads of the snapshot return, including storing their parts in each other, the
      snapshot still gives out a copy of the configuration it was made from. */
  method Isolation(argument: Config, script: seq<Action>) returns (last: Config)
    modifies Reach(argument)
    ensures Value(last) == C.Clone(old(Value(argument)))
    ensures fresh(Reach(last))
  {
    hide Value, Reach, C.Clone, Holder.Valid, Holder.World;
    Known(argument);
    ghost var original := Value(argument);
    var snapshot := NewSnapshot(argument);
    var holder := new Holder();
    holder.Receive(argument);
    for step := 0 to |script|
      invariant fresh(holder) && holder.Valid() && holder !in Reach(snapshot.value)
      invariant Value(snapshot.value) == C.Clone(original)
      invariant fresh(Reach(snapshot.value)) && forall o :: o in Reach(snapshot.value) ==> allocated(o)
      invariant holder.World() !! Reach(snapshot.value)
      invariant forall o :: o in holder.World() ==> fresh(o) || o in old(Reach(argument))
    {
      Turn(snapshot, holder, script[step]);
    }
    last := snapshot.Get();
    C.CloneKeepsContent(original);
  }
}
