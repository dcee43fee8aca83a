/** The configuration: its sections, its copy operation and its validation.
    A slice of the program is nil or a list, and the two empty cases are told apart, because
    the restart check compares sections with deep equality while copying turns every empty slice
    into nil. */
module Config {
  import opened Wrappers

  datatype Slice<+T> = Nil | Items(items: seq<T>) {
    function Elems(): seq<T> {
      if Nil? then [] else items
    }
  }

  datatype HeaderMap = NoHeaders | HeaderMap(entries: map<string, string>)

  datatype ServerConfig = ServerConfig(publicAddr: string, adminAddr: string, readHeaderTimeout: int,
                                       readTimeout: int, writeTimeout: int, idleTimeout: int,
                                       shutdownTimeout: int, tlsCertFile: string, tlsKeyFile: string)

  datatype Peer = Peer(id: string, address: string, publicURL: string, adminURL: string)

  datatype ClusterConfig = ClusterConfig(enabled: bool, nodeID: string, bindAddr: string, advertiseAddr: string,
                                         dataDir: string, bootstrap: bool, peers: Slice<Peer>, virtualIP: string,
                                         iface: string, onLeaderCommand: string, onFollowerCommand: string,
                                         forwardTimeout: int, assignmentTTL: int)

  datatype ControlPlaneConfig = ControlPlaneConfig(ui: bool, openAPIPath: string)

  datatype AuthConfig = AuthConfig(mode: string, issuerURL: string, clientID: string, clientSecretFile: string,
                                   sessionSecretFile: string, redirectURL: string, allowInsecureRedirect: bool,
                                   sessionCookieName: string, allowedScopes: Slice<string>)

  datatype Limits = Limits(maxConnections: int, maxInFlight: int, maxHeaderBytes: int, maxBodyBytes: int)

  datatype Route = Route(name: string, host: string, pathPrefix: string, verbs: Slice<string>, upstream: string,
                         requireAuth: bool, scopes: Slice<string>, headers: HeaderMap)

  datatype Upstream = Upstream(name: string, urls: Slice<string>, healthPath: string, dialTimeout: int,
                               requestTimeout: int, healthInterval: int, retryAttempts: int,
                               breakerThreshold: int, breakerCooldown: int)

  datatype Config = Config(server: ServerConfig, cluster: ClusterConfig, controlPlane: ControlPlaneConfig,
                           auth: AuthConfig, limits: Limits, routes: Slice<Route>, upstreams: Slice<Upstream>)

  // ---------- Copying ----------

  function CloneSlice<T>(s: Slice<T>): Slice<T> {
    if s.Elems() == [] then Nil else s
  }

  function CloneRoute(r: Route): Route {
    r.(verbs := CloneSlice(r.verbs), scopes := CloneSlice(r.scopes))
  }

  function CloneUpstream(u: Upstream): Upstream {
    u.(urls := CloneSlice(u.urls))
  }

  function CloneRoutes(routes: seq<Route>): seq<Route> {
    seq(|routes|, i requires 0 <= i < |routes| => CloneRoute(routes[i]))
  }

  function CloneUpstreams(upstreams: seq<Upstream>): seq<Upstream> {
    seq(|upstreams|, i requires 0 <= i < |upstreams| => CloneUpstream(upstreams[i]))
  }

  function Clone(c: Config): Config {
    c.(auth := c.auth.(allowedScopes := CloneSlice(c.auth.allowedScopes)),
       cluster := c.cluster.(peers := CloneSlice(c.cluster.peers)),
       routes := CloneSlice(Items(CloneRoutes(c.routes.Elems()))),
       upstreams := CloneSlice(Items(CloneUpstreams(c.upstreams.Elems()))))
  }

  predicate SameRoute(r: Route, s: Route) {
    && r.verbs.Elems() == s.verbs.Elems() && r.scopes.Elems() == s.scopes.Elems()
    && r.(verbs := Nil, scopes := Nil) == s.(verbs := Nil, scopes := Nil)
  }

  predicate SameUpstream(u: Upstream, w: Upstream) {
    u.urls.Elems() == w.urls.Elems() && u.(urls := Nil) == w.(urls := Nil)
  }

  /** What a configuration says outside its lists. */
  function WithoutLists(c: Config): Config {
    c.(auth := c.auth.(allowedScopes := Nil), cluster := c.cluster.(peers := Nil), routes := Nil, upstreams := Nil)
  }

  /** The same everywhere, in every list at every depth, except that nil and an empty list are alike. */
  predicate SameContent(c: Config, d: Config) {
    && WithoutLists(c) == WithoutLists(d)
    && c.auth.allowedScopes.Elems() == d.auth.allowedScopes.Elems()
    && c.cluster.peers.Elems() == d.cluster.peers.Elems()
    && |c.routes.Elems()| == |d.routes.Elems()|
    && |c.upstreams.Elems()| == |d.upstreams.Elems()|
    && (forall i :: 0 <= i < |c.routes.Elems()| ==> SameRoute(c.routes.Elems()[i], d.routes.Elems()[i]))
    && (forall i :: 0 <= i < |c.upstreams.Elems()| ==> SameUpstream(c.upstreams.Elems()[i], d.upstreams.Elems()[i]))
  }

  /** A copy has the same content, and copying it again changes nothing. */
  lemma CloneKeepsContent(c: Config)
    ensures SameContent(Clone(c), c)
    ensures Clone(c).routes.Elems() == CloneRoutes(c.routes.Elems())
    ensures Clone(c).upstreams.Elems() == CloneUpstreams(c.upstreams.Elems())
    ensures Clone(Clone(c)) == Clone(c)
  {
    var routes, upstreams := c.routes.Elems(), c.upstreams.Elems();
    assert CloneRoutes(CloneRoutes(routes)) == CloneRoutes(routes);
    assert CloneUpstreams(CloneUpstreams(upstreams)) == CloneUpstreams(upstreams);
  }

  lemma SameRouteVia(copy: Route, r: Route, s: Route)
    requires SameRoute(copy, r) && SameRoute(copy, s)
    ensures SameRoute(r, s)
  {
  }

  lemma SameShell(c: Config, d: Config)
    requires WithoutLists(c) == WithoutLists(d)
    requires c.auth.allowedScopes.Elems() == d.auth.allowedScopes.Elems()
    requires c.cluster.peers.Elems() == d.cluster.peers.Elems()
    requires CloneRoutes(c.routes.Elems()) == CloneRoutes(d.routes.Elems())
    requires CloneUpstreams(c.upstreams.Elems()) == CloneUpstreams(d.upstreams.Elems())
    ensures Clone(c) == Clone(d)
  {
  }

  /** Copying forgets nothing else: copies are equal exactly if the content is the same. */
  lemma ClonesEqualIff(c: Config, d: Config)
    ensures Clone(c) == Clone(d) <==> SameContent(c, d)
  {
    CloneKeepsContent(c);
    CloneKeepsContent(d);
    if Clone(c) == Clone(d) {
      assert WithoutLists(c) == WithoutLists(Clone(c)) == WithoutLists(d);
      forall i | 0 <= i < |c.routes.Elems()| ensures SameRoute(c.routes.Elems()[i], d.routes.Elems()[i]) {
        SameRouteVia(Clone(c).routes.Elems()[i], c.routes.Elems()[i], d.routes.Elems()[i]);
      }
    } else if SameContent(c, d) {
      assert CloneRoutes(c.routes.Elems()) == CloneRoutes(d.routes.Elems());
      assert CloneUpstreams(c.upstreams.Elems()) == CloneUpstreams(d.upstreams.Elems());
      SameShell(c, d);
      assert false;
    }
  }

  // ---------- Validation ----------

  datatype Url = Url(scheme: string, host: string, path: string)

  /** The URL parser of the standard library. */
  type Parser = string -> Option<Url>

  predicate Absolute(parse: Parser, s: string) {
    parse(s).Some? && parse(s).value.scheme != "" && parse(s).value.host != ""
  }

  datatype Fault =
    | MissingAddresses
    | UnpairedTLSFiles
    | IncompleteCluster
    | BadClusterTimes
    | IncompletePeer
    | DuplicateNode(id: string)
    | BadOpenAPIPath
    | UnknownAuthMode
    | MissingIssuer
    | MissingOIDCFiles
    | RelativeRedirect
    | InsecureRedirect
    | RouteWithoutAuth(name: string)
    | BadLimits

  /** The first fault in the list of peers, given the ids already taken. */
  function PeerError(peers: seq<Peer>, seen: set<string>): Option<Fault> {
    if peers == [] then None
    else if peers[0].id == "" || peers[0].address == "" then Some(IncompletePeer)
    else if peers[0].id in seen then Some(DuplicateNode(peers[0].id))
    else PeerError(peers[1..], seen + {peers[0].id})
  }

  function RouteAuthError(routes: seq<Route>, mode: string): Option<Fault> {
    if routes == [] then None
    else if routes[0].requireAuth && mode == "disabled" then Some(RouteWithoutAuth(routes[0].name))
    else RouteAuthError(routes[1..], mode)
  }

  function ClusterError(c: ClusterConfig): Option<Fault> {
    if c.nodeID == "" || c.bindAddr == "" || c.advertiseAddr == "" || c.dataDir == "" then Some(IncompleteCluster)
    else if c.forwardTimeout <= 0 || c.assignmentTTL <= 0 then Some(BadClusterTimes)
    else PeerError(c.peers.Elems(), {c.nodeID})
  }

  function AuthError(a: AuthConfig, parse: Parser): Option<Fault> {
    if a.mode != "disabled" && a.mode != "oidc" && a.mode != "bearer" then Some(UnknownAuthMode)
    else if (a.mode == "oidc" || a.mode == "bearer") && (a.issuerURL == "" || a.clientID == "") then Some(MissingIssuer)
    else if a.mode == "oidc" && (a.redirectURL == "" || a.clientSecretFile == "" || a.sessionSecretFile == "") then
      Some(MissingOIDCFiles)
    else if a.mode == "oidc" && !Absolute(parse, a.redirectURL) then Some(RelativeRedirect)
    else if a.mode == "oidc" && parse(a.redirectURL).value.scheme != "https" && !a.allowInsecureRedirect then
      Some(InsecureRedirect)
    else None
  }

  predicate GoodLimits(l: Limits) {
    l.maxConnections >= 1 && l.maxInFlight >= 1 && l.maxHeaderBytes >= 1024 && l.maxBodyBytes >= 1
  }

  /** The first rule a configuration breaks, in the order the program checks them. */
  function Validation(c: Config, parse: Parser): Option<Fault> {
    if c.server.publicAddr == "" || c.server.adminAddr == "" then Some(MissingAddresses)
    else if (c.server.tlsCertFile == "") != (c.server.tlsKeyFile == "") then Some(UnpairedTLSFiles)
    else if c.cluster.enabled && ClusterError(c.cluster).Some? then ClusterError(c.cluster)
    else if c.controlPlane.openAPIPath == "" || c.controlPlane.openAPIPath[0] != '/' then Some(BadOpenAPIPath)
    else if AuthError(c.auth, parse).Some? then AuthError(c.auth, parse)
    else if RouteAuthError(c.routes.Elems(), c.auth.mode).Some? then RouteAuthError(c.routes.Elems(), c.auth.mode)
    else if !GoodLimits(c.limits) then Some(BadLimits)
    else None
  }

  method Validate(c: Config, parse: Parser) returns (err: Option<Fault>)
    ensures err == Validation(c, parse)
  {
    if c.server.publicAddr == "" || c.server.adminAddr == "" {
      return Some(MissingAddresses);
    }
    if (c.server.tlsCertFile == "") != (c.server.tlsKeyFile == "") {
      return Some(UnpairedTLSFiles);
    }
    if c.cluster.enabled {
      if c.cluster.nodeID == "" || c.cluster.bindAddr == "" || c.cluster.advertiseAddr == ""
         || c.cluster.dataDir == ""
      {
        return Some(IncompleteCluster);
      }
      if c.cluster.forwardTimeout <= 0 || c.cluster.assignmentTTL <= 0 {
        return Some(BadClusterTimes);
      }
      var seen := {c.cluster.nodeID};
      var peers := c.cluster.peers.Elems();
      for i := 0 to |peers|
        invariant PeerError(peers, {c.cluster.nodeID}) == PeerError(peers[i..], seen)
      {
        if peers[i].id == "" || peers[i].address == "" {
          return Some(IncompletePeer);
        }
        if peers[i].id in seen {
          return Some(DuplicateNode(peers[i].id));
        }
        seen := seen + {peers[i].id};
        assert peers[i..][1..] == peers[i + 1..];
      }
    }
    if c.controlPlane.openAPIPath == "" || c.controlPlane.openAPIPath[0] != '/' {
      return Some(BadOpenAPIPath);
    }
    err := AuthError(c.auth, parse);
    if err.Some? {
      return;
    }
    var routes := c.routes.Elems();
    for i := 0 to |routes|
      invariant RouteAuthError(routes, c.auth.mode) == RouteAuthError(routes[i..], c.auth.mode)
    {
      if routes[i].requireAuth && c.auth.mode == "disabled" {
        return Some(RouteWithoutAuth(routes[i].name));
      }
      assert routes[i..][1..] == routes[i + 1..];
    }
    if !GoodLimits(c.limits) {
      return Some(BadLimits);
    }
    return None;
  }

  // ---------- What an accepted configuration guarantees ----------

  function MemberIDs(c: ClusterConfig): seq<string> {
    [c.nodeID] + seq(|c.peers.Elems()|, i requires 0 <= i < |c.peers.Elems()| => c.peers.Elems()[i].id)
  }

  ghost predicate Distinct(s: seq<string>) {
    forall i, j :: 0 <= i < j < |s| ==> s[i] != s[j]
  }

  lemma {:induction false} PeersFaultless(peers: seq<Peer>, seen: set<string>)
    ensures PeerError(peers, seen).None? <==>
            && (forall i :: 0 <= i < |peers| ==> peers[i].id != "" && peers[i].address != "" && peers[i].id !in seen)
            && (forall i, j :: 0 <= i < j < |peers| ==> peers[i].id != peers[j].id)
  {
    if peers == [] {
    } else {
      var rest := peers[1..];
      PeersFaultless(rest, seen + {peers[0].id});
      if PeerError(peers, seen).None? {
        forall i | 0 <= i < |peers| ensures peers[i].id != "" && peers[i].address != "" && peers[i].id !in seen {
          if i > 0 { assert peers[i] == rest[i - 1]; }
        }
        forall i, j | 0 <= i < j < |peers| ensures peers[i].id != peers[j].id {
          assert peers[j] == rest[j - 1];
          if i > 0 { assert peers[i] == rest[i - 1]; }
        }
      }
    }
  }

  /** The ids of the members of an accepted cluster are distinct and nonempty; and distinct,
      complete members are refused for no fault of the list. */
  lemma ClusterMembersDistinct(c: ClusterConfig)
    requires c.nodeID != ""
    ensures PeerError(c.peers.Elems(), {c.nodeID}).None? <==>
            && Distinct(MemberIDs(c))
            && forall i :: 0 <= i < |c.peers.Elems()| ==>
                 c.peers.Elems()[i].id != "" && c.peers.Elems()[i].address != ""
  {
    var peers, ids := c.peers.Elems(), MemberIDs(c);
    PeersFaultless(peers, {c.nodeID});
    assert forall i :: 0 <= i < |peers| ==> ids[i + 1] == peers[i].id;
    if Distinct(ids) {
      forall i | 0 <= i < |peers| ensures peers[i].id != c.nodeID { assert ids[0] != ids[i + 1]; }
      forall i, j | 0 <= i < j < |peers| ensures peers[i].id != peers[j].id { assert ids[i + 1] != ids[j + 1]; }
    }
  }

  lemma {:induction false} RoutesFaultless(routes: seq<Route>, mode: string)
    ensures RouteAuthError(routes, mode).None? <==>
            mode != "disabled" || forall i :: 0 <= i < |routes| ==> !routes[i].requireAuth
  {
    if routes == [] {
    } else {
      RoutesFaultless(routes[1..], mode);
      if forall i :: 0 <= i < |routes[1..]| ==> !routes[1..][i].requireAuth {
        assert forall i :: 1 <= i < |routes| ==> routes[i] == routes[1..][i - 1];
      }
      if forall i :: 0 <= i < |routes| ==> !routes[i].requireAuth {
        assert forall i :: 0 <= i < |routes| - 1 ==> routes[1..][i] == routes[i + 1];
      }
    }
  }

  /** The rules as one condition on the whole configuration. */
  ghost predicate Acceptable(c: Config, parse: Parser) {
    && c.server.publicAddr != "" && c.server.adminAddr != ""
    && (c.server.tlsCertFile == "" <==> c.server.tlsKeyFile == "")
    && (c.cluster.enabled ==>
          && c.cluster.nodeID != "" && c.cluster.bindAddr != "" && c.cluster.advertiseAddr != ""
          && c.cluster.dataDir != "" && c.cluster.forwardTimeout > 0 && c.cluster.assignmentTTL > 0
          && Distinct(MemberIDs(c.cluster))
          && forall i :: 0 <= i < |c.cluster.peers.Elems()| ==>
               c.cluster.peers.Elems()[i].id != "" && c.cluster.peers.Elems()[i].address != "")
    && c.controlPlane.openAPIPath != "" && c.controlPlane.openAPIPath[0] == '/'
    && c.auth.mode in {"disabled", "oidc", "bearer"}
    && (c.auth.mode != "disabled" ==> c.auth.issuerURL != "" && c.auth.clientID != "")
    && (c.auth.mode == "oidc" ==>
          && c.auth.clientSecretFile != "" && c.auth.sessionSecretFile != "" && c.auth.redirectURL != ""
          && parse(c.auth.redirectURL).Some? && parse(c.auth.redirectURL).value.scheme != ""
          && parse(c.auth.redirectURL).value.host != ""
          && (parse(c.auth.redirectURL).value.scheme == "https" || c.auth.allowInsecureRedirect))
    && (c.auth.mode == "disabled" ==> forall i :: 0 <= i < |c.routes.Elems()| ==> !c.routes.Elems()[i].requireAuth)
    && c.limits.maxConnections >= 1 && c.limits.maxInFlight >= 1 && c.limits.maxHeaderBytes >= 1024
    && c.limits.maxBodyBytes >= 1
  }

  lemma ValidationMeansAcceptable(c: Config, parse: Parser)
    ensures Validation(c, parse).None? <==> Acceptable(c, parse)
  {
    RoutesFaultless(c.routes.Elems(), c.auth.mode);
    if c.cluster.nodeID != "" { ClusterMembersDistinct(c.cluster); }
  }

  ghost predicate BadPeer(peers: seq<Peer>, seen: set<string>, i: int)
    requires 0 <= i < |peers|
  {
    || peers[i].id == "" || peers[i].address == "" || peers[i].id in seen
    || exists k :: 0 <= k < i && peers[k].id == peers[i].id
  }

  /** Peer i is the first that is incomplete or takes the id of the node or of an earlier peer. */
  ghost predicate FirstBadPeer(peers: seq<Peer>, seen: set<string>, i: int) {
    && 0 <= i < |peers| && BadPeer(peers, seen, i)
    && forall j :: 0 <= j < i ==> !BadPeer(peers, seen, j)
  }

  ghost predicate FirstProtected(routes: seq<Route>, i: int) {
    0 <= i < |routes| && routes[i].requireAuth && forall j :: 0 <= j < i ==> !routes[j].requireAuth
  }

  /** What each fault says about the configuration. */
  ghost predicate Breaks(c: Config, parse: Parser, f: Fault) {
    match f
    case MissingAddresses => c.server.publicAddr == "" || c.server.adminAddr == ""
    case UnpairedTLSFiles => (c.server.tlsCertFile == "") != (c.server.tlsKeyFile == "")
    case IncompleteCluster =>
      c.cluster.enabled && (c.cluster.nodeID == "" || c.cluster.bindAddr == "" || c.cluster.advertiseAddr == ""
                            || c.cluster.dataDir == "")
    case BadClusterTimes => c.cluster.enabled && (c.cluster.forwardTimeout <= 0 || c.cluster.assignmentTTL <= 0)
    case IncompletePeer =>
      c.cluster.enabled && exists i ::
        && FirstBadPeer(c.cluster.peers.Elems(), {c.cluster.nodeID}, i)
        && (c.cluster.peers.Elems()[i].id == "" || c.cluster.peers.Elems()[i].address == "")
    case DuplicateNode(id) =>
      c.cluster.enabled && exists i ::
        && FirstBadPeer(c.cluster.peers.Elems(), {c.cluster.nodeID}, i)
        && c.cluster.peers.Elems()[i].id == id != "" && c.cluster.peers.Elems()[i].address != ""
    case BadOpenAPIPath => c.controlPlane.openAPIPath == "" || c.controlPlane.openAPIPath[0] != '/'
    case UnknownAuthMode => c.auth.mode !in {"disabled", "oidc", "bearer"}
    case MissingIssuer => c.auth.mode in {"oidc", "bearer"} && (c.auth.issuerURL == "" || c.auth.clientID == "")
    case MissingOIDCFiles =>
      c.auth.mode == "oidc"
      && (c.auth.redirectURL == "" || c.auth.clientSecretFile == "" || c.auth.sessionSecretFile == "")
    case RelativeRedirect =>
      c.auth.mode == "oidc"
      && (|| parse(c.auth.redirectURL).None? || parse(c.auth.redirectURL).value.scheme == ""
          || parse(c.auth.redirectURL).value.host == "")
    case InsecureRedirect =>
      c.auth.mode == "oidc" && parse(c.auth.redirectURL).Some? && parse(c.auth.redirectURL).value.scheme != "https"
      && !c.auth.allowInsecureRedirect
    case RouteWithoutAuth(name) =>
      c.auth.mode == "disabled"
      && exists i :: FirstProtected(c.routes.Elems(), i) && c.routes.Elems()[i].name == name
    case BadLimits =>
      || c.limits.maxConnections < 1 || c.limits.maxInFlight < 1 || c.limits.maxHeaderBytes < 1024
      || c.limits.maxBodyBytes < 1
  }

  /** The order in which the program looks for them. */
  function Rank(f: Fault): nat {
    match f
    case MissingAddresses => 0
    case UnpairedTLSFiles => 1
    case IncompleteCluster => 2
    case BadClusterTimes => 3
    case IncompletePeer => 4
    case DuplicateNode(_) => 4
    case BadOpenAPIPath => 5
    case UnknownAuthMode => 6
    case MissingIssuer => 7
    case MissingOIDCFiles => 8
    case RelativeRedirect => 9
    case InsecureRedirect => 10
    case RouteWithoutAuth(_) => 11
    case BadLimits => 12
  }

  lemma SameBadPeer(peers: seq<Peer>, seen: set<string>, j: int)
    requires 0 <= j < |peers| - 1
    ensures BadPeer(peers[1..], seen + {peers[0].id}, j) <==> BadPeer(peers, seen, j + 1)
  {
    var rest := peers[1..];
    assert rest[j] == peers[j + 1];
    if k :| 0 <= k < j + 1 && peers[k].id == peers[j + 1].id {
      if k > 0 { assert rest[k - 1].id == rest[j].id; }
    }
    if k :| 0 <= k < j && rest[k].id == rest[j].id {
      assert peers[k + 1].id == peers[j + 1].id;
    }
  }

  lemma {:induction false} PeerFault(peers: seq<Peer>, seen: set<string>) returns (i: int)
    requires PeerError(peers, seen).Some?
    ensures FirstBadPeer(peers, seen, i)
    ensures PeerError(peers, seen).value ==
            if peers[i].id == "" || peers[i].address == "" then IncompletePeer else DuplicateNode(peers[i].id)
  {
    if peers[0].id == "" || peers[0].address == "" || peers[0].id in seen {
      i := 0;
    } else {
      var rest, more := peers[1..], seen + {peers[0].id};
      i := PeerFault(rest, more);
      forall j | 0 <= j < |rest| ensures BadPeer(rest, more, j) <==> BadPeer(peers, seen, j + 1) {
        SameBadPeer(peers, seen, j);
      }
      i := i + 1;
      forall j | 0 <= j < i ensures !BadPeer(peers, seen, j) {
        if j > 0 { assert !BadPeer(rest, more, j - 1); }
      }
    }
  }

  lemma {:induction false} RouteFault(routes: seq<Route>, mode: string) returns (i: int)
    requires RouteAuthError(routes, mode).Some?
    ensures mode == "disabled" && FirstProtected(routes, i)
    ensures RouteAuthError(routes, mode) == Some(RouteWithoutAuth(routes[i].name))
  {
    if routes[0].requireAuth && mode == "disabled" {
      i := 0;
    } else {
      i := RouteFault(routes[1..], mode);
      assert forall j :: 0 < j < |routes| ==> routes[j] == routes[1..][j - 1];
      i := i + 1;
    }
  }

  lemma ClusterFault(c: Config, parse: Parser)
    requires c.cluster.enabled && ClusterError(c.cluster).Some?
    ensures Breaks(c, parse, ClusterError(c.cluster).value) && 2 <= Rank(ClusterError(c.cluster).value) <= 4
  {
    hide FirstBadPeer;
    var peers := c.cluster.peers.Elems();
    if PeerError(peers, {c.cluster.nodeID}).Some? {
      var i := PeerFault(peers, {c.cluster.nodeID});
    }
  }

  lemma AuthFault(c: Config, parse: Parser)
    requires AuthError(c.auth, parse).Some?
    ensures Breaks(c, parse, AuthError(c.auth, parse).value) && 6 <= Rank(AuthError(c.auth, parse).value) <= 10
  {
  }

  /** The fault that is reported is there. */
  lemma ReportedFault(c: Config, parse: Parser)
    requires Validation(c, parse).Some?
    ensures Breaks(c, parse, Validation(c, parse).value)
  {
    hide ClusterError, AuthError, RouteAuthError;
    if c.cluster.enabled && ClusterError(c.cluster).Some? { ClusterFault(c, parse); }
    if AuthError(c.auth, parse).Some? { AuthFault(c, parse); }
    if RouteAuthError(c.routes.Elems(), c.auth.mode).Some? {
      var i := RouteFault(c.routes.Elems(), c.auth.mode);
    }
  }

  /** No peer is bad if none is reported. */
  lemma NoBadPeer(peers: seq<Peer>, seen: set<string>, i: int)
    requires PeerError(peers, seen).None?
    ensures !FirstBadPeer(peers, seen, i)
  {
    PeersFaultless(peers, seen);
  }

  /** A fault of the cluster is absent if one of higher rank is reported for it, or none. */
  lemma NoClusterFault(c: Config, parse: Parser, f: Fault)
    requires 2 <= Rank(f) <= 4
    requires c.cluster.enabled && ClusterError(c.cluster).Some? ==> Rank(f) < Rank(ClusterError(c.cluster).value)
    ensures !Breaks(c, parse, f)
  {
    hide FirstBadPeer;
    if c.cluster.enabled && ClusterError(c.cluster).None? {
      forall i ensures !FirstBadPeer(c.cluster.peers.Elems(), {c.cluster.nodeID}, i) {
        NoBadPeer(c.cluster.peers.Elems(), {c.cluster.nodeID}, i);
      }
    } else if c.cluster.enabled {
      ClusterFault(c, parse);
    }
  }

  lemma NoAuthFault(c: Config, parse: Parser, f: Fault)
    requires 6 <= Rank(f) <= 10
    requires AuthError(c.auth, parse).Some? ==> Rank(f) < Rank(AuthError(c.auth, parse).value)
    ensures !Breaks(c, parse, f)
  {
  }

  /** And no fault that the program looks for earlier is. */
  lemma FirstFault(c: Config, parse: Parser, earlier: Fault)
    requires Validation(c, parse).Some? && Rank(earlier) < Rank(Validation(c, parse).value)
    ensures Breaks(c, parse, Validation(c, parse).value) && !Breaks(c, parse, earlier)
  {
    ReportedFault(c, parse);
    if c.cluster.enabled && ClusterError(c.cluster).Some? { ClusterFault(c, parse); }
    if AuthError(c.auth, parse).Some? { AuthFault(c, parse); }
    RoutesFaultless(c.routes.Elems(), c.auth.mode);
    if RouteAuthError(c.routes.Elems(), c.auth.mode).Some? {
      var i := RouteFault(c.routes.Elems(), c.auth.mode);
    }
    hide ClusterError, AuthError, RouteAuthError;
    if 2 <= Rank(earlier) <= 4 {
      NoClusterFault(c, parse, earlier);
    } else if 6 <= Rank(earlier) <= 10 {
      NoAuthFault(c, parse, earlier);
    }
  }

  lemma {:induction false} RouteAuthIgnoresNil(routes: seq<Route>, mode: string)
    ensures RouteAuthError(CloneRoutes(routes), mode) == RouteAuthError(routes, mode)
  {
    if routes == [] {
    } else {
      RouteAuthIgnoresNil(routes[1..], mode);
      assert CloneRoutes(routes)[1..] == CloneRoutes(routes[1..]);
    }
  }

  lemma AuthIgnoresScopes(a: AuthConfig, scopes: Slice<string>, parse: Parser)
    ensures AuthError(a.(allowedScopes := scopes), parse) == AuthError(a, parse)
  {
  }

  lemma ClusterIgnoresNil(c: ClusterConfig)
    ensures ClusterError(c.(peers := CloneSlice(c.peers))) == ClusterError(c)
  {
  }

  /** Validation does not see the difference between a configuration and its copy. */
  lemma CloneValidatesAlike(c: Config, parse: Parser)
    ensures Validation(Clone(c), parse) == Validation(c, parse)
  {
    hide AuthError, ClusterError, RouteAuthError;
    CloneKeepsContent(c);
    AuthIgnoresScopes(c.auth, CloneSlice(c.auth.allowedScopes), parse);
    ClusterIgnoresNil(c.cluster);
    RouteAuthIgnoresNil(c.routes.Elems(), c.auth.mode);
  }
}
