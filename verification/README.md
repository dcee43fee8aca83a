# go-serve: a verified model

go-serve is an HTTP gateway. A *data plane* routes each request to an upstream pool, which picks an
endpoint behind a circuit breaker and retries; a *control plane* replaces the configuration of the
running gateway under optimistic versions; a *cluster* of gateways replicates which node serves which
client. This project models those three, with the authentication in front of the data plane, and proves
what they keep over every run.

Code of the gateway that updates objects in place is written here as classes and loops, each proved
against a specification function or predicate; the main results are about those, and about state machines
in which every locked or atomic operation of every request is a step of its own.

| file | part of the gateway |
|---|---|
| `Breaker.dfy`, `Probes.dfy`, `Pool.dfy`, `Proxy.dfy` | circuit breaker, endpoint selection, retries, health checks, and a whole proxied request |
| `ProxyRuns.dfy`, `Histories.dfy`, `Refinement.dfy` | all their interleavings, the history of each breaker in them, and the loops as runs without interruption |
| `Routing.dfy`, `Paths.dfy` | route matching, path joining |
| `Config.dfy`, `DataPlane.dfy`, `Versions.dfy`, `Activation.dfy`, `Serving.dfy` | validation, compilation, entity tags, the three planes, and what they can come to serve |
| `Admission.dfy`, `ListenerRuns.dfy` | in-flight limits across runtime generations, the connection limit |
| `Cluster.dfy` | replicated table, assignment, forwarding |
| `Ownership.dfy` | copying and sharing of configurations in the heap |
| `Identity.dfy`, `Login.dfy` | trusted headers, one-shot login states |

Where the code and its documentation disagree, the model follows the code:

- The retry transport may return neither response nor error (`Pool.AnswerIsOneOrNeither`).
- A pick in a pool with an even number of endpoints sees only half of it, and can fail for good while the other
  half has a server (`Pool.EvenPickMissesServer`, `Pool.StarvesIff`).  Requests then all go to endpoint 0, which may
  be the one that is down (`Proxy.DeadClassStarves`, `Proxy.HealthyHalfMissed`).
- "One probe in flight" holds until the breaker is told an outcome (`ProxyRuns.ProbeStaysAlone`), which a request from
  before the opening may do (`ProxyRuns.LateReportJoinsProbes`).
- `docs/CONTRIBUTING.md:60` speaks of the most specific host and path; the host plays no part in the ranking
  (`Routing.HostWinsIff`).
- The restart check compares nil and empty lists as different (`Activation.EmptyListIsNotNil`).
- The entity tag in the reply to a write does not protect from lost updates as `docs/CONFIGURATION.md`
  suggests, while the tag of a read does (`Activation.EveryGatewayLosesUpdates`, `Activation.NoLostUpdate`).  A client
  may go on from the tag of a reply exactly if it is one more than the version its write was made against
  (`Activation.ReplyTagSafeIff`).
- Requests of clients assigned to the leader are never forwarded to it (`Cluster.ForwardsIff`).

## Model

| member | source | states |
|---|---|---|
| Breaker.HistoryDetermines | internal/dataplane/server.go:402-446 | For every history of questions and reports: the count is the run of failures since the last success, the breaker is open exactly if that run has reached the threshold, until one cooldown after its latest failure, and half-open exactly if a probe is out with nothing reported since |
| Breaker.AdmissionFromHistory | internal/dataplane/server.go:411-422 | Whether a request gets in, told from the history alone, in both directions |
| Breaker.FailedProbeReopens | internal/dataplane/server.go:432-440 | A failure while a probe is out closes the door for exactly one full cooldown from the report |
| Breaker.AdmissionsSpaced | internal/dataplane/server.go:411-440 | Without a success and on a monotone clock, any two admissions after opening are a cooldown apart |
| Breaker.AdmissionRate | internal/dataplane/server.go:411-440 | So no window of width W holds more than W / cooldown + 1 of them |
| Breaker.OneProbePerOpening | internal/dataplane/server.go:411-422 | However many ask, one deadline lets at most one through before an outcome is reported |
| Breaker.CircuitBreaker.Allow | internal/dataplane/server.go:411-422 | The locked method answers and updates as the specification the histories are about |
| Breaker.CircuitBreaker.Failure | internal/dataplane/server.go:432-440 | The same for the report of a failure |
| Probes.OddWalkVisitsAll | internal/dataplane/server.go:345-353 | With an odd number of endpoints an undisturbed pick tries all of them if and only if the 64-bit counter does not overflow inside the walk |
| Probes.OddProbesDistinct | internal/dataplane/server.go:345-353 | and then tries none twice |
| Probes.EvenWalkVisits | internal/dataplane/server.go:345-353 | With an even number it tries exactly the endpoints of the parity of counter + 1 |
| Probes.EvenWalkKeepsParity | internal/dataplane/server.go:345-353 | and none of the other parity, even across an overflow |
| Probes.MissedEndpoint | internal/dataplane/server.go:345-353 | After an overflow inside the walk some endpoint of an odd pool is left out |
| Probes.TallyBalanced | internal/dataplane/server.go:345-353 | Of k consecutive first probes each of n endpoints gets k / n, rounded down or up |
| Pool.PickMeaning | internal/dataplane/server.go:345-353 | A pick stops at the first probe whose endpoint is healthy and allowed and touches that breaker alone; it fails, with endpoint 0 and only the counter changed, exactly if there is none |
| Pool.OddPickFindsServer | internal/dataplane/server.go:345-353 | For odd pools: if some endpoint can serve when the pick starts it succeeds, and what it returns can serve |
| Pool.EvenPickSeesHalf | internal/dataplane/server.go:345-353 | For even pools: the same restricted to one parity class, which is all a pick considers |
| Pool.EvenPoolStarves | internal/dataplane/server.go:345-353 | A parity class without a server is met again by every later pick, which falls back to endpoint 0 without a permit, whatever the other class has, even across an overflow |
| Pool.StarvesIff | internal/dataplane/server.go:345-353 | At constant health and time picks of an even pool fail forever if and only if the class of the next one has no server |
| Pool.ServedSoon | internal/dataplane/server.go:345-353 | Otherwise one of three picks is served, and the first unless the counter overflows in it |
| Pool.EvenPickMissesServer | internal/dataplane/server.go:345-353 | A pool of two in which a pick fails although endpoint 0 can serve |
| Pool.UpstreamPool.Pick | internal/dataplane/server.go:345-353 | The loop over counter, health flags and breakers computes the specified pick |
| Pool.UpstreamPool.CheckHealth | internal/dataplane/server.go:471-504 | The loop over endpoints computes the specified round: healthy means the check was answered with a status in [200, 400); passing checks close breakers, failing ones leave them |
| Pool.CheckedEndpoint | internal/dataplane/server.go:471-504 | Endpoint by endpoint: a status from 200 to 399 makes it healthy and its breaker as new, any other status or no answer makes it unhealthy and leaves its breaker alone |
| Pool.UpstreamPool.HasHealthyEndpoint | internal/dataplane/server.go:448-455 | True exactly if some health flag is set |
| Pool.CheckedPoolServes | internal/dataplane/server.go:345-353 | After a round of checks in which some endpoint of an odd pool passed, every following pick succeeds, up to a counter overflow and as long as no failure is reported |
| Pool.CallsBounded | internal/dataplane/server.go:372-399 | An admitted request makes 1 to attempts + 1 calls, exactly 1 if its method is not retried (section 9.2.2 of RFC 9110), and all but the last failed |
| Pool.CallsExactly | internal/dataplane/server.go:371-399 | Exactly k + 1 calls are made if and only if attempt k is the first that is not followed by another: a response below 500, no retry left, a method other than GET, HEAD, OPTIONS, PUT and DELETE, or a body that cannot be sent again |
| Pool.AnswerExactly | internal/dataplane/server.go:374-398 | The reply is that of the last call, unless a retry was called for: then the error of rewinding the body, or, for a body that cannot be rewound, the error of the call alone |
| Pool.RetryExample | internal/dataplane/server.go:372-399 | A GET answered 503 and then 200 returns the 200 |
| Pool.ReportsExactly | internal/dataplane/server.go:374-378 | Each call is reported once, in order, as a success exactly if it was a response below 500 |
| Pool.AnswerIsOneOrNeither | internal/dataplane/server.go:372-399 | The loop returns exactly one of response and error if the transport does, except if and only if the body cannot be sent again, the method is retried, a retry is allowed and the first answer is a response of 500 or more: then neither; a good response is passed on as it is |
| Pool.NeitherExample | internal/dataplane/server.go:389-392 | Such a request |
| Pool.ExchangeSettlesBreaker | internal/dataplane/server.go:372-440 | A whole request leaves its breaker closed if its last call was good, and otherwise adds one failure per call made, opening it for a cooldown from the last if that reaches the threshold |
| Pool.RetryTransport.RoundTrip | internal/dataplane/server.go:365-400 | Refused without a call and without any change, or: the specified number of calls, one report to its own breaker per call, in order, and no other breaker touched; a permit replaces the question |
| Pool.RetryTransport.Send | internal/dataplane/server.go:372-399 | The loop terminates with the answer of the last call made and one report per call |
| Proxy.ReverseProxy.Serve | internal/dataplane/server.go:325-343 | The Director and then the transport, on the shared pool, do what the specification of one request says: which endpoint, how many calls, what reply, which breaker changes |
| Proxy.DeadClassForwards | internal/dataplane/server.go:345-381 | In an even pool whose next class is unhealthy a request goes to endpoint 0 without a permit, is refused exactly if that breaker does not let it through, and can find endpoint 0 healthy only if the dead class is the odd one |
| Proxy.DeadClassStarves | internal/dataplane/server.go:325-400 | and so does every later request, whatever is answered: no other endpoint is called and no other breaker changes |
| Proxy.HealthyHalfReached | internal/dataplane/server.go:325-400 | With the odd half of a pool of two down, the request reaches the healthy endpoint 0 in spite of the failed pick |
| Proxy.HealthyHalfMissed | internal/dataplane/server.go:325-400 | With the even half down it is sent to the endpoint that is down, and refused while that breaker is open, although the other is healthy and closed |
| Refinement.RequestRuns | internal/dataplane/server.go:325-400 | The atomic steps of a request that nothing interrupts, and the clock alone, leave the pool, and have made the calls, that the loops of pick and RoundTrip compute |
| Refinement.ChecksRun | internal/dataplane/server.go:471-504 | and the steps of an uninterrupted round of health checks leave the pool that its loop computes |
| ProxyRuns.HalfOpenHasProber | internal/dataplane/server.go:325-400 | In every interleaving a half-open breaker belongs to the request last let through, which has not reported |
| ProxyRuns.NextKeepsInv | internal/dataplane/server.go:325-446 | and each atomic step of any request or health check keeps that, and an open breaker open exactly at threshold failures |
| ProxyRuns.HalfOpenIsReleased | internal/dataplane/server.go:325-400 | From every reachable state that request can end the half-open state in at most two steps of its own, while nobody else could get in |
| ProxyRuns.PermitIsHonoured | internal/dataplane/server.go:325-381 | Whatever happens between Director and transport, a permitted request goes straight to its first call and changes no breaker on the way |
| ProxyRuns.ProbeStaysAlone | internal/dataplane/server.go:325-440 | In every interleaving, until a half-open breaker is told an outcome it stays as it is, keeps its prober, and lets no further request through |
| ProxyRuns.SecondProbeNeedsReport | internal/dataplane/server.go:411-440 | So a second prober, or any other request let through, comes after a report or a health reset |
| ProxyRuns.LateReportJoinsProbes | internal/dataplane/server.go:411-440 | A run in which a late failure lets a second probe join one still in flight |
| ProxyRuns.CallsStayBounded | internal/dataplane/server.go:365-400 | In every interleaving a request has at most attempts + 1 calls answered, each reported once, and exactly k in attempt k |
| ProxyRuns.RoundRobin | internal/dataplane/server.go:345-353 | In every interleaving in which all endpoints stay healthy and all breakers closed, failed and retried calls included, k picks give each of n endpoints k / n requests, rounded down or up, all permitted |
| ProxyRuns.FreshPoolUp | internal/dataplane/server.go:137-142 | A new pool is in such a state |
| Histories.HistoryIsReplayed | internal/dataplane/server.go:325-504 | In every interleaving a breaker is what the questions and reports of that run make of it, its admissions are the requests that get through, and their times never go back |
| Histories.RunDetermines | internal/dataplane/server.go:402-446 | So all its fields and its next answer can be told from that history |
| Histories.EntriesAreSlow | internal/dataplane/server.go:411-440 | and while an open breaker is told no success, no more requests get through in a window than fit a cooldown apart |
| Routing.Match | internal/dataplane/server.go:300-323 | One pass finds the one route that is first declared among the longest matching prefixes, nothing exactly if no route applies, and then reports a method mismatch exactly if host and path matched somewhere |
| Routing.MatchesAtBoundary | internal/dataplane/server.go:506-511 | A prefix matches exactly as a whole number of path segments |
| Routing.RootMatchesAll | internal/dataplane/server.go:506-511 | The prefix "/" matches every path |
| Routing.CatchAllLeavesNone | internal/dataplane/server.go:300-323 | A table with a route for any host, method and path leaves no request without a match |
| Routing.MatchingPrefixesNest | internal/dataplane/server.go:506-511 | All prefixes that match one path are prefixes of each other; equal length means equal |
| Routing.OrderMattersOnlyAmongEquals | internal/dataplane/server.go:300-323 | Permuting the table leaves the winning prefix as it is |
| Routing.MatchSurvivesReordering | internal/dataplane/server.go:300-323 | and leaves a winner wherever there was one |
| Routing.HostWinsIff | internal/dataplane/server.go:300-323 | The winner names a host exactly if some applicable route that does has a longer prefix than every applicable route for any host, or one as long declared earlier |
| Routing.AnyHostRouteHides | internal/dataplane/server.go:300-323 | So a route for any host declared earlier wins over an equal one for a particular host |
| Paths.OneSlashBetween | internal/dataplane/server.go:520-534 | The join has exactly one slash at the boundary and is otherwise unchanged |
| Paths.JoinIsMonoid | internal/dataplane/server.go:520-534 | It is associative, with the empty path as unit on both sides |
| Paths.JoinCases | internal/dataplane/server.go:520-534 | Two slashes that meet become one, none becomes one, and one stays |
| Paths.WellFormedIff | internal/dataplane/server.go:536-546 | Exactly the paths in which every percent sign is followed by two hexadecimal digits can be decoded (section 2.1 of RFC 3986) |
| Paths.EscapedDecodes | internal/dataplane/server.go:536-546 | Decoding undoes the escaping of bytes, in digits of either case |
| Paths.DecodeCommutesWithJoin | internal/dataplane/server.go:536-550 | Decoding the join of two escaped paths (section 2.1 of RFC 3986) gives the join of the decoded paths if and only if no escaped slash meets the boundary |
| Paths.URL.JoinProxyPath | internal/dataplane/server.go:536-550 | The rewritten path is the join of both paths under exactly that condition; what goes on the wire decodes to it, and is the join of the escaped paths if that had to be kept and the library accepts it |
| Paths.UsualPathsJoin | internal/dataplane/server.go:536-550 | In particular for request paths beginning with a slash and upstream paths not ending in an escaped one |
| Config.ValidationMeansAcceptable | internal/config/config.go:199-254 | The chain of checks accepts exactly the configurations that satisfy one declarative condition |
| Config.FirstFault | internal/config/config.go:199-254 | The reported fault is there, stated rule by rule, and none that is looked for earlier is |
| Config.ClusterMembersDistinct | internal/config/config.go:213-222 | The peer loop accepts exactly the lists with complete peers whose ids, with the node's own, are all distinct |
| Config.Validate | internal/config/config.go:199-254 | The loops report the first broken rule |
| Config.CloneKeepsContent | internal/config/config.go:142-168 | A copy has the same content, in every list at every depth, nil and empty alike, and is its own copy |
| Config.ClonesEqualIff | internal/config/config.go:142-168 | Copies are equal exactly if the content is the same |
| Config.CloneValidatesAlike | internal/config/config.go:142-254 | Validation cannot tell a configuration from its copy |
| DataPlane.CompilesIff | internal/dataplane/server.go:93-226 | Reconfiguration succeeds exactly for valid configurations with distinct upstreams that have absolute URLs and routes that name one of them |
| DataPlane.CompiledRouteMeaning | internal/dataplane/server.go:181-205 | Each compiled route is the declared one at its place, field by field: name, normalised host, prefix with "/" for none, upper-case methods, protection, scopes and headers, over the pool of the upstream it names |
| DataPlane.PoolIsServiceable | internal/dataplane/server.go:113-136 | After defaulting, threshold, cooldown and timeouts are positive, attempts not negative, and the endpoints are the declared URLs in order |
| DataPlane.PoolAsDeclared | internal/dataplane/server.go:105-142 | A positive number declared is the one compiled; any other becomes no retries, a threshold of 5, a dial timeout of 5 s, a request timeout of 30 s, and 10 s for cooldown and health interval |
| DataPlane.FirstUnusableReported | internal/dataplane/server.go:97-112 | The fault reported is that of the first upstream that repeats a name, has no URL or has one that is not absolute, with the first such URL |
| DataPlane.InvalidFirst | internal/dataplane/server.go:93-96 | Validation comes first, and its fault is passed on |
| DataPlane.FirstUnknownReported | internal/dataplane/server.go:181-186 | The first route with an unknown upstream is the one reported |
| DataPlane.Server.ReconfigureWithAuthorizer | internal/dataplane/server.go:93-226 | The loops over upstreams and routes either swap in the specified runtime or leave the old one with the specified error |
| DataPlane.Server.Reconfigure | internal/dataplane/server.go:85-91 | Changed restart-only sections are refused, and the authorizer carries over |
| DataPlane.ReconfiguresExactly | internal/dataplane/server.go:85-91 | A running server takes a configuration exactly if it compiles and repeats the three restart-only sections, and keeps its authorizer |
| DataPlane.CloneCompilesAlike | internal/dataplane/server.go:93-226 | A copy compiles to the same runtime or fails alike |
| Versions.ParseFormatted | internal/controlplane/server.go:383-396 | Parsing undoes formatting on all 64-bit versions and refuses all others |
| Versions.TagAcceptedIff | internal/controlplane/server.go:383-396 | An entity tag is accepted as If-Match exactly by the version it names |
| Versions.HeaderNamesOneVersion | internal/controlplane/server.go:383-396 | Whatever its form, a header is accepted by one version at most |
| Versions.NoDigitRefused | internal/controlplane/server.go:384-391 | A header that is missing, blank, or otherwise without a digit is refused at every version |
| Versions.OtherTagConflicts | internal/controlplane/server.go:392-394 | The tag of another version is refused as a conflict that names both |
| Versions.SpacedTag | internal/controlplane/server.go:384 | White space around a tag makes no difference |
| Activation.PlanesAlwaysAgree | internal/controlplane/server.go:302-381 | In every reachable state control plane, manager and data plane hold the same valid, compiled configuration, with the restart-only sections and authorizer of the start, and the kept previous one could be activated |
| Activation.StepKeepsAgreement | internal/runtime/manager.go:45-62 | Each write, refused or committed, keeps that agreement |
| Activation.ActivatesIff | internal/runtime/manager.go:45-62 | A candidate is activated exactly if it compiles and repeats the running restart-only sections |
| Activation.RollbackNeverFails | internal/controlplane/server.go:345-381 | In every reachable state a rollback with the current version and something to go back to commits, and a second one restores all planes |
| Activation.RollbackCommits | internal/controlplane/server.go:345-381 | It swaps the current and the previous configuration and keeps the planes in agreement |
| Activation.ReplaceThenRollback | internal/controlplane/server.go:302-381 | A rollback after a replacement restores what was replaced, on every plane |
| Activation.VersionCountsCommits | internal/controlplane/server.go:302-381 | The version counts the committed writes; while none commits no plane changes; draining is never undone |
| Activation.NoLostUpdate | internal/controlplane/server.go:282-396 | A committed write with the tag of a read replaces exactly what that read showed (section 13.1.1 of RFC 9110) |
| Activation.OneWritePerVersion | internal/controlplane/server.go:383-396 | Of two writes with one header, in whatever form, at most one commits, whatever happens in between |
| Activation.CommitsAreConditional | internal/controlplane/server.go:383-396 | A committed write carries a header, and one that its version accepts |
| Activation.RefusedExactly | internal/controlplane/server.go:302-356 | A write is refused untried, and changes nothing, exactly if its body is undecodable or invalid, its header does not name the version, or there is nothing to go back to |
| Activation.StatusTellsOutcome | internal/controlplane/server.go:319-336 | A write that is tried leaves either "failed" and the error and all else as it was, or "active", the next version, the new configuration and the replaced one; draining changes readiness and status alone |
| Activation.StartsReady | internal/controlplane/server.go:40-46 | A gateway starts ready, at version 0, with nothing to go back to |
| Activation.ReplyTag | internal/controlplane/server.go:334-343 | The tag of a reply is not older than the write it answers |
| Activation.ReplyTagSafeIff | internal/controlplane/server.go:334-343 | A committed write with that tag finds nothing committed since the first write, and replaces what that installed, if and only if the tag is one more than the version the first write was made against |
| Activation.ReplyTagLosesUpdate | internal/controlplane/server.go:334-343 | Otherwise a client that goes on from it can replace a configuration nobody showed it, wherever another one could be activated |
| Activation.EveryGatewayLosesUpdates | internal/controlplane/server.go:334-343 | which is so in every state that any gateway can reach |
| Activation.EmptyListIsNotNil | internal/runtime/manager.go:45-52 | Sending the running configuration back with an empty list for nil is refused as needing a restart |
| Activation.GatewayIsFaithful | internal/dataplane/server.go:93-226 | The modelled compilation has all properties these results assume |
| Activation.GatewayHasExactTags | internal/controlplane/server.go:383-396 | An entity tag sent back is accepted exactly by the version it names, which is all the results on versions assume of tags |
| Activation.ControlPlane.ReplaceConfig | internal/controlplane/server.go:302-343 | Decode, validate, check the version, activate, publish: the three objects change together or only the status does |
| Activation.ControlPlane.RollbackConfig | internal/controlplane/server.go:345-381 | The same for a rollback |
| Activation.ControlPlane.Ready | internal/controlplane/server.go:104-122 | 200 and "ready" exactly if the gateway is ready and its dependency, if any, is; otherwise 503 and the state of the one that is not |
| Activation.Manager.Activate | internal/runtime/manager.go:45-62 | Manager and data plane take the candidate together or not at all |
| Serving.RoutedAsDeclared | internal/dataplane/server.go:181-205 | The search over the compiled table finds the declared route that is first among the longest that take the request, with hosts normalised, methods in any case and an empty prefix as "/" |
| Serving.DefaultPrefixTakesAll | internal/dataplane/server.go:187-190 | A declared route without a prefix, or with "/", takes every path of its host and methods |
| Serving.InstalledAsDeclared | internal/dataplane/server.go:181-205 | In every state that a gateway can reach, each published route is installed at its place as declared: protected exactly if it says so, with its scopes, over a pool with the numbers of its upstream |
| Serving.ServesCompiledConfig | internal/runtime/manager.go:45-62 | After any writes the data plane serves the compilation of the published configuration |
| Serving.InstalledPoolsAreSound | internal/dataplane/server.go:129-142 | In every pool that any sequence of writes can install and every interleaving, a half-open breaker has a prober whose answer, good or bad, ends that state |
| Serving.InstalledPoolsAreBalanced | internal/dataplane/server.go:129-142 | their picks are balanced while everything stays up |
| Serving.InstalledBreakersRemember | internal/dataplane/server.go:129-142 | In every run of such a pool the count, the open and half-open states and the next answer of each breaker are those its history in that run gives |
| Serving.InstalledBreakersAreSlow | internal/dataplane/server.go:129-142 | and once it has opened in such a run, no window of the rest holds more requests that get through than fit a cooldown apart, until it is told a success |
| Serving.ProtectionNeedsMode | internal/config/config.go:245-249 | No writes lead to a protected route on a gateway started without authentication, or to another authorizer |
| Admission.TokensConserved | internal/dataplane/server.go:235-284 | In every interleaving with replacements the tokens of each generation are its unfinished requests, within its limit, every request is served by the routes, body limit and authorizer of the generation it loaded, and a release never waits |
| Admission.AdmitsExactly | internal/dataplane/server.go:243-250 | In every such state a request is admitted if and only if fewer than the limit are unfinished under its generation, and rejected at once otherwise |
| Admission.LimitReached | internal/dataplane/server.go:243-250 | Every configured limit can be reached, and the next request is then rejected |
| Admission.LoadsLatest | internal/dataplane/server.go:237 | A request loads the runtime installed last |
| Admission.CompiledLimit | internal/dataplane/server.go:207-214 | A compiled runtime has the configured limits, both at least 1 |
| Admission.RequestKeepsGeneration | internal/dataplane/server.go:235-284 | A request keeps the generation it loaded, with its runtime, and releases exactly once if admitted |
| Admission.NoBoundAcrossGenerations | internal/dataplane/server.go:207-226 | Across replacements there is no bound: any number can be in flight, one under each of as many installations of one configuration |
| Admission.LimitedListener.EndAccept | internal/dataplane/server.go:592-600 | The slot taken for an accept passes to the connection, or back on an error |
| Admission.LimitedListener.Close | internal/dataplane/server.go:607-614 | Slots stay the pending accepts plus the open connections; only the first close of a connection frees one |
| Admission.CloseTwice | internal/dataplane/server.go:592-614 | Two closes at the limit make room for one |
| ListenerRuns.RunBalances | internal/dataplane/server.go:592-614 | With any number of callers at once, the slots are the pending accepts and the connections handed out less the slots received for them, within the limit |
| ListenerRuns.OneSlotEach | internal/dataplane/server.go:607-614 | As long as closes of one connection do not overlap, each connection gives back one slot however often it is closed, and no close waits or crashes |
| ListenerRuns.OverlapBreaks | internal/dataplane/server.go:607-614 | Whenever two closes of one connection have both passed the test, they can receive two slots for it, and one of them can crash |
| ListenerRuns.OverlapExceedsLimit | internal/dataplane/server.go:592-614 | A run in which that leaves two connections open under a limit of 1 |
| Cluster.LastWriterWins | internal/cluster/node.go:419-427 | After any log a key has the value of its last assignment, or its old value if none; other entries leave no trace |
| Cluster.KeysNameThemselves | internal/cluster/node.go:419-427 | Every entry is stored under its own client key and comes from the log |
| Cluster.ReplaySplits | internal/cluster/node.go:419-447 | Restoring the table after a prefix and replaying the rest gives the table of the whole log |
| Cluster.CompactAndCatchUp | internal/cluster/node.go:419-465 | Two replicas, one started from a snapshot of the other, end alike, and later entries have not altered the snapshot |
| Cluster.StateMachine.Snapshot | internal/cluster/node.go:429-436 | The copying loop makes an equal table in storage of its own |
| Cluster.StateMachine.Restore | internal/cluster/node.go:438-447 | A decodable image replaces the table, any other changes nothing |
| Cluster.AssignmentFor | internal/cluster/node.go:294-303 | The loop picks the member at hash modulo the number of members, for one lifetime from now |
| Cluster.OwnerExactly | internal/cluster/node.go:295-301 | That member is the node itself, without a URL, for remainder 0, and peer k - 1 for remainder k |
| Cluster.DecisionIsCommitted | internal/cluster/node.go:276-283 | A request that misses decides on the owner of its key for one lifetime, and once committed the table holds that decision |
| Cluster.AssignmentsStick | internal/cluster/node.go:269-303 | In every run under one leader, on every replica however far behind, the entry of a key names the same single member, through expiry and concurrent assignment |
| Cluster.TwoLeadersDisagree | internal/cluster/node.go:294-303 | which another leader of a two-node cluster never chooses |
| Cluster.AtMostOneHop | internal/cluster/node.go:269-292 | Whatever the nodes believe, a request is forwarded at most once |
| Cluster.ForwardsIff | internal/cluster/node.go:269-338 | Exactly when a request with a live entry is forwarded, and where to |
| Cluster.MissesExactly | internal/cluster/node.go:271-287 | Requests forwarded before, without a known leader, missing at a follower, or missing at a leader that cannot commit stay; a miss that commits goes where the new assignment says |
| Cluster.HitsExactly | internal/cluster/node.go:276-287 | A live entry is followed by leaders and followers alike, whoever wrote it |
| Cluster.LiveExactly | internal/cluster/node.go:261-267 | An entry serves up to the moment it expires |
| Ownership.Clone | internal/config/config.go:142-168 | The copy has the cloned value and reaches only storage that did not exist before |
| Ownership.CloneStringMap | internal/config/config.go:159-168 | nil stays nil; otherwise a new map with the same entries |
| Ownership.Isolation | internal/config/config.go:107-117 | Whatever is done with the constructor's argument and with all values read, writes that store slices, maps and rows in each other included, a snapshot still gives the configuration it was made from |
| Identity.Request.Prepare | internal/dataplane/server.go:252-282 | Whatever the client sent and the route adds: proxied exactly if permitted and healthy; carrying exactly the identity that was authenticated, or none on a public route; credentials as sent; other headers as the route sets them |
| Identity.Request.Authorize | internal/auth/auth.go:147-171 | Succeeds exactly for an authenticated identity holding all required scopes, and sets its three headers and nothing else |
| Identity.AuthenticatesExactly | internal/auth/auth.go:173-192 | A valid session decides who it is; without one a bearer token does, exactly if there is a verifier that accepts it and its claims are valid, in whatever mode |
| Identity.JoinedBySpaces | internal/auth/auth.go:169 | The scopes header has the scopes in order, separated by spaces |
| Identity.HasScopes | internal/auth/auth.go:331-342 | The lookup set decides exactly whether every required scope was granted |
| Identity.ReservedUntouched | internal/dataplane/server.go:560-570 | Route headers cannot change a trusted header or a credential, however their keys are spelt |
| Identity.ReservedInAnySpelling | internal/dataplane/server.go:560-570 | The keys a route may not set are the three trusted ones, Authorization and Cookie, in any spelling |
| Identity.SpellingIrrelevant | internal/dataplane/server.go:562 | Spellings that differ in the case of letters have one canonical form |
| Identity.OrderMattersIff | internal/dataplane/server.go:560-570 | Map iteration order is without effect exactly if entries with one canonical key agree on the value |
| Identity.LastSetValue | internal/dataplane/server.go:560-570 | A header that some entry sets has the value of the last such entry |
| Login.StatesAreOneShot | internal/auth/auth.go:194-237 | In every interleaving a callback finds a token exactly if it was issued and not yet redeemed, so none is redeemed twice |
| Login.SessionsAreEarned | internal/auth/auth.go:224-261 | Every session comes from a recorded login, checked within its ten minutes, with claims valid at the claims check that carry the nonce of that login, and leads to a safe path |
| Login.OneSessionPerLogin | internal/auth/auth.go:224-261 | Neither a state token nor an identity token yields two sessions |
| Login.CompletedIff | internal/auth/auth.go:224-261 | Exactly when an undisturbed callback issues a session, what the session holds, and when the state is refused |
| Login.RefusalMeaning | internal/auth/auth.go:238-258 | Once the state is accepted, each other refusal has its one reason |
| Login.LoginTable.Login | internal/auth/auth.go:194-222 | One state is added under the token, with a safe return path and its expiry |
| Login.NewStateMeaning | internal/auth/auth.go:214-219 | Return paths are empty or start with one slash and no second; a safe one asked for is kept, any other becomes the root; states expire after ten minutes |
| Login.LoginTable.Callback | internal/auth/auth.go:224-261 | Whatever its outcome, a callback spends its token; the outcome is the specified one |
| Login.CookieIdentityLoggedIn | internal/auth/auth.go:173-192 | With unforgeable cookies, a request without bearer token is authenticated only as somebody whose callback issued that cookie and whose claims are still valid |
| Login.SessionAdmits | internal/auth/auth.go:173-192 | and a session admits its owner until its claims expire |

## Left out

- Sockets, TLS, `httputil.ReverseProxy`, streaming and upgrades. Assumed of the proxy: it runs the Director and
  then the transport once. A request that is dropped in between keeps its permit unreported.
- Raft consensus, membership, joining and storage (`internal/cluster/node.go:49-245`): one agreed log is assumed.
- AES-GCM, SHA-256, OIDC discovery, the token endpoint, JSON and TOML are parameters or ideal; fields that a codec
  drops are not modelled (a shown configuration is the whole one), nor is an image that decodes to a nil table.
- `url.Parse`, the URL escaper, `net.SplitHostPort` and host normalisation, `strings.ToUpper`, cookie parsing and the
  hash of client keys are parameters. Headers are keyed by strings as net/http hands them over.
- Strings are sequences of characters rather than bytes.
- Clocks are integers given to each operation; the zero `openUntil` is `None`. Failure counts, versions and times
  do not overflow; the pick counter does.
- Metrics, events, `internal/dataplane/tls.go`, VIP hooks, `main`, request timeouts and body closing.
- Random strings are fresh; a failing random source is not modelled. Tokens sealed by another process with the same
  secret are outside `Login.CookieIdentityLoggedIn`.
- Pool.RetryTransport.RoundTrip: stated for one request without interference on its breaker; interleavings are in
  `ProxyRuns`, tied to it by `Refinement.RequestRuns`. `permit` and `index` are arguments instead of context values.
- ProxyRuns.RoundRobin: counts the endpoint each request was first directed to, from a state in which no request under
  way is past its first probe without an endpoint, as in a new pool, and excludes a counter overflow.
- Pool.StarvesIff: for pools of at most 2^62 endpoints, which is more than a slice of pointers can hold.
- Pool.CheckedPoolServes: excludes a counter overflow.
- Probes.OddWalkVisitsAll: for pools of at most 2^63 endpoints.
- Serving.InstalledPoolsAreSound: for pools of at most 2^63 endpoints, as the other results on `ProxyRuns`.
- Admission.LimitedListener.Close: one call at a time; calls at the same time are in `ListenerRuns`, each field access a step.
- Admission.TokensConserved: the handler's early returns after the route search are not told apart; each is a release.
- Activation.ControlPlane.ReplaceConfig: the control plane is always wired to a manager; concurrent writes are
  serialised by its lock and are steps here.
- Ownership.Isolation: a slice is a whole array; sub-slices and growing into spare capacity are not modelled.
- Cluster.AssignmentsStick: for one leader configuration; entries from elsewhere in the log are none of assignment kind.
- Login.LoginTable.Callback: one callback at a time; interleavings are the state machine of the same module.
