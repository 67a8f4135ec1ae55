/** Which proxy each endpoint is told to use, and what the proxies answer (src/probes/proxy/index.ts). */
module Proxy {
  import opened Wrappers
  import opened Guard
  import Text
  import opened Decimals

  datatype Endpoint = Endpoint(peer: Peer, required: bool)

  /** One proxy and one destination behind it. */
  datatype Route = Route(proxy: Peer, target: Peer, required: bool)

  datatype ConnectClass =
    | Established
    | AuthRequired
    | Rejected
    | DnsFailure
    | RefusedByHost
    | Unreachable
    | TimedOut
    | Reset
    | Unclassified
    | AbortedRun

  datatype AuthScheme = Basic | Ntlm | Negotiate | NoScheme | UnknownScheme

  /** One route's measured outcome. */
  datatype RouteOutcome = RouteOutcome(route: Route, verdict: ConnectClass, code: string, scheme: AuthScheme)

  /** Every route through one proxy with the same outcome. */
  datatype Cluster = Cluster(
    proxy: Peer, targets: seq<Peer>, required: bool, verdict: ConnectClass, code: string, scheme: AuthScheme)

  // ---- keys ----

  function VerdictText(v: ConnectClass): string {
    match v
    case Established => "established"
    case AuthRequired => "auth-required"
    case Rejected => "rejected"
    case DnsFailure => "dns"
    case RefusedByHost => "refused"
    case Unreachable => "unreachable"
    case TimedOut => "timeout"
    case Reset => "reset"
    case Unclassified => "unclassified"
    case AbortedRun => "aborted"
  }

  function SchemeText(s: AuthScheme): string {
    match s
    case Basic => "Basic"
    case Ntlm => "NTLM"
    case Negotiate => "Negotiate"
    case NoScheme => "none"
    case UnknownScheme => "unknown"
  }

  /** `host:port` with the host in lower case. */
  function TargetKey(peer: Peer): string {
    Text.Lower(peer.host) + ":" + Decimal(peer.port)
  }

  function RouteKey(proxy: Peer, target: Peer): string {
    TargetKey(proxy) + "|" + TargetKey(target)
  }

  /** The four parts joined with `|`. */
  function ClusterKey(proxy: Peer, verdict: ConnectClass, code: string, scheme: AuthScheme): string {
    TargetKey(proxy) + "|" + VerdictText(verdict) + "|" + code + "|" + SchemeText(scheme)
  }

  // ---- routes ----

  function KeyOfRoute(r: Route): string {
    RouteKey(r.proxy, r.target)
  }

  /** The position of the route with the given key, or the length when there is none. */
  function FindRoute(routes: seq<Route>, key: string, from: nat): (i: nat)
    requires from <= |routes|
    ensures from <= i <= |routes|
    ensures i < |routes| ==> KeyOfRoute(routes[i]) == key
    ensures forall k :: from <= k < i ==> KeyOfRoute(routes[k]) != key
    decreases |routes| - from
  {
    if from == |routes| || KeyOfRoute(routes[from]) == key then from else FindRoute(routes, key, from + 1)
  }

  /** One more pair: a new route, or a louder one. */
  function WithRoute(routes: seq<Route>, r: Route): seq<Route> {
    var i := FindRoute(routes, KeyOfRoute(r), 0);
    if i == |routes| then routes + [r] else routes[i := routes[i].(required := routes[i].required || r.required)]
  }

  function RoutesOf(pairs: seq<Route>): seq<Route> {
    if pairs == [] then [] else WithRoute(RoutesOf(pairs[..|pairs| - 1]), pairs[|pairs| - 1])
  }

  /** A map of routes: the routes in the order their keys were first set, and where each key's is. */
  class RouteTable {
    var routes: seq<Route>
    var at: map<string, nat>

    ghost predicate Valid()
      reads this
    {
      && (forall k :: k in at ==> at[k] < |routes| && KeyOfRoute(routes[at[k]]) == k)
      && (forall i :: 0 <= i < |routes| ==> KeyOfRoute(routes[i]) in at && at[KeyOfRoute(routes[i])] == i)
    }

    constructor ()
      ensures Valid() && routes == []
    {
      routes, at := [], map[];
    }

    method AddRoute(proxy: Peer, endpoint: Endpoint)
      requires Valid()
      modifies this
      ensures Valid() && routes == WithRoute(old(routes), Route(proxy, endpoint.peer, endpoint.required))
    {
      hide RouteKey;
      var key := RouteKey(proxy, endpoint.peer);
      ghost var found := FindRoute(routes, key, 0);
      if key !in at {
        assert found == |routes|;
        at := at[key := |routes|];
        routes := routes + [Route(proxy, endpoint.peer, endpoint.required)];
        return;
      }
      assert found == at[key];
      var existing := routes[at[key]];
      routes := routes[at[key] := existing.(required := existing.required || endpoint.required)];
    }
  }

  // ---- PAC evaluation ----

  datatype PacVerdict = GoDirect | Unresolved | ScriptError | Via(proxy: Peer)

  datatype Evaluated = Evaluated(direct: seq<Endpoint>, inconclusive: seq<Endpoint>, pairs: seq<Route>)

  /** What the script's answers, one per endpoint in order, sort the endpoints into. */
  function EvaluatedOf(endpoints: seq<Endpoint>, pac: nat -> PacVerdict): Evaluated {
    if endpoints == [] then Evaluated([], [], [])
    else
      var n := |endpoints| - 1;
      var before := EvaluatedOf(endpoints[..n], pac);
      match pac(n)
      case GoDirect => before.(direct := before.direct + [endpoints[n]])
      case Via(proxy) => before.(pairs := before.pairs + [Route(proxy, endpoints[n].peer, endpoints[n].required)])
      case _ => before.(inconclusive := before.inconclusive + [endpoints[n]])
  }

  method EvaluatePacPerEndpoint(endpoints: seq<Endpoint>, pac: nat -> PacVerdict)
    returns (direct: seq<Endpoint>, inconclusive: seq<Endpoint>, routes: seq<Route>)
    ensures var e := EvaluatedOf(endpoints, pac);
      direct == e.direct && inconclusive == e.inconclusive && routes == RoutesOf(e.pairs)
  {
    hide WithRoute;
    direct, inconclusive := [], [];
    var table := new RouteTable();
    for i := 0 to |endpoints|
      invariant table.Valid() && fresh(table)
      invariant var e := EvaluatedOf(endpoints[..i], pac);
        direct == e.direct && inconclusive == e.inconclusive && table.routes == RoutesOf(e.pairs)
    {
      assert endpoints[..i + 1][..i] == endpoints[..i];
      ghost var pairs := EvaluatedOf(endpoints[..i], pac).pairs;
      var verdict := pac(i);
      if verdict.GoDirect? {
        direct := direct + [endpoints[i]];
        continue;
      }
      if verdict.Unresolved? || verdict.ScriptError? {
        inconclusive := inconclusive + [endpoints[i]];
        continue;
      }
      ghost var pair := Route(verdict.proxy, endpoints[i].peer, endpoints[i].required);
      assert (pairs + [pair])[..|pairs|] == pairs;
      table.AddRoute(verdict.proxy, endpoints[i]);
    }
    assert endpoints[..|endpoints|] == endpoints;
    routes := table.routes;
  }

  // ---- CONNECT probing ----

  /** What one CONNECT shows: the run was cancelled meanwhile, or something was measured. */
  datatype Reply = RunCancelled | Measured(verdict: ConnectClass, code: Option<string>, scheme: AuthScheme)

  const NO_CODE: string := "unavailable"

  function OutcomeOf(route: Route, reply: Reply): RouteOutcome {
    match reply
    case RunCancelled => RouteOutcome(route, AbortedRun, NO_CODE, NoScheme)
    case Measured(verdict, code, scheme) =>
      RouteOutcome(
        route, verdict,
        if verdict == Established || code.None? then NO_CODE else code.value,
        if verdict == AuthRequired then scheme else NoScheme)
  }

  /** The `i`-th reply answers the `i`-th route. */
  function OutcomesOf(routes: seq<Route>, replies: nat -> Reply): seq<RouteOutcome> {
    if routes == [] then []
    else
      var n := |routes| - 1;
      OutcomesOf(routes[..n], replies) + [OutcomeOf(routes[n], replies(n))]
  }

  function KeyOfOutcome(o: RouteOutcome): string {
    ClusterKey(o.route.proxy, o.verdict, o.code, o.scheme)
  }

  function KeyOfCluster(c: Cluster): string {
    ClusterKey(c.proxy, c.verdict, c.code, c.scheme)
  }

  function FindCluster(clusters: seq<Cluster>, key: string, from: nat): (i: nat)
    requires from <= |clusters|
    ensures from <= i <= |clusters|
    ensures i < |clusters| ==> KeyOfCluster(clusters[i]) == key
    ensures forall k :: from <= k < i ==> KeyOfCluster(clusters[k]) != key
    decreases |clusters| - from
  {
    hide KeyOfCluster;
    if from == |clusters| then from
    else if KeyOfCluster(clusters[from]) == key then from
    else FindCluster(clusters, key, from + 1)
  }

  function NewCluster(o: RouteOutcome): Cluster {
    Cluster(o.route.proxy, [o.route.target], o.route.required, o.verdict, o.code, o.scheme)
  }

  function Joined(c: Cluster, o: RouteOutcome): Cluster {
    c.(targets := c.targets + [o.route.target], required := c.required || o.route.required)
  }

  function WithOutcome(clusters: seq<Cluster>, o: RouteOutcome): seq<Cluster> {
    var i := FindCluster(clusters, KeyOfOutcome(o), 0);
    if i == |clusters| then clusters + [NewCluster(o)] else clusters[i := Joined(clusters[i], o)]
  }

  function ClustersOf(outcomes: seq<RouteOutcome>): seq<Cluster> {
    if outcomes == [] then [] else WithOutcome(ClustersOf(outcomes[..|outcomes| - 1]), outcomes[|outcomes| - 1])
  }

  /** The map from keys to clusters is kept as the clusters in insertion order and where each key's is. */
  method Clustered(outcomes: seq<RouteOutcome>) returns (clusters: seq<Cluster>)
    ensures clusters == ClustersOf(outcomes)
  {
    hide ClusterKey;
    clusters := [];
    var at: map<string, nat> := map[];
    for n := 0 to |outcomes|
      invariant clusters == ClustersOf(outcomes[..n])
      invariant forall k :: k in at ==> at[k] < |clusters| && KeyOfCluster(clusters[at[k]]) == k
      invariant forall i :: 0 <= i < |clusters| ==> KeyOfCluster(clusters[i]) in at && at[KeyOfCluster(clusters[i])] == i
    {
      assert outcomes[..n + 1][..n] == outcomes[..n];
      var o := outcomes[n];
      var key := KeyOfOutcome(o);
      ghost var found := FindCluster(clusters, key, 0);
      if key !in at {
        assert found == |clusters|;
        at := at[key := |clusters|];
        clusters := clusters + [NewCluster(o)];
        continue;
      }
      assert found == at[key];
      clusters := clusters[at[key] := Joined(clusters[at[key]], o)];
    }
    assert outcomes[..|outcomes|] == outcomes;
  }

  /** One CONNECT per route, then one cluster per outcome. */
  method ProbeRoutes(routes: seq<Route>, replies: nat -> Reply) returns (clusters: seq<Cluster>, connects: nat)
    ensures clusters == ClustersOf(OutcomesOf(routes, replies)) && connects == |routes|
  {
    hide ClustersOf;
    var outcomes: seq<RouteOutcome> := [];
    connects := 0;
    for i := 0 to |routes|
      invariant connects == i && outcomes == OutcomesOf(routes[..i], replies)
    {
      assert routes[..i + 1][..i] == routes[..i];
      connects := connects + 1;
      outcomes := outcomes + [OutcomeOf(routes[i], replies(i))];
    }
    assert routes[..|routes|] == routes;
    clusters := Clustered(outcomes);
  }

  // ---- the whole probe ----

  /** A valid `NO_PROXY` entry and the destinations it takes out of every discovery leg. */
  datatype NoProxyEntry = NoProxyEntry(ok: bool, matched: seq<Peer>)

  function BypassKeys(entries: seq<NoProxyEntry>): set<string> {
    set e, p | e in entries && e.ok && p in e.matched :: TargetKey(p)
  }

  /** The endpoints whose key is in the set, or those whose key is not. */
  function Having(endpoints: seq<Endpoint>, keys: set<string>, inside: bool): seq<Endpoint> {
    if endpoints == [] then []
    else
      var last := endpoints[|endpoints| - 1];
      Having(endpoints[..|endpoints| - 1], keys, inside)
        + if (TargetKey(last.peer) in keys) == inside then [last] else []
  }

  datatype Fetch = Script(pac: nat -> PacVerdict) | FailedAtDns | FailedLater

  /** What a discovery leg says on its own account. */
  datatype Note = NoNote | PacFetchFailed | NoneConfigured | WpadUnusable

  datatype Report = Report(
    note: Note, bypassed: seq<Endpoint>, direct: seq<Endpoint>, inconclusive: seq<Endpoint>, clusters: seq<Cluster>, connects: nat)

  /** The proxy that the environment names for an endpoint, for each endpoint it names one for. */
  function EnvPairs(endpoints: seq<Endpoint>, envProxy: Endpoint -> Option<Peer>): seq<Route> {
    if endpoints == [] then []
    else
      var last := endpoints[|endpoints| - 1];
      EnvPairs(endpoints[..|endpoints| - 1], envProxy)
        + if envProxy(last).Some? then [Route(envProxy(last).value, last.peer, last.required)] else []
  }

  function ScriptReport(
    endpoints: seq<Endpoint>, keys: set<string>, pac: nat -> PacVerdict, replies: nat -> Reply): Report
  {
    var e := EvaluatedOf(Having(endpoints, keys, false), pac);
    var routes := RoutesOf(e.pairs);
    Report(NoNote, Having(endpoints, keys, true), e.direct, e.inconclusive,
           ClustersOf(OutcomesOf(routes, replies)), |routes|)
  }

  /**
   * The three discovery legs in order: a configured PAC script, else the environment's proxies,
   * else whatever `wpad` serves.
   */
  function ReportOf(
    endpoints: seq<Endpoint>, entries: seq<NoProxyEntry>, configured: Option<Fetch>,
    environment: Option<Endpoint -> Option<Peer>>, wpad: Fetch, replies: nat -> Reply): Report
  {
    var keys := BypassKeys(entries);
    if endpoints == [] then Report(NoNote, [], [], [], [], 0)
    else if configured.Some? then
      match configured.value
      case Script(pac) => ScriptReport(endpoints, keys, pac, replies)
      case _ => Report(PacFetchFailed, [], [], [], [], 0)
    else if environment.Some? then
      var routes := RoutesOf(EnvPairs(Having(endpoints, keys, false), environment.value));
      Report(NoNote, Having(endpoints, keys, true), [], [], ClustersOf(OutcomesOf(routes, replies)), |routes|)
    else match wpad
      case Script(pac) => ScriptReport(endpoints, keys, pac, replies)
      case FailedAtDns => Report(NoneConfigured, [], [], [], [], 0)
      case FailedLater => Report(WpadUnusable, [], [], [], [], 0)
  }

  method EnvRoutes(endpoints: seq<Endpoint>, envProxy: Endpoint -> Option<Peer>) returns (routes: seq<Route>)
    ensures routes == RoutesOf(EnvPairs(endpoints, envProxy))
  {
    hide WithRoute;
    var table := new RouteTable();
    for i := 0 to |endpoints|
      invariant table.Valid() && fresh(table)
      invariant table.routes == RoutesOf(EnvPairs(endpoints[..i], envProxy))
    {
      assert endpoints[..i + 1][..i] == endpoints[..i];
      ghost var pairs := EnvPairs(endpoints[..i], envProxy);
      var proxy := envProxy(endpoints[i]);
      if proxy.Some? {
        ghost var pair := Route(proxy.value, endpoints[i].peer, endpoints[i].required);
        assert (pairs + [pair])[..|pairs|] == pairs;
        table.AddRoute(proxy.value, endpoints[i]);
      } else {
        assert pairs + [] == pairs;
      }
    }
    assert endpoints[..|endpoints|] == endpoints;
    routes := table.routes;
  }

  method RunProxy(
    endpoints: seq<Endpoint>, entries: seq<NoProxyEntry>, configured: Option<Fetch>,
    environment: Option<Endpoint -> Option<Peer>>, wpad: Fetch, replies: nat -> Reply) returns (r: Report)
    ensures r == ReportOf(endpoints, entries, configured, environment, wpad, replies)
  {
    hide RoutesOf, ClustersOf, OutcomesOf, EvaluatedOf, EnvPairs, Having, BypassKeys;
    if endpoints == [] { return Report(NoNote, [], [], [], [], 0); }
    var keys := BypassKeys(entries);
    var bypassed := Having(endpoints, keys, true);
    var routed := Having(endpoints, keys, false);
    var direct, inconclusive: seq<Endpoint>, routes: seq<Route> := [], [], [];
    if configured.Some? {
      if !configured.value.Script? { return Report(PacFetchFailed, [], [], [], [], 0); }
      direct, inconclusive, routes := EvaluatePacPerEndpoint(routed, configured.value.pac);
    } else if environment.Some? {
      routes := EnvRoutes(routed, environment.value);
    } else if wpad.Script? {
      direct, inconclusive, routes := EvaluatePacPerEndpoint(routed, wpad.pac);
    } else {
      return Report(if wpad.FailedAtDns? then NoneConfigured else WpadUnusable, [], [], [], [], 0);
    }
    var clusters, connects := ProbeRoutes(routes, replies);
    r := Report(NoNote, bypassed, direct, inconclusive, clusters, connects);
  }
}
