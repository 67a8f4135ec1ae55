/** What the whole proxy probe reports on each of its legs: where every endpoint went, and which one it drops. */
module ProxyRuns {
  import opened Wrappers
  import opened Guard
  import opened Proxy
  import opened ProxyLaws

  // ---- what a run sends on ----

  /** The pairs of a proxy and a destination that the leg in effect finds. */
  function PairsOf(
    endpoints: seq<Endpoint>, entries: seq<NoProxyEntry>, configured: Option<Fetch>,
    environment: Option<Endpoint -> Option<Peer>>, wpad: Fetch): seq<Route>
  {
    var routed := Having(endpoints, BypassKeys(entries), false);
    if configured.Some? then if configured.value.Script? then EvaluatedOf(routed, configured.value.pac).pairs else []
    else if environment.Some? then EnvPairs(routed, environment.value)
    else if wpad.Script? then EvaluatedOf(routed, wpad.pac).pairs
    else []
  }

  /**
   * A run opens one CONNECT for each different pair that its leg finds, and its clusters are the
   * classes of equal outcomes, whenever hosts are such as the profile admits and codes such as pass
   * the filter for machine codes.
   */
  lemma ReportIsTrue(
    endpoints: seq<Endpoint>, entries: seq<NoProxyEntry>, configured: Option<Fetch>,
    environment: Option<Endpoint -> Option<Peer>>, wpad: Fetch, replies: nat -> Reply)
    requires PlainEndpoints(endpoints) && forall i :: PlainReply(replies(i))
    ensures var pairs := PairsOf(endpoints, entries, configured, environment, wpad);
      var r := ReportOf(endpoints, entries, configured, environment, wpad, replies);
      && RoutesFit(pairs, RoutesOf(pairs))
      && ClustersFit(OutcomesOf(RoutesOf(pairs), replies), r.clusters)
      && r.connects == |RoutesOf(pairs)|
  {
    hide EvaluatedOf, EnvPairs, Having, RoutesFit, ClustersFit;
    var pairs := PairsOf(endpoints, entries, configured, environment, wpad);
    PairsArePlain(endpoints, entries, configured, environment, wpad);
    RoutesMean(pairs);
    CodesArePlain(RoutesOf(pairs), replies);
    ClustersMean(OutcomesOf(RoutesOf(pairs), replies));
    if endpoints == [] {
      NothingFromNothing(entries, configured, environment, wpad);
    }
  }

  lemma NothingFromNothing(
    entries: seq<NoProxyEntry>, configured: Option<Fetch>, environment: Option<Endpoint -> Option<Peer>>, wpad: Fetch)
    ensures PairsOf([], entries, configured, environment, wpad) == []
  {
    assert Having([], BypassKeys(entries), false) == [];
  }

  lemma PairsArePlain(
    endpoints: seq<Endpoint>, entries: seq<NoProxyEntry>, configured: Option<Fetch>,
    environment: Option<Endpoint -> Option<Peer>>, wpad: Fetch)
    requires PlainEndpoints(endpoints)
    ensures PlainTargets(PairsOf(endpoints, entries, configured, environment, wpad))
  {
    hide EvaluatedOf, EnvPairs, Having, BypassKeys;
    var routed := Having(endpoints, BypassKeys(entries), false);
    HavingKeeps(endpoints, BypassKeys(entries));
    if configured.Some? && configured.value.Script? {
      EvaluationTargets(routed, configured.value.pac);
    } else if configured.None? && environment.Some? {
      EnvironmentSplits(routed, environment.value);
    } else if configured.None? && wpad.Script? {
      EvaluationTargets(routed, wpad.pac);
    }
  }

  // ---- what each proxy answered ----

  /** What a reply shows under a verdict, a code and a scheme: only a failure has a code, only a challenge a scheme. */
  predicate ReplyShows(reply: Reply, verdict: ConnectClass, code: string, scheme: AuthScheme) {
    match reply
    case RunCancelled => verdict == AbortedRun && code == "unavailable" && scheme == NoScheme
    case Measured(v, c, s) =>
      && verdict == v
      && (v != Established && c.Some? ==> code == c.value)
      && (v == Established || c.None? ==> code == "unavailable")
      && (v == AuthRequired ==> scheme == s)
      && (v != AuthRequired ==> scheme == NoScheme)
  }

  /** Some route to the destination goes through the cluster's proxy and had a reply that shows what the cluster says. */
  ghost predicate Answered(routes: seq<Route>, replies: nat -> Reply, c: Cluster, target: Peer) {
    exists i | 0 <= i < |routes| ::
      routes[i].target == target && SamePeer(routes[i].proxy, c.proxy) && ReplyShows(replies(i), c.verdict, c.code, c.scheme)
  }

  /** Some cluster of the route's proxy lists its destination under what the reply shows. */
  ghost predicate Reported(clusters: seq<Cluster>, route: Route, reply: Reply) {
    exists c ::
      c in clusters && route.target in c.targets && SamePeer(route.proxy, c.proxy) && ReplyShows(reply, c.verdict, c.code, c.scheme)
  }

  /**
   * A cluster lists a destination exactly when a CONNECT to it through the cluster's proxy was
   * answered with what the cluster says; and what every CONNECT was answered is in some cluster.
   */
  lemma RepliesAreReported(routes: seq<Route>, replies: nat -> Reply)
    requires forall i :: PlainReply(replies(i))
    ensures var clusters := ClustersOf(OutcomesOf(routes, replies));
      && (forall c, t :: c in clusters ==> (t in c.targets <==> Answered(routes, replies, c, t)))
      && (forall i :: 0 <= i < |routes| ==> Reported(clusters, routes[i], replies(i)))
  {
    hide ClustersOf, OutcomesOf, SamePeer, ReplyShows, TargetsLike;
    var outcomes := OutcomesOf(routes, replies);
    var clusters := ClustersOf(outcomes);
    CodesArePlain(routes, replies);
    ClustersMean(outcomes);
    OutcomesShow(routes, replies);
    forall c, t | c in clusters ensures t in c.targets <==> Answered(routes, replies, c, t) {
      TargetsLikeAre(outcomes, c, t);
      if t in c.targets {
        var i :| 0 <= i < |outcomes| && Like(outcomes[i], c) && outcomes[i].route.target == t;
        assert routes[i].target == t;
      }
      if Answered(routes, replies, c, t) {
        var i :| 0 <= i < |routes| && routes[i].target == t && SamePeer(routes[i].proxy, c.proxy)
          && ReplyShows(replies(i), c.verdict, c.code, c.scheme);
        ShownOnce(replies(i), outcomes[i].verdict, outcomes[i].code, outcomes[i].scheme, c.verdict, c.code, c.scheme);
        assert Like(outcomes[i], c);
      }
    }
    forall i | 0 <= i < |routes| ensures Reported(clusters, routes[i], replies(i)) {
      assert outcomes[i] in outcomes;
      var c :| c in clusters && Like(outcomes[i], c);
      TargetsLikeAre(outcomes, c, routes[i].target);
    }
  }

  lemma ShownOnce(
    reply: Reply, v: ConnectClass, code: string, scheme: AuthScheme, w: ConnectClass, other: string, otherScheme: AuthScheme)
    requires ReplyShows(reply, v, code, scheme) && ReplyShows(reply, w, other, otherScheme)
    ensures v == w && code == other && scheme == otherScheme
  {
  }

  lemma {:induction false} OutcomesShow(routes: seq<Route>, replies: nat -> Reply)
    ensures var outcomes := OutcomesOf(routes, replies);
      && |outcomes| == |routes|
      && forall i :: 0 <= i < |routes| ==>
           outcomes[i].route == routes[i] && ReplyShows(replies(i), outcomes[i].verdict, outcomes[i].code, outcomes[i].scheme)
  {
    if routes != [] {
      OutcomesShow(routes[..|routes| - 1], replies);
    }
  }

  lemma {:induction false} TargetsLikeAre(outcomes: seq<RouteOutcome>, c: Cluster, t: Peer)
    ensures t in TargetsLike(outcomes, c) <==>
      exists i | 0 <= i < |outcomes| :: Like(outcomes[i], c) && outcomes[i].route.target == t
  {
    hide Like;
    if outcomes != [] {
      var n := |outcomes| - 1;
      TargetsLikeAre(outcomes[..n], c, t);
      if t in TargetsLike(outcomes[..n], c) {
        var i :| 0 <= i < n && Like(outcomes[..n][i], c) && outcomes[..n][i].route.target == t;
        assert Like(outcomes[i], c) && outcomes[i].route.target == t;
      }
      assert forall i :: 0 <= i < n ==> outcomes[..n][i] == outcomes[i];
    }
  }

  // ---- which leg ----

  /**
   * What a leg says on its own account: a script that could not be fetched, nothing configured
   * where not even the name `wpad` resolves, and a `wpad` that resolves and serves no script. A
   * configured script goes before the environment, and the environment before `wpad`.
   */
  lemma NotesAre(
    endpoints: seq<Endpoint>, entries: seq<NoProxyEntry>, configured: Option<Fetch>,
    environment: Option<Endpoint -> Option<Peer>>, wpad: Fetch, replies: nat -> Reply)
    ensures var note := ReportOf(endpoints, entries, configured, environment, wpad, replies).note;
      && (note == PacFetchFailed <==> endpoints != [] && configured in {Some(FailedAtDns), Some(FailedLater)})
      && (note == NoneConfigured <==> endpoints != [] && configured.None? && environment.None? && wpad == FailedAtDns)
      && (note == WpadUnusable <==> endpoints != [] && configured.None? && environment.None? && wpad == FailedLater)
  {
    hide BypassKeys, Having, EvaluatedOf, EnvPairs, RoutesOf, ClustersOf, OutcomesOf;
  }

  /** The pairs a run sends on are those of the first leg there is, for the endpoints that nothing exempts, in order. */
  lemma FirstLegDecides(
    endpoints: seq<Endpoint>, entries: seq<NoProxyEntry>, pac: nat -> PacVerdict, served: nat -> PacVerdict,
    environment: Option<Endpoint -> Option<Peer>>, named: Endpoint -> Option<Peer>, wpad: Fetch, replies: nat -> Reply)
    requires endpoints != []
    ensures var routed := Having(endpoints, BypassKeys(entries), false);
      var script := ReportOf(endpoints, entries, Some(Script(pac)), environment, wpad, replies);
      var env := ReportOf(endpoints, entries, None, Some(named), wpad, replies);
      var found := ReportOf(endpoints, entries, None, None, Script(served), replies);
      && script.direct == EvaluatedOf(routed, pac).direct && script.inconclusive == EvaluatedOf(routed, pac).inconclusive
      && PairsOf(endpoints, entries, Some(Script(pac)), environment, wpad) == EvaluatedOf(routed, pac).pairs
      && env.direct == [] && env.inconclusive == []
      && PairsOf(endpoints, entries, None, Some(named), wpad) == EnvPairs(routed, named)
      && found.direct == EvaluatedOf(routed, served).direct && found.inconclusive == EvaluatedOf(routed, served).inconclusive
      && PairsOf(endpoints, entries, None, None, Script(served)) == EvaluatedOf(routed, served).pairs
  {
    hide BypassKeys, Having, EvaluatedOf, EnvPairs, RoutesOf, ClustersOf, OutcomesOf;
  }

  /** The endpoints left to route are those that nothing exempts, as often as they are there and in their order. */
  lemma RoutedKeepsOrder(endpoints: seq<Endpoint>, more: seq<Endpoint>, entries: seq<NoProxyEntry>, inside: bool)
    ensures var keys := BypassKeys(entries);
      && Having(endpoints + more, keys, inside) == Having(endpoints, keys, inside) + Having(more, keys, inside)
      && forall e :: Having([e], keys, inside) == if Exempted(entries, e.peer) == inside then [e] else []
  {
    hide TargetKey, BypassKeys, Exempted, Having;
    HavingJoins(endpoints, more, BypassKeys(entries), inside);
    forall e: Endpoint
      ensures Having([e], BypassKeys(entries), inside) == if Exempted(entries, e.peer) == inside then [e] else []
    {
      AloneIsRouted(e, entries, inside);
    }
  }

  lemma {:induction false} HavingJoins(endpoints: seq<Endpoint>, more: seq<Endpoint>, keys: set<string>, inside: bool)
    ensures Having(endpoints + more, keys, inside) == Having(endpoints, keys, inside) + Having(more, keys, inside)
  {
    hide TargetKey;
    if more == [] {
      assert endpoints + more == endpoints;
    } else {
      var n := |more| - 1;
      HavingJoins(endpoints, more[..n], keys, inside);
      assert (endpoints + more)[..|endpoints| + n] == endpoints + more[..n];
    }
  }

  lemma AloneIsRouted(e: Endpoint, entries: seq<NoProxyEntry>, inside: bool)
    ensures Having([e], BypassKeys(entries), inside) == if Exempted(entries, e.peer) == inside then [e] else []
  {
    hide TargetKey, BypassKeys, Exempted;
    KeysAreExempted(entries, e.peer);
    assert [e][..0] == [];
    assert Having([], BypassKeys(entries), inside) == [];
  }

  // ---- bypassing ----

  /**
   * Whatever leg is in effect, an endpoint is reported as bypassed exactly when a valid `NO_PROXY`
   * entry matches it, unless the leg ends in a note of its own.
   */
  lemma BypassedIsExempted(
    endpoints: seq<Endpoint>, entries: seq<NoProxyEntry>, configured: Option<Fetch>,
    environment: Option<Endpoint -> Option<Peer>>, wpad: Fetch, replies: nat -> Reply)
    ensures var r := ReportOf(endpoints, entries, configured, environment, wpad, replies);
      forall e :: e in r.bypassed <==> r.note == NoNote && e in endpoints && Exempted(entries, e.peer)
  {
    hide SamePeer, TargetKey, EvaluatedOf, EnvPairs, RoutesOf, ClustersOf, OutcomesOf, BypassKeys, Having;
    HavingIs(endpoints, BypassKeys(entries), true);
    forall e | e in endpoints ensures TargetKey(e.peer) in BypassKeys(entries) <==> Exempted(entries, e.peer) {
      KeysAreExempted(entries, e.peer);
    }
  }

  lemma KeysAreExempted(entries: seq<NoProxyEntry>, peer: Peer)
    ensures TargetKey(peer) in BypassKeys(entries) <==> Exempted(entries, peer)
  {
    hide SamePeer, TargetKey;
    forall p ensures TargetKey(p) == TargetKey(peer) <==> SamePeer(p, peer) {
      TargetKeyTells(p, peer);
    }
    if TargetKey(peer) in BypassKeys(entries) {
      var entry, p :| entry in entries && entry.ok && p in entry.matched && TargetKey(p) == TargetKey(peer);
    }
  }

  // ---- conservation ----

  /** The endpoints that the environment names no proxy for. */
  function Unproxied(endpoints: seq<Endpoint>, envProxy: Endpoint -> Option<Peer>): seq<Endpoint> {
    if endpoints == [] then []
    else
      var last := endpoints[|endpoints| - 1];
      Unproxied(endpoints[..|endpoints| - 1], envProxy) + if envProxy(last).None? then [last] else []
  }

  /** The environment's pairs and the endpoints without one are together all of the endpoints. */
  lemma {:induction false} EnvironmentSplits(endpoints: seq<Endpoint>, envProxy: Endpoint -> Option<Peer>)
    ensures RouteBag(EnvPairs(endpoints, envProxy)) + EndpointBag(Unproxied(endpoints, envProxy)) == EndpointBag(endpoints)
    ensures forall p :: p in EnvPairs(endpoints, envProxy) ==> exists x :: x in endpoints && x.peer == p.target
    ensures DistinctEndpoints(endpoints) ==> DistinctTargets(EnvPairs(endpoints, envProxy))
  {
    hide SamePeer, EndpointBag, RouteBag;
    EmptyBags();
    if endpoints != [] {
      var init, last := endpoints[..|endpoints| - 1], endpoints[|endpoints| - 1];
      assert endpoints == init + [last];
      EnvironmentSplits(init, envProxy);
      var pairs, without := EnvPairs(init, envProxy), Unproxied(init, envProxy);
      assert pairs + [] == pairs && without + [] == without;
      EndpointBagNext(init, last);
      EndpointBagNext(without, last);
      if envProxy(last).Some? {
        var pair := Route(envProxy(last).value, last.peer, last.required);
        RouteBagNext(pairs, pair);
        assert (pairs + [pair])[..|pairs|] == pairs;
      }
    }
  }

  lemma {:induction false} UnproxiedIs(endpoints: seq<Endpoint>, envProxy: Endpoint -> Option<Peer>)
    ensures forall e :: e in Unproxied(endpoints, envProxy) <==> e in endpoints && envProxy(e).None?
  {
    if endpoints != [] {
      var init, last := endpoints[..|endpoints| - 1], endpoints[|endpoints| - 1];
      assert endpoints == init + [last];
      UnproxiedIs(init, envProxy);
      assert forall e :: e in endpoints <==> e in init || e == last;
    }
  }

  /** The environment's pairs are one for each endpoint that it names a proxy for, and no others. */
  lemma {:induction false} EnvPairsAre(endpoints: seq<Endpoint>, envProxy: Endpoint -> Option<Peer>)
    ensures forall p :: p in EnvPairs(endpoints, envProxy) <==>
      exists e :: e in endpoints && envProxy(e) == Some(p.proxy) && e.peer == p.target && e.required == p.required
  {
    if endpoints != [] {
      var init, last := endpoints[..|endpoints| - 1], endpoints[|endpoints| - 1];
      assert endpoints == init + [last];
      EnvPairsAre(init, envProxy);
      assert forall e :: e in endpoints <==> e in init || e == last;
      assert EnvPairs(init, envProxy) + [] == EnvPairs(init, envProxy);
    }
  }

  /** Everything that a report places, with how often it is placed. */
  function PlacedBag(r: Report): multiset<Peer> {
    EndpointBag(r.bypassed) + EndpointBag(r.direct) + EndpointBag(r.inconclusive) + ClusterBag(r.clusters)
  }

  /** The endpoints that a run places nowhere: none, all of them, or those the environment has no usable proxy for. */
  function LostOf(
    endpoints: seq<Endpoint>, entries: seq<NoProxyEntry>, configured: Option<Fetch>,
    environment: Option<Endpoint -> Option<Peer>>, wpad: Fetch): seq<Endpoint>
  {
    if configured.Some? then if configured.value.Script? then [] else endpoints
    else if environment.Some? then Unproxied(Having(endpoints, BypassKeys(entries), false), environment.value)
    else if wpad.Script? then []
    else endpoints
  }

  lemma {:induction false} BagCounts(endpoints: seq<Endpoint>)
    ensures |EndpointBag(endpoints)| == |endpoints|
  {
    if endpoints != [] {
      BagCounts(endpoints[..|endpoints| - 1]);
    }
  }

  /** Pairs for distinct destinations are probed once each and come out as the destinations of clusters. */
  lemma PairsAreClustered(pairs: seq<Route>, replies: nat -> Reply)
    requires DistinctTargets(pairs) && PlainTargets(pairs)
    ensures ClusterBag(ClustersOf(OutcomesOf(RoutesOf(pairs), replies))) == RouteBag(pairs)
    ensures |RoutesOf(pairs)| == |RouteBag(pairs)|
  {
    hide RoutesOf, ClustersOf, OutcomesOf, RouteBag, OutcomeBag, ClusterBag, SamePeer;
    DistinctPairsAreRoutes(pairs);
    OutcomeTargets(pairs, replies);
    ClustersConserve(OutcomesOf(pairs, replies));
  }

  /** A fetched script leaves none of the routed endpoints out. */
  lemma ScriptPlacesAll(endpoints: seq<Endpoint>, keys: set<string>, pac: nat -> PacVerdict, replies: nat -> Reply)
    requires DistinctEndpoints(endpoints) && PlainEndpoints(endpoints)
    ensures var r := ScriptReport(endpoints, keys, pac, replies);
      PlacedBag(r) == EndpointBag(endpoints) && r.connects == |ClusterBag(r.clusters)|
  {
    hide EvaluatedOf, RoutesOf, ClustersOf, OutcomesOf, Having, EndpointBag, RouteBag, OutcomeBag, ClusterBag, SamePeer;
    var routed := Having(endpoints, keys, false);
    HavingSplits(endpoints, keys);
    HavingKeeps(endpoints, keys);
    EvaluationSplits(routed, pac);
    EvaluationTargets(routed, pac);
    PairsAreClustered(EvaluatedOf(routed, pac).pairs, replies);
  }

  lemma EnvironmentPlaces(
    endpoints: seq<Endpoint>, keys: set<string>, envProxy: Endpoint -> Option<Peer>, replies: nat -> Reply)
    requires DistinctEndpoints(endpoints) && PlainEndpoints(endpoints)
    ensures var routed := Having(endpoints, keys, false);
      var routes := RoutesOf(EnvPairs(routed, envProxy));
      var clusters := ClustersOf(OutcomesOf(routes, replies));
      && EndpointBag(Having(endpoints, keys, true)) + ClusterBag(clusters) + EndpointBag(Unproxied(routed, envProxy))
           == EndpointBag(endpoints)
      && |routes| == |ClusterBag(clusters)|
  {
    hide EnvPairs, Unproxied, RoutesOf, ClustersOf, OutcomesOf, Having, EndpointBag, RouteBag, OutcomeBag, ClusterBag, SamePeer;
    var routed := Having(endpoints, keys, false);
    HavingSplits(endpoints, keys);
    HavingKeeps(endpoints, keys);
    EnvironmentSplits(routed, envProxy);
    PairsAreClustered(EnvPairs(routed, envProxy), replies);
  }

  /**
   * With distinct endpoints, what a run places and what it drops are together every endpoint, once
   * each, on every leg; and there is one CONNECT for each endpoint that ends up in a cluster.
   */
  lemma EndpointsAreConserved(
    endpoints: seq<Endpoint>, entries: seq<NoProxyEntry>, configured: Option<Fetch>,
    environment: Option<Endpoint -> Option<Peer>>, wpad: Fetch, replies: nat -> Reply)
    requires DistinctEndpoints(endpoints) && PlainEndpoints(endpoints)
    ensures var r := ReportOf(endpoints, entries, configured, environment, wpad, replies);
      && PlacedBag(r) + EndpointBag(LostOf(endpoints, entries, configured, environment, wpad)) == EndpointBag(endpoints)
      && r.connects == |ClusterBag(r.clusters)|
  {
    hide EvaluatedOf, EnvPairs, Unproxied, RoutesOf, ClustersOf, OutcomesOf, Having, BypassKeys, EndpointBag, ClusterBag;
    var keys := BypassKeys(entries);
    NoBag();
    if endpoints == [] {
      NoneLost(entries, configured, environment, wpad);
    } else if configured.Some? {
      if configured.value.Script? {
        ScriptPlacesAll(endpoints, keys, configured.value.pac, replies);
      }
    } else if environment.Some? {
      EnvironmentPlaces(endpoints, keys, environment.value, replies);
    } else if wpad.Script? {
      ScriptPlacesAll(endpoints, keys, wpad.pac, replies);
    }
  }

  lemma NoBag()
    ensures EndpointBag([]) == multiset{} && ClusterBag([]) == multiset{}
  {
  }

  lemma NoneLost(
    entries: seq<NoProxyEntry>, configured: Option<Fetch>, environment: Option<Endpoint -> Option<Peer>>, wpad: Fetch)
    ensures LostOf([], entries, configured, environment, wpad) == []
  {
    assert Having([], BypassKeys(entries), false) == [];
  }

  /**
   * A run that says nothing of a failed discovery accounts for every endpoint exactly when it does
   * not go by the environment, or the environment gives a usable proxy for every endpoint that is
   * not bypassed. A run that does say so places none.
   */
  lemma ConservedExactlyWhen(
    endpoints: seq<Endpoint>, entries: seq<NoProxyEntry>, configured: Option<Fetch>,
    environment: Option<Endpoint -> Option<Peer>>, wpad: Fetch, replies: nat -> Reply)
    requires DistinctEndpoints(endpoints) && PlainEndpoints(endpoints)
    ensures var r := ReportOf(endpoints, entries, configured, environment, wpad, replies);
      && (r.note == NoNote ==>
            (PlacedBag(r) == EndpointBag(endpoints) <==>
              (configured.None? && environment.Some? ==>
                forall e :: e in Having(endpoints, BypassKeys(entries), false) ==> environment.value(e).Some?)))
      && (r.note != NoNote ==> PlacedBag(r) == multiset{} && endpoints != [])
  {
    hide EvaluatedOf, EnvPairs, Unproxied, RoutesOf, ClustersOf, OutcomesOf, Having, BypassKeys, EndpointBag, ClusterBag;
    var routed := Having(endpoints, BypassKeys(entries), false);
    var lost := LostOf(endpoints, entries, configured, environment, wpad);
    EndpointsAreConserved(endpoints, entries, configured, environment, wpad, replies);
    BagCounts(lost);
    NoBag();
    if configured.None? && environment.Some? {
      UnproxiedIs(routed, environment.value);
      NoneWithout(lost, routed, environment.value);
    }
    if endpoints == [] {
      NoneLost(entries, configured, environment, wpad);
    }
  }

  lemma NoneWithout(lost: seq<Endpoint>, routed: seq<Endpoint>, envProxy: Endpoint -> Option<Peer>)
    requires forall e :: e in lost <==> e in routed && envProxy(e).None?
    ensures lost == [] <==> forall e :: e in routed ==> envProxy(e).Some?
  {
    if lost != [] {
      assert lost[0] in lost;
    }
  }

  // ---- the environment's variables ----

  /** `HTTPS_PROXY` and `HTTP_PROXY`, trimmed, and absent when that leaves nothing. */
  datatype ProxyVariables = ProxyVariables(https: Option<string>, http: Option<string>)

  /** The text an endpoint goes by: the variable of its own scheme, else the other one. */
  function RawProxy(vars: ProxyVariables, e: Endpoint): Option<string> {
    var primary := if e.peer.port == 443 then vars.https else vars.http;
    var fallback := if e.peer.port == 443 then vars.http else vars.https;
    if primary.Some? then primary else fallback
  }

  /** The leg the variables make: in effect when either is set, whether or not its text is a URL. */
  function EnvironmentOf(vars: ProxyVariables, parseUrl: string -> Option<Peer>): Option<Endpoint -> Option<Peer>> {
    if vars.https.None? && vars.http.None? then None
    else Some((e: Endpoint) => if RawProxy(vars, e).Some? then parseUrl(RawProxy(vars, e).value) else None)
  }

  /**
   * The environment names a proxy as soon as a variable is set. An endpoint on the port of HTTPS
   * goes by `HTTPS_PROXY` and only without it by `HTTP_PROXY`; every other goes by them the other
   * way round.
   */
  lemma VariableIs(vars: ProxyVariables, parseUrl: string -> Option<Peer>, e: Endpoint)
    ensures EnvironmentOf(vars, parseUrl).Some? <==> vars.https.Some? || vars.http.Some?
    ensures EnvironmentOf(vars, parseUrl).Some? ==> var proxy := EnvironmentOf(vars, parseUrl).value(e);
      && (e.peer.port == 443 && vars.https.Some? ==> proxy == parseUrl(vars.https.value))
      && (e.peer.port == 443 && vars.https.None? ==> proxy == parseUrl(vars.http.value))
      && (e.peer.port != 443 && vars.http.Some? ==> proxy == parseUrl(vars.http.value))
      && (e.peer.port != 443 && vars.http.None? ==> proxy == parseUrl(vars.https.value))
  {
    if vars.https.Some? || vars.http.Some? {
      var proxies: Endpoint -> Option<Peer> :=
        (e: Endpoint) => if RawProxy(vars, e).Some? then parseUrl(RawProxy(vars, e).value) else None;
      assert EnvironmentOf(vars, parseUrl) == Some(proxies);
      assert proxies(e) == parseUrl(RawProxy(vars, e).value);
    }
  }

  /**
   * With a variable set and no script configured, every endpoint is accounted for exactly when the
   * text that each unbypassed endpoint goes by is a proxy's URL: a usable URL in the other variable
   * does not help.
   */
  lemma UnusableUrlLosesEndpoints(
    endpoints: seq<Endpoint>, entries: seq<NoProxyEntry>, vars: ProxyVariables, parseUrl: string -> Option<Peer>,
    wpad: Fetch, replies: nat -> Reply)
    requires DistinctEndpoints(endpoints) && PlainEndpoints(endpoints) && (vars.https.Some? || vars.http.Some?)
    ensures var r := ReportOf(endpoints, entries, None, EnvironmentOf(vars, parseUrl), wpad, replies);
      && r.note == NoNote
      && (PlacedBag(r) == EndpointBag(endpoints) <==>
            forall e :: e in Having(endpoints, BypassKeys(entries), false) ==>
              RawProxy(vars, e).Some? && parseUrl(RawProxy(vars, e).value).Some?)
  {
    hide EvaluatedOf, EnvPairs, RoutesOf, ClustersOf, OutcomesOf, Having, BypassKeys, PlacedBag, EndpointBag;
    ConservedExactlyWhen(endpoints, entries, None, EnvironmentOf(vars, parseUrl), wpad, replies);
  }

  /** One endpoint, not bypassed, and a proxy variable that is no URL: the report is empty, as if nothing were declared. */
  lemma AnEndpointIsDropped(e: Endpoint, wpad: Fetch, replies: nat -> Reply)
    ensures ReportOf([e], [], None, Some(_ => None), wpad, replies) == Report(NoNote, [], [], [], [], 0)
  {
    var nothing: Endpoint -> Option<Peer> := _ => None;
    var keys := BypassKeys([]);
    assert keys == {};
    assert [e][..0] == [];
    assert Having([e], keys, false) == [e] && Having([e], keys, true) == [];
    assert EnvPairs([e], nothing) == [];
  }
}
