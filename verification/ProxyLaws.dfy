/** Routes and clusters are what their keys were meant to say, and no endpoint is lost on the way. */
module ProxyLaws {
  import opened Wrappers
  import opened Guard
  import Text
  import opened Decimals
  import opened Proxy

  // ---- joined keys are injective, read from the right ----

  /** Two texts cut at the last `c` the same way are the same on both sides of it. */
  lemma LastCut(a: string, x: string, b: string, y: string, c: char)
    requires a + [c] + x == b + [c] + y && c !in x && c !in y
    ensures a == b && x == y
  {
    var s := a + [c] + x;
    assert s[|a|] == c && s[|b|] == c;
    forall k | |a| < k < |s| ensures s[k] != c {
      assert s[k] == x[k - |a| - 1];
    }
    forall k | |b| < k < |s| ensures s[k] != c {
      assert s[k] == y[k - |b| - 1];
    }
    assert |a| == |b|;
    assert a == s[..|a|] && b == s[..|b|] && x == s[|a| + 1..] && y == s[|b| + 1..];
  }

  /** A peer with its host in lower case. */
  function PeerId(p: Peer): Peer {
    Peer(Text.Lower(p.host), p.port)
  }

  /** The same host, letter case aside, and the same port. */
  predicate SamePeer(p: Peer, q: Peer) {
    PeerId(p) == PeerId(q)
  }

  lemma DecimalPlain(n: nat)
    ensures ':' !in Decimal(n) && '|' !in Decimal(n)
  {
    hide Decimal;
    DecimalIsDigits(n);
  }

  /** `host:port` tells peers apart whatever the host, for a port is digits. */
  lemma TargetKeyTells(p: Peer, q: Peer)
    ensures TargetKey(p) == TargetKey(q) <==> SamePeer(p, q)
  {
    hide Decimal, Text.Lower;
    DecimalPlain(p.port);
    DecimalPlain(q.port);
    if TargetKey(p) == TargetKey(q) {
      LastCut(Text.Lower(p.host), Decimal(p.port), Text.Lower(q.host), Decimal(q.port), ':');
      DecimalInjective(p.port, q.port);
    }
  }

  /** A host that the profile's pattern for hostnames admits holds no bar. */
  predicate NoBar(s: string) {
    '|' !in s
  }

  lemma LowerKeepsNoBar(s: string)
    requires NoBar(s)
    ensures NoBar(Text.Lower(s))
  {
    var t := Text.Lower(s);
    forall i | 0 <= i < |t| ensures t[i] != '|' {
      assert s[i] in s;
    }
  }

  lemma TargetKeyPlain(p: Peer)
    requires NoBar(p.host)
    ensures NoBar(TargetKey(p))
  {
    hide Decimal, Text.Lower;
    LowerKeepsNoBar(p.host);
    DecimalPlain(p.port);
  }

  predicate SameRoute(r: Route, s: Route) {
    SamePeer(r.proxy, s.proxy) && SamePeer(r.target, s.target)
  }

  lemma RouteKeyTells(r: Route, s: Route)
    requires NoBar(r.target.host) && NoBar(s.target.host)
    ensures KeyOfRoute(r) == KeyOfRoute(s) <==> SameRoute(r, s)
  {
    hide TargetKey, SamePeer;
    TargetKeyPlain(r.target);
    TargetKeyPlain(s.target);
    TargetKeyTells(r.proxy, s.proxy);
    TargetKeyTells(r.target, s.target);
    if KeyOfRoute(r) == KeyOfRoute(s) {
      LastCut(TargetKey(r.proxy), TargetKey(r.target), TargetKey(s.proxy), TargetKey(s.target), '|');
    }
  }

  lemma VerdictTells(v: ConnectClass, w: ConnectClass)
    ensures NoBar(VerdictText(v))
    ensures VerdictText(v) == VerdictText(w) <==> v == w
  {
    hide VerdictText;
    var s, t := VerdictText(v), VerdictText(w);
    VerdictLetters(v);
    VerdictLetters(w);
    if s == t {
      assert |s| == |t| && s[0] == t[0] && s[2] == t[2];
    }
  }

  /** How long a verdict's text is, and its first and third letters: no two verdicts share all three. */
  function Letters(v: ConnectClass): (nat, char, char) {
    match v
    case Established => (11, 'e', 't')
    case AuthRequired => (13, 'a', 't')
    case Rejected => (8, 'r', 'j')
    case DnsFailure => (3, 'd', 's')
    case RefusedByHost => (7, 'r', 'f')
    case Unreachable => (11, 'u', 'r')
    case TimedOut => (7, 't', 'm')
    case Reset => (5, 'r', 's')
    case Unclassified => (12, 'u', 'c')
    case AbortedRun => (7, 'a', 'o')
  }

  lemma VerdictLetters(v: ConnectClass)
    ensures NoBar(VerdictText(v)) && |VerdictText(v)| >= 3
    ensures Letters(v) == (|VerdictText(v)|, VerdictText(v)[0], VerdictText(v)[2])
  {
  }

  lemma SchemeTells(v: AuthScheme, w: AuthScheme)
    ensures NoBar(SchemeText(v))
    ensures SchemeText(v) == SchemeText(w) <==> v == w
  {
    var s, t := SchemeText(v), SchemeText(w);
    if s == t {
      assert |s| == |t|;
    }
  }

  /** The outcome belongs in the cluster: the same proxy, verdict, code and scheme. */
  predicate Like(o: RouteOutcome, c: Cluster) {
    SamePeer(o.route.proxy, c.proxy) && o.verdict == c.verdict && o.code == c.code && o.scheme == c.scheme
  }

  /** The key of four parts tells them apart whatever the proxy's host, as long as codes hold no bar. */
  lemma ClusterKeyTells(p: Peer, v: ConnectClass, c: string, s: AuthScheme, q: Peer, w: ConnectClass, d: string, t: AuthScheme)
    requires NoBar(c) && NoBar(d)
    ensures ClusterKey(p, v, c, s) == ClusterKey(q, w, d, t) <==> SamePeer(p, q) && v == w && c == d && s == t
  {
    hide TargetKey, SamePeer, VerdictText, SchemeText;
    TargetKeyTells(p, q);
    VerdictTells(v, w);
    VerdictTells(w, v);
    SchemeTells(s, t);
    SchemeTells(t, s);
    if ClusterKey(p, v, c, s) == ClusterKey(q, w, d, t) {
      var a1, b1 := TargetKey(p) + "|" + VerdictText(v), TargetKey(q) + "|" + VerdictText(w);
      LastCut(a1 + "|" + c, SchemeText(s), b1 + "|" + d, SchemeText(t), '|');
      LastCut(a1, c, b1, d, '|');
      LastCut(TargetKey(p), VerdictText(v), TargetKey(q), VerdictText(w), '|');
    }
  }

  // ---- routes ----

  predicate PlainTargets(pairs: seq<Route>) {
    forall p :: p in pairs ==> NoBar(p.target.host)
  }

  /** The route is a pair's own proxy and destination. */
  ghost predicate Sourced(pairs: seq<Route>, r: Route) {
    exists p :: p in pairs && p.proxy == r.proxy && p.target == r.target
  }

  /** Some pair that shares the route is required. */
  ghost predicate Demanded(pairs: seq<Route>, r: Route) {
    exists p :: p in pairs && SameRoute(p, r) && p.required
  }

  ghost predicate Served(routes: seq<Route>, p: Route) {
    exists r :: r in routes && SameRoute(p, r)
  }

  /** No two routes are the same; each comes from a pair and is required when one of its pairs is; none is missing. */
  ghost predicate RoutesFit(pairs: seq<Route>, routes: seq<Route>) {
    && (forall i, j :: 0 <= i < j < |routes| ==> !SameRoute(routes[i], routes[j]))
    && (forall r :: r in routes ==> Sourced(pairs, r) && (r.required <==> Demanded(pairs, r)))
    && (forall p :: p in pairs ==> Served(routes, p))
  }

  /**
   * Every pair of a proxy and an endpoint has exactly one route, and a route is required exactly
   * when one of the pairs that share it is.
   */
  lemma {:induction false} RoutesMean(pairs: seq<Route>)
    requires PlainTargets(pairs)
    ensures RoutesFit(pairs, RoutesOf(pairs))
  {
    if pairs != [] {
      var init, p := pairs[..|pairs| - 1], pairs[|pairs| - 1];
      assert pairs == init + [p] && forall q :: q in pairs <==> q in init || q == p;
      RoutesMean(init);
      FoundByMeaning(RoutesOf(init), init, p);
      OneMorePair(init, RoutesOf(init), p, FindRoute(RoutesOf(init), KeyOfRoute(p), 0));
    }
  }

  lemma FoundByMeaning(routes: seq<Route>, pairs: seq<Route>, p: Route)
    requires RoutesFit(pairs, routes) && PlainTargets(pairs) && NoBar(p.target.host)
    ensures var i := FindRoute(routes, KeyOfRoute(p), 0);
      && (i < |routes| ==> SameRoute(p, routes[i]))
      && (i == |routes| ==> forall r :: r in routes ==> !SameRoute(p, r))
  {
    hide KeyOfRoute, SameRoute;
    forall k | 0 <= k < |routes| ensures KeyOfRoute(p) == KeyOfRoute(routes[k]) <==> SameRoute(p, routes[k]) {
      assert routes[k] in routes;
      RouteKeyTells(p, routes[k]);
    }
  }

  lemma OneMorePair(pairs: seq<Route>, routes: seq<Route>, p: Route, i: nat)
    requires RoutesFit(pairs, routes) && i <= |routes|
    requires if i < |routes| then SameRoute(p, routes[i]) else forall r :: r in routes ==> !SameRoute(p, r)
    ensures RoutesFit(pairs + [p],
      if i == |routes| then routes + [p] else routes[i := routes[i].(required := routes[i].required || p.required)])
  {
    hide PeerId;
    if i == |routes| {
      NewRoute(pairs, routes, p);
    } else {
      LouderRoute(pairs, routes, p, i);
    }
  }

  lemma PairsNext(pairs: seq<Route>, p: Route, r: Route)
    ensures Sourced(pairs, r) ==> Sourced(pairs + [p], r)
    ensures p.proxy == r.proxy && p.target == r.target ==> Sourced(pairs + [p], r)
    ensures Demanded(pairs + [p], r) <==> Demanded(pairs, r) || (SameRoute(p, r) && p.required)
  {
    hide SameRoute;
    var all := pairs + [p];
    assert forall q :: q in all <==> q in pairs || q == p;
  }

  lemma NewRoute(pairs: seq<Route>, routes: seq<Route>, p: Route)
    requires RoutesFit(pairs, routes) && forall r :: r in routes ==> !SameRoute(p, r)
    ensures RoutesFit(pairs + [p], routes + [p])
  {
    hide PeerId, Sourced, Demanded, Served;
    var all, more := pairs + [p], routes + [p];
    forall r | r in more ensures Sourced(all, r) && (r.required <==> Demanded(all, r)) {
      PairsNext(pairs, p, r);
      NoneServed(pairs, routes, p);
    }
    forall q | q in all ensures Served(more, q) {
      ServedMore(routes, p, q);
    }
    forall k | 0 <= k < |routes| ensures !SameRoute(routes[k], p) {
      assert routes[k] in routes;
    }
  }

  lemma ServedMore(routes: seq<Route>, r: Route, q: Route)
    ensures Served(routes, q) || SameRoute(q, r) ==> Served(routes + [r], q)
    ensures SameRoute(r, r)
  {
    var more := routes + [r];
    assert forall s :: s in more <==> s in routes || s == r;
  }

  /** A destination that has no route yet is none of the pairs that have been served. */
  lemma NoneServed(pairs: seq<Route>, routes: seq<Route>, p: Route)
    requires forall q :: q in pairs ==> Served(routes, q)
    requires forall r :: r in routes ==> !SameRoute(p, r)
    ensures !Demanded(pairs, p)
  {
    hide PeerId;
    forall q | q in pairs ensures !SameRoute(q, p) {
      var r :| r in routes && SameRoute(q, r);
    }
  }

  lemma LouderRoute(pairs: seq<Route>, routes: seq<Route>, p: Route, i: nat)
    requires RoutesFit(pairs, routes) && i < |routes| && SameRoute(p, routes[i])
    ensures RoutesFit(pairs + [p], routes[i := routes[i].(required := routes[i].required || p.required)])
  {
    hide PeerId, Sourced, Demanded, Served;
    var all, more := pairs + [p], routes[i := routes[i].(required := routes[i].required || p.required)];
    forall r | r in more ensures Sourced(all, r) && (r.required <==> Demanded(all, r)) {
      var k :| 0 <= k < |more| && more[k] == r;
      assert routes[k] in routes;
      SameEnds(pairs, routes[k], r);
      PairsNext(pairs, p, r);
      assert SameRoute(p, r) <==> k == i;
    }
    forall q | q in all ensures Served(more, q) {
      ServedStill(routes, i, more[i], q);
    }
  }

  lemma SameEnds(pairs: seq<Route>, r: Route, s: Route)
    requires r.proxy == s.proxy && r.target == s.target
    ensures Sourced(pairs, r) <==> Sourced(pairs, s)
    ensures Demanded(pairs, r) <==> Demanded(pairs, s)
  {
  }

  lemma ServedStill(routes: seq<Route>, i: nat, r: Route, q: Route)
    requires i < |routes| && r.proxy == routes[i].proxy && r.target == routes[i].target
    ensures Served(routes, q) || SameRoute(q, routes[i]) ==> Served(routes[i := r], q)
  {
    hide PeerId;
    var more := routes[i := r];
    assert more[i] in more;
    if Served(routes, q) {
      var s :| s in routes && SameRoute(q, s);
      var k :| 0 <= k < |routes| && routes[k] == s;
      assert more[k] in more && SameRoute(q, more[k]);
    }
  }

  // ---- clusters ----

  predicate PlainCodes(outcomes: seq<RouteOutcome>) {
    forall o :: o in outcomes ==> NoBar(o.code)
  }

  /** The destinations of the outcomes that belong in the cluster, in order. */
  function TargetsLike(outcomes: seq<RouteOutcome>, c: Cluster): seq<Peer> {
    if outcomes == [] then []
    else
      var last := outcomes[|outcomes| - 1];
      TargetsLike(outcomes[..|outcomes| - 1], c) + if Like(last, c) then [last.route.target] else []
  }

  /** No two clusters describe the same outcome; each holds exactly its outcomes; every outcome has one. */
  ghost predicate ClustersFit(outcomes: seq<RouteOutcome>, clusters: seq<Cluster>) {
    && (forall i, j :: 0 <= i < j < |clusters| ==> !Alike(clusters[i], clusters[j]))
    && (forall c :: c in clusters ==> NoBar(c.code) && c.targets != [] && c.targets == TargetsLike(outcomes, c))
    && (forall c :: c in clusters ==> (c.required <==> exists o :: o in outcomes && Like(o, c) && o.route.required))
    && (forall o :: o in outcomes ==> exists c :: c in clusters && Like(o, c))
  }

  predicate Alike(c: Cluster, d: Cluster) {
    SamePeer(c.proxy, d.proxy) && c.verdict == d.verdict && c.code == d.code && c.scheme == d.scheme
  }

  /**
   * The clusters are the equivalence classes of proxy (letter case aside), verdict, code and
   * scheme: each lists exactly the destinations whose outcome it states, and is required exactly
   * when one of theirs is.
   */
  lemma {:induction false} ClustersMean(outcomes: seq<RouteOutcome>)
    requires PlainCodes(outcomes)
    ensures ClustersFit(outcomes, ClustersOf(outcomes))
  {
    if outcomes != [] {
      var init, o := outcomes[..|outcomes| - 1], outcomes[|outcomes| - 1];
      assert outcomes == init + [o] && forall q :: q in outcomes <==> q in init || q == o;
      ClustersMean(init);
      ClusterFound(ClustersOf(init), init, o);
      OneMoreOutcome(init, ClustersOf(init), o, FindCluster(ClustersOf(init), KeyOfOutcome(o), 0));
    }
  }

  lemma ClusterFound(clusters: seq<Cluster>, outcomes: seq<RouteOutcome>, o: RouteOutcome)
    requires ClustersFit(outcomes, clusters) && NoBar(o.code)
    ensures var i := FindCluster(clusters, KeyOfOutcome(o), 0);
      && (i < |clusters| ==> Like(o, clusters[i]))
      && (i == |clusters| ==> forall c :: c in clusters ==> !Like(o, c))
  {
    hide ClusterKey, SamePeer;
    forall k | 0 <= k < |clusters| ensures KeyOfOutcome(o) == KeyOfCluster(clusters[k]) <==> Like(o, clusters[k]) {
      var c := clusters[k];
      assert c in clusters;
      ClusterKeyTells(o.route.proxy, o.verdict, o.code, o.scheme, c.proxy, c.verdict, c.code, c.scheme);
    }
  }

  lemma OneMoreOutcome(outcomes: seq<RouteOutcome>, clusters: seq<Cluster>, o: RouteOutcome, i: nat)
    requires ClustersFit(outcomes, clusters) && NoBar(o.code) && i <= |clusters|
    requires if i < |clusters| then Like(o, clusters[i]) else forall c :: c in clusters ==> !Like(o, c)
    ensures ClustersFit(outcomes + [o], if i == |clusters| then clusters + [NewCluster(o)] else clusters[i := Joined(clusters[i], o)])
  {
    hide PeerId;
    if i == |clusters| {
      FreshCluster(outcomes, clusters, o);
    } else {
      GrownCluster(outcomes, clusters, o, i);
    }
  }

  lemma FreshCluster(outcomes: seq<RouteOutcome>, clusters: seq<Cluster>, o: RouteOutcome)
    requires ClustersFit(outcomes, clusters) && NoBar(o.code) && forall c :: c in clusters ==> !Like(o, c)
    ensures ClustersFit(outcomes + [o], clusters + [NewCluster(o)])
  {
    hide PeerId, TargetsLike;
    var all, more, d := outcomes + [o], clusters + [NewCluster(o)], NewCluster(o);
    assert forall q :: q in all <==> q in outcomes || q == o;
    assert forall c :: c in more <==> c in clusters || c == d;
    assert o in all && Like(o, d);
    NoneLike(outcomes, clusters, d);
    TargetsNext(outcomes, o, d);
    forall c | c in clusters ensures c.targets == TargetsLike(all, c) {
      TargetsNext(outcomes, o, c);
    }
    forall k | 0 <= k < |clusters| ensures !Alike(clusters[k], d) {
      assert clusters[k] in clusters;
    }
  }

  lemma GrownCluster(outcomes: seq<RouteOutcome>, clusters: seq<Cluster>, o: RouteOutcome, i: nat)
    requires ClustersFit(outcomes, clusters) && NoBar(o.code) && i < |clusters| && Like(o, clusters[i])
    ensures ClustersFit(outcomes + [o], clusters[i := Joined(clusters[i], o)])
  {
    hide PeerId, TargetsLike;
    var all, more := outcomes + [o], clusters[i := Joined(clusters[i], o)];
    assert forall q :: q in all <==> q in outcomes || q == o;
    forall c | c in more
      ensures NoBar(c.code) && c.targets != [] && c.targets == TargetsLike(all, c)
      ensures c.required <==> exists q :: q in all && Like(q, c) && q.route.required
    {
      var k :| 0 <= k < |more| && more[k] == c;
      assert clusters[k] in clusters;
      SameTargets(outcomes, clusters[k], c);
      TargetsNext(outcomes, o, c);
      if k != i {
        assert !Like(o, c);
      } else {
        assert o in all && Like(o, c);
      }
    }
    forall q | q in all ensures exists c :: c in more && Like(q, c) {
      assert more[i] in more && Like(o, more[i]);
      if q in outcomes {
        var c :| c in clusters && Like(q, c);
        var k :| 0 <= k < |clusters| && clusters[k] == c;
        assert more[k] in more && Like(q, more[k]);
      }
    }
  }

  lemma TargetsNext(outcomes: seq<RouteOutcome>, o: RouteOutcome, c: Cluster)
    ensures TargetsLike(outcomes + [o], c) == if Like(o, c) then TargetsLike(outcomes, c) + [o.route.target] else TargetsLike(outcomes, c)
  {
    assert (outcomes + [o])[..|outcomes|] == outcomes;
    assert TargetsLike(outcomes, c) + [] == TargetsLike(outcomes, c);
  }

  lemma {:induction false} SameTargets(outcomes: seq<RouteOutcome>, c: Cluster, d: Cluster)
    requires d.proxy == c.proxy && d.verdict == c.verdict && d.code == c.code && d.scheme == c.scheme
    ensures TargetsLike(outcomes, c) == TargetsLike(outcomes, d)
    ensures forall o :: Like(o, c) <==> Like(o, d)
  {
    if outcomes != [] {
      SameTargets(outcomes[..|outcomes| - 1], c, d);
    }
  }

  lemma NoneLike(outcomes: seq<RouteOutcome>, clusters: seq<Cluster>, d: Cluster)
    requires ClustersFit(outcomes, clusters) && forall c :: c in clusters ==> !Alike(d, c)
    ensures TargetsLike(outcomes, d) == [] && forall o :: o in outcomes ==> !Like(o, d)
  {
    hide Like, Alike, TargetsLike;
    forall o | o in outcomes ensures !Like(o, d) {
      var c :| c in clusters && Like(o, c);
      UnlikeTheOther(o, c, d);
    }
    EmptyWhenNone(outcomes, d);
  }

  lemma UnlikeTheOther(o: RouteOutcome, c: Cluster, d: Cluster)
    requires Like(o, c) && !Alike(d, c)
    ensures !Like(o, d)
  {
    hide PeerId;
  }

  lemma {:induction false} EmptyWhenNone(outcomes: seq<RouteOutcome>, d: Cluster)
    requires forall o :: o in outcomes ==> !Like(o, d)
    ensures TargetsLike(outcomes, d) == []
  {
    if outcomes != [] {
      assert outcomes[|outcomes| - 1] in outcomes;
      assert forall o :: o in outcomes[..|outcomes| - 1] ==> o in outcomes;
      EmptyWhenNone(outcomes[..|outcomes| - 1], d);
    }
  }

  // ---- conservation ----

  /** Every destination of every cluster, with how often it is listed. */
  function ClusterBag(clusters: seq<Cluster>): multiset<Peer> {
    if clusters == [] then multiset{} else ClusterBag(clusters[..|clusters| - 1]) + multiset(clusters[|clusters| - 1].targets)
  }

  function OutcomeBag(outcomes: seq<RouteOutcome>): multiset<Peer> {
    if outcomes == [] then multiset{} else OutcomeBag(outcomes[..|outcomes| - 1]) + multiset{outcomes[|outcomes| - 1].route.target}
  }

  function RouteBag(routes: seq<Route>): multiset<Peer> {
    if routes == [] then multiset{} else RouteBag(routes[..|routes| - 1]) + multiset{routes[|routes| - 1].target}
  }

  function EndpointBag(endpoints: seq<Endpoint>): multiset<Peer> {
    if endpoints == [] then multiset{} else EndpointBag(endpoints[..|endpoints| - 1]) + multiset{endpoints[|endpoints| - 1].peer}
  }

  lemma {:induction false} ClusterBagUpdated(clusters: seq<Cluster>, i: nat, target: Peer, c: Cluster)
    requires i < |clusters| && c.targets == clusters[i].targets + [target]
    ensures ClusterBag(clusters[i := c]) == ClusterBag(clusters) + multiset{target}
  {
    var n := |clusters| - 1;
    hide ClusterBag;
    var updated := clusters[i := c];
    LastBag(clusters);
    LastBag(updated);
    if i == n {
      assert updated[..n] == clusters[..n];
      assert multiset(c.targets) == multiset(clusters[n].targets) + multiset{target};
    } else {
      assert updated[..n] == clusters[..n][i := c];
      ClusterBagUpdated(clusters[..n], i, target, c);
    }
  }

  lemma LastBag(clusters: seq<Cluster>)
    requires clusters != []
    ensures ClusterBag(clusters) == ClusterBag(clusters[..|clusters| - 1]) + multiset(clusters[|clusters| - 1].targets)
  {
  }

  /** Clustering moves destinations about and neither drops nor repeats one. */
  lemma {:induction false} ClustersConserve(outcomes: seq<RouteOutcome>)
    ensures ClusterBag(ClustersOf(outcomes)) == OutcomeBag(outcomes)
  {
    hide KeyOfOutcome;
    if outcomes != [] {
      var init, o := outcomes[..|outcomes| - 1], outcomes[|outcomes| - 1];
      ClustersConserve(init);
      var clusters := ClustersOf(init);
      var i := FindCluster(clusters, KeyOfOutcome(o), 0);
      if i == |clusters| {
        assert (clusters + [NewCluster(o)])[..|clusters|] == clusters;
      } else {
        ClusterBagUpdated(clusters, i, o.route.target, Joined(clusters[i], o));
      }
    }
  }

  /** No endpoint names the same host, letter case aside, and port as one before it. */
  ghost predicate DistinctEndpoints(endpoints: seq<Endpoint>) {
    endpoints == []
    || (DistinctEndpoints(endpoints[..|endpoints| - 1])
        && forall e :: e in endpoints[..|endpoints| - 1] ==> !SamePeer(e.peer, endpoints[|endpoints| - 1].peer))
  }

  ghost predicate DistinctTargets(pairs: seq<Route>) {
    pairs == []
    || (DistinctTargets(pairs[..|pairs| - 1])
        && forall p :: p in pairs[..|pairs| - 1] ==> !SamePeer(p.target, pairs[|pairs| - 1].target))
  }

  ghost predicate PlainEndpoints(endpoints: seq<Endpoint>) {
    forall e :: e in endpoints ==> NoBar(e.peer.host)
  }

  lemma EndpointBagNext(endpoints: seq<Endpoint>, e: Endpoint)
    ensures EndpointBag(endpoints + [e]) == EndpointBag(endpoints) + multiset{e.peer}
  {
    assert (endpoints + [e])[..|endpoints|] == endpoints;
  }

  /** The two halves of a filter together are the endpoints. */
  lemma {:induction false} HavingSplits(endpoints: seq<Endpoint>, keys: set<string>)
    ensures EndpointBag(Having(endpoints, keys, true)) + EndpointBag(Having(endpoints, keys, false)) == EndpointBag(endpoints)
  {
    hide TargetKey, EndpointBag;
    EmptyBags();
    if endpoints != [] {
      var init, last := endpoints[..|endpoints| - 1], endpoints[|endpoints| - 1];
      assert endpoints == init + [last];
      HavingSplits(init, keys);
      EndpointBagNext(init, last);
      var kept, taken := Having(init, keys, false), Having(init, keys, true);
      EndpointBagNext(kept, last);
      EndpointBagNext(taken, last);
      assert kept + [] == kept && taken + [] == taken;
    }
  }

  lemma {:induction false} HavingKeeps(endpoints: seq<Endpoint>, keys: set<string>)
    ensures forall e :: e in Having(endpoints, keys, false) ==> e in endpoints
    ensures DistinctEndpoints(endpoints) ==> DistinctEndpoints(Having(endpoints, keys, false))
  {
    hide TargetKey, SamePeer;
    if endpoints != [] {
      var init, last := endpoints[..|endpoints| - 1], endpoints[|endpoints| - 1];
      assert endpoints == init + [last];
      HavingKeeps(init, keys);
      var kept := Having(init, keys, false);
      assert kept + [] == kept && (kept + [last])[..|kept|] == kept;
    }
  }

  /** Evaluation sorts every endpoint into exactly one of its three lists. */
  lemma {:induction false} EvaluationSplits(endpoints: seq<Endpoint>, pac: nat -> PacVerdict)
    ensures var e := EvaluatedOf(endpoints, pac);
      EndpointBag(e.direct) + EndpointBag(e.inconclusive) + RouteBag(e.pairs) == EndpointBag(endpoints)
  {
    hide EndpointBag, RouteBag;
    EmptyBags();
    if endpoints != [] {
      var n := |endpoints| - 1;
      var init, last := endpoints[..n], endpoints[n];
      assert endpoints == init + [last];
      EvaluationSplits(init, pac);
      var e := EvaluatedOf(init, pac);
      EndpointBagNext(init, last);
      EndpointBagNext(e.direct, last);
      EndpointBagNext(e.inconclusive, last);
      if pac(n).Via? {
        RouteBagNext(e.pairs, Route(pac(n).proxy, last.peer, last.required));
      }
    }
  }

  /** The pairs it finds are of the endpoints' own destinations, distinct when those are. */
  lemma {:induction false} EvaluationTargets(endpoints: seq<Endpoint>, pac: nat -> PacVerdict)
    ensures forall p :: p in EvaluatedOf(endpoints, pac).pairs ==> exists x :: x in endpoints && x.peer == p.target
    ensures DistinctEndpoints(endpoints) ==> DistinctTargets(EvaluatedOf(endpoints, pac).pairs)
  {
    hide SamePeer;
    if endpoints != [] {
      var n := |endpoints| - 1;
      var init, last := endpoints[..n], endpoints[n];
      assert endpoints == init + [last];
      EvaluationTargets(init, pac);
      var e := EvaluatedOf(init, pac);
      if pac(n).Via? {
        var pair := Route(pac(n).proxy, last.peer, last.required);
        assert (e.pairs + [pair])[..|e.pairs|] == e.pairs;
      }
    }
  }

  lemma EmptyBags()
    ensures EndpointBag([]) == multiset{} && RouteBag([]) == multiset{}
  {
  }

  lemma RouteBagNext(routes: seq<Route>, r: Route)
    ensures RouteBag(routes + [r]) == RouteBag(routes) + multiset{r.target}
  {
    assert (routes + [r])[..|routes|] == routes;
  }

  /** Pairs for distinct destinations are each their own route. */
  lemma {:induction false} DistinctPairsAreRoutes(pairs: seq<Route>)
    requires DistinctTargets(pairs) && PlainTargets(pairs)
    ensures RoutesOf(pairs) == pairs
  {
    hide WithRoute, SamePeer, NoBar;
    if pairs != [] {
      var init, p := pairs[..|pairs| - 1], pairs[|pairs| - 1];
      assert pairs == init + [p] && p in pairs;
      assert PlainTargets(init) by {
        assert forall q :: q in init ==> q in pairs;
      }
      DistinctPairsAreRoutes(init);
      NewPairIsAppended(init, p);
    }
  }

  lemma NewPairIsAppended(routes: seq<Route>, p: Route)
    requires PlainTargets(routes) && NoBar(p.target.host)
    requires forall r :: r in routes ==> !SamePeer(r.target, p.target)
    ensures WithRoute(routes, p) == routes + [p]
  {
    hide KeyOfRoute, SamePeer, NoBar;
    var i := FindRoute(routes, KeyOfRoute(p), 0);
    if i < |routes| {
      assert routes[i] in routes;
      RouteKeyTells(routes[i], p);
    }
  }

  lemma {:induction false} OutcomeTargets(routes: seq<Route>, replies: nat -> Reply)
    ensures OutcomeBag(OutcomesOf(routes, replies)) == RouteBag(routes)
    ensures |RouteBag(routes)| == |routes|
  {
    hide OutcomeOf;
    if routes != [] {
      var n := |routes| - 1;
      OutcomeTargets(routes[..n], replies);
      RouteKept(routes[n], replies(n));
      var all := OutcomesOf(routes, replies);
      assert all[..|all| - 1] == OutcomesOf(routes[..n], replies);
    }
  }

  lemma RouteKept(route: Route, reply: Reply)
    ensures OutcomeOf(route, reply).route == route
  {
  }

  predicate PlainReply(reply: Reply) {
    reply.Measured? && reply.code.Some? ==> NoBar(reply.code.value)
  }

  lemma {:induction false} CodesArePlain(routes: seq<Route>, replies: nat -> Reply)
    requires forall i :: PlainReply(replies(i))
    ensures PlainCodes(OutcomesOf(routes, replies))
  {
    if routes != [] {
      var n := |routes| - 1;
      CodesArePlain(routes[..n], replies);
      assert PlainReply(replies(n));
    }
  }

  // ---- each place for its own reason ----

  lemma {:induction false} HavingIs(endpoints: seq<Endpoint>, keys: set<string>, inside: bool)
    ensures forall e :: e in Having(endpoints, keys, inside) <==> e in endpoints && (TargetKey(e.peer) in keys) == inside
  {
    hide TargetKey;
    if endpoints != [] {
      var init, last := endpoints[..|endpoints| - 1], endpoints[|endpoints| - 1];
      assert endpoints == init + [last];
      HavingIs(init, keys, inside);
      assert forall e :: e in endpoints <==> e in init || e == last;
    }
  }

  /** A valid entry of `NO_PROXY` matches the endpoint. */
  ghost predicate Exempted(entries: seq<NoProxyEntry>, peer: Peer) {
    exists entry, p :: entry in entries && entry.ok && p in entry.matched && SamePeer(p, peer)
  }

  /** Every endpoint goes where the script's answer for it says. */
  lemma {:induction false} EvaluationFollows(endpoints: seq<Endpoint>, pac: nat -> PacVerdict)
    ensures var r := EvaluatedOf(endpoints, pac);
      forall i :: 0 <= i < |endpoints| ==>
        match pac(i)
        case GoDirect => endpoints[i] in r.direct
        case Via(proxy) => Route(proxy, endpoints[i].peer, endpoints[i].required) in r.pairs
        case _ => endpoints[i] in r.inconclusive
  {
    if endpoints != [] {
      EvaluationFollows(endpoints[..|endpoints| - 1], pac);
    }
  }

  /** A verdict carries only what it can: no code with a tunnel, no scheme without a challenge. */
  lemma {:induction false} ClustersAreConsistent(routes: seq<Route>, replies: nat -> Reply)
    ensures forall o :: o in OutcomesOf(routes, replies) ==> Consistent(o.verdict, o.code, o.scheme)
    ensures PlainCodes(OutcomesOf(routes, replies)) ==>
      forall c :: c in ClustersOf(OutcomesOf(routes, replies)) ==> Consistent(c.verdict, c.code, c.scheme)
  {
    OutcomesAreConsistent(routes, replies);
    var outcomes := OutcomesOf(routes, replies);
    if PlainCodes(outcomes) {
      ClustersMean(outcomes);
      forall c | c in ClustersOf(outcomes) ensures Consistent(c.verdict, c.code, c.scheme) {
        NotEmptyWhenLike(outcomes, c);
      }
    }
  }

  predicate Consistent(verdict: ConnectClass, code: string, scheme: AuthScheme) {
    (verdict == Established ==> code == NO_CODE) && (verdict != AuthRequired ==> scheme == NoScheme)
  }

  lemma {:induction false} OutcomesAreConsistent(routes: seq<Route>, replies: nat -> Reply)
    ensures forall o :: o in OutcomesOf(routes, replies) ==> Consistent(o.verdict, o.code, o.scheme)
  {
    if routes != [] {
      OutcomesAreConsistent(routes[..|routes| - 1], replies);
    }
  }

  /** A cluster that lists a destination has an outcome of its own kind. */
  lemma NotEmptyWhenLike(outcomes: seq<RouteOutcome>, c: Cluster)
    requires TargetsLike(outcomes, c) != []
    ensures exists o :: o in outcomes && Like(o, c)
  {
    if forall o :: o in outcomes ==> !Like(o, c) {
      EmptyWhenNone(outcomes, c);
    }
  }

  // ---- order ----

  /** The same clusters or routes in the same places, the later list having more of them. */
  ghost predicate RoutesExtend(routes: seq<Route>, more: seq<Route>) {
    |routes| <= |more| && forall i :: 0 <= i < |routes| ==>
      more[i].proxy == routes[i].proxy && more[i].target == routes[i].target
  }

  /** Routes stand in the order in which their pairs are first found, and keep the first spelling of their hosts. */
  lemma {:induction false} RoutesInOrder(pairs: seq<Route>, more: seq<Route>)
    ensures RoutesExtend(RoutesOf(pairs), RoutesOf(pairs + more))
    decreases |more|
  {
    hide WithRoute, RoutesExtend;
    if more == [] {
      assert pairs + more == pairs;
      RoutesExtendThemselves(RoutesOf(pairs));
    } else {
      var n := |more| - 1;
      RoutesInOrder(pairs, more[..n]);
      assert (pairs + more)[..|pairs| + n] == pairs + more[..n];
      OneRouteExtends(RoutesOf(pairs + more[..n]), more[n]);
      var before := RoutesOf(pairs + more[..n]);
      RoutesExtendTwice(RoutesOf(pairs), before, WithRoute(before, more[n]));
    }
  }

  lemma RoutesExtendThemselves(routes: seq<Route>)
    ensures RoutesExtend(routes, routes)
  {
  }

  lemma RoutesExtendTwice(a: seq<Route>, b: seq<Route>, c: seq<Route>)
    requires RoutesExtend(a, b) && RoutesExtend(b, c)
    ensures RoutesExtend(a, c)
  {
  }

  lemma OneRouteExtends(routes: seq<Route>, r: Route)
    ensures RoutesExtend(routes, WithRoute(routes, r))
    ensures |WithRoute(routes, r)| > |routes| ==> WithRoute(routes, r) == routes + [r]
  {
    hide KeyOfRoute;
  }

  ghost predicate ClustersExtend(clusters: seq<Cluster>, more: seq<Cluster>) {
    |clusters| <= |more| && forall i :: 0 <= i < |clusters| ==>
      more[i].proxy == clusters[i].proxy && clusters[i].targets <= more[i].targets && Alike(more[i], clusters[i])
  }

  /** Clusters stand in the order in which their outcomes first come, and list destinations in the order these come. */
  lemma {:induction false} ClustersInOrder(outcomes: seq<RouteOutcome>, more: seq<RouteOutcome>)
    ensures ClustersExtend(ClustersOf(outcomes), ClustersOf(outcomes + more))
    decreases |more|
  {
    hide Alike, WithOutcome, ClustersExtend;
    if more == [] {
      assert outcomes + more == outcomes;
      ClustersExtendThemselves(ClustersOf(outcomes));
    } else {
      var n := |more| - 1;
      ClustersInOrder(outcomes, more[..n]);
      assert (outcomes + more)[..|outcomes| + n] == outcomes + more[..n];
      var before := ClustersOf(outcomes + more[..n]);
      OneOutcomeExtends(before, more[n]);
      ExtendingTwice(ClustersOf(outcomes), before, WithOutcome(before, more[n]));
    }
  }

  lemma ClustersExtendThemselves(clusters: seq<Cluster>)
    ensures ClustersExtend(clusters, clusters)
  {
  }

  lemma OneOutcomeExtends(clusters: seq<Cluster>, o: RouteOutcome)
    ensures ClustersExtend(clusters, WithOutcome(clusters, o))
  {
    hide KeyOfCluster, KeyOfOutcome;
  }

  lemma ExtendingTwice(a: seq<Cluster>, b: seq<Cluster>, c: seq<Cluster>)
    requires ClustersExtend(a, b) && ClustersExtend(b, c)
    ensures ClustersExtend(a, c)
  {
    forall i | 0 <= i < |a| ensures c[i].proxy == a[i].proxy && a[i].targets <= c[i].targets && Alike(c[i], a[i]) {
      assert a[i].targets <= b[i].targets <= c[i].targets;
    }
  }

  /** What the script's answers sort the endpoints into keeps their order. */
  lemma {:induction false} EvaluationKeepsOrder(endpoints: seq<Endpoint>, more: seq<Endpoint>, pac: nat -> PacVerdict)
    ensures var e, all := EvaluatedOf(endpoints, pac), EvaluatedOf(endpoints + more, pac);
      e.direct <= all.direct && e.inconclusive <= all.inconclusive && e.pairs <= all.pairs
    decreases |more|
  {
    if more == [] {
      assert endpoints + more == endpoints;
    } else {
      var n := |more| - 1;
      EvaluationKeepsOrder(endpoints, more[..n], pac);
      assert (endpoints + more)[..|endpoints| + n] == endpoints + more[..n];
    }
  }
}
