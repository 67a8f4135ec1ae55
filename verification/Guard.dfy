/** Which hosts a run may contact (src/net/guard.ts). */
module Guard {
  import opened Wrappers
  import Text

  datatype Peer = Peer(host: string, port: nat)

  datatype PermittedHost = PermittedHost(host: string, ports: set<nat>, reason: string)

  datatype Denied = Denied(host: string, port: Option<nat>)

  const DOH_PORT: nat := 443

  /** Hosts are compared trimmed and in lower case. */
  function HostKey(host: string): string {
    Text.Lower(Text.Trim(host))
  }

  type Admitted = map<string, PermittedHost>

  function Admit(allowed: Admitted, peer: Peer, reason: string): Admitted {
    var key := HostKey(peer.host);
    if key in allowed then allowed[key := allowed[key].(ports := allowed[key].ports + {peer.port})]
    else allowed[key := PermittedHost(key, {peer.port}, reason)]
  }

  /** One call of `permit`. */
  datatype Permit = Permit(peer: Peer, reason: string)

  function AdmitAll(permits: seq<Permit>): Admitted {
    if permits == [] then map[]
    else
      var last := permits[|permits| - 1];
      Admit(AdmitAll(permits[..|permits| - 1]), last.peer, last.reason)
  }

  function ProfilePermits(endpoints: seq<Permit>, dohResolvers: seq<string>): seq<Permit> {
    endpoints + DohPermits(dohResolvers)
  }

  function DohPermits(hosts: seq<string>): seq<Permit> {
    if hosts == [] then []
    else DohPermits(hosts[..|hosts| - 1]) + [Permit(Peer(hosts[|hosts| - 1], DOH_PORT), "profile DoH resolver")]
  }

  /** The peer was named in some call of `permit`, up to spaces around the host and letter case. */
  ghost predicate Named(permits: seq<Permit>, peer: Peer) {
    exists p :: p in permits && HostKey(p.peer.host) == HostKey(peer.host) && p.peer.port == peer.port
  }

  ghost predicate HostNamed(permits: seq<Permit>, host: string) {
    exists p :: p in permits && HostKey(p.peer.host) == HostKey(host)
  }

  lemma NobodyAdmitted()
    ensures AdmitAll([]) == map[]
  {
  }

  class NetworkGuard {
    var allowed: Admitted
    ghost var permits: seq<Permit>

    ghost predicate Valid()
      reads this
    {
      allowed == AdmitAll(permits)
    }

    constructor (endpoints: seq<Permit>, dohResolvers: seq<string>)
      ensures Valid() && permits == ProfilePermits(endpoints, dohResolvers)
    {
      hide AdmitAll;
      allowed, permits := map[], [];
      new;
      NobodyAdmitted();
      for i := 0 to |endpoints|
        invariant Valid() && permits == endpoints[..i]
      {
        PermitPeer(endpoints[i].peer, endpoints[i].reason);
        assert endpoints[..i + 1] == endpoints[..i] + [endpoints[i]];
      }
      assert endpoints[..|endpoints|] == endpoints;
      for i := 0 to |dohResolvers|
        invariant Valid() && permits == endpoints + DohPermits(dohResolvers[..i])
      {
        assert dohResolvers[..i + 1][..i] == dohResolvers[..i];
        PermitPeer(Peer(dohResolvers[i], DOH_PORT), "profile DoH resolver");
      }
      assert dohResolvers[..|dohResolvers|] == dohResolvers;
    }

    method PermitPeer(peer: Peer, reason: string)
      requires Valid()
      modifies this
      ensures Valid() && permits == old(permits) + [Permit(peer, reason)]
    {
      var key := HostKey(peer.host);
      if key !in allowed {
        allowed := allowed[key := PermittedHost(key, {peer.port}, reason)];
      } else {
        allowed := allowed[key := allowed[key].(ports := allowed[key].ports + {peer.port})];
      }
      permits := permits + [Permit(peer, reason)];
      assert permits[..|permits| - 1] == old(permits);
    }

    method IsAllowed(peer: Peer) returns (r: bool)
      requires Valid()
      ensures r <==> Named(permits, peer)
    {
      AdmittedMeans(permits, peer);
      var key := HostKey(peer.host);
      r := key in allowed && peer.port in allowed[key].ports;
    }

    method IsHostAllowed(host: string) returns (r: bool)
      requires Valid()
      ensures r <==> HostNamed(permits, host)
    {
      AdmittedMeans(permits, Peer(host, 0));
      r := HostKey(host) in allowed;
    }

    method AssertAllowed(peer: Peer) returns (r: Option<Denied>)
      requires Valid()
      ensures r == if Named(permits, peer) then None else Some(Denied(peer.host, Some(peer.port)))
    {
      var ok := IsAllowed(peer);
      r := if ok then None else Some(Denied(peer.host, Some(peer.port)));
    }

    method AssertHostAllowed(host: string) returns (r: Option<Denied>)
      requires Valid()
      ensures r == if HostNamed(permits, host) then None else Some(Denied(host, None))
    {
      var ok := IsHostAllowed(host);
      r := if ok then None else Some(Denied(host, None));
    }
  }

  /**
   * The table of admitted hosts, which keeps one entry per host and a set of ports in it, answers
   * exactly what the list of `permit` calls says.
   */
  lemma {:induction false} AdmittedMeans(permits: seq<Permit>, peer: Peer)
    ensures var allowed, key := AdmitAll(permits), HostKey(peer.host);
      && (key in allowed <==> HostNamed(permits, peer.host))
      && (key in allowed && peer.port in allowed[key].ports <==> Named(permits, peer))
      && (key in allowed ==> allowed[key].host == key && allowed[key].ports != {})
  {
    hide HostKey, HostNamed, Named;
    if permits == [] {
      NobodyNamed(peer);
    } else {
      var init, last := permits[..|permits| - 1], permits[|permits| - 1];
      AdmittedMeans(init, peer);
      assert permits == init + [last];
      OneMoreNamed(init, last, peer);
    }
  }

  lemma NobodyNamed(peer: Peer)
    ensures !HostNamed([], peer.host) && !Named([], peer)
  {
  }

  lemma OneMoreNamed(permits: seq<Permit>, last: Permit, peer: Peer)
    ensures HostNamed(permits + [last], peer.host) <==>
      HostNamed(permits, peer.host) || HostKey(last.peer.host) == HostKey(peer.host)
    ensures Named(permits + [last], peer) <==>
      Named(permits, peer) || (HostKey(last.peer.host) == HostKey(peer.host) && last.peer.port == peer.port)
  {
    hide HostKey;
    assert forall p :: p in permits + [last] <==> p in permits || p == last;
  }

  /** Admitting more never takes a host away. */
  lemma NamedGrows(permits: seq<Permit>, more: seq<Permit>, peer: Peer)
    ensures Named(permits, peer) ==> Named(permits + more, peer)
    ensures HostNamed(permits, peer.host) ==> HostNamed(permits + more, peer.host)
  {
    assert forall p :: p in permits ==> p in permits + more;
  }

  /** An entry keeps the reason of the first call that named its host. */
  lemma {:induction false} FirstReasonStays(permits: seq<Permit>, i: nat)
    requires i < |permits| && forall j :: 0 <= j < i ==> HostKey(permits[j].peer.host) != HostKey(permits[i].peer.host)
    ensures var allowed, key := AdmitAll(permits), HostKey(permits[i].peer.host);
      key in allowed && allowed[key].reason == permits[i].reason
  {
    hide HostKey, HostNamed, Named;
    var n := |permits| - 1;
    if i < n {
      FirstReasonStays(permits[..n], i);
    } else {
      var peer := permits[i].peer;
      AdmittedMeans(permits[..n], peer);
      NotNamedBefore(permits[..n], peer);
    }
  }

  lemma NotNamedBefore(permits: seq<Permit>, peer: Peer)
    requires forall j :: 0 <= j < |permits| ==> HostKey(permits[j].peer.host) != HostKey(peer.host)
    ensures !HostNamed(permits, peer.host)
  {
    hide HostKey;
  }
}
