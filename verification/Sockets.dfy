/**
 * Sockets opened and closed by one certificate capture (src/net/proxy-connect.ts,
 * src/net/tls-capture.ts, and the lookup of src/net/dns.ts). What the network answers is a parameter.
 */
module Sockets {
  import opened Wrappers
  import opened Bits
  import opened Guard
  import Decimals

  /** What a run does that the guard has a say in, and when each socket is let go. */
  datatype Act =
    | Admitted(peer: Peer)
    | Looked(host: string)
    | Opened(socket: nat, peer: Peer)
    | Closed(socket: nat)

  datatype Phase = DnsPhase | ConnectPhase | TunnelPhase | TlsPhase

  datatype AbortSource = PhaseTimeout | RunSignal

  /** How a phase failed: a signal cut it short, or an error with at most a machine code. */
  datatype Fault = AbortedBy(source: AbortSource) | Coded(code: Option<string>)

  /** What the network answers along one capture; replies to steps that are never reached are not looked at. */
  datatype Replies = Replies(
    dns: Result<seq<string>, Fault>, connect: Option<Fault>, status: Result<Option<int>, Fault>, tls: Result<seq<bytes>, Fault>)

  datatype TunnelOutcome =
    | Tunnel(socket: nat)
    | NoTunnel(phase: Phase, fault: Fault, status: Option<int>)

  datatype CaptureOutcome =
    | Chain(der: seq<bytes>)
    | NoChain(phase: Phase, fault: Fault)

  datatype Task = Task(target: Peer, via: Option<Peer>)

  const NO_DATA: Fault := Coded(Some("ENODATA"))

  /** A status outside 100 to 599 is not one. */
  function StatusOf(raw: Option<int>): Option<int> {
    if raw.Some? && 100 <= raw.value <= 599 then raw else None
  }

  function RefusedStatus(status: Option<int>): (r: TunnelOutcome)
    ensures r.NoTunnel? && r.phase == TunnelPhase && r.status == status
  {
    NoTunnel(TunnelPhase, Coded(if status.None? || status.value < 0 then None else Some("HTTP_" + Decimals.Decimal(status.value))), status)
  }

  // ---- what one tunnel and one capture come to ----

  function TunnelMeaning(r: Replies, socket: nat): TunnelOutcome {
    match r.dns
    case Err(f) => NoTunnel(DnsPhase, f, None)
    case Ok(addresses) =>
      if addresses == [] then NoTunnel(DnsPhase, NO_DATA, None)
      else if r.connect.Some? then NoTunnel(ConnectPhase, r.connect.value, None)
      else match r.status
        case Err(f) => NoTunnel(TunnelPhase, f, None)
        case Ok(raw) => if raw == Some(200) then Tunnel(socket) else RefusedStatus(StatusOf(raw))
  }

  function TunnelActs(proxy: Peer, r: Replies, socket: nat): seq<Act> {
    [Admitted(proxy), Looked(proxy.host)]
      + (if r.dns.Err? || r.dns.value == [] then []
         else [Opened(socket, proxy)] + if TunnelMeaning(r, socket).Tunnel? then [] else [Closed(socket)])
  }

  function CaptureMeaning(task: Task, r: Replies): CaptureOutcome {
    var transport := TunnelMeaning(if task.via.Some? then r else r.(status := Ok(Some(200))), 0);
    match transport
    case NoTunnel(phase, fault, _) => NoChain(phase, fault)
    case Tunnel(_) => match r.tls case Err(f) => NoChain(TlsPhase, f) case Ok(der) => Chain(der)
  }

  function CaptureActs(task: Task, r: Replies, socket: nat): seq<Act> {
    if task.via.Some? then
      TunnelActs(task.via.value, r, socket) + if TunnelMeaning(r, socket).Tunnel? then [Closed(socket)] else []
    else
      [Looked(task.target.host)]
        + if r.dns.Err? || r.dns.value == [] then [] else [Opened(socket, task.target), Closed(socket)]
  }

  // ---- logs ----

  function LiveStep(live: set<nat>, act: Act): set<nat> {
    match act
    case Opened(socket, _) => live + {socket}
    case Closed(socket) => live - {socket}
    case _ => live
  }

  function LiveAfter(log: seq<Act>): set<nat> {
    if log == [] then {} else LiveStep(LiveAfter(log[..|log| - 1]), log[|log| - 1])
  }

  function PermitOf(act: Act): seq<Permit> {
    match act
    case Admitted(peer) => [Permit(peer, "proxy CONNECT tunnel")]
    case _ => []
  }

  function Permits(log: seq<Act>): seq<Permit> {
    if log == [] then [] else Permits(log[..|log| - 1]) + PermitOf(log[|log| - 1])
  }

  /** By the end of the log so far, the guard has admitted what the act needs. */
  ghost predicate Allows(profile: seq<Permit>, log: seq<Act>, act: Act) {
    match act
    case Looked(host) => HostNamed(profile + Permits(log), host)
    case Opened(_, peer) => Named(profile + Permits(log), peer)
    case _ => true
  }

  /** No lookup and no socket before the guard has admitted its host, and the socket's port. */
  ghost predicate Gated(profile: seq<Permit>, log: seq<Act>) {
    forall i :: 0 <= i < |log| ==> Allows(profile, log[..i], log[i])
  }

  lemma OneMore(profile: seq<Permit>, log: seq<Act>, act: Act)
    requires Gated(profile, log) && Allows(profile, log, act)
    ensures Gated(profile, log + [act])
    ensures LiveAfter(log + [act]) == LiveStep(LiveAfter(log), act)
    ensures Permits(log + [act]) == Permits(log) + PermitOf(act)
  {
    hide Allows, LiveAfter, Permits;
    var more := log + [act];
    assert more[..|log|] == log;
    forall i | 0 <= i < |more| ensures Allows(profile, more[..i], more[i]) {
      if i < |log| {
        assert more[..i] == log[..i];
      }
    }
    Fold(log, act);
  }

  lemma Fold(log: seq<Act>, act: Act)
    ensures LiveAfter(log + [act]) == LiveStep(LiveAfter(log), act)
    ensures Permits(log + [act]) == Permits(log) + PermitOf(act)
  {
    assert (log + [act])[..|log|] == log;
  }

  // ---- the code that opens and closes them ----

  lemma NamedLast(permits: seq<Permit>, peer: Peer)
    ensures Named(permits + [Permit(peer, "proxy CONNECT tunnel")], peer)
    ensures HostNamed(permits + [Permit(peer, "proxy CONNECT tunnel")], peer.host)
  {
    var more := permits + [Permit(peer, "proxy CONNECT tunnel")];
    assert more[|permits|] in more;
  }

  /** The sockets of a run, with what it did so far. */
  class Network {
    const guard: NetworkGuard
    ghost const profile: seq<Permit>
    var next: nat
    ghost var log: seq<Act>
    ghost var live: set<nat>

    ghost predicate Valid()
      reads this, guard
    {
      && guard.Valid() && guard.permits == profile + Permits(log)
      && Gated(profile, log) && live == LiveAfter(log)
      && forall s :: s in live ==> s < next
    }

    constructor (guard: NetworkGuard)
      requires guard.Valid()
      ensures Valid() && this.guard == guard && profile == guard.permits && log == [] && live == {}
    {
      this.guard := guard;
      profile := guard.permits;
      next, log, live := 0, [], {};
    }

    method AdmitProxy(peer: Peer)
      requires Valid()
      modifies this, guard
      ensures Valid() && log == old(log) + [Admitted(peer)] && live == old(live) && next == old(next)
      ensures Named(guard.permits, peer) && HostNamed(guard.permits, peer.host)
    {
      hide Gated, LiveAfter, Permits, Named, HostNamed, AdmitAll;
      NamedLast(guard.permits, peer);
      guard.PermitPeer(peer, "proxy CONNECT tunnel");
      OneMore(profile, log, Admitted(peer));
      log := log + [Admitted(peer)];
    }

    /** Asserts the host, then asks the resolver. */
    method Resolve(host: string, reply: Result<seq<string>, Fault>) returns (r: Result<Result<seq<string>, Fault>, Denied>)
      requires Valid()
      modifies this`log
      ensures Valid()
      ensures HostNamed(guard.permits, host) ==> r == Ok(reply) && log == old(log) + [Looked(host)]
      ensures !HostNamed(guard.permits, host) ==> r == Err(Denied(host, None)) && log == old(log)
    {
      hide Gated, LiveAfter, Permits, HostNamed, AdmitAll;
      var denied := guard.AssertHostAllowed(host);
      if denied.Some? { return Err(denied.value); }
      OneMore(profile, log, Looked(host));
      log := log + [Looked(host)];
      r := Ok(reply);
    }

    method Open(peer: Peer) returns (socket: nat)
      requires Valid() && Named(guard.permits, peer)
      modifies this
      ensures Valid() && socket == old(next) && next == old(next) + 1
      ensures log == old(log) + [Opened(socket, peer)] && live == old(live) + {socket}
    {
      hide Gated, LiveAfter, Permits, Named, AdmitAll;
      socket := next;
      next := next + 1;
      OneMore(profile, log, Opened(socket, peer));
      log := log + [Opened(socket, peer)];
      live := live + {socket};
    }

    /** Closing a socket again does nothing. */
    method Destroy(socket: nat)
      requires Valid()
      modifies this`log, this`live
      ensures Valid() && live == old(live) - {socket}
      ensures log == old(log) + if socket in old(live) then [Closed(socket)] else []
    {
      hide Gated, LiveAfter, Permits, AdmitAll;
      ghost var was := live;
      if socket in was {
        OneMore(profile, log, Closed(socket));
        log := log + [Closed(socket)];
        live := live - {socket};
      }
    }

    /**
     * A tunnel through `proxy`. It ends with one more live socket, the one handed over, exactly
     * when it reports success, and with none otherwise.
     */
    method OpenTunnel(proxy: Peer, replies: Replies) returns (r: TunnelOutcome)
      requires Valid()
      modifies this, guard
      ensures Valid() && next >= old(next)
      ensures r == TunnelMeaning(replies, old(next))
      ensures log == old(log) + TunnelActs(proxy, replies, old(next))
      ensures live == old(live) + if r.Tunnel? then {r.socket} else {}
    {
      hide Gated, LiveAfter, Permits, Named, HostNamed, AdmitAll, RefusedStatus, StatusOf;
      var socket: Option<nat> := None;
      var handedOver := false;
      AdmitProxy(proxy);
      label Try: {
        var resolved := Resolve(proxy.host, replies.dns);
        if resolved.value.Err? {
          r := NoTunnel(DnsPhase, resolved.value.error, None);
          break Try;
        }
        if resolved.value.value == [] {
          r := NoTunnel(DnsPhase, NO_DATA, None);
          break Try;
        }
        var id := Open(proxy);
        socket := Some(id);
        if replies.connect.Some? {
          r := NoTunnel(ConnectPhase, replies.connect.value, None);
          break Try;
        }
        if replies.status.Err? {
          r := NoTunnel(TunnelPhase, replies.status.error, None);
          break Try;
        }
        if replies.status.value == Some(200) {
          handedOver := true;
          r := Tunnel(id);
          break Try;
        }
        r := RefusedStatus(StatusOf(replies.status.value));
      }
      if !handedOver && socket.Some? { Destroy(socket.value); }
    }

    /**
     * One capture. A target that the guard does not admit is refused before anything happens;
     * otherwise, whatever the network answers, it leaves as many sockets open as it found.
     */
    method Capture(task: Task, replies: Replies) returns (r: Result<CaptureOutcome, Denied>)
      requires Valid()
      modifies this, guard
      ensures Valid() && live == old(live)
      ensures !old(Named(guard.permits, task.target)) ==>
        r == Err(Denied(task.target.host, Some(task.target.port))) && log == old(log)
      ensures old(Named(guard.permits, task.target)) ==>
        r == Ok(CaptureMeaning(task, replies)) && log == old(log) + CaptureActs(task, replies, old(next))
    {
      hide Gated, LiveAfter, Permits, AdmitAll, HostKey, RefusedStatus, StatusOf;
      var denied := guard.AssertAllowed(task.target);
      if denied.Some? { return Err(denied.value); }
      var socket: Option<nat> := None;
      label Try: {
        if task.via.Some? {
          var tunnel := OpenTunnel(task.via.value, replies);
          if tunnel.NoTunnel? {
            r := Ok(NoChain(tunnel.phase, tunnel.fault));
            break Try;
          }
          socket := Some(tunnel.socket);
        } else {
          var resolved := Resolve(task.target.host, replies.dns);
          if resolved.value.Err? {
            r := Ok(NoChain(DnsPhase, resolved.value.error));
            break Try;
          }
          if resolved.value.value == [] {
            r := Ok(NoChain(DnsPhase, NO_DATA));
            break Try;
          }
          var id := Open(task.target);
          socket := Some(id);
          if replies.connect.Some? {
            r := Ok(NoChain(ConnectPhase, replies.connect.value));
            break Try;
          }
        }
        match replies.tls {
          case Err(f) => r := Ok(NoChain(TlsPhase, f));
          case Ok(der) => r := Ok(Chain(der));
        }
      }
      if socket.Some? { Destroy(socket.value); }
    }
  }
}
