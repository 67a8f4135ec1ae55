/** Which phase a failed tunnel or capture names, and with what code (src/net/proxy-connect.ts, src/net/tls-capture.ts). */
module SocketLaws {
  import opened Wrappers
  import opened Guard
  import opened Decimals
  import opened Sockets
  import opened SocketRuns
  import Text
  import TextLaws

  // ---- how far the network lets a capture get ----

  /** The lookup gave an address. */
  predicate Found(r: Replies) {
    r.dns.Ok? && r.dns.value != []
  }

  /** A connection was made. */
  predicate Reached(r: Replies) {
    Found(r) && r.connect.None?
  }

  /** The proxy answered the CONNECT request with this status. */
  predicate Answers(r: Replies, status: int) {
    Reached(r) && r.status == Ok(Some(status))
  }

  /** Where a transport that was not set up failed, before or at the proxy's answer. */
  ghost predicate EndsEarly(r: Replies, phase: Phase, fault: Fault) {
    || (r.dns.Err? && phase == DnsPhase && fault == r.dns.error)
    || (r.dns == Ok([]) && phase == DnsPhase && fault == Coded(Some("ENODATA")))
    || (Found(r) && r.connect.Some? && phase == ConnectPhase && fault == r.connect.value)
  }

  /** What a proxy's refusal is reported as. */
  ghost predicate Refuses(r: Replies, fault: Fault, status: Option<int>) {
    && Reached(r)
    && if r.status.Err? then fault == r.status.error && status == None
       else if r.status.value.Some? && 100 <= r.status.value.value < 600
       then fault == Coded(Some("HTTP_" + Decimal(r.status.value.value))) && status == r.status.value
       else fault == Coded(None) && status == None
  }

  /**
   * A tunnel is handed over exactly when the proxy answers 200. Otherwise the outcome names the
   * phase that failed; a refusal with a status from 100 to 599 carries the status and the code
   * `HTTP_` with its three digits, and one with any other status carries neither.
   */
  lemma TunnelEnds(r: Replies, socket: nat)
    ensures TunnelMeaning(r, socket).Tunnel? <==> Answers(r, 200)
    ensures forall phase, fault, status :: TunnelMeaning(r, socket) == NoTunnel(phase, fault, status) ==>
      if phase == TunnelPhase then Refuses(r, fault, status) else EndsEarly(r, phase, fault) && status == None
  {
  }

  /** Three digits tell a status apart from every other. */
  lemma RefusalCodes(r: Replies, socket: nat, n: int)
    requires Answers(r, n) && 100 <= n <= 599 && n != 200
    ensures TunnelMeaning(r, socket) == NoTunnel(TunnelPhase, Coded(Some("HTTP_" + Decimal(n))), Some(n))
    ensures |Decimal(n)| == 3
    ensures Decimal(n) == [TextLaws.DigitFor(n / 100), TextLaws.DigitFor(n / 10 % 10), TextLaws.DigitFor(n % 10)]
  {
    hide Decimal, TextLaws.DigitFor;
    ThreeDigits(n);
  }

  lemma ThreeDigits(n: nat)
    requires 100 <= n <= 999
    ensures Decimal(n) == [TextLaws.DigitFor(n / 100)] + [TextLaws.DigitFor(n / 10 % 10)] + [TextLaws.DigitFor(n % 10)]
  {
    hide Decimal, TextLaws.DigitFor;
    TextLaws.DecimalEnds(n);
    TextLaws.DecimalEnds(n / 10);
    TextLaws.DecimalEnds(n / 10 / 10);
    assert n / 10 / 10 == n / 100;
  }

  /**
   * A capture has a chain exactly when every phase went well, the tunnel's included when there is a
   * proxy; otherwise it names the first phase that failed, with that phase's own fault: the code of
   * a refused tunnel is the tunnel's.
   */
  lemma CaptureEnds(task: Task, r: Replies)
    ensures forall der :: CaptureMeaning(task, r) == Chain(der) <==>
      Reached(r) && (task.via.Some? ==> Answers(r, 200)) && r.tls == Ok(der)
    ensures forall phase, fault :: CaptureMeaning(task, r) == NoChain(phase, fault) ==>
      match phase
      case TlsPhase => Reached(r) && (task.via.Some? ==> Answers(r, 200)) && r.tls == Err(fault)
      case TunnelPhase => task.via.Some? && !Answers(r, 200) && exists status :: Refuses(r, fault, status)
      case _ => EndsEarly(r, phase, fault)
  {
    if task.via.Some? {
      TunnelEnds(r, 0);
      var t := TunnelMeaning(r, 0);
      assert t.NoTunnel? && t.phase == TunnelPhase ==> Refuses(r, t.fault, t.status);
    }
  }

  /** Step by step, the same outcome: a capture on its own ends as `CaptureEnds` says. */
  lemma RunEnds(task: Task, socket: nat, r: Replies, n: int)
    requires task.via.Some? && Answers(r, n) && 100 <= n <= 599 && n != 200
    ensures Alone(task, socket, EventsOf(task, r)).stage == Finished(NoChain(TunnelPhase, Coded(Some("HTTP_" + Decimal(n)))))
  {
    hide Alone;
    AloneIsCapture(task, socket, r);
    RefusalCodes(r, 0, n);
  }

  // ---- which hosts are the same ----

  /** The host without the white space around it, in small letters. */
  lemma HostKeyIs(host: string) returns (left: string, core: string, right: string)
    ensures TextLaws.Trims(host, left, core, right)
    ensures |HostKey(host)| == |core|
    ensures forall i :: 0 <= i < |core| ==>
      && (forall k :: 0 <= k < 26 && core[i] == TextLaws.CAPITALS[k] ==> HostKey(host)[i] == TextLaws.SMALL[k])
      && (core[i] !in TextLaws.CAPITALS ==> HostKey(host)[i] == core[i])
  {
    hide Text.Trim, Text.Lower;
    left, right := TextLaws.TrimIs(host);
    core := Text.Trim(host);
    forall i | 0 <= i < |core|
      ensures forall k :: 0 <= k < 26 && core[i] == TextLaws.CAPITALS[k] ==> HostKey(host)[i] == TextLaws.SMALL[k]
      ensures core[i] !in TextLaws.CAPITALS ==> HostKey(host)[i] == core[i]
    {
      TextLaws.LowerIs(core, i);
    }
  }

  /** A profile's resolvers are permitted on the port of HTTPS and on no other. */
  lemma {:induction false} ResolversOnHttps(hosts: seq<string>, peer: Peer)
    ensures Named(DohPermits(hosts), peer) <==> peer.port == 443 && exists h :: h in hosts && HostKey(h) == HostKey(peer.host)
  {
    hide HostKey;
    if hosts != [] {
      var init, last := hosts[..|hosts| - 1], hosts[|hosts| - 1];
      assert hosts == init + [last];
      ResolversOnHttps(init, peer);
      assert forall h :: h in hosts <==> h in init || h == last;
      OneMoreNamed(DohPermits(init), Permit(Peer(last, 443), "profile DoH resolver"), peer);
    }
  }
}
