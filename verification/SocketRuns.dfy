/**
 * Captures running side by side, as the tls probe runs them (src/probes/tls/index.ts): each goes
 * on when the network answers it, in any order, over one guard.
 */
module SocketRuns {
  import opened Wrappers
  import opened Bits
  import opened Guard
  import opened Sockets

  /** Where one capture is waiting. A capture opens at most one socket, known by the capture's number. */
  datatype Stage =
    | Ready
    | TunnelLookup
    | TunnelConnect
    | TunnelReply
    | DirectLookup
    | DirectConnect
    | Handshake
    | Finished(outcome: CaptureOutcome)
    | Refused

  datatype Event =
    | Begin
    | Answered(dns: Result<seq<string>, Fault>)
    | Connected(fault: Option<Fault>)
    | Replied(status: Result<Option<int>, Fault>)
    | Secured(tls: Result<seq<bytes>, Fault>)

  datatype Progress = Progress(stage: Stage, acts: seq<Act>)

  /** What a capture does between one answer and its next wait. */
  function Advance(task: Task, admitted: bool, socket: nat, stage: Stage, e: Event): Progress {
    match (stage, e)
    case (Ready, Begin) =>
      if !admitted then Progress(Refused, [])
      else if task.via.Some? then Progress(TunnelLookup, [Admitted(task.via.value), Looked(task.via.value.host)])
      else Progress(DirectLookup, [Looked(task.target.host)])
    case (TunnelLookup, Answered(dns)) => Resolved(task.via, TunnelConnect, socket, dns)
    case (DirectLookup, Answered(dns)) => Resolved(Some(task.target), DirectConnect, socket, dns)
    case (TunnelConnect, Connected(fault)) =>
      if fault.Some? then Progress(Finished(NoChain(ConnectPhase, fault.value)), [Closed(socket)])
      else Progress(TunnelReply, [])
    case (DirectConnect, Connected(fault)) =>
      if fault.Some? then Progress(Finished(NoChain(ConnectPhase, fault.value)), [Closed(socket)])
      else Progress(Handshake, [])
    case (TunnelReply, Replied(Err(f))) => Progress(Finished(NoChain(TunnelPhase, f)), [Closed(socket)])
    case (TunnelReply, Replied(Ok(raw))) =>
      if raw == Some(200) then Progress(Handshake, [])
      else Progress(Finished(NoChain(TunnelPhase, RefusedStatus(StatusOf(raw)).fault)), [Closed(socket)])
    case (Handshake, Secured(Err(f))) => Progress(Finished(NoChain(TlsPhase, f)), [Closed(socket)])
    case (Handshake, Secured(Ok(der))) => Progress(Finished(Chain(der)), [Closed(socket)])
    case _ => Progress(stage, [])
  }

  function Resolved(peer: Option<Peer>, next: Stage, socket: nat, dns: Result<seq<string>, Fault>): Progress {
    match dns
    case Err(f) => Progress(Finished(NoChain(DnsPhase, f)), [])
    case Ok(addresses) =>
      if addresses == [] || peer.None? then Progress(Finished(NoChain(DnsPhase, NO_DATA)), [])
      else Progress(next, [Opened(socket, peer.value)])
  }

  datatype System = System(stages: seq<Stage>, log: seq<Act>)

  /** The event is delivered to the capture with the given number. */
  datatype Turn = Turn(capture: nat, event: Event)

  function Start(tasks: seq<Task>): System {
    System(seq(|tasks|, _ => Ready), [])
  }

  ghost function Step(profile: seq<Permit>, tasks: seq<Task>, s: System, t: Turn): System
    requires |s.stages| == |tasks|
  {
    if t.capture >= |tasks| then s
    else
      var admitted := Named(profile + Permits(s.log), tasks[t.capture].target);
      var p := Advance(tasks[t.capture], admitted, t.capture, s.stages[t.capture], t.event);
      System(s.stages[t.capture := p.stage], s.log + p.acts)
  }

  ghost function Run(profile: seq<Permit>, tasks: seq<Task>, turns: seq<Turn>): (s: System)
    ensures |s.stages| == |tasks|
  {
    if turns == [] then Start(tasks)
    else Step(profile, tasks, Run(profile, tasks, turns[..|turns| - 1]), turns[|turns| - 1])
  }

  // ---- safety over every interleaving ----

  /** The capture is waiting with its socket open. */
  predicate Holds(stage: Stage) {
    stage in {TunnelConnect, TunnelReply, DirectConnect, Handshake}
  }

  /** Where a capture's socket goes: to its proxy when it has one. */
  function Destination(task: Task): Peer {
    if task.via.Some? then task.via.value else task.target
  }

  /** What the log says of one socket. */
  function Of(log: seq<Act>, socket: nat): seq<Act> {
    if log == [] then []
    else
      var last := log[|log| - 1];
      Of(log[..|log| - 1], socket)
        + if (last.Opened? || last.Closed?) && last.socket == socket then [last] else []
  }

  /** A socket's whole life, told by where its capture is. */
  predicate LifeFits(task: Task, socket: nat, stage: Stage, life: seq<Act>) {
    match stage
    case Finished(_) => life == [] || life == [Opened(socket, Destination(task)), Closed(socket)]
    case _ => life == if Holds(stage) then [Opened(socket, Destination(task))] else []
  }

  /** The guard has admitted what the capture is about to use. */
  ghost predicate Covered(profile: seq<Permit>, log: seq<Act>, task: Task, stage: Stage) {
    && (stage == TunnelLookup ==> task.via.Some? && Named(profile + Permits(log), task.via.value))
    && (stage == DirectLookup ==> task.via.None? && Named(profile + Permits(log), task.target))
    && (stage in {TunnelConnect, TunnelReply} ==> task.via.Some?)
    && (stage == DirectConnect ==> task.via.None?)
  }

  ghost predicate Safe(profile: seq<Permit>, tasks: seq<Task>, s: System)
    requires |s.stages| == |tasks|
  {
    && Gated(profile, s.log)
    && (forall k :: 0 <= k < |tasks| ==> LifeFits(tasks[k], k, s.stages[k], Of(s.log, k)))
    && (forall k :: 0 <= k < |tasks| ==> (k in LiveAfter(s.log) <==> Holds(s.stages[k])))
    && (forall k :: k in LiveAfter(s.log) ==> k < |tasks|)
  }

  /**
   * In every interleaving: nothing is looked up and no socket opened before the guard has admitted
   * that host and port; each capture opens at most one socket, to its own proxy or target, and
   * closes it once; and the sockets open at any moment are exactly those of captures still waiting
   * on one. Once every capture has finished, none is open.
   */
  lemma EveryRunIsSafe(profile: seq<Permit>, tasks: seq<Task>, turns: seq<Turn>)
    ensures var s := Run(profile, tasks, turns);
      && Safe(profile, tasks, s)
      && ((forall k :: 0 <= k < |tasks| ==> s.stages[k].Finished? || s.stages[k].Refused?) ==> LiveAfter(s.log) == {})
  {
    RunKeeps(profile, tasks, turns);
  }

  lemma {:induction false} RunKeeps(profile: seq<Permit>, tasks: seq<Task>, turns: seq<Turn>)
    ensures var s := Run(profile, tasks, turns);
      Safe(profile, tasks, s) && forall k :: 0 <= k < |tasks| ==> Covered(profile, s.log, tasks[k], s.stages[k])
  {
    hide Safe, Covered, Step;
    if turns == [] {
      StartIsSafe(profile, tasks);
    } else {
      RunKeeps(profile, tasks, turns[..|turns| - 1]);
      StepKeeps(profile, tasks, Run(profile, tasks, turns[..|turns| - 1]), turns[|turns| - 1]);
    }
  }

  lemma StartIsSafe(profile: seq<Permit>, tasks: seq<Task>)
    ensures var s := Start(tasks);
      Safe(profile, tasks, s) && forall k :: 0 <= k < |tasks| ==> Covered(profile, s.log, tasks[k], s.stages[k])
  {
  }

  lemma StepKeeps(profile: seq<Permit>, tasks: seq<Task>, s: System, t: Turn)
    requires |s.stages| == |tasks| && Safe(profile, tasks, s)
    requires forall k :: 0 <= k < |tasks| ==> Covered(profile, s.log, tasks[k], s.stages[k])
    ensures var s' := Step(profile, tasks, s, t);
      Safe(profile, tasks, s') && forall k :: 0 <= k < |tasks| ==> Covered(profile, s'.log, tasks[k], s'.stages[k])
  {
    hide Gated, Permits, Named, LiveAfter, Of, Advance;
    if t.capture < |tasks| {
      var j := t.capture;
      var admitted := Named(profile + Permits(s.log), tasks[j].target);
      var p := Advance(tasks[j], admitted, j, s.stages[j], t.event);
      ActsFit(profile, s.log, tasks[j], admitted, j, s.stages[j], t.event);
      forall k | 0 <= k < |tasks| && k != j
        ensures Of(s.log + p.acts, k) == Of(s.log, k)
        ensures k in LiveAfter(s.log + p.acts) <==> k in LiveAfter(s.log)
        ensures Covered(profile, s.log + p.acts, tasks[k], s.stages[k])
      {
        OthersUntouched(s.log, p.acts, j, k);
        CoveredGrows(profile, s.log, p.acts, tasks[k], s.stages[k]);
      }
      OnlyOwn(s.log, p.acts, j);
    }
  }

  ghost predicate ActsOf(acts: seq<Act>, socket: nat) {
    forall a :: a in acts ==> (a.Opened? || a.Closed? ==> a.socket == socket)
  }

  lemma {:induction false} OthersUntouched(log: seq<Act>, acts: seq<Act>, j: nat, k: nat)
    requires ActsOf(acts, j) && k != j
    ensures Of(log + acts, k) == Of(log, k)
    ensures k in LiveAfter(log + acts) <==> k in LiveAfter(log)
    decreases |acts|
  {
    if acts == [] {
      assert log + acts == log;
    } else {
      var init := acts[..|acts| - 1];
      assert acts == init + [acts[|acts| - 1]];
      assert (log + acts)[..|log + acts| - 1] == log + init;
      OthersUntouched(log, init, j, k);
    }
  }

  lemma {:induction false} OnlyOwn(log: seq<Act>, acts: seq<Act>, j: nat)
    requires ActsOf(acts, j)
    ensures LiveAfter(log + acts) <= LiveAfter(log) + {j}
    decreases |acts|
  {
    if acts == [] {
      assert log + acts == log;
    } else {
      var init := acts[..|acts| - 1];
      assert acts == init + [acts[|acts| - 1]];
      assert (log + acts)[..|log + acts| - 1] == log + init;
      OnlyOwn(log, init, j);
    }
  }

  lemma {:induction false} PermitsConcat(log: seq<Act>, acts: seq<Act>)
    ensures Permits(log + acts) == Permits(log) + Permits(acts)
    decreases |acts|
  {
    if acts == [] {
      assert log + acts == log;
    } else {
      var init := acts[..|acts| - 1];
      assert (log + acts)[..|log + acts| - 1] == log + init;
      PermitsConcat(log, init);
    }
  }

  lemma StillNamed(profile: seq<Permit>, log: seq<Act>, acts: seq<Act>, peer: Peer)
    ensures Named(profile + Permits(log), peer) ==> Named(profile + Permits(log + acts), peer)
  {
    hide Permits, Named;
    PermitsConcat(log, acts);
    NamedGrows(profile + Permits(log), Permits(acts), peer);
    assert profile + Permits(log) + Permits(acts) == profile + (Permits(log) + Permits(acts));
  }

  lemma CoveredGrows(profile: seq<Permit>, log: seq<Act>, acts: seq<Act>, task: Task, stage: Stage)
    requires Covered(profile, log, task, stage)
    ensures Covered(profile, log + acts, task, stage)
  {
    hide Permits, Named;
    StillNamed(profile, log, acts, task.target);
    if task.via.Some? {
      StillNamed(profile, log, acts, task.via.value);
    }
  }

  /** What the capture that moves adds to the log, and where it stands then. */
  lemma ActsFit(profile: seq<Permit>, log: seq<Act>, task: Task, admitted: bool, j: nat, stage: Stage, e: Event)
    requires Gated(profile, log) && Covered(profile, log, task, stage) && LifeFits(task, j, stage, Of(log, j))
    requires j in LiveAfter(log) <==> Holds(stage)
    requires admitted == Named(profile + Permits(log), task.target)
    ensures var p := Advance(task, admitted, j, stage, e);
      && ActsOf(p.acts, j) && Gated(profile, log + p.acts) && Covered(profile, log + p.acts, task, p.stage)
      && LifeFits(task, j, p.stage, Of(log + p.acts, j))
      && (j in LiveAfter(log + p.acts) <==> Holds(p.stage))
  {
    hide Gated, Permits, Named, HostNamed, LiveAfter, Of, RefusedStatus, StatusOf;
    var p := Advance(task, admitted, j, stage, e);
    if p.acts == [] {
      assert log + p.acts == log;
    } else if stage == Ready {
      BeginFits(profile, log, task, j);
    } else {
      assert |p.acts| == 1 && p.acts == [p.acts[0]];
      OneMore(profile, log, p.acts[0]);
      LifeGrows(log, p.acts[0], j);
      assert Permits(log) + [] == Permits(log);
    }
  }

  lemma LifeGrows(log: seq<Act>, act: Act, socket: nat)
    ensures Of(log + [act], socket)
         == Of(log, socket) + if (act.Opened? || act.Closed?) && act.socket == socket then [act] else []
  {
    assert (log + [act])[..|log|] == log;
  }

  lemma BeginFits(profile: seq<Permit>, log: seq<Act>, task: Task, j: nat)
    requires Gated(profile, log) && Named(profile + Permits(log), task.target)
    ensures var acts := Advance(task, true, j, Ready, Begin).acts;
      && Gated(profile, log + acts) && Of(log + acts, j) == Of(log, j) && LiveAfter(log + acts) == LiveAfter(log)
      && Named(profile + Permits(log + acts), Destination(task))
  {
    hide Gated, Permits, LiveAfter, Of, HostKey;
    if task.via.Some? {
      var proxy := task.via.value;
      var first := log + [Admitted(proxy)];
      OneMore(profile, log, Admitted(proxy));
      LifeGrows(log, Admitted(proxy), j);
      NamedLast(profile + Permits(log), proxy);
      assert profile + Permits(first) == profile + Permits(log) + [Permit(proxy, "proxy CONNECT tunnel")];
      OneMore(profile, first, Looked(proxy.host));
      LifeGrows(first, Looked(proxy.host), j);
      assert Permits(first) + [] == Permits(first);
      assert log + [Admitted(proxy), Looked(proxy.host)] == first + [Looked(proxy.host)];
    } else {
      OneMore(profile, log, Looked(task.target.host));
      LifeGrows(log, Looked(task.target.host), j);
      assert Permits(log) + [] == Permits(log);
    }
  }

  // ---- a capture among others is a capture alone ----

  /** The events delivered to one capture. */
  function Own(turns: seq<Turn>, capture: nat): seq<Event> {
    if turns == [] then []
    else
      var last := turns[|turns| - 1];
      Own(turns[..|turns| - 1], capture) + if last.capture == capture then [last.event] else []
  }

  /** An admitted capture with nothing else going on. */
  function Alone(task: Task, socket: nat, es: seq<Event>): Progress {
    if es == [] then Progress(Ready, [])
    else
      var before := Alone(task, socket, es[..|es| - 1]);
      var p := Advance(task, true, socket, before.stage, es[|es| - 1]);
      Progress(p.stage, before.acts + p.acts)
  }

  /**
   * What runs beside a capture has no say in it: a capture whose target the profile names is, in
   * every interleaving, where its own events alone would have brought it.
   */
  lemma {:induction false} OthersHaveNoSay(profile: seq<Permit>, tasks: seq<Task>, turns: seq<Turn>, k: nat)
    requires k < |tasks| && Named(profile, tasks[k].target)
    ensures Run(profile, tasks, turns).stages[k] == Alone(tasks[k], k, Own(turns, k)).stage
  {
    hide Advance, Named, Permits;
    if turns != [] {
      var init, t := turns[..|turns| - 1], turns[|turns| - 1];
      OthersHaveNoSay(profile, tasks, init, k);
      NamedGrows(profile, Permits(Run(profile, tasks, init).log), tasks[k].target);
      var es := Own(init, k);
      assert es + [] == es && (es + [t.event])[..|es|] == es;
    }
  }

  /** The events of a capture that gets these replies in order; those after it finishes change nothing. */
  function EventsOf(task: Task, r: Replies): seq<Event> {
    [Begin, Answered(r.dns), Connected(r.connect)] + (if task.via.Some? then [Replied(r.status)] else []) + [Secured(r.tls)]
  }

  /** Alone, a capture step by step is the capture in one go: the same outcome and the same acts. */
  lemma AloneIsCapture(task: Task, socket: nat, r: Replies)
    ensures Alone(task, socket, EventsOf(task, r))
         == Progress(Finished(CaptureMeaning(task, r)), CaptureActs(task, r, socket))
  {
    hide Alone, Advance, EventsOf, RefusedStatus, StatusOf;
    if task.via.Some? {
      AloneProxied(task, socket, r);
    } else {
      AloneDirect(task, socket, r);
    }
  }

  lemma AloneDirect(task: Task, socket: nat, r: Replies)
    requires task.via.None?
    ensures Alone(task, socket, EventsOf(task, r))
         == Progress(Finished(CaptureMeaning(task, r)), CaptureActs(task, r, socket))
  {
    hide Alone, RefusedStatus, StatusOf;
    var es := EventsOf(task, r);
    AloneNext(task, socket, es, 0);
    AloneNext(task, socket, es, 1);
    AloneNext(task, socket, es, 2);
    AloneNext(task, socket, es, 3);
    assert es[..|es|] == es;
  }

  lemma AloneProxied(task: Task, socket: nat, r: Replies)
    requires task.via.Some?
    ensures Alone(task, socket, EventsOf(task, r))
         == Progress(Finished(CaptureMeaning(task, r)), CaptureActs(task, r, socket))
  {
    hide Alone, RefusedStatus, StatusOf;
    var es := EventsOf(task, r);
    AloneNext(task, socket, es, 0);
    AloneNext(task, socket, es, 1);
    AloneNext(task, socket, es, 2);
    AloneNext(task, socket, es, 3);
    AloneNext(task, socket, es, 4);
    assert es[..|es|] == es;
  }

  lemma AloneNext(task: Task, socket: nat, es: seq<Event>, i: nat)
    requires i < |es|
    ensures i == 0 ==> Alone(task, socket, es[..0]) == Progress(Ready, [])
    ensures var before := Alone(task, socket, es[..i]);
      var p := Advance(task, true, socket, before.stage, es[i]);
      Alone(task, socket, es[..i + 1]) == Progress(p.stage, before.acts + p.acts)
  {
    assert es[..i + 1][..i] == es[..i];
  }
}
