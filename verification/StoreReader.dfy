/** One child process read to the end, and the budgets such reads are given (src/net/os-truststore.ts). */
module StoreReader {
  import opened Wrappers
  import opened Bits
  import opened StoreTypes
  import Decimals
  import Pem
  import Stores

  const STORE_BUDGET_RESERVE_MS: int := 2_000
  const MIN_STORE_BUDGET_MS: int := 1_000

  /** What reaches a read: output, a failed start, the child's end, the budget running out, the run's abort. */
  datatype Event =
    | Data(chunk: bytes)
    | Error(errno: Option<string>, now: int)
    | Close(exit: Option<nat>, signal: Option<string>, now: int)
    | Timer
    | Abort

  datatype Killed = Killed(failure: OsFailure, code: string)

  /** Everything a read is started with. `decode` is the UTF-8 decoder. */
  datatype Request = Request(command: Command, timeoutMs: int, startedAt: int, decode: bytes -> string)

  const KILLED_CODE: string := "signal:SIGKILL"
  const RUN_SIGNAL: string := "run-signal"
  const OVERFLOWED: Killed := Killed(OutputTooLarge, KILLED_CODE)
  const TIMED_OUT: Killed := Killed(Timeout, KILLED_CODE)
  const ABORTED: Killed := Killed(Aborted, RUN_SIGNAL)

  function OutcomeFor(q: Request, failure: Option<OsFailure>, code: Option<string>, pems: seq<string>, now: int): OsStore {
    OsStore(q.command.kind, q.command.locator, pems, failure, code, Some(q.timeoutMs), Some(now - q.startedAt))
  }

  function FailedStart(q: Request, e: Event): OsStore
    requires e.Error?
  {
    OutcomeFor(q, Some(if e.errno == Some(Stores.ENOENT) then ReaderMissing else ReaderFailed), e.errno, [], e.now)
  }

  /** What a child that nobody killed means when it closes having printed `output`. */
  function Finished(q: Request, output: bytes, e: Event): OsStore
    requires e.Close?
  {
    if e.signal.Some? then OutcomeFor(q, Some(ReaderFailed), Some("signal:" + e.signal.value), [], e.now)
    else if e.exit != Some(0) then
      OutcomeFor(q, Some(ReaderFailed), if e.exit.None? then None else Some("exit:" + Decimals.Decimal(e.exit.value)), [], e.now)
    else
      var pems := Pem.StdoutPems(q.command.format, q.decode(output));
      OutcomeFor(q, if pems == [] then Some(NoCertificates) else None, None, pems, e.now)
  }

  // ---- one step at a time ----

  datatype State = State(chunks: seq<bytes>, received: nat, settled: bool, killed: Option<Killed>, outcome: Option<OsStore>)

  const START: State := State([], 0, false, None, None)

  function Concat(chunks: seq<bytes>): bytes {
    if chunks == [] then [] else Concat(chunks[..|chunks| - 1]) + chunks[|chunks| - 1]
  }

  function Kill(s: State, reason: Killed): State {
    if s.killed.Some? || s.settled then s else s.(killed := Some(reason), chunks := [])
  }

  function Finish(s: State, outcome: OsStore): State {
    if s.settled then s else s.(settled := true, outcome := Some(outcome))
  }

  function Step(q: Request, s: State, e: Event): State {
    match e
    case Data(chunk) =>
      if s.killed.Some? then s
      else
        var received := s.received + |chunk|;
        if received > Stores.MAX_STORE_OUTPUT_BYTES then Kill(s.(received := received), OVERFLOWED)
        else s.(received := received, chunks := s.chunks + [chunk])
    case Error(_, _) => Finish(s, FailedStart(q, e))
    case Close(_, _, now) =>
      if s.killed.Some? then Finish(s, OutcomeFor(q, Some(s.killed.value.failure), Some(s.killed.value.code), [], now))
      else Finish(s, Finished(q, Concat(s.chunks), e))
    case Timer => Kill(s, TIMED_OUT)
    case Abort => Kill(s, ABORTED)
  }

  function Run(q: Request, es: seq<Event>): State {
    if es == [] then START else Step(q, Run(q, es[..|es| - 1]), es[|es| - 1])
  }

  /** The promise and the callbacks that may settle it. */
  class ReadOneStore {
    const q: Request
    var chunks: seq<bytes>
    var received: nat
    var settled: bool
    var killed: Option<Killed>
    var outcome: Option<OsStore>
    ghost var settlements: nat
    ghost var kills: nat

    function Now(): State
      reads this
    {
      State(chunks, received, settled, killed, outcome)
    }

    /** At most one settlement and one kill, and never more than the cap held in memory. */
    ghost predicate Valid()
      reads this
    {
      && Retains(Now())
      && settlements == (if settled then 1 else 0)
      && kills == (if killed.Some? then 1 else 0)
    }

    constructor (q: Request)
      ensures this.q == q && Now() == START && Valid()
    {
      this.q := q;
      chunks, received, settled, killed, outcome := [], 0, false, None, None;
      settlements, kills := 0, 0;
    }

    method KillChild(reason: Killed)
      requires Retains(Now()) && settlements == (if settled then 1 else 0) && kills == (if killed.Some? then 1 else 0)
      modifies this
      ensures Now() == Kill(old(Now()), reason) && Valid()
    {
      if killed.Some? || settled { return; }
      killed := Some(reason);
      chunks := [];
      kills := kills + 1;
    }

    method Settle(failure: Option<OsFailure>, code: Option<string>, pems: seq<string>, now: int)
      requires Valid()
      modifies this
      ensures Now() == Finish(old(Now()), OutcomeFor(q, failure, code, pems, now)) && Valid()
    {
      if settled { return; }
      settled := true;
      outcome := Some(OutcomeFor(q, failure, code, pems, now));
      settlements := settlements + 1;
    }

    method OnData(chunk: bytes)
      requires Valid()
      modifies this
      ensures Now() == Step(q, old(Now()), Data(chunk)) && Valid()
    {
      if killed.Some? { return; }
      received := received + |chunk|;
      if received > Stores.MAX_STORE_OUTPUT_BYTES {
        KillChild(OVERFLOWED);
        return;
      }
      assert (chunks + [chunk])[..|chunks|] == chunks;
      chunks := chunks + [chunk];
    }

    method OnError(errno: Option<string>, now: int)
      requires Valid()
      modifies this
      ensures Now() == Step(q, old(Now()), Error(errno, now)) && Valid()
    {
      Settle(Some(if errno == Some(Stores.ENOENT) then ReaderMissing else ReaderFailed), errno, [], now);
    }

    method OnClose(exit: Option<nat>, signal: Option<string>, now: int)
      requires Valid()
      modifies this
      ensures Now() == Step(q, old(Now()), Close(exit, signal, now)) && Valid()
    {
      if killed.Some? {
        Settle(Some(killed.value.failure), Some(killed.value.code), [], now);
        return;
      }
      if signal.Some? {
        Settle(Some(ReaderFailed), Some("signal:" + signal.value), [], now);
        return;
      }
      if exit != Some(0) {
        Settle(Some(ReaderFailed), if exit.None? then None else Some("exit:" + Decimals.Decimal(exit.value)), [], now);
        return;
      }
      var output := Concat(chunks);
      var pems := Pem.ParseStdout(q.command.format, q.decode(output));
      Settle(if pems == [] then Some(NoCertificates) else None, None, pems, now);
    }

    method OnTimer()
      requires Valid()
      modifies this
      ensures Now() == Step(q, old(Now()), Timer) && Valid()
    {
      KillChild(TIMED_OUT);
    }

    method OnAbort()
      requires Valid()
      modifies this
      ensures Now() == Step(q, old(Now()), Abort) && Valid()
    {
      KillChild(ABORTED);
    }
  }

  // ---- whole runs ----

  /** Memory stays within the cap, and the bytes held are the bytes counted until something overflowed. */
  ghost predicate Retains(s: State) {
    && |Concat(s.chunks)| <= Stores.MAX_STORE_OUTPUT_BYTES
    && (s.killed.None? && s.received <= Stores.MAX_STORE_OUTPUT_BYTES ==> |Concat(s.chunks)| == s.received)
    && (s.outcome.Some? <==> s.settled)
  }

  predicate Settling(e: Event) {
    e.Error? || e.Close?
  }

  /** What the data events among the first `n` print. */
  function Printed(es: seq<Event>, n: nat): bytes
    requires n <= |es|
  {
    if n == 0 then []
    else Printed(es, n - 1) + if es[n - 1].Data? then es[n - 1].chunk else []
  }

  /** Why the event at `i` would have the child killed, judged by everything printed up to it. */
  function KillReason(es: seq<Event>, i: nat): Option<Killed>
    requires i < |es|
  {
    match es[i]
    case Timer => Some(TIMED_OUT)
    case Abort => Some(ABORTED)
    case Data(_) => if |Printed(es, i + 1)| > Stores.MAX_STORE_OUTPUT_BYTES then Some(OVERFLOWED) else None
    case _ => None
  }

  /** The first reason among the first `n` events. */
  function FirstReason(es: seq<Event>, n: nat): (r: Option<Killed>)
    requires n <= |es|
    ensures r.None? ==> forall i :: 0 <= i < n ==> KillReason(es, i).None?
    ensures r.Some? ==> exists i :: 0 <= i < n && KillReason(es, i) == r && forall k :: 0 <= k < i ==> KillReason(es, k).None?
  {
    if n == 0 then None
    else
      var before := FirstReason(es, n - 1);
      if before.Some? then before else KillReason(es, n - 1)
  }

  /** What a run means that is first settled by its event `k`, told without any running state. */
  function Meaning(q: Request, es: seq<Event>, k: nat): OsStore
    requires k < |es| && Settling(es[k])
  {
    var reason := FirstReason(es, k);
    if es[k].Error? then FailedStart(q, es[k])
    else if reason.Some? then OutcomeFor(q, Some(reason.value.failure), Some(reason.value.code), [], es[k].now)
    else Finished(q, Printed(es, k), es[k])
  }

  ghost predicate FirstSettling(es: seq<Event>, k: nat) {
    k < |es| && Settling(es[k]) && forall i :: 0 <= i < k ==> !Settling(es[i])
  }

  /**
   * Over every order of events, the read has settled exactly when the child failed to start or
   * closed, and its outcome is fixed by the first such event and what came before it: the first
   * reason to kill when the child was killed, else everything it printed.
   */
  lemma RunMeans(q: Request, es: seq<Event>)
    ensures Run(q, es).outcome.None? <==> forall e :: e in es ==> !Settling(e)
    ensures forall k :: FirstSettling(es, k) ==> Run(q, es).outcome == Some(Meaning(q, es, k))
  {
    hide Run, Meaning, FirstReason, KillReason;
    forall k: nat | FirstSettling(es, k) ensures Run(q, es).outcome == Some(Meaning(q, es, k)) {
      Unsettled(q, es, k);
      assert es[..k + 1][..k] == es[..k];
      SettledAt(q, es, k);
      StaysSettled(q, es, k + 1);
    }
    if forall e :: e in es ==> !Settling(e) {
      Unsettled(q, es, |es|);
      assert es[..|es|] == es;
    } else {
      var e :| e in es && Settling(e);
      var i :| 0 <= i < |es| && es[i] == e;
      var k := FirstSettlingAt(es, i);
      assert FirstSettling(es, k);
    }
  }

  lemma {:induction false} FirstSettlingAt(es: seq<Event>, i: nat) returns (k: nat)
    requires i < |es| && exists j :: 0 <= j <= i && Settling(es[j])
    ensures FirstSettling(es, k)
    decreases i
  {
    if exists j :: 0 <= j <= i - 1 && Settling(es[j]) {
      k := FirstSettlingAt(es, i - 1);
    } else {
      k := i;
    }
  }

  /** Until something settles the read, its state is what the events printed and asked for. */
  lemma {:induction false} Unsettled(q: Request, es: seq<Event>, n: nat)
    requires n <= |es| && forall i :: 0 <= i < n ==> !Settling(es[i])
    ensures var s := Run(q, es[..n]);
      && !s.settled && s.outcome.None? && s.killed == FirstReason(es, n)
      && (s.killed.None? ==> s.received == |Printed(es, n)| && Concat(s.chunks) == Printed(es, n))
  {
    hide Step, Concat, Printed, FirstReason;
    if n == 0 {
      assert es[..0] == [];
      NothingYet(es);
    } else {
      Unsettled(q, es, n - 1);
      assert es[..n][..n - 1] == es[..n - 1] && es[..n][n - 1] == es[n - 1];
      StillUnsettled(q, es, n - 1, Run(q, es[..n - 1]));
    }
  }

  lemma NothingYet(es: seq<Event>)
    ensures Printed(es, 0) == [] && FirstReason(es, 0).None? && Concat([]) == []
  {
  }

  lemma StillUnsettled(q: Request, es: seq<Event>, n: nat, s: State)
    requires n < |es| && !Settling(es[n])
    requires !s.settled && s.outcome.None? && s.killed == FirstReason(es, n)
    requires s.killed.None? ==> s.received == |Printed(es, n)| && Concat(s.chunks) == Printed(es, n)
    ensures var t := Step(q, s, es[n]);
      && !t.settled && t.outcome.None? && t.killed == FirstReason(es, n + 1)
      && (t.killed.None? ==> t.received == |Printed(es, n + 1)| && Concat(t.chunks) == Printed(es, n + 1))
  {
    if es[n].Data? {
      assert (s.chunks + [es[n].chunk])[..|s.chunks|] == s.chunks;
    }
  }

  lemma SettledAt(q: Request, es: seq<Event>, k: nat)
    requires FirstSettling(es, k)
    ensures Run(q, es[..k + 1]).outcome == Some(Meaning(q, es, k)) && Run(q, es[..k + 1]).settled
  {
    hide FirstReason, Finished, FailedStart;
    Unsettled(q, es, k);
    assert es[..k + 1][..k] == es[..k] && es[..k + 1][k] == es[k];
  }

  lemma {:induction false} StaysSettled(q: Request, es: seq<Event>, n: nat)
    requires n <= |es| && Run(q, es[..n]).settled
    ensures Run(q, es).settled && Run(q, es).outcome == Run(q, es[..n]).outcome
    decreases |es|
  {
    if n == |es| {
      assert es[..n] == es;
    } else {
      var init := es[..|es| - 1];
      assert init[..n] == es[..n];
      StaysSettled(q, init, n);
    }
  }

  /** Certificates come with success and only with it; a timeout means the timer fired. */
  ghost predicate WellFormed(q: Request, es: seq<Event>, o: OsStore) {
    && (o.pems != [] <==> o.failure.None?) && o.budgetMs == Some(q.timeoutMs)
    && o.kind == q.command.kind && o.locator == q.command.locator
    && (o.failure == Some(Timeout) ==> o.code == Some(KILLED_CODE) && Timer in es)
  }

  /** Certificates come with success and only with it, and memory stays within the cap throughout. */
  lemma {:induction false} OutcomeShape(q: Request, es: seq<Event>)
    ensures Retains(Run(q, es))
    ensures Run(q, es).outcome.Some? ==> WellFormed(q, es, Run(q, es).outcome.value)
    ensures Run(q, es).killed == Some(TIMED_OUT) ==> Timer in es
  {
    hide Retains, FailedStart, Finished, Concat;
    EmptyRetains();
    if es != [] {
      var init, last := es[..|es| - 1], es[|es| - 1];
      assert es == init + [last];
      OutcomeShape(q, init);
      KilledWhy(q, init);
      StepRetains(q, Run(q, init), last);
      if last.Close? || last.Error? {
        StepSettles(q, es, Run(q, init), last);
      }
    }
  }

  lemma EmptyRetains()
    ensures Retains(START)
  {
  }

  lemma StepRetains(q: Request, s: State, e: Event)
    requires Retains(s)
    ensures Retains(Step(q, s, e))
  {
    hide FailedStart, Finished, OutcomeFor, Concat;
    NothingHeld();
    if e.Data? {
      OneMoreChunk(s.chunks, e.chunk);
    }
  }

  lemma NothingHeld()
    ensures Concat([]) == []
  {
  }

  lemma OneMoreChunk(chunks: seq<bytes>, chunk: bytes)
    ensures Concat(chunks + [chunk]) == Concat(chunks) + chunk
  {
    assert (chunks + [chunk])[..|chunks|] == chunks;
  }

  /** A first settlement gives an outcome that is well formed. */
  lemma StepSettles(q: Request, es: seq<Event>, s: State, e: Event)
    requires (e.Close? || e.Error?) && (s.killed == Some(TIMED_OUT) ==> Timer in es)
    requires s.killed.None? || s.killed.value in {OVERFLOWED, TIMED_OUT, ABORTED}
    ensures !s.settled ==> Step(q, s, e).outcome.Some? && WellFormed(q, es, Step(q, s, e).outcome.value)
    ensures s.settled ==> Step(q, s, e) == s
  {
    hide Pem.StdoutPems, Decimals.Decimal, Concat;
  }

  lemma {:induction false} KilledWhy(q: Request, es: seq<Event>)
    ensures var k := Run(q, es).killed; k.None? || k.value in {OVERFLOWED, TIMED_OUT, ABORTED}
  {
    if es != [] {
      KilledWhy(q, es[..|es| - 1]);
    }
  }
}
