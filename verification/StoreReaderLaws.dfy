/** Which stores are read, with how much time, and what each kind of end is reported as (src/net/os-truststore.ts). */
module StoreReaderLaws {
  import opened Wrappers
  import opened StoreTypes
  import Decimals
  import Pem
  import Stores
  import opened StoreReader
  import opened StoreBudgets

  // ---- one read ----

  const FOUR_MIB: nat := 0x40_0000

  /** The event has the child killed, as this failure with this code. */
  ghost predicate Kills(es: seq<Event>, i: nat, failure: OsFailure, code: string) {
    && i < |es|
    && match es[i]
       case Timer => failure == Timeout && code == "signal:SIGKILL"
       case Abort => failure == Aborted && code == "run-signal"
       case Data(_) => |Printed(es, i + 1)| > FOUR_MIB && failure == OutputTooLarge && code == "signal:SIGKILL"
       case _ => false
  }

  /** The first event before `k` that has the child killed. */
  ghost predicate FirstKill(es: seq<Event>, k: nat, i: nat, failure: OsFailure, code: string) {
    i < k && Kills(es, i, failure, code) && forall j: nat, f, c :: j < i ==> !Kills(es, j, f, c)
  }

  ghost predicate Unkilled(es: seq<Event>, k: nat) {
    forall i: nat, f, c :: i < k ==> !Kills(es, i, f, c)
  }

  /** What a child that nobody killed is reported as when it closes. */
  ghost predicate CloseFits(q: Request, es: seq<Event>, k: nat, o: OsStore)
    requires k < |es| && es[k].Close?
  {
    if es[k].signal.Some? then
      o.pems == [] && o.failure == Some(ReaderFailed) && o.code == Some("signal:" + es[k].signal.value)
    else if es[k].exit == Some(0) then
      && o.pems == Pem.StdoutPems(q.command.format, q.decode(Printed(es, k))) && o.code == None
      && o.failure == (if o.pems == [] then Some(NoCertificates) else None)
    else
      && o.pems == [] && o.failure == Some(ReaderFailed)
      && o.code == if es[k].exit.Some? then Some("exit:" + Decimals.Decimal(es[k].exit.value)) else None
  }

  /** What a read that event `k` settles is reported as. */
  ghost predicate OutcomeFits(q: Request, es: seq<Event>, k: nat, o: OsStore)
    requires k < |es| && Settling(es[k])
  {
    && o.kind == q.command.kind && o.locator == q.command.locator
    && o.budgetMs == Some(q.timeoutMs) && o.readMs == Some(es[k].now - q.startedAt)
    && if es[k].Error? then
         && o.pems == [] && o.code == es[k].errno
         && o.failure == Some(if es[k].errno == Some("ENOENT") then ReaderMissing else ReaderFailed)
       else if Unkilled(es, k) then CloseFits(q, es, k, o)
       else
         o.pems == [] && exists i, f, c :: FirstKill(es, k, i, f, c) && o.failure == Some(f) && o.code == Some(c)
  }

  lemma KillReasonIs(es: seq<Event>, i: nat)
    requires i < |es|
    ensures forall f, c :: Kills(es, i, f, c) <==> KillReason(es, i) == Some(Killed(f, c))
  {
    hide Printed;
  }

  lemma FirstReasonIs(es: seq<Event>, k: nat)
    requires k <= |es|
    ensures FirstReason(es, k).None? <==> Unkilled(es, k)
    ensures FirstReason(es, k).Some? ==>
      exists i, f, c :: FirstKill(es, k, i, f, c) && FirstReason(es, k) == Some(Killed(f, c))
  {
    hide Kills, KillReason, FirstReason;
    forall i: nat | i < |es| ensures forall f, c :: Kills(es, i, f, c) <==> KillReason(es, i) == Some(Killed(f, c)) {
      KillReasonIs(es, i);
    }
    if FirstReason(es, k).Some? {
      var r := FirstReason(es, k).value;
      var i :| 0 <= i < k && KillReason(es, i) == Some(r) && forall j :: 0 <= j < i ==> KillReason(es, j).None?;
      assert r == Killed(r.failure, r.code);
      forall j: nat, f, c | j < i ensures !Kills(es, j, f, c) {
        assert KillReason(es, j).None?;
      }
      assert FirstKill(es, k, i, r.failure, r.code);
    } else {
      forall i: nat, f, c | i < k ensures !Kills(es, i, f, c) {
        assert KillReason(es, i).None?;
      }
    }
  }

  lemma MeaningFits(q: Request, es: seq<Event>, k: nat)
    requires k < |es| && Settling(es[k])
    ensures OutcomeFits(q, es, k, Meaning(q, es, k))
  {
    hide FirstReason, Printed, FirstKill, Unkilled, Pem.StdoutPems, Decimals.Decimal;
    FirstReasonIs(es, k);
  }

  /**
   * A read is reported as its first settling event and the first event before it that had the child
   * killed say: an absent program apart from one that failed to start, a timeout apart from a
   * cancelled run and from too much output, a signal apart from an exit code, and certificates only
   * for a child that ended well.
   */
  lemma ReadMeans(q: Request, es: seq<Event>, k: nat)
    requires FirstSettling(es, k)
    ensures Run(q, es).outcome.Some? && OutcomeFits(q, es, k, Run(q, es).outcome.value)
  {
    hide Run, Meaning, OutcomeFits;
    RunMeans(q, es);
    MeaningFits(q, es, k);
  }

  // ---- the budgets ----

  /** The time that a row is given: its ceiling, or what is left until two seconds before the deadline. */
  function Allowance(row: Command, now: int, deadline: int): int {
    if row.timeoutMs < deadline - now - 2000 then row.timeoutMs else deadline - now - 2000
  }

  /**
   * A row is read by a child that gets its allowance, when that is a second or more and the run is
   * still on. A cancelled run is reported as such, and one short of time as a timeout for want of
   * budget; neither starts anything.
   */
  lemma RowMeans(w: World, i: nat, row: Command, deadline: int)
    requires ChildrenEnd(w)
    ensures var o := RowOutcome(w, i, row, deadline);
      var b := Allowance(row, w.now(i), deadline);
      && o.kind == row.kind && o.locator == row.locator
      && (w.aborted(i) ==> o.pems == [] && o.failure == Some(Aborted) && o.code == Some("run-signal")
                           && o.budgetMs == Some(0) && o.readMs == None)
      && (!w.aborted(i) && b < 1000 ==> o.pems == [] && o.failure == Some(Timeout) && o.code == Some("budget-exhausted")
                                        && o.budgetMs == Some(0) && o.readMs == None)
      && (!w.aborted(i) && b >= 1000 ==>
            exists k :: FirstSettling(w.events(i), k)
                        && OutcomeFits(Request(row, b, w.startedAt(i), w.decode), w.events(i), k, o))
  {
    hide Run, OutcomeFits, FirstSettling;
    var b := Allowance(row, w.now(i), deadline);
    if !w.aborted(i) && b >= 1000 {
      var q := Request(row, b, w.startedAt(i), w.decode);
      assert RequestFor(w, i, row, deadline) == q;
      RunMeans(q, w.events(i));
      var k := Settles(w, i);
      ReadMeans(q, w.events(i), k);
      KindKept(q, w.events(i), k, Run(q, w.events(i)).outcome.value);
    }
  }

  lemma KindKept(q: Request, es: seq<Event>, k: nat, o: OsStore)
    requires k < |es| && Settling(es[k]) && OutcomeFits(q, es, k, o)
    ensures o.kind == q.command.kind && o.locator == q.command.locator
  {
  }

  lemma Settles(w: World, i: nat) returns (k: nat)
    requires ChildrenEnd(w)
    ensures FirstSettling(w.events(i), k) && k < |w.events(i)| && Settling(w.events(i)[k])
  {
    var e :| e in w.events(i) && Settling(e);
    var j :| 0 <= j < |w.events(i)| && w.events(i)[j] == e;
    k := FirstSettlingAt(w.events(i), j);
  }

  // ---- the table ----

  lemma RowKept(c: Command, platform: Platform)
    ensures RowsFor([c], platform) == if c.platform == platform then [c] else []
  {
    assert [c][..0] == [];
  }

  /** The rows kept of two tables one after the other are those kept of each, in order. */
  lemma {:induction false} RowsAreKept(a: seq<Command>, b: seq<Command>, platform: Platform)
    ensures RowsFor(a + b, platform) == RowsFor(a, platform) + RowsFor(b, platform)
    decreases |b|
  {
    hide RowsFor;
    if b == [] {
      NoRows(platform);
      assert a + b == a && RowsFor(a, platform) + [] == RowsFor(a, platform);
    } else {
      var init, last := b[..|b| - 1], b[|b| - 1];
      RowsAreKept(a, init, platform);
      LastRow(a + init, last, platform);
      LastRow(init, last, platform);
      assert a + b == a + init + [last] && b == init + [last];
    }
  }

  lemma NoRows(platform: Platform)
    ensures RowsFor([], platform) == []
  {
  }

  lemma LastRow(rows: seq<Command>, last: Command, platform: Platform)
    ensures RowsFor(rows + [last], platform) == RowsFor(rows, platform) + if last.platform == platform then [last] else []
  {
    assert (rows + [last])[..|rows|] == rows;
  }

  const SYSTEM_ROOTS: Command :=
    Command(Darwin, MacosSystemRoots, "/System/Library/Keychains/SystemRootCertificates.keychain", Pem.PemStream, 5000)
  const ADMIN_ANCHORS: Command :=
    Command(Darwin, MacosAdminAnchors, "/Library/Keychains/System.keychain", Pem.PemStream, 5000)
  const MACHINE_ROOT: Command :=
    Command(Win32, WindowsMachineRoot, "Cert:\\LocalMachine\\Root", Pem.Base64DerLines, 60_000)

  /** Where distributions keep the bundle, in the order they are tried. */
  const BUNDLE_PATHS: seq<string> := [
    "/etc/ssl/certs/ca-certificates.crt",
    "/etc/pki/tls/certs/ca-bundle.crt",
    "/etc/ssl/ca-bundle.pem",
    "/etc/pki/tls/cacert.pem",
    "/etc/pki/ca-trust/extracted/pem/tls-ca-bundle.pem",
    "/etc/ssl/cert.pem"
  ]

  lemma RowsRead(platform: Platform)
    ensures RowsFor(OS_TRUSTSTORE_COMMANDS, platform) ==
      match platform
      case Darwin => [SYSTEM_ROOTS, ADMIN_ANCHORS]
      case Win32 => [MACHINE_ROOT]
      case _ => []
  {
    hide RowsFor;
    assert OS_TRUSTSTORE_COMMANDS == [SYSTEM_ROOTS] + [ADMIN_ANCHORS] + [MACHINE_ROOT];
    RowsAreKept([SYSTEM_ROOTS], [ADMIN_ANCHORS], platform);
    RowsAreKept([SYSTEM_ROOTS] + [ADMIN_ANCHORS], [MACHINE_ROOT], platform);
    RowKept(SYSTEM_ROOTS, platform);
    RowKept(ADMIN_ANCHORS, platform);
    RowKept(MACHINE_ROOT, platform);
  }

  /**
   * What is read on each platform: both keychains on macOS, in order; the machine's root store on
   * Windows; the one bundle on Linux, up to 4 MiB; nothing anywhere else.
   */
  lemma PlatformStores(w: World, files: Stores.Files, platform: Platform, deadline: int, elapsed: int)
    requires ChildrenEnd(w)
    ensures AllStores(w, files, platform, deadline, elapsed) ==
      match platform
      case Darwin => [RowOutcome(w, 0, SYSTEM_ROOTS, deadline), RowOutcome(w, 1, ADMIN_ANCHORS, deadline)]
      case Win32 => [RowOutcome(w, 0, MACHINE_ROOT, deadline)]
      case Linux => [Stores.LinuxBundle(files, BUNDLE_PATHS, FOUR_MIB, elapsed)]
      case OtherPlatform => []
  {
    hide RowsFor, RowOutcome, Stores.LinuxBundle;
    RowsRead(platform);
  }
}
