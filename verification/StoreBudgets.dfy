/** The operating system's stores read one after another against the run's deadline (src/net/os-truststore.ts). */
module StoreBudgets {
  import opened Wrappers
  import opened Bits
  import opened RootIndex
  import opened StoreTypes
  import Pem
  import Stores
  import CrossCheck
  import opened StoreReader

  const OS_TRUSTSTORE_COMMANDS: seq<Command> := [
    Command(Darwin, MacosSystemRoots, "/System/Library/Keychains/SystemRootCertificates.keychain", Pem.PemStream, 5_000),
    Command(Darwin, MacosAdminAnchors, "/Library/Keychains/System.keychain", Pem.PemStream, 5_000),
    Command(Win32, WindowsMachineRoot, "Cert:\\LocalMachine\\Root", Pem.Base64DerLines, 60_000)
  ]

  /**
   * What the world does while the `i`-th store of this platform is read: the clock when its budget
   * is computed and when it starts, whether the run's signal has fired, and the child's events.
   */
  datatype World = World(
    now: nat -> int, startedAt: nat -> int, aborted: nat -> bool, events: nat -> seq<Event>, decode: bytes -> string)

  /** Every child fails to start or closes, sooner or later. */
  ghost predicate ChildrenEnd(w: World) {
    forall i :: exists e :: e in w.events(i) && Settling(e)
  }

  function Min(a: int, b: int): int {
    if a < b then a else b
  }

  /** What the run's deadline leaves for a store. */
  function Room(now: int, deadline: int): int {
    deadline - now - STORE_BUDGET_RESERVE_MS
  }

  function StoreBudget(command: Command, now: int, deadline: int): int {
    var room := Min(command.timeoutMs, Room(now, deadline));
    if room < 0 then 0 else room
  }

  function RequestFor(w: World, i: nat, command: Command, deadline: int): Request {
    Request(command, StoreBudget(command, w.now(i), deadline), w.startedAt(i), w.decode)
  }

  function NotRun(command: Command, failure: OsFailure, code: string): OsStore {
    OsStore(command.kind, command.locator, [], Some(failure), Some(code), Some(0), None)
  }

  function RowOutcome(w: World, i: nat, command: Command, deadline: int): OsStore
    requires ChildrenEnd(w)
  {
    if StoreBudget(command, w.now(i), deadline) < MIN_STORE_BUDGET_MS && !w.aborted(i) then
      NotRun(command, Timeout, CrossCheck.BUDGET_EXHAUSTED)
    else if w.aborted(i) then NotRun(command, Aborted, RUN_SIGNAL)
    else
      RunMeans(RequestFor(w, i, command, deadline), w.events(i));
      Run(RequestFor(w, i, command, deadline), w.events(i)).outcome.value
  }

  /** The table's rows for a platform. */
  function RowsFor(commands: seq<Command>, platform: Platform): seq<Command> {
    if commands == [] then []
    else
      RowsFor(commands[..|commands| - 1], platform)
        + if commands[|commands| - 1].platform == platform then [commands[|commands| - 1]] else []
  }

  function Outcomes(w: World, rows: seq<Command>, deadline: int): (r: seq<OsStore>)
    requires ChildrenEnd(w)
    ensures |r| == |rows| && forall i :: 0 <= i < |rows| ==> r[i] == RowOutcome(w, i, rows[i], deadline)
  {
    if rows == [] then []
    else Outcomes(w, rows[..|rows| - 1], deadline) + [RowOutcome(w, |rows| - 1, rows[|rows| - 1], deadline)]
  }

  /** One child's events handed to its read in the order they arrive. */
  method Await(q: Request, events: seq<Event>) returns (r: OsStore)
    requires exists e :: e in events && Settling(e)
    ensures Some(r) == Run(q, events).outcome
  {
    var read := new ReadOneStore(q);
    for i := 0 to |events|
      invariant read.Valid() && read.q == q && fresh(read)
      invariant read.Now() == Run(q, events[..i])
    {
      assert events[..i + 1][..i] == events[..i];
      match events[i] {
        case Data(chunk) => read.OnData(chunk);
        case Error(errno, now) => read.OnError(errno, now);
        case Close(exit, signal, now) => read.OnClose(exit, signal, now);
        case Timer => read.OnTimer();
        case Abort => read.OnAbort();
      }
    }
    assert events[..|events|] == events;
    RunMeans(q, events);
    r := read.outcome.value;
  }

  lemma OneMoreRow(w: World, rows: seq<Command>, command: Command, deadline: int)
    requires ChildrenEnd(w)
    ensures Outcomes(w, rows + [command], deadline) == Outcomes(w, rows, deadline) + [RowOutcome(w, |rows|, command, deadline)]
    ensures Outcomes(w, [], deadline) == []
  {
    hide RowOutcome;
    assert (rows + [command])[..|rows|] == rows;
  }

  method ReadStores(w: World, commands: seq<Command>, platform: Platform, deadline: int) returns (outcomes: seq<OsStore>)
    requires ChildrenEnd(w)
    ensures outcomes == Outcomes(w, RowsFor(commands, platform), deadline)
  {
    hide Run, StoreBudget, RequestFor, NotRun, Outcomes;
    outcomes := [];
    assert Outcomes(w, [], deadline) == [];
    for i := 0 to |commands|
      invariant outcomes == Outcomes(w, RowsFor(commands[..i], platform), deadline)
    {
      assert commands[..i + 1][..i] == commands[..i];
      var command := commands[i];
      if command.platform != platform {
        assert RowsFor(commands[..i], platform) + [] == RowsFor(commands[..i], platform);
        continue;
      }
      var n := |outcomes|;
      ghost var rows := RowsFor(commands[..i], platform);
      OneMoreRow(w, rows, command, deadline);
      var budget := StoreBudget(command, w.now(n), deadline);
      if budget < MIN_STORE_BUDGET_MS && !w.aborted(n) {
        outcomes := outcomes + [NotRun(command, Timeout, CrossCheck.BUDGET_EXHAUSTED)];
        continue;
      }
      if w.aborted(n) {
        outcomes := outcomes + [NotRun(command, Aborted, RUN_SIGNAL)];
        continue;
      }
      var outcome := Await(RequestFor(w, n, command, deadline), w.events(n));
      outcomes := outcomes + [outcome];
    }
    assert commands[..|commands|] == commands;
  }

  /** Every store of the platform: the bundle file on Linux, the table's rows elsewhere. */
  function AllStores(w: World, files: Stores.Files, platform: Platform, deadline: int, elapsed: int): seq<OsStore>
    requires ChildrenEnd(w)
  {
    if platform == Linux then [Stores.LinuxBundle(files, Stores.LINUX_CA_BUNDLE_PATHS, Stores.MAX_STORE_OUTPUT_BYTES, elapsed)]
    else Outcomes(w, RowsFor(OS_TRUSTSTORE_COMMANDS, platform), deadline)
  }

  method Read(w: World, files: Stores.Files, platform: Platform, deadline: int, elapsed: int) returns (outcomes: seq<OsStore>)
    requires ChildrenEnd(w)
    ensures outcomes == AllStores(w, files, platform, deadline, elapsed)
  {
    hide Stores.LinuxBundle, Outcomes;
    if platform == Linux {
      var bundle := Stores.ReadLinuxCaBundle(files, Stores.LINUX_CA_BUNDLE_PATHS, Stores.MAX_STORE_OUTPUT_BYTES, elapsed);
      return [bundle];
    }
    outcomes := ReadStores(w, OS_TRUSTSTORE_COMMANDS, platform, deadline);
  }

  // ---- what the budgets promise ----

  /** A process is started for the `i`-th store. */
  predicate ChildStarted(w: World, i: nat, command: Command, deadline: int) {
    !w.aborted(i) && StoreBudget(command, w.now(i), deadline) >= MIN_STORE_BUDGET_MS
  }

  /**
   * Every child has at least a second and at most its row's ceiling, and is to end no later than
   * two seconds before the deadline; an outcome's budget is zero exactly when no child was started,
   * and then it holds nothing and took no time.
   */
  lemma BudgetsHold(w: World, rows: seq<Command>, deadline: int, i: nat)
    requires ChildrenEnd(w) && i < |rows|
    ensures var o := Outcomes(w, rows, deadline)[i];
      && (ChildStarted(w, i, rows[i], deadline) ==>
            exists b :: o.budgetMs == Some(b) && MIN_STORE_BUDGET_MS <= b <= rows[i].timeoutMs
                        && w.now(i) + b <= deadline - STORE_BUDGET_RESERVE_MS)
      && (o.budgetMs == Some(0) <==> !ChildStarted(w, i, rows[i], deadline))
      && (o.budgetMs == Some(0) ==> o.pems == [] && o.readMs.None? && o.failure.Some?)
      && (o.failure.None? <==> o.pems != [])
  {
    hide Run;
    if ChildStarted(w, i, rows[i], deadline) {
      var q := RequestFor(w, i, rows[i], deadline);
      RunMeans(q, w.events(i));
      OutcomeShape(q, w.events(i));
      assert Outcomes(w, rows, deadline)[i] == Run(q, w.events(i)).outcome.value;
    }
  }

  /**
   * The reader's answer is empty exactly on a platform that is none of the three it knows, and
   * every store in it has certificates exactly when it has no failure.
   */
  lemma EmptyMeansUnsupported(w: World, files: Stores.Files, platform: Platform, deadline: int, elapsed: int)
    requires ChildrenEnd(w)
    ensures var stores := AllStores(w, files, platform, deadline, elapsed);
      && (stores == [] <==> platform == OtherPlatform)
      && forall s :: s in stores ==> (s.pems != [] <==> s.failure.None?)
  {
    hide Outcomes, RowsFor, Stores.LinuxBundle;
    if platform == Linux {
      BundleMeans(files, Stores.LINUX_CA_BUNDLE_PATHS, Stores.MAX_STORE_OUTPUT_BYTES, elapsed);
    } else {
      var rows := RowsFor(OS_TRUSTSTORE_COMMANDS, platform);
      RowsOfTable(platform);
      forall i | 0 <= i < |rows|
        ensures var o := Outcomes(w, rows, deadline)[i]; o.pems != [] <==> o.failure.None?
      {
        BudgetsHold(w, rows, deadline, i);
      }
    }
  }

  lemma BundleMeans(files: Stores.Files, paths: seq<string>, maxBytes: nat, elapsed: int)
    ensures var s := Stores.LinuxBundle(files, paths, maxBytes, elapsed); s.pems != [] <==> s.failure.None?
  {
    hide Pem.Blocks, Stores.FirstPresent;
  }

  /** The table has rows for two platforms. */
  lemma RowsOfTable(platform: Platform)
    ensures RowsFor(OS_TRUSTSTORE_COMMANDS, platform) == [] <==> platform == Linux || platform == OtherPlatform
  {
    var t := OS_TRUSTSTORE_COMMANDS;
    assert t[..2] == [t[0], t[1]] && t[..2][..1] == [t[0]] && t[..2][..1][..0] == [];
    assert RowsFor(t[..1], platform) == if platform == Darwin then [t[0]] else [];
    assert RowsFor(t[..2], platform) == if platform == Darwin then [t[0], t[1]] else [];
  }

  /** The pinned table gives every row at least the minimum and names each kind once. */
  lemma TableRows(command: Command)
    requires command in OS_TRUSTSTORE_COMMANDS
    ensures command.timeoutMs >= MIN_STORE_BUDGET_MS
    ensures CrossCheck.CeilingFor(command.kind, OS_TRUSTSTORE_COMMANDS) == Some(command.timeoutMs)
  {
    var t := OS_TRUSTSTORE_COMMANDS;
    assert t[1..] == [t[1], t[2]] && t[1..][1..] == [t[2]];
    assert CrossCheck.CeilingFor(t[2].kind, [t[2]]) == Some(t[2].timeoutMs);
    assert CrossCheck.CeilingFor(t[2].kind, [t[1], t[2]]) == Some(t[2].timeoutMs);
  }

  /**
   * A store that ran out of time is reported as such, and the report advises a larger `--timeout`
   * exactly when the run's deadline, not the row's ceiling, was the smaller bound.
   */
  lemma AdviceIsHonest(w: World, platform: Platform, deadline: int, x: X509, local: set<bytes>, i: nat)
    requires ChildrenEnd(w) && i < |RowsFor(OS_TRUSTSTORE_COMMANDS, platform)|
    ensures var row := RowsFor(OS_TRUSTSTORE_COMMANDS, platform)[i];
      var o := Outcomes(w, RowsFor(OS_TRUSTSTORE_COMMANDS, platform), deadline)[i];
      o.failure == Some(Timeout) ==>
        CrossCheck.OsFindingsOf(x, o, local, OS_TRUSTSTORE_COMMANDS)
          == [CrossCheck.OsReadTimeout(row.kind, Room(w.now(i), deadline) < row.timeoutMs)]
  {
    hide RowsFor, RowOutcome, CrossCheck.CeilingFor, CrossCheck.AnchorsOf, CrossCheck.AdvisesTimeout;
    var rows := RowsFor(OS_TRUSTSTORE_COMMANDS, platform);
    RowsAreFromTable(OS_TRUSTSTORE_COMMANDS, platform);
    TableRows(rows[i]);
    AdviceOnRow(w, i, rows[i], deadline);
  }

  lemma AdviceOnRow(w: World, i: nat, row: Command, deadline: int)
    requires ChildrenEnd(w) && row.timeoutMs >= MIN_STORE_BUDGET_MS
    ensures var o := RowOutcome(w, i, row, deadline);
      o.failure == Some(Timeout) ==>
        o.kind == row.kind && CrossCheck.AdvisesTimeout(o, Some(row.timeoutMs)) == (Room(w.now(i), deadline) < row.timeoutMs)
  {
    hide Run;
    if ChildStarted(w, i, row, deadline) {
      var q := RequestFor(w, i, row, deadline);
      RunMeans(q, w.events(i));
      OutcomeShape(q, w.events(i));
      CodesDiffer();
    }
  }

  lemma CodesDiffer()
    ensures KILLED_CODE != CrossCheck.BUDGET_EXHAUSTED
  {
    assert KILLED_CODE[0] != CrossCheck.BUDGET_EXHAUSTED[0];
  }

  lemma {:induction false} RowsAreFromTable(commands: seq<Command>, platform: Platform)
    ensures forall c :: c in RowsFor(commands, platform) ==> c in commands && c.platform == platform
  {
    if commands != [] {
      RowsAreFromTable(commands[..|commands| - 1], platform);
    }
  }
}
