/** The facts of a report, finding by finding, told from its inputs alone, and what its trust sets are. */
module CrossCheckReport {
  import opened Wrappers
  import opened Bits
  import opened RootIndex
  import opened StoreTypes
  import opened CrossCheck
  import opened CrossCheckLaws
  import opened CrossCheckFacts
  import opened CrossCheckInvariance

  // ---- the operating system's stores ----

  /** The first row for the store's kind, if any, allows more time than the store was given. */
  ghost predicate GivenLess(s: OsStore, commands: seq<Command>) {
    forall i: nat :: FirstOfKind(commands, s.kind, i) ==>
      (if s.budgetMs.Some? then s.budgetMs.value else 0) < commands[i].timeoutMs
  }

  ghost predicate FirstOfKind(commands: seq<Command>, kind: StoreKind, i: nat) {
    i < |commands| && commands[i].kind == kind && forall j :: 0 <= j < i ==> commands[j].kind != kind
  }

  /** What one store is reported for. */
  ghost predicate SaidOfStore(x: X509, input: CrossCheckInput, s: OsStore, f: Finding) {
    match f
    case OsRead(kind, anchors, added, unparsed) =>
      && kind == s.kind && s.failure.None? && anchors == |DerSet(x, s.pems)| && unparsed == Unparsable(x, s.pems)
      && added == |DerSet(x, s.pems) - DerSet(x, input.publicRootPems)|
    case OsReadTimeout(kind, raise) =>
      && kind == s.kind && s.failure == Some(Timeout)
      && (raise <==> s.code == Some("budget-exhausted") || GivenLess(s, input.osCommands))
    case OsAborted(kind) => kind == s.kind && s.failure == Some(Aborted)
    case OsUnreadable(kind, failure) =>
      kind == s.kind && s.failure == Some(failure) && failure in {ReaderMissing, ReaderFailed, OutputTooLarge, NoCertificates}
    case _ => false
  }

  lemma {:induction false} CeilingIs(kind: StoreKind, commands: seq<Command>)
    ensures forall i: nat :: FirstOfKind(commands, kind, i) ==> CeilingFor(kind, commands) == Some(commands[i].timeoutMs)
    ensures (forall i: nat :: !FirstOfKind(commands, kind, i)) ==> CeilingFor(kind, commands).None?
  {
    if commands != [] && commands[0].kind != kind {
      CeilingIs(kind, commands[1..]);
      forall i: nat | FirstOfKind(commands, kind, i) ensures i > 0 && FirstOfKind(commands[1..], kind, i - 1) {
        assert forall j :: 0 <= j < i - 1 ==> commands[1..][j] == commands[j + 1];
      }
      forall i: nat | FirstOfKind(commands[1..], kind, i) ensures FirstOfKind(commands, kind, i + 1) {
        assert forall j :: 0 < j <= i ==> commands[j] == commands[1..][j - 1];
      }
    } else if commands != [] {
      assert FirstOfKind(commands, kind, 0);
    }
  }

  lemma AdviceIs(s: OsStore, commands: seq<Command>)
    ensures AdvisesTimeout(s, CeilingFor(s.kind, commands)) <==>
      s.code == Some("budget-exhausted") || GivenLess(s, commands)
  {
    hide CeilingFor;
    CeilingIs(s.kind, commands);
    if i: nat :| FirstOfKind(commands, s.kind, i) {
      assert forall j: nat :: FirstOfKind(commands, s.kind, j) ==> j == i;
    }
  }

  lemma StoreSaid(x: X509, input: CrossCheckInput, s: OsStore)
    requires s in input.osStores
    ensures forall f :: f in OsFindingsOf(x, s, Added(x, input), input.osCommands) <==> SaidOfStore(x, input, s, f)
  {
    hide AnchorsOf, DerSet, Unparsable, CountIn, Added, AdvisesTimeout, GivenLess, CeilingFor;
    AdviceIs(s, input.osCommands);
    if s.failure.None? {
      CountsAre(x, input, s);
    }
  }

  lemma CountsAre(x: X509, input: CrossCheckInput, s: OsStore)
    requires s in input.osStores && s.failure.None?
    ensures var parsed := AnchorsOf(x, s.pems);
      && |parsed.anchors| == |DerSet(x, s.pems)| && parsed.unparsed == Unparsable(x, s.pems)
      && CountIn(parsed.anchors, Added(x, input)) == |DerSet(x, s.pems) - DerSet(x, input.publicRootPems)|
  {
    hide AnchorsOf, DerSet, Unparsable, CountIn, Added;
    var parsed := AnchorsOf(x, s.pems);
    AnchorsCounted(x, s.pems);
    AnchorsAre(x, s.pems);
    CountOfElements(parsed.anchors);
    CountInIs(parsed.anchors, Added(x, input));
    assert Elements(parsed.anchors) == DerSet(x, s.pems);
    OwnShare(x, input, s);
  }

  lemma {:induction false} StoresSaid(x: X509, input: CrossCheckInput, stores: seq<OsStore>)
    requires forall s :: s in stores ==> s in input.osStores
    ensures forall f :: f in OsStoreFindings(x, stores, Added(x, input), input.osCommands) <==>
      exists s :: s in stores && SaidOfStore(x, input, s, f)
  {
    hide OsFindingsOf, SaidOfStore, Added;
    if stores != [] {
      assert stores[0] in stores;
      StoreSaid(x, input, stores[0]);
      StoresSaid(x, input, stores[1..]);
      assert forall s :: s in stores <==> s == stores[0] || s in stores[1..];
    }
  }

  // ---- the runtimes' own stores ----

  /** The store is one that an environment variable names. */
  predicate ByVariable(o: RuntimeStore) {
    o.kind in {NodeExtraCa, GoSslCertFile, GoSslCertDir, PythonSslCertFile, PythonRequestsCaBundle}
  }

  /** What one store of a declared runtime is reported for. */
  ghost predicate SaidOfOutcome(runtime: Runtime, o: RuntimeStore, f: Finding) {
    match f
    case ExtraCaConfigured(r, kind, anchors) =>
      r == runtime && kind == o.kind && ByVariable(o) && o.failure.None? && anchors == |o.pems|
    case ExtraCaUnreadable(r, kind, reason) =>
      r == runtime && kind == o.kind && ByVariable(o) && o.failure == Some(reason) && reason != NotConfigured
    case JavaStoreUnreadable(onlyPart, cause) =>
      && o.kind == JavaCacerts && cause == o.failure && (onlyPart <==> o.failure.None? && o.partial)
      && if cause.Some? then cause != Some(NotFound) || o.partial else o.partial
    case _ => false
  }

  lemma OutcomeSaid(runtime: Runtime, o: RuntimeStore)
    ensures forall f :: f in OutcomeFindings(runtime, o) <==> SaidOfOutcome(runtime, o, f)
  {
  }

  lemma {:induction false} OutcomesSaid(runtime: Runtime, outcomes: seq<RuntimeStore>)
    ensures forall f :: f in OutcomesFindings(runtime, outcomes) <==> exists o :: o in outcomes && SaidOfOutcome(runtime, o, f)
  {
    hide OutcomeFindings, SaidOfOutcome;
    if outcomes != [] {
      OutcomeSaid(runtime, outcomes[0]);
      OutcomesSaid(runtime, outcomes[1..]);
      assert forall o :: o in outcomes <==> o == outcomes[0] || o in outcomes[1..];
    }
  }

  lemma {:induction false} OutcomesAre(stores: seq<RuntimeStore>, runtime: Runtime)
    ensures forall o :: o in OutcomesOf(stores, runtime) <==> o in stores && o.runtime == runtime
  {
    if stores != [] {
      OutcomesAre(stores[1..], runtime);
      assert forall o :: o in stores <==> o == stores[0] || o in stores[1..];
    }
  }

  // ---- trust sets ----

  /** The store was read and is a file of roots. */
  predicate Usable(o: RuntimeStore) {
    o.failure.None? && o.kind != PlatformVerifier
  }

  /** The store heads a trust set: a usable one that replaces the defaults, or a default that nothing usable replaces. */
  ghost predicate Heads(outcomes: seq<RuntimeStore>, base: RuntimeStore) {
    && base in outcomes && Usable(base)
    && (base.combines == Replaces
        || (base.combines == Standalone && forall o :: o in outcomes && Usable(o) ==> o.combines != Replaces))
  }

  /** The set that a store heads: its roots and those of every usable addition, partial when any of them is. */
  ghost predicate SetOf(runtime: Runtime, outcomes: seq<RuntimeStore>, base: RuntimeStore, t: TrustSet) {
    && t.runtime == runtime && t.locator == base.locator
    && (forall pem :: pem in t.pems <==>
          pem in base.pems || exists o :: o in outcomes && Usable(o) && o.combines == AddsTo && pem in o.pems)
    && (t.partial <==>
          base.partial || exists o :: o in outcomes && Usable(o) && o.combines == AddsTo && o.partial)
  }

  lemma {:induction false} UsableAre(outcomes: seq<RuntimeStore>, combines: Combines)
    ensures forall o :: o in Readable(outcomes, combines) <==> o in outcomes && Usable(o) && o.combines == combines
  {
    if outcomes != [] {
      UsableAre(outcomes[1..], combines);
      assert forall o :: o in outcomes <==> o == outcomes[0] || o in outcomes[1..];
    }
  }

  lemma {:induction false} PemsAre(stores: seq<RuntimeStore>)
    ensures forall pem :: pem in PemsOfAll(stores) <==> exists o :: o in stores && pem in o.pems
  {
    if stores != [] {
      PemsAre(stores[1..]);
      assert forall o :: o in stores <==> o == stores[0] || o in stores[1..];
    }
  }

  /** The trust sets of a runtime are the sets that its heading stores head, one each. */
  lemma TrustSetsAre(runtime: Runtime, outcomes: seq<RuntimeStore>)
    ensures forall t :: t in TrustSets(runtime, outcomes) ==> exists base :: Heads(outcomes, base) && SetOf(runtime, outcomes, base, t)
    ensures forall base :: Heads(outcomes, base) ==>
      exists t :: t in TrustSets(runtime, outcomes) && SetOf(runtime, outcomes, base, t)
  {
    hide Readable, SetsFrom, PemsOfAll, SetOf, Heads, TrustSets;
    var replacing := Readable(outcomes, Replaces);
    var bases := if replacing != [] then replacing else Readable(outcomes, Standalone);
    var sets := TrustSets(runtime, outcomes);
    BasesAre(outcomes, bases);
    SetsAre(runtime, outcomes, bases);
    forall t | t in sets ensures exists base :: Heads(outcomes, base) && SetOf(runtime, outcomes, base, t) {
      var i :| 0 <= i < |sets| && sets[i] == t;
      assert bases[i] in bases;
    }
    forall base | Heads(outcomes, base) ensures exists t :: t in sets && SetOf(runtime, outcomes, base, t) {
      var i :| 0 <= i < |bases| && bases[i] == base;
      assert sets[i] in sets;
    }
  }

  lemma SetsAre(runtime: Runtime, outcomes: seq<RuntimeStore>, bases: seq<RuntimeStore>)
    requires bases == var replacing := Readable(outcomes, Replaces);
      if replacing != [] then replacing else Readable(outcomes, Standalone)
    ensures var sets := TrustSets(runtime, outcomes);
      |sets| == |bases| && forall i :: 0 <= i < |sets| ==> SetOf(runtime, outcomes, bases[i], sets[i])
  {
    hide Readable, SetsFrom, PemsOfAll, Usable;
    var adds := Readable(outcomes, AddsTo);
    UsableAre(outcomes, AddsTo);
    PemsAre(adds);
    SetsFromShape(runtime, bases, PemsOfAll(adds), AnyPartial(adds));
  }

  lemma BasesAre(outcomes: seq<RuntimeStore>, bases: seq<RuntimeStore>)
    requires bases == var replacing := Readable(outcomes, Replaces);
      if replacing != [] then replacing else Readable(outcomes, Standalone)
    ensures forall base :: base in bases <==> Heads(outcomes, base)
  {
    hide Readable, Usable;
    UsableAre(outcomes, Replaces);
    UsableAre(outcomes, Standalone);
    var replacing := Readable(outcomes, Replaces);
    if replacing != [] {
      assert replacing[0] in replacing;
    }
  }

  // ---- the whole report ----

  /** Whether the runtime asks the operating system. */
  ghost predicate AsksOs(input: CrossCheckInput, runtime: Runtime) {
    exists o :: o in input.runtimeStores && o.runtime == runtime && o.kind == PlatformVerifier
  }

  /** Every place where the runtime's roots were looked for was unset or absent. */
  ghost predicate NowhereFound(input: CrossCheckInput, runtime: Runtime) {
    forall o :: o in input.runtimeStores && o.runtime == runtime ==> o.failure == Some(NotConfigured) || o.failure == Some(NotFound)
  }

  /** The finding states a fact about the inputs that is so. */
  ghost predicate Says(x: X509, input: CrossCheckInput, f: Finding) {
    match f
    case OsUnsupportedPlatform => input.osStores == []
    case AsksPlatform(r) => r in input.runtimes && AsksOs(input, r)
    case StoreNotFound(r) => r in input.runtimes && !AsksOs(input, r) && NowhereFound(input, r)
    case _ =>
      || (exists s :: s in input.osStores && SaidOfStore(x, input, s, f))
      || exists r, o :: r in input.runtimes && o in input.runtimeStores && o.runtime == r && SaidOfOutcome(r, o, f)
  }

  /** The finding is neither a verdict on a trust set nor the one that says there is none. */
  predicate IsFact(f: Finding) {
    !f.MissingRoot? && !f.RootsPresent? && !f.Indeterminate?
  }

  predicate IsOsFact(f: Finding) {
    f.OsRead? || f.OsReadTimeout? || f.OsAborted? || f.OsUnreadable? || f.OsUnsupportedPlatform?
  }

  /** What one declared runtime is reported for. */
  ghost predicate SaidOfRuntime(input: CrossCheckInput, r: Runtime, f: Finding) {
    match f
    case AsksPlatform(q) => q == r && AsksOs(input, r)
    case StoreNotFound(q) => q == r && !AsksOs(input, r) && NowhereFound(input, r)
    case _ => exists o :: o in input.runtimeStores && o.runtime == r && SaidOfOutcome(r, o, f)
  }

  lemma {:induction false} OnlySetsSpeak(x: X509, sets: seq<TrustSet>, local: seq<bytes>, observed: seq<ObservedAnchor>, coverage: Coverage)
    requires SetsFindings(x, sets, local, observed, coverage).Ok?
    ensures forall f :: f in SetsFindings(x, sets, local, observed, coverage).value ==> !IsFact(f)
  {
    if sets != [] {
      OnlySetsSpeak(x, sets[1..], local, observed, coverage);
    }
  }

  lemma RuntimeSaid(x: X509, input: CrossCheckInput, r: Runtime, local: seq<bytes>, coverage: Coverage)
    requires RuntimeFindings(x, r, Outcomes(input, r), local, input.observedAnchors, coverage).Ok?
    ensures forall f :: IsFact(f) ==>
      (f in RuntimeFindings(x, r, Outcomes(input, r), local, input.observedAnchors, coverage).value <==> SaidOfRuntime(input, r, f))
  {
    hide TrustSets, SetsFindings, OutcomesFindings, OutcomesOf, SaidOfOutcome;
    var outcomes := Outcomes(input, r);
    OutcomesAre(input.runtimeStores, r);
    OutcomesSaid(r, outcomes);
    NoFalseFacts();
    TrustSetsAre(r, outcomes);
    assert HasVerifier(outcomes) <==> AsksOs(input, r);
    assert AnyLocated(outcomes) <==> !NowhereFound(input, r);
    var sets := TrustSets(r, outcomes);
    if !HasVerifier(outcomes) && sets != [] {
      LocatedWhenJudged(r, outcomes);
      if coverage.level != NoEvidence {
        OnlySetsSpeak(x, sets, local, input.observedAnchors, coverage);
      }
    }
  }

  lemma NoFalseFacts()
    ensures forall r, o, f :: SaidOfOutcome(r, o, f) ==> !f.AsksPlatform? && !f.StoreNotFound? && !IsOsFact(f)
  {
  }

  /** A runtime with a trust set has its roots somewhere. */
  lemma LocatedWhenJudged(r: Runtime, outcomes: seq<RuntimeStore>)
    requires TrustSets(r, outcomes) != []
    ensures AnyLocated(outcomes)
  {
    hide TrustSets, SetOf;
    TrustSetsAre(r, outcomes);
    var t := TrustSets(r, outcomes)[0];
    assert t in TrustSets(r, outcomes);
    var base :| Heads(outcomes, base) && SetOf(r, outcomes, base, t);
  }

  lemma {:induction false} RuntimesSaid(x: X509, input: CrossCheckInput, runtimes: seq<Runtime>, local: seq<bytes>, coverage: Coverage)
    requires AllRuntimes(x, input, runtimes, local, coverage).Ok?
    ensures forall f :: IsFact(f) ==>
      (f in AllRuntimes(x, input, runtimes, local, coverage).value <==> exists r :: r in runtimes && SaidOfRuntime(input, r, f))
  {
    hide RuntimeFindings, SaidOfRuntime, OutcomesOf;
    if runtimes != [] {
      RuntimeSaid(x, input, runtimes[0], local, coverage);
      RuntimesSaid(x, input, runtimes[1..], local, coverage);
      assert forall r :: r in runtimes <==> r == runtimes[0] || r in runtimes[1..];
    }
  }

  /**
   * The report's facts are exactly those that are so: every store of the operating system for what
   * became of it, every store that a variable names, every keystore read in part or not at all,
   * every runtime that asks the platform and every one that was found nowhere; and nothing else.
   */
  lemma FactsAre(x: X509, input: CrossCheckInput)
    requires Verdict(x, input).Ok?
    ensures forall f :: IsFact(f) ==> (f in Verdict(x, input).value <==> Says(x, input, f))
  {
    hide OsStoreFindings, AllRuntimes, LocallyAdded, SaidOfStore, SaidOfRuntime;
    var index := IndexOf(x, input.publicRootPems).value;
    var local, coverage := LocallyAdded(x, input.osStores, index), CoverageOf(x, input.osStores);
    LocallyAddedAre(x, input, index);
    StoresSaid(x, input, input.osStores);
    RuntimesSaid(x, input, input.runtimes, local, coverage);
    forall f | IsFact(f) ensures f in Verdict(x, input).value <==> Says(x, input, f) {
      FactIs(x, input, f);
    }
  }

  /** What the report says of a runtime as a whole. */
  lemma RuntimeFactsAre(x: X509, input: CrossCheckInput, runtime: Runtime)
    requires Verdict(x, input).Ok?
    ensures AsksPlatform(runtime) in Verdict(x, input).value <==> runtime in input.runtimes && AsksOs(input, runtime)
    ensures StoreNotFound(runtime) in Verdict(x, input).value <==>
      runtime in input.runtimes && !AsksOs(input, runtime) && NowhereFound(input, runtime)
  {
    hide Verdict, SaidOfStore, SaidOfOutcome, AsksOs, NowhereFound;
    FactsAre(x, input);
  }

  /** Stores are reported for what stores are, and runtimes for the rest. */
  lemma FactIs(x: X509, input: CrossCheckInput, f: Finding)
    requires IsFact(f)
    ensures Says(x, input, f) <==>
      || (exists s :: s in input.osStores && SaidOfStore(x, input, s, f))
      || (f.OsUnsupportedPlatform? && input.osStores == [])
      || exists r :: r in input.runtimes && SaidOfRuntime(input, r, f)
  {
    hide SaidOfOutcome, GivenLess;
    NoFalseFacts();
  }

  // ---- the listed roots ----

  /** No anchor in the list comes before one that precedes it. */
  ghost predicate Ordered(x: X509, ds: seq<bytes>) {
    forall i, j :: 0 <= i < j < |ds| ==> !Before(x, ds[j], ds[i])
  }

  /** At most five of the missing roots: the tied one first, then the least of the others in order. */
  ghost predicate ListFits(x: X509, missing: set<bytes>, tied: Option<bytes>, listed: seq<bytes>) {
    && NoRepeats(listed) && Elements(listed) <= missing && |listed| == (if |missing| < 5 then |missing| else 5)
    && (tied.Some? ==> listed != [] && listed[0] == tied.value)
    && var rest := if tied.Some? then listed[1..] else listed;
       && Ordered(x, rest)
       && forall d, e :: d in missing && d !in listed && e in rest ==> !Before(x, d, e)
  }

  lemma {:induction false} OrderedWhole(x: X509, ds: seq<bytes>)
    requires InOrder(x, ds)
    ensures Ordered(x, ds)
  {
    hide Before;
    if ds != [] {
      HeadIsLeast(x, ds);
      OrderedWhole(x, ds[1..]);
    }
  }

  lemma {:induction false} NotInOrdered(x: X509, index: CertificateIndex, ds: seq<bytes>)
    requires Ordered(x, ds)
    ensures Ordered(x, NotIn(index, ds)) && forall d :: d in NotIn(index, ds) ==> d in ds
  {
    hide Ordered;
    if ds == [] {
      NoneOrdered(x);
    } else {
      OrderedParts(x, ds);
      NotInOrdered(x, index, ds[1..]);
      OrderedCons(x, ds[0], NotIn(index, ds[1..]));
      assert [] + NotIn(index, ds[1..]) == NotIn(index, ds[1..]);
    }
  }

  lemma NoneOrdered(x: X509)
    ensures Ordered(x, [])
  {
  }

  lemma OrderedParts(x: X509, ds: seq<bytes>)
    requires Ordered(x, ds) && ds != []
    ensures Ordered(x, ds[1..]) && forall e :: e in ds[1..] ==> !Before(x, e, ds[0])
  {
    hide Before;
  }

  lemma OrderedCons(x: X509, d: bytes, rest: seq<bytes>)
    ensures Ordered(x, rest) && (forall e :: e in rest ==> !Before(x, e, d)) ==> Ordered(x, [d] + rest)
  {
    hide Before;
    if Ordered(x, rest) && forall e :: e in rest ==> !Before(x, e, d) {
      var all := [d] + rest;
      forall i, j | 0 <= i < j < |all| ensures !Before(x, all[j], all[i]) {
        assert all[j] == rest[j - 1] && all[j] in rest;
        assert i > 0 ==> all[i] == rest[i - 1];
      }
    }
  }

  lemma {:induction false} WithoutOrdered(x: X509, ds: seq<bytes>, d: bytes)
    requires Ordered(x, ds) && NoRepeats(ds)
    ensures Ordered(x, Without(ds, d)) && NoRepeats(Without(ds, d))
    ensures forall e :: e in Without(ds, d) <==> e in ds && e != d
    ensures |Without(ds, d)| == |ds| - if d in ds then 1 else 0
  {
    hide Ordered, NoRepeats;
    if ds == [] {
      NoneOrdered(x);
    } else {
      OrderedParts(x, ds);
      FirstStandsAlone(ds);
      WithoutOrdered(x, ds[1..], d);
      OrderedCons(x, ds[0], Without(ds[1..], d));
      RepeatsCons(ds[0], Without(ds[1..], d));
      assert [] + Without(ds[1..], d) == Without(ds[1..], d);
    }
  }

  lemma RepeatsCons(d: bytes, rest: seq<bytes>)
    ensures NoRepeats(rest) && d !in rest ==> NoRepeats([d] + rest)
    ensures NoRepeats([])
  {
    var all := [d] + rest;
    assert forall i :: 0 < i < |all| ==> all[i] == rest[i - 1];
  }

  /** What a trust set's finding lists. */
  lemma ListedAre(x: X509, input: CrossCheckInput, set_: TrustSet, f: Finding)
    requires AllParse(x, input.publicRootPems) && SaidOf(x, input, set_, f) && f.MissingRoot?
    ensures ListFits(x, MissingFrom(x, input, set_),
                     if f.correlation.Some? then Some(f.correlation.value.matched) else None, f.listed)
  {
    hide LocallyAdded, NotIn, Correlate, CoverageOf, Evidence, DerSet, AllParse, ListFits;
    var publicIndex := IndexOf(x, input.publicRootPems).value;
    var local := LocallyAdded(x, input.osStores, publicIndex);
    var index := IndexOf(x, set_.pems).value;
    var missing := NotIn(index, local);
    LocallyAddedAre(x, input, publicIndex);
    LocallyAddedInOrder(x, input.osStores, publicIndex);
    OrderedWhole(x, local);
    NotInIs(x, set_.pems, index, local);
    NotInOrdered(x, index, local);
    assert Elements(missing) == MissingFrom(x, input, set_);
    CorrelateFinds(x, missing, input.observedAnchors);
    FirstFewFit(x, missing, f.correlation);
  }

  lemma FirstFewFit(x: X509, missing: seq<bytes>, correlation: Option<Correlation>)
    requires NoRepeats(missing) && Ordered(x, missing) && (correlation.Some? ==> correlation.value.matched in missing)
    ensures ListFits(x, Elements(missing), if correlation.Some? then Some(correlation.value.matched) else None,
                     FirstFew(CrossCheck.Ordered(missing, correlation)))
  {
    CountOfElements(missing);
    if correlation.None? {
      PrefixFits(x, missing, missing, 5);
    } else {
      var d := correlation.value.matched;
      var others := Without(missing, d);
      WithoutOrdered(x, missing, d);
      PrefixFits(x, missing, others, 4);
      TiedFirst(d, others, FirstFew(CrossCheck.Ordered(missing, correlation)));
    }
  }

  /** The first `n` of an ordered list without repeats. */
  lemma PrefixFits(x: X509, missing: seq<bytes>, ds: seq<bytes>, n: nat)
    requires NoRepeats(ds) && Ordered(x, ds) && forall d :: d in ds ==> d in missing
    ensures var few := if |ds| <= n then ds else ds[..n];
      && NoRepeats(few) && Ordered(x, few) && (forall d :: d in few ==> d in missing)
      && forall d, e :: d in ds && d !in few && e in few ==> !Before(x, d, e)
  {
    hide Before;
    var few := if |ds| <= n then ds else ds[..n];
    assert forall i :: 0 <= i < |few| ==> few[i] == ds[i];
    forall d, e | d in ds && d !in few && e in few ensures !Before(x, d, e) {
      var i :| 0 <= i < |ds| && ds[i] == d;
      var j :| 0 <= j < |few| && few[j] == e;
      assert i >= |few|;
    }
  }

  lemma TiedFirst(d: bytes, others: seq<bytes>, listed: seq<bytes>)
    requires d !in others && NoRepeats(others) && listed == FirstFew([d] + others)
    ensures listed[1..] == (if |others| <= 4 then others else others[..4]) && listed == [d] + listed[1..]
    ensures NoRepeats(listed)
  {
    RepeatsCons(d, others);
  }
}
