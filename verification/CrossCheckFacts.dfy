/** What the report says besides verdicts, and the order it says things in. */
module CrossCheckFacts {
  import opened Wrappers
  import opened Bits
  import Text
  import opened RootIndex
  import opened StoreTypes
  import opened CrossCheck
  import opened CrossCheckLaws

  // ---- order ----

  /** No anchor comes before one whose canonical subject sorts ahead of its own. */
  ghost predicate InOrder(x: X509, ds: seq<bytes>) {
    |ds| < 2 || (!Before(x, ds[1], ds[0]) && InOrder(x, ds[1..]))
  }

  lemma {:induction false} InsertInOrder(x: X509, d: bytes, sorted: seq<bytes>)
    requires InOrder(x, sorted)
    ensures InOrder(x, Insert(x, d, sorted))
    ensures Insert(x, d, sorted) != [] && Insert(x, d, sorted)[0] == if sorted != [] && Before(x, sorted[0], d) then sorted[0] else d
  {
    hide Before;
    if sorted != [] && Before(x, sorted[0], d) {
      InsertInOrder(x, d, sorted[1..]);
      BeforeAsymmetric(x, sorted[0], d);
      var rest := Insert(x, d, sorted[1..]);
      assert ([sorted[0]] + rest)[1..] == rest;
    } else {
      assert ([d] + sorted)[1..] == sorted;
    }
  }

  lemma BeforeAsymmetric(x: X509, a: bytes, b: bytes)
    requires Before(x, a, b)
    ensures !Before(x, b, a)
  {
    Text.TextLessAsymmetric(x.names(a).canonicalSubject, x.names(b).canonicalSubject);
  }

  /** The locally added anchors are in the order of their canonical subjects. */
  lemma LocallyAddedInOrder(x: X509, stores: seq<OsStore>, publicIndex: CertificateIndex)
    ensures InOrder(x, LocallyAdded(x, stores, publicIndex))
  {
    SortedInOrder(x, NotIn(publicIndex, AllAnchors(x, stores)));
  }

  lemma {:induction false} SortedInOrder(x: X509, ds: seq<bytes>)
    ensures InOrder(x, Sorted(x, ds))
  {
    if ds != [] {
      SortedInOrder(x, ds[1..]);
      InsertInOrder(x, ds[0], Sorted(x, ds[1..]));
    }
  }

  // ---- the stores ----

  /** How many of the texts do not parse. */
  function Unparsable(x: X509, pems: seq<string>): nat {
    if pems == [] then 0 else Unparsable(x, pems[..|pems| - 1]) + if x.derOf(pems[|pems| - 1]).None? then 1 else 0
  }

  lemma {:induction false} AnchorsCounted(x: X509, pems: seq<string>)
    ensures NoRepeats(AnchorsOf(x, pems).anchors) && AnchorsOf(x, pems).unparsed == Unparsable(x, pems)
  {
    if pems != [] {
      AnchorsCounted(x, pems[..|pems| - 1]);
    }
  }

  lemma {:induction false} CountInIs(ds: seq<bytes>, keys: set<bytes>)
    requires NoRepeats(ds)
    ensures CountIn(ds, keys) == |Elements(ds) * keys|
  {
    hide NoRepeats, Elements;
    if ds != [] {
      FirstStandsAlone(ds);
      CountInIs(ds[1..], keys);
      OneMoreIn(Elements(ds[1..]), ds[0], keys);
    }
  }

  lemma FirstStandsAlone(ds: seq<bytes>)
    requires NoRepeats(ds) && ds != []
    ensures NoRepeats(ds[1..]) && ds[0] !in ds[1..] && Elements(ds) == Elements(ds[1..]) + {ds[0]}
  {
    var rest := ds[1..];
    assert ds == [ds[0]] + rest;
    assert forall i :: 0 <= i < |rest| ==> rest[i] == ds[i + 1];
  }

  lemma OneMoreIn(s: set<bytes>, d: bytes, keys: set<bytes>)
    requires d !in s
    ensures |(s + {d}) * keys| == |s * keys| + if d in keys then 1 else 0
  {
    assert (s + {d}) * keys == s * keys + if d in keys then {d} else {};
  }

  lemma {:induction false} StoresSay(x: X509, stores: seq<OsStore>, local: set<bytes>, commands: seq<Command>, s: OsStore)
    requires s in stores
    ensures forall f :: f in OsFindingsOf(x, s, local, commands) ==> f in OsStoreFindings(x, stores, local, commands)
  {
    hide OsFindingsOf;
    if stores[0] != s {
      StoresSay(x, stores[1..], local, commands, s);
    }
  }

  /** What is said of a store is in the report, whatever else is. */
  lemma StoreFindingsReported(x: X509, input: CrossCheckInput, s: OsStore)
    requires Verdict(x, input).Ok? && s in input.osStores
    ensures forall f :: f in OsFindingsOf(x, s, Added(x, input), input.osCommands) ==> f in Verdict(x, input).value
  {
    hide OsFindingsOf, OsStoreFindings, AllRuntimes, LocallyAdded, Evidence, DerSet;
    var index := IndexOf(x, input.publicRootPems).value;
    LocallyAddedAre(x, input, index);
    StoresSay(x, input.osStores, Added(x, input), input.osCommands, s);
  }

  /**
   * A store that was read is reported with the number of its anchors, the number of those that are
   * not public, and the number of its blocks that did not parse.
   */
  lemma StoreCountsAreItsOwn(x: X509, input: CrossCheckInput, s: OsStore)
    requires Verdict(x, input).Ok? && s in input.osStores && s.failure.None?
    ensures OsRead(s.kind, |DerSet(x, s.pems)|, |DerSet(x, s.pems) - DerSet(x, input.publicRootPems)|, Unparsable(x, s.pems))
         in Verdict(x, input).value
  {
    hide Verdict, AnchorsOf, DerSet, Unparsable, CountIn;
    StoreFindingsReported(x, input, s);
    var parsed := AnchorsOf(x, s.pems);
    AnchorsCounted(x, s.pems);
    AnchorsAre(x, s.pems);
    CountOfElements(parsed.anchors);
    CountInIs(parsed.anchors, Added(x, input));
    assert Elements(parsed.anchors) == DerSet(x, s.pems);
    OwnShare(x, input, s);
    assert OsFindingsOf(x, s, Added(x, input), input.osCommands)[0] in OsFindingsOf(x, s, Added(x, input), input.osCommands);
  }

  lemma OwnShare(x: X509, input: CrossCheckInput, s: OsStore)
    requires s in input.osStores && s.failure.None?
    ensures DerSet(x, s.pems) * Added(x, input) == DerSet(x, s.pems) - DerSet(x, input.publicRootPems)
  {
    hide Evidence, DerSet;
    forall d | d in DerSet(x, s.pems) ensures d in Evidence(x, input.osStores) {
      assert d in HeldBy(x, s);
      InEvidence(x, input.osStores, d);
    }
  }

  // ---- the runtimes ----

  lemma {:induction false} OutcomesSay(runtime: Runtime, outcomes: seq<RuntimeStore>, o: RuntimeStore)
    requires o in outcomes
    ensures forall f :: f in OutcomeFindings(runtime, o) ==> f in OutcomesFindings(runtime, outcomes)
  {
    hide OutcomeFindings;
    if outcomes[0] != o {
      OutcomesSay(runtime, outcomes[1..], o);
    }
  }

  lemma {:induction false} OutcomeIsOwn(stores: seq<RuntimeStore>, runtime: Runtime, o: RuntimeStore)
    requires o in stores && o.runtime == runtime
    ensures o in OutcomesOf(stores, runtime)
  {
    if stores[0] != o {
      OutcomeIsOwn(stores[1..], runtime, o);
    }
  }

  lemma {:induction false} RuntimesReported(
    x: X509, input: CrossCheckInput, runtimes: seq<Runtime>, local: seq<bytes>, coverage: Coverage, runtime: Runtime, o: RuntimeStore)
    requires runtime in runtimes && o in Outcomes(input, runtime)
    requires AllRuntimes(x, input, runtimes, local, coverage).Ok?
    ensures forall f :: f in OutcomeFindings(runtime, o) ==> f in AllRuntimes(x, input, runtimes, local, coverage).value
  {
    hide OutcomeFindings, OutcomesFindings, TrustSets, SetsFindings, OutcomesOf;
    if runtimes[0] == runtime {
      OutcomesSay(runtime, Outcomes(input, runtime), o);
    } else {
      RuntimesReported(x, input, runtimes[1..], local, coverage, runtime, o);
    }
  }

  /**
   * What a runtime's own stores say by themselves (a variable that names an unreadable store, a
   * keystore read in part) is reported whether or not any operating-system store was read.
   */
  lemma FactsAreAlwaysReported(x: X509, input: CrossCheckInput, runtime: Runtime, o: RuntimeStore)
    requires Verdict(x, input).Ok? && runtime in input.runtimes
    requires o in input.runtimeStores && o.runtime == runtime
    ensures IsEnvKind(o.kind) && o.failure.Some? && o.failure != Some(NotConfigured) ==>
      ExtraCaUnreadable(runtime, o.kind, o.failure.value) in Verdict(x, input).value
    ensures IsEnvKind(o.kind) && o.failure.None? ==> ExtraCaConfigured(runtime, o.kind, |o.pems|) in Verdict(x, input).value
    ensures o.kind == JavaCacerts && o.failure.None? && o.partial ==> JavaStoreUnreadable(true, None) in Verdict(x, input).value
    ensures o.kind == JavaCacerts && o.failure.Some? && o.failure != Some(NotFound) ==>
      JavaStoreUnreadable(false, o.failure) in Verdict(x, input).value
  {
    hide AllRuntimes, LocallyAdded, OsFindings, OutcomesOf;
    OutcomeIsOwn(input.runtimeStores, runtime, o);
    var local := LocallyAdded(x, input.osStores, IndexOf(x, input.publicRootPems).value);
    var coverage := CoverageOf(x, input.osStores);
    RuntimesReported(x, input, input.runtimes, local, coverage, runtime, o);
    var said := OutcomeFindings(runtime, o);
    assert forall f :: f in said ==> f in Verdict(x, input).value;
    assert said != [] ==> said[0] in said && said[|said| - 1] in said;
  }

  // ---- the findings named after one trust set ----

  lemma {:induction false} SetsFromShape(runtime: Runtime, bases: seq<RuntimeStore>, added: seq<string>, partial: bool)
    ensures var sets := SetsFrom(runtime, bases, added, partial);
      |sets| == |bases| && forall i :: 0 <= i < |bases| ==>
        sets[i] == TrustSet(runtime, bases[i].locator, bases[i].pems + added, bases[i].partial || partial)
  {
    if bases != [] {
      SetsFromShape(runtime, bases[1..], added, partial);
    }
  }

  lemma SetsKnowTheirRuntime(runtime: Runtime, outcomes: seq<RuntimeStore>, set_: TrustSet)
    requires set_ in TrustSets(runtime, outcomes)
    ensures set_.runtime == runtime
  {
    hide Readable, SetsFrom;
    var adds := Readable(outcomes, AddsTo);
    var bases := if Readable(outcomes, Replaces) != [] then Readable(outcomes, Replaces) else Readable(outcomes, Standalone);
    SetsFromShape(runtime, bases, PemsOfAll(adds), AnyPartial(adds));
  }

  /** The verdict is the one that carries the trust set's runtime and locator. */
  ghost predicate NamedAfter(f: Finding, set_: TrustSet) {
    IsVerdict(f) && f.runtime == set_.runtime && f.locator == set_.locator
  }

  /** No other trust set of the runtime has this one's locator. */
  ghost predicate OnlyOfItsName(input: CrossCheckInput, set_: TrustSet) {
    forall s :: s in TrustSets(set_.runtime, Outcomes(input, set_.runtime)) && s.locator == set_.locator ==> s == set_
  }

  /**
   * What the report says under the name of a judged trust set: that its roots are all present
   * exactly when it was read in full and lacks none; that roots are missing exactly when it lacks
   * some, how many, and at blocker only when it was read in full.
   */
  lemma VerdictNamed(x: X509, input: CrossCheckInput, set_: TrustSet)
    requires Verdict(x, input).Ok? && Judged(input, set_.runtime, set_) && OnlyOfItsName(input, set_)
    ensures (exists f :: f in Verdict(x, input).value && NamedAfter(f, set_) && f.RootsPresent?) <==>
      MissingFrom(x, input, set_) == {} && !set_.partial
    ensures (exists f :: f in Verdict(x, input).value && NamedAfter(f, set_) && f.MissingRoot?) <==>
      MissingFrom(x, input, set_) != {}
    ensures forall f :: f in Verdict(x, input).value && NamedAfter(f, set_) && f.MissingRoot? ==>
      && f.missing == |MissingFrom(x, input, set_)|
      && (f.severity == Blocker <==> Tied(x, MissingFrom(x, input, set_), input.observedAnchors) && !set_.partial)
  {
    hide TrustSets, Verdict, Evidence, DerSet, Outcomes, SetFindings, MissingFrom, LocallyAdded, CoverageOf, AllParse, Tied;
    ThrowsExactlyWhen(x, input);
    SaidAlone(x, input, set_);
    var publicIndex := IndexOf(x, input.publicRootPems).value;
    LocallyAddedAre(x, input, publicIndex);
    SetVerdict(x, input, LocallyAdded(x, input.osStores, publicIndex), set_, CoverageOf(x, input.osStores));
    var local := LocallyAdded(x, input.osStores, publicIndex);
    var said := SetFindings(x, set_, local, input.observedAnchors, CoverageOf(x, input.osStores));
    assert said.Ok?;
    if said.value != [] {
      assert SaidOf(x, input, set_, said.value[0]);
    }
  }

  /** The verdicts named after a trust set are the ones said of it. */
  lemma SaidAlone(x: X509, input: CrossCheckInput, set_: TrustSet)
    requires Verdict(x, input).Ok? && Judged(input, set_.runtime, set_) && OnlyOfItsName(input, set_)
    requires AllParse(x, input.publicRootPems)
    ensures forall f :: f in Verdict(x, input).value && NamedAfter(f, set_) <==> SaidOf(x, input, set_, f)
  {
    hide TrustSets, Verdict, Evidence, DerSet, Outcomes, SaidOf, AllParse, HasVerifier;
    VerdictsAreSaid(x, input);
    forall f | f in Verdict(x, input).value && NamedAfter(f, set_) ensures SaidOf(x, input, set_, f) {
      var runtime, s :| Judged(input, runtime, s) && SaidOf(x, input, s, f);
      SaidUnderItsName(x, input, runtime, s, f);
      assert s == set_;
    }
    forall f | SaidOf(x, input, set_, f) ensures NamedAfter(f, set_) {
      SaidUnderItsName(x, input, set_.runtime, set_, f);
    }
  }

  lemma SaidUnderItsName(x: X509, input: CrossCheckInput, runtime: Runtime, set_: TrustSet, f: Finding)
    requires AllParse(x, input.publicRootPems)
    requires Judged(input, runtime, set_) && SaidOf(x, input, set_, f)
    ensures NamedAfter(f, set_) && set_.runtime == runtime
  {
    hide TrustSets, Evidence, DerSet, Outcomes, SetFindings, MissingFrom;
    var publicIndex := IndexOf(x, input.publicRootPems).value;
    LocallyAddedAre(x, input, publicIndex);
    SetVerdict(x, input, LocallyAdded(x, input.osStores, publicIndex), set_, CoverageOf(x, input.osStores));
    SetsKnowTheirRuntime(runtime, Outcomes(input, runtime), set_);
  }
}
