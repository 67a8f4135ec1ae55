/** What the cross-check's verdicts mean, and what they depend on. */
module CrossCheckLaws {
  import opened Wrappers
  import opened Bits
  import opened RootIndex
  import opened StoreTypes
  import opened CrossCheck

  // ---- the evidence ----

  /** The anchors this machine is known to trust: those of every store that was read. */
  function Evidence(x: X509, stores: seq<OsStore>): set<bytes> {
    if stores == [] then {}
    else Evidence(x, stores[..|stores| - 1]) + HeldBy(x, stores[|stores| - 1])
  }

  function HeldBy(x: X509, store: OsStore): set<bytes> {
    if store.failure.Some? then {} else DerSet(x, store.pems)
  }

  /** The anchors the machine adds to the public list. */
  function Added(x: X509, input: CrossCheckInput): set<bytes> {
    Evidence(x, input.osStores) - DerSet(x, input.publicRootPems)
  }

  /** The added anchors a trust set lacks. */
  function MissingFrom(x: X509, input: CrossCheckInput, set_: TrustSet): set<bytes> {
    Added(x, input) - DerSet(x, set_.pems)
  }

  ghost predicate NoRepeats(ds: seq<bytes>) {
    forall i, j :: 0 <= i < j < |ds| ==> ds[i] != ds[j]
  }

  lemma {:induction false} AnchorsAre(x: X509, pems: seq<string>)
    ensures forall d: bytes :: d in AnchorsOf(x, pems).anchors <==> d in DerSet(x, pems)
  {
    if pems != [] {
      AnchorsAre(x, pems[..|pems| - 1]);
    }
  }

  lemma {:induction false} MergeIs(all: seq<bytes>, anchors: seq<bytes>)
    requires NoRepeats(all)
    ensures NoRepeats(Merge(all, anchors))
    ensures forall d: bytes :: d in Merge(all, anchors) <==> d in all || d in anchors
  {
    if anchors != [] {
      var init, last := anchors[..|anchors| - 1], anchors[|anchors| - 1];
      assert anchors == init + [last];
      MergeIs(all, init);
    }
  }

  lemma {:induction false} AllAnchorsAre(x: X509, stores: seq<OsStore>)
    ensures NoRepeats(AllAnchors(x, stores))
    ensures forall d: bytes :: d in AllAnchors(x, stores) <==> d in Evidence(x, stores)
  {
    if stores != [] {
      var init, last := stores[..|stores| - 1], stores[|stores| - 1];
      AllAnchorsAre(x, init);
      AnchorsAre(x, last.pems);
      MergeIs(AllAnchors(x, init), AnchorsOf(x, last.pems).anchors);
    }
  }

  lemma {:induction false} InEvidence(x: X509, stores: seq<OsStore>, d: bytes)
    ensures d in Evidence(x, stores) <==> exists s :: s in stores && d in HeldBy(x, s)
  {
    if stores != [] {
      var init, last := stores[..|stores| - 1], stores[|stores| - 1];
      assert stores == init + [last];
      InEvidence(x, init, d);
      assert forall s :: s in stores <==> s in init || s == last;
    }
  }

  lemma {:induction false} NotInIs(x: X509, pems: seq<string>, index: CertificateIndex, ds: seq<bytes>)
    requires IndexOf(x, pems) == Ok(index) && NoRepeats(ds)
    ensures NoRepeats(NotIn(index, ds))
    ensures forall d :: d in NotIn(index, ds) <==> d in ds && d !in DerSet(x, pems)
  {
    if ds != [] {
      NotInIs(x, pems, index, ds[1..]);
      InKeySet(x, pems, ds[0]);
      assert ds[0] !in ds[1..];
    }
  }

  /** Sorting keeps every anchor, once. */
  lemma {:induction false} SortedIs(x: X509, ds: seq<bytes>)
    ensures multiset(Sorted(x, ds)) == multiset(ds)
    ensures forall d :: d in Sorted(x, ds) <==> d in ds
  {
    hide Insert;
    if ds != [] {
      SortedIs(x, ds[1..]);
      InsertIs(x, ds[0], Sorted(x, ds[1..]));
      assert ds == [ds[0]] + ds[1..];
    }
    SameElements(Sorted(x, ds), ds);
  }

  lemma SameElements(a: seq<bytes>, b: seq<bytes>)
    requires multiset(a) == multiset(b)
    ensures forall d :: d in a <==> d in b
  {
    assert forall d :: d in a <==> d in multiset(a);
    assert forall d :: d in b <==> d in multiset(b);
  }

  lemma {:induction false} InsertIs(x: X509, d: bytes, sorted: seq<bytes>)
    ensures multiset(Insert(x, d, sorted)) == multiset(sorted) + multiset{d}
  {
    if sorted != [] && Before(x, sorted[0], d) {
      var rest := sorted[1..];
      InsertIs(x, d, rest);
      assert sorted == [sorted[0]] + rest;
      assert Insert(x, d, sorted) == [sorted[0]] + Insert(x, d, rest);
    } else {
      assert Insert(x, d, sorted) == [d] + sorted;
    }
  }

  lemma {:induction false} RepeatsByCount(ds: seq<bytes>)
    ensures NoRepeats(ds) <==> forall d :: multiset(ds)[d] <= 1
  {
    if ds != [] {
      var init, last := ds[..|ds| - 1], ds[|ds| - 1];
      assert ds == init + [last];
      RepeatsByCount(init);
      assert forall d :: multiset(ds)[d] == multiset(init)[d] + if d == last then 1 else 0;
      assert last in init <==> multiset(init)[last] >= 1;
      RepeatsOfLast(init, last);
    }
  }

  lemma RepeatsOfLast(init: seq<bytes>, last: bytes)
    ensures NoRepeats(init + [last]) <==> NoRepeats(init) && last !in init
  {
    var ds := init + [last];
    if NoRepeats(ds) {
      forall i, j | 0 <= i < j < |init| ensures init[i] != init[j] {
        assert ds[i] != ds[j];
      }
      forall i | 0 <= i < |init| ensures init[i] != last {
        assert ds[i] != ds[|init|];
      }
    }
  }

  /** The locally added list is the machine's anchors that are not public, each once. */
  lemma LocallyAddedAre(x: X509, input: CrossCheckInput, publicIndex: CertificateIndex)
    requires IndexOf(x, input.publicRootPems) == Ok(publicIndex)
    ensures var local := LocallyAdded(x, input.osStores, publicIndex);
      NoRepeats(local) && Elements(local) == Added(x, input)
  {
    hide AllAnchors, Evidence, NotIn, Sorted, NoRepeats, DerSet;
    var all := AllAnchors(x, input.osStores);
    AllAnchorsAre(x, input.osStores);
    NotInIs(x, input.publicRootPems, publicIndex, all);
    var kept := NotIn(publicIndex, all);
    SortedIs(x, kept);
    RepeatsByCount(kept);
    RepeatsByCount(Sorted(x, kept));
  }

  /** A list without repeats is as long as its set of elements is large. */
  lemma {:induction false} CountOfElements(ds: seq<bytes>)
    requires NoRepeats(ds)
    ensures |Elements(ds)| == |ds|
  {
    if ds != [] {
      var init, last := ds[..|ds| - 1], ds[|ds| - 1];
      assert ds == init + [last];
      CountOfElements(init);
      assert Elements(ds) == Elements(init) + {last};
      assert last !in init;
    }
  }

  // ---- correlation ----

  /** One observed anchor ties a missing one: by its bytes, or by a private issuer name. */
  ghost predicate Ties(x: X509, o: ObservedAnchor, how: Match, d: bytes) {
    match how
    case ByBytes => o.der == Some(d)
    case ByIssuerName => o.anchorClass == PrivateAnchor && o.canonicalIssuer == x.names(d).canonicalSubject
  }

  ghost predicate Tied(x: X509, missing: set<bytes>, observed: seq<ObservedAnchor>) {
    exists o, how, d :: o in observed && d in missing && Ties(x, o, how, d)
  }

  /**
   * A correlation is found exactly when some observed anchor ties some missing one, and a tie by
   * bytes is never passed over for one by name.
   */
  lemma CorrelateFinds(x: X509, missing: seq<bytes>, observed: seq<ObservedAnchor>)
    ensures Correlate(x, missing, observed).Some? <==> Tied(x, Elements(missing), observed)
    ensures Correlate(x, missing, observed).Some? ==> var c := Correlate(x, missing, observed).value;
      c.anchor in observed && c.matched in missing && Ties(x, c.anchor, c.how, c.matched)
    ensures (exists o :: o in observed && o.der.Some? && o.der.value in missing) ==>
      Correlate(x, missing, observed).Some? && Correlate(x, missing, observed).value.how == ByBytes
  {
    ByBytesFinds(x, missing, observed);
    ByNameFinds(x, missing, observed);
    if o :| o in observed && o.der.Some? && o.der.value in missing {
      assert Ties(x, o, ByBytes, o.der.value);
    }
    if Tied(x, Elements(missing), observed) {
      var o, how, d :| o in observed && d in Elements(missing) && Ties(x, o, how, d);
      assert how == ByBytes || how == ByIssuerName;
    }
  }

  lemma {:induction false} ByBytesFinds(x: X509, missing: seq<bytes>, observed: seq<ObservedAnchor>)
    ensures var r := FirstByBytes(missing, observed);
      && (r.None? ==> forall o, d :: o in observed && d in missing ==> !Ties(x, o, ByBytes, d))
      && (r.Some? ==> r.value.how == ByBytes && r.value.anchor in observed && r.value.matched in missing
                      && Ties(x, r.value.anchor, ByBytes, r.value.matched))
  {
    if observed != [] {
      ByBytesFinds(x, missing, observed[1..]);
    }
  }

  lemma {:induction false} LastWithSubjectFinds(x: X509, missing: seq<bytes>, subject: string)
    ensures var r := LastWithSubject(x, missing, subject);
      && (r.None? ==> forall d :: d in missing ==> x.names(d).canonicalSubject != subject)
      && (r.Some? ==> r.value in missing && x.names(r.value).canonicalSubject == subject)
  {
    if missing != [] {
      var init, last := missing[..|missing| - 1], missing[|missing| - 1];
      assert missing == init + [last];
      LastWithSubjectFinds(x, init, subject);
    }
  }

  lemma {:induction false} ByNameFinds(x: X509, missing: seq<bytes>, observed: seq<ObservedAnchor>)
    ensures var r := FirstByName(x, missing, observed);
      && (r.None? ==> forall o, d :: o in observed && d in missing ==> !Ties(x, o, ByIssuerName, d))
      && (r.Some? ==> r.value.how == ByIssuerName && r.value.anchor in observed && r.value.matched in missing
                      && Ties(x, r.value.anchor, ByIssuerName, r.value.matched))
  {
    if observed != [] {
      LastWithSubjectFinds(x, missing, observed[0].canonicalIssuer);
      ByNameFinds(x, missing, observed[1..]);
    }
  }

  /** The tied anchor is always among the ones listed. */
  lemma TiedIsListed(missing: seq<bytes>, correlation: Correlation)
    ensures correlation.matched in FirstFew(Ordered(missing, Some(correlation)))
  {
    assert Ordered(missing, Some(correlation))[0] == correlation.matched;
    assert FirstFew(Ordered(missing, Some(correlation)))[0] == correlation.matched;
  }

  // ---- one trust set ----

  /** What is said of one trust set: nothing, that it lacks roots, or that it has them all. */
  lemma SetVerdict(x: X509, input: CrossCheckInput, local: seq<bytes>, set_: TrustSet, coverage: Coverage)
    requires NoRepeats(local) && Elements(local) == Added(x, input)
    ensures var r := SetFindings(x, set_, local, input.observedAnchors, coverage);
      var missing := MissingFrom(x, input, set_);
      && (r.Ok? <==> AllParse(x, set_.pems))
      && (r.Ok? && missing == {} && set_.partial ==> r.value == [])
      && (r.Ok? && missing == {} && !set_.partial ==>
            r.value == [RootsPresent(set_.runtime, set_.locator, |set_.pems|, coverage)])
      && (r.Ok? && missing != {} ==>
            && |r.value| == 1 && r.value[0].MissingRoot?
            && r.value[0].runtime == set_.runtime && r.value[0].locator == set_.locator
            && r.value[0].partial == set_.partial && r.value[0].missing == |missing|
            && (r.value[0].correlation.Some? <==> Tied(x, missing, input.observedAnchors))
            && r.value[0].severity == (if Tied(x, missing, input.observedAnchors) && !set_.partial then Blocker else Degraded)
            && (r.value[0].correlation.Some? ==> var c := r.value[0].correlation.value;
                 c.anchor in input.observedAnchors && c.matched in missing && Ties(x, c.anchor, c.how, c.matched)
                 && c.matched in r.value[0].listed))
  {
    hide NotIn, Correlate, NoRepeats, AllParse, Tied, Ties, Evidence, DerSet, FirstFew, Ordered;
    if AllParse(x, set_.pems) {
      var index := IndexOf(x, set_.pems).value;
      var missing := NotIn(index, local);
      NotInIs(x, set_.pems, index, local);
      assert Elements(missing) == MissingFrom(x, input, set_);
      CountOfElements(missing);
      CorrelateFinds(x, missing, input.observedAnchors);
      var correlation := Correlate(x, missing, input.observedAnchors);
      if missing == [] {
        assert MissingFrom(x, input, set_) == {};
      } else {
        assert missing[0] in Elements(missing);
        if correlation.Some? {
          TiedIsListed(missing, correlation.value);
        }
      }
    }
  }

  // ---- from trust sets to the report ----

  function Outcomes(input: CrossCheckInput, runtime: Runtime): seq<RuntimeStore> {
    OutcomesOf(input.runtimeStores, runtime)
  }

  /** The trust set gets a verdict: its runtime is declared, does not ask the OS, and some OS store was read. */
  ghost predicate Judged(input: CrossCheckInput, runtime: Runtime, set_: TrustSet) {
    && runtime in input.runtimes
    && !HasVerifier(Outcomes(input, runtime))
    && set_ in TrustSets(runtime, Outcomes(input, runtime))
    && ReadCount(input.osStores) > 0
  }

  ghost predicate IsVerdict(f: Finding) {
    f.MissingRoot? || f.RootsPresent?
  }

  /** The finding is what the verdict on this trust set says. */
  ghost predicate SaidOf(x: X509, input: CrossCheckInput, set_: TrustSet, f: Finding)
    requires AllParse(x, input.publicRootPems)
  {
    var local := LocallyAdded(x, input.osStores, IndexOf(x, input.publicRootPems).value);
    var said := SetFindings(x, set_, local, input.observedAnchors, CoverageOf(x, input.osStores));
    said.Ok? && f in said.value
  }

  /**
   * The cross-check throws exactly when a public PEM does not parse, or a PEM of a judged trust
   * set does not.
   */
  lemma ThrowsExactlyWhen(x: X509, input: CrossCheckInput)
    ensures Verdict(x, input).Err? <==>
      !AllParse(x, input.publicRootPems)
      || exists runtime, set_ :: Judged(input, runtime, set_) && !AllParse(x, set_.pems)
  {
    hide TrustSets, HasVerifier, LocallyAdded, OsFindings, OutcomesOf;
    if AllParse(x, input.publicRootPems) {
      var local := LocallyAdded(x, input.osStores, IndexOf(x, input.publicRootPems).value);
      var coverage := CoverageOf(x, input.osStores);
      RuntimesThrow(x, input, input.runtimes, local, coverage);
    }
  }

  lemma {:induction false} SetsThrow(x: X509, sets: seq<TrustSet>, local: seq<bytes>, observed: seq<ObservedAnchor>, coverage: Coverage)
    ensures SetsFindings(x, sets, local, observed, coverage).Err? <==> exists s :: s in sets && !AllParse(x, s.pems)
  {
    if sets != [] {
      SetsThrow(x, sets[1..], local, observed, coverage);
    }
  }

  lemma {:induction false} RuntimesThrow(x: X509, input: CrossCheckInput, runtimes: seq<Runtime>, local: seq<bytes>, coverage: Coverage)
    requires coverage.level == NoEvidence <==> ReadCount(input.osStores) == 0
    requires forall r :: r in runtimes ==> r in input.runtimes
    ensures AllRuntimes(x, input, runtimes, local, coverage).Err? <==>
      exists runtime, set_ :: runtime in runtimes && Judged(input, runtime, set_) && !AllParse(x, set_.pems)
  {
    hide Judged, RuntimeFindings, OutcomesOf, AllParse;
    if runtimes != [] {
      RuntimeThrows(x, input, runtimes[0], local, coverage);
      RuntimesThrow(x, input, runtimes[1..], local, coverage);
      assert forall r :: r in runtimes <==> r == runtimes[0] || r in runtimes[1..];
    }
  }

  lemma RuntimeThrows(x: X509, input: CrossCheckInput, runtime: Runtime, local: seq<bytes>, coverage: Coverage)
    requires coverage.level == NoEvidence <==> ReadCount(input.osStores) == 0
    requires runtime in input.runtimes
    ensures RuntimeFindings(x, runtime, Outcomes(input, runtime), local, input.observedAnchors, coverage).Err? <==>
      exists set_ :: Judged(input, runtime, set_) && !AllParse(x, set_.pems)
  {
    hide TrustSets, HasVerifier, OutcomesOf, AllParse, SetsFindings;
    SetsThrow(x, TrustSets(runtime, Outcomes(input, runtime)), local, input.observedAnchors, coverage);
  }

  /** Every verdict in the report is said of some judged trust set, and every such verdict is in it. */
  lemma VerdictsAreSaid(x: X509, input: CrossCheckInput)
    requires Verdict(x, input).Ok?
    ensures forall f :: f in Verdict(x, input).value && IsVerdict(f) ==>
      exists runtime, set_ :: Judged(input, runtime, set_) && SaidOf(x, input, set_, f)
    ensures forall runtime, set_, f :: Judged(input, runtime, set_) && SaidOf(x, input, set_, f) ==>
      f in Verdict(x, input).value
  {
    hide TrustSets, HasVerifier, LocallyAdded, OsFindings, OutcomesOf, SetFindings, RuntimeFindings;
    var local := LocallyAdded(x, input.osStores, IndexOf(x, input.publicRootPems).value);
    var coverage := CoverageOf(x, input.osStores);
    RuntimesSay(x, input, input.runtimes, local, coverage);
    OsSaysNothing(x, input, input.osStores, Elements(local));
  }

  lemma {:induction false} OsSaysNothing(x: X509, input: CrossCheckInput, stores: seq<OsStore>, local: set<bytes>)
    ensures forall f :: f in OsStoreFindings(x, stores, local, input.osCommands) ==> !IsVerdict(f) && !f.Indeterminate?
    ensures stores == input.osStores ==> forall f :: f in OsFindings(x, input, local) ==> !IsVerdict(f) && !f.Indeterminate?
  {
    if stores != [] {
      OsSaysNothing(x, input, stores[1..], local);
    }
  }

  lemma {:induction false} FactsSayNothing(runtime: Runtime, outcomes: seq<RuntimeStore>)
    ensures forall f :: f in OutcomesFindings(runtime, outcomes) ==> !IsVerdict(f) && !f.Indeterminate?
  {
    if outcomes != [] {
      FactsSayNothing(runtime, outcomes[1..]);
    }
  }

  lemma {:induction false} SetsSay(x: X509, sets: seq<TrustSet>, local: seq<bytes>, observed: seq<ObservedAnchor>, coverage: Coverage)
    requires SetsFindings(x, sets, local, observed, coverage).Ok?
    ensures forall s :: s in sets ==> SetFindings(x, s, local, observed, coverage).Ok?
    ensures forall f :: f in SetsFindings(x, sets, local, observed, coverage).value <==>
      exists s :: s in sets && f in SetFindings(x, s, local, observed, coverage).value
  {
    hide SetFindings;
    if sets != [] {
      SetsSay(x, sets[1..], local, observed, coverage);
      assert forall s :: s in sets <==> s == sets[0] || s in sets[1..];
    }
  }

  lemma RuntimeSays(x: X509, input: CrossCheckInput, runtime: Runtime, local: seq<bytes>, coverage: Coverage)
    requires coverage.level == NoEvidence <==> ReadCount(input.osStores) == 0
    requires runtime in input.runtimes
    requires RuntimeFindings(x, runtime, Outcomes(input, runtime), local, input.observedAnchors, coverage).Ok?
    ensures var fs := RuntimeFindings(x, runtime, Outcomes(input, runtime), local, input.observedAnchors, coverage).value;
      && (forall f :: f in fs && IsVerdict(f) ==> exists s :: Judged(input, runtime, s) && SetSays(x, input, s, local, coverage, f))
      && (forall s, f :: Judged(input, runtime, s) && SetSays(x, input, s, local, coverage, f) ==> f in fs)
      && (forall f :: f in fs ==> !f.Indeterminate?)
  {
    hide TrustSets, HasVerifier, OutcomesOf, SetFindings;
    var outcomes := Outcomes(input, runtime);
    FactsSayNothing(runtime, outcomes);
    var facts := OutcomesFindings(runtime, outcomes);
    var sets := TrustSets(runtime, outcomes);
    var fs := RuntimeFindings(x, runtime, outcomes, local, input.observedAnchors, coverage).value;
    if HasVerifier(outcomes) {
      assert fs == facts + [AsksPlatform(runtime)];
    } else if sets == [] {
      assert fs == facts + if AnyLocated(outcomes) then [] else [StoreNotFound(runtime)];
    } else if coverage.level != NoEvidence {
      var said := SetsFindings(x, sets, local, input.observedAnchors, coverage).value;
      assert fs == facts + said;
      SetsSay(x, sets, local, input.observedAnchors, coverage);
      OnlyVerdicts(x, input, sets, local, coverage);
      forall f | f in said
        ensures IsVerdict(f) && exists s :: Judged(input, runtime, s) && SetSays(x, input, s, local, coverage, f)
      {
        var s :| s in sets && f in SetFindings(x, s, local, input.observedAnchors, coverage).value;
        assert Judged(input, runtime, s) && SetSays(x, input, s, local, coverage, f);
      }
    }
  }

  lemma OnlyVerdicts(x: X509, input: CrossCheckInput, sets: seq<TrustSet>, local: seq<bytes>, coverage: Coverage)
    ensures forall s, f :: s in sets && SetSays(x, input, s, local, coverage, f) ==> IsVerdict(f)
  {
  }

  ghost predicate SetSays(x: X509, input: CrossCheckInput, set_: TrustSet, local: seq<bytes>, coverage: Coverage, f: Finding) {
    var said := SetFindings(x, set_, local, input.observedAnchors, coverage);
    said.Ok? && f in said.value
  }

  lemma {:induction false} RuntimesSay(x: X509, input: CrossCheckInput, runtimes: seq<Runtime>, local: seq<bytes>, coverage: Coverage)
    requires coverage.level == NoEvidence <==> ReadCount(input.osStores) == 0
    requires forall r :: r in runtimes ==> r in input.runtimes
    requires AllRuntimes(x, input, runtimes, local, coverage).Ok?
    ensures var fs := AllRuntimes(x, input, runtimes, local, coverage).value;
      && (forall f :: f in fs && IsVerdict(f) ==>
            exists r, s :: Judged(input, r, s) && SetSays(x, input, s, local, coverage, f))
      && (forall r, s, f :: r in runtimes && Judged(input, r, s) && SetSays(x, input, s, local, coverage, f) ==> f in fs)
      && (forall f :: f in fs ==> !f.Indeterminate?)
  {
    hide SetSays, RuntimeFindings, Judged, OutcomesOf;
    if runtimes != [] {
      RuntimeSays(x, input, runtimes[0], local, coverage);
      RuntimesSay(x, input, runtimes[1..], local, coverage);
      assert forall r :: r in runtimes <==> r == runtimes[0] || r in runtimes[1..];
    }
  }

  // ---- blockers ----

  ghost predicate BlockerRestsOn(x: X509, input: CrossCheckInput, set_: TrustSet, f: Finding)
    requires f.MissingRoot?
  {
    && !set_.partial && f.runtime == set_.runtime && f.locator == set_.locator
    && f.correlation.Some?
    && var c := f.correlation.value;
      && c.matched in MissingFrom(x, input, set_) && c.matched in f.listed
      && c.anchor in input.observedAnchors && Ties(x, c.anchor, c.how, c.matched)
  }

  /** The set is lacking a root, and the report says so of it at blocker. */
  ghost predicate Blocks(x: X509, input: CrossCheckInput, set_: TrustSet, f: Finding)
    requires Verdict(x, input).Ok?
  {
    && f in Verdict(x, input).value && SaidOf(x, input, set_, f)
    && f.MissingRoot? && f.severity == Blocker && f.runtime == set_.runtime && f.locator == set_.locator
  }

  /** The set was read in full and holds, with the public list, every anchor the machine is known to trust. */
  ghost predicate CleanRestsOn(x: X509, input: CrossCheckInput, set_: TrustSet, f: Finding)
    requires f.RootsPresent?
  {
    && !set_.partial && f.runtime == set_.runtime && f.locator == set_.locator
    && Evidence(x, input.osStores) <= DerSet(x, input.publicRootPems) + DerSet(x, set_.pems)
  }

  /**
   * Soundness: every blocker is said of a judged trust set that was read in full, and rests on an
   * anchor the machine adds, the set lacks, and an observed anchor ties by its bytes or by a
   * private issuer name; that anchor is among the listed ones.
   */
  lemma BlockerIsSound(x: X509, input: CrossCheckInput, f: Finding)
    requires Verdict(x, input).Ok? && f in Verdict(x, input).value && f.MissingRoot? && f.severity == Blocker
    ensures exists runtime, set_ :: Judged(input, runtime, set_) && BlockerRestsOn(x, input, set_, f)
  {
    hide Verdict, Judged, Evidence, DerSet, LocallyAdded, CoverageOf, SetFindings, Tied, Ties;
    VerdictsAreSaid(x, input);
    ThrowsExactlyWhen(x, input);
    var runtime, set_ :| Judged(input, runtime, set_) && SaidOf(x, input, set_, f);
    var publicIndex := IndexOf(x, input.publicRootPems).value;
    LocallyAddedAre(x, input, publicIndex);
    SetVerdict(x, input, LocallyAdded(x, input.osStores, publicIndex), set_, CoverageOf(x, input.osStores));
  }

  /**
   * Completeness: when a read OS store holds a root that is not public, a judged trust set read in
   * full lacks it, and an observed anchor has its bytes, that set's finding is a blocker.
   */
  lemma BlockerIsComplete(x: X509, input: CrossCheckInput, runtime: Runtime, set_: TrustSet, o: ObservedAnchor, root: bytes)
    requires Verdict(x, input).Ok?
    requires Judged(input, runtime, set_) && !set_.partial
    requires root in MissingFrom(x, input, set_)
    requires o in input.observedAnchors && o.der == Some(root)
    ensures exists f :: Blocks(x, input, set_, f)
  {
    hide Verdict, Judged, Evidence, DerSet, LocallyAdded, CoverageOf, SetFindings;
    VerdictsAreSaid(x, input);
    ThrowsExactlyWhen(x, input);
    var publicIndex := IndexOf(x, input.publicRootPems).value;
    var local := LocallyAdded(x, input.osStores, publicIndex);
    LocallyAddedAre(x, input, publicIndex);
    SetVerdict(x, input, local, set_, CoverageOf(x, input.osStores));
    assert Ties(x, o, ByBytes, root);
    var f := SetFindings(x, set_, local, input.observedAnchors, CoverageOf(x, input.osStores)).value[0];
    assert Blocks(x, input, set_, f);
  }

  /** A clean verdict means every anchor the machine adds is in a trust set that was read in full. */
  lemma RootsPresentIsSound(x: X509, input: CrossCheckInput, f: Finding)
    requires Verdict(x, input).Ok? && f in Verdict(x, input).value && f.RootsPresent?
    ensures exists runtime, set_ :: Judged(input, runtime, set_) && CleanRestsOn(x, input, set_, f)
  {
    hide Verdict, Judged, Evidence, DerSet, LocallyAdded, CoverageOf, SetFindings;
    VerdictsAreSaid(x, input);
    ThrowsExactlyWhen(x, input);
    var runtime, set_ :| Judged(input, runtime, set_) && SaidOf(x, input, set_, f);
    var publicIndex := IndexOf(x, input.publicRootPems).value;
    LocallyAddedAre(x, input, publicIndex);
    SetVerdict(x, input, LocallyAdded(x, input.osStores, publicIndex), set_, CoverageOf(x, input.osStores));
    assert MissingFrom(x, input, set_) == {};
    forall d | d in Evidence(x, input.osStores) ensures d in DerSet(x, input.publicRootPems) + DerSet(x, set_.pems) {
      assert d !in MissingFrom(x, input, set_);
    }
    assert CleanRestsOn(x, input, set_, f);
  }

  /** With no OS store read there is no verdict at all, and the report says so exactly once. */
  lemma NoStoreNoVerdict(x: X509, input: CrossCheckInput)
    requires Verdict(x, input).Ok?
    ensures ReadCount(input.osStores) == 0 ==> forall f :: f in Verdict(x, input).value ==> !IsVerdict(f)
    ensures multiset(Verdict(x, input).value)[Indeterminate(|input.osStores|)]
         == if ReadCount(input.osStores) == 0 then 1 else 0
    ensures forall f :: f in Verdict(x, input).value && f.Indeterminate? ==> f == Indeterminate(|input.osStores|)
  {
    hide RuntimeFindings, OsFindings, LocallyAdded, OutcomesOf;
    VerdictsAreSaid(x, input);
    var local := LocallyAdded(x, input.osStores, IndexOf(x, input.publicRootPems).value);
    var coverage := CoverageOf(x, input.osStores);
    OsSaysNothing(x, input, input.osStores, Elements(local));
    RuntimesSay(x, input, input.runtimes, local, coverage);
    var before := OsFindings(x, input, Elements(local)) + AllRuntimes(x, input, input.runtimes, local, coverage).value;
    var last := Indeterminate(|input.osStores|);
    assert last !in before;
    assert multiset(before)[last] == 0;
  }
}
