/** What the cross-check's verdicts do not depend on, and how an added store moves them. */
module CrossCheckInvariance {
  import opened Wrappers
  import opened Bits
  import opened RootIndex
  import Text
  import opened StoreTypes
  import opened CrossCheck
  import opened CrossCheckLaws
  import opened CrossCheckFacts

  // ---- verdicts depend on the evidence alone ----

  /**
   * A verdict without the wording of its evidence: which set, how many roots it lacks, how bad that
   * is; and in full, when a missing root is said with everything that stands in its finding.
   */
  datatype Judgement = Judgement(
    runtime: Runtime, locator: Option<string>, lacks: nat, tied: bool, severity: Severity, finding: Option<Finding>)

  function JudgementOf(f: Finding, full: bool): seq<Judgement> {
    match f
    case MissingRoot(runtime, locator, missing, _, correlation, _, severity) =>
      [Judgement(runtime, locator, missing, correlation.Some?, severity, if full then Some(f) else None)]
    case RootsPresent(runtime, locator, _, _) => [Judgement(runtime, locator, 0, false, Okay, None)]
    case _ => []
  }

  /** The report's verdicts, in report order. */
  function Judgements(fs: seq<Finding>, full: bool): seq<Judgement> {
    if fs == [] then [] else JudgementOf(fs[0], full) + Judgements(fs[1..], full)
  }

  lemma {:induction false} JudgementsConcat(fs: seq<Finding>, gs: seq<Finding>, full: bool)
    ensures Judgements(fs + gs, full) == Judgements(fs, full) + Judgements(gs, full)
  {
    if fs == [] {
      assert fs + gs == gs;
    } else {
      assert (fs + gs)[1..] == fs[1..] + gs;
      JudgementsConcat(fs[1..], gs, full);
    }
  }

  lemma {:induction false} NoJudgements(fs: seq<Finding>, full: bool)
    requires forall f :: f in fs ==> !IsVerdict(f)
    ensures Judgements(fs, full) == []
  {
    if fs != [] {
      assert fs[0] in fs;
      NoJudgements(fs[1..], full);
    }
  }

  /** Both throw, or both report the same verdicts. */
  ghost predicate Agree(r: Result<seq<Finding>, Thrown>, s: Result<seq<Finding>, Thrown>, full: bool) {
    (r.Ok? <==> s.Ok?) && (r.Ok? ==> Judgements(r.value, full) == Judgements(s.value, full))
  }

  /** The two runs differ at most in how the operating system's stores were read. */
  ghost predicate SameButOs(a: CrossCheckInput, b: CrossCheckInput) {
    && a.runtimeStores == b.runtimeStores && a.runtimes == b.runtimes
    && a.publicRootPems == b.publicRootPems && a.observedAnchors == b.observedAnchors
  }

  // ---- the list of added anchors ----

  /** The locally added anchors in the order they are reported. */
  function ListOf(x: X509, input: CrossCheckInput): seq<bytes>
    requires AllParse(x, input.publicRootPems)
  {
    LocallyAdded(x, input.osStores, IndexOf(x, input.publicRootPems).value)
  }

  /** The head of a list in order comes before nothing that precedes it. */
  lemma {:induction false} HeadIsLeast(x: X509, ds: seq<bytes>)
    requires InOrder(x, ds) && ds != []
    ensures forall d :: d in ds ==> !Before(x, d, ds[0])
  {
    forall d | d in ds ensures !Before(x, d, ds[0]) {
      var subject := x.names(ds[0]).canonicalSubject;
      if d == ds[0] {
        Text.TextLessIrreflexive(subject);
      } else {
        assert d in ds[1..] by {
          assert ds == [ds[0]] + ds[1..];
        }
        HeadIsLeast(x, ds[1..]);
        Text.NotLessTransitive(subject, x.names(ds[1]).canonicalSubject, x.names(d).canonicalSubject);
      }
    }
  }

  /** With distinct subjects there is one list in order of the same anchors. */
  lemma {:induction false} OneListInOrder(x: X509, a: seq<bytes>, b: seq<bytes>)
    requires InOrder(x, a) && InOrder(x, b) && NoRepeats(a) && NoRepeats(b)
    requires Elements(a) == Elements(b) && DistinctSubjects(x, Elements(a))
    ensures a == b
    decreases |a|
  {
    CountOfElements(a);
    CountOfElements(b);
    if a != [] {
      assert a[0] in Elements(b) && a[0] in b;
      HeadIsLeast(x, a);
      HeadIsLeast(x, b);
      assert b[0] in Elements(a);
      Text.TextLessTotal(x.names(a[0]).canonicalSubject, x.names(b[0]).canonicalSubject);
      assert a[0] == b[0];
      TailOf(a);
      TailOf(b);
      OneListInOrder(x, a[1..], b[1..]);
      assert a == [a[0]] + a[1..] && b == [b[0]] + b[1..];
    }
  }

  lemma TailOf(ds: seq<bytes>)
    requires ds != [] && NoRepeats(ds)
    ensures NoRepeats(ds[1..]) && Elements(ds[1..]) == Elements(ds) - {ds[0]}
  {
    var rest := ds[1..];
    assert ds == [ds[0]] + rest;
    assert forall i :: 0 <= i < |rest| ==> rest[i] == ds[i + 1];
  }

  /** When no two added anchors share a subject, the evidence alone decides the list. */
  lemma ListIsDetermined(x: X509, a: CrossCheckInput, b: CrossCheckInput)
    requires AllParse(x, a.publicRootPems) && a.publicRootPems == b.publicRootPems
    requires Evidence(x, a.osStores) == Evidence(x, b.osStores) && DistinctSubjects(x, Added(x, a))
    ensures ListOf(x, a) == ListOf(x, b)
  {
    hide LocallyAdded, Evidence, DerSet, DistinctSubjects, InOrder;
    var index := IndexOf(x, a.publicRootPems).value;
    LocallyAddedAre(x, a, index);
    LocallyAddedAre(x, b, index);
    LocallyAddedInOrder(x, a.osStores, index);
    LocallyAddedInOrder(x, b.osStores, index);
    OneListInOrder(x, ListOf(x, a), ListOf(x, b));
  }

  /** No two of the certificates carry the same canonical subject. */
  ghost predicate DistinctSubjects(x: X509, ds: set<bytes>) {
    forall d, e :: d in ds && e in ds && d != e ==> x.names(d).canonicalSubject != x.names(e).canonicalSubject
  }

  /**
   * The verdicts are a function of the set of anchors that the read stores hold and of whether any
   * was read: not of how many stores hold them, in what order, how often, or what each is called.
   * When no two added anchors share a subject, so is every missing-root finding with all it lists.
   */
  lemma VerdictsDependOnEvidence(x: X509, a: CrossCheckInput, b: CrossCheckInput)
    requires SameButOs(a, b) && Evidence(x, a.osStores) == Evidence(x, b.osStores)
    requires ReadCount(a.osStores) == 0 <==> ReadCount(b.osStores) == 0
    ensures Agree(Verdict(x, a), Verdict(x, b), false)
    ensures DistinctSubjects(x, Added(x, a)) ==> Agree(Verdict(x, a), Verdict(x, b), true)
    ensures forall set_ :: MissingFrom(x, a, set_) == MissingFrom(x, b, set_)
  {
    hide Verdict, Agree, Evidence, DerSet, DistinctSubjects;
    VerdictsAgree(x, a, b, false);
    if DistinctSubjects(x, Added(x, a)) && AllParse(x, a.publicRootPems) {
      ListIsDetermined(x, a, b);
      VerdictsAgree(x, a, b, true);
    } else if !AllParse(x, a.publicRootPems) {
      VerdictsAgree(x, a, b, true);
    }
  }

  lemma VerdictsAgree(x: X509, a: CrossCheckInput, b: CrossCheckInput, full: bool)
    requires SameButOs(a, b) && Evidence(x, a.osStores) == Evidence(x, b.osStores)
    requires ReadCount(a.osStores) == 0 <==> ReadCount(b.osStores) == 0
    requires full && AllParse(x, a.publicRootPems) ==> ListOf(x, a) == ListOf(x, b)
    ensures Agree(Verdict(x, a), Verdict(x, b), full)
  {
    hide LocallyAdded, OsFindings, AllRuntimes, Judgements;
    if AllParse(x, a.publicRootPems) {
      var index := IndexOf(x, a.publicRootPems).value;
      var la, lb := ListOf(x, a), ListOf(x, b);
      var ca, cb := CoverageOf(x, a.osStores), CoverageOf(x, b.osStores);
      LocallyAddedAre(x, a, index);
      LocallyAddedAre(x, b, index);
      RuntimesAgree(x, a, b, a.runtimes, la, lb, ca, cb, full);
      OsSaysNothing(x, a, a.osStores, Elements(la));
      OsSaysNothing(x, b, b.osStores, Elements(lb));
      OnlyRuntimesJudge(x, a, la, ca, full);
      OnlyRuntimesJudge(x, b, lb, cb, full);
    }
  }

  lemma OnlyRuntimesJudge(x: X509, input: CrossCheckInput, local: seq<bytes>, coverage: Coverage, full: bool)
    requires AllParse(x, input.publicRootPems) && coverage == CoverageOf(x, input.osStores)
    requires local == LocallyAdded(x, input.osStores, IndexOf(x, input.publicRootPems).value)
    requires forall f :: f in OsFindings(x, input, Elements(local)) ==> !IsVerdict(f)
    ensures var r := AllRuntimes(x, input, input.runtimes, local, coverage);
      Agree(Verdict(x, input), r, full)
  {
    hide LocallyAdded, OsFindings, AllRuntimes, CoverageOf, Judgements;
    var r := AllRuntimes(x, input, input.runtimes, local, coverage);
    if r.Ok? {
      var os := OsFindings(x, input, Elements(local));
      var last := if coverage.level == NoEvidence then [Indeterminate(|input.osStores|)] else [];
      NoJudgements(os, full);
      NoJudgements(last, full);
      JudgementsConcat(os + r.value, last, full);
      JudgementsConcat(os, r.value, full);
    }
  }

  lemma {:induction false} RuntimesAgree(
    x: X509, a: CrossCheckInput, b: CrossCheckInput, runtimes: seq<Runtime>,
    la: seq<bytes>, lb: seq<bytes>, ca: Coverage, cb: Coverage, full: bool)
    requires SameButOs(a, b) && Added(x, a) == Added(x, b)
    requires NoRepeats(la) && NoRepeats(lb) && Elements(la) == Added(x, a) && Elements(lb) == Added(x, b)
    requires full ==> la == lb
    requires ca.level == NoEvidence <==> cb.level == NoEvidence
    ensures Agree(AllRuntimes(x, a, runtimes, la, ca), AllRuntimes(x, b, runtimes, lb, cb), full)
  {
    hide RuntimeFindings, OutcomesOf, Judgements;
    if runtimes != [] {
      var outcomes := OutcomesOf(a.runtimeStores, runtimes[0]);
      RuntimeAgrees(x, a, b, runtimes[0], outcomes, la, lb, ca, cb, full);
      RuntimesAgree(x, a, b, runtimes[1..], la, lb, ca, cb, full);
      var ra := RuntimeFindings(x, runtimes[0], outcomes, la, a.observedAnchors, ca);
      var rb := RuntimeFindings(x, runtimes[0], outcomes, lb, b.observedAnchors, cb);
      var ma, mb := AllRuntimes(x, a, runtimes[1..], la, ca), AllRuntimes(x, b, runtimes[1..], lb, cb);
      if ra.Ok? && ma.Ok? {
        JudgementsConcat(ra.value, ma.value, full);
        JudgementsConcat(rb.value, mb.value, full);
      }
    }
  }

  lemma RuntimeAgrees(
    x: X509, a: CrossCheckInput, b: CrossCheckInput, runtime: Runtime, outcomes: seq<RuntimeStore>,
    la: seq<bytes>, lb: seq<bytes>, ca: Coverage, cb: Coverage, full: bool)
    requires a.observedAnchors == b.observedAnchors && Added(x, a) == Added(x, b)
    requires NoRepeats(la) && NoRepeats(lb) && Elements(la) == Added(x, a) && Elements(lb) == Added(x, b)
    requires full ==> la == lb
    requires ca.level == NoEvidence <==> cb.level == NoEvidence
    ensures Agree(RuntimeFindings(x, runtime, outcomes, la, a.observedAnchors, ca),
                  RuntimeFindings(x, runtime, outcomes, lb, b.observedAnchors, cb), full)
  {
    hide TrustSets, HasVerifier, OutcomesFindings, Judgements;
    var facts := OutcomesFindings(runtime, outcomes);
    var sets := TrustSets(runtime, outcomes);
    SetsAgree(x, a, b, sets, la, lb, ca, cb, full);
    var ra := SetsFindings(x, sets, la, a.observedAnchors, ca);
    var rb := SetsFindings(x, sets, lb, b.observedAnchors, cb);
    if ra.Ok? {
      JudgementsConcat(facts, ra.value, full);
      JudgementsConcat(facts, rb.value, full);
    }
  }

  lemma {:induction false} SetsAgree(
    x: X509, a: CrossCheckInput, b: CrossCheckInput, sets: seq<TrustSet>,
    la: seq<bytes>, lb: seq<bytes>, ca: Coverage, cb: Coverage, full: bool)
    requires a.observedAnchors == b.observedAnchors && Added(x, a) == Added(x, b)
    requires NoRepeats(la) && NoRepeats(lb) && Elements(la) == Added(x, a) && Elements(lb) == Added(x, b)
    requires full ==> la == lb
    ensures Agree(SetsFindings(x, sets, la, a.observedAnchors, ca), SetsFindings(x, sets, lb, b.observedAnchors, cb), full)
  {
    hide SetFindings, Judgements;
    if sets != [] {
      SetAgrees(x, a, b, sets[0], la, lb, ca, cb, full);
      SetsAgree(x, a, b, sets[1..], la, lb, ca, cb, full);
      var ra := SetFindings(x, sets[0], la, a.observedAnchors, ca);
      var rb := SetFindings(x, sets[0], lb, b.observedAnchors, cb);
      var ma := SetsFindings(x, sets[1..], la, a.observedAnchors, ca);
      var mb := SetsFindings(x, sets[1..], lb, b.observedAnchors, cb);
      if ra.Ok? && ma.Ok? {
        JudgementsConcat(ra.value, ma.value, full);
        JudgementsConcat(rb.value, mb.value, full);
      }
    }
  }

  lemma SetAgrees(
    x: X509, a: CrossCheckInput, b: CrossCheckInput, set_: TrustSet,
    la: seq<bytes>, lb: seq<bytes>, ca: Coverage, cb: Coverage, full: bool)
    requires a.observedAnchors == b.observedAnchors && Added(x, a) == Added(x, b)
    requires NoRepeats(la) && NoRepeats(lb) && Elements(la) == Added(x, a) && Elements(lb) == Added(x, b)
    requires full ==> la == lb
    ensures Agree(SetFindings(x, set_, la, a.observedAnchors, ca), SetFindings(x, set_, lb, b.observedAnchors, cb), full)
  {
    hide SetFindings, Evidence, DerSet;
    if full {
      OnlyCoverageDiffers(x, set_, la, a.observedAnchors, ca, cb);
      return;
    }
    SetVerdict(x, a, la, set_, ca);
    SetVerdict(x, b, lb, set_, cb);
    var ra := SetFindings(x, set_, la, a.observedAnchors, ca);
    var rb := SetFindings(x, set_, lb, b.observedAnchors, cb);
    if ra.Ok? && |ra.value| == 1 {
      assert ra.value[1..] == [] && rb.value[1..] == [];
    }
  }

  lemma OnlyCoverageDiffers(
    x: X509, set_: TrustSet, local: seq<bytes>, observed: seq<ObservedAnchor>, ca: Coverage, cb: Coverage)
    ensures Agree(SetFindings(x, set_, local, observed, ca), SetFindings(x, set_, local, observed, cb), true)
  {
    hide NotIn, Correlate, MissingRootFinding, IndexOf;
    var ra, rb := SetFindings(x, set_, local, observed, ca), SetFindings(x, set_, local, observed, cb);
    if ra.Ok? && |ra.value| == 1 {
      assert ra.value[1..] == [] && rb.value[1..] == [];
    }
  }

  /** The two texts-lists hold the same texts, in whatever order and however often. */
  ghost predicate SamePems(p: seq<string>, q: seq<string>) {
    forall pem :: pem in p <==> pem in q
  }

  /** Every store read in `a` has one in `b` that holds the same PEMs up to order and repetition. */
  ghost predicate Covers(a: seq<OsStore>, b: seq<OsStore>) {
    forall s :: s in a && s.failure.None? ==> exists t :: t in b && t.failure.None? && SamePems(s.pems, t.pems)
  }

  /**
   * Permuting OS stores, or permuting or duplicating the PEMs inside one, keeps every verdict, and
   * every missing-root finding as it stands when no two added anchors share a subject.
   */
  lemma VerdictsIgnoreOrder(x: X509, a: CrossCheckInput, b: CrossCheckInput)
    requires SameButOs(a, b) && Covers(a.osStores, b.osStores) && Covers(b.osStores, a.osStores)
    ensures Agree(Verdict(x, a), Verdict(x, b), false)
    ensures DistinctSubjects(x, Added(x, a)) ==> Agree(Verdict(x, a), Verdict(x, b), true)
    ensures forall set_ :: MissingFrom(x, a, set_) == MissingFrom(x, b, set_)
  {
    hide Verdict, Evidence, DerSet, Agree, ReadCount, SamePems, DistinctSubjects;
    EvidenceCovered(x, a.osStores, b.osStores);
    EvidenceCovered(x, b.osStores, a.osStores);
    VerdictsDependOnEvidence(x, a, b);
  }

  lemma EvidenceCovered(x: X509, a: seq<OsStore>, b: seq<OsStore>)
    requires Covers(a, b)
    ensures Evidence(x, a) <= Evidence(x, b)
    ensures ReadCount(b) == 0 ==> ReadCount(a) == 0
  {
    hide SamePems;
    ReadCountBound(a);
    ReadCountBound(b);
    forall d | d in Evidence(x, a) ensures d in Evidence(x, b) {
      InEvidence(x, a, d);
      var s :| s in a && d in HeldBy(x, s);
      var t :| t in b && t.failure.None? && SamePems(s.pems, t.pems);
      SamePemsSameDers(x, s.pems, t.pems, d);
      assert d in HeldBy(x, t);
      InEvidence(x, b, d);
    }
  }

  lemma SamePemsSameDers(x: X509, p: seq<string>, q: seq<string>, d: bytes)
    requires SamePems(p, q)
    ensures d in DerSet(x, p) <==> d in DerSet(x, q)
  {
    InDerSet(x, p, d);
    InDerSet(x, q, d);
  }

  // ---- a runtime store that failed ----

  lemma {:induction false} OutcomesOfConcat(a: seq<RuntimeStore>, b: seq<RuntimeStore>, runtime: Runtime)
    ensures OutcomesOf(a + b, runtime) == OutcomesOf(a, runtime) + OutcomesOf(b, runtime)
  {
    if a == [] {
      assert a + b == b;
    } else {
      assert (a + b)[1..] == a[1..] + b && (a + b)[0] == a[0];
      OutcomesOfConcat(a[1..], b, runtime);
      Reassociate(if a[0].runtime == runtime then [a[0]] else [], OutcomesOf(a[1..], runtime), OutcomesOf(b, runtime));
    }
  }

  lemma Reassociate<T>(a: seq<T>, b: seq<T>, c: seq<T>)
    ensures a + b + c == a + (b + c)
  {
  }

  lemma {:induction false} ReadableConcat(a: seq<RuntimeStore>, b: seq<RuntimeStore>, combines: Combines)
    ensures Readable(a + b, combines) == Readable(a, combines) + Readable(b, combines)
  {
    if a == [] {
      assert a + b == b;
    } else {
      assert (a + b)[1..] == a[1..] + b;
      ReadableConcat(a[1..], b, combines);
    }
  }

  /** The input with one more runtime store, put after the first `at`. */
  function WithRuntimeStore(input: CrossCheckInput, at: nat, store: RuntimeStore): CrossCheckInput
    requires at <= |input.runtimeStores|
  {
    input.(runtimeStores := input.runtimeStores[..at] + [store] + input.runtimeStores[at..])
  }

  /** What a runtime's own stores are made of when a store joins the others. */
  lemma OutcomesWith(input: CrossCheckInput, at: nat, store: RuntimeStore, runtime: Runtime)
    returns (pre: seq<RuntimeStore>, post: seq<RuntimeStore>)
    requires at <= |input.runtimeStores|
    ensures Outcomes(input, runtime) == pre + post
    ensures Outcomes(WithRuntimeStore(input, at, store), runtime)
         == pre + (if store.runtime == runtime then [store] else []) + post
  {
    var a, b := input.runtimeStores[..at], input.runtimeStores[at..];
    assert input.runtimeStores == a + b;
    OutcomesOfConcat(a, b, runtime);
    OutcomesOfConcat(a + [store], b, runtime);
    OutcomesOfConcat(a, [store], runtime);
    assert [store][1..] == [];
    pre, post := OutcomesOf(a, runtime), OutcomesOf(b, runtime);
  }

  /** A runtime store that failed changes no verdict, wherever it stands among the others. */
  lemma FailedStoreChangesNothing(x: X509, input: CrossCheckInput, at: nat, store: RuntimeStore)
    requires at <= |input.runtimeStores|
    requires store.failure.Some? && store.kind != PlatformVerifier
    ensures Agree(Verdict(x, input), Verdict(x, WithRuntimeStore(input, at, store)), true)
  {
    hide LocallyAdded, OsFindings, AllRuntimes;
    var other := WithRuntimeStore(input, at, store);
    if AllParse(x, input.publicRootPems) {
      var index := IndexOf(x, input.publicRootPems).value;
      var local, coverage := LocallyAdded(x, input.osStores, index), CoverageOf(x, input.osStores);
      FailedAmongRuntimes(x, input, at, store, input.runtimes, local, coverage);
      OsSaysNothing(x, input, input.osStores, Elements(local));
      OsSaysNothing(x, other, other.osStores, Elements(local));
      OnlyRuntimesJudge(x, input, local, coverage, true);
      OnlyRuntimesJudge(x, other, local, coverage, true);
    }
  }

  lemma {:induction false} FailedAmongRuntimes(
    x: X509, input: CrossCheckInput, at: nat, store: RuntimeStore, runtimes: seq<Runtime>, local: seq<bytes>, coverage: Coverage)
    requires at <= |input.runtimeStores|
    requires store.failure.Some? && store.kind != PlatformVerifier
    ensures Agree(AllRuntimes(x, input, runtimes, local, coverage),
                  AllRuntimes(x, WithRuntimeStore(input, at, store), runtimes, local, coverage), true)
  {
    hide RuntimeFindings, OutcomesOf, Judgements;
    if runtimes != [] {
      var other := WithRuntimeStore(input, at, store);
      var r := runtimes[0];
      var pre, post := OutcomesWith(input, at, store, r);
      FailedInRuntime(x, r, pre, post, store, local, input.observedAnchors, coverage);
      FailedAmongRuntimes(x, input, at, store, runtimes[1..], local, coverage);
      var first := RuntimeFindings(x, r, Outcomes(input, r), local, input.observedAnchors, coverage);
      var second := RuntimeFindings(x, r, Outcomes(other, r), local, input.observedAnchors, coverage);
      var rest := AllRuntimes(x, input, runtimes[1..], local, coverage);
      var more := AllRuntimes(x, other, runtimes[1..], local, coverage);
      if first.Ok? && rest.Ok? {
        JudgementsConcat(first.value, rest.value, true);
        JudgementsConcat(second.value, more.value, true);
      }
    }
  }

  lemma FailedInRuntime(
    x: X509, runtime: Runtime, pre: seq<RuntimeStore>, post: seq<RuntimeStore>, store: RuntimeStore,
    local: seq<bytes>, observed: seq<ObservedAnchor>, coverage: Coverage)
    requires store.failure.Some? && store.kind != PlatformVerifier
    ensures var mid := if store.runtime == runtime then [store] else [];
      Agree(RuntimeFindings(x, runtime, pre + post, local, observed, coverage),
            RuntimeFindings(x, runtime, pre + mid + post, local, observed, coverage), true)
  {
    hide RuntimeFindings, Agree, TrustSets;
    var mid := if store.runtime == runtime then [store] else [];
    SameTrustSets(runtime, pre, mid, post);
    assert HasVerifier(pre + post) == HasVerifier(pre + mid + post);
    OnlyFactsDiffer(x, runtime, pre + post, pre + mid + post, local, observed, coverage);
  }

  /** Two lists of stores with the same trust sets, neither or both with a verifier, get the same verdicts. */
  lemma OnlyFactsDiffer(
    x: X509, runtime: Runtime, outcomes: seq<RuntimeStore>, others: seq<RuntimeStore>,
    local: seq<bytes>, observed: seq<ObservedAnchor>, coverage: Coverage)
    requires TrustSets(runtime, outcomes) == TrustSets(runtime, others) && HasVerifier(outcomes) == HasVerifier(others)
    ensures Agree(RuntimeFindings(x, runtime, outcomes, local, observed, coverage),
                  RuntimeFindings(x, runtime, others, local, observed, coverage), true)
  {
    hide TrustSets, SetsFindings, Judgements, HasVerifier;
    var said := SetsFindings(x, TrustSets(runtime, outcomes), local, observed, coverage);
    OnlyVerdictsJudge(x, runtime, outcomes, local, observed, coverage);
    OnlyVerdictsJudge(x, runtime, others, local, observed, coverage);
  }

  /** A runtime's verdicts are those on its trust sets, when there are any to be given. */
  lemma OnlyVerdictsJudge(
    x: X509, runtime: Runtime, outcomes: seq<RuntimeStore>,
    local: seq<bytes>, observed: seq<ObservedAnchor>, coverage: Coverage)
    ensures var r := RuntimeFindings(x, runtime, outcomes, local, observed, coverage);
      var said := SetsFindings(x, TrustSets(runtime, outcomes), local, observed, coverage);
      if HasVerifier(outcomes) || TrustSets(runtime, outcomes) == [] || coverage.level == NoEvidence then
        r.Ok? && Judgements(r.value, true) == []
      else (r.Ok? <==> said.Ok?) && (r.Ok? ==> Judgements(r.value, true) == Judgements(said.value, true))
  {
    hide TrustSets, SetsFindings, Judgements, HasVerifier, OutcomesFindings, AnyLocated;
    var facts := OutcomesFindings(runtime, outcomes);
    var sets := TrustSets(runtime, outcomes);
    FactsSayNothing(runtime, outcomes);
    if HasVerifier(outcomes) {
      NoJudgements(facts + [AsksPlatform(runtime)], true);
    } else if sets == [] {
      NoJudgements(facts + if AnyLocated(outcomes) then [] else [StoreNotFound(runtime)], true);
    } else {
      NoJudgements(facts, true);
      var said := SetsFindings(x, sets, local, observed, coverage);
      if said.Ok? {
        JudgementsConcat(facts, said.value, true);
      }
    }
  }

  lemma SameTrustSets(runtime: Runtime, pre: seq<RuntimeStore>, mid: seq<RuntimeStore>, post: seq<RuntimeStore>)
    requires |mid| <= 1 && forall s :: s in mid ==> s.failure.Some?
    ensures TrustSets(runtime, pre + post) == TrustSets(runtime, pre + mid + post)
  {
    hide SetsFrom, PemsOfAll;
    forall c: Combines ensures Readable(pre + post, c) == Readable(pre + mid + post, c) {
      ReadableConcat(pre, post, c);
      ReadableConcat(pre + mid, post, c);
      ReadableConcat(pre, mid, c);
      if mid != [] {
        assert mid == [mid[0]] && mid[0] in mid;
        ReadableOfOne(mid[0], c);
      }
      assert Readable(mid, c) == [];
      assert Readable(pre, c) + [] == Readable(pre, c);
    }
  }

  // ---- a runtime store that adds ----

  lemma {:induction false} PemInAll(stores: seq<RuntimeStore>, pem: string)
    ensures pem in PemsOfAll(stores) <==> exists s :: s in stores && pem in s.pems
  {
    if stores != [] {
      PemInAll(stores[1..], pem);
      assert forall s :: s in stores <==> s == stores[0] || s in stores[1..];
    }
  }

  lemma DersOfConcat(x: X509, p: seq<string>, q: seq<string>)
    ensures DerSet(x, p + q) == DerSet(x, p) + DerSet(x, q)
  {
    forall d ensures d in DerSet(x, p + q) <==> d in DerSet(x, p) + DerSet(x, q) {
      InDerSet(x, p + q, d);
      InDerSet(x, p, d);
      InDerSet(x, q, d);
    }
  }

  /**
   * One more readable store that adds to a runtime's trust sets leaves those sets where they were
   * and takes exactly its own certificates off what each lacks; no set ever lacks more.
   */
  lemma AddedStoreShrinksMissing(x: X509, input: CrossCheckInput, at: nat, store: RuntimeStore)
    requires at <= |input.runtimeStores|
    requires IsReadable(store) && store.combines == AddsTo
    ensures var other := WithRuntimeStore(input, at, store);
      var before := TrustSets(store.runtime, Outcomes(input, store.runtime));
      var after := TrustSets(store.runtime, Outcomes(other, store.runtime));
      && |before| == |after|
      && (forall i :: 0 <= i < |before| ==>
            && after[i].locator == before[i].locator
            && after[i].partial == (before[i].partial || store.partial)
            && MissingFrom(x, other, after[i]) == MissingFrom(x, input, before[i]) - DerSet(x, store.pems))
  {
    hide Evidence, DerSet, SetsFrom, Readable, OutcomesOf;
    var other := WithRuntimeStore(input, at, store);
    var r := store.runtime;
    var pre, post := OutcomesWith(input, at, store, r);
    ReadableWith(pre, store, post);
    var bases := if Readable(pre + post, Replaces) != [] then Readable(pre + post, Replaces) else Readable(pre + post, Standalone);
    var adds, more := Readable(pre + post, AddsTo), Readable(pre + [store] + post, AddsTo);
    SetsFromShape(r, bases, PemsOfAll(adds), AnyPartial(adds));
    SetsFromShape(r, bases, PemsOfAll(more), AnyPartial(more));
    AddedDers(x, adds, more, store);
    forall i | 0 <= i < |bases|
      ensures DerSet(x, bases[i].pems + PemsOfAll(more)) == DerSet(x, bases[i].pems + PemsOfAll(adds)) + DerSet(x, store.pems)
    {
      DersOfConcat(x, bases[i].pems, PemsOfAll(more));
      DersOfConcat(x, bases[i].pems, PemsOfAll(adds));
    }
  }

  lemma ReadableWith(pre: seq<RuntimeStore>, store: RuntimeStore, post: seq<RuntimeStore>)
    requires IsReadable(store) && store.combines == AddsTo
    ensures Readable(pre + [store] + post, Replaces) == Readable(pre + post, Replaces)
    ensures Readable(pre + [store] + post, Standalone) == Readable(pre + post, Standalone)
    ensures forall s :: s in Readable(pre + [store] + post, AddsTo) <==> s in Readable(pre + post, AddsTo) || s == store
  {
    hide Readable;
    forall c: Combines
      ensures Readable(pre + post, c) == Readable(pre, c) + Readable(post, c)
      ensures Readable(pre + [store] + post, c) == Readable(pre, c) + (if c == AddsTo then [store] else []) + Readable(post, c)
    {
      ReadableConcat(pre, post, c);
      ReadableConcat(pre + [store], post, c);
      ReadableConcat(pre, [store], c);
      ReadableOfOne(store, c);
    }
    forall c: Combines | c != AddsTo ensures Readable(pre + [store] + post, c) == Readable(pre + post, c) {
      assert Readable(pre, c) + [] == Readable(pre, c);
    }
  }

  lemma ReadableOfOne(store: RuntimeStore, c: Combines)
    ensures Readable([store], c) == if IsReadable(store) && store.combines == c then [store] else []
  {
    assert [store][1..] == [];
  }

  lemma AddedDers(x: X509, adds: seq<RuntimeStore>, more: seq<RuntimeStore>, store: RuntimeStore)
    requires forall s :: s in more <==> s in adds || s == store
    ensures DerSet(x, PemsOfAll(more)) == DerSet(x, PemsOfAll(adds)) + DerSet(x, store.pems)
    ensures AnyPartial(more) == (AnyPartial(adds) || store.partial)
  {
    hide DerSet, PemsOfAll;
    forall d ensures d in DerSet(x, PemsOfAll(more)) <==> d in DerSet(x, PemsOfAll(adds)) + DerSet(x, store.pems) {
      InDerSet(x, PemsOfAll(more), d);
      InDerSet(x, PemsOfAll(adds), d);
      InDerSet(x, store.pems, d);
      forall pem ensures pem in PemsOfAll(more) <==> pem in PemsOfAll(adds) || pem in store.pems {
        PemInAll(more, pem);
        PemInAll(adds, pem);
      }
    }
    assert store in more;
  }
}
