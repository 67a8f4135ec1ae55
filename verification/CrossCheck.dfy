/** The cross-check of OS stores against runtime trust sets (src/probes/truststore/evaluate.ts). */
module CrossCheck {
  import opened Wrappers
  import opened Bits
  import opened Base64
  import Text
  import opened RootIndex
  import opened StoreTypes

  const MAX_REPORTED_DNS: nat := 5

  datatype CrossCheckInput = CrossCheckInput(
    osStores: seq<OsStore>, runtimeStores: seq<RuntimeStore>, runtimes: seq<Runtime>,
    publicRootPems: seq<string>, observedAnchors: seq<ObservedAnchor>, osCommands: seq<Command>)

  datatype Severity = Okay | Unknown | Degraded | Blocker

  datatype Match = ByBytes | ByIssuerName

  /** How an observed anchor was tied to a missing one. */
  datatype Correlation = Correlation(anchor: ObservedAnchor, how: Match, matched: bytes)

  datatype EvidenceLevel = Complete | PartialEvidence | NoEvidence

  datatype Coverage = Coverage(level: EvidenceLevel, read: nat, unread: nat, unparsed: nat)

  /** Finding ids with the evidence a verdict rests on; titles and remediation prose are not modelled. */
  datatype Finding =
    | OsRead(kind: StoreKind, anchors: nat, locallyAdded: nat, unparsed: nat)
    | OsReadTimeout(kind: StoreKind, raiseTimeout: bool)
    | OsAborted(kind: StoreKind)
    | OsUnreadable(kind: StoreKind, failure: OsFailure)
    | OsUnsupportedPlatform
    | ExtraCaConfigured(runtime: Runtime, store: RuntimeStoreKind, anchors: nat)
    | ExtraCaUnreadable(runtime: Runtime, store: RuntimeStoreKind, reason: RuntimeFailure)
    | JavaStoreUnreadable(onlyPart: bool, cause: Option<RuntimeFailure>)
    | AsksPlatform(runtime: Runtime)
    | StoreNotFound(runtime: Runtime)
    | MissingRoot(runtime: Runtime, locator: Option<string>, missing: nat, listed: seq<bytes>,
                  correlation: Option<Correlation>, partial: bool, severity: Severity)
    | RootsPresent(runtime: Runtime, locator: Option<string>, checked: nat, coverage: Coverage)
    | Indeterminate(attempted: nat)

  // ---- anchors ----

  /** One store's anchors, deduplicated by DER in store order, and how many blocks did not parse. */
  datatype StoreAnchors = StoreAnchors(anchors: seq<bytes>, unparsed: nat)

  function AnchorsOf(x: X509, pems: seq<string>): StoreAnchors {
    if pems == [] then StoreAnchors([], 0)
    else
      var before := AnchorsOf(x, pems[..|pems| - 1]);
      match x.derOf(pems[|pems| - 1])
      case None => before.(unparsed := before.unparsed + 1)
      case Some(der) => if der in before.anchors then before else before.(anchors := before.anchors + [der])
  }

  method ReadAnchors(x: X509, pems: seq<string>) returns (r: StoreAnchors)
    ensures r == AnchorsOf(x, pems)
  {
    var anchors: seq<bytes> := [];
    var keys: set<string> := {};
    var unparsed := 0;
    for i := 0 to |pems|
      invariant AnchorsOf(x, pems[..i]) == StoreAnchors(anchors, unparsed)
      invariant forall d: bytes :: Encode(d) in keys <==> d in anchors
    {
      assert pems[..i + 1][..i] == pems[..i];
      var parsed := x.derOf(pems[i]);
      if parsed.None? {
        unparsed := unparsed + 1;
        continue;
      }
      var key := DerKey(parsed.value);
      if key in keys { continue; }
      KeysAddOne(keys, anchors, parsed.value);
      keys := keys + {key};
      anchors := anchors + [parsed.value];
    }
    assert pems[..|pems|] == pems;
    r := StoreAnchors(anchors, unparsed);
  }

  lemma KeysAddOne(keys: set<string>, anchors: seq<bytes>, der: bytes)
    requires forall d: bytes :: Encode(d) in keys <==> d in anchors
    ensures forall d: bytes :: Encode(d) in keys + {Encode(der)} <==> d in anchors + [der]
  {
    forall d: bytes ensures Encode(d) in keys + {Encode(der)} <==> d in anchors + [der] {
      if Encode(d) == Encode(der) {
        EncodeInjective(d, der);
      }
    }
  }

  /** Anchors added to a list that does not yet hold them. */
  function Merge(all: seq<bytes>, anchors: seq<bytes>): seq<bytes> {
    if anchors == [] then all
    else
      var before := Merge(all, anchors[..|anchors| - 1]);
      var last := anchors[|anchors| - 1];
      if last in before then before else before + [last]
  }

  /** The anchors of every store that was read, deduplicated across stores. */
  function AllAnchors(x: X509, stores: seq<OsStore>): seq<bytes> {
    if stores == [] then []
    else
      var before := AllAnchors(x, stores[..|stores| - 1]);
      var last := stores[|stores| - 1];
      if last.failure.Some? then before else Merge(before, AnchorsOf(x, last.pems).anchors)
  }

  // ---- order ----

  predicate Before(x: X509, a: bytes, b: bytes) {
    Text.TextLess(x.names(a).canonicalSubject, x.names(b).canonicalSubject)
  }

  function Insert(x: X509, d: bytes, sorted: seq<bytes>): seq<bytes> {
    if sorted == [] || !Before(x, sorted[0], d) then [d] + sorted
    else [sorted[0]] + Insert(x, d, sorted[1..])
  }

  /** `sort(byCanonicalSubject)`, stable. */
  function Sorted(x: X509, ds: seq<bytes>): seq<bytes> {
    if ds == [] then [] else Insert(x, ds[0], Sorted(x, ds[1..]))
  }

  /** `filter(anchor => !index.hasCertificate(anchor.der))`. */
  function NotIn(index: CertificateIndex, ds: seq<bytes>): seq<bytes> {
    if ds == [] then [] else (if index.HasCertificate(ds[0]) then [] else [ds[0]]) + NotIn(index, ds[1..])
  }

  function LocallyAdded(x: X509, stores: seq<OsStore>, publicIndex: CertificateIndex): seq<bytes> {
    Sorted(x, NotIn(publicIndex, AllAnchors(x, stores)))
  }

  // ---- the OS half ----

  function ReadCount(stores: seq<OsStore>): nat {
    if stores == [] then 0 else (if stores[0].failure.None? then 1 else 0) + ReadCount(stores[1..])
  }

  function LevelOf(stores: seq<OsStore>): EvidenceLevel {
    var read := ReadCount(stores);
    if read == 0 then NoEvidence else if read == |stores| then Complete else PartialEvidence
  }

  function UnparsedCount(x: X509, stores: seq<OsStore>): nat {
    if stores == [] then 0 else
      var last := stores[|stores| - 1];
      var before := UnparsedCount(x, stores[..|stores| - 1]);
      if last.failure.Some? then before else before + AnchorsOf(x, last.pems).unparsed
  }

  function CoverageOf(x: X509, stores: seq<OsStore>): Coverage
  {
    ReadCountBound(stores);
    Coverage(LevelOf(stores), ReadCount(stores), |stores| - ReadCount(stores), UnparsedCount(x, stores))
  }

  lemma {:induction false} ReadCountBound(stores: seq<OsStore>)
    ensures ReadCount(stores) <= |stores|
    ensures ReadCount(stores) == 0 <==> forall s :: s in stores ==> s.failure.Some?
  {
    if stores != [] {
      ReadCountBound(stores[1..]);
    }
  }

  /** The row's ceiling for a store kind. */
  function CeilingFor(kind: StoreKind, commands: seq<Command>): Option<int> {
    if commands == [] then None
    else if commands[0].kind == kind then Some(commands[0].timeoutMs)
    else CeilingFor(kind, commands[1..])
  }

  const BUDGET_EXHAUSTED: string := "budget-exhausted"

  /** Whether the remediation for a timed-out read says to re-run with a larger `--timeout`. */
  function AdvisesTimeout(store: OsStore, ceiling: Option<int>): bool {
    if store.code == Some(BUDGET_EXHAUSTED) then true
    else
      var applied := if store.budgetMs.Some? then store.budgetMs.value else 0;
      !(ceiling.Some? && applied >= ceiling.value)
  }

  function CountIn(ds: seq<bytes>, keys: set<bytes>): nat {
    if ds == [] then 0 else (if ds[0] in keys then 1 else 0) + CountIn(ds[1..], keys)
  }

  function OsFindingsOf(x: X509, store: OsStore, local: set<bytes>, commands: seq<Command>): seq<Finding> {
    match store.failure
    case None =>
      var parsed := AnchorsOf(x, store.pems);
      [OsRead(store.kind, |parsed.anchors|, CountIn(parsed.anchors, local), parsed.unparsed)]
    case Some(Timeout) => [OsReadTimeout(store.kind, AdvisesTimeout(store, CeilingFor(store.kind, commands)))]
    case Some(Aborted) => [OsAborted(store.kind)]
    case Some(UnsupportedPlatform) => []
    case Some(failure) => [OsUnreadable(store.kind, failure)]
  }

  function OsStoreFindings(x: X509, stores: seq<OsStore>, local: set<bytes>, commands: seq<Command>): seq<Finding> {
    if stores == [] then []
    else OsFindingsOf(x, stores[0], local, commands) + OsStoreFindings(x, stores[1..], local, commands)
  }

  function OsFindings(x: X509, input: CrossCheckInput, local: set<bytes>): seq<Finding> {
    OsStoreFindings(x, input.osStores, local, input.osCommands)
      + if input.osStores == [] then [OsUnsupportedPlatform] else []
  }

  // ---- trust sets ----

  /** The roots one runtime consults: one store, or a store with the additions to it. */
  datatype TrustSet = TrustSet(runtime: Runtime, locator: Option<string>, pems: seq<string>, partial: bool)

  predicate IsReadable(s: RuntimeStore) {
    s.failure.None? && s.kind != PlatformVerifier
  }

  /** The readable stores that combine in the given way. */
  function Readable(outcomes: seq<RuntimeStore>, combines: Combines): seq<RuntimeStore> {
    if outcomes == [] then []
    else if IsReadable(outcomes[0]) && outcomes[0].combines == combines then
      [outcomes[0]] + Readable(outcomes[1..], combines)
    else Readable(outcomes[1..], combines)
  }

  function PemsOfAll(stores: seq<RuntimeStore>): seq<string> {
    if stores == [] then [] else stores[0].pems + PemsOfAll(stores[1..])
  }

  predicate AnyPartial(stores: seq<RuntimeStore>) {
    exists s :: s in stores && s.partial
  }

  function SetsFrom(runtime: Runtime, bases: seq<RuntimeStore>, added: seq<string>, addedPartial: bool): seq<TrustSet> {
    if bases == [] then [] else
      var first := TrustSet(runtime, bases[0].locator, bases[0].pems + added, bases[0].partial || addedPartial);
      [first] + SetsFrom(runtime, bases[1..], added, addedPartial)
  }

  function TrustSets(runtime: Runtime, outcomes: seq<RuntimeStore>): seq<TrustSet> {
    var additions := Readable(outcomes, AddsTo);
    var replacing := Readable(outcomes, Replaces);
    var bases := if replacing != [] then replacing else Readable(outcomes, Standalone);
    SetsFrom(runtime, bases, PemsOfAll(additions), AnyPartial(additions))
  }

  // ---- correlation ----

  /** The first observed anchor whose bytes are among the missing ones. */
  function FirstByBytes(missing: seq<bytes>, observed: seq<ObservedAnchor>): Option<Correlation> {
    if observed == [] then None
    else if observed[0].der.Some? && observed[0].der.value in missing then
      Some(Correlation(observed[0], ByBytes, observed[0].der.value))
    else FirstByBytes(missing, observed[1..])
  }

  /** The last missing anchor with the given subject: a later one replaces an earlier in the map. */
  function LastWithSubject(x: X509, missing: seq<bytes>, subject: string): Option<bytes> {
    if missing == [] then None
    else if x.names(missing[|missing| - 1]).canonicalSubject == subject then Some(missing[|missing| - 1])
    else LastWithSubject(x, missing[..|missing| - 1], subject)
  }

  /** The first observed private anchor whose issuer names a missing one. */
  function FirstByName(x: X509, missing: seq<bytes>, observed: seq<ObservedAnchor>): Option<Correlation> {
    if observed == [] then None
    else
      var matched := LastWithSubject(x, missing, observed[0].canonicalIssuer);
      if observed[0].anchorClass == PrivateAnchor && matched.Some? then
        Some(Correlation(observed[0], ByIssuerName, matched.value))
      else FirstByName(x, missing, observed[1..])
  }

  function Correlate(x: X509, missing: seq<bytes>, observed: seq<ObservedAnchor>): Option<Correlation> {
    var byBytes := FirstByBytes(missing, observed);
    if byBytes.Some? then byBytes else FirstByName(x, missing, observed)
  }

  // ---- the runtime half ----

  function Without(ds: seq<bytes>, d: bytes): seq<bytes> {
    if ds == [] then [] else (if ds[0] == d then [] else [ds[0]]) + Without(ds[1..], d)
  }

  /** The tied anchor first, then the rest in their order. */
  function Ordered(missing: seq<bytes>, correlation: Option<Correlation>): seq<bytes> {
    if correlation.None? then missing
    else [correlation.value.matched] + Without(missing, correlation.value.matched)
  }

  function FirstFew(ds: seq<bytes>): seq<bytes> {
    if |ds| <= MAX_REPORTED_DNS then ds else ds[..MAX_REPORTED_DNS]
  }

  function MissingRootFinding(set_: TrustSet, missing: seq<bytes>, correlation: Option<Correlation>): Finding {
    MissingRoot(set_.runtime, set_.locator, |missing|, FirstFew(Ordered(missing, correlation)), correlation,
                set_.partial, if correlation.None? || set_.partial then Degraded else Blocker)
  }

  /** The verdict on one trust set; an unparsable PEM in the set throws. */
  function SetFindings(x: X509, set_: TrustSet, local: seq<bytes>, observed: seq<ObservedAnchor>, coverage: Coverage)
    : Result<seq<Finding>, Thrown>
  {
    var index :- IndexOf(x, set_.pems);
    var missing := NotIn(index, local);
    if missing != [] then Ok([MissingRootFinding(set_, missing, Correlate(x, missing, observed))])
    else if set_.partial then Ok([])
    else Ok([RootsPresent(set_.runtime, set_.locator, |set_.pems|, coverage)])
  }

  function SetsFindings(x: X509, sets: seq<TrustSet>, local: seq<bytes>, observed: seq<ObservedAnchor>, coverage: Coverage)
    : Result<seq<Finding>, Thrown>
  {
    if sets == [] then Ok([])
    else
      var first :- SetFindings(x, sets[0], local, observed, coverage);
      var rest :- SetsFindings(x, sets[1..], local, observed, coverage);
      Ok(first + rest)
  }

  predicate IsEnvKind(kind: RuntimeStoreKind) {
    kind in {NodeExtraCa, GoSslCertFile, GoSslCertDir, PythonSslCertFile, PythonRequestsCaBundle}
  }

  /** What one outcome says whether or not there are OS anchors to compare it with. */
  function OutcomeFindings(runtime: Runtime, o: RuntimeStore): seq<Finding> {
    (if !IsEnvKind(o.kind) || o.failure == Some(NotConfigured) then []
     else if o.failure.None? then [ExtraCaConfigured(runtime, o.kind, |o.pems|)]
     else [ExtraCaUnreadable(runtime, o.kind, o.failure.value)])
    + (if o.kind == JavaCacerts && (o.partial || (o.failure.Some? && o.failure.value != NotFound))
       then [JavaStoreUnreadable(o.failure.None? && o.partial, o.failure)] else [])
  }

  function OutcomesFindings(runtime: Runtime, outcomes: seq<RuntimeStore>): seq<Finding> {
    if outcomes == [] then []
    else OutcomeFindings(runtime, outcomes[0]) + OutcomesFindings(runtime, outcomes[1..])
  }

  predicate HasVerifier(outcomes: seq<RuntimeStore>) {
    exists o :: o in outcomes && o.kind == PlatformVerifier
  }

  predicate AnyLocated(outcomes: seq<RuntimeStore>) {
    exists o :: o in outcomes && o.failure != Some(NotConfigured) && o.failure != Some(NotFound)
  }

  function Prepend(fs: seq<Finding>, r: Result<seq<Finding>, Thrown>): Result<seq<Finding>, Thrown> {
    match r case Ok(more) => Ok(fs + more) case Err(e) => Err(e)
  }

  function RuntimeFindings(
    x: X509, runtime: Runtime, outcomes: seq<RuntimeStore>, local: seq<bytes>, observed: seq<ObservedAnchor>, coverage: Coverage)
    : Result<seq<Finding>, Thrown>
  {
    var facts := OutcomesFindings(runtime, outcomes);
    if HasVerifier(outcomes) then Ok(facts + [AsksPlatform(runtime)])
    else
      var sets := TrustSets(runtime, outcomes);
      if sets == [] then Ok(facts + if AnyLocated(outcomes) then [] else [StoreNotFound(runtime)])
      else if coverage.level == NoEvidence then Ok(facts)
      else Prepend(facts, SetsFindings(x, sets, local, observed, coverage))
  }

  method CheckRuntime(
    x: X509, runtime: Runtime, outcomes: seq<RuntimeStore>, local: seq<bytes>, observed: seq<ObservedAnchor>, coverage: Coverage)
    returns (r: Result<seq<Finding>, Thrown>)
    ensures r == RuntimeFindings(x, runtime, outcomes, local, observed, coverage)
  {
    hide OutcomeFindings, IndexOf, MissingRootFinding, Correlate, NotIn, TrustSets, HasVerifier, AnyLocated;
    var findings: seq<Finding> := [];
    for i := 0 to |outcomes|
      invariant OutcomesFindings(runtime, outcomes) == findings + OutcomesFindings(runtime, outcomes[i..])
    {
      assert outcomes[i..][1..] == outcomes[i + 1..];
      findings := findings + OutcomeFindings(runtime, outcomes[i]);
    }
    assert outcomes[|outcomes|..] == [] && findings + [] == findings;
    if HasVerifier(outcomes) { return Ok(findings + [AsksPlatform(runtime)]); }

    var sets := TrustSets(runtime, outcomes);
    if sets == [] {
      if !AnyLocated(outcomes) { findings := findings + [StoreNotFound(runtime)]; }
      return Ok(findings);
    }
    if coverage.level == NoEvidence { return Ok(findings); }

    ghost var facts := findings;
    for i := 0 to |sets|
      invariant Prepend(facts, SetsFindings(x, sets, local, observed, coverage))
             == Prepend(findings, SetsFindings(x, sets[i..], local, observed, coverage))
    {
      assert sets[i..][1..] == sets[i + 1..];
      PrependConcat(findings, SetFindings(x, sets[i], local, observed, coverage),
                    SetsFindings(x, sets[i + 1..], local, observed, coverage));
      var indexed := BuildIndex(x, sets[i].pems);
      if indexed.Err? { return Err(indexed.error); }
      var missing := NotIn(indexed.value, local);
      if missing != [] {
        findings := findings + [MissingRootFinding(sets[i], missing, Correlate(x, missing, observed))];
        continue;
      }
      if !sets[i].partial {
        findings := findings + [RootsPresent(sets[i].runtime, sets[i].locator, |sets[i].pems|, coverage)];
      }
    }
    assert sets[|sets|..] == [] && findings + [] == findings;
    r := Ok(findings);
  }

  lemma PrependConcat(fs: seq<Finding>, first: Result<seq<Finding>, Thrown>, rest: Result<seq<Finding>, Thrown>)
    ensures first.Ok? && rest.Ok? ==> fs + (first.value + rest.value) == fs + first.value + rest.value
    ensures first == Ok([]) ==> fs + first.value == fs
  {
  }

  // ---- the cross-check ----

  function OutcomesOf(stores: seq<RuntimeStore>, runtime: Runtime): seq<RuntimeStore> {
    if stores == [] then []
    else (if stores[0].runtime == runtime then [stores[0]] else []) + OutcomesOf(stores[1..], runtime)
  }

  function AllRuntimes(x: X509, input: CrossCheckInput, runtimes: seq<Runtime>, local: seq<bytes>, coverage: Coverage)
    : Result<seq<Finding>, Thrown>
  {
    if runtimes == [] then Ok([])
    else
      var outcomes := OutcomesOf(input.runtimeStores, runtimes[0]);
      var first :- RuntimeFindings(x, runtimes[0], outcomes, local, input.observedAnchors, coverage);
      var rest :- AllRuntimes(x, input, runtimes[1..], local, coverage);
      Ok(first + rest)
  }

  function Elements(ds: seq<bytes>): (s: set<bytes>)
    ensures forall d :: d in s <==> d in ds
  {
    set d | d in ds
  }

  /** The whole verdict; an unparsable PEM in the public list or in a judged trust set throws. */
  function Verdict(x: X509, input: CrossCheckInput): Result<seq<Finding>, Thrown> {
    var publicIndex :- IndexOf(x, input.publicRootPems);
    var local := LocallyAdded(x, input.osStores, publicIndex);
    var coverage := CoverageOf(x, input.osStores);
    var findings :- AllRuntimes(x, input, input.runtimes, local, coverage);
    Ok(OsFindings(x, input, Elements(local)) + findings
       + if coverage.level == NoEvidence then [Indeterminate(|input.osStores|)] else [])
  }

  method MergeAnchors(all: seq<bytes>, anchors: seq<bytes>) returns (r: seq<bytes>)
    ensures r == Merge(all, anchors)
  {
    r := all;
    for i := 0 to |anchors|
      invariant r == Merge(all, anchors[..i])
    {
      assert anchors[..i + 1][..i] == anchors[..i];
      if anchors[i] !in r { r := r + [anchors[i]]; }
    }
    assert anchors[..|anchors|] == anchors;
  }

  /** The anchors of the read stores, deduplicated across them, and how many blocks did not parse. */
  method GatherAnchors(x: X509, stores: seq<OsStore>) returns (all: seq<bytes>, unparsed: nat)
    ensures all == AllAnchors(x, stores) && unparsed == UnparsedCount(x, stores)
  {
    hide AnchorsOf, Merge;
    all, unparsed := [], 0;
    for i := 0 to |stores|
      invariant all == AllAnchors(x, stores[..i]) && unparsed == UnparsedCount(x, stores[..i])
    {
      assert stores[..i + 1][..i] == stores[..i];
      if stores[i].failure.Some? { continue; }
      var parsed := ReadAnchors(x, stores[i].pems);
      unparsed := unparsed + parsed.unparsed;
      all := MergeAnchors(all, parsed.anchors);
    }
    assert stores[..|stores|] == stores;
  }

  method CheckStores(x: X509, input: CrossCheckInput, local: set<bytes>) returns (findings: seq<Finding>)
    ensures findings == OsFindings(x, input, local)
  {
    hide OsFindingsOf;
    var stores := input.osStores;
    findings := [];
    for i := 0 to |stores|
      invariant OsStoreFindings(x, stores, local, input.osCommands)
             == findings + OsStoreFindings(x, stores[i..], local, input.osCommands)
    {
      assert stores[i..][1..] == stores[i + 1..];
      findings := findings + OsFindingsOf(x, stores[i], local, input.osCommands);
    }
    assert stores[|stores|..] == [] && findings + [] == findings;
    if stores == [] { findings := findings + [OsUnsupportedPlatform]; }
  }

  method CrossCheck(x: X509, input: CrossCheckInput) returns (r: Result<seq<Finding>, Thrown>)
    ensures r == Verdict(x, input)
  {
    hide RuntimeFindings, OsFindings, LocallyAdded, LevelOf, ReadCount, AllAnchors, UnparsedCount, IndexOf, Sorted, NotIn;
    var publicIndex :- BuildIndex(x, input.publicRootPems);
    var stores := input.osStores;
    var all, unparsed := GatherAnchors(x, stores);
    var local := Sorted(x, NotIn(publicIndex, all));
    LocallyAddedIs(x, stores, publicIndex, all);
    ReadCountBound(stores);
    var coverage := Coverage(LevelOf(stores), ReadCount(stores), |stores| - ReadCount(stores), unparsed);
    var findings := CheckStores(x, input, Elements(local));

    ghost var osFindings := findings;
    var runtimes := input.runtimes;
    for i := 0 to |runtimes|
      invariant Prepend(osFindings, AllRuntimes(x, input, runtimes, local, coverage))
             == Prepend(findings, AllRuntimes(x, input, runtimes[i..], local, coverage))
    {
      assert runtimes[i..][1..] == runtimes[i + 1..];
      var outcomes := OutcomesOf(input.runtimeStores, runtimes[i]);
      var more := CheckRuntime(x, runtimes[i], outcomes, local, input.observedAnchors, coverage);
      PrependConcat(findings, more, AllRuntimes(x, input, runtimes[i + 1..], local, coverage));
      if more.Err? { return Err(more.error); }
      findings := findings + more.value;
    }
    assert runtimes[|runtimes|..] == [] && findings + [] == findings;
    assert coverage == CoverageOf(x, stores);
    assert AllRuntimes(x, input, runtimes, local, coverage).Ok?;

    if coverage.level == NoEvidence { findings := findings + [Indeterminate(|stores|)]; }
    r := Ok(findings);
  }

  lemma LocallyAddedIs(x: X509, stores: seq<OsStore>, publicIndex: CertificateIndex, all: seq<bytes>)
    requires all == AllAnchors(x, stores)
    ensures LocallyAdded(x, stores, publicIndex) == Sorted(x, NotIn(publicIndex, all))
  {
  }
}
