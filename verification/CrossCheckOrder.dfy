/** The order in which a report says what it says, and the coverage that its verdicts state. */
module CrossCheckOrder {
  import opened Wrappers
  import opened Bits
  import opened RootIndex
  import opened StoreTypes
  import opened CrossCheck
  import opened CrossCheckLaws
  import opened CrossCheckFacts
  import opened CrossCheckReport
  import opened CrossCheckTies

  // ---- coverage ----

  /** Complete exactly when there are stores and all were read, none exactly when none was. */
  lemma LevelIs(x: X509, stores: seq<OsStore>)
    ensures var c := CoverageOf(x, stores);
      && (c.level == NoEvidence <==> forall s :: s in stores ==> s.failure.Some?)
      && (c.level == Complete <==> stores != [] && forall s :: s in stores ==> s.failure.None?)
      && c.read + c.unread == |stores|
  {
    hide UnparsedCount;
    ReadCountBound(stores);
    AllRead(stores);
  }

  lemma {:induction false} AllRead(stores: seq<OsStore>)
    ensures ReadCount(stores) == |stores| <==> forall s :: s in stores ==> s.failure.None?
  {
    if stores != [] {
      ReadCountBound(stores[1..]);
      AllRead(stores[1..]);
      assert forall s :: s in stores <==> s == stores[0] || s in stores[1..];
    }
  }

  /** Each store counts once, wherever it stands: as read with its blocks that do not parse, or as unread. */
  lemma CoverageAddsUp(x: X509, before: seq<OsStore>, s: OsStore, after: seq<OsStore>)
    ensures var all, l, r := CoverageOf(x, before + [s] + after), CoverageOf(x, before), CoverageOf(x, after);
      && all.read == l.read + r.read + (if s.failure.None? then 1 else 0)
      && all.unread == l.unread + r.unread + (if s.failure.None? then 0 else 1)
      && all.unparsed == l.unparsed + r.unparsed + (if s.failure.None? then Unparsable(x, s.pems) else 0)
    ensures CoverageOf(x, []) == Coverage(NoEvidence, 0, 0, 0)
  {
    hide Unparsable, ReadCount, UnparsedCount;
    ReadAddsUp(before, s, after);
    UnparsedAddsUp(x, before, s, after);
    NothingRead(x);
  }

  lemma NothingRead(x: X509)
    ensures ReadCount([]) == 0 && UnparsedCount(x, []) == 0
  {
  }

  lemma {:induction false} ReadAddsUp(before: seq<OsStore>, s: OsStore, after: seq<OsStore>)
    ensures ReadCount(before + [s] + after) == ReadCount(before) + ReadCount(after) + if s.failure.None? then 1 else 0
  {
    if before == [] {
      assert ([] + [s] + after)[1..] == after;
    } else {
      assert (before + [s] + after)[1..] == before[1..] + [s] + after;
      ReadAddsUp(before[1..], s, after);
    }
  }

  lemma {:induction false} UnparsedAddsUp(x: X509, before: seq<OsStore>, s: OsStore, after: seq<OsStore>)
    ensures UnparsedCount(x, before + [s] + after)
         == UnparsedCount(x, before) + UnparsedCount(x, after) + if s.failure.None? then Unparsable(x, s.pems) else 0
    decreases |after|
  {
    hide AnchorsOf, Unparsable;
    if after == [] {
      AnchorsCounted(x, s.pems);
      assert (before + [s] + after)[..|before|] == before;
    } else {
      var n := |after| - 1;
      assert (before + [s] + after)[..|before| + 1 + n] == before + [s] + after[..n];
      UnparsedAddsUp(x, before, s, after[..n]);
    }
  }

  // ---- order ----

  lemma {:induction false} StoresInOrder(x: X509, input: CrossCheckInput, stores: seq<OsStore>)
    requires forall s :: s in stores ==> s in input.osStores && s.failure != Some(UnsupportedPlatform)
    ensures var fs := OsStoreFindings(x, stores, Added(x, input), input.osCommands);
      |fs| == |stores| && forall i :: 0 <= i < |stores| ==> SaidOfStore(x, input, stores[i], fs[i])
  {
    hide SaidOfStore, Added, OsFindingsOf;
    if stores != [] {
      var first := OsFindingsOf(x, stores[0], Added(x, input), input.osCommands);
      OneFinding(x, stores[0], Added(x, input), input.osCommands);
      assert stores[0] in stores && first[0] in first;
      StoreSaid(x, input, stores[0]);
      StoresInOrder(x, input, stores[1..]);
    }
  }

  lemma OneFinding(x: X509, s: OsStore, local: set<bytes>, commands: seq<Command>)
    requires s.failure != Some(UnsupportedPlatform)
    ensures |OsFindingsOf(x, s, local, commands)| == 1
  {
    hide AnchorsOf, CountIn, AdvisesTimeout;
  }

  /** A report begins with one finding for each store, in the order of the stores, and says no more of them. */
  lemma StoresComeFirst(x: X509, input: CrossCheckInput)
    requires Verdict(x, input).Ok? && input.osStores != []
    requires forall s :: s in input.osStores ==> s.failure != Some(UnsupportedPlatform)
    ensures var fs, n := Verdict(x, input).value, |input.osStores|;
      && n <= |fs|
      && (forall i :: 0 <= i < n ==> SaidOfStore(x, input, input.osStores[i], fs[i]))
      && (forall i :: n <= i < |fs| ==> !IsOsFact(fs[i]))
  {
    hide OsStoreFindings, AllRuntimes, LocallyAdded, SaidOfStore, SaidOfOutcome;
    var index := IndexOf(x, input.publicRootPems).value;
    var local, coverage := LocallyAdded(x, input.osStores, index), CoverageOf(x, input.osStores);
    LocallyAddedAre(x, input, index);
    StoresInOrder(x, input, input.osStores);
    RuntimesSaid(x, input, input.runtimes, local, coverage);
    NoFalseFacts();
    var rest := AllRuntimes(x, input, input.runtimes, local, coverage).value;
    forall f | f in rest ensures !IsOsFact(f) {
      assert IsOsFact(f) ==> IsFact(f);
    }
    var fs, n := Verdict(x, input).value, |input.osStores|;
    forall i | n <= i < |fs| ensures !IsOsFact(fs[i]) {
      assert i < n + |rest| ==> fs[i] == rest[i - n];
    }
  }

  lemma {:induction false} RuntimesJoin(
    x: X509, input: CrossCheckInput, a: seq<Runtime>, b: seq<Runtime>, local: seq<bytes>, coverage: Coverage)
    ensures var all, first, rest := AllRuntimes(x, input, a + b, local, coverage), AllRuntimes(x, input, a, local, coverage),
        AllRuntimes(x, input, b, local, coverage);
      && (all.Ok? <==> first.Ok? && rest.Ok?)
      && (all.Ok? ==> all.value == first.value + rest.value)
  {
    hide RuntimeFindings, OutcomesOf;
    if a == [] {
      assert a + b == b;
    } else {
      assert (a + b)[1..] == a[1..] + b;
      RuntimesJoin(x, input, a[1..], b, local, coverage);
    }
  }

  /** What the report says when these are the declared runtimes. */
  function Of(x: X509, input: CrossCheckInput, runtimes: seq<Runtime>): Result<seq<Finding>, Thrown> {
    Verdict(x, input.(runtimes := runtimes))
  }

  /** After the stores the runtimes follow in the order they are declared, each as if it were the only one. */
  lemma RuntimesInTurn(x: X509, input: CrossCheckInput, a: seq<Runtime>, b: seq<Runtime>)
    requires exists s :: s in input.osStores && s.failure.None?
    ensures Of(x, input, a + b).Ok? <==> Of(x, input, a).Ok? && Of(x, input, b).Ok?
    ensures Of(x, input, a + b).Ok? ==>
      && Of(x, input, []).Ok?
      && var none := Of(x, input, []).value;
         && none <= Of(x, input, b).value
         && Of(x, input, a + b).value == Of(x, input, a).value + Of(x, input, b).value[|none|..]
  {
    hide OsStoreFindings, AllRuntimes, LocallyAdded, IndexOf, UnparsedCount;
    ReadCountBound(input.osStores);
    if IndexOf(x, input.publicRootPems).Ok? {
      var index := IndexOf(x, input.publicRootPems).value;
      var local, coverage := LocallyAdded(x, input.osStores, index), CoverageOf(x, input.osStores);
      RuntimesJoin(x, input, a, b, local, coverage);
      NoRuntimes(x, input, local, coverage);
      forall rs ensures AllRuntimes(x, input.(runtimes := rs), rs, local, coverage) == AllRuntimes(x, input, rs, local, coverage) {
        OnlyTheirOwn(x, input, rs, rs, local, coverage);
      }
    }
  }

  lemma NoRuntimes(x: X509, input: CrossCheckInput, local: seq<bytes>, coverage: Coverage)
    ensures AllRuntimes(x, input, [], local, coverage) == Ok([])
  {
  }

  lemma {:induction false} OnlyTheirOwn(
    x: X509, input: CrossCheckInput, declared: seq<Runtime>, rs: seq<Runtime>, local: seq<bytes>, coverage: Coverage)
    ensures AllRuntimes(x, input.(runtimes := declared), rs, local, coverage) == AllRuntimes(x, input, rs, local, coverage)
  {
    hide RuntimeFindings, OutcomesOf;
    if rs != [] {
      OnlyTheirOwn(x, input, declared, rs[1..], local, coverage);
    }
  }

  /** Of one runtime, what is said of its stores comes before what is said of its trust sets. */
  lemma FactsBeforeVerdicts(x: X509, runtime: Runtime, outcomes: seq<RuntimeStore>, local: seq<bytes>, observed: seq<ObservedAnchor>, coverage: Coverage)
    requires RuntimeFindings(x, runtime, outcomes, local, observed, coverage).Ok?
    ensures var fs := RuntimeFindings(x, runtime, outcomes, local, observed, coverage).value;
      forall i, j :: 0 <= i < j < |fs| && IsFact(fs[j]) ==> IsFact(fs[i])
  {
    hide TrustSets, SetsFindings, OutcomesFindings, SaidOfOutcome, HasVerifier, AnyLocated, IsFact;
    OutcomesSaid(runtime, outcomes);
    OutcomeFactsAre();
    var facts, sets := OutcomesFindings(runtime, outcomes), TrustSets(runtime, outcomes);
    assert forall f :: f in facts ==> IsFact(f);
    if !HasVerifier(outcomes) && sets != [] && coverage.level != NoEvidence {
      OnlySetsSpeak(x, sets, local, observed, coverage);
      var said := SetsFindings(x, sets, local, observed, coverage).value;
      assert forall k :: 0 <= k < |said| ==> said[k] in said;
    }
  }

  lemma OutcomeFactsAre()
    ensures forall r, o, f :: SaidOfOutcome(r, o, f) ==> IsFact(f)
  {
  }

  // ---- the order of the anchors ----

  /** Anchors stand in the order in which they are first found, within a store and from store to store. */
  lemma AnchorsInOrder(x: X509, pems: seq<string>, morePems: seq<string>, stores: seq<OsStore>, moreStores: seq<OsStore>)
    ensures AnchorsOf(x, pems).anchors <= AnchorsOf(x, pems + morePems).anchors
    ensures AllAnchors(x, stores) <= AllAnchors(x, stores + moreStores)
  {
    PemsInOrder(x, pems, morePems);
    AnchorsExtend(x, stores, moreStores);
  }

  lemma {:induction false} PemsInOrder(x: X509, pems: seq<string>, more: seq<string>)
    ensures AnchorsOf(x, pems).anchors <= AnchorsOf(x, pems + more).anchors
    decreases |more|
  {
    if more == [] {
      assert pems + more == pems;
    } else {
      var n := |more| - 1;
      PemsInOrder(x, pems, more[..n]);
      assert (pems + more)[..|pems| + n] == pems + more[..n];
    }
  }

  lemma PrecedesWithin(first: bytes, rest: seq<bytes>, d: bytes, e: bytes)
    requires Precedes([first] + rest, d, e)
    ensures (first == d && e in rest) || Precedes(rest, d, e)
  {
    var all := [first] + rest;
    var i, j :| 0 <= i < j < |all| && all[i] == d && all[j] == e;
    assert rest[j - 1] == e;
    if i > 0 {
      assert rest[i - 1] == d;
    }
  }

  lemma {:induction false} InsertKeepsOrder(x: X509, d: bytes, sorted: seq<bytes>, a: bytes, b: bytes)
    requires Precedes(sorted, a, b)
    ensures Precedes(Insert(x, d, sorted), a, b)
  {
    hide Before, Precedes;
    NothingPrecedes(a, b);
    if !Before(x, sorted[0], d) {
      PrecedesNext(d, sorted, a, b);
    } else {
      var rest := sorted[1..];
      assert sorted == [sorted[0]] + rest;
      PrecedesWithin(sorted[0], rest, a, b);
      InsertIs(x, d, rest);
      if Precedes(rest, a, b) {
        InsertKeepsOrder(x, d, rest, a, b);
      } else {
        assert b in multiset(Insert(x, d, rest));
      }
      PrecedesNext(sorted[0], Insert(x, d, rest), a, b);
    }
  }

  lemma NothingPrecedes(a: bytes, b: bytes)
    ensures !Precedes([], a, b)
  {
  }

  lemma {:induction false} SortedIsStable(x: X509, ds: seq<bytes>, a: bytes, b: bytes)
    requires Precedes(ds, a, b) && !Before(x, b, a)
    ensures Precedes(Sorted(x, ds), a, b)
  {
    hide Before, Insert, Precedes;
    NothingPrecedes(a, b);
    var rest := ds[1..];
    assert ds == [ds[0]] + rest;
    PrecedesWithin(ds[0], rest, a, b);
    SortedIs(x, rest);
    if Precedes(rest, a, b) {
      SortedIsStable(x, rest, a, b);
      InsertKeepsOrder(x, ds[0], Sorted(x, rest), a, b);
    } else {
      InsertAhead(x, a, b, Sorted(x, rest));
    }
  }

  /** Two added anchors that no subject tells apart are listed in the order in which the stores first show them. */
  lemma TiesKeepTheirOrder(x: X509, stores: seq<OsStore>, index: CertificateIndex, a: bytes, b: bytes)
    requires Precedes(AllAnchors(x, stores), a, b) && !Before(x, b, a)
    requires !index.HasCertificate(a) && !index.HasCertificate(b)
    ensures Precedes(LocallyAdded(x, stores, index), a, b)
  {
    hide Before, Sorted, NotIn, AllAnchors;
    NotInKeepsOrder(index, AllAnchors(x, stores), a, b);
    SortedIsStable(x, NotIn(index, AllAnchors(x, stores)), a, b);
  }

  // ---- which tie ----

  /** The observed anchor has the bytes of a missing one. */
  predicate SameBytes(missing: seq<bytes>, o: ObservedAnchor) {
    o.der.Some? && o.der.value in missing
  }

  /** The observed anchor is private and names a missing one as its issuer. */
  ghost predicate NamesIssuer(x: X509, missing: seq<bytes>, o: ObservedAnchor) {
    o.anchorClass == PrivateAnchor && exists m :: m in missing && x.names(m).canonicalSubject == o.canonicalIssuer
  }

  /** The anchor is the last of the missing ones with the subject. */
  ghost predicate LastNamed(x: X509, missing: seq<bytes>, subject: string, matched: bytes) {
    x.names(matched).canonicalSubject == subject && exists k :: LastAt(x, missing, subject, matched, k)
  }

  ghost predicate LastAt(x: X509, missing: seq<bytes>, subject: string, matched: bytes, k: int) {
    && 0 <= k < |missing| && missing[k] == matched
    && forall j :: k < j < |missing| ==> x.names(missing[j]).canonicalSubject != subject
  }

  ghost predicate FirstSame(missing: seq<bytes>, observed: seq<ObservedAnchor>, i: nat) {
    i < |observed| && SameBytes(missing, observed[i]) && forall j :: 0 <= j < i ==> !SameBytes(missing, observed[j])
  }

  ghost predicate FirstNaming(x: X509, missing: seq<bytes>, observed: seq<ObservedAnchor>, i: nat) {
    i < |observed| && NamesIssuer(x, missing, observed[i]) && forall j :: 0 <= j < i ==> !NamesIssuer(x, missing, observed[j])
  }

  ghost predicate TiedByName(x: X509, missing: seq<bytes>, o: ObservedAnchor, c: Option<Correlation>) {
    c.Some? && c.value.anchor == o && c.value.how == ByIssuerName && LastNamed(x, missing, o.canonicalIssuer, c.value.matched)
  }

  /**
   * The tie is that of the first observed anchor with the bytes of a missing one; only when there is
   * none, of the first private one that names a missing one as its issuer, and of several with that
   * name the last one listed.
   */
  lemma CorrelationIs(x: X509, missing: seq<bytes>, observed: seq<ObservedAnchor>, i: nat)
    requires i < |observed|
    ensures FirstSame(missing, observed, i) ==>
      Correlate(x, missing, observed) == Some(Correlation(observed[i], ByBytes, observed[i].der.value))
    ensures (forall j :: 0 <= j < |observed| ==> !SameBytes(missing, observed[j])) && FirstNaming(x, missing, observed, i) ==>
      TiedByName(x, missing, observed[i], Correlate(x, missing, observed))
  {
    hide FirstByBytes, FirstByName, SameBytes, NamesIssuer, LastNamed;
    if forall j :: 0 <= j < |observed| ==> !SameBytes(missing, observed[j]) {
      NoneByBytes(missing, observed);
    }
    if FirstSame(missing, observed, i) {
      FirstByBytesIs(missing, observed, i);
    }
    if FirstNaming(x, missing, observed, i) {
      FirstByNameIs(x, missing, observed, i);
    }
  }

  lemma {:induction false} FirstByBytesIs(missing: seq<bytes>, observed: seq<ObservedAnchor>, i: nat)
    requires FirstSame(missing, observed, i)
    ensures FirstByBytes(missing, observed) == Some(Correlation(observed[i], ByBytes, observed[i].der.value))
  {
    if i > 0 {
      assert !SameBytes(missing, observed[0]);
      FirstByBytesIs(missing, observed[1..], i - 1);
    }
  }

  lemma {:induction false} NoneByBytes(missing: seq<bytes>, observed: seq<ObservedAnchor>)
    requires forall j :: 0 <= j < |observed| ==> !SameBytes(missing, observed[j])
    ensures FirstByBytes(missing, observed).None?
  {
    if observed != [] {
      assert !SameBytes(missing, observed[0]);
      NoneByBytes(missing, observed[1..]);
    }
  }

  lemma {:induction false} LastWithSubjectIs(x: X509, missing: seq<bytes>, subject: string)
    ensures var last := LastWithSubject(x, missing, subject);
      && (last.Some? ==> LastNamed(x, missing, subject, last.value))
      && (last.None? ==> forall m :: m in missing ==> x.names(m).canonicalSubject != subject)
  {
    hide LastAt;
    if missing != [] {
      var n := |missing| - 1;
      var init, last := missing[..n], missing[n];
      LastWithSubjectIs(x, init, subject);
      assert missing == init + [last];
      if x.names(last).canonicalSubject == subject {
        LastIsLast(x, init, subject, last);
      } else if LastWithSubject(x, init, subject).Some? {
        var matched := LastWithSubject(x, init, subject).value;
        var k :| LastAt(x, init, subject, matched, k);
        StillLast(x, init, subject, matched, k, last);
      } else {
        assert forall m :: m in missing <==> m in init || m == last;
      }
    }
  }

  lemma LastIsLast(x: X509, init: seq<bytes>, subject: string, last: bytes)
    ensures LastAt(x, init + [last], subject, last, |init|)
  {
  }

  lemma StillLast(x: X509, init: seq<bytes>, subject: string, matched: bytes, k: int, last: bytes)
    requires LastAt(x, init, subject, matched, k) && x.names(last).canonicalSubject != subject
    ensures LastAt(x, init + [last], subject, matched, k)
  {
  }

  lemma {:induction false} FirstByNameIs(x: X509, missing: seq<bytes>, observed: seq<ObservedAnchor>, i: nat)
    requires FirstNaming(x, missing, observed, i)
    ensures TiedByName(x, missing, observed[i], FirstByName(x, missing, observed))
  {
    hide LastWithSubject, LastNamed;
    LastWithSubjectIs(x, missing, observed[0].canonicalIssuer);
    if i > 0 {
      assert !NamesIssuer(x, missing, observed[0]);
      if LastWithSubject(x, missing, observed[0].canonicalIssuer).Some? {
        NamedIsThere(x, missing, observed[0].canonicalIssuer, LastWithSubject(x, missing, observed[0].canonicalIssuer).value);
      }
      FirstByNameIs(x, missing, observed[1..], i - 1);
    }
  }

  lemma NamedIsThere(x: X509, missing: seq<bytes>, subject: string, matched: bytes)
    requires LastNamed(x, missing, subject, matched)
    ensures matched in missing && x.names(matched).canonicalSubject == subject
  {
  }
}
