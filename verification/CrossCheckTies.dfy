/** When the anchors a report lists follow from the evidence alone, and what decides when they do not. */
module CrossCheckTies {
  import opened Wrappers
  import opened Bits
  import opened RootIndex
  import Text
  import opened StoreTypes
  import opened CrossCheck
  import opened CrossCheckLaws
  import opened CrossCheckInvariance

  // ---- order kept ----

  /** `d` stands before `e`. */
  ghost predicate Precedes(ds: seq<bytes>, d: bytes, e: bytes) {
    exists i, j :: 0 <= i < j < |ds| && ds[i] == d && ds[j] == e
  }

  lemma PrecedesNext(first: bytes, rest: seq<bytes>, d: bytes, e: bytes)
    ensures Precedes(rest, d, e) ==> Precedes([first] + rest, d, e)
    ensures first == d && e in rest ==> Precedes([first] + rest, d, e)
  {
    var all := [first] + rest;
    if Precedes(rest, d, e) {
      var i, j :| 0 <= i < j < |rest| && rest[i] == d && rest[j] == e;
      assert all[i + 1] == d && all[j + 1] == e;
    }
    if first == d && e in rest {
      var j :| 0 <= j < |rest| && rest[j] == e;
      assert all[0] == d && all[j + 1] == e;
    }
  }

  lemma NotBothWays(ds: seq<bytes>, d: bytes, e: bytes)
    requires NoRepeats(ds) && Precedes(ds, d, e)
    ensures !Precedes(ds, e, d)
  {
  }

  /** Sorting is stable: an anchor goes in ahead of one with the same subject. */
  lemma {:induction false} InsertAhead(x: X509, d: bytes, e: bytes, sorted: seq<bytes>)
    requires e in sorted && !Before(x, e, d)
    ensures Precedes(Insert(x, d, sorted), d, e)
  {
    hide Before;
    if !Before(x, sorted[0], d) {
      PrecedesNext(d, sorted, d, e);
    } else {
      assert sorted == [sorted[0]] + sorted[1..] && e in sorted[1..];
      InsertAhead(x, d, e, sorted[1..]);
      PrecedesNext(sorted[0], Insert(x, d, sorted[1..]), d, e);
    }
  }

  lemma NotInFirst(index: CertificateIndex, ds: seq<bytes>)
    requires ds != []
    ensures NotIn(index, ds) == if index.HasCertificate(ds[0]) then NotIn(index, ds[1..]) else [ds[0]] + NotIn(index, ds[1..])
  {
  }

  lemma {:induction false} NotInKeepsOrder(index: CertificateIndex, ds: seq<bytes>, d: bytes, e: bytes)
    requires Precedes(ds, d, e) && !index.HasCertificate(d) && !index.HasCertificate(e)
    ensures Precedes(NotIn(index, ds), d, e)
  {
    hide NotIn;
    var rest := ds[1..];
    assert ds == [ds[0]] + rest;
    var i, j :| 0 <= i < j < |ds| && ds[i] == d && ds[j] == e;
    NotInFirst(index, ds);
    assert rest[j - 1] == e;
    if i == 0 {
      NotInHolds(index, rest, e);
      PrecedesNext(d, NotIn(index, rest), d, e);
    } else {
      assert rest[i - 1] == d;
      NotInKeepsOrder(index, rest, d, e);
      if !index.HasCertificate(ds[0]) {
        PrecedesNext(ds[0], NotIn(index, rest), d, e);
      }
    }
  }

  lemma {:induction false} NotInHolds(index: CertificateIndex, ds: seq<bytes>, e: bytes)
    requires e in ds && !index.HasCertificate(e)
    ensures e in NotIn(index, ds)
  {
    if ds[0] != e {
      NotInHolds(index, ds[1..], e);
    }
  }

  // ---- two anchors with one subject ----

  /** A store that holds one certificate. */
  function Single(pem: string): OsStore {
    OsStore(LinuxCaBundle, "", [pem], None, None, None, None)
  }

  function Ahead(input: CrossCheckInput, p: string, q: string): CrossCheckInput {
    input.(osStores := [Single(p), Single(q)] + input.osStores)
  }

  lemma {:induction false} MergeExtends(all: seq<bytes>, anchors: seq<bytes>)
    ensures all <= Merge(all, anchors)
  {
    if anchors != [] {
      MergeExtends(all, anchors[..|anchors| - 1]);
    }
  }

  lemma {:induction false} AnchorsExtend(x: X509, first: seq<OsStore>, more: seq<OsStore>)
    ensures AllAnchors(x, first) <= AllAnchors(x, first + more)
    decreases |more|
  {
    if more == [] {
      assert first + more == first;
    } else {
      var init, last := more[..|more| - 1], more[|more| - 1];
      assert (first + more)[..|first + more| - 1] == first + init;
      AnchorsExtend(x, first, init);
      MergeExtends(AllAnchors(x, first + init), AnchorsOf(x, last.pems).anchors);
    }
  }

  lemma PairOfAnchors(x: X509, p: string, q: string, d: bytes, e: bytes)
    requires x.derOf(p) == Some(d) && x.derOf(q) == Some(e) && d != e
    ensures AllAnchors(x, [Single(p), Single(q)]) == [d, e]
  {
    hide AnchorsOf, Merge;
    var s, t := Single(p), Single(q);
    OneAnchor(x, p, d);
    OneAnchor(x, q, e);
    MergeOne([], d);
    MergeOne([d], e);
    assert [s, t][..1] == [s] && [s][..0] == [];
    assert AllAnchors(x, [s]) == [d];
  }

  lemma OneAnchor(x: X509, p: string, d: bytes)
    requires x.derOf(p) == Some(d)
    ensures AnchorsOf(x, [p]).anchors == [d]
  {
    assert [p][..0] == [];
  }

  lemma MergeOne(all: seq<bytes>, d: bytes)
    requires d !in all
    ensures Merge(all, [d]) == all + [d]
  {
    assert [d][..0] == [];
    assert Merge(all, []) == all;
  }

  /** Putting two stores of evidence already held in front changes no evidence. */
  lemma AheadAddsNothing(x: X509, input: CrossCheckInput, p: string, q: string)
    requires x.derOf(p).Some? && x.derOf(p).value in Evidence(x, input.osStores)
    requires x.derOf(q).Some? && x.derOf(q).value in Evidence(x, input.osStores)
    ensures Evidence(x, Ahead(input, p, q).osStores) == Evidence(x, input.osStores)
  {
    hide Evidence, DerSet;
    var stores := Ahead(input, p, q).osStores;
    assert forall s :: s in stores <==> s == Single(p) || s == Single(q) || s in input.osStores;
    forall d ensures d in Evidence(x, stores) <==> d in Evidence(x, input.osStores) {
      InEvidence(x, stores, d);
      InEvidence(x, input.osStores, d);
      InDerSet(x, [p], d);
      InDerSet(x, [q], d);
    }
  }

  lemma FirstIsListedFirst(x: X509, input: CrossCheckInput, p: string, q: string, d: bytes, e: bytes)
    requires AllParse(x, input.publicRootPems) && d in Added(x, input) && e in Added(x, input) && d != e
    requires x.derOf(p) == Some(d) && x.derOf(q) == Some(e)
    requires x.names(d).canonicalSubject == x.names(e).canonicalSubject
    ensures Precedes(ListOf(x, Ahead(input, p, q)), d, e)
  {
    hide AllAnchors, Evidence, DerSet;
    var index := IndexOf(x, input.publicRootPems).value;
    var first := [Single(p), Single(q)];
    var all := AllAnchors(x, first + input.osStores);
    PairOfAnchors(x, p, q, d, e);
    AnchorsExtend(x, first, input.osStores);
    assert all[..2] == [d, e] && all == [d] + ([e] + all[2..]);
    InKeySet(x, input.publicRootPems, d);
    InKeySet(x, input.publicRootPems, e);
    var kept := NotIn(index, all);
    TwoKept(index, d, e, all[2..]);
    assert kept[0] == d && kept[1..] == [e] + NotIn(index, all[2..]);
    SortedIs(x, kept[1..]);
    assert e in kept[1..];
    Text.TextLessIrreflexive(x.names(d).canonicalSubject);
    InsertAhead(x, d, e, Sorted(x, kept[1..]));
  }

  lemma TwoKept(index: CertificateIndex, d: bytes, e: bytes, rest: seq<bytes>)
    requires !index.HasCertificate(d) && !index.HasCertificate(e)
    ensures NotIn(index, [d] + ([e] + rest)) == [d] + ([e] + NotIn(index, rest))
  {
    assert ([d] + ([e] + rest))[1..] == [e] + rest && ([e] + rest)[1..] == rest;
  }

  /**
   * Two added anchors that share a subject can be listed in either order: there are two runs with
   * the same evidence whose stores are each other's reordering, and they list the two either way.
   */
  lemma EitherWay(x: X509, a: CrossCheckInput, d: bytes, e: bytes) returns (b: CrossCheckInput, c: CrossCheckInput)
    requires AllParse(x, a.publicRootPems) && d in Added(x, a) && e in Added(x, a) && d != e
    requires x.names(d).canonicalSubject == x.names(e).canonicalSubject
    ensures SameButOs(a, b) && SameButOs(a, c) && multiset(b.osStores) == multiset(c.osStores)
    ensures Evidence(x, b.osStores) == Evidence(x, a.osStores) == Evidence(x, c.osStores)
    ensures Precedes(ListOf(x, b), d, e) && Precedes(ListOf(x, c), e, d)
  {
    hide Evidence, DerSet, LocallyAdded;
    var p := PemInEvidence(x, a.osStores, d);
    var q := PemInEvidence(x, a.osStores, e);
    b, c := Ahead(a, p, q), Ahead(a, q, p);
    AheadAddsNothing(x, a, p, q);
    AheadAddsNothing(x, a, q, p);
    FirstIsListedFirst(x, a, p, q, d, e);
    FirstIsListedFirst(x, a, q, p, e, d);
    assert b.osStores == [Single(p)] + [Single(q)] + a.osStores;
    assert c.osStores == [Single(q)] + [Single(p)] + a.osStores;
  }

  lemma PemInEvidence(x: X509, stores: seq<OsStore>, d: bytes) returns (pem: string)
    requires d in Evidence(x, stores)
    ensures x.derOf(pem) == Some(d)
  {
    InEvidence(x, stores, d);
    var s :| s in stores && d in HeldBy(x, s);
    InDerSet(x, s.pems, d);
    pem :| pem in s.pems && x.derOf(pem) == Some(d);
  }

  /**
   * The list of added anchors follows from the evidence exactly when no two of them share a
   * canonical subject.
   */
  lemma ListIsDeterminedExactly(x: X509, a: CrossCheckInput)
    requires AllParse(x, a.publicRootPems)
    ensures DistinctSubjects(x, Added(x, a)) <==>
      forall b :: SameButOs(a, b) && Evidence(x, b.osStores) == Evidence(x, a.osStores) ==> ListOf(x, b) == ListOf(x, a)
  {
    hide Evidence, DerSet, LocallyAdded;
    if DistinctSubjects(x, Added(x, a)) {
      forall b | SameButOs(a, b) && Evidence(x, b.osStores) == Evidence(x, a.osStores)
        ensures ListOf(x, b) == ListOf(x, a)
      {
        ListIsDetermined(x, a, b);
      }
    } else {
      var d, e :| d in Added(x, a) && e in Added(x, a) && d != e
        && x.names(d).canonicalSubject == x.names(e).canonicalSubject;
      var b, c := EitherWay(x, a, d, e);
      LocallyAddedAre(x, b, IndexOf(x, b.publicRootPems).value);
      NotBothWays(ListOf(x, b), d, e);
      assert ListOf(x, b) != ListOf(x, c);
    }
  }

  /** What a trust set's finding lists, when the set lacks just the two and nothing observed ties either. */
  lemma ListedInThatOrder(x: X509, input: CrossCheckInput, set_: TrustSet, coverage: Coverage, d: bytes, e: bytes)
    requires AllParse(x, input.publicRootPems) && AllParse(x, set_.pems) && d != e
    requires MissingFrom(x, input, set_) == {d, e} && !Tied(x, {d, e}, input.observedAnchors)
    requires Precedes(ListOf(x, input), d, e)
    ensures SetFindings(x, set_, ListOf(x, input), input.observedAnchors, coverage)
         == Ok([MissingRoot(set_.runtime, set_.locator, 2, [d, e], None, set_.partial, Degraded)])
  {
    hide Evidence, DerSet, ListOf, NotIn, Correlate, MissingFrom, Tied, KeySet, SubjectSet;
    var missing := NotIn(IndexOf(x, set_.pems).value, ListOf(x, input));
    LackedInThatOrder(x, input, set_, d, e);
    CorrelateFinds(x, missing, input.observedAnchors);
    assert Elements(missing) == {d, e};
  }

  lemma LackedInThatOrder(x: X509, input: CrossCheckInput, set_: TrustSet, d: bytes, e: bytes)
    requires AllParse(x, input.publicRootPems) && AllParse(x, set_.pems) && d != e
    requires MissingFrom(x, input, set_) == {d, e} && Precedes(ListOf(x, input), d, e)
    ensures NotIn(IndexOf(x, set_.pems).value, ListOf(x, input)) == [d, e]
  {
    hide Evidence, DerSet, LocallyAdded, NotIn;
    var local := ListOf(x, input);
    LocallyAddedAre(x, input, IndexOf(x, input.publicRootPems).value);
    var index := IndexOf(x, set_.pems).value;
    var missing := NotIn(index, local);
    NotInIs(x, set_.pems, index, local);
    assert Elements(missing) == {d, e};
    assert d in {d, e} && e in {d, e};
    InKeySet(x, set_.pems, d);
    InKeySet(x, set_.pems, e);
    NotInKeepsOrder(index, local, d, e);
    CountOfElements(missing);
    JustTwo(missing, d, e);
  }

  lemma JustTwo(ds: seq<bytes>, d: bytes, e: bytes)
    requires |ds| == 2 && Precedes(ds, d, e)
    ensures ds == [d, e]
  {
  }

  /** So the same evidence gives a finding that lists two roots of one subject in either order. */
  lemma FindingsFollowStores(x: X509, a: CrossCheckInput, set_: TrustSet, coverage: Coverage, d: bytes, e: bytes)
    returns (b: CrossCheckInput, c: CrossCheckInput)
    requires AllParse(x, a.publicRootPems) && AllParse(x, set_.pems) && d != e
    requires MissingFrom(x, a, set_) == {d, e} && !Tied(x, {d, e}, a.observedAnchors)
    requires x.names(d).canonicalSubject == x.names(e).canonicalSubject
    ensures SameButOs(a, b) && SameButOs(a, c) && multiset(b.osStores) == multiset(c.osStores)
    ensures Evidence(x, b.osStores) == Evidence(x, c.osStores) == Evidence(x, a.osStores)
    ensures SetFindings(x, set_, ListOf(x, b), b.observedAnchors, coverage)
         == Ok([MissingRoot(set_.runtime, set_.locator, 2, [d, e], None, set_.partial, Degraded)])
    ensures SetFindings(x, set_, ListOf(x, c), c.observedAnchors, coverage)
         == Ok([MissingRoot(set_.runtime, set_.locator, 2, [e, d], None, set_.partial, Degraded)])
  {
    hide Evidence, DerSet, LocallyAdded, SetFindings;
    b, c := EitherWay(x, a, d, e);
    assert {d, e} == {e, d};
    ListedInThatOrder(x, b, set_, coverage, d, e);
    ListedInThatOrder(x, c, set_, coverage, e, d);
  }
}
