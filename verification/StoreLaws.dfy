/**
 * What the stores read off PEM files hold, why a file gives none, and what that does to the
 * verdicts (src/net/runtime-stores.ts).
 */
module StoreLaws {
  import opened Wrappers
  import opened Bits
  import opened RootIndex
  import opened StoreTypes
  import opened Stores
  import opened CrossCheck
  import opened CrossCheckLaws
  import opened CrossCheckFacts
  import opened CrossCheckInvariance
  import opened PemLaws
  import Pem
  import Text

  // ---- one PEM file ----

  /** The file can be read within the cap, and its text prints the certificates. */
  ghost predicate FilePrints(files: Files, path: string, maxBytes: nat, ps: seq<Printed>, tail: string) {
    && files.stat(path).Ok? && files.stat(path).value <= maxBytes
    && files.read(path) == Ok(PrintAll(ps, tail))
    && (forall p :: p in ps ==> ValidPrinted(p))
    && (forall i :: 0 <= i < |tail| ==> !(PemLaws.OPENING <= tail[i..]))
  }

  /** A file that prints certificates is read as exactly those, in order; without any, it says so. */
  lemma PrintedFileIsRead(files: Files, path: string, maxBytes: nat, ps: seq<Printed>, tail: string)
    requires FilePrints(files, path, maxBytes, ps, tail)
    ensures PemFile(files, path, maxBytes)
         == Contents(PemsOf(PrintedDers(ps)), if ps == [] then Some(NoCertificatesInStore) else None, None)
  {
    hide PrintAll, ValidPrinted, Pem.Blocks;
    BlocksOfPrinted(ps, tail);
    PemsOfPrinted(ps);
  }

  /** Whether a file's text can be had at all. */
  predicate CanBeRead(files: Files, path: string, maxBytes: nat) {
    files.stat(path).Ok? && files.stat(path).value <= maxBytes && files.read(path).Ok?
  }

  /**
   * A file gives certificates, each in its one text, exactly when nothing failed, and its four
   * failures are four different states of the file. What was read within a cap is read the same
   * within any larger one, and writing back what was read changes nothing.
   */
  lemma FileFailsFor(files: Files, path: string, maxBytes: nat)
    ensures var c := PemFile(files, path, maxBytes);
      && AllCanonical(c.pems) && (c.failure.None? <==> c.pems != [])
      && (c.failure == Some(NotFound) <==> files.stat(path) == Err(Some("ENOENT")))
      && (c.failure == Some(TooLarge) <==> files.stat(path).Ok? && files.stat(path).value > maxBytes)
      && (c.failure == Some(Unreadable) <==>
            !CanBeRead(files, path, maxBytes) && c.failure != Some(NotFound) && c.failure != Some(TooLarge))
      && (c.failure == Some(NoCertificatesInStore) <==> CanBeRead(files, path, maxBytes) && c.pems == [])
      && (files.stat(path).Err? ==> c.code == files.stat(path).error)
      && (files.stat(path).Ok? ==> c.code == if c.failure == Some(Unreadable) then files.read(path).error else None)
    ensures forall cap: nat :: cap >= maxBytes && PemFile(files, path, maxBytes).failure != Some(TooLarge) ==>
      PemFile(files, path, cap) == PemFile(files, path, maxBytes)
    ensures forall copy: Files ::
      CanBeRead(copy, path, maxBytes) && copy.read(path).value == Concat(PemFile(files, path, maxBytes).pems) ==>
        PemFile(copy, path, maxBytes).pems == PemFile(files, path, maxBytes).pems
  {
    hide Pem.Blocks, AllCanonical, Concat;
    if CanBeRead(files, path, maxBytes) {
      BlocksAreCanonical(files.read(path).value);
      BlocksIdempotent(files.read(path).value);
    } else {
      NothingReadsBack();
    }
  }

  lemma NothingReadsBack()
    ensures AllCanonical([]) && Pem.Blocks(Concat([])) == []
  {
  }

  // ---- a directory of PEM files ----

  lemma {:induction false} UnionHolds(files: Files, paths: seq<string>, maxBytes: nat)
    ensures var u := UnionOf(files, paths, maxBytes);
      && (forall pem :: pem in u.pems <==> exists f :: f in paths && pem in PemFile(files, f, maxBytes).pems)
      && (u.code.Some? <==> exists f :: f in paths && PemFile(files, f, maxBytes).code.Some?)
  {
    hide PemFile;
    if paths != [] {
      var init, last := paths[..|paths| - 1], paths[|paths| - 1];
      assert paths == init + [last] && forall f :: f in paths <==> f in init || f == last;
      UnionHolds(files, init, maxBytes);
    }
  }

  /** No name in the list comes after a greater one. */
  ghost predicate Ascending(names: seq<string>) {
    forall i, j :: 0 <= i < j < |names| ==> !Text.TextLess(names[j], names[i])
  }

  lemma {:induction false} InsertAscends(name: string, sorted: seq<string>)
    requires Ascending(sorted)
    ensures Ascending(InsertName(name, sorted))
    ensures multiset(InsertName(name, sorted)) == multiset(sorted) + multiset{name}
    ensures |InsertName(name, sorted)| == |sorted| + 1
  {
    hide Text.TextLess;
    if sorted == [] {
    } else if !Text.TextLess(sorted[0], name) {
      forall i | 0 <= i < |sorted| ensures !Text.TextLess(sorted[i], name) {
        if i > 0 {
          Text.NotLessTransitive(name, sorted[0], sorted[i]);
        }
      }
    } else {
      var rest := sorted[1..];
      assert sorted == [sorted[0]] + rest;
      InsertAscends(name, rest);
      var inserted := InsertName(name, rest);
      Text.TextLessAsymmetric(sorted[0], name);
      forall i | 0 <= i < |inserted| ensures !Text.TextLess(inserted[i], sorted[0]) {
        assert inserted[i] in multiset(inserted);
        assert inserted[i] == name || inserted[i] in rest;
      }
      assert InsertName(name, sorted) == [sorted[0]] + inserted;
    }
  }

  lemma {:induction false} SortingAscends(names: seq<string>)
    ensures Ascending(SortedNames(names)) && multiset(SortedNames(names)) == multiset(names)
    ensures |SortedNames(names)| == |names|
  {
    hide InsertName, Ascending;
    if names == [] {
      NoneAscends();
    } else {
      SortingAscends(names[1..]);
      InsertAscends(names[0], SortedNames(names[1..]));
      assert names == [names[0]] + names[1..];
    }
  }

  lemma NoneAscends()
    ensures Ascending([])
  {
  }

  /** The chosen names are in order, as many as the cap allows, and no name left out is less than one of them. */
  ghost predicate LeastFew(names: seq<string>, chosen: seq<string>) {
    && |chosen| == (if |names| <= 8 then |names| else 8)
    && Ascending(chosen) && multiset(chosen) <= multiset(names)
    && forall n, m :: n in multiset(names) - multiset(chosen) && m in chosen ==> !Text.TextLess(n, m)
  }

  lemma CappedAreLeast(names: seq<string>)
    ensures LeastFew(names, Capped(SortedNames(names)))
  {
    hide SortedNames;
    SortingAscends(names);
    var sorted := SortedNames(names);
    PrefixIsLeast(names, sorted, |Capped(sorted)|);
  }

  lemma PrefixIsLeast(names: seq<string>, sorted: seq<string>, n: nat)
    requires Ascending(sorted) && multiset(sorted) == multiset(names) && n <= |sorted|
    ensures Ascending(sorted[..n]) && multiset(sorted[..n]) <= multiset(names)
    ensures forall d, m :: d in multiset(names) - multiset(sorted[..n]) && m in sorted[..n] ==> !Text.TextLess(d, m)
  {
    hide Text.TextLess;
    var chosen, left := sorted[..n], sorted[n..];
    assert sorted == chosen + left;
    assert multiset(names) - multiset(chosen) == multiset(left);
    forall d, m | d in left && m in chosen ensures !Text.TextLess(d, m) {
      var i :| 0 <= i < n && sorted[i] == m;
      var j :| n <= j < |sorted| && sorted[j] == d;
    }
  }

  lemma {:induction false} CertNamesAre(entries: seq<string>)
    ensures forall n :: n in CertNames(entries) <==> n in entries && IsCertName(n)
  {
    hide IsCertName;
    if entries != [] {
      CertNamesAre(entries[1..]);
      assert forall n :: n in entries <==> n == entries[0] || n in entries[1..];
    }
  }

  /**
   * A listed directory is the union of the certificate files in it, at most eight of them: the
   * store opens the least of their names in order, holds exactly what those files hold, and one
   * that cannot be read leaves its code and spoils nothing.
   */
  lemma CertDirIsUnion(files: Files, env: map<string, string>, runtime: Runtime, maxBytes: nat)
    requires EnvValue(env, SSL_CERT_DIR).Some? && files.list(EnvValue(env, SSL_CERT_DIR).value).Ok?
    ensures var dir := EnvValue(env, SSL_CERT_DIR).value;
      var names := CertNames(files.list(dir).value);
      var s := CertDir(files, env, runtime, maxBytes);
      && (forall n :: n in names <==> n in files.list(dir).value && IsCertName(n))
      && (exists chosen :: LeastFew(names, chosen) && s.searched == Joined(files, dir, chosen))
      && (forall pem :: pem in s.pems <==> exists f :: f in s.searched && pem in PemFile(files, f, maxBytes).pems)
      && (s.code.Some? <==> exists f :: f in s.searched && PemFile(files, f, maxBytes).code.Some?)
      && s.failure == if s.pems == [] then Some(NoCertificatesInStore) else None
  {
    hide PemFile, IsCertName, SortedNames, CertNames, Joined, UnionOf, LeastFew;
    var dir := EnvValue(env, SSL_CERT_DIR).value;
    var names := CertNames(files.list(dir).value);
    CertNamesAre(files.list(dir).value);
    CappedAreLeast(names);
    UnionHolds(files, Joined(files, dir, Capped(SortedNames(names))), maxBytes);
  }

  function FirstDifference(a: seq<string>, b: seq<string>): (k: nat)
    requires |a| == |b| && a != b
    ensures k < |a| && a[k] != b[k] && a[..k] == b[..k]
  {
    if a[0] != b[0] then 0
    else
      assert a == [a[0]] + a[1..] && b == [b[0]] + b[1..];
      var k := FirstDifference(a[1..], b[1..]);
      assert a[..k + 1] == [a[0]] + a[1..][..k] && b[..k + 1] == [b[0]] + b[1..][..k];
      k + 1
  }

  /** An element that one list has at `k` and the other has nowhere from there is left out of the other. */
  lemma LeftOut(names: seq<string>, a: seq<string>, b: seq<string>, k: nat)
    requires multiset(a) <= multiset(names) && k < |a| && k <= |b| && a[..k] == b[..k]
    requires a[k] !in b[k..]
    ensures a[k] in multiset(names) - multiset(b)
  {
    assert a == a[..k] + a[k..] && b == b[..k] + b[k..];
    assert a[k] == a[k..][0];
    assert multiset(b)[a[k]] == multiset(a[..k])[a[k]] < multiset(a)[a[k]];
  }

  lemma LesserIsLeftOut(names: seq<string>, a: seq<string>, b: seq<string>, k: nat)
    requires LeastFew(names, a) && LeastFew(names, b)
    requires k < |a| && a[..k] == b[..k]
    ensures !Text.TextLess(a[k], b[k])
  {
    hide Text.TextLess;
    if a[k] !in b[k..] {
      LeftOut(names, a, b, k);
      assert b[k] in b;
    } else {
      var j :| k <= j < |b| && b[j] == a[k];
      Text.TextLessIrreflexive(b[k]);
    }
  }

  /** The least few names of a directory are one list: a different choice breaks the order or the cap. */
  lemma LeastFewAreDetermined(names: seq<string>, a: seq<string>, b: seq<string>)
    requires LeastFew(names, a) && LeastFew(names, b)
    ensures a == b
  {
    hide Text.TextLess;
    if a != b {
      var k := FirstDifference(a, b);
      LesserIsLeftOut(names, a, b, k);
      LesserIsLeftOut(names, b, a, k);
      Text.TextLessTotal(a[k], b[k]);
    }
  }

  // ---- a variable that names a PEM file ----

  lemma EnvFileShape(
    files: Files, env: map<string, string>, runtime: Runtime, kind: RuntimeStoreKind, variable: string,
    combines: Combines, maxBytes: nat)
    ensures var e := EnvFile(files, env, runtime, kind, variable, combines, maxBytes);
      e.kind == kind && e.combines == combines && !e.partial && (e.failure.None? <==> e.pems != [])
  {
    hide PemFile, AllCanonical;
    if EnvValue(env, variable).Some? {
      FileFailsFor(files, EnvValue(env, variable).value, maxBytes);
    }
  }

  /** A variable that gives no certificate - unset, or naming a file that cannot be used - changes no verdict. */
  lemma UselessVariableChangesNothing(
    x: X509, input: CrossCheckInput, at: nat, files: Files, env: map<string, string>, runtime: Runtime,
    kind: RuntimeStoreKind, variable: string, combines: Combines, maxBytes: nat)
    requires at <= |input.runtimeStores| && kind != PlatformVerifier
    requires EnvFile(files, env, runtime, kind, variable, combines, maxBytes).pems == []
    ensures var store := EnvFile(files, env, runtime, kind, variable, combines, maxBytes);
      Agree(Verdict(x, input), Verdict(x, WithRuntimeStore(input, at, store)), true)
  {
    hide Verdict, Agree, PemFile, WithRuntimeStore;
    EnvFileShape(files, env, runtime, kind, variable, combines, maxBytes);
    FailedStoreChangesNothing(x, input, at, EnvFile(files, env, runtime, kind, variable, combines, maxBytes));
  }

  // ---- Node's trust set ----

  /** One run in which Node's stores were read off the file system, beside the bundle that is the public list. */
  ghost predicate RunOfNode(files: Files, env: map<string, string>, maxBytes: nat, input: CrossCheckInput) {
    && Outcomes(input, Node) == NodeStoresOf(files, env, input.publicRootPems, maxBytes)
    && input.publicRootPems != [] && Node in input.runtimes && ReadCount(input.osStores) > 0
  }

  function NodeExtra(files: Files, env: map<string, string>, maxBytes: nat): RuntimeStore {
    EnvFile(files, env, Node, NodeExtraCa, "NODE_EXTRA_CA_CERTS", AddsTo, maxBytes)
  }

  /** Node is judged on one trust set: its bundle and whatever the variable's file holds. */
  lemma NodeTrustSet(files: Files, env: map<string, string>, maxBytes: nat, input: CrossCheckInput)
    requires RunOfNode(files, env, maxBytes, input)
    ensures var set_ := TrustSet(Node, None, input.publicRootPems + NodeExtra(files, env, maxBytes).pems, false);
      Judged(input, Node, set_) && OnlyOfItsName(input, set_)
  {
    hide EnvFile, Outcomes, TrustSets;
    var extra := NodeExtra(files, env, maxBytes);
    EnvFileShape(files, env, Node, NodeExtraCa, NODE_EXTRA_CA_CERTS, AddsTo, maxBytes);
    var bundled := RuntimeStore(Node, NodeBundled, None, [], Standalone, input.publicRootPems, false, None, None);
    assert Outcomes(input, Node) == [bundled, extra];
    OneBaseOneAddition(Node, bundled, extra);
    assert !HasVerifier([bundled, extra]);
  }

  /** A standalone store and one that adds to it are one trust set. */
  lemma OneBaseOneAddition(runtime: Runtime, base: RuntimeStore, extra: RuntimeStore)
    requires IsReadable(base) && base.combines == Standalone
    requires extra.kind != PlatformVerifier && extra.combines == AddsTo && (extra.failure.None? <==> extra.pems != [])
    ensures TrustSets(runtime, [base, extra])
         == [TrustSet(runtime, base.locator, base.pems + extra.pems, base.partial || (extra.pems != [] && extra.partial))]
  {
    hide Readable, SetsFrom, PemsOfAll, AnyPartial;
    var adds := if extra.failure.None? then [extra] else [];
    forall c: Combines
      ensures Readable([base, extra], c) == (if c == Standalone then [base] else []) + (if c == AddsTo then adds else [])
    {
      ReadableOfTwo(base, extra, c);
    }
    assert Readable([base, extra], AddsTo) == adds && Readable([base, extra], Replaces) == [];
    assert Readable([base, extra], Standalone) == [base];
    OneOrNone(extra);
    SetsFromShape(runtime, [base], PemsOfAll(adds), AnyPartial(adds));
  }

  lemma ReadableOfTwo(a: RuntimeStore, b: RuntimeStore, c: Combines)
    ensures Readable([a, b], c) ==
      (if IsReadable(a) && a.combines == c then [a] else []) + (if IsReadable(b) && b.combines == c then [b] else [])
  {
    assert [a, b][1..] == [b] && [b][1..] == [];
    assert Readable([b], c) == if IsReadable(b) && b.combines == c then [b] else [];
  }

  lemma OneOrNone(store: RuntimeStore)
    ensures PemsOfAll([store]) == store.pems && (AnyPartial([store]) <==> store.partial)
    ensures PemsOfAll([]) == [] && !AnyPartial([])
  {
    assert [store][1..] == [] && store.pems + [] == store.pems;
    assert store in [store];
  }

  /**
   * Node lacks exactly the added roots that its variable's file does not hold, and is told that its
   * roots are all present exactly when there are none such; otherwise it is told how many there are.
   */
  lemma NodeIsToldWhatItsFileLacks(
    x: X509, files: Files, env: map<string, string>, maxBytes: nat, input: CrossCheckInput)
    requires RunOfNode(files, env, maxBytes, input) && Verdict(x, input).Ok?
    ensures var lacks := Added(x, input) - DerSet(x, NodeExtra(files, env, maxBytes).pems);
      && ((exists f :: f in Verdict(x, input).value && f.RootsPresent? && f.runtime == Node && f.locator == None) <==> lacks == {})
      && ((exists f :: f in Verdict(x, input).value && f.MissingRoot? && f.runtime == Node && f.locator == None) <==> lacks != {})
      && (forall f :: f in Verdict(x, input).value && f.MissingRoot? && f.runtime == Node && f.locator == None ==>
            f.missing == |lacks| && (f.severity == Blocker <==> Tied(x, lacks, input.observedAnchors)))
  {
    hide Verdict, Judged, EnvFile, DerSet, Evidence, OnlyOfItsName;
    var extra := NodeExtra(files, env, maxBytes);
    var set_ := TrustSet(Node, None, input.publicRootPems + extra.pems, false);
    NodeTrustSet(files, env, maxBytes, input);
    VerdictNamed(x, input, set_);
    DersOfConcat(x, input.publicRootPems, extra.pems);
    assert MissingFrom(x, input, set_) == Added(x, input) - DerSet(x, extra.pems);
    assert forall f :: NamedAfter(f, set_) <==> IsVerdict(f) && f.runtime == Node && f.locator == None;
  }

  /** The parser reads back the one text of each certificate. */
  ghost predicate ReadsBack(x: X509, ds: seq<bytes>) {
    forall d :: d in ds ==> x.derOf(Pem.PemOf(d)) == Some(d)
  }

  lemma {:induction false} PemInPemsOf(ds: seq<bytes>, pem: string)
    ensures pem in PemsOf(ds) <==> exists d :: d in ds && pem == Pem.PemOf(d)
  {
    hide Pem.PemOf;
    if ds != [] {
      PemInPemsOf(ds[1..], pem);
      assert forall d :: d in ds <==> d == ds[0] || d in ds[1..];
    }
  }

  /** Printed certificates are, once parsed, the certificates. */
  lemma DersOfPems(x: X509, ds: seq<bytes>)
    requires ReadsBack(x, ds)
    ensures DerSet(x, PemsOf(ds)) == Elements(ds) && AllParse(x, PemsOf(ds))
  {
    hide Pem.PemOf, PemsOf, DerSet;
    forall pem ensures pem in PemsOf(ds) <==> exists d :: d in ds && pem == Pem.PemOf(d) {
      PemInPemsOf(ds, pem);
    }
    forall d ensures d in DerSet(x, PemsOf(ds)) <==> d in ds {
      InDerSet(x, PemsOf(ds), d);
      if d in ds {
        assert Pem.PemOf(d) in PemsOf(ds);
      }
    }
  }

  /**
   * From a file to the verdict: when `NODE_EXTRA_CA_CERTS` names a file that prints certificates,
   * in whatever layout, Node is told that its roots are all present exactly when every root that
   * the machine adds is one of those.
   */
  lemma ExtraCertificatesCount(
    x: X509, files: Files, env: map<string, string>, maxBytes: nat, input: CrossCheckInput, ps: seq<Printed>, tail: string)
    requires RunOfNode(files, env, maxBytes, input) && Verdict(x, input).Ok?
    requires EnvValue(env, NODE_EXTRA_CA_CERTS).Some?
    requires FilePrints(files, EnvValue(env, NODE_EXTRA_CA_CERTS).value, maxBytes, ps, tail) && ReadsBack(x, PrintedDers(ps))
    ensures (exists f :: f in Verdict(x, input).value && f.RootsPresent? && f.runtime == Node && f.locator == None) <==>
      Added(x, input) <= Elements(PrintedDers(ps))
  {
    hide Verdict, RunOfNode, FilePrints, ReadsBack, PrintedDers, DerSet, Evidence, PemsOf, PemFile;
    NodeIsToldWhatItsFileLacks(x, files, env, maxBytes, input);
    PrintedFileIsRead(files, EnvValue(env, NODE_EXTRA_CA_CERTS).value, maxBytes, ps, tail);
    DersOfPems(x, PrintedDers(ps));
    var lacks := Added(x, input) - Elements(PrintedDers(ps));
    assert lacks == {} <==> Added(x, input) <= Elements(PrintedDers(ps)) by {
      if lacks == {} {
        forall d | d in Added(x, input) ensures d in Elements(PrintedDers(ps)) {
          assert d !in lacks;
        }
      }
    }
  }
}
