/** On Linux the cross-check can never tell Go that it lacks a root. */
module GoOnLinux {
  import opened Wrappers
  import opened RootIndex
  import opened StoreTypes
  import opened Stores
  import opened CrossCheck
  import opened CrossCheckLaws
  import opened CrossCheckFacts

  /** Neither variable that replaces Go's bundle is set. */
  ghost predicate Unset(env: map<string, string>) {
    EnvValue(env, SSL_CERT_FILE).None? && EnvValue(env, SSL_CERT_DIR).None?
  }

  /** One run on Linux over one file system and one path table. */
  ghost predicate RunOnLinux(
    files: Files, env: map<string, string>, paths: seq<string>, osCap: nat, goCap: nat, elapsed: int, input: CrossCheckInput)
  {
    && Unset(env) && osCap <= goCap
    && input.osStores == [LinuxBundle(files, paths, osCap, elapsed)]
    && Outcomes(input, Go) == GoStoresOf(files, env, Linux, paths, goCap)
  }

  /**
   * When the system's bundle was read, Go's trust set is that bundle: the same path and the same
   * certificates, although the two readers skip paths on different errors and have different caps.
   * Go reads a bundle that the system's reader does not exactly when those differences bite: an
   * earlier path whose `stat` fails for a reason other than absence, or a file above the lower cap.
   */
  lemma SameBundle(files: Files, paths: seq<string>, osCap: nat, goCap: nat, elapsed: int)
    requires osCap <= goCap
    ensures var os, go := LinuxBundle(files, paths, osCap, elapsed), GoBundle(files, paths, goCap);
      && (os.failure.None? ==> go.failure.None? && go.locator == Some(os.locator) && go.pems == os.pems && !go.partial)
      && (go.failure.None? ==>
            var i, k := FirstPresent(files, paths), FirstExisting(files, paths);
            i <= k < |paths| && (os.failure.Some? <==> i < k || files.stat(paths[k]).value > osCap))
  {
    var i, k := FirstPresent(files, paths), FirstExisting(files, paths);
    if i < |paths| && Exists(files, paths[i]) {
      FirstExistingIs(files, paths, i);
    }
    if k < |paths| {
      assert !Absent(files, paths[k]);
      assert i <= k;
    }
  }

  lemma GoTrustSet(
    files: Files, env: map<string, string>, paths: seq<string>, osCap: nat, goCap: nat, elapsed: int, input: CrossCheckInput)
    requires RunOnLinux(files, env, paths, osCap, goCap, elapsed, input)
    requires input.osStores[0].failure.None?
    ensures TrustSets(Go, Outcomes(input, Go))
         == [TrustSet(Go, Some(input.osStores[0].locator), input.osStores[0].pems, false)]
    ensures !HasVerifier(Outcomes(input, Go))
  {
    hide LinuxBundle, GoBundle;
    SameBundle(files, paths, osCap, goCap, elapsed);
    var file := EnvFile(files, env, Go, GoSslCertFile, SSL_CERT_FILE, Replaces, goCap);
    var dir := CertDir(files, env, Go, goCap);
    var bundle := GoBundle(files, paths, goCap);
    GoBundleKind(files, paths, goCap);
    assert Outcomes(input, Go) == [file, dir, bundle];
    OneSet(file, dir, bundle);
  }

  lemma GoBundleKind(files: Files, paths: seq<string>, goCap: nat)
    ensures GoBundle(files, paths, goCap).kind == GoSystemBundle && GoBundle(files, paths, goCap).combines == Standalone
  {
  }

  lemma OnlyBundleIsReadable(file: RuntimeStore, dir: RuntimeStore, bundle: RuntimeStore)
    requires file.failure.Some? && dir.failure.Some? && IsReadable(bundle) && bundle.combines == Standalone
    ensures Readable([file, dir, bundle], AddsTo) == [] && Readable([file, dir, bundle], Replaces) == []
    ensures Readable([file, dir, bundle], Standalone) == [bundle]
  {
    forall c: Combines
      ensures Readable([file, dir, bundle], c) == if c == Standalone then [bundle] else []
    {
      assert [bundle][1..] == [] && [dir, bundle][1..] == [bundle] && [file, dir, bundle][1..] == [dir, bundle];
      assert Readable([bundle], c) == if c == Standalone then [bundle] else [];
      assert Readable([dir, bundle], c) == Readable([bundle], c);
    }
  }

  lemma OneSet(file: RuntimeStore, dir: RuntimeStore, bundle: RuntimeStore)
    requires file.failure.Some? && dir.failure.Some? && IsReadable(bundle) && bundle.combines == Standalone
    ensures TrustSets(Go, [file, dir, bundle]) == [TrustSet(Go, bundle.locator, bundle.pems, bundle.partial)]
  {
    hide Readable;
    OnlyBundleIsReadable(file, dir, bundle);
    assert [bundle][1..] == [] && bundle.pems + [] == bundle.pems;
    assert PemsOfAll([]) == [] && !AnyPartial([]);
    assert SetsFrom(Go, [], [], false) == [];
    assert SetsFrom(Go, [bundle], [], false) == [TrustSet(Go, bundle.locator, bundle.pems, bundle.partial)];
  }

  /** Go's trust set lacks nothing that the machine adds. */
  lemma GoLacksNothing(
    x: X509, files: Files, env: map<string, string>, paths: seq<string>, osCap: nat, goCap: nat, elapsed: int,
    input: CrossCheckInput, set_: TrustSet)
    requires RunOnLinux(files, env, paths, osCap, goCap, elapsed, input) && Judged(input, Go, set_)
    ensures input.osStores[0].failure.None? && !set_.partial && set_.runtime == Go
    ensures set_.pems == input.osStores[0].pems
    ensures MissingFrom(x, input, set_) == {}
  {
    hide LinuxBundle, GoStoresOf, TrustSets;
    ReadCountBound(input.osStores);
    var os := input.osStores[0];
    assert os in input.osStores && forall s :: s in input.osStores ==> s == os;
    GoTrustSet(files, env, paths, osCap, goCap, elapsed, input);
    assert set_ in TrustSets(Go, Outcomes(input, Go));
    EvidenceOfOne(x, os);
  }

  lemma EvidenceOfOne(x: X509, store: OsStore)
    requires store.failure.None?
    ensures Evidence(x, [store]) == DerSet(x, store.pems)
  {
    assert [store][..0] == [];
  }

  /**
   * On one file system with both variables unset, no finding ever says that Go lacks a root; and
   * whenever Go was declared and the system's bundle was read, the report says Go's roots are all
   * present.
   */
  lemma GoIsNeverToldItLacksARoot(
    x: X509, files: Files, env: map<string, string>, paths: seq<string>, osCap: nat, goCap: nat, elapsed: int,
    input: CrossCheckInput)
    requires RunOnLinux(files, env, paths, osCap, goCap, elapsed, input) && Verdict(x, input).Ok?
    ensures forall f :: f in Verdict(x, input).value && f.MissingRoot? ==> f.runtime != Go
    ensures Go in input.runtimes && input.osStores[0].failure.None? ==>
      exists f :: f in Verdict(x, input).value && f.RootsPresent? && f.runtime == Go
    ensures input.osStores[0].failure.Some? ==> forall f :: f in Verdict(x, input).value ==> !IsVerdict(f)
  {
    hide LinuxBundle, GoStoresOf, TrustSets, Verdict, Evidence, DerSet, Outcomes;
    VerdictsAreSaid(x, input);
    NoStoreNoVerdict(x, input);
    ReadCountBound(input.osStores);
    ThrowsExactlyWhen(x, input);
    LocallyAddedAre(x, input, IndexOf(x, input.publicRootPems).value);
    forall f | f in Verdict(x, input).value && f.MissingRoot? ensures f.runtime != Go {
      var runtime, set_ :| Judged(input, runtime, set_) && SaidOf(x, input, set_, f);
      GoSaid(x, files, env, paths, osCap, goCap, elapsed, input, runtime, set_, f);
    }
    if Go in input.runtimes && input.osStores[0].failure.None? {
      GoTrustSet(files, env, paths, osCap, goCap, elapsed, input);
      var set_ := TrustSet(Go, Some(input.osStores[0].locator), input.osStores[0].pems, false);
      assert set_ in TrustSets(Go, Outcomes(input, Go));
      assert input.osStores[0] in input.osStores;
      assert Judged(input, Go, set_);
      GoLacksNothing(x, files, env, paths, osCap, goCap, elapsed, input, set_);
      var local := LocallyAdded(x, input.osStores, IndexOf(x, input.publicRootPems).value);
      SetVerdict(x, input, local, set_, CoverageOf(x, input.osStores));
      var f := RootsPresent(set_.runtime, set_.locator, |set_.pems|, CoverageOf(x, input.osStores));
      assert SaidOf(x, input, set_, f);
    }
  }

  lemma GoSaid(
    x: X509, files: Files, env: map<string, string>, paths: seq<string>, osCap: nat, goCap: nat, elapsed: int,
    input: CrossCheckInput, runtime: Runtime, set_: TrustSet, f: Finding)
    requires RunOnLinux(files, env, paths, osCap, goCap, elapsed, input) && AllParse(x, input.publicRootPems)
    requires Judged(input, runtime, set_) && SaidOf(x, input, set_, f) && f.MissingRoot?
    ensures f.runtime != Go
  {
    hide LinuxBundle, GoStoresOf, Evidence, DerSet, Outcomes, OutcomesOf;
    var publicIndex := IndexOf(x, input.publicRootPems).value;
    LocallyAddedAre(x, input, publicIndex);
    SetVerdict(x, input, LocallyAdded(x, input.osStores, publicIndex), set_, CoverageOf(x, input.osStores));
    SetsKnowTheirRuntime(runtime, Outcomes(input, runtime), set_);
    if runtime == Go {
      GoLacksNothing(x, files, env, paths, osCap, goCap, elapsed, input, set_);
    }
  }

  /**
   * What such a run throws on when Go is the only declared runtime: a public PEM that does not
   * parse, or a block of the very bundle whose bad blocks the OS half counts and steps over.
   */
  lemma BadBlockThrows(
    x: X509, files: Files, env: map<string, string>, paths: seq<string>, osCap: nat, goCap: nat, elapsed: int,
    input: CrossCheckInput)
    requires RunOnLinux(files, env, paths, osCap, goCap, elapsed, input) && input.runtimes == [Go]
    ensures Verdict(x, input).Err? <==>
      !AllParse(x, input.publicRootPems)
      || (input.osStores[0].failure.None? && !AllParse(x, input.osStores[0].pems))
  {
    hide LinuxBundle, GoStoresOf, TrustSets, Verdict, Outcomes;
    ThrowsExactlyWhen(x, input);
    ReadCountBound(input.osStores);
    assert input.osStores[0] in input.osStores;
    if input.osStores[0].failure.None? {
      GoTrustSet(files, env, paths, osCap, goCap, elapsed, input);
      var set_ := TrustSet(Go, Some(input.osStores[0].locator), input.osStores[0].pems, false);
      assert set_ in TrustSets(Go, Outcomes(input, Go));
      assert Judged(input, Go, set_);
      assert forall s :: s in TrustSets(Go, Outcomes(input, Go)) ==> s == set_;
    }
    assert forall r :: r in input.runtimes ==> r == Go;
  }
}
