/** What Go is judged on, platform by platform, with and without the variables that replace its roots. */
module GoPlatforms {
  import opened Wrappers
  import opened RootIndex
  import opened StoreTypes
  import opened Stores
  import opened CrossCheck
  import opened CrossCheckLaws
  import opened CrossCheckFacts
  import opened CrossCheckReport

  /** One run in which Go's stores were read off the file system. */
  ghost predicate RunOfGo(
    files: Files, env: map<string, string>, platform: Platform, paths: seq<string>, maxBytes: nat, input: CrossCheckInput)
  {
    Outcomes(input, Go) == GoStoresOf(files, env, platform, paths, maxBytes) && Go in input.runtimes
  }

  /** The variable is set to something. */
  ghost predicate Set(env: map<string, string>, name: string) {
    name in env && env[name] != ""
  }

  lemma NamedStoresShape(files: Files, env: map<string, string>, maxBytes: nat)
    ensures var s := EnvFile(files, env, Go, GoSslCertFile, "SSL_CERT_FILE", Replaces, maxBytes);
      && s.combines == Replaces && s.kind == GoSslCertFile && !s.partial
      && (!Set(env, "SSL_CERT_FILE") ==> s.failure == Some(NotConfigured) && s.locator == Some("SSL_CERT_FILE"))
      && (Set(env, "SSL_CERT_FILE") ==> s.locator == Some(env["SSL_CERT_FILE"]) && s.failure != Some(NotConfigured))
    ensures var s := CertDir(files, env, Go, maxBytes);
      && s.combines == Replaces && s.kind == GoSslCertDir && !s.partial
      && (!Set(env, "SSL_CERT_DIR") ==> s.failure == Some(NotConfigured) && s.locator == Some("SSL_CERT_DIR"))
      && (Set(env, "SSL_CERT_DIR") ==> s.locator == Some(env["SSL_CERT_DIR"]) && s.failure != Some(NotConfigured))
  {
    hide UnionOf, SortedNames, CertNames, Joined;
  }

  lemma OwnStores(input: CrossCheckInput, outcomes: seq<RuntimeStore>)
    requires Outcomes(input, Go) == outcomes
    ensures forall o :: o in outcomes <==> o in input.runtimeStores && o.runtime == Go
  {
    OutcomesAre(input.runtimeStores, Go);
  }

  /**
   * With neither variable set, Go on macOS and Windows is reported as asking the platform and gets
   * no verdict; on a platform that has no bundle either, as found nowhere.
   */
  lemma GoWithoutVariables(
    x: X509, files: Files, env: map<string, string>, platform: Platform, paths: seq<string>, maxBytes: nat, input: CrossCheckInput)
    requires RunOfGo(files, env, platform, paths, maxBytes, input) && Verdict(x, input).Ok?
    requires !Set(env, "SSL_CERT_FILE") && !Set(env, "SSL_CERT_DIR")
    ensures platform == Darwin || platform == Win32 <==> AsksPlatform(Go) in Verdict(x, input).value
    ensures platform == OtherPlatform ==> StoreNotFound(Go) in Verdict(x, input).value
    ensures platform != Linux ==> forall f :: f in Verdict(x, input).value && IsVerdict(f) ==> f.runtime != Go
  {
    hide Verdict, EnvFile, CertDir, GoBundle, Outcomes, TrustSets, HasVerifier, SaidOf, SaidOfStore, SaidOfOutcome;
    var outcomes := GoStoresOf(files, env, platform, paths, maxBytes);
    var file := EnvFile(files, env, Go, GoSslCertFile, SSL_CERT_FILE, Replaces, maxBytes);
    var dir := CertDir(files, env, Go, maxBytes);
    NamedStoresShape(files, env, maxBytes);
    BundleKind(files, paths, maxBytes);
    OwnStores(input, outcomes);
    RuntimeFactsAre(x, input, Go);
    assert file in outcomes && dir in outcomes;
    if platform == Darwin || platform == Win32 {
      assert outcomes[2] in outcomes && outcomes[2].kind == PlatformVerifier;
      assert AsksOs(input, Go);
    }
    if platform != Linux {
      NoGoVerdict(x, input, outcomes);
    }
  }

  lemma BundleKind(files: Files, paths: seq<string>, maxBytes: nat)
    ensures GoBundle(files, paths, maxBytes).kind == GoSystemBundle && GoBundle(files, paths, maxBytes).combines == Standalone
  {
  }

  /** A runtime that asks the platform, or none of whose stores is usable, gets no verdict. */
  lemma NoGoVerdict(x: X509, input: CrossCheckInput, outcomes: seq<RuntimeStore>)
    requires Outcomes(input, Go) == outcomes && Verdict(x, input).Ok?
    requires (exists o :: o in outcomes && o.kind == PlatformVerifier) || forall o :: o in outcomes ==> o.failure.Some?
    ensures forall f :: f in Verdict(x, input).value && IsVerdict(f) ==> f.runtime != Go
  {
    hide Verdict, Outcomes, TrustSets, SaidOf;
    VerdictsAreSaid(x, input);
    ThrowsExactlyWhen(x, input);
    TrustSetsAre(Go, outcomes);
    forall f | f in Verdict(x, input).value && IsVerdict(f) ensures f.runtime != Go {
      var runtime, s :| Judged(input, runtime, s) && SaidOf(x, input, s, f);
      SaidUnderItsName(x, input, runtime, s, f);
    }
  }

  /** The trust set is what the one store holds, under its name. */
  ghost predicate JustHolds(t: TrustSet, s: RuntimeStore) {
    t.locator == s.locator && t.partial == s.partial && forall pem :: pem in t.pems <==> pem in s.pems
  }

  /** Stores that replace are judged one by one. */
  lemma ReplacingSets(runtime: Runtime, outcomes: seq<RuntimeStore>)
    requires forall o :: o in outcomes ==> o.combines == Replaces && o.kind != PlatformVerifier
    ensures forall t :: t in TrustSets(runtime, outcomes) ==>
      exists s :: s in outcomes && s.failure.None? && JustHolds(t, s)
    ensures forall s :: s in outcomes && s.failure.None? ==>
      exists t :: t in TrustSets(runtime, outcomes) && JustHolds(t, s)
  {
    hide TrustSets, SetOf, JustHolds;
    TrustSetsAre(runtime, outcomes);
    forall s, t | Heads(outcomes, s) && SetOf(runtime, outcomes, s, t) ensures JustHolds(t, s) {
      OnlyItsOwn(runtime, outcomes, s, t);
    }
    forall s | s in outcomes && s.failure.None? ensures exists t :: t in TrustSets(runtime, outcomes) && JustHolds(t, s) {
      assert Heads(outcomes, s);
    }
  }

  lemma OnlyItsOwn(runtime: Runtime, outcomes: seq<RuntimeStore>, s: RuntimeStore, t: TrustSet)
    requires forall o :: o in outcomes ==> o.combines == Replaces
    requires SetOf(runtime, outcomes, s, t)
    ensures JustHolds(t, s)
  {
  }

  /**
   * With a variable set, on every platform, Go's trust sets are what the named file and the named
   * directory hold, one set each when they hold certificates, and neither the bundle nor the
   * platform is asked.
   */
  lemma GoWithVariables(
    x: X509, files: Files, env: map<string, string>, platform: Platform, paths: seq<string>, maxBytes: nat, input: CrossCheckInput)
    requires RunOfGo(files, env, platform, paths, maxBytes, input) && Verdict(x, input).Ok?
    requires Set(env, "SSL_CERT_FILE") || Set(env, "SSL_CERT_DIR")
    ensures AsksPlatform(Go) !in Verdict(x, input).value
    ensures var file := EnvFile(files, env, Go, GoSslCertFile, "SSL_CERT_FILE", Replaces, maxBytes);
      var dir := CertDir(files, env, Go, maxBytes);
      var sets := TrustSets(Go, Outcomes(input, Go));
      && (forall t :: t in sets ==> (file.failure.None? && JustHolds(t, file)) || (dir.failure.None? && JustHolds(t, dir)))
      && (file.failure.None? ==> exists t :: t in sets && JustHolds(t, file))
      && (dir.failure.None? ==> exists t :: t in sets && JustHolds(t, dir))
  {
    hide Verdict, EnvFile, CertDir, GoBundle, Outcomes, TrustSets, JustHolds, AsksOs, NowhereFound;
    var file := EnvFile(files, env, Go, GoSslCertFile, SSL_CERT_FILE, Replaces, maxBytes);
    var dir := CertDir(files, env, Go, maxBytes);
    var outcomes := [file, dir];
    assert GoStoresOf(files, env, platform, paths, maxBytes) == outcomes;
    NamedStoresShape(files, env, maxBytes);
    assert forall o :: o in outcomes <==> o == file || o == dir;
    AsksNothing(input, outcomes);
    RuntimeFactsAre(x, input, Go);
    TwoReplacing(file, dir);
  }

  lemma TwoReplacing(file: RuntimeStore, dir: RuntimeStore)
    requires file.combines == Replaces && dir.combines == Replaces
    requires file.kind != PlatformVerifier && dir.kind != PlatformVerifier
    ensures var sets := TrustSets(Go, [file, dir]);
      && (forall t :: t in sets ==> (file.failure.None? && JustHolds(t, file)) || (dir.failure.None? && JustHolds(t, dir)))
      && (file.failure.None? ==> exists t :: t in sets && JustHolds(t, file))
      && (dir.failure.None? ==> exists t :: t in sets && JustHolds(t, dir))
  {
    hide TrustSets, JustHolds;
    ReplacingSets(Go, [file, dir]);
    assert forall o :: o in [file, dir] <==> o == file || o == dir;
  }

  lemma AsksNothing(input: CrossCheckInput, outcomes: seq<RuntimeStore>)
    requires Outcomes(input, Go) == outcomes && forall o :: o in outcomes ==> o.kind != PlatformVerifier
    ensures !AsksOs(input, Go)
  {
    hide Outcomes;
    OwnStores(input, outcomes);
  }
}
