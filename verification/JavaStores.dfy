/**
 * Java's keystores as the cross-check sees them (src/net/runtime-stores.ts): the bytes of each
 * `cacerts` go through the keystore reader, and what that skipped follows them to the verdict.
 */
module JavaStores {
  import opened Wrappers
  import opened Bits
  import opened RootIndex
  import opened StoreTypes
  import opened Stores
  import opened CrossCheck
  import opened CrossCheckLaws
  import opened CrossCheckFacts
  import opened CrossCheckReport
  import opened PemLaws
  import Keystore
  import KeystoreLaws
  import KeystoreRoundTrip
  import Pem
  import Store = Pkcs12RoundTrip
  import StoreLaws

  // ---- one keystore file ----

  datatype KeystoreContents = KeystoreContents(
    pems: seq<string>, partial: bool, failure: Option<RuntimeFailure>, code: Errno)

  /** The keystore reader's failures are five of the store's. */
  function RuntimeFailureOf(failure: Keystore.Failure): RuntimeFailure {
    match failure
    case UnsupportedFormat => RuntimeFailure.UnsupportedFormat
    case UnsupportedEncoding => RuntimeFailure.UnsupportedEncoding
    case Truncated => RuntimeFailure.Truncated
    case Encrypted => RuntimeFailure.Encrypted
    case NoCertificates => NoCertificatesInStore
  }

  /** What the keystore reader makes of the bytes. */
  function ReadOf(data: bytes): Keystore.KeystoreRead {
    Keystore.KeystoreMeaning(data, Keystore.MAX_DER_DEPTH)
  }

  function Cacerts(files: Files, path: string, maxBytes: nat): KeystoreContents {
    match files.stat(path)
    case Err(code) => KeystoreContents([], false, Some(if code == Some(ENOENT) then NotFound else Unreadable), code)
    case Ok(size) =>
      if size > maxBytes then KeystoreContents([], false, Some(TooLarge), None)
      else match files.load(path)
        case Err(code) => KeystoreContents([], false, Some(Unreadable), code)
        case Ok(data) =>
          var read := ReadOf(data);
          KeystoreContents(PemsOf(read.certificates), read.partial,
                           if read.failure.None? then None else Some(RuntimeFailureOf(read.failure.value)), None)
  }

  method ReadJavaCacerts(files: Files, path: string, maxBytes: nat) returns (r: KeystoreContents)
    ensures r == Cacerts(files, path, maxBytes)
  {
    hide Keystore.KeystoreMeaning;
    var size := files.stat(path);
    if size.Err? {
      return KeystoreContents([], false, Some(if size.error == Some(ENOENT) then NotFound else Unreadable), size.error);
    }
    if size.value > maxBytes { return KeystoreContents([], false, Some(TooLarge), None); }
    var data := files.load(path);
    if data.Err? { return KeystoreContents([], false, Some(Unreadable), data.error); }
    var read := Keystore.ReadKeystore(data.value);
    var pems := PrintDers(read.certificates);
    r := KeystoreContents(pems, read.partial,
                          if read.failure.None? then None else Some(RuntimeFailureOf(read.failure.value)), None);
  }

  /** `certificates.map(derToPem)`. */
  method PrintDers(ders: seq<bytes>) returns (pems: seq<string>)
    ensures pems == PemsOf(ders)
  {
    hide Pem.PemOf;
    pems := [];
    for i := 0 to |ders|
      invariant PemsOf(ders) == pems + PemsOf(ders[i..])
    {
      assert ders[i..][1..] == ders[i + 1..];
      var pem := Pem.DerToPem(ders[i]);
      pems := pems + [pem];
    }
    assert ders[|ders|..] == [] && pems + [] == pems;
  }

  // ---- every keystore of the machine ----

  function JavaStore(files: Files, path: string, maxBytes: nat): RuntimeStore {
    var c := Cacerts(files, path, maxBytes);
    RuntimeStore(Java, JavaCacerts, Some(path), [path], Standalone, c.pems, c.partial, c.failure, c.code)
  }

  function JavaStoreEach(files: Files, paths: seq<string>, maxBytes: nat): (r: seq<RuntimeStore>)
    ensures |r| == |paths| && forall i :: 0 <= i < |paths| ==> r[i] == JavaStore(files, paths[i], maxBytes)
  {
    seq(|paths|, i requires 0 <= i < |paths| => JavaStore(files, paths[i], maxBytes))
  }

  /** `found` is every path that a pattern matched, each once; none means that Java was not found. */
  function JavaStoresOf(files: Files, patterns: seq<string>, found: seq<string>, maxBytes: nat): seq<RuntimeStore> {
    if found == [] then
      [RuntimeStore(Java, JavaCacerts, None, Capped(patterns), Standalone, [], false, Some(NotFound), None)]
    else JavaStoreEach(files, Capped(found), maxBytes)
  }

  method ReadJavaStores(files: Files, patterns: seq<string>, found: seq<string>, maxBytes: nat) returns (r: seq<RuntimeStore>)
    ensures r == JavaStoresOf(files, patterns, found, maxBytes)
  {
    hide Cacerts;
    if found == [] {
      return [RuntimeStore(Java, JavaCacerts, None, Capped(patterns), Standalone, [], false, Some(NotFound), None)];
    }
    var paths := Capped(found);
    r := [];
    for i := 0 to |paths|
      invariant r == JavaStoreEach(files, paths[..i], maxBytes)
    {
      assert paths[..i + 1][..i] == paths[..i];
      var c := ReadJavaCacerts(files, paths[i], maxBytes);
      r := r + [RuntimeStore(Java, JavaCacerts, Some(paths[i]), [paths[i]], Standalone, c.pems, c.partial, c.failure, c.code)];
    }
    assert paths[..|paths|] == paths;
  }

  // ---- from the bytes to the verdict ----

  /** The file was loaded within the cap, and these are its bytes. */
  ghost predicate Loads(files: Files, path: string, maxBytes: nat, data: bytes) {
    files.stat(path).Ok? && files.stat(path).value <= maxBytes && files.load(path) == Ok(data)
  }

  /** One run in which Java's stores were read off the file system. */
  ghost predicate RunOfJava(
    files: Files, patterns: seq<string>, found: seq<string>, maxBytes: nat, input: CrossCheckInput)
  {
    && Outcomes(input, Java) == JavaStoresOf(files, patterns, found, maxBytes)
    && (forall i, j :: 0 <= i < j < |found| ==> found[i] != found[j])
    && Java in input.runtimes && ReadCount(input.osStores) > 0
  }

  /** The verdict is about the keystore at the path. */
  ghost predicate About(f: Finding, path: string) {
    IsVerdict(f) && f.runtime == Java && f.locator == Some(path)
  }

  lemma CacertsShape(files: Files, path: string, maxBytes: nat)
    ensures var c := Cacerts(files, path, maxBytes);
      && (c.failure.None? ==> files.load(path).Ok? && Loads(files, path, maxBytes, files.load(path).value))
      && forall data :: Loads(files, path, maxBytes, data) ==>
           && c.pems == PemsOf(ReadOf(data).certificates) && c.partial == ReadOf(data).partial
           && (c.failure.None? <==> ReadOf(data).failure.None?)
  {
    hide Keystore.KeystoreMeaning;
  }

  /** The trust set of one keystore. */
  function SetAt(files: Files, path: string, maxBytes: nat): TrustSet {
    var c := Cacerts(files, path, maxBytes);
    TrustSet(Java, Some(path), c.pems, c.partial)
  }

  lemma {:induction false} ReadableAre(outcomes: seq<RuntimeStore>, combines: Combines)
    ensures forall s :: s in Readable(outcomes, combines) <==> s in outcomes && IsReadable(s) && s.combines == combines
  {
    if outcomes != [] {
      ReadableAre(outcomes[1..], combines);
      assert forall s :: s in outcomes <==> s == outcomes[0] || s in outcomes[1..];
    }
  }

  lemma {:induction false} NoneOfKind(outcomes: seq<RuntimeStore>, combines: Combines)
    requires forall s :: s in outcomes ==> s.combines != combines
    ensures Readable(outcomes, combines) == []
  {
    if outcomes != [] {
      NoneOfKind(outcomes[1..], combines);
    }
  }

  /** Standalone stores are one trust set each, of exactly what they hold. */
  lemma StandaloneSets(runtime: Runtime, outcomes: seq<RuntimeStore>)
    requires forall s :: s in outcomes ==> s.combines == Standalone
    ensures forall t :: t in TrustSets(runtime, outcomes) <==>
      exists s :: s in outcomes && IsReadable(s) && t == TrustSet(runtime, s.locator, s.pems, s.partial)
  {
    hide Readable, SetsFrom, IsReadable;
    NoneOfKind(outcomes, AddsTo);
    NoneOfKind(outcomes, Replaces);
    ReadableAre(outcomes, Standalone);
    var bases := Readable(outcomes, Standalone);
    SetsFromShape(runtime, bases, [], false);
    forall i | 0 <= i < |bases| ensures bases[i].pems + [] == bases[i].pems && bases[i] in bases {
    }
    var sets := TrustSets(runtime, outcomes);
    assert PemsOfAll([]) == [] && !AnyPartial([]);
    assert sets == SetsFrom(runtime, bases, [], false);
    forall t | t in sets
      ensures exists s :: s in outcomes && IsReadable(s) && t == TrustSet(runtime, s.locator, s.pems, s.partial)
    {
      var i :| 0 <= i < |sets| && sets[i] == t;
      assert bases[i] in outcomes;
    }
    forall s | s in outcomes && IsReadable(s) ensures TrustSet(runtime, s.locator, s.pems, s.partial) in sets {
      var i :| 0 <= i < |bases| && bases[i] == s;
      assert sets[i] in sets;
    }
  }

  lemma JavaOutcomes(files: Files, patterns: seq<string>, found: seq<string>, maxBytes: nat)
    ensures forall s :: s in JavaStoresOf(files, patterns, found, maxBytes) ==>
      s.combines == Standalone && s.kind == JavaCacerts
      && (s.failure.None? ==> exists path :: path in Capped(found) && s == JavaStore(files, path, maxBytes))
    ensures forall path :: path in Capped(found) ==>
      JavaStore(files, path, maxBytes) in JavaStoresOf(files, patterns, found, maxBytes)
  {
    hide Cacerts;
    if found != [] {
      var all := JavaStoreEach(files, Capped(found), maxBytes);
      forall s | s in all ensures exists path :: path in Capped(found) && s == JavaStore(files, path, maxBytes) {
        var i :| 0 <= i < |all| && all[i] == s;
        assert Capped(found)[i] in Capped(found);
      }
      forall path | path in Capped(found) ensures JavaStore(files, path, maxBytes) in all {
        var i :| 0 <= i < |all| && Capped(found)[i] == path;
        assert all[i] in all;
      }
    }
  }

  /** Java's trust sets are its readable keystores. */
  lemma JavaTrustSets(files: Files, patterns: seq<string>, found: seq<string>, maxBytes: nat, input: CrossCheckInput)
    requires RunOfJava(files, patterns, found, maxBytes, input)
    ensures !HasVerifier(Outcomes(input, Java))
    ensures forall t :: t in TrustSets(Java, Outcomes(input, Java)) <==>
      exists path :: path in Capped(found) && Cacerts(files, path, maxBytes).failure.None? && t == SetAt(files, path, maxBytes)
  {
    hide Outcomes, JavaStoresOf, TrustSets, Cacerts, Capped;
    var outcomes := JavaStoresOf(files, patterns, found, maxBytes);
    JavaOutcomes(files, patterns, found, maxBytes);
    StandaloneSets(Java, outcomes);
    forall path | path in Capped(found) && Cacerts(files, path, maxBytes).failure.None?
      ensures SetAt(files, path, maxBytes) in TrustSets(Java, outcomes)
    {
      var s := JavaStore(files, path, maxBytes);
      assert s in outcomes && IsReadable(s);
    }
  }

  /** A keystore that cannot be used is not judged. */
  lemma UnusableIsNotJudged(
    x: X509, files: Files, patterns: seq<string>, found: seq<string>, maxBytes: nat, input: CrossCheckInput, path: string)
    requires RunOfJava(files, patterns, found, maxBytes, input) && Verdict(x, input).Ok?
    requires Cacerts(files, path, maxBytes).failure.Some?
    ensures forall f :: f in Verdict(x, input).value ==> !About(f, path)
  {
    hide Verdict, SaidOf, Cacerts, TrustSets, RunOfJava, HasVerifier, Outcomes;
    VerdictsAreSaid(x, input);
    ThrowsExactlyWhen(x, input);
    JavaTrustSets(files, patterns, found, maxBytes, input);
    forall f | f in Verdict(x, input).value && IsVerdict(f) ensures !About(f, path) {
      var runtime, s :| Judged(input, runtime, s) && SaidOf(x, input, s, f);
      SaidUnderItsName(x, input, runtime, s, f);
    }
  }

  /**
   * What the report says of the keystore at a path, for any bytes in it: nothing when the reader
   * fails on them; that its roots are all present exactly when nothing was skipped and every root
   * that the machine adds is among the certificates read; that roots are missing exactly when one
   * is not; and a blocker only when nothing was skipped.
   */
  lemma KeystoreVerdict(
    x: X509, files: Files, patterns: seq<string>, found: seq<string>, maxBytes: nat, input: CrossCheckInput,
    path: string, data: bytes)
    requires RunOfJava(files, patterns, found, maxBytes, input) && Verdict(x, input).Ok?
    requires path in Capped(found) && Loads(files, path, maxBytes, data)
    ensures ReadOf(data).failure.Some? ==> forall f :: f in Verdict(x, input).value ==> !About(f, path)
    ensures ReadOf(data).failure.None? ==> var lacks := Added(x, input) - DerSet(x, PemsOf(ReadOf(data).certificates));
      && ((exists f :: f in Verdict(x, input).value && About(f, path) && f.RootsPresent?) <==>
            lacks == {} && !ReadOf(data).partial)
      && ((exists f :: f in Verdict(x, input).value && About(f, path) && f.MissingRoot?) <==> lacks != {})
      && (forall f :: f in Verdict(x, input).value && About(f, path) && f.MissingRoot? ==>
            f.missing == |lacks|
            && (f.severity == Blocker <==> Tied(x, lacks, input.observedAnchors) && !ReadOf(data).partial))
  {
    hide Verdict, Evidence, DerSet, TrustSets, ReadOf, Cacerts, HasVerifier, Outcomes, PemsOf, Capped, JavaStoresOf;
    CacertsShape(files, path, maxBytes);
    if ReadOf(data).failure.Some? {
      UnusableIsNotJudged(x, files, patterns, found, maxBytes, input, path);
    } else {
      var set_ := SetAt(files, path, maxBytes);
      JavaTrustSets(files, patterns, found, maxBytes, input);
      VerdictNamed(x, input, set_);
      assert forall f :: NamedAfter(f, set_) <==> About(f, path);
    }
  }

  /**
   * A keystore that could not be used is reported with the reader's own word for why, and one that
   * was used in part as such; one whose file is not there is not reported.
   */
  lemma UnusableIsReported(
    x: X509, files: Files, patterns: seq<string>, found: seq<string>, maxBytes: nat, input: CrossCheckInput,
    path: string, data: bytes)
    requires RunOfJava(files, patterns, found, maxBytes, input) && Verdict(x, input).Ok?
    requires path in Capped(found) && Loads(files, path, maxBytes, data)
    ensures var fs, failure := Verdict(x, input).value, ReadOf(data).failure;
      && (failure == Some(Keystore.UnsupportedFormat) ==> JavaStoreUnreadable(false, Some(UnsupportedFormat)) in fs)
      && (failure == Some(Keystore.UnsupportedEncoding) ==> JavaStoreUnreadable(false, Some(UnsupportedEncoding)) in fs)
      && (failure == Some(Keystore.Truncated) ==> JavaStoreUnreadable(false, Some(Truncated)) in fs)
      && (failure == Some(Keystore.Encrypted) ==> JavaStoreUnreadable(false, Some(Encrypted)) in fs)
      && (failure == Some(Keystore.NoCertificates) ==> JavaStoreUnreadable(false, Some(NoCertificatesInStore)) in fs)
      && (ReadOf(data).partial && failure.None? ==> JavaStoreUnreadable(true, None) in fs)
  {
    hide Verdict, ReadOf, JavaStoresOf, Capped, PemsOf, OutcomesOf, SaidOfStore;
    var s := JavaStore(files, path, maxBytes);
    JavaOutcomes(files, patterns, found, maxBytes);
    OutcomesAre(input.runtimeStores, Java);
    assert Outcomes(input, Java) == OutcomesOf(input.runtimeStores, Java);
    assert s in input.runtimeStores && s.runtime == Java;
    FactsAre(x, input);
    assert SaidOfOutcome(Java, s, JavaStoreUnreadable(s.failure.None? && s.partial, s.failure)) <==>
      s.partial || (s.failure.Some? && s.failure != Some(NotFound));
  }

  /** A keystore whose file could not be read is told apart from one that is too large and one that is not there. */
  lemma UnreadFileFailsFor(files: Files, path: string, maxBytes: nat)
    requires forall data :: !Loads(files, path, maxBytes, data)
    ensures var c := Cacerts(files, path, maxBytes);
      && c.pems == [] && !c.partial
      && (files.stat(path) == Err(Some("ENOENT")) ==> c.failure == Some(NotFound) && c.code == Some("ENOENT"))
      && (files.stat(path).Err? && files.stat(path).error != Some("ENOENT") ==>
            c.failure == Some(Unreadable) && c.code == files.stat(path).error)
      && (files.stat(path).Ok? && files.stat(path).value > maxBytes ==> c.failure == Some(TooLarge) && c.code == None)
      && (files.stat(path).Ok? && files.stat(path).value <= maxBytes ==>
            files.load(path).Err? && c.failure == Some(Unreadable) && c.code == files.load(path).error)
  {
    hide Keystore.KeystoreMeaning;
    if files.load(path).Ok? {
      assert !Loads(files, path, maxBytes, files.load(path).value);
    }
  }

  /** With no keystore found, the report says that Java was not found and gives it no verdict. */
  lemma JavaIsNotFound(
    x: X509, files: Files, patterns: seq<string>, maxBytes: nat, input: CrossCheckInput)
    requires RunOfJava(files, patterns, [], maxBytes, input) && Verdict(x, input).Ok?
    ensures StoreNotFound(Java) in Verdict(x, input).value
    ensures forall f :: f in Verdict(x, input).value && IsVerdict(f) ==> f.runtime != Java
  {
    hide Verdict, OutcomesOf, Judged, SaidOf, RunOfJava, AsksOs, NowhereFound;
    NoKeystoreNowhere(files, patterns, maxBytes, input);
    RuntimeFactsAre(x, input, Java);
    VerdictsAreSaid(x, input);
    ThrowsExactlyWhen(x, input);
    NotFoundIsNotJudged(files, patterns, maxBytes, input);
    forall f | f in Verdict(x, input).value && IsVerdict(f) ensures f.runtime != Java {
      var runtime, s :| Judged(input, runtime, s) && SaidOf(x, input, s, f);
      SaidUnderItsName(x, input, runtime, s, f);
    }
  }

  lemma NoKeystoreNowhere(files: Files, patterns: seq<string>, maxBytes: nat, input: CrossCheckInput)
    requires RunOfJava(files, patterns, [], maxBytes, input)
    ensures Java in input.runtimes && !AsksOs(input, Java) && NowhereFound(input, Java)
  {
    hide OutcomesOf;
    OutcomesAre(input.runtimeStores, Java);
  }

  lemma NotFoundIsNotJudged(files: Files, patterns: seq<string>, maxBytes: nat, input: CrossCheckInput)
    requires RunOfJava(files, patterns, [], maxBytes, input)
    ensures forall s :: !Judged(input, Java, s)
  {
    hide TrustSets;
    TrustSetsAre(Java, JavaStoresOf(files, patterns, [], maxBytes));
  }

  /** The reader passed over an encrypted content of a PKCS#12 store, or the store is one. */
  ghost predicate PassedOver(data: bytes) {
    var got := Keystore.GatherPkcs12(data, Keystore.MAX_DER_DEPTH);
    && ReadOf(data).format == Some(Keystore.Pkcs12)
    && (got == Err(Keystore.Encrypted) || (got.Ok? && got.value.sawEncrypted))
  }

  lemma PassedOverIsPartial(data: bytes)
    requires PassedOver(data)
    ensures ReadOf(data).partial || ReadOf(data).failure == Some(Keystore.Encrypted)
  {
    hide Keystore.GatherPkcs12, Keystore.JksMeaning;
    KeystoreLaws.JksShape(data);
  }

  /**
   * Whatever bytes a keystore holds, when the reader passed over something encrypted in it, the
   * report never says that its roots are all present and never blocks on what it lacks.
   */
  lemma PassedOverIsNeverClean(
    x: X509, files: Files, patterns: seq<string>, found: seq<string>, maxBytes: nat, input: CrossCheckInput,
    path: string, data: bytes)
    requires RunOfJava(files, patterns, found, maxBytes, input) && Verdict(x, input).Ok?
    requires path in Capped(found) && Loads(files, path, maxBytes, data) && PassedOver(data)
    ensures forall f :: f in Verdict(x, input).value && About(f, path) ==> f.MissingRoot? && f.severity != Blocker
  {
    hide Verdict, Evidence, DerSet, ReadOf, RunOfJava, PemsOf, Capped, PassedOver, Loads;
    PassedOverIsPartial(data);
    KeystoreVerdict(x, files, patterns, found, maxBytes, input, path, data);
  }

  /**
   * From a printed JKS file to the verdict: Java is told that this keystore has every root exactly
   * when each root that the machine adds is one of its first 4096 trusted certificates; what its
   * key entries carry counts for nothing.
   */
  lemma TrustedEntriesCount(
    x: X509, files: Files, patterns: seq<string>, found: seq<string>, maxBytes: nat, input: CrossCheckInput,
    path: string, version: bytes, entries: seq<KeystoreRoundTrip.JksEntry>, trailer: bytes)
    requires RunOfJava(files, patterns, found, maxBytes, input) && Verdict(x, input).Ok? && path in Capped(found)
    requires |version| == 4 && |entries| < KeystoreRoundTrip.MAX_UINT32 && KeystoreRoundTrip.ValidEntries(entries)
    requires Loads(files, path, maxBytes, KeystoreRoundTrip.PrintJks(version, entries, trailer))
    requires StoreLaws.ReadsBack(x, KeystoreRoundTrip.Capped(KeystoreRoundTrip.TrustedCerts(entries)))
    ensures var roots := KeystoreRoundTrip.Capped(KeystoreRoundTrip.TrustedCerts(entries));
      (exists f :: f in Verdict(x, input).value && About(f, path) && f.RootsPresent?) <==>
        roots != [] && Added(x, input) <= Elements(roots)
  {
    hide Verdict, Evidence, DerSet, RunOfJava, PemsOf, Capped, Loads, Keystore.KeystoreMeaning, KeystoreRoundTrip.PrintJks,
         KeystoreRoundTrip.TrustedCerts, KeystoreRoundTrip.Capped, StoreLaws.ReadsBack;
    KeystoreRoundTrip.JksRoundTrip(version, entries, trailer);
    var data := KeystoreRoundTrip.PrintJks(version, entries, trailer);
    var roots := KeystoreRoundTrip.Capped(KeystoreRoundTrip.TrustedCerts(entries));
    KeystoreVerdict(x, files, patterns, found, maxBytes, input, path, data);
    StoreLaws.DersOfPems(x, roots);
    NothingLeft(Added(x, input), Elements(roots));
  }

  /**
   * The same from a printed PKCS#12 file: every root that the machine adds is among its x509
   * certificates in plain contents, and no encrypted content stood before the cap was reached.
   */
  lemma PlainContentsCount(
    x: X509, files: Files, patterns: seq<string>, found: seq<string>, maxBytes: nat, input: CrossCheckInput, path: string,
    forms: Store.Forms, version: bytes, contents: seq<Store.Content>, macData: bytes, trailer: bytes)
    requires RunOfJava(files, patterns, found, maxBytes, input) && Verdict(x, input).Ok? && path in Capped(found)
    requires Store.ValidForms(forms) && Store.ValidContents(contents)
    requires |Store.PfxBody(forms, version, Store.SafeBody(forms, contents), macData)| < KeystoreRoundTrip.MAX_UINT32
    requires Loads(files, path, maxBytes, Store.PrintPfx(forms, version, contents, macData, trailer))
    requires StoreLaws.ReadsBack(x, KeystoreRoundTrip.Capped(Store.StoreCerts(contents)))
    ensures var roots := KeystoreRoundTrip.Capped(Store.StoreCerts(contents));
      (exists f :: f in Verdict(x, input).value && About(f, path) && f.RootsPresent?) <==>
        roots != [] && Added(x, input) <= Elements(roots)
        && !Store.SealedWithin(contents, KeystoreRoundTrip.MOST)
  {
    hide Verdict, Evidence, DerSet, RunOfJava, PemsOf, Capped, Loads, Keystore.KeystoreMeaning, Store.PrintPfx, Store.PfxBody,
         Store.SafeBody, Store.StoreCerts, Store.SealedWithin, KeystoreRoundTrip.Capped, StoreLaws.ReadsBack;
    Store.Pkcs12RoundTrip(forms, version, contents, macData, trailer);
    var data := Store.PrintPfx(forms, version, contents, macData, trailer);
    var roots := KeystoreRoundTrip.Capped(Store.StoreCerts(contents));
    KeystoreVerdict(x, files, patterns, found, maxBytes, input, path, data);
    StoreLaws.DersOfPems(x, roots);
    NothingLeft(Added(x, input), Elements(roots));
  }

  lemma NothingLeft<T>(a: set<T>, b: set<T>)
    ensures a - b == {} <==> a <= b
  {
    if a - b == {} {
      forall d | d in a ensures d in b {
        assert d !in a - b;
      }
    }
  }
}
