/** The anchor a captured chain hands to the cross-check (src/probes/tls/evaluate.ts). */
module TlsAnchor {
  import opened Wrappers
  import opened Bits
  import opened RootIndex
  import opened StoreTypes
  import PublicRoots
  import opened CrossCheck
  import opened CrossCheckLaws

  type Cert = PublicRoots.Cert

  /** One handshake's certificates, leaf first, exactly as presented. */
  datatype Capture = Capture(chainDer: seq<bytes>, host: string, via: Via)

  /** The parser: what it makes of presented bytes, and the names in the certificate it finds there. */
  datatype Parser = Parser(decode: bytes -> Option<bytes>, names: bytes -> Names)

  function CertOf(names: bytes -> Names, der: bytes): Cert {
    PublicRoots.Cert(der, names(der).canonicalSubject, names(der).canonicalIssuer)
  }

  /** The whole chain, or nothing when one certificate in it does not parse. */
  function ChainOf(p: Parser, chainDer: seq<bytes>): (r: Option<seq<Cert>>)
    ensures r.Some? ==> |r.value| == |chainDer|
  {
    if chainDer == [] then Some([])
    else
      var before := ChainOf(p, chainDer[..|chainDer| - 1]);
      var last := p.decode(chainDer[|chainDer| - 1]);
      if before.Some? && last.Some? then Some(before.value + [CertOf(p.names, last.value)]) else None
  }

  method ParseChain(p: Parser, chainDer: seq<bytes>) returns (r: Option<seq<Cert>>)
    ensures r == ChainOf(p, chainDer)
  {
    var chain: seq<Cert> := [];
    for i := 0 to |chainDer|
      invariant ChainOf(p, chainDer[..i]) == Some(chain)
    {
      assert chainDer[..i + 1][..i] == chainDer[..i];
      var der := p.decode(chainDer[i]);
      if der.None? {
        BrokenChain(p, chainDer, i + 1);
        return None;
      }
      chain := chain + [CertOf(p.names, der.value)];
    }
    assert chainDer[..|chainDer|] == chainDer;
    r := Some(chain);
  }

  lemma {:induction false} BrokenChain(p: Parser, chainDer: seq<bytes>, n: nat)
    requires n <= |chainDer| && ChainOf(p, chainDer[..n]).None?
    ensures ChainOf(p, chainDer).None?
    decreases |chainDer|
  {
    if n == |chainDer| {
      assert chainDer[..n] == chainDer;
    } else {
      var init := chainDer[..|chainDer| - 1];
      assert init[..n] == chainDer[..n];
      BrokenChain(p, init, n);
    }
  }

  /** The end of the issuance path, unless the verdict is public; its bytes only where the peer sent the anchor itself. */
  function ObservedIn(chain: seq<Cert>, verdict: PublicRoots.RootVerdict, host: string, via: Via): Option<ObservedAnchor>
    requires verdict.path != [] && PublicRoots.InRange(chain, verdict.path)
  {
    if verdict.class_ == PublicRoots.Public then None
    else
      var terminus := chain[verdict.path[|verdict.path| - 1]];
      Some(ObservedAnchor(
        if verdict.reason == PublicRoots.SelfSignedAnchorNotBundled then Some(terminus.der) else None,
        terminus.issuer, terminus.subject, host, via,
        if verdict.class_ == PublicRoots.Private then PrivateAnchor else IndeterminateAnchor))
  }

  /** The anchor of one evaluated capture. */
  function AnchorOf(p: Parser, roots: CertificateIndex, capture: Capture): Option<ObservedAnchor> {
    var chain := ChainOf(p, capture.chainDer);
    if chain.None? || chain.value == [] then None
    else ObservedIn(chain.value, PublicRoots.VerdictOf(chain.value, roots), capture.host, capture.via)
  }

  method EvaluateChain(p: Parser, roots: CertificateIndex, capture: Capture) returns (anchor: Option<ObservedAnchor>)
    ensures anchor == AnchorOf(p, roots, capture)
  {
    if capture.chainDer == [] { return None; }
    var chain := ParseChain(p, capture.chainDer);
    if chain.None? { return None; }
    var verdict := PublicRoots.ClassifyRoot(chain.value, roots);
    anchor := ObservedIn(chain.value, verdict, capture.host, capture.via);
  }

  /** Every anchor a run's captures hand on, in capture order. */
  function AnchorsSeen(p: Parser, roots: CertificateIndex, captures: seq<Capture>): seq<ObservedAnchor> {
    if captures == [] then []
    else
      var last := AnchorOf(p, roots, captures[|captures| - 1]);
      AnchorsSeen(p, roots, captures[..|captures| - 1]) + if last.Some? then [last.value] else []
  }

  method CollectAnchors(p: Parser, roots: CertificateIndex, captures: seq<Capture>) returns (anchors: seq<ObservedAnchor>)
    ensures anchors == AnchorsSeen(p, roots, captures)
  {
    anchors := [];
    for i := 0 to |captures|
      invariant anchors == AnchorsSeen(p, roots, captures[..i])
    {
      assert captures[..i + 1][..i] == captures[..i];
      var anchor := EvaluateChain(p, roots, captures[i]);
      if anchor.Some? { anchors := anchors + [anchor.value]; }
    }
    assert captures[..|captures|] == captures;
  }

  // ---- what an anchor means ----

  /** No certificate on the chain's issuance path is in the bundle. */
  ghost predicate NothingBundled(chain: seq<Cert>, roots: CertificateIndex) {
    forall i :: i in PublicRoots.PathOf(chain) ==> !roots.HasCertificate(chain[i].der)
  }

  /**
   * A chain hands an anchor on exactly when nothing on its path is bundled. The anchor carries
   * bytes exactly when the terminus is self-signed, and they are the terminus's own; it is
   * private unless a bundled root has the name the terminus points at.
   */
  lemma AnchorMeans(p: Parser, roots: CertificateIndex, capture: Capture)
    requires ChainOf(p, capture.chainDer).Some? && capture.chainDer != []
    ensures var chain := ChainOf(p, capture.chainDer).value;
      var terminus := PublicRoots.Terminus(chain);
      var anchor := AnchorOf(p, roots, capture);
      && (anchor.Some? <==> NothingBundled(chain, roots))
      && (anchor.Some? ==>
            && anchor.value.der == (if PublicRoots.SelfSigned(terminus) then Some(terminus.der) else None)
            && anchor.value.canonicalIssuer == terminus.issuer && anchor.value.canonicalSubject == terminus.subject
            && anchor.value.host == capture.host && anchor.value.via == capture.via
            && (anchor.value.anchorClass == PrivateAnchor <==>
                  PublicRoots.SelfSigned(terminus) || !roots.HasSubject(terminus.issuer)))
  {
    hide PublicRoots.PathOf, PublicRoots.FirstBundled, ChainOf, NothingBundled;
    BundledOnPath(ChainOf(p, capture.chainDer).value, roots);
  }

  lemma BundledOnPath(chain: seq<Cert>, roots: CertificateIndex)
    requires chain != []
    ensures NothingBundled(chain, roots) <==> PublicRoots.FirstBundled(chain, roots, PublicRoots.PathOf(chain), 0) == |chain|
  {
    hide PublicRoots.PathOf;
    PublicRoots.BundledIffOnPath(chain, roots);
    var path := PublicRoots.PathOf(chain);
    var certs := PublicRoots.CertsAt(chain, path);
    if !NothingBundled(chain, roots) {
      var i :| i in path && roots.HasCertificate(chain[i].der);
      var k :| 0 <= k < |path| && path[k] == i;
      assert certs[k] in certs;
    } else {
      forall c | c in certs ensures !roots.HasCertificate(c.der) {
        var k :| 0 <= k < |certs| && certs[k] == c;
        assert path[k] in path;
      }
    }
  }

  lemma {:induction false} SeenIffHanded(p: Parser, roots: CertificateIndex, captures: seq<Capture>, o: ObservedAnchor)
    ensures o in AnchorsSeen(p, roots, captures) <==> exists c :: c in captures && AnchorOf(p, roots, c) == Some(o)
  {
    if captures != [] {
      var init, last := captures[..|captures| - 1], captures[|captures| - 1];
      assert captures == init + [last];
      SeenIffHanded(p, roots, init, o);
      assert forall c :: c in captures <==> c in init || c == last;
    }
  }

  // ---- across the two probes ----

  /** The run's tls probe used the same bundle, and handed on what its captures showed. */
  ghost predicate Fed(x: X509, p: Parser, captures: seq<Capture>, input: CrossCheckInput) {
    && x.names == p.names
    && IndexOf(x, input.publicRootPems).Ok?
    && input.observedAnchors == AnchorsSeen(p, IndexOf(x, input.publicRootPems).value, captures)
  }

  /** The chain a capture presented, when it parses. */
  ghost predicate Presents(p: Parser, capture: Capture, chain: seq<Cert>) {
    chain != [] && ChainOf(p, capture.chainDer) == Some(chain)
  }

  /**
   * A capture ends in a self-signed root with nothing bundled on its path, a read OS store holds
   * that root, and a judged trust set that was read in full lacks it.
   */
  ghost predicate Intercepted(
    x: X509, p: Parser, input: CrossCheckInput, capture: Capture, chain: seq<Cert>, runtime: Runtime, set_: TrustSet)
    requires IndexOf(x, input.publicRootPems).Ok?
  {
    && Presents(p, capture, chain)
    && PublicRoots.SelfSigned(PublicRoots.Terminus(chain))
    && NothingBundled(chain, IndexOf(x, input.publicRootPems).value)
    && PublicRoots.Terminus(chain).der in Evidence(x, input.osStores)
    && Judged(input, runtime, set_) && !set_.partial
    && PublicRoots.Terminus(chain).der !in DerSet(x, set_.pems)
  }

  /** From the wire to a blocker: whenever a capture was intercepted, that set's finding is a blocker. */
  lemma InterceptionBlocks(
    x: X509, p: Parser, captures: seq<Capture>, input: CrossCheckInput, capture: Capture, chain: seq<Cert>,
    runtime: Runtime, set_: TrustSet)
    requires Fed(x, p, captures, input) && capture in captures
    ensures Verdict(x, input).Ok? && Intercepted(x, p, input, capture, chain, runtime, set_) ==>
      exists f :: Blocks(x, input, set_, f)
  {
    hide Verdict, Blocks;
    if Verdict(x, input).Ok? && Intercepted(x, p, input, capture, chain, runtime, set_) {
      var roots := IndexOf(x, input.publicRootPems).value;
      var root := PublicRoots.Terminus(chain).der;
      AnchorMeans(p, roots, capture);
      var o := AnchorOf(p, roots, capture).value;
      SeenIffHanded(p, roots, captures, o);
      TerminusNotPublic(x, input, chain);
      BlockerIsComplete(x, input, runtime, set_, o, root);
    }
  }

  lemma TerminusNotPublic(x: X509, input: CrossCheckInput, chain: seq<Cert>)
    requires chain != [] && IndexOf(x, input.publicRootPems).Ok?
    requires NothingBundled(chain, IndexOf(x, input.publicRootPems).value)
    ensures PublicRoots.Terminus(chain).der !in DerSet(x, input.publicRootPems)
  {
    var path := PublicRoots.PathOf(chain);
    assert path[|path| - 1] in path;
    InKeySet(x, input.publicRootPems, PublicRoots.Terminus(chain).der);
  }

  /** A capture whose chain ends at `root`, or points past its end at `root`'s name. */
  ghost predicate LeadsTo(p: Parser, roots: CertificateIndex, capture: Capture, chain: seq<Cert>, root: bytes) {
    && Presents(p, capture, chain) && NothingBundled(chain, roots)
    && var terminus := PublicRoots.Terminus(chain);
      || (PublicRoots.SelfSigned(terminus) && terminus.der == root)
      || ((PublicRoots.SelfSigned(terminus) || !roots.HasSubject(terminus.issuer))
          && terminus.issuer == p.names(root).canonicalSubject)
  }

  /**
   * From a blocker back to the wire: it rests on a root that the machine adds, that the judged
   * trust set it names, read in full, lacks, and that some captured chain ends at or names, with
   * nothing bundled on that chain's path.
   */
  lemma BlockerWasSeen(x: X509, p: Parser, captures: seq<Capture>, input: CrossCheckInput, f: Finding)
    requires Fed(x, p, captures, input) && Verdict(x, input).Ok?
    requires f in Verdict(x, input).value && f.MissingRoot? && f.severity == Blocker
    ensures exists capture, chain, root, runtime, set_ ::
      && capture in captures && LeadsTo(p, IndexOf(x, input.publicRootPems).value, capture, chain, root)
      && Judged(input, runtime, set_) && f.runtime == set_.runtime && f.locator == set_.locator && !set_.partial
      && root in MissingFrom(x, input, set_) && root in f.listed
  {
    hide Evidence, DerSet, Verdict;
    var roots := IndexOf(x, input.publicRootPems).value;
    BlockerIsSound(x, input, f);
    var runtime, set_ :| Judged(input, runtime, set_) && BlockerRestsOn(x, input, set_, f);
    var c := f.correlation.value;
    SeenIffHanded(p, roots, captures, c.anchor);
    var capture :| capture in captures && AnchorOf(p, roots, capture) == Some(c.anchor);
    var chain := ChainOf(p, capture.chainDer).value;
    AnchorMeans(p, roots, capture);
    assert Presents(p, capture, chain);
    assert LeadsTo(p, roots, capture, chain, c.matched);
  }
}
