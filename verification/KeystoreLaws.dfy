/**
 * Laws of the keystore reader that hold of every byte string: the shape of its result, the
 * nesting guard that never fires, and stability under appended bytes.
 */
module KeystoreLaws {
  import opened Wrappers
  import opened Bits
  import opened Keystore

  // ---- the shape of the result ----

  /** `c` is a contiguous run of `b`. */
  ghost predicate IsSlice(c: bytes, b: bytes) {
    exists i, j :: 0 <= i <= j <= |b| && c == b[i..j]
  }

  ghost predicate AllSlices(cs: seq<bytes>, b: bytes) {
    forall k :: 0 <= k < |cs| ==> IsSlice(cs[k], b)
  }

  /** The certificates are the bytes under spans that follow one another without overlap. */
  ghost predicate OrderedDisjointSlices(cs: seq<bytes>, b: bytes) {
    exists spans: seq<Span> :: OrderedWithin(spans, |b|) && cs == Slices(b, spans)
  }

  /**
   * For every input: certificates are empty exactly when there is a failure, `partial` is only
   * ever said of a PKCS#12 file that gave a certificate, there are at most 4096 certificates,
   * each is a contiguous run of the input, and those of a JKS file are in order and disjoint.
   */
  lemma ResultShape(b: bytes)
    ensures var read := KeystoreMeaning(b, MAX_DER_DEPTH);
      && (read.certificates == [] <==> read.failure.Some?)
      && (read.partial ==> read.format == Some(Pkcs12) && read.certificates != [])
      && |read.certificates| <= MAX_KEYSTORE_CERTIFICATES
      && AllSlices(read.certificates, b)
      && (read.format == Some(Jks) ==> OrderedDisjointSlices(read.certificates, b))
      && (read.format.None? ==> read.failure == Some(UnsupportedFormat))
  {
    if |b| >= 4 {
      JksShape(b);
      Pkcs12Shape(b);
    }
  }

  lemma JksShape(b: bytes)
    ensures JksMeaning(b).Ok? ==> var read := JksMeaning(b).value;
      && read == JksRead(read.certificates)
      && |read.certificates| <= MAX_KEYSTORE_CERTIFICATES
      && AllSlices(read.certificates, b)
      && OrderedDisjointSlices(read.certificates, b)
    ensures OrderedDisjointSlices([], b)
  {
    assert OrderedWithin([], |b|) && Slices(b, []) == [];
    if JksSpans(b).Ok? {
      var spans := JksSpans(b).value;
      assert OrderedWithin(spans, |b|);
      var certificates := Slices(b, spans);
      assert AllSlices(certificates, b);
    }
  }

  lemma Pkcs12Shape(b: bytes)
    ensures Pkcs12Meaning(b, MAX_DER_DEPTH).Ok? ==> var certs := Pkcs12Meaning(b, MAX_DER_DEPTH).value.certificates;
      AllSlices(certs, b) && |certs| <= MAX_KEYSTORE_CERTIFICATES
  {
    if GatherPkcs12(b, MAX_DER_DEPTH).Ok? {
      var safe := AuthSafe(b, MAX_DER_DEPTH).value;
      AuthSafeIsSlice(b, MAX_DER_DEPTH);
      var contents := Expect(safe, 0, 3, MAX_DER_DEPTH, TAG_SEQUENCE, Truncated).value;
      SafeGathersSlices(b, safe, contents.start, contents.end, Gathered([], false), MAX_DER_DEPTH);
    }
  }

  lemma SliceTrans(a: bytes, b: bytes, c: bytes)
    requires IsSlice(a, b) && IsSlice(b, c)
    ensures IsSlice(a, c)
  {
    var i, j :| 0 <= i <= j <= |c| && b == c[i..j];
    var s, e :| 0 <= s <= e <= |b| && a == b[s..e];
    SliceOfSlice(c, i, j, s, e);
  }

  lemma OctetsAreSlice(b: bytes, start: nat, depth: nat, cap: nat)
    ensures var r := ReadContentInfoOctets(b, start, depth, cap); r.Ok? ==> IsSlice(r.value, b)
  {
  }

  lemma AuthSafeIsSlice(b: bytes, cap: nat)
    ensures AuthSafe(b, cap).Ok? ==> IsSlice(AuthSafe(b, cap).value, b)
  {
  }

  lemma ExtractedIsSlice(b: bytes, start: nat, depth: nat, cap: nat)
    ensures var r := ExtractCertFromBag(b, start, depth, cap); r.Ok? && r.value.Some? ==> IsSlice(r.value.value, b)
  {
  }

  lemma {:induction false} BagsAreSlices(whole: bytes, b: bytes, pos: nat, end: nat, certs: seq<bytes>, cap: nat)
    requires IsSlice(b, whole) && AllSlices(certs, whole) && |certs| <= MAX_KEYSTORE_CERTIFICATES
    ensures var r := ReadBags(b, pos, end, certs, cap);
      r.Ok? ==> AllSlices(r.value, whole) && |r.value| <= MAX_KEYSTORE_CERTIFICATES
    decreases end - pos
  {
    if ReadBags(b, pos, end, certs, cap).Ok? && pos < end && |certs| < MAX_KEYSTORE_CERTIFICATES {
      var bag := Expect(b, pos, 7, cap, TAG_SEQUENCE, Truncated).value;
      var cert := ExtractCertFromBag(b, bag.start, 8, cap).value;
      if cert.Some? {
        ExtractedIsSlice(b, bag.start, 8, cap);
        SliceTrans(cert.value, b, whole);
      }
      BagsAreSlices(whole, b, bag.end, end, WithBag(certs, cert), cap);
    }
  }

  lemma {:induction false} SafeGathersSlices(whole: bytes, b: bytes, pos: nat, end: nat, got: Gathered, cap: nat)
    requires IsSlice(b, whole) && AllSlices(got.certs, whole) && |got.certs| <= MAX_KEYSTORE_CERTIFICATES
    ensures var r := ReadSafe(b, pos, end, got, cap);
      r.Ok? ==> AllSlices(r.value.certs, whole) && |r.value.certs| <= MAX_KEYSTORE_CERTIFICATES
    decreases end - pos
  {
    if ReadSafe(b, pos, end, got, cap).Ok? && pos < end && |got.certs| < MAX_KEYSTORE_CERTIFICATES {
      var ci := Expect(b, pos, 4, cap, TAG_SEQUENCE, Truncated).value;
      var octets := ReadContentInfoOctets(b, ci.start, 5, cap);
      if octets.Ok? {
        OctetsAreSlice(b, ci.start, 5, cap);
        SliceTrans(octets.value, b, whole);
        var bags := Expect(octets.value, 0, 6, cap, TAG_SEQUENCE, Truncated).value;
        BagsAreSlices(whole, octets.value, bags.start, bags.end, got.certs, cap);
      }
      SafeGathersSlices(whole, b, ci.end, end, GatherOne(octets, got, cap).value, cap);
    }
  }

  // ---- the nesting guard ----

  const DEEPEST: nat := 11

  /**
   * No path of the walk is deeper than 11, so any cap of 11 or more - 16 in the source - reads
   * every input alike: the nesting guard never fires.
   */
  lemma DepthGuardNeverFires(b: bytes, cap: nat)
    requires cap >= DEEPEST
    ensures KeystoreMeaning(b, cap) == KeystoreMeaning(b, DEEPEST)
  {
    GatherIgnoresCap(b, cap);
  }

  lemma GatherIgnoresCap(b: bytes, cap: nat)
    requires cap >= DEEPEST
    ensures GatherPkcs12(b, cap) == GatherPkcs12(b, DEEPEST)
  {
    AuthSafeIgnoresCap(b, cap);
    if AuthSafe(b, DEEPEST).Ok? {
      var safe := AuthSafe(b, DEEPEST).value;
      ExpectIgnoresCap(safe, 0, 3, cap, TAG_SEQUENCE, Truncated);
      if Expect(safe, 0, 3, DEEPEST, TAG_SEQUENCE, Truncated).Ok? {
        var contents := Expect(safe, 0, 3, DEEPEST, TAG_SEQUENCE, Truncated).value;
        SafeIgnoresCap(safe, contents.start, contents.end, Gathered([], false), cap);
      }
    }
  }

  lemma ExpectIgnoresCap(b: bytes, o: nat, depth: nat, cap: nat, tag: byte, otherwise: Failure)
    requires cap >= DEEPEST >= depth
    ensures Expect(b, o, depth, cap, tag, otherwise) == Expect(b, o, depth, DEEPEST, tag, otherwise)
  {
  }

  lemma OctetsIgnoreCap(b: bytes, start: nat, depth: nat, cap: nat)
    requires cap >= DEEPEST > depth
    ensures ReadContentInfoOctets(b, start, depth, cap) == ReadContentInfoOctets(b, start, depth, DEEPEST)
  {
    var oid := Expect(b, start, depth, DEEPEST, TAG_OBJECT_IDENTIFIER, UnsupportedFormat);
    ExpectIgnoresCap(b, start, depth, cap, TAG_OBJECT_IDENTIFIER, UnsupportedFormat);
    if oid.Ok? {
      ExpectIgnoresCap(b, oid.value.end, depth, cap, TAG_CONTEXT_0, UnsupportedFormat);
      var wrapper := Expect(b, oid.value.end, depth, DEEPEST, TAG_CONTEXT_0, UnsupportedFormat);
      if wrapper.Ok? {
        ExpectIgnoresCap(b, wrapper.value.start, depth + 1, cap, TAG_OCTET_STRING, UnsupportedFormat);
      }
    }
  }

  lemma AuthSafeCiIgnoresCap(b: bytes, cap: nat)
    requires cap >= DEEPEST
    ensures AuthSafeCi(b, cap) == AuthSafeCi(b, DEEPEST)
  {
    ExpectIgnoresCap(b, 0, 0, cap, TAG_SEQUENCE, UnsupportedFormat);
    var pfx := Expect(b, 0, 0, DEEPEST, TAG_SEQUENCE, UnsupportedFormat);
    if pfx.Ok? {
      ExpectIgnoresCap(b, pfx.value.start, 1, cap, TAG_INTEGER, UnsupportedFormat);
      var version := Expect(b, pfx.value.start, 1, DEEPEST, TAG_INTEGER, UnsupportedFormat);
      if version.Ok? {
        ExpectIgnoresCap(b, version.value.end, 1, cap, TAG_SEQUENCE, UnsupportedFormat);
      }
    }
  }

  lemma AuthSafeIgnoresCap(b: bytes, cap: nat)
    requires cap >= DEEPEST
    ensures AuthSafe(b, cap) == AuthSafe(b, DEEPEST)
  {
    var ci := AuthSafeCi(b, DEEPEST);
    AuthSafeCiIgnoresCap(b, cap);
    if ci.Ok? {
      OctetsIgnoreCap(b, ci.value.start, 2, cap);
    }
  }

  lemma ExtractIgnoresCap(b: bytes, start: nat, cap: nat)
    requires cap >= DEEPEST
    ensures ExtractCertFromBag(b, start, 8, cap) == ExtractCertFromBag(b, start, 8, DEEPEST)
  {
    ExpectIgnoresCap(b, start, 8, cap, TAG_OBJECT_IDENTIFIER, Truncated);
    var bagId := Expect(b, start, 8, DEEPEST, TAG_OBJECT_IDENTIFIER, Truncated);
    if bagId.Ok? {
      ExpectIgnoresCap(b, bagId.value.end, 8, cap, TAG_CONTEXT_0, Truncated);
      var bagValue := Expect(b, bagId.value.end, 8, DEEPEST, TAG_CONTEXT_0, Truncated);
      if bagValue.Ok? {
        CertBagIgnoresCap(b, bagValue.value.start, cap);
      }
    }
  }

  lemma CertBagIgnoresCap(b: bytes, start: nat, cap: nat)
    requires cap >= DEEPEST
    ensures ExtractCertBag(b, start, 9, cap) == ExtractCertBag(b, start, 9, DEEPEST)
  {
    ExpectIgnoresCap(b, start, 9, cap, TAG_SEQUENCE, Truncated);
    var certBag := Expect(b, start, 9, DEEPEST, TAG_SEQUENCE, Truncated);
    if certBag.Ok? {
      ExpectIgnoresCap(b, certBag.value.start, 10, cap, TAG_OBJECT_IDENTIFIER, Truncated);
      var certId := Expect(b, certBag.value.start, 10, DEEPEST, TAG_OBJECT_IDENTIFIER, Truncated);
      if certId.Ok? {
        ExpectIgnoresCap(b, certId.value.end, 10, cap, TAG_CONTEXT_0, Truncated);
        var certValue := Expect(b, certId.value.end, 10, DEEPEST, TAG_CONTEXT_0, Truncated);
        if certValue.Ok? {
          ExpectIgnoresCap(b, certValue.value.start, 11, cap, TAG_OCTET_STRING, Truncated);
        }
      }
    }
  }

  lemma {:induction false} BagsIgnoreCap(b: bytes, pos: nat, end: nat, certs: seq<bytes>, cap: nat)
    requires cap >= DEEPEST
    ensures ReadBags(b, pos, end, certs, cap) == ReadBags(b, pos, end, certs, DEEPEST)
    decreases end - pos
  {
    if pos < end && |certs| < MAX_KEYSTORE_CERTIFICATES {
      ExpectIgnoresCap(b, pos, 7, cap, TAG_SEQUENCE, Truncated);
      var bag := Expect(b, pos, 7, DEEPEST, TAG_SEQUENCE, Truncated);
      if bag.Ok? {
        ExtractIgnoresCap(b, bag.value.start, cap);
        var cert := ExtractCertFromBag(b, bag.value.start, 8, DEEPEST);
        if cert.Ok? {
          BagsIgnoreCap(b, bag.value.end, end, WithBag(certs, cert.value), cap);
        }
      }
    }
  }

  lemma SafeContentsIgnoreCap(contents: bytes, certs: seq<bytes>, cap: nat)
    requires cap >= DEEPEST
    ensures ReadSafeContents(contents, certs, cap) == ReadSafeContents(contents, certs, DEEPEST)
  {
    ExpectIgnoresCap(contents, 0, 6, cap, TAG_SEQUENCE, Truncated);
    var bags := Expect(contents, 0, 6, DEEPEST, TAG_SEQUENCE, Truncated);
    if bags.Ok? {
      BagsIgnoreCap(contents, bags.value.start, bags.value.end, certs, cap);
    }
  }

  lemma {:induction false} SafeIgnoresCap(b: bytes, pos: nat, end: nat, got: Gathered, cap: nat)
    requires cap >= DEEPEST
    ensures ReadSafe(b, pos, end, got, cap) == ReadSafe(b, pos, end, got, DEEPEST)
    decreases end - pos
  {
    if pos < end && |got.certs| < MAX_KEYSTORE_CERTIFICATES {
      ExpectIgnoresCap(b, pos, 4, cap, TAG_SEQUENCE, Truncated);
      var ci := Expect(b, pos, 4, DEEPEST, TAG_SEQUENCE, Truncated);
      if ci.Ok? {
        OctetsIgnoreCap(b, ci.value.start, 5, cap);
        var octets := ReadContentInfoOctets(b, ci.value.start, 5, DEEPEST);
        if octets.Ok? {
          SafeContentsIgnoreCap(octets.value, got.certs, cap);
        }
        var step := GatherOne(octets, got, DEEPEST);
        if step.Ok? {
          SafeIgnoresCap(b, ci.value.end, end, step.value, cap);
        }
      }
    }
  }

  // ---- appended bytes ----

  /** Appending bytes to a file of four or more never changes a verdict other than `truncated`. */
  lemma ExtensionStable(b: bytes, more: bytes)
    requires |b| >= 4
    ensures KeystoreMeaning(b, MAX_DER_DEPTH).failure != Some(Truncated) ==>
      KeystoreMeaning(b + more, MAX_DER_DEPTH) == KeystoreMeaning(b, MAX_DER_DEPTH)
  {
    if KeystoreMeaning(b, MAX_DER_DEPTH).failure != Some(Truncated) {
      var c := b + more;
      BigEndianAgrees(b, c, 0, UINT32);
      var magic := BigEndian(b, 0, UINT32);
      if magic == JKS_MAGIC {
        JksStable(b, c);
      } else if magic != JCEKS_MAGIC && b[0] == TAG_SEQUENCE {
        AuthSafeStable(b, c, MAX_DER_DEPTH);
      }
    }
  }

  /** Every prefix of four or more bytes of a file reads as the file does, or as `truncated`. */
  lemma PrefixReadsSameOrTruncated(b: bytes, n: nat)
    requires 4 <= n <= |b|
    ensures var prefix := KeystoreMeaning(b[..n], MAX_DER_DEPTH);
      prefix.failure == Some(Truncated) || prefix == KeystoreMeaning(b, MAX_DER_DEPTH)
  {
    var prefix, more := b[..n], b[n..];
    assert b == prefix + more;
    ExtensionStable(prefix, more);
  }

  lemma SliceOfPrefix(b: bytes, c: bytes, i: nat, j: nat)
    requires b <= c && i <= j <= |b|
    ensures c[i..j] == b[i..j]
  {
  }

  lemma UintsStable(b: bytes, c: bytes, o: nat)
    requires b <= c
    ensures Uint16At(b, o).Ok? ==> Uint16At(c, o) == Uint16At(b, o)
    ensures Uint32At(b, o).Ok? ==> Uint32At(c, o) == Uint32At(b, o)
  {
    if o + 2 <= |b| { BigEndianAgrees(b, c, o, UINT16); }
    if o + 4 <= |b| { BigEndianAgrees(b, c, o, UINT32); }
  }

  lemma SkipsStable(b: bytes, c: bytes, o: nat)
    requires b <= c
    ensures SkipUtf(b, o).Ok? ==> SkipUtf(c, o) == SkipUtf(b, o)
    ensures SkipBlock(b, o).Ok? ==> SkipBlock(c, o) == SkipBlock(b, o)
  {
    UintsStable(b, c, o);
  }

  lemma {:induction false} LinksStable(b: bytes, c: bytes, o: nat, n: nat)
    requires b <= c
    ensures SkipLinks(b, o, n).Ok? ==> SkipLinks(c, o, n) == SkipLinks(b, o, n)
    decreases n
  {
    if n > 0 && SkipLink(b, o).Ok? {
      SkipsStable(b, c, o);
      SkipsStable(b, c, SkipUtf(b, o).value);
      LinksStable(b, c, SkipLink(b, o).value, n - 1);
    }
  }

  lemma KeyBodyStable(b: bytes, c: bytes, o: nat)
    requires b <= c && ReadKeyBody(b, o).Ok?
    ensures ReadKeyBody(c, o) == ReadKeyBody(b, o)
  {
    SkipsStable(b, c, o);
    var afterKey := SkipBlock(b, o).value;
    UintsStable(b, c, afterKey);
    LinksStable(b, c, afterKey + 4, Uint32At(b, afterKey).value);
  }

  lemma CertBodyStable(b: bytes, c: bytes, o: nat)
    requires b <= c && ReadCertBody(b, o).Ok?
    ensures ReadCertBody(c, o) == ReadCertBody(b, o)
  {
    SkipsStable(b, c, o);
    SkipsStable(b, c, SkipUtf(b, o).value);
  }

  lemma EntryStable(b: bytes, c: bytes, o: nat)
    requires b <= c && ReadEntry(b, o).Ok?
    ensures ReadEntry(c, o) == ReadEntry(b, o)
  {
    hide Uint32At, SkipUtf, ReadKeyBody, ReadCertBody;
    UintsStable(b, c, o);
    SkipsStable(b, c, o + 4);
    var body := SkipUtf(b, o + 4).value + 8;
    if Uint32At(b, o).value == JKS_PRIVATE_KEY_TAG {
      KeyBodyStable(b, c, body);
    } else {
      CertBodyStable(b, c, body);
    }
  }

  lemma {:induction false} EntriesStable(b: bytes, c: bytes, o: nat, n: nat, spans: seq<Span>)
    requires b <= c && o <= |b| && OrderedWithin(spans, o) && |spans| <= MAX_KEYSTORE_CERTIFICATES
    requires ReadEntries(b, o, n, spans).Ok?
    ensures ReadEntries(c, o, n, spans) == ReadEntries(b, o, n, spans)
    decreases n
  {
    hide ReadEntry, OrderedWithin, WithCert;
    if n > 0 && |spans| < MAX_KEYSTORE_CERTIFICATES {
      EntryStable(b, c, o);
      var entry := ReadEntry(b, o).value;
      EntriesStable(b, c, entry.next, n - 1, WithCert(spans, entry, o));
    }
  }

  lemma JksStable(b: bytes, c: bytes)
    requires b <= c && JksMeaning(b) != Err(Truncated)
    ensures JksMeaning(c) == JksMeaning(b)
  {
    JksFailsAsTruncated(b);
    UintsStable(b, c, 8);
    var count := Uint32At(b, 8).value;
    assert JksSpans(b) == ReadEntries(b, 12, count, []);
    EntriesStable(b, c, 12, count, []);
    SlicesStable(b, c, JksSpans(b).value);
  }

  lemma SlicesStable(b: bytes, c: bytes, spans: seq<Span>)
    requires b <= c && OrderedWithin(spans, |b|) && OrderedWithin(spans, |c|)
    ensures Slices(c, spans) == Slices(b, spans)
  {
    forall i | 0 <= i < |spans| ensures Slices(c, spans)[i] == Slices(b, spans)[i] {
      SliceOfPrefix(b, c, spans[i].start, spans[i].end);
    }
  }

  /** A JKS read throws `truncated` and nothing else. */
  lemma JksFailsAsTruncated(b: bytes)
    ensures JksMeaning(b).Err? ==> JksMeaning(b) == Err(Truncated)
  {
    if |b| >= 12 {
      EntriesFailAsTruncated(b, 12, Uint32At(b, 8).value, []);
    }
  }

  lemma {:induction false} LinksFailAsTruncated(b: bytes, o: nat, n: nat)
    ensures SkipLinks(b, o, n).Err? ==> SkipLinks(b, o, n) == Err(Truncated)
    decreases n
  {
    if n > 0 && SkipLink(b, o).Ok? {
      LinksFailAsTruncated(b, SkipLink(b, o).value, n - 1);
    }
  }

  lemma EntryFailsAsTruncated(b: bytes, o: nat)
    ensures ReadEntry(b, o).Err? ==> ReadEntry(b, o) == Err(Truncated)
  {
    if SkipUtf(b, o + 4).Ok? {
      KeyBodyFailsAsTruncated(b, SkipUtf(b, o + 4).value + 8);
    }
  }

  lemma KeyBodyFailsAsTruncated(b: bytes, o: nat)
    ensures ReadKeyBody(b, o).Err? ==> ReadKeyBody(b, o) == Err(Truncated)
  {
    if SkipBlock(b, o).Ok? {
      var afterKey := SkipBlock(b, o).value;
      if Uint32At(b, afterKey).Ok? {
        LinksFailAsTruncated(b, afterKey + 4, Uint32At(b, afterKey).value);
      }
    }
  }

  lemma {:induction false} EntriesFailAsTruncated(b: bytes, o: nat, n: nat, spans: seq<Span>)
    requires o <= |b| && OrderedWithin(spans, o) && |spans| <= MAX_KEYSTORE_CERTIFICATES
    ensures ReadEntries(b, o, n, spans).Err? ==> ReadEntries(b, o, n, spans) == Err(Truncated)
    decreases n
  {
    hide ReadEntry, OrderedWithin, WithCert;
    if n > 0 && |spans| < MAX_KEYSTORE_CERTIFICATES {
      EntryFailsAsTruncated(b, o);
      if ReadEntry(b, o).Ok? {
        var entry := ReadEntry(b, o).value;
        EntriesFailAsTruncated(b, entry.next, n - 1, WithCert(spans, entry, o));
      }
    }
  }

  lemma ExpectStable(b: bytes, c: bytes, o: nat, depth: nat, cap: nat, tag: byte, otherwise: Failure)
    requires b <= c && Expect(b, o, depth, cap, tag, otherwise) != Err(Truncated)
    ensures Expect(c, o, depth, cap, tag, otherwise) == Expect(b, o, depth, cap, tag, otherwise)
  {
    hide BigEndian;
    if depth <= cap && o + 1 < |b| && 128 < b[o + 1] && b[o + 1] - 128 <= 4 && o + 2 + (b[o + 1] - 128) <= |b| {
      BigEndianAgrees(b, c, o + 2, b[o + 1] - 128);
    }
  }

  lemma OctetsStable(b: bytes, c: bytes, start: nat, depth: nat, cap: nat)
    requires b <= c && ReadContentInfoOctets(b, start, depth, cap) != Err(Truncated)
    ensures ReadContentInfoOctets(c, start, depth, cap) == ReadContentInfoOctets(b, start, depth, cap)
  {
    ExpectStable(b, c, start, depth, cap, TAG_OBJECT_IDENTIFIER, UnsupportedFormat);
    var oid := Expect(b, start, depth, cap, TAG_OBJECT_IDENTIFIER, UnsupportedFormat);
    if oid.Ok? {
      SliceOfPrefix(b, c, oid.value.start, oid.value.end);
      if b[oid.value.start..oid.value.end] == OID_DATA {
        ExpectStable(b, c, oid.value.end, depth, cap, TAG_CONTEXT_0, UnsupportedFormat);
        var wrapper := Expect(b, oid.value.end, depth, cap, TAG_CONTEXT_0, UnsupportedFormat);
        if wrapper.Ok? {
          ExpectStable(b, c, wrapper.value.start, depth + 1, cap, TAG_OCTET_STRING, UnsupportedFormat);
          var octet := Expect(b, wrapper.value.start, depth + 1, cap, TAG_OCTET_STRING, UnsupportedFormat);
          if octet.Ok? {
            SliceOfPrefix(b, c, octet.value.start, octet.value.end);
          }
        }
      }
    }
  }

  /** Past the outermost unwrapping the walk looks only at octets already cut out of the file. */
  lemma AuthSafeStable(b: bytes, c: bytes, cap: nat)
    requires b <= c && AuthSafe(b, cap) != Err(Truncated)
    ensures AuthSafe(c, cap) == AuthSafe(b, cap)
  {
    ExpectStable(b, c, 0, 0, cap, TAG_SEQUENCE, UnsupportedFormat);
    var pfx := Expect(b, 0, 0, cap, TAG_SEQUENCE, UnsupportedFormat);
    if pfx.Ok? {
      ExpectStable(b, c, pfx.value.start, 1, cap, TAG_INTEGER, UnsupportedFormat);
      var version := Expect(b, pfx.value.start, 1, cap, TAG_INTEGER, UnsupportedFormat);
      if version.Ok? {
        ExpectStable(b, c, version.value.end, 1, cap, TAG_SEQUENCE, UnsupportedFormat);
        if AuthSafeCi(b, cap).Ok? {
          OctetsStable(b, c, AuthSafeCi(b, cap).value.start, 2, cap);
        }
      }
    }
  }
}
