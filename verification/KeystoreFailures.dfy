/**
 * Why a keystore gives no certificate: files that are neither format, files that end too early,
 * and printed files with one field that is not what the format wants there.
 */
module KeystoreFailures {
  import opened Wrappers
  import opened Bits
  import opened Keystore
  import opened KeystoreLaws
  import opened KeystoreRoundTrip
  import opened Asn1
  import opened Pkcs12RoundTrip

  /** No certificates, and the reason. */
  function Fails(format: Option<Format>, reason: Failure): KeystoreRead {
    KeystoreRead(format, [], false, Some(reason))
  }

  // ---- which format ----

  /** The first four octets of a JKS file. */
  predicate LooksLikeJks(b: bytes) {
    |b| >= 4 && b[0] == 0xfe && b[1] == 0xed && b[2] == 0xfe && b[3] == 0xed
  }

  /** The first octet of a SEQUENCE in a file of four octets or more. */
  predicate LooksLikePkcs12(b: bytes) {
    |b| >= 4 && b[0] == 0x30
  }

  lemma Magics(b: bytes)
    requires |b| >= 4
    ensures BigEndian(b, 0, UINT32) == 0xfeedfeed <==> LooksLikeJks(b)
  {
    assert BigEndian(b, 0, 0) == 0;
    assert BigEndian(b, 0, 1) == BigEndian(b, 0, 0) * 256 + b[0];
    assert BigEndian(b, 0, 2) == BigEndian(b, 0, 1) * 256 + b[1];
    assert BigEndian(b, 0, 3) == BigEndian(b, 0, 2) * 256 + b[2];
    assert BigEndian(b, 0, 4) == BigEndian(b, 0, 3) * 256 + b[3];
  }

  /** The first octets decide the format, and a file of neither format is said to be of none. */
  lemma FormatIs(b: bytes)
    ensures var read := KeystoreMeaning(b, MAX_DER_DEPTH);
      && (read.format == Some(Jks) <==> LooksLikeJks(b))
      && (read.format == Some(Pkcs12) <==> LooksLikePkcs12(b))
      && (!LooksLikeJks(b) && !LooksLikePkcs12(b) ==> read == Fails(None, UnsupportedFormat))
  {
    hide JksMeaning, Pkcs12Meaning, BigEndian;
    if |b| >= 4 {
      Magics(b);
      JksKnows(b);
      Pkcs12Knows(b);
      if b[0] == SEQUENCE {
        FirstByteOfMagic(b);
      }
    }
  }

  lemma JksKnows(b: bytes)
    ensures TryParse(Jks, JksMeaning(b)).format == Some(Jks)
  {
    hide JksSpans, Slices;
  }

  lemma Pkcs12Knows(b: bytes)
    ensures TryParse(Pkcs12, Pkcs12Meaning(b, MAX_DER_DEPTH)).format == Some(Pkcs12)
  {
    hide GatherPkcs12;
  }

  // ---- lengths that are not definite, or too long ----

  /**
   * A length is refused when it is indefinite or needs more than four octets, is cut short when it
   * ends outside the file, and is read otherwise.
   */
  lemma LengthIsRead(b: bytes, o: nat)
    ensures LengthAt(b, o) == Err(UnsupportedEncoding) <==> o < |b| && (b[o] == 0x80 || b[o] > 0x84)
    ensures LengthAt(b, o) == Err(Truncated) <==> o >= |b| || (0x81 <= b[o] <= 0x84 && o + 1 + (b[o] - 0x80) > |b|)
    ensures LengthAt(b, o).Err? ==> LengthAt(b, o).error in {UnsupportedEncoding, Truncated}
  {
    hide BigEndian;
  }

  /** A PKCS#12 file of indefinite length, or with an outermost length field wider than four octets. */
  lemma UnsupportedLength(b: bytes)
    requires LooksLikePkcs12(b) && (b[1] == 0x80 || b[1] > 0x84)
    ensures KeystoreMeaning(b, MAX_DER_DEPTH) == Fails(Some(Pkcs12), UnsupportedEncoding)
  {
    hide BigEndian;
    Magics(b);
    FirstByteOfMagic(b);
    LengthIsRead(b, 1);
  }

  // ---- files that end too early ----

  /** A PKCS#12 store cut anywhere short of its end is truncated. */
  lemma CutStoreIsTruncated(forms: Forms, body: bytes, n: nat)
    requires ValidForms(forms) && 2 <= |body| < MAX_UINT32
    requires 4 <= n < |Der(forms([]), SEQUENCE, body)|
    ensures KeystoreMeaning(Der(forms([]), SEQUENCE, body)[..n], MAX_DER_DEPTH) == Fails(Some(Pkcs12), Truncated)
  {
    hide Der, Expect, ReadContentInfoOctets, ReadSafe, BigEndian, ValidForms;
    var whole := Der(forms([]), SEQUENCE, body);
    var b := whole[..n];
    assert whole + [] == whole;
    OuterRead(whole, forms, body, [], MAX_DER_DEPTH);
    assert b[0] == SEQUENCE;
    FirstByteOfMagic(b);
    if Expect(b, 0, 0, MAX_DER_DEPTH, TAG_SEQUENCE, UnsupportedFormat) != Err(Truncated) {
      ExpectStable(b, whole, 0, 0, MAX_DER_DEPTH, TAG_SEQUENCE, UnsupportedFormat);
    }
  }

  /** A JKS file cut short within its records is truncated, when it has fewer certificates than the cap. */
  lemma CutRecordsAreTruncated(version: bytes, entries: seq<JksEntry>, n: nat)
    requires |version| == 4 && |entries| < MAX_UINT32 && ValidEntries(entries) && |TrustedCerts(entries)| < MOST
    requires 4 <= n < |PrintJks(version, entries, [])|
    ensures KeystoreMeaning(PrintJks(version, entries, [])[..n], MAX_DER_DEPTH) == Fails(Some(Jks), Truncated)
  {
    hide At, PrintJks, PrintEntries, ToBigEndian, BigEndian, TrustedCerts, ReadEntries, Slices, ValidEntries, Uint32At;
    var whole := PrintJks(version, entries, []);
    var b := whole[..n];
    PrintedParts(version, entries, []);
    PrintedEnd(version, entries);
    MagicRead(b);
    if n >= 12 {
      UintsStable(b, whole, 8);
      PrintedNumber(whole, 8, |entries|, FOUR);
      CountRead(b, whole, |entries|);
      NoSlices(whole, []);
      EntriesCut(b, whole, 12, entries, []);
    } else {
      ShortHeader(b);
    }
  }

  lemma ShortHeader(b: bytes)
    requires |b| < 12
    ensures JksSpans(b) == Err(Truncated)
  {
  }

  lemma CountRead(b: bytes, whole: bytes, count: nat)
    requires b <= whole && |b| >= 12 && BigEndian(whole, 8, FOUR) == count
    ensures OrderedWithin([], 12) && JksSpans(b) == ReadEntries(b, 12, count, [])
  {
    hide BigEndian, ReadEntries;
    UintsStable(b, whole, 8);
  }

  lemma PrintedEnd(version: bytes, entries: seq<JksEntry>)
    requires |version| == 4
    ensures |PrintJks(version, entries, [])| == 12 + |PrintEntries(entries)|
  {
    hide PrintEntries;
  }

  lemma {:induction false} EntriesCut(b: bytes, whole: bytes, o: nat, entries: seq<JksEntry>, spans: seq<Span>)
    requires b <= whole && o <= |b| < o + |PrintEntries(entries)| && At(whole, o, PrintEntries(entries))
    requires OrderedWithin(spans, o) && ValidEntries(entries) && |spans| + |TrustedCerts(entries)| < MOST
    ensures ReadEntries(b, o, |entries|, spans) == Err(Truncated)
    decreases |entries|
  {
    hide At, PrintEntry, ReadEntry, ValidEntry, OrderedWithin, WithCert;
    if entries != [] {
      var first, rest := entries[0], entries[1..];
      AtConcat(whole, o, PrintEntry(first), PrintEntries(rest));
      EntryRead(whole, o, first);
      EntryFailsAsTruncated(b, o);
      if ReadEntry(b, o).Ok? {
        EntryStable(b, whole, o);
        var entry := ReadEntry(b, o).value;
        CertAdded(spans, entry, o, first);
        EntriesCut(b, whole, entry.next, rest, WithCert(spans, entry, o));
      }
    }
  }

  lemma CertAdded(spans: seq<Span>, entry: Entry, o: nat, first: JksEntry)
    requires OrderedWithin(spans, o) && o <= entry.next
    requires entry.cert.Some? ==> o <= entry.cert.value.start <= entry.cert.value.end == entry.next
    requires entry.cert.Some? <==> first.TrustedCert?
    ensures |WithCert(spans, entry, o)| == |spans| + if first.TrustedCert? then 1 else 0
  {
  }

  // ---- a record of neither kind ----

  /** A record that is neither a key nor a certificate ends the file as truncated, whatever follows it. */
  lemma OtherRecord(version: bytes, count: nat, entries: seq<JksEntry>, tag: nat, rest: bytes)
    requires |version| == 4 && |entries| < count < MAX_UINT32 && ValidEntries(entries) && |TrustedCerts(entries)| < MOST
    requires tag < MAX_UINT32 && tag != 1 && tag != 2
    ensures var magic: bytes := [0xfe, 0xed, 0xfe, 0xed];
      KeystoreMeaning(
        magic + (version + (ToBigEndian(count, FOUR) + (PrintEntries(entries) + (ToBigEndian(tag, FOUR) + rest)))),
        MAX_DER_DEPTH) == Fails(Some(Jks), Truncated)
  {
    hide At, PrintEntries, ToBigEndian, BigEndian, TrustedCerts, ReadEntries, Slices, ValidEntries, JksSpans;
    var magic: bytes := [0xfe, 0xed, 0xfe, 0xed];
    var last := ToBigEndian(tag, FOUR) + rest;
    var records := PrintEntries(entries) + last;
    var b := magic + (version + (ToBigEndian(count, FOUR) + records));
    HeaderParts(version, count, records);
    AtConcat(b, 12, PrintEntries(entries), last);
    AtConcat(b, 12 + |PrintEntries(entries)|, ToBigEndian(tag, FOUR), rest);
    MagicRead(b);
    SpansRead(b, count);
    NoSlices(b, []);
    OtherRecordStops(b, 12, count, entries, [], tag);
  }

  lemma HeaderParts(version: bytes, count: nat, records: bytes)
    requires |version| == 4
    ensures var magic: bytes := [0xfe, 0xed, 0xfe, 0xed];
      var b := magic + (version + (ToBigEndian(count, FOUR) + records));
      && |b| >= 12 && b[0] == 0xfe && b[1] == 0xed && b[2] == 0xfe && b[3] == 0xed
      && At(b, 8, ToBigEndian(count, FOUR)) && At(b, 12, records)
  {
    hide ToBigEndian;
    var magic: bytes := [0xfe, 0xed, 0xfe, 0xed];
    var b := magic + (version + (ToBigEndian(count, FOUR) + records));
    assert At(b, 0, b);
    AtConcat(b, 0, magic, version + (ToBigEndian(count, FOUR) + records));
    AtConcat(b, 4, version, ToBigEndian(count, FOUR) + records);
    AtConcat(b, 8, ToBigEndian(count, FOUR), records);
  }

  lemma {:induction false} OtherRecordStops(b: bytes, o: nat, n: nat, entries: seq<JksEntry>, spans: seq<Span>, tag: nat)
    requires o <= |b| && At(b, o, PrintEntries(entries)) && At(b, o + |PrintEntries(entries)|, ToBigEndian(tag, FOUR))
    requires OrderedWithin(spans, o) && ValidEntries(entries) && |spans| + |TrustedCerts(entries)| < MOST
    requires |entries| < n && tag < MAX_UINT32 && tag != 1 && tag != 2
    ensures ReadEntries(b, o, n, spans) == Err(Truncated)
    decreases |entries|
  {
    hide At, PrintEntry, ReadEntry, ValidEntry, OrderedWithin, WithCert, ToBigEndian;
    if entries == [] {
      OtherTag(b, o, tag);
    } else {
      var first, rest := entries[0], entries[1..];
      AtConcat(b, o, PrintEntry(first), PrintEntries(rest));
      EntryRead(b, o, first);
      var entry := ReadEntry(b, o).value;
      CertAdded(spans, entry, o, first);
      OtherRecordStops(b, entry.next, n - 1, rest, WithCert(spans, entry, o), tag);
    }
  }

  lemma OtherTag(b: bytes, o: nat, tag: nat)
    requires At(b, o, ToBigEndian(tag, FOUR)) && tag < MAX_UINT32 && tag != 1 && tag != 2
    ensures ReadEntry(b, o) == Err(Truncated)
  {
    hide At, ToBigEndian, BigEndian;
    PrintedNumber(b, o, tag, FOUR);
  }

  // ---- PKCS#12 fields that are not what the format wants ----

  /** A printed field with another tag than the wanted one is thrown as the given reason. */
  lemma OtherField(b: bytes, o: nat, depth: nat, cap: nat, form: LengthForm, tag: byte, content: bytes, wanted: byte, otherwise: Failure)
    requires At(b, o, Der(form, tag, content)) && |content| < MAX_UINT32 && tag != wanted
    requires ValidForm(form) && depth <= cap
    ensures Expect(b, o, depth, cap, wanted, otherwise) == Err(otherwise)
  {
    hide At, Der, ReadTlv;
    ExpectRead(b, o, depth, cap, form, tag, content, otherwise);
  }

  /** What is wrong in a ContentInfo: its type's tag, its type, its wrapper's tag, or the tag in the wrapper. */
  datatype InfoFault =
    | NotAnOid(tag: byte, id: bytes, rest: bytes)
    | OtherType(id: bytes, rest: bytes)
    | NotWrapped(tag: byte, value: bytes, rest: bytes)
    | NotOctets(tag: byte, value: bytes, inner: bytes, rest: bytes)

  ghost predicate Wrong(f: InfoFault) {
    match f
    case NotAnOid(tag, _, _) => tag != OBJECT_IDENTIFIER
    case OtherType(id, _) => id != DataOid() && id != EncryptedDataOid()
    case NotWrapped(tag, _, _) => tag != CONTEXT_0
    case NotOctets(tag, _, _, _) => tag != OCTET_STRING
  }

  function PrintInfo(form: LengthForm, f: InfoFault): bytes {
    match f
    case NotAnOid(tag, id, rest) => Der(form, tag, id) + rest
    case OtherType(id, rest) => Der(form, OBJECT_IDENTIFIER, id) + rest
    case NotWrapped(tag, value, rest) => Der(form, OBJECT_IDENTIFIER, DataOid()) + (Der(form, tag, value) + rest)
    case NotOctets(tag, value, inner, rest) =>
      Der(form, OBJECT_IDENTIFIER, DataOid()) + (Der(form, CONTEXT_0, Der(form, tag, value) + inner) + rest)
  }

  lemma InfoFails(b: bytes, start: nat, depth: nat, cap: nat, form: LengthForm, f: InfoFault)
    requires At(b, start, PrintInfo(form, f)) && |PrintInfo(form, f)| < MAX_UINT32 && Wrong(f)
    requires ValidForm(form) && depth < cap
    ensures ReadContentInfoOctets(b, start, depth, cap) == Err(UnsupportedFormat)
  {
    hide At, Der, Expect, ValidForm, DataOid, EncryptedDataOid, CertBagOid, X509CertificateOid;
    OidsKnown();
    OidsDiffer();
    match f {
      case NotAnOid(tag, id, rest) =>
        AtConcat(b, start, Der(form, tag, id), rest);
        OtherField(b, start, depth, cap, form, tag, id, TAG_OBJECT_IDENTIFIER, UnsupportedFormat);
      case OtherType(id, rest) =>
        var _ := IdRead(b, start, depth, cap, form, id, rest, UnsupportedFormat);
      case NotWrapped(tag, value, rest) =>
        var at := IdRead(b, start, depth, cap, form, DataOid(), Der(form, tag, value) + rest, UnsupportedFormat);
        AtConcat(b, at, Der(form, tag, value), rest);
        OtherField(b, at, depth, cap, form, tag, value, TAG_CONTEXT_0, UnsupportedFormat);
      case NotOctets(tag, value, inner, rest) =>
        var content := Der(form, tag, value) + inner;
        var at := IdRead(b, start, depth, cap, form, DataOid(), Der(form, CONTEXT_0, content) + rest, UnsupportedFormat);
        var within := WrapperRead(b, at, depth, cap, form, content, rest, UnsupportedFormat);
        AtConcat(b, within, Der(form, tag, value), inner);
        OtherField(b, within, depth + 1, cap, form, tag, value, TAG_OCTET_STRING, UnsupportedFormat);
    }
  }

  /** What is wrong in a bag: the tag of its type or of its value, or one of the four fields of an x509 certBag. */
  datatype BagFault =
    | NoBagId(tag: byte, id: bytes, rest: bytes)
    | NoBagValue(bagId: bytes, tag: byte, value: bytes, rest: bytes)
    | NoCertBag(tag: byte, value: bytes, rest: bytes)
    | NoCertId(tag: byte, id: bytes, inner: bytes, rest: bytes)
    | NoCertValue(tag: byte, value: bytes, inner: bytes, rest: bytes)
    | NoCertOctets(tag: byte, value: bytes, inner: bytes, rest: bytes)

  ghost predicate WrongBag(f: BagFault) {
    match f
    case NoBagId(tag, _, _) => tag != OBJECT_IDENTIFIER
    case NoBagValue(_, tag, _, _) => tag != CONTEXT_0
    case NoCertBag(tag, _, _) => tag != SEQUENCE
    case NoCertId(tag, _, _, _) => tag != OBJECT_IDENTIFIER
    case NoCertValue(tag, _, _, _) => tag != CONTEXT_0
    case NoCertOctets(tag, _, _, _) => tag != OCTET_STRING
  }

  /** The content of a certBag's wrapper, faulty somewhere. */
  function CertBagOf(form: LengthForm, f: BagFault): bytes {
    match f
    case NoBagId(_, _, _) => []
    case NoBagValue(_, _, _, _) => []
    case NoCertBag(tag, value, _) => Der(form, tag, value)
    case NoCertId(tag, id, inner, _) => Der(form, SEQUENCE, Der(form, tag, id) + inner)
    case NoCertValue(tag, value, inner, _) =>
      Der(form, SEQUENCE, Der(form, OBJECT_IDENTIFIER, X509CertificateOid()) + (Der(form, tag, value) + inner))
    case NoCertOctets(tag, value, inner, _) =>
      Der(form, SEQUENCE, Der(form, OBJECT_IDENTIFIER, X509CertificateOid()) + Der(form, CONTEXT_0, Der(form, tag, value) + inner))
  }

  function PrintBagFault(form: LengthForm, f: BagFault): bytes {
    match f
    case NoBagId(tag, id, rest) => Der(form, tag, id) + rest
    case NoBagValue(bagId, tag, value, rest) => Der(form, OBJECT_IDENTIFIER, bagId) + (Der(form, tag, value) + rest)
    case _ => Der(form, OBJECT_IDENTIFIER, CertBagOid()) + (Der(form, CONTEXT_0, CertBagOf(form, f)) + f.rest)
  }

  lemma BagFails(b: bytes, start: nat, cap: nat, form: LengthForm, f: BagFault)
    requires At(b, start, PrintBagFault(form, f)) && |PrintBagFault(form, f)| < MAX_UINT32 && WrongBag(f)
    requires ValidForm(form) && cap >= 11
    ensures ExtractCertFromBag(b, start, 8, cap) == Err(Truncated)
  {
    hide At, Der, Expect, ValidForm, ExtractCertBag, CertBagOf, DataOid, EncryptedDataOid, CertBagOid, X509CertificateOid;
    OidsKnown();
    match f {
      case NoBagId(tag, id, rest) =>
        AtConcat(b, start, Der(form, tag, id), rest);
        OtherField(b, start, 8, cap, form, tag, id, TAG_OBJECT_IDENTIFIER, Truncated);
      case NoBagValue(bagId, tag, value, rest) =>
        var at := IdRead(b, start, 8, cap, form, bagId, Der(form, tag, value) + rest, Truncated);
        AtConcat(b, at, Der(form, tag, value), rest);
        OtherField(b, at, 8, cap, form, tag, value, TAG_CONTEXT_0, Truncated);
      case _ =>
        WrappedCertBagFails(b, start, cap, form, f);
    }
  }

  /** An identifier is read, and what follows it starts where it ends. */
  lemma IdRead(b: bytes, start: nat, depth: nat, cap: nat, form: LengthForm, id: bytes, rest: bytes, otherwise: Failure)
    returns (at: nat)
    requires At(b, start, Der(form, OBJECT_IDENTIFIER, id) + rest) && |id| < MAX_UINT32
    requires ValidForm(form) && depth <= cap
    ensures var oid := Expect(b, start, depth, cap, OBJECT_IDENTIFIER, otherwise);
      oid.Ok? && b[oid.value.start..oid.value.end] == id && oid.value.end == at
    ensures At(b, at, rest)
  {
    hide At, Der, Expect, ValidForm;
    AtConcat(b, start, Der(form, OBJECT_IDENTIFIER, id), rest);
    ExpectRead(b, start, depth, cap, form, OBJECT_IDENTIFIER, id, otherwise);
    at := start + |Der(form, OBJECT_IDENTIFIER, id)|;
  }

  /** A wrapper is read, and its content starts inside it. */
  lemma WrapperRead(b: bytes, start: nat, depth: nat, cap: nat, form: LengthForm, content: bytes, rest: bytes, otherwise: Failure)
    returns (within: nat)
    requires At(b, start, Der(form, CONTEXT_0, content) + rest) && |content| < MAX_UINT32
    requires ValidForm(form) && depth <= cap
    ensures var wrapper := Expect(b, start, depth, cap, CONTEXT_0, otherwise);
      wrapper.Ok? && wrapper.value.start == within
    ensures At(b, within, content)
  {
    hide At, Der, Expect, ValidForm;
    AtConcat(b, start, Der(form, CONTEXT_0, content), rest);
    ExpectRead(b, start, depth, cap, form, CONTEXT_0, content, otherwise);
    within := start + |Der(form, CONTEXT_0, content)| - |content|;
  }

  lemma WrappedCertBagFails(b: bytes, start: nat, cap: nat, form: LengthForm, f: BagFault)
    requires At(b, start, PrintBagFault(form, f)) && |PrintBagFault(form, f)| < MAX_UINT32 && WrongBag(f)
    requires ValidForm(form) && cap >= 11 && !f.NoBagId? && !f.NoBagValue?
    ensures ExtractCertFromBag(b, start, 8, cap) == Err(Truncated)
  {
    hide At, Der, Expect, ValidForm, ExtractCertBag, CertBagOf, DataOid, EncryptedDataOid, CertBagOid, X509CertificateOid;
    OidsKnown();
    var content := CertBagOf(form, f);
    var wrapped := Der(form, CONTEXT_0, content) + f.rest;
    var at := IdRead(b, start, 8, cap, form, CertBagOid(), wrapped, Truncated);
    var within := WrapperRead(b, at, 8, cap, form, content, f.rest, Truncated);
    CertBagFails(b, within, cap, form, f);
  }

  lemma CertBagFails(b: bytes, start: nat, cap: nat, form: LengthForm, f: BagFault)
    requires At(b, start, CertBagOf(form, f)) && |CertBagOf(form, f)| < MAX_UINT32 && WrongBag(f)
    requires ValidForm(form) && cap >= 11 && !f.NoBagId? && !f.NoBagValue?
    ensures ExtractCertBag(b, start, 9, cap) == Err(Truncated)
  {
    hide At, Der, Expect, ValidForm, DataOid, EncryptedDataOid, CertBagOid, X509CertificateOid;
    OidsKnown();
    match f {
      case NoCertBag(tag, value, _) =>
        OtherField(b, start, 9, cap, form, tag, value, TAG_SEQUENCE, Truncated);
      case NoCertId(tag, id, inner, _) =>
        var content := Der(form, tag, id) + inner;
        ExpectRead(b, start, 9, cap, form, SEQUENCE, content, Truncated);
        var at := start + |Der(form, SEQUENCE, content)| - |content|;
        AtConcat(b, at, Der(form, tag, id), inner);
        OtherField(b, at, 10, cap, form, tag, id, TAG_OBJECT_IDENTIFIER, Truncated);
      case NoCertValue(tag, value, inner, _) =>
        var at := X509IdRead(b, start, cap, form, Der(form, tag, value) + inner);
        AtConcat(b, at, Der(form, tag, value), inner);
        OtherField(b, at, 10, cap, form, tag, value, TAG_CONTEXT_0, Truncated);
      case NoCertOctets(tag, value, inner, _) =>
        var content := Der(form, tag, value) + inner;
        var wrapper := Der(form, CONTEXT_0, content);
        var at := X509IdRead(b, start, cap, form, wrapper);
        ExpectRead(b, at, 10, cap, form, CONTEXT_0, content, Truncated);
        var within := at + |wrapper| - |content|;
        AtConcat(b, within, Der(form, tag, value), inner);
        OtherField(b, within, 11, cap, form, tag, value, TAG_OCTET_STRING, Truncated);
      case _ =>
    }
  }

  /** A certBag that is of the x509 kind, whatever its value. */
  lemma X509IdRead(b: bytes, start: nat, cap: nat, form: LengthForm, value: bytes) returns (at: nat)
    requires At(b, start, Der(form, SEQUENCE, Der(form, OBJECT_IDENTIFIER, X509CertificateOid()) + value))
    requires |Der(form, OBJECT_IDENTIFIER, X509CertificateOid()) + value| < MAX_UINT32
    requires ValidForm(form) && cap >= 11
    ensures var certBag := Expect(b, start, 9, cap, SEQUENCE, Truncated);
      && certBag.Ok?
      && var oid := Expect(b, certBag.value.start, 10, cap, OBJECT_IDENTIFIER, Truncated);
         oid.Ok? && b[oid.value.start..oid.value.end] == X509CertificateOid() && oid.value.end == at
    ensures At(b, at, value)
  {
    hide At, Der, Expect, ValidForms, DataOid, EncryptedDataOid, CertBagOid, X509CertificateOid;
    var forms: Forms := (_: Path) => form;
    FormEverywhere(form);
    at := CertIdRead(b, start, forms, [], X509CertificateOid(), value, cap);
  }

  lemma FormEverywhere(form: LengthForm)
    requires ValidForm(form)
    ensures ValidForms((_: Path) => form)
  {
    hide ValidForm;
    var forms: Forms := (_: Path) => form;
    assert forall p: Path :: forms(p) == form;
  }

  // ---- where the fault is ----

  /** A bag that is no SEQUENCE, or one that is faulty inside. */
  datatype BadBag = NotABag(tag: byte, value: bytes) | FaultyBag(fault: BagFault)

  ghost predicate WrongAsBag(x: BadBag) {
    match x
    case NotABag(tag, _) => tag != SEQUENCE
    case FaultyBag(fault) => WrongBag(fault)
  }

  function PrintBadBag(form: LengthForm, x: BadBag): bytes {
    match x
    case NotABag(tag, value) => Der(form, tag, value)
    case FaultyBag(fault) => Der(form, SEQUENCE, PrintBagFault(form, fault))
  }

  lemma BadBagStops(b: bytes, pos: nat, end: nat, certs: seq<bytes>, cap: nat, form: LengthForm, x: BadBag)
    requires At(b, pos, PrintBadBag(form, x)) && |PrintBadBag(form, x)| < MAX_UINT32 && WrongAsBag(x)
    requires ValidForm(form) && cap >= 11 && pos < end && |certs| < MOST
    ensures ReadBags(b, pos, end, certs, cap) == Err(Truncated)
  {
    hide At, Der, Expect, ValidForm, ExtractCertFromBag, PrintBagFault;
    match x {
      case NotABag(tag, value) =>
        OtherField(b, pos, 7, cap, form, tag, value, TAG_SEQUENCE, Truncated);
      case FaultyBag(fault) =>
        var body := PrintBagFault(form, fault);
        ExpectRead(b, pos, 7, cap, form, SEQUENCE, body, Truncated);
        BagFails(b, pos + |Der(form, SEQUENCE, body)| - |body|, cap, form, fault);
    }
  }

  /** A content of the AuthenticatedSafe that is no SEQUENCE, no ContentInfo, no SafeContents, or has a bad bag in it. */
  datatype BadContent =
    | NotAContent(tag: byte, value: bytes)
    | FaultyInfo(info: InfoFault)
    | NotASafe(tag: byte, value: bytes)
    | InBags(bags: seq<Bag>, bad: BadBag, rest: bytes)

  ghost predicate WrongAsContent(x: BadContent) {
    match x
    case NotAContent(tag, _) => tag != SEQUENCE
    case FaultyInfo(info) => Wrong(info)
    case NotASafe(tag, _) => tag != SEQUENCE
    case InBags(bags, bad, _) => ValidBags(bags) && WrongAsBag(bad)
  }

  /** How many certificates are read before the fault. */
  function CertsBefore(x: BadContent): nat {
    if x.InBags? then |BagCerts(x.bags)| else 0
  }

  const HERE: Path := [9]

  function PayloadOf(form: LengthForm, forms: Forms, x: BadContent): bytes {
    match x
    case NotASafe(tag, value) => Der(form, tag, value)
    case InBags(bags, bad, rest) => Der(form, SEQUENCE, PrintBags(forms, HERE, 0, bags) + (PrintBadBag(form, bad) + rest))
    case _ => []
  }

  function PrintBadContent(form: LengthForm, forms: Forms, x: BadContent): bytes {
    match x
    case NotAContent(tag, value) => Der(form, tag, value)
    case FaultyInfo(info) => Der(form, SEQUENCE, PrintInfo(form, info))
    case _ => Der(form, SEQUENCE, DataBody(forms, HERE, PayloadOf(form, forms, x)))
  }

  /** A content of an unknown kind is a format that is not supported; every other fault reads as an early end. */
  function ReasonOf(x: BadContent): Failure {
    if x.FaultyInfo? then UnsupportedFormat else Truncated
  }

  lemma BadSafeContents(form: LengthForm, forms: Forms, x: BadContent, certs: seq<bytes>, cap: nat)
    requires (x.NotASafe? || x.InBags?) && WrongAsContent(x) && |PayloadOf(form, forms, x)| < MAX_UINT32
    requires ValidForm(form) && ValidForms(forms) && cap >= 11 && |certs| + CertsBefore(x) < MOST
    ensures ReadSafeContents(PayloadOf(form, forms, x), certs, cap) == Err(Truncated)
  {
    hide At, Der, Expect, ValidForm, ValidForms, PrintBags, PrintBadBag, ReadBags, ValidBags, WrongAsBag, BagCerts;
    var payload := PayloadOf(form, forms, x);
    assert payload + [] == payload;
    WholeAt(payload, payload, []);
    match x {
      case NotASafe(tag, value) =>
        OtherField(payload, 0, 6, cap, form, tag, value, TAG_SEQUENCE, Truncated);
      case InBags(bags, bad, rest) =>
        var printed, after := PrintBags(forms, HERE, 0, bags), PrintBadBag(form, bad);
        var inner := printed + (after + rest);
        ExpectRead(payload, 0, 6, cap, form, SEQUENCE, inner, Truncated);
        var pos := |payload| - |inner|;
        AtConcat(payload, pos, printed, after + rest);
        AtConcat(payload, pos + |printed|, after, rest);
        BagsRead(payload, pos, |payload|, forms, HERE, 0, bags, certs, cap);
        UnderCap(certs, BagCerts(bags));
        NotEmptyBag(form, bad);
        BadBagStops(payload, pos + |printed|, |payload|, certs + BagCerts(bags), cap, form, bad);
      case _ =>
    }
  }

  lemma NotEmptyBag(form: LengthForm, x: BadBag)
    ensures PrintBadBag(form, x) != []
  {
  }

  lemma UnderCap(xs: seq<bytes>, ys: seq<bytes>)
    requires |xs| + |ys| < MOST
    ensures Capped(xs + ys) == xs + ys
  {
  }

  lemma BadContentStops(b: bytes, pos: nat, end: nat, got: Gathered, cap: nat, form: LengthForm, forms: Forms, x: BadContent)
    requires At(b, pos, PrintBadContent(form, forms, x)) && |PrintBadContent(form, forms, x)| < MAX_UINT32 && WrongAsContent(x)
    requires ValidForm(form) && ValidForms(forms) && cap >= 11 && pos < end && |got.certs| + CertsBefore(x) < MOST
    ensures ReadSafe(b, pos, end, got, cap) == Err(ReasonOf(x))
  {
    hide At, Der, Expect, ValidForm, ValidForms, PrintInfo, PayloadOf, ReadContentInfoOctets, ReadSafeContents, DataBody;
    match x {
      case NotAContent(tag, value) =>
        OtherField(b, pos, 4, cap, form, tag, value, TAG_SEQUENCE, Truncated);
      case FaultyInfo(info) =>
        var body := PrintInfo(form, info);
        ExpectRead(b, pos, 4, cap, form, SEQUENCE, body, Truncated);
        InfoFails(b, pos + |Der(form, SEQUENCE, body)| - |body|, 5, cap, form, info);
      case _ =>
        var payload := PayloadOf(form, forms, x);
        var body := DataBody(forms, HERE, payload);
        ExpectRead(b, pos, 4, cap, form, SEQUENCE, body, Truncated);
        DataBodyRead(b, pos + |Der(form, SEQUENCE, body)| - |body|, 5, cap, forms, HERE, payload);
        PayloadFits(forms, payload);
        BadSafeContents(form, forms, x, got.certs, cap);
    }
  }

  lemma PayloadFits(forms: Forms, payload: bytes)
    ensures |payload| < |DataBody(forms, HERE, payload)|
  {
  }

  /** An AuthenticatedSafe with good contents, then a bad one, then anything. */
  function BadSafe(form: LengthForm, forms: Forms, contents: seq<Content>, x: BadContent, rest: bytes): bytes {
    Der(forms(SAFE), SEQUENCE, PrintContents(forms, SAFE, 0, contents) + (PrintBadContent(form, forms, x) + rest))
  }

  /**
   * A store whose contents are well formed up to one that is not gives no certificate at all: it is
   * of an unsupported format when that content is of an unknown kind, and truncated otherwise.
   */
  lemma MalformedContent(
    form: LengthForm, forms: Forms, version: bytes, contents: seq<Content>, x: BadContent, rest: bytes, macData: bytes,
    trailer: bytes)
    requires ValidForm(form) && ValidForms(forms) && ValidContents(contents) && WrongAsContent(x)
    requires |StoreCerts(contents)| + CertsBefore(x) < MOST
    requires |PfxBody(forms, version, DataBody(forms, [1], BadSafe(form, forms, contents, x, rest)), macData)| < MAX_UINT32
    ensures var authSafe := DataBody(forms, [1], BadSafe(form, forms, contents, x, rest));
      KeystoreMeaning(Der(forms([]), SEQUENCE, PfxBody(forms, version, authSafe, macData)) + trailer, MAX_DER_DEPTH)
      == Fails(Some(Pkcs12), ReasonOf(x))
  {
    hide PfxBody, DataBody, ReadSafe, StoreCerts, ValidForm, ValidForms, ValidContents, WrongAsContent, BigEndian,
         ReadContentInfoOctets, BadSafe, Expect, AuthSafeCi, At, Der;
    var safe := BadSafe(form, forms, contents, x, rest);
    var authSafe := DataBody(forms, [1], safe);
    var b := Der(forms([]), SEQUENCE, PfxBody(forms, version, authSafe, macData)) + trailer;
    PfxRead(b, forms, version, authSafe, macData, trailer, MAX_DER_DEPTH);
    PfxBodyBounds(forms, version, authSafe, macData);
    DataBodyRead(b, AuthSafeCi(b, MAX_DER_DEPTH).value.start, 2, MAX_DER_DEPTH, forms, [1], safe);
    SafeFits(forms, safe);
    BadSafeStops(form, forms, contents, x, rest);
  }

  lemma SafeFits(forms: Forms, safe: bytes)
    ensures |safe| < |DataBody(forms, [1], safe)|
  {
  }

  lemma BadSafeStops(form: LengthForm, forms: Forms, contents: seq<Content>, x: BadContent, rest: bytes)
    requires ValidForm(form) && ValidForms(forms) && ValidContents(contents) && WrongAsContent(x)
    requires |StoreCerts(contents)| + CertsBefore(x) < MOST && |BadSafe(form, forms, contents, x, rest)| < MAX_UINT32
    ensures var safe := BadSafe(form, forms, contents, x, rest);
      var r := Expect(safe, 0, 3, MAX_DER_DEPTH, TAG_SEQUENCE, Truncated);
      r.Ok? && ReadSafe(safe, r.value.start, r.value.end, Gathered([], false), MAX_DER_DEPTH) == Err(ReasonOf(x))
  {
    hide At, Der, Expect, PrintContents, ReadSafe, StoreCerts, ValidForm, ValidForms, ValidContents, WrongAsContent,
         PrintBadContent, SealedWithin;
    var safe := BadSafe(form, forms, contents, x, rest);
    var printed, bad := PrintContents(forms, SAFE, 0, contents), PrintBadContent(form, forms, x);
    var inner := printed + (bad + rest);
    assert safe + [] == safe;
    WholeAt(safe, safe, []);
    FieldRead(safe, 0, 3, MAX_DER_DEPTH, forms, SAFE, SEQUENCE, inner, Truncated);
    var pos := |safe| - |inner|;
    AtConcat(safe, pos, printed, bad + rest);
    AtConcat(safe, pos + |printed|, bad, rest);
    ContentsRead(safe, pos, |safe|, forms, SAFE, 0, contents, Gathered([], false), MAX_DER_DEPTH);
    UnderCap([], StoreCerts(contents));
    assert [] + StoreCerts(contents) == StoreCerts(contents);
    NotEmptyContent(form, forms, x);
    BadContentStops(
      safe, pos + |printed|, |safe|, Gathered(StoreCerts(contents), SealedWithin(contents, MOST)), MAX_DER_DEPTH, form, forms, x);
  }

  lemma NotEmptyContent(form: LengthForm, forms: Forms, x: BadContent)
    ensures PrintBadContent(form, forms, x) != []
  {
  }

  // ---- the outermost fields ----

  /** What is wrong outside the AuthenticatedSafe: the version, the ContentInfo, its inside, or the safe's own tag. */
  datatype PfxFault =
    | NoVersion(tag: byte, value: bytes, rest: bytes)
    | NoAuthSafe(version: bytes, tag: byte, value: bytes, rest: bytes)
    | BadAuthSafe(version: bytes, info: InfoFault, rest: bytes)
    | NotASafeAtAll(version: bytes, tag: byte, value: bytes, rest: bytes)

  ghost predicate WrongAsPfx(f: PfxFault) {
    match f
    case NoVersion(tag, _, _) => tag != INTEGER
    case NoAuthSafe(_, tag, _, _) => tag != SEQUENCE
    case BadAuthSafe(_, info, _) => Wrong(info)
    case NotASafeAtAll(_, tag, _, _) => tag != SEQUENCE
  }

  /** The body of the authSafe ContentInfo, where there is one. */
  function AuthSafeOf(form: LengthForm, forms: Forms, f: PfxFault): bytes {
    match f
    case BadAuthSafe(_, info, _) => PrintInfo(form, info)
    case NotASafeAtAll(_, tag, value, _) => DataBody(forms, [1], Der(form, tag, value))
    case _ => []
  }

  function BadPfx(form: LengthForm, forms: Forms, f: PfxFault): bytes {
    match f
    case NoVersion(tag, value, rest) => Der(form, tag, value) + rest
    case NoAuthSafe(version, tag, value, rest) => Der(form, INTEGER, version) + (Der(form, tag, value) + rest)
    case _ => PfxBody(forms, f.version, AuthSafeOf(form, forms, f), f.rest)
  }

  /** A file whose outermost fields are not those of a store is of an unsupported format; a safe of another kind, truncated. */
  lemma MalformedPfx(form: LengthForm, forms: Forms, f: PfxFault, trailer: bytes)
    requires ValidForm(form) && ValidForms(forms) && WrongAsPfx(f) && 2 <= |BadPfx(form, forms, f)| < MAX_UINT32
    ensures KeystoreMeaning(Der(forms([]), SEQUENCE, BadPfx(form, forms, f)) + trailer, MAX_DER_DEPTH)
         == Fails(Some(Pkcs12), if f.NotASafeAtAll? then Truncated else UnsupportedFormat)
  {
    hide At, Der, Expect, ValidForm, ValidForms, BigEndian, ReadSafe, BadPfx, AuthSafeCi, ReadContentInfoOctets;
    var body := BadPfx(form, forms, f);
    var b := Der(forms([]), SEQUENCE, body) + trailer;
    OuterRead(b, forms, body, trailer, MAX_DER_DEPTH);
    if f.NoVersion? || f.NoAuthSafe? {
      NoAuthSafeHere(form, forms, f, b, trailer);
    } else {
      BadAuthSafeHere(form, forms, f, b, trailer);
    }
  }

  lemma NoAuthSafeHere(form: LengthForm, forms: Forms, f: PfxFault, b: bytes, trailer: bytes)
    requires ValidForm(form) && ValidForms(forms) && WrongAsPfx(f) && 2 <= |BadPfx(form, forms, f)| < MAX_UINT32
    requires b == Der(forms([]), SEQUENCE, BadPfx(form, forms, f)) + trailer && (f.NoVersion? || f.NoAuthSafe?)
    ensures AuthSafeCi(b, MAX_DER_DEPTH) == Err(UnsupportedFormat)
  {
    hide At, Der, Expect, ValidForm, ValidForms, BigEndian;
    var body := BadPfx(form, forms, f);
    OuterRead(b, forms, body, trailer, MAX_DER_DEPTH);
    var start := |Der(forms([]), SEQUENCE, body)| - |body|;
    match f {
      case NoVersion(tag, value, rest) =>
        AtConcat(b, start, Der(form, tag, value), rest);
        OtherField(b, start, 1, MAX_DER_DEPTH, form, tag, value, TAG_INTEGER, UnsupportedFormat);
      case NoAuthSafe(version, tag, value, rest) =>
        var number := Der(form, INTEGER, version);
        AtConcat(b, start, number, Der(form, tag, value) + rest);
        ExpectRead(b, start, 1, MAX_DER_DEPTH, form, INTEGER, version, UnsupportedFormat);
        AtConcat(b, start + |number|, Der(form, tag, value), rest);
        OtherField(b, start + |number|, 1, MAX_DER_DEPTH, form, tag, value, TAG_SEQUENCE, UnsupportedFormat);
      case _ =>
    }
  }

  lemma BadAuthSafeHere(form: LengthForm, forms: Forms, f: PfxFault, b: bytes, trailer: bytes)
    requires ValidForm(form) && ValidForms(forms) && WrongAsPfx(f) && 2 <= |BadPfx(form, forms, f)| < MAX_UINT32
    requires b == Der(forms([]), SEQUENCE, BadPfx(form, forms, f)) + trailer && (f.BadAuthSafe? || f.NotASafeAtAll?)
    ensures GatherPkcs12(b, MAX_DER_DEPTH) == Err(if f.NotASafeAtAll? then Truncated else UnsupportedFormat)
  {
    hide At, Der, Expect, ValidForm, ValidForms, BigEndian, ReadSafe, AuthSafeCi, ReadContentInfoOctets, DataBody, PfxBody, PrintInfo;
    var authSafe := AuthSafeOf(form, forms, f);
    PfxRead(b, forms, f.version, authSafe, f.rest, trailer, MAX_DER_DEPTH);
    PfxBodyBounds(forms, f.version, authSafe, f.rest);
    var start := AuthSafeCi(b, MAX_DER_DEPTH).value.start;
    match f {
      case BadAuthSafe(_, info, _) =>
        InfoFails(b, start, 2, MAX_DER_DEPTH, form, info);
      case NotASafeAtAll(_, tag, value, _) =>
        var safe := Der(form, tag, value);
        DataBodyRead(b, start, 2, MAX_DER_DEPTH, forms, [1], safe);
        SafeFits(forms, safe);
        assert safe + [] == safe;
        WholeAt(safe, safe, []);
        ContentShorter(form, tag, value);
        OtherField(safe, 0, 3, MAX_DER_DEPTH, form, tag, value, TAG_SEQUENCE, Truncated);
      case _ =>
    }
  }

  lemma ContentShorter(form: LengthForm, tag: byte, content: bytes)
    ensures |content| < |Der(form, tag, content)|
  {
  }
}
