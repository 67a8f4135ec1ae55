/**
 * A printer for PKCS#12 stores (RFC 7292, sections 4 to 4.2.3) and the proof that reading what
 * it prints gives exactly the x509 certificates of the unencrypted contents.
 */
module Pkcs12RoundTrip {
  import opened Wrappers
  import opened Bits
  import opened Keystore
  import opened KeystoreRoundTrip
  import opened Asn1

  // ---- DER with any definite length form ----

  /** For each content length, how many bytes follow the first length byte; 0 is the short form. */
  type LengthForm = nat -> nat

  /** The form can express every length below 2^32 (ITU-T X.690, section 8.1.3). */
  ghost predicate ValidForm(form: LengthForm) {
    forall n: nat :: n < MAX_UINT32 ==>
      form(n) <= 4 && if form(n) == 0 then n < 128 else n < Pow256(form(n))
  }

  /** The form DER itself prescribes: the fewest bytes that hold the length. */
  function DerForm(n: nat): nat {
    if n < 0x80 then 0
    else if n < 0x100 then 1
    else if n < 0x1_0000 then 2
    else if n < 0x100_0000 then 3
    else 4
  }

  lemma DerFormIsValid()
    ensures ValidForm(DerForm)
  {
    assert Pow256(1) == 0x100;
    assert Pow256(2) == 0x1_0000;
    assert Pow256(3) == 0x100_0000;
    assert Pow256(4) == 0x1_0000_0000;
  }

  function LengthField(form: LengthForm, n: nat): (s: bytes)
    ensures |s| > 0
  {
    if form(n) == 0 then [n % 256] else [(128 + form(n)) % 256] + ToBigEndian(n, form(n))
  }

  function Der(form: LengthForm, tag: byte, content: bytes): (s: bytes)
    ensures |s| >= |content| + 2
  {
    [tag] + (LengthField(form, |content|) + content)
  }

  /** A printed value, wherever it lies, is read with its tag and exactly its content. */
  lemma ExpectRead(b: bytes, o: nat, depth: nat, cap: nat, form: LengthForm, tag: byte, content: bytes, otherwise: Failure)
    requires At(b, o, Der(form, tag, content)) && |content| < MAX_UINT32
    requires ValidForm(form) && depth <= cap
    ensures var end := o + |Der(form, tag, content)|;
      && end <= |b|
      && Expect(b, o, depth, cap, tag, otherwise) == Ok(Tlv(tag, end - |content|, end))
      && At(b, end - |content|, content)
      && b[end - |content|..end] == content
  {
    hide ToBigEndian, BigEndian;
    var n := |content|;
    var field := LengthField(form, n);
    DerParts(b, o, form, tag, content);
    LengthFieldRead(b, o + 1, form, n);
  }

  lemma DerParts(b: bytes, o: nat, form: LengthForm, tag: byte, content: bytes)
    requires At(b, o, Der(form, tag, content))
    ensures var field := LengthField(form, |content|);
      && |Der(form, tag, content)| == 1 + |field| + |content|
      && o < |b| && b[o] == tag
      && At(b, o + 1, field)
      && At(b, o + 1 + |field|, content)
  {
    hide LengthField;
    var field := LengthField(form, |content|);
    AtConcat(b, o, [tag], field + content);
    assert b[o..o + 1][0] == tag;
    AtConcat(b, o + 1, field, content);
  }

  lemma LengthFieldRead(b: bytes, o: nat, form: LengthForm, n: nat)
    requires At(b, o, LengthField(form, n)) && ValidForm(form) && n < MAX_UINT32
    ensures LengthAt(b, o) == Ok(Length(n, o + |LengthField(form, n)|))
  {
    hide BigEndian;
    var field := LengthField(form, n);
    var width := form(n);
    assert b[o] == b[o..o + |field|][0] == field[0];
    if width > 0 {
      AtConcat(b, o, [field[0]], ToBigEndian(n, width));
      BigEndianOfPrinted(b, o + 1, n, width);
    }
  }

  // ---- a form for every field ----

  /** Where a field lies: which child of which child, counted from the outermost one. */
  type Path = seq<nat>

  /** A length form for each field of a store, whatever the others have. */
  type Forms = Path -> LengthForm

  ghost predicate ValidForms(forms: Forms) {
    forall p: Path :: ValidForm(forms(p))
  }

  /** A printed field is read whatever form its place has. */
  lemma FieldRead(b: bytes, o: nat, depth: nat, cap: nat, forms: Forms, p: Path, tag: byte, content: bytes, otherwise: Failure)
    requires At(b, o, Der(forms(p), tag, content)) && |content| < MAX_UINT32
    requires ValidForms(forms) && depth <= cap
    ensures var end := o + |Der(forms(p), tag, content)|;
      && end <= |b|
      && Expect(b, o, depth, cap, tag, otherwise) == Ok(Tlv(tag, end - |content|, end))
      && At(b, end - |content|, content)
      && b[end - |content|..end] == content
  {
    hide At, Der, Expect, ValidForm;
    ExpectRead(b, o, depth, cap, forms(p), tag, content, otherwise);
  }

  // ---- the store ----

  datatype Bag =
    | X509(der: bytes, attributes: bytes)
    | OtherCert(certId: bytes, value: bytes, attributes: bytes)
    | OtherBag(bagId: bytes, value: bytes, attributes: bytes)

  /** A ContentInfo of the AuthenticatedSafe: encryptedData, or the bags of a plain SafeContents. */
  datatype Content = Sealed(body: bytes) | Plain(bags: seq<Bag>)

  ghost predicate ValidBag(bag: Bag) {
    match bag
    case X509(_, _) => true
    case OtherCert(certId, _, _) => certId != X509CertificateOid()
    case OtherBag(bagId, _, _) => bagId != CertBagOid()
  }

  ghost predicate ValidBags(bags: seq<Bag>) {
    bags == [] || (ValidBag(bags[0]) && ValidBags(bags[1..]))
  }

  ghost predicate ValidContents(contents: seq<Content>) {
    contents == [] || ((contents[0].Plain? ==> ValidBags(contents[0].bags)) && ValidContents(contents[1..]))
  }

  function PrintX509Value(forms: Forms, at: Path, der: bytes): bytes {
    Der(forms(at + [0]), OBJECT_IDENTIFIER, X509CertificateOid())
      + Der(forms(at + [1]), CONTEXT_0, Der(forms(at + [1, 0]), OCTET_STRING, der))
  }

  function BagId(bag: Bag): bytes {
    if bag.OtherBag? then bag.bagId else CertBagOid()
  }

  function BagValue(forms: Forms, at: Path, bag: Bag): bytes {
    match bag
    case X509(der, _) => Der(forms(at), SEQUENCE, PrintX509Value(forms, at, der))
    case OtherCert(certId, value, _) =>
      Der(forms(at), SEQUENCE, Der(forms(at + [0]), OBJECT_IDENTIFIER, certId) + value)
    case OtherBag(_, value, _) => value
  }

  function BagBody(forms: Forms, at: Path, bag: Bag): bytes {
    Der(forms(at + [0]), OBJECT_IDENTIFIER, BagId(bag))
      + (Der(forms(at + [1]), CONTEXT_0, BagValue(forms, at + [1, 0], bag)) + bag.attributes)
  }

  function PrintBags(forms: Forms, at: Path, k: nat, bags: seq<Bag>): bytes
    decreases |bags|
  {
    if bags == [] then []
    else Der(forms(at + [k]), SEQUENCE, BagBody(forms, at + [k], bags[0])) + PrintBags(forms, at, k + 1, bags[1..])
  }

  /** The body of an id-data ContentInfo whose OCTET STRING holds `payload`. */
  function DataBody(forms: Forms, at: Path, payload: bytes): bytes {
    Der(forms(at + [0]), OBJECT_IDENTIFIER, DataOid())
      + Der(forms(at + [1]), CONTEXT_0, Der(forms(at + [1, 0]), OCTET_STRING, payload))
  }

  function SafeContents(forms: Forms, at: Path, bags: seq<Bag>): bytes {
    Der(forms(at), SEQUENCE, PrintBags(forms, at, 0, bags))
  }

  function ContentBody(forms: Forms, at: Path, content: Content): bytes {
    match content
    case Sealed(body) => Der(forms(at + [0]), OBJECT_IDENTIFIER, EncryptedDataOid()) + body
    case Plain(bags) => DataBody(forms, at, SafeContents(forms, at + [1, 0, 0], bags))
  }

  function PrintContents(forms: Forms, at: Path, k: nat, contents: seq<Content>): bytes
    decreases |contents|
  {
    if contents == [] then []
    else
      Der(forms(at + [k]), SEQUENCE, ContentBody(forms, at + [k], contents[0]))
        + PrintContents(forms, at, k + 1, contents[1..])
  }

  function PrintSafe(forms: Forms, at: Path, contents: seq<Content>): bytes {
    Der(forms(at), SEQUENCE, PrintContents(forms, at, 0, contents))
  }

  /** The content of the outer SEQUENCE: version, authSafe ContentInfo, then any macData. */
  function PfxBody(forms: Forms, version: bytes, authSafe: bytes, macData: bytes): bytes {
    Der(forms([0]), INTEGER, version) + (Der(forms([1]), SEQUENCE, authSafe) + macData)
  }

  const SAFE: Path := [1, 1, 0, 0]

  /** The authSafe ContentInfo's body: the AuthenticatedSafe in an id-data content. */
  function SafeBody(forms: Forms, contents: seq<Content>): bytes {
    DataBody(forms, [1], PrintSafe(forms, SAFE, contents))
  }

  function PrintPfx(forms: Forms, version: bytes, contents: seq<Content>, macData: bytes, trailer: bytes): bytes {
    Der(forms([]), SEQUENCE, PfxBody(forms, version, SafeBody(forms, contents), macData)) + trailer
  }

  // ---- what a store holds ----

  function BagCert(bag: Bag): Option<bytes> {
    if bag.X509? then Some(bag.der) else None
  }

  function BagCerts(bags: seq<Bag>): seq<bytes> {
    if bags == [] then [] else WithBag([], BagCert(bags[0])) + BagCerts(bags[1..])
  }

  function ContentCerts(content: Content): seq<bytes> {
    if content.Plain? then BagCerts(content.bags) else []
  }

  /** The DERs of the x509 cert bags of the plain contents, in file order. */
  function StoreCerts(contents: seq<Content>): seq<bytes> {
    if contents == [] then [] else ContentCerts(contents[0]) + StoreCerts(contents[1..])
  }

  /** An encrypted content comes before the point where `room` certificates have been read. */
  predicate SealedWithin(contents: seq<Content>, room: int) {
    contents != [] && room > 0 &&
      (contents[0].Sealed? || SealedWithin(contents[1..], room - |ContentCerts(contents[0])|))
  }

  /**
   * Reading a printed store: the certificates are the first 4096 x509 cert-bag DERs of the plain
   * contents in order; `partial` says that an encrypted content was passed over and a certificate
   * was read; and a store that gives none fails as `encrypted` when something was encrypted and
   * as `no-certificates` when nothing was.
   */
  lemma Pkcs12RoundTrip(forms: Forms, version: bytes, contents: seq<Content>, macData: bytes, trailer: bytes)
    requires ValidForms(forms) && ValidContents(contents)
    requires |PfxBody(forms, version, SafeBody(forms, contents), macData)| < MAX_UINT32
    ensures var read := KeystoreMeaning(PrintPfx(forms, version, contents, macData, trailer), MAX_DER_DEPTH);
      && read.format == Some(Pkcs12)
      && read.certificates == Capped(StoreCerts(contents))
      && (read.partial <==> SealedWithin(contents, MOST) && read.certificates != [])
      && (read.failure == Some(Encrypted) <==>
            read.certificates == [] && SealedWithin(contents, MOST))
      && (read.failure == Some(NoCertificates) <==>
            read.certificates == [] && !SealedWithin(contents, MOST))
      && (read.failure == None <==> read.certificates != [])
  {
    hide PfxBody, GatherPkcs12, StoreCerts, SealedWithin, Capped, JksMeaning;
    var b := PrintPfx(forms, version, contents, macData, trailer);
    PfxRead(b, forms, version, SafeBody(forms, contents), macData, trailer, MAX_DER_DEPTH);
    GatherRead(b, forms, version, contents, macData, trailer);
  }

  lemma GatherRead(b: bytes, forms: Forms, version: bytes, contents: seq<Content>, macData: bytes, trailer: bytes)
    requires b == PrintPfx(forms, version, contents, macData, trailer)
    requires ValidForms(forms) && ValidContents(contents)
    requires |PfxBody(forms, version, SafeBody(forms, contents), macData)| < MAX_UINT32
    ensures GatherPkcs12(b, MAX_DER_DEPTH)
         == Ok(Gathered(Capped(StoreCerts(contents)), SealedWithin(contents, MOST)))
  {
    hide PfxBody, DataBody, PrintContents, ReadSafe, StoreCerts, SealedWithin, Capped, At, Der, Expect, ValidForms, AuthSafeCi,
         ReadContentInfoOctets;
    var safe := PrintSafe(forms, SAFE, contents);
    var authSafe := SafeBody(forms, contents);
    PfxRead(b, forms, version, authSafe, macData, trailer, MAX_DER_DEPTH);
    PfxBodyBounds(forms, version, authSafe, macData);
    DataBodyRead(b, AuthSafeCi(b, MAX_DER_DEPTH).value.start, 2, MAX_DER_DEPTH, forms, [1], safe);
    SafeStart(forms, contents);
    var inner := PrintContents(forms, SAFE, 0, contents);
    FieldRead(safe, 0, 3, MAX_DER_DEPTH, forms, SAFE, SEQUENCE, inner, Truncated);
    ContentsRead(safe, |safe| - |inner|, |safe|, forms, SAFE, 0, contents, Gathered([], false), MAX_DER_DEPTH);
    SafeEnds(safe, |safe|, Gathered(Capped([] + StoreCerts(contents)), SealedWithin(contents, MOST)), MAX_DER_DEPTH);
    assert [] + StoreCerts(contents) == StoreCerts(contents);
  }

  ghost predicate AnySealed(contents: seq<Content>) {
    exists c :: c in contents && c.Sealed?
  }

  /** With no more certificates than the cap, "passed over" is simply "present". */
  lemma {:induction false} SealedWithinCap(contents: seq<Content>, room: nat)
    requires |StoreCerts(contents)| < room
    ensures SealedWithin(contents, room) <==> AnySealed(contents)
  {
    hide ContentCerts;
    if contents != [] {
      var first, rest := contents[0], contents[1..];
      assert contents == [first] + rest;
      SealedWithinCap(rest, room - |ContentCerts(first)|);
      assert forall c :: c in contents <==> c == first || c in rest;
    }
  }

  const DER: Forms := (_: Path) => DerForm

  /**
   * A store in DER proper with fewer certificates than the cap: they are all read, and something
   * was skipped exactly when something was encrypted.
   */
  lemma DerStoreRead(version: bytes, contents: seq<Content>, macData: bytes, trailer: bytes)
    requires ValidContents(contents) && |StoreCerts(contents)| < MOST
    requires |PfxBody(DER, version, SafeBody(DER, contents), macData)| < MAX_UINT32
    ensures var certs := StoreCerts(contents);
      KeystoreMeaning(PrintPfx(DER, version, contents, macData, trailer), MAX_DER_DEPTH)
      == KeystoreRead(Some(Pkcs12), certs, AnySealed(contents) && certs != [],
                      if certs != [] then None else if AnySealed(contents) then Some(Encrypted) else Some(NoCertificates))
  {
    hide PfxBody, PrintPfx, SafeBody, KeystoreMeaning, StoreCerts, SealedWithin, AnySealed, ValidForm;
    DerFormIsValid();
    assert forall p: Path :: DER(p) == DerForm;
    Pkcs12RoundTrip(DER, version, contents, macData, trailer);
    SealedWithinCap(contents, MOST);
  }

  /** A store whose authSafe is itself encryptedData is reported `encrypted`. */
  lemma SealedStore(forms: Forms, version: bytes, body: bytes, macData: bytes, trailer: bytes)
    requires ValidForms(forms)
    requires |PfxBody(forms, version, ContentBody(forms, [1], Sealed(body)), macData)| < MAX_UINT32
    ensures var authSafe := ContentBody(forms, [1], Sealed(body));
      KeystoreMeaning(Der(forms([]), SEQUENCE, PfxBody(forms, version, authSafe, macData)) + trailer, MAX_DER_DEPTH)
      == FailureResult(Some(Pkcs12), Encrypted)
  {
    hide PfxBody, ReadSafe;
    var authSafe := ContentBody(forms, [1], Sealed(body));
    var b := Der(forms([]), SEQUENCE, PfxBody(forms, version, authSafe, macData)) + trailer;
    PfxRead(b, forms, version, authSafe, macData, trailer, MAX_DER_DEPTH);
    PfxBodyBounds(forms, version, authSafe, macData);
    SealedRead(b, AuthSafeCi(b, MAX_DER_DEPTH).value.start, 2, MAX_DER_DEPTH, forms, [1], body);
  }

  // ---- the outer layers ----

  lemma PfxBodyBounds(forms: Forms, version: bytes, authSafe: bytes, macData: bytes)
    ensures |authSafe| < |PfxBody(forms, version, authSafe, macData)|
    ensures |version| < |PfxBody(forms, version, authSafe, macData)|
  {
  }

  lemma SafeStart(forms: Forms, contents: seq<Content>)
    ensures var safe, inner := PrintSafe(forms, SAFE, contents), PrintContents(forms, SAFE, 0, contents);
      && At(safe, 0, Der(forms(SAFE), SEQUENCE, inner))
      && |inner| < |safe| < |SafeBody(forms, contents)|
  {
  }

  /** The outer shape is recognised and the authSafe ContentInfo is found. */
  lemma PfxRead(b: bytes, forms: Forms, version: bytes, authSafe: bytes, macData: bytes, trailer: bytes, cap: nat)
    requires b == Der(forms([]), SEQUENCE, PfxBody(forms, version, authSafe, macData)) + trailer
    requires ValidForms(forms) && |PfxBody(forms, version, authSafe, macData)| < MAX_UINT32 && cap >= 1
    ensures |b| >= 4 && b[0] == SEQUENCE
    ensures BigEndian(b, 0, UINT32) != JKS_MAGIC && BigEndian(b, 0, UINT32) != JCEKS_MAGIC
    ensures AuthSafeCi(b, cap).Ok? && At(b, AuthSafeCi(b, cap).value.start, authSafe)
  {
    hide At, Der, Expect, ValidForms, DataOid, EncryptedDataOid, CertBagOid, X509CertificateOid, BigEndian;
    var body := PfxBody(forms, version, authSafe, macData);
    var pfx := Der(forms([]), SEQUENCE, body);
    var number, ci := Der(forms([0]), INTEGER, version), Der(forms([1]), SEQUENCE, authSafe);
    OuterRead(b, forms, body, trailer, cap);
    var start := |pfx| - |body|;
    AtConcat(b, start, number, ci + macData);
    FieldRead(b, start, 1, cap, forms, [0], INTEGER, version, UnsupportedFormat);
    AtConcat(b, start + |number|, ci, macData);
    FieldRead(b, start + |number|, 1, cap, forms, [1], SEQUENCE, authSafe, UnsupportedFormat);
  }

  lemma OuterRead(b: bytes, forms: Forms, body: bytes, trailer: bytes, cap: nat)
    requires b == Der(forms([]), SEQUENCE, body) + trailer
    requires ValidForms(forms) && 2 <= |body| < MAX_UINT32
    ensures |b| >= 4 && b[0] == SEQUENCE
    ensures BigEndian(b, 0, UINT32) != JKS_MAGIC && BigEndian(b, 0, UINT32) != JCEKS_MAGIC
    ensures var end := |Der(forms([]), SEQUENCE, body)|;
      Expect(b, 0, 0, cap, SEQUENCE, UnsupportedFormat) == Ok(Tlv(SEQUENCE, end - |body|, end))
      && end <= |b| && At(b, end - |body|, body)
  {
    hide At, Der, Expect, ValidForms, DataOid, EncryptedDataOid, CertBagOid, X509CertificateOid, BigEndian;
    WholeAt(b, Der(forms([]), SEQUENCE, body), trailer);
    DerParts(b, 0, forms([]), SEQUENCE, body);
    FirstByteOfMagic(b);
    FieldRead(b, 0, 0, cap, forms, [], SEQUENCE, body, UnsupportedFormat);
  }

  lemma WholeAt(b: bytes, s: bytes, t: bytes)
    requires b == s + t
    ensures At(b, 0, s)
  {
    assert At(b, 0, s + t);
    AtConcat(b, 0, s, t);
  }

  lemma FirstByteOfMagic(b: bytes)
    requires |b| >= 4 && b[0] == SEQUENCE
    ensures BigEndian(b, 0, UINT32) != JKS_MAGIC && BigEndian(b, 0, UINT32) != JCEKS_MAGIC
  {
    assert BigEndian(b, 0, 1) == 0x30;
    assert BigEndian(b, 0, 2) < 0x3100;
    assert BigEndian(b, 0, 3) < 0x310000;
  }

  /** An id-data ContentInfo is unwrapped to its payload. */
  lemma DataBodyRead(b: bytes, start: nat, depth: nat, cap: nat, forms: Forms, at: Path, payload: bytes)
    requires At(b, start, DataBody(forms, at, payload)) && |DataBody(forms, at, payload)| < MAX_UINT32
    requires ValidForms(forms) && depth < cap
    ensures ReadContentInfoOctets(b, start, depth, cap) == Ok(payload)
  {
    hide At, Der, Expect, ValidForms, DataOid, EncryptedDataOid, CertBagOid, X509CertificateOid;
    var oid := Der(forms(at + [0]), OBJECT_IDENTIFIER, DataOid());
    var octet := Der(forms(at + [1, 0]), OCTET_STRING, payload);
    var wrapper := Der(forms(at + [1]), CONTEXT_0, octet);
    OidsDiffer();
    OidsKnown();
    AtConcat(b, start, oid, wrapper);
    FieldRead(b, start, depth, cap, forms, at + [0], OBJECT_IDENTIFIER, DataOid(), UnsupportedFormat);
    FieldRead(b, start + |oid|, depth, cap, forms, at + [1], CONTEXT_0, octet, UnsupportedFormat);
    var inner := start + |oid| + |wrapper| - |octet|;
    FieldRead(b, inner, depth + 1, cap, forms, at + [1, 0], OCTET_STRING, payload, UnsupportedFormat);
  }

  lemma SealedRead(b: bytes, start: nat, depth: nat, cap: nat, forms: Forms, at: Path, body: bytes)
    requires At(b, start, ContentBody(forms, at, Sealed(body))) && |ContentBody(forms, at, Sealed(body))| < MAX_UINT32
    requires ValidForms(forms) && depth <= cap
    ensures ReadContentInfoOctets(b, start, depth, cap) == Err(Encrypted)
  {
    hide At, Der, Expect, ValidForms, DataOid, EncryptedDataOid, CertBagOid, X509CertificateOid;
    OidsKnown();
    AtConcat(b, start, Der(forms(at + [0]), OBJECT_IDENTIFIER, EncryptedDataOid()), body);
    FieldRead(b, start, depth, cap, forms, at + [0], OBJECT_IDENTIFIER, EncryptedDataOid(), UnsupportedFormat);
  }

  /** The identifiers that are printed are the ones that are looked for. */
  lemma OidsKnown()
    ensures DataOid() == OID_DATA && EncryptedDataOid() == OID_ENCRYPTED_DATA
    ensures CertBagOid() == OID_CERT_BAG && X509CertificateOid() == OID_X509_CERTIFICATE
  {
    hide DataOid, EncryptedDataOid, CertBagOid, X509CertificateOid;
    DataKnown();
    CertBagsKnown();
  }

  lemma DataKnown()
    ensures DataOid() == OID_DATA && EncryptedDataOid() == OID_ENCRYPTED_DATA
  {
    hide Oid, Subidentifiers;
    UnderPkcs([1, 7, 1]);
    UnderPkcs([1, 7, 6]);
  }

  lemma CertBagsKnown()
    ensures CertBagOid() == OID_CERT_BAG && X509CertificateOid() == OID_X509_CERTIFICATE
  {
    hide Oid, Subidentifiers;
    UnderPkcs([1, 12, 10, 1, 3]);
    UnderPkcs([1, 9, 22, 1]);
  }

  lemma OidsDiffer()
    ensures DataOid() != EncryptedDataOid()
  {
    hide DataOid, EncryptedDataOid;
    OidsKnown();
    assert OID_DATA[8] != OID_ENCRYPTED_DATA[8];
  }

  // ---- contents and bags ----

  /** Whatever follows printed contents is read with what they held already gathered. */
  lemma {:induction false} ContentsRead(
    b: bytes, pos: nat, end: nat, forms: Forms, at: Path, k: nat, contents: seq<Content>, got: Gathered, cap: nat)
    requires At(b, pos, PrintContents(forms, at, k, contents)) && |b| < MAX_UINT32
    requires ValidForms(forms) && ValidContents(contents) && cap >= 11
    requires |got.certs| <= MOST && pos + |PrintContents(forms, at, k, contents)| <= end
    ensures ReadSafe(b, pos, end, got, cap)
         == ReadSafe(b, pos + |PrintContents(forms, at, k, contents)|, end,
                     Gathered(Capped(got.certs + StoreCerts(contents)),
                              got.sawEncrypted || SealedWithin(contents, MOST - |got.certs|)), cap)
    decreases |contents|
  {
    hide At, Der, Expect, ValidForms, DataOid, EncryptedDataOid, CertBagOid, X509CertificateOid, Capped, ReadContentInfoOctets, ContentBody, GatherOne, ContentCerts, ValidBags;
    var room := MOST - |got.certs|;
    if contents == [] {
      CappedPrefix(got.certs, []);
    } else if room == 0 {
      CappedPrefix(got.certs, StoreCerts(contents));
    } else {
      var first, rest := contents[0], contents[1..];
      var body := ContentBody(forms, at + [k], first);
      var ci, more := Der(forms(at + [k]), SEQUENCE, body), PrintContents(forms, at, k + 1, rest);
      AtConcat(b, pos, ci, more);
      AtInside(b, pos, ci);
      FieldRead(b, pos, 4, cap, forms, at + [k], SEQUENCE, body, Truncated);
      var next := pos + |ci|;
      assert pos + |PrintContents(forms, at, k, contents)| == next + |more|;
      ContentRead(b, next - |body|, forms, at + [k], first, got, cap);
      var certs := Capped(got.certs + ContentCerts(first));
      CappedTwice(got.certs, ContentCerts(first), StoreCerts(rest));
      var step := Gathered(certs, got.sawEncrypted || first.Sealed?);
      ContentsRead(b, next, end, forms, at, k + 1, rest, step, cap);
      assert ReadSafe(b, pos, end, got, cap) == ReadSafe(b, next, end, step, cap);
      SealedAfter(first, rest, got.certs);
    }
  }

  lemma AtInside(b: bytes, o: nat, t: bytes)
    requires At(b, o, t)
    ensures o + |t| <= |b|
  {
  }

  lemma SafeEnds(b: bytes, end: nat, got: Gathered, cap: nat)
    ensures ReadSafe(b, end, end, got, cap) == Ok(got)
  {
  }

  lemma BagsEnd(b: bytes, end: nat, certs: seq<bytes>, cap: nat)
    ensures ReadBags(b, end, end, certs, cap) == Ok(certs)
  {
  }

  /** Capping twice is capping once. */
  lemma CappedTwice(xs: seq<bytes>, ys: seq<bytes>, zs: seq<bytes>)
    ensures Capped(Capped(xs + ys) + zs) == Capped(xs + (ys + zs))
    ensures |Capped(xs + ys)| <= MOST
  {
    assert xs + ys + zs == xs + (ys + zs);
  }

  /** Capping the certificates read so far loses no encrypted content still within the cap. */
  lemma SealedAfter(first: Content, rest: seq<Content>, certs: seq<bytes>)
    requires |certs| < MOST
    ensures var room := MOST - |certs|;
      SealedWithin([first] + rest, room) <==>
        first.Sealed? || SealedWithin(rest, MOST - |Capped(certs + ContentCerts(first))|)
  {
    assert ([first] + rest)[1..] == rest;
  }

  lemma ContentRead(b: bytes, start: nat, forms: Forms, at: Path, content: Content, got: Gathered, cap: nat)
    requires At(b, start, ContentBody(forms, at, content)) && |ContentBody(forms, at, content)| < MAX_UINT32
    requires ValidForms(forms) && (content.Plain? ==> ValidBags(content.bags)) && cap >= 11
    requires |got.certs| <= MOST
    ensures GatherOne(ReadContentInfoOctets(b, start, 5, cap), got, cap)
         == Ok(Gathered(Capped(got.certs + ContentCerts(content)), got.sawEncrypted || content.Sealed?))
  {
    hide At, Der, ReadContentInfoOctets, Capped, ReadBags, BagCerts, ValidBags, PrintBags;
    match content {
      case Sealed(body) =>
        SealedRead(b, start, 5, cap, forms, at, body);
        CappedPrefix(got.certs, []);
      case Plain(bags) =>
        var payload := SafeContents(forms, at + [1, 0, 0], bags);
        DataBodyRead(b, start, 5, cap, forms, at, payload);
        SafeContentsRead(forms, at + [1, 0, 0], bags, got.certs, cap);
    }
  }

  lemma SafeContentsRead(forms: Forms, at: Path, bags: seq<Bag>, certs: seq<bytes>, cap: nat)
    requires |SafeContents(forms, at, bags)| < MAX_UINT32
    requires ValidForms(forms) && ValidBags(bags) && cap >= 11 && |certs| <= MOST
    ensures ReadSafeContents(SafeContents(forms, at, bags), certs, cap) == Ok(Capped(certs + BagCerts(bags)))
  {
    hide Der, Expect, ValidForms, Capped, ReadBags, BagCerts, PrintBags, ValidBags;
    var contents := SafeContents(forms, at, bags);
    var inner := PrintBags(forms, at, 0, bags);
    FieldRead(contents, 0, 6, cap, forms, at, SEQUENCE, inner, Truncated);
    BagsRead(contents, |contents| - |inner|, |contents|, forms, at, 0, bags, certs, cap);
    BagsEnd(contents, |contents|, Capped(certs + BagCerts(bags)), cap);
  }

  /** Whatever follows printed bags is read with what they held already gathered. */
  lemma {:induction false} BagsRead(
    b: bytes, pos: nat, end: nat, forms: Forms, at: Path, k: nat, bags: seq<Bag>, certs: seq<bytes>, cap: nat)
    requires At(b, pos, PrintBags(forms, at, k, bags)) && |b| < MAX_UINT32
    requires ValidForms(forms) && ValidBags(bags) && cap >= 11 && |certs| <= MOST
    requires pos + |PrintBags(forms, at, k, bags)| <= end
    ensures ReadBags(b, pos, end, certs, cap)
         == ReadBags(b, pos + |PrintBags(forms, at, k, bags)|, end, Capped(certs + BagCerts(bags)), cap)
    decreases |bags|
  {
    hide At, Der, Expect, ValidForms, DataOid, EncryptedDataOid, CertBagOid, X509CertificateOid, Capped, BagBody, ExtractCertFromBag, ValidBag, BagCert, BagCerts;
    if bags == [] {
      NoBagCerts();
      CappedPrefix(certs, []);
    } else if |certs| == MOST {
      CappedPrefix(certs, BagCerts(bags));
    } else {
      var first, rest := bags[0], bags[1..];
      var body := BagBody(forms, at + [k], first);
      var bag, more := Der(forms(at + [k]), SEQUENCE, body), PrintBags(forms, at, k + 1, rest);
      AtConcat(b, pos, bag, more);
      AtInside(b, pos, bag);
      FieldRead(b, pos, 7, cap, forms, at + [k], SEQUENCE, body, Truncated);
      var next := pos + |bag|;
      assert pos + |PrintBags(forms, at, k, bags)| == next + |more|;
      BagRead(b, next - |body|, forms, at + [k], first, cap);
      var extended := WithBag(certs, BagCert(first));
      BagsRead(b, next, end, forms, at, k + 1, rest, extended, cap);
      assert ReadBags(b, pos, end, certs, cap) == ReadBags(b, next, end, extended, cap);
      CertsAfter(certs, bags);
    }
  }

  lemma NoBagCerts()
    ensures BagCerts([]) == []
  {
  }

  lemma CertsAfter(certs: seq<bytes>, bags: seq<Bag>)
    requires bags != []
    ensures WithBag(certs, BagCert(bags[0])) + BagCerts(bags[1..]) == certs + BagCerts(bags)
  {
    hide BagCert, WithBag;
    WithBagThen(certs, BagCert(bags[0]), BagCerts(bags[1..]));
  }

  lemma WithBagThen(certs: seq<bytes>, cert: Option<bytes>, more: seq<bytes>)
    ensures WithBag(certs, cert) + more == certs + (WithBag([], cert) + more)
  {
  }

  /** A printed bag gives its DER exactly when it is an x509 certBag. */
  lemma BagRead(b: bytes, start: nat, forms: Forms, at: Path, bag: Bag, cap: nat)
    requires At(b, start, BagBody(forms, at, bag)) && |BagBody(forms, at, bag)| < MAX_UINT32
    requires ValidForms(forms) && ValidBag(bag) && cap >= 11
    ensures ExtractCertFromBag(b, start, 8, cap) == Ok(BagCert(bag))
  {
    hide At, Der, Expect, ValidForms, DataOid, EncryptedDataOid, CertBagOid, X509CertificateOid, BagValue, ExtractCertBag;
    OidsKnown();
    var value := BagValue(forms, at + [1, 0], bag);
    var bagId, wrapper := Der(forms(at + [0]), OBJECT_IDENTIFIER, BagId(bag)), Der(forms(at + [1]), CONTEXT_0, value);
    AtConcat(b, start, bagId, wrapper + bag.attributes);
    FieldRead(b, start, 8, cap, forms, at + [0], OBJECT_IDENTIFIER, BagId(bag), Truncated);
    AtConcat(b, start + |bagId|, wrapper, bag.attributes);
    FieldRead(b, start + |bagId|, 8, cap, forms, at + [1], CONTEXT_0, value, Truncated);
    if !bag.OtherBag? {
      CertBagRead(b, start + |bagId| + |wrapper| - |value|, forms, at + [1, 0], bag, cap);
    }
  }

  lemma CertBagRead(b: bytes, start: nat, forms: Forms, at: Path, bag: Bag, cap: nat)
    requires At(b, start, BagValue(forms, at, bag)) && |BagValue(forms, at, bag)| < MAX_UINT32
    requires ValidForms(forms) && ValidBag(bag) && !bag.OtherBag? && cap >= 11
    ensures ExtractCertBag(b, start, 9, cap) == Ok(BagCert(bag))
  {
    hide At, Der, Expect, ValidForms, DataOid, EncryptedDataOid, CertBagOid, X509CertificateOid;
    OidsKnown();
    if bag.X509? {
      var octet := Der(forms(at + [1, 0]), OCTET_STRING, bag.der);
      var value := Der(forms(at + [1]), CONTEXT_0, octet);
      var inner := CertIdRead(b, start, forms, at, X509CertificateOid(), value, cap);
      FieldRead(b, inner, 10, cap, forms, at + [1], CONTEXT_0, octet, Truncated);
      FieldRead(b, inner + |value| - |octet|, 11, cap, forms, at + [1, 0], OCTET_STRING, bag.der, Truncated);
    } else {
      var _ := CertIdRead(b, start, forms, at, bag.certId, bag.value, cap);
    }
  }

  /** The SEQUENCE of a certBag and its certificate type, which the value follows. */
  lemma CertIdRead(b: bytes, start: nat, forms: Forms, at: Path, certId: bytes, value: bytes, cap: nat) returns (inner: nat)
    requires At(b, start, Der(forms(at), SEQUENCE, Der(forms(at + [0]), OBJECT_IDENTIFIER, certId) + value))
    requires |Der(forms(at + [0]), OBJECT_IDENTIFIER, certId) + value| < MAX_UINT32
    requires ValidForms(forms) && cap >= 11
    ensures var certBag := Expect(b, start, 9, cap, SEQUENCE, Truncated);
      && certBag.Ok?
      && var oid := Expect(b, certBag.value.start, 10, cap, OBJECT_IDENTIFIER, Truncated);
         oid.Ok? && b[oid.value.start..oid.value.end] == certId && oid.value.end == inner
    ensures At(b, inner, value)
  {
    hide At, Der, Expect, ValidForms, DataOid, EncryptedDataOid, CertBagOid, X509CertificateOid;
    var oid := Der(forms(at + [0]), OBJECT_IDENTIFIER, certId);
    FieldRead(b, start, 9, cap, forms, at, SEQUENCE, oid + value, Truncated);
    var body := start + |Der(forms(at), SEQUENCE, oid + value)| - |oid + value|;
    AtConcat(b, body, oid, value);
    FieldRead(b, body, 10, cap, forms, at + [0], OBJECT_IDENTIFIER, certId, Truncated);
    inner := body + |oid|;
  }
}
