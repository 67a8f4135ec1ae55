/**
 * The keystore reader (src/net/java-keystore.ts): JKS, a flat length-prefixed record stream,
 * and PKCS#12 (RFC 7292), a walk over nested definite-length DER.
 *
 * A throw is an `Err`. The functions give each format's meaning on a whole byte string; the
 * methods are the source's loops, proved to compute exactly that meaning.
 */
module Keystore {
  import opened Wrappers
  import opened Bits

  datatype Format = Jks | Pkcs12

  datatype Failure =
    | UnsupportedFormat
    | UnsupportedEncoding
    | Truncated
    | Encrypted
    | NoCertificates

  datatype KeystoreRead = KeystoreRead(
    format: Option<Format>, certificates: seq<bytes>, partial: bool, failure: Option<Failure>)

  type Parsed<+T> = Result<T, Failure>

  const MAX_DER_DEPTH: nat := 16
  const MAX_KEYSTORE_CERTIFICATES: nat := 4096

  const JKS_MAGIC: nat := 0xfeedfeed
  const JCEKS_MAGIC: nat := 0xcececece
  const JKS_PRIVATE_KEY_TAG: nat := 1
  const JKS_TRUSTED_CERT_TAG: nat := 2

  /** Widths of the two kinds of number field, in bytes. */
  const UINT16: nat := 2
  const UINT32: nat := 4

  function FailureResult(format: Option<Format>, reason: Failure): KeystoreRead {
    KeystoreRead(format, [], false, Some(reason))
  }

  // ---- reading integers and skipping by length ----

  /** The big-endian uint32 at `o`. */
  function Uint32At(b: bytes, o: nat): Parsed<nat> {
    if o + 4 > |b| then Err(Truncated) else Ok(BigEndian(b, o, UINT32))
  }

  /** The big-endian uint16 at `o`. */
  function Uint16At(b: bytes, o: nat): Parsed<nat> {
    if o + 2 > |b| then Err(Truncated) else Ok(BigEndian(b, o, UINT16))
  }

  /** `readUint32`: four bytes assembled by shift-and-or. */
  method ReadUint32(b: bytes, offset: nat) returns (r: Parsed<nat>)
    ensures r == Uint32At(b, offset)
  {
    if offset + 4 > |b| { return Err(Truncated); }
    var b0, b1, b2, b3 := b[offset], b[offset + 1], b[offset + 2], b[offset + 3];
    ShiftOrIsBigEndian4(b, offset);
    r := Ok(Or(Or(Or(ShiftLeft(b0, 24), ShiftLeft(b1, 16)), ShiftLeft(b2, 8)), b3));
  }

  /** `readUint16`: two bytes assembled by shift-and-or. */
  method ReadUint16(b: bytes, offset: nat) returns (r: Parsed<nat>)
    ensures r == Uint16At(b, offset)
  {
    if offset + 2 > |b| { return Err(Truncated); }
    ShiftOrIsBigEndian2(b, offset);
    r := Ok(Or(ShiftLeft(b[offset], 8), b[offset + 1]));
  }

  /** `o + length`, checked against the end of the buffer. */
  function Advance(b: bytes, o: nat, length: nat): (r: Parsed<nat>)
    ensures r.Ok? ==> r.value == o + length <= |b|
  {
    if o + length > |b| then Err(Truncated) else Ok(o + length)
  }

  // ---- JKS ----

  /** Where one certificate lies in the buffer. */
  datatype Span = Span(start: nat, end: nat)

  /** The spans follow one another without overlap and end at or before `limit`. */
  ghost predicate OrderedWithin(spans: seq<Span>, limit: nat) {
    && (forall i :: 0 <= i < |spans| ==> spans[i].start <= spans[i].end <= limit)
    && (forall i, j :: 0 <= i < j < |spans| ==> spans[i].end <= spans[j].start)
  }

  /** The bytes under each span. */
  function Slices(b: bytes, spans: seq<Span>): (cs: seq<bytes>)
    requires OrderedWithin(spans, |b|)
    ensures |cs| == |spans|
    ensures forall i :: 0 <= i < |spans| ==> cs[i] == b[spans[i].start..spans[i].end]
  {
    if spans == [] then [] else
      var last := spans[|spans| - 1];
      Slices(b, spans[..|spans| - 1]) + [b[last.start..last.end]]
  }

  /** A length-prefixed UTF field, skipped. */
  function SkipUtf(b: bytes, o: nat): (r: Parsed<nat>)
    ensures r.Ok? ==> o + 2 <= r.value <= |b|
  {
    var length :- Uint16At(b, o);
    Advance(b, o + 2, length)
  }

  /** A block with a four-byte length prefix, skipped. */
  function SkipBlock(b: bytes, o: nat): (r: Parsed<nat>)
    ensures r.Ok? ==> o + 4 <= r.value <= |b|
  {
    var length :- Uint32At(b, o);
    Advance(b, o + 4, length)
  }

  /** One chain certificate of a private-key entry: type and DER, both skipped. */
  function SkipLink(b: bytes, o: nat): (r: Parsed<nat>)
    ensures r.Ok? ==> o + 6 <= r.value <= |b|
  {
    var afterType :- SkipUtf(b, o);
    SkipBlock(b, afterType)
  }

  function SkipLinks(b: bytes, o: nat, n: nat): (r: Parsed<nat>)
    ensures r.Ok? ==> o + 6 * n <= r.value
    ensures r.Ok? && o <= |b| ==> r.value <= |b|
    decreases n
  {
    if n == 0 then Ok(o) else
      var next :- SkipLink(b, o);
      SkipLinks(b, next, n - 1)
  }

  /** What one record leaves behind: the next offset, and the certificate of a trusted entry. */
  datatype Entry = Entry(next: nat, cert: Option<Span>)

  /** The body of a private-key entry: key blob and certificate chain, both skipped. */
  function ReadKeyBody(b: bytes, o: nat): (r: Parsed<Entry>)
    ensures r.Ok? ==> o <= r.value.next <= |b| && r.value.cert.None?
  {
    var afterKey :- SkipBlock(b, o);
    var links :- Uint32At(b, afterKey);
    var next :- SkipLinks(b, afterKey + 4, links);
    Ok(Entry(next, None))
  }

  /** The body of a trusted-certificate entry: its type skipped, its DER located. */
  function ReadCertBody(b: bytes, o: nat): (r: Parsed<Entry>)
    ensures r.Ok? ==> o <= r.value.next <= |b| && r.value.cert.Some?
    ensures r.Ok? ==> o <= r.value.cert.value.start <= r.value.cert.value.end == r.value.next
  {
    var afterType :- SkipUtf(b, o);
    var next :- SkipBlock(b, afterType);
    Ok(Entry(next, Some(Span(afterType + 4, next))))
  }

  function ReadEntry(b: bytes, o: nat): (r: Parsed<Entry>)
    ensures r.Ok? ==> o + 14 <= r.value.next <= |b|
    ensures r.Ok? && r.value.cert.Some? ==> o <= r.value.cert.value.start <= r.value.cert.value.end == r.value.next
  {
    var tag :- Uint32At(b, o);
    var afterAlias :- SkipUtf(b, o + 4);
    var body :- Advance(b, afterAlias, 8);
    if tag == JKS_PRIVATE_KEY_TAG then ReadKeyBody(b, body)
    else if tag == JKS_TRUSTED_CERT_TAG then ReadCertBody(b, body)
    else Err(Truncated)
  }

  /** The spans gathered so far with the certificate of one more entry, if it has one. */
  function WithCert(spans: seq<Span>, entry: Entry, o: nat): (r: seq<Span>)
    requires OrderedWithin(spans, o) && o <= entry.next
    requires entry.cert.Some? ==> o <= entry.cert.value.start <= entry.cert.value.end == entry.next
    ensures OrderedWithin(r, entry.next) && |spans| <= |r| <= |spans| + 1
  {
    if entry.cert.Some? then spans + [entry.cert.value] else spans
  }

  /** At most `n` records from `o`, stopping once the certificate cap is reached. */
  function ReadEntries(b: bytes, o: nat, n: nat, spans: seq<Span>): (r: Parsed<seq<Span>>)
    requires o <= |b| && OrderedWithin(spans, o)
    requires |spans| <= MAX_KEYSTORE_CERTIFICATES
    ensures r.Ok? ==> OrderedWithin(r.value, |b|) && |r.value| <= MAX_KEYSTORE_CERTIFICATES
    decreases n
  {
    if n == 0 || |spans| >= MAX_KEYSTORE_CERTIFICATES then Ok(spans) else
      var entry :- ReadEntry(b, o);
      ReadEntries(b, entry.next, n - 1, WithCert(spans, entry, o))
  }

  lemma SlicesWithCert(b: bytes, spans: seq<Span>, entry: Entry, o: nat)
    requires OrderedWithin(spans, o) && o <= entry.next <= |b|
    requires entry.cert.Some? ==> o <= entry.cert.value.start <= entry.cert.value.end == entry.next
    ensures OrderedWithin(spans, |b|) && OrderedWithin(WithCert(spans, entry, o), |b|)
    ensures Slices(b, WithCert(spans, entry, o))
         == Slices(b, spans) + if entry.cert.Some? then [b[entry.cert.value.start..entry.cert.value.end]] else []
  {
  }

  function JksSpans(b: bytes): (r: Parsed<seq<Span>>)
    ensures r.Ok? ==> OrderedWithin(r.value, |b|) && |r.value| <= MAX_KEYSTORE_CERTIFICATES
  {
    var o :- Advance(b, 4, 4);
    var count :- Uint32At(b, o);
    ReadEntries(b, o + 4, count, [])
  }

  function JksRead(certificates: seq<bytes>): KeystoreRead {
    KeystoreRead(Some(Jks), certificates, false, if certificates == [] then Some(NoCertificates) else None)
  }

  /** The meaning of a JKS file. */
  function JksMeaning(b: bytes): Parsed<KeystoreRead> {
    var spans :- JksSpans(b);
    Ok(JksRead(Slices(b, spans)))
  }

  /** The chain loop of a private-key entry. `work` counts its completed iterations. */
  method SkipChain(b: bytes, start: nat, chainLen: nat) returns (r: Parsed<nat>, ghost work: nat)
    requires start <= |b|
    ensures r == SkipLinks(b, start, chainLen)
    ensures r.Ok? ==> start + 6 * work <= r.value <= |b|
    ensures start + 6 * work <= |b|
  {
    hide Uint16At, Uint32At;
    work := 0;
    var offset, link := start, 0;
    while link < chainLen
      invariant link <= chainLen && start + 6 * work <= offset <= |b|
      invariant SkipLinks(b, start, chainLen) == SkipLinks(b, offset, chainLen - link)
    {
      ghost var before := offset;
      var typeLen :- ReadUint16(b, offset);
      offset := offset + 2;
      offset :- Advance(b, offset, typeLen);
      var certLen :- ReadUint32(b, offset);
      offset := offset + 4;
      offset :- Advance(b, offset, certLen);
      assert SkipLink(b, before) == Ok(offset);
      link := link + 1;
      work := work + 1;
    }
    r := Ok(offset);
  }

  method ParseKeyBody(b: bytes, start: nat) returns (r: Parsed<Entry>, ghost work: nat)
    requires start <= |b|
    ensures r == ReadKeyBody(b, start)
    ensures start + 6 * work <= if r.Ok? then r.value.next else |b|
  {
    work := 0;
    var keyLen :- ReadUint32(b, start);
    var offset :- Advance(b, start + 4, keyLen);
    var chainLen :- ReadUint32(b, offset);
    offset, work :- SkipChain(b, offset + 4, chainLen);
    r := Ok(Entry(offset, None));
  }

  method ParseCertBody(b: bytes, start: nat) returns (r: Parsed<Entry>)
    ensures r == ReadCertBody(b, start)
  {
    var typeLen :- ReadUint16(b, start);
    var offset :- Advance(b, start + 2, typeLen);
    var certLen :- ReadUint32(b, offset);
    var certStart := offset + 4;
    offset :- Advance(b, certStart, certLen);
    r := Ok(Entry(offset, Some(Span(certStart, offset))));
  }

  /** One pass of the JKS entry loop. `work` counts the chain links and the entry itself. */
  method ParseEntry(b: bytes, start: nat) returns (r: Parsed<Entry>, ghost work: nat)
    requires start <= |b|
    ensures r == ReadEntry(b, start)
    ensures start + 6 * work <= if r.Ok? then r.value.next else |b|
  {
    work := 0;
    var tag :- ReadUint32(b, start);
    var aliasLen :- ReadUint16(b, start + 4);
    var offset :- Advance(b, start + 6, aliasLen);
    offset :- Advance(b, offset, 8);

    if tag == JKS_PRIVATE_KEY_TAG {
      r, work := ParseKeyBody(b, offset);
      if r.Ok? { work := work + 1; }
    } else if tag == JKS_TRUSTED_CERT_TAG {
      r := ParseCertBody(b, offset);
      if r.Ok? { work := 1; }
    } else {
      r := Err(Truncated);
    }
  }

  /**
   * The JKS loop. `work` counts the entry and chain-link iterations that complete; each one
   * consumes at least six bytes, so they are bounded by the file's length whatever counts
   * the file declares.
   */
  method ParseJks(b: bytes) returns (r: Parsed<KeystoreRead>, ghost work: nat)
    ensures r == JksMeaning(b)
    ensures 6 * work <= |b|
  {
    work := 0;
    var offset :- Advance(b, 4, 4);
    var count :- ReadUint32(b, offset);
    offset := offset + 4;

    var certificates: seq<bytes> := [];
    ghost var spans: seq<Span> := [];
    var entry := 0;
    while entry < count && |certificates| < MAX_KEYSTORE_CERTIFICATES
      invariant entry <= count && offset <= |b| && 6 * work <= offset
      invariant OrderedWithin(spans, offset) && |spans| <= MAX_KEYSTORE_CERTIFICATES
      invariant certificates == Slices(b, spans)
      invariant JksSpans(b) == ReadEntries(b, offset, count - entry, spans)
    {
      var parsed;
      ghost var steps;
      parsed, steps := ParseEntry(b, offset);
      work := work + steps;
      if parsed.Err? {
        assert JksSpans(b) == Err(parsed.error);
        return Err(parsed.error), work;
      }
      var read := parsed.value;
      assert JksSpans(b) == ReadEntries(b, read.next, count - entry - 1, WithCert(spans, read, offset));
      SlicesWithCert(b, spans, read, offset);
      if read.cert.Some? {
        certificates := certificates + [b[read.cert.value.start..read.cert.value.end]];
      }
      spans := WithCert(spans, read, offset);
      offset := read.next;
      entry := entry + 1;
    }
    assert JksSpans(b) == Ok(spans);
    r := Ok(JksRead(certificates));
  }

  // ---- PKCS#12 ----

  const TAG_SEQUENCE: byte := 0x30
  const TAG_INTEGER: byte := 0x02
  const TAG_OBJECT_IDENTIFIER: byte := 0x06
  const TAG_OCTET_STRING: byte := 0x04
  const TAG_CONTEXT_0: byte := 0xa0

  const OID_DATA: bytes := [0x2a, 0x86, 0x48, 0x86, 0xf7, 0x0d, 0x01, 0x07, 0x01]
  const OID_ENCRYPTED_DATA: bytes := [0x2a, 0x86, 0x48, 0x86, 0xf7, 0x0d, 0x01, 0x07, 0x06]
  const OID_CERT_BAG: bytes := [0x2a, 0x86, 0x48, 0x86, 0xf7, 0x0d, 0x01, 0x0c, 0x0a, 0x01, 0x03]
  const OID_X509_CERTIFICATE: bytes := [0x2a, 0x86, 0x48, 0x86, 0xf7, 0x0d, 0x01, 0x09, 0x16, 0x01]

  /** A tag and the bounds of its content, the header excluded. */
  datatype Tlv = Tlv(tag: byte, start: nat, end: nat)

  datatype Length = Length(length: nat, next: nat)

  /** The definite length field at `o`. Indefinite and wider-than-four-byte forms are refused. */
  function LengthAt(b: bytes, o: nat): (r: Parsed<Length>)
    ensures r.Ok? ==> o < r.value.next <= |b|
  {
    if o >= |b| then Err(Truncated)
    else if b[o] < 128 then Ok(Length(b[o], o + 1))
    else
      var width := b[o] - 128;
      if width == 0 || width > 4 then Err(UnsupportedEncoding)
      else if o + 1 + width > |b| then Err(Truncated)
      else Ok(Length(BigEndian(b, o + 1, width), o + 1 + width))
  }

  /** What the two masks of `readLength` test. */
  lemma LengthMasks(first: byte)
    ensures And(first, 0x80) == 0 <==> first < 128
    ensures And(first, 0x7f) == first % 128
  {
    hide And, Low;
    ScaleByBits(1);
    ShiftSplits(first, 7);
    ScaleByBits(ShiftRight(first, 7));
    AndLowMask(first, 7);
    AndShifted(7, ShiftRight(first, 7), Low(first, 7), 1);
    TopDigit(ShiftRight(first, 7));
    ScaleByBits(And(ShiftRight(first, 7), 1));
  }

  lemma TopDigit(d: nat)
    ensures d < 2 ==> And(d, 1) == d
  {
    assert And(0, 1) == 0 && And(1, 1) == 1;
  }

  /** `readLength` with its digit loop. */
  method ReadLength(b: bytes, offset: nat) returns (r: Parsed<Length>)
    ensures r == LengthAt(b, offset)
  {
    hide And;
    if offset >= |b| { return Err(Truncated); }
    var first := b[offset];
    LengthMasks(first);
    if And(first, 0x80) == 0 { return Ok(Length(first, offset + 1)); }
    if first == 0x80 { return Err(UnsupportedEncoding); }
    var lengthBytes := And(first, 0x7f);
    if lengthBytes == 0 || lengthBytes > 4 { return Err(UnsupportedEncoding); }
    if offset + 1 + lengthBytes > |b| { return Err(Truncated); }
    var length := 0;
    for index := 0 to lengthBytes
      invariant length == BigEndian(b, offset + 1, index)
    {
      length := length * 256 + b[offset + 1 + index] as int;
    }
    r := Ok(Length(length, offset + 1 + lengthBytes));
  }

  /**
   * One tag-length-value at `o`, checked against the buffer (not against an enclosing value).
   * `cap` is the nesting cap: `MAX_DER_DEPTH` in the source.
   */
  function ReadTlv(b: bytes, o: nat, depth: nat, cap: nat): (r: Parsed<Tlv>)
    ensures r.Ok? ==> o + 2 <= r.value.start <= r.value.end <= |b|
    ensures r != Err(Encrypted)
  {
    if depth > cap then Err(UnsupportedEncoding)
    else if o >= |b| then Err(Truncated)
    else
      var field :- LengthAt(b, o + 1);
      if field.next + field.length > |b| then Err(Truncated)
      else Ok(Tlv(b[o], field.next, field.next + field.length))
  }

  /** A TLV that must carry `tag`; a different one is thrown as `otherwise`. */
  function Expect(b: bytes, o: nat, depth: nat, cap: nat, tag: byte, otherwise: Failure): (r: Parsed<Tlv>)
    ensures r.Ok? ==> o + 2 <= r.value.start <= r.value.end <= |b|
    ensures otherwise != Encrypted ==> r != Err(Encrypted)
  {
    var tlv :- ReadTlv(b, o, depth, cap);
    if tlv.tag == tag then Ok(tlv) else Err(otherwise)
  }

  /** The content OCTET STRING of an id-data ContentInfo that starts at `start`. */
  function ReadContentInfoOctets(b: bytes, start: nat, depth: nat, cap: nat): Parsed<bytes> {
    var oid :- Expect(b, start, depth, cap, TAG_OBJECT_IDENTIFIER, UnsupportedFormat);
    if b[oid.start..oid.end] == OID_ENCRYPTED_DATA then Err(Encrypted)
    else if b[oid.start..oid.end] != OID_DATA then Err(UnsupportedFormat)
    else
      var wrapper :- Expect(b, oid.end, depth, cap, TAG_CONTEXT_0, UnsupportedFormat);
      var octet :- Expect(b, wrapper.start, depth + 1, cap, TAG_OCTET_STRING, UnsupportedFormat);
      Ok(b[octet.start..octet.end])
  }

  /** The DER of the certBag at `start`, when it holds an x509Certificate. */
  function ExtractCertBag(b: bytes, start: nat, depth: nat, cap: nat): Parsed<Option<bytes>> {
    var certBag :- Expect(b, start, depth, cap, TAG_SEQUENCE, Truncated);
    var certId :- Expect(b, certBag.start, depth + 1, cap, TAG_OBJECT_IDENTIFIER, Truncated);
    if b[certId.start..certId.end] != OID_X509_CERTIFICATE then Ok(None)
    else
      var certValue :- Expect(b, certId.end, depth + 1, cap, TAG_CONTEXT_0, Truncated);
      var certOctet :- Expect(b, certValue.start, depth + 2, cap, TAG_OCTET_STRING, Truncated);
      Ok(Some(b[certOctet.start..certOctet.end]))
  }

  /** The DER in a bag whose content starts at `start`, when it is an x509 certBag. */
  function ExtractCertFromBag(b: bytes, start: nat, depth: nat, cap: nat): Parsed<Option<bytes>> {
    var bagId :- Expect(b, start, depth, cap, TAG_OBJECT_IDENTIFIER, Truncated);
    var bagValue :- Expect(b, bagId.end, depth, cap, TAG_CONTEXT_0, Truncated);
    if b[bagId.start..bagId.end] != OID_CERT_BAG then Ok(None)
    else ExtractCertBag(b, bagValue.start, depth + 1, cap)
  }

  function WithBag(certs: seq<bytes>, cert: Option<bytes>): seq<bytes> {
    if cert.Some? then certs + [cert.value] else certs
  }

  /** The bags of one SafeContents from `pos` to `end`, appended to `certs` up to the cap. */
  function ReadBags(b: bytes, pos: nat, end: nat, certs: seq<bytes>, cap: nat): Parsed<seq<bytes>>
    decreases end - pos
  {
    if pos >= end || |certs| >= MAX_KEYSTORE_CERTIFICATES then Ok(certs) else
      var bag :- Expect(b, pos, 7, cap, TAG_SEQUENCE, Truncated);
      var cert :- ExtractCertFromBag(b, bag.start, 8, cap);
      ReadBags(b, bag.end, end, WithBag(certs, cert), cap)
  }

  function ReadSafeContents(contents: bytes, certs: seq<bytes>, cap: nat): Parsed<seq<bytes>> {
    var bags :- Expect(contents, 0, 6, cap, TAG_SEQUENCE, Truncated);
    ReadBags(contents, bags.start, bags.end, certs, cap)
  }

  /** What the walk over an AuthenticatedSafe has gathered. */
  datatype Gathered = Gathered(certs: seq<bytes>, sawEncrypted: bool)

  /** One ContentInfo of the AuthenticatedSafe: an encrypted one is noted and passed over. */
  function GatherOne(octets: Parsed<bytes>, got: Gathered, cap: nat): Parsed<Gathered> {
    match octets
    case Err(Encrypted) => Ok(got.(sawEncrypted := true))
    case Err(reason) => Err(reason)
    case Ok(contents) =>
      var certs :- ReadSafeContents(contents, got.certs, cap);
      Ok(got.(certs := certs))
  }

  function ReadSafe(b: bytes, pos: nat, end: nat, got: Gathered, cap: nat): Parsed<Gathered>
    decreases end - pos
  {
    if pos >= end || |got.certs| >= MAX_KEYSTORE_CERTIFICATES then Ok(got) else
      var ci :- Expect(b, pos, 4, cap, TAG_SEQUENCE, Truncated);
      var next :- GatherOne(ReadContentInfoOctets(b, ci.start, 5, cap), got, cap);
      ReadSafe(b, ci.end, end, next, cap)
  }

  /** The authSafe ContentInfo of a PFX. */
  function AuthSafeCi(b: bytes, cap: nat): (r: Parsed<Tlv>)
    ensures r.Ok? ==> r.value.start <= r.value.end <= |b|
  {
    var pfx :- Expect(b, 0, 0, cap, TAG_SEQUENCE, UnsupportedFormat);
    var version :- Expect(b, pfx.start, 1, cap, TAG_INTEGER, UnsupportedFormat);
    Expect(b, version.end, 1, cap, TAG_SEQUENCE, UnsupportedFormat)
  }

  /** The unwrapped authSafe of a PFX. */
  function AuthSafe(b: bytes, cap: nat): Parsed<bytes> {
    var ci :- AuthSafeCi(b, cap);
    ReadContentInfoOctets(b, ci.start, 2, cap)
  }

  function GatherPkcs12(b: bytes, cap: nat): Parsed<Gathered> {
    var safe :- AuthSafe(b, cap);
    var contents :- Expect(safe, 0, 3, cap, TAG_SEQUENCE, Truncated);
    ReadSafe(safe, contents.start, contents.end, Gathered([], false), cap)
  }

  function Pkcs12Read(got: Gathered): Parsed<KeystoreRead> {
    if got.certs == [] && got.sawEncrypted then Err(Encrypted)
    else Ok(KeystoreRead(Some(Pkcs12), got.certs, got.sawEncrypted && got.certs != [],
                         if got.certs == [] then Some(NoCertificates) else None))
  }

  /** The meaning of a PKCS#12 file under nesting cap `cap`. */
  function Pkcs12Meaning(b: bytes, cap: nat): Parsed<KeystoreRead> {
    var got :- GatherPkcs12(b, cap);
    Pkcs12Read(got)
  }

  /** The PKCS#12 loops. */
  method ParsePkcs12(b: bytes) returns (r: Parsed<KeystoreRead>)
    ensures r == Pkcs12Meaning(b, MAX_DER_DEPTH)
  {
    hide ReadTlv, ReadContentInfoOctets, ExtractCertFromBag;
    var pfx :- ReadTlv(b, 0, 0, MAX_DER_DEPTH);
    if pfx.tag != TAG_SEQUENCE { return Err(UnsupportedFormat); }
    var version :- ReadTlv(b, pfx.start, 1, MAX_DER_DEPTH);
    if version.tag != TAG_INTEGER { return Err(UnsupportedFormat); }
    var authSafeCi :- ReadTlv(b, version.end, 1, MAX_DER_DEPTH);
    if authSafeCi.tag != TAG_SEQUENCE { return Err(UnsupportedFormat); }
    var safe :- ReadContentInfoOctets(b, authSafeCi.start, 2, MAX_DER_DEPTH);
    var safeSeq :- ReadTlv(safe, 0, 3, MAX_DER_DEPTH);
    if safeSeq.tag != TAG_SEQUENCE { return Err(Truncated); }

    var certificates: seq<bytes> := [];
    var sawEncrypted := false;
    var pos := safeSeq.start;
    while pos < safeSeq.end && |certificates| < MAX_KEYSTORE_CERTIFICATES
      invariant GatherPkcs12(b, MAX_DER_DEPTH)
             == ReadSafe(safe, pos, safeSeq.end, Gathered(certificates, sawEncrypted), MAX_DER_DEPTH)
      decreases safeSeq.end - pos
    {
      var ci :- ReadTlv(safe, pos, 4, MAX_DER_DEPTH);
      if ci.tag != TAG_SEQUENCE { return Err(Truncated); }
      pos := ci.end;

      var contents: bytes;
      match ReadContentInfoOctets(safe, ci.start, 5, MAX_DER_DEPTH) {
        case Err(Encrypted) =>
          sawEncrypted := true;
          continue;
        case Err(reason) =>
          return Err(reason);
        case Ok(octets) =>
          contents := octets;
      }

      var bagsSeq :- ReadTlv(contents, 0, 6, MAX_DER_DEPTH);
      if bagsSeq.tag != TAG_SEQUENCE { return Err(Truncated); }
      ghost var before := certificates;
      var bagPos := bagsSeq.start;
      while bagPos < bagsSeq.end && |certificates| < MAX_KEYSTORE_CERTIFICATES
        invariant ReadSafeContents(contents, before, MAX_DER_DEPTH)
               == ReadBags(contents, bagPos, bagsSeq.end, certificates, MAX_DER_DEPTH)
        decreases bagsSeq.end - bagPos
      {
        var bag :- ReadTlv(contents, bagPos, 7, MAX_DER_DEPTH);
        if bag.tag != TAG_SEQUENCE { return Err(Truncated); }
        bagPos := bag.end;
        var cert :- ExtractCertFromBag(contents, bag.start, 8, MAX_DER_DEPTH);
        if cert.Some? { certificates := certificates + [cert.value]; }
      }
    }

    if certificates == [] && sawEncrypted { return Err(Encrypted); }
    r := Ok(KeystoreRead(Some(Pkcs12), certificates, sawEncrypted && certificates != [],
                         if certificates == [] then Some(NoCertificates) else None));
  }

  // ---- the entry point ----

  function TryParse(format: Format, parsed: Parsed<KeystoreRead>): KeystoreRead {
    match parsed
    case Ok(read) => read
    case Err(reason) => FailureResult(Some(format), reason)
  }

  /** The meaning of any byte string: the format is decided by the first bytes alone. */
  function KeystoreMeaning(b: bytes, cap: nat): KeystoreRead {
    if |b| < 4 then FailureResult(None, UnsupportedFormat)
    else
      var magic := BigEndian(b, 0, UINT32);
      if magic == JKS_MAGIC then TryParse(Jks, JksMeaning(b))
      else if magic == JCEKS_MAGIC then FailureResult(None, UnsupportedFormat)
      else if b[0] == TAG_SEQUENCE then TryParse(Pkcs12, Pkcs12Meaning(b, cap))
      else FailureResult(None, UnsupportedFormat)
  }

  method ReadKeystore(b: bytes) returns (read: KeystoreRead)
    ensures read == KeystoreMeaning(b, MAX_DER_DEPTH)
  {
    if |b| < 4 { return FailureResult(None, UnsupportedFormat); }
    var word := ReadUint32(b, 0);
    var magic := word.value;
    if magic == JKS_MAGIC {
      var parsed, _ := ParseJks(b);
      return TryParse(Jks, parsed);
    }
    if magic == JCEKS_MAGIC { return FailureResult(None, UnsupportedFormat); }
    if b[0] == TAG_SEQUENCE {
      var parsed := ParsePkcs12(b);
      return TryParse(Pkcs12, parsed);
    }
    read := FailureResult(None, UnsupportedFormat);
  }
}
