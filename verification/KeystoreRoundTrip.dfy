/**
 * Printers for both keystore formats, and the proof that reading what they print gives the
 * printed certificates back.
 */
module KeystoreRoundTrip {
  import opened Wrappers
  import opened Bits
  import opened Keystore

  /** `t` lies in `b` at `o`. */
  ghost predicate At(b: bytes, o: nat, t: bytes) {
    o + |t| <= |b| && b[o..o + |t|] == t
  }

  lemma AtConcat(b: bytes, o: nat, s: bytes, t: bytes)
    requires At(b, o, s + t)
    ensures At(b, o, s) && At(b, o + |s|, t)
  {
    var end := o + |s + t|;
    SliceOfSlice(b, o, end, 0, |s|);
    SliceOfSlice(b, o, end, |s|, |s| + |t|);
    assert (s + t)[0..|s|] == s;
    assert (s + t)[|s|..|s| + |t|] == t;
  }

  /** Widths of the number fields, in bytes. */
  const TWO: nat := 2
  const FOUR: nat := 4

  /** The tags of the two kinds of entry. */
  const KEY_ENTRY: nat := 1
  const CERT_ENTRY: nat := 2

  /** Certificates beyond this many are not collected. */
  const MOST: nat := 4096

  /** What the cap on collected certificates leaves of a list. */
  function Capped(certs: seq<bytes>): seq<bytes> {
    if |certs| > MOST then certs[..MOST] else certs
  }

  // ---- JKS ----

  datatype Link = Link(certType: bytes, der: bytes)

  datatype JksEntry =
    | PrivateKey(alias: bytes, stamp: bytes, key: bytes, chain: seq<Link>)
    | TrustedCert(alias: bytes, stamp: bytes, certType: bytes, der: bytes)

  const MAX_UINT32: nat := 0x1_0000_0000

  /** Every chain certificate fits its length prefixes. */
  ghost predicate ValidChain(chain: seq<Link>) {
    chain == [] || (|chain[0].certType| < 0x1_0000 && |chain[0].der| < MAX_UINT32 && ValidChain(chain[1..]))
  }

  /** Every field fits the length prefix the format gives it. */
  ghost predicate ValidEntry(entry: JksEntry) {
    && |entry.alias| < 0x1_0000
    && |entry.stamp| == 8
    && match entry
       case PrivateKey(_, _, key, chain) =>
         |key| < MAX_UINT32 && |chain| < MAX_UINT32 && ValidChain(chain)
       case TrustedCert(_, _, certType, der) => |certType| < 0x1_0000 && |der| < MAX_UINT32
  }

  ghost predicate ValidEntries(entries: seq<JksEntry>) {
    entries == [] || (ValidEntry(entries[0]) && ValidEntries(entries[1..]))
  }

  function PrintUtf(s: bytes): bytes {
    ToBigEndian(|s|, TWO) + s
  }

  function PrintBlock(s: bytes): bytes {
    ToBigEndian(|s|, FOUR) + s
  }

  function PrintLinks(chain: seq<Link>): bytes {
    if chain == [] then [] else PrintUtf(chain[0].certType) + (PrintBlock(chain[0].der) + PrintLinks(chain[1..]))
  }

  function PrintKeyBody(key: bytes, chain: seq<Link>): bytes {
    PrintBlock(key) + (ToBigEndian(|chain|, FOUR) + PrintLinks(chain))
  }

  function PrintEntry(entry: JksEntry): bytes {
    match entry
    case PrivateKey(alias, stamp, key, chain) =>
      ToBigEndian(KEY_ENTRY, FOUR) + (PrintUtf(alias) + (stamp + PrintKeyBody(key, chain)))
    case TrustedCert(alias, stamp, certType, der) =>
      ToBigEndian(CERT_ENTRY, FOUR) + (PrintUtf(alias) + (stamp + (PrintUtf(certType) + PrintBlock(der))))
  }

  function PrintEntries(entries: seq<JksEntry>): bytes {
    if entries == [] then [] else PrintEntry(entries[0]) + PrintEntries(entries[1..])
  }

  /** A JKS file: magic, version, count, records, then anything (the unchecked MAC). */
  function PrintJks(version: bytes, entries: seq<JksEntry>, trailer: bytes): bytes {
    [0xfe, 0xed, 0xfe, 0xed] + (version + (ToBigEndian(|entries|, FOUR) + (PrintEntries(entries) + trailer)))
  }

  /** The DERs of the trusted-certificate entries, in file order. */
  function TrustedCerts(entries: seq<JksEntry>): seq<bytes> {
    if entries == [] then []
    else (if entries[0].TrustedCert? then [entries[0].der] else []) + TrustedCerts(entries[1..])
  }

  /**
   * Reading a printed JKS file gives exactly the first 4096 trusted certificates in order and
   * nothing from any key entry.
   */
  lemma JksRoundTrip(version: bytes, entries: seq<JksEntry>, trailer: bytes)
    requires |version| == 4 && |entries| < MAX_UINT32
    requires ValidEntries(entries)
    ensures KeystoreMeaning(PrintJks(version, entries, trailer), MAX_DER_DEPTH)
         == JksRead(Capped(TrustedCerts(entries)))
  {
    hide At, PrintJks, PrintEntries, ToBigEndian, BigEndian, TrustedCerts, Capped, ReadEntries, Slices, ValidEntries, JksSpans;
    var b := PrintJks(version, entries, trailer);
    PrintedParts(version, entries, trailer);
    MagicRead(b);
    EntriesRead(b, 12, entries, []);
    NoSlices(b, TrustedCerts(entries));
    SpansRead(b, |entries|);
  }

  lemma NoSlices(b: bytes, certs: seq<bytes>)
    ensures OrderedWithin([], |b|) && OrderedWithin([], 12) && Slices(b, []) + certs == certs
  {
  }

  /** The count is at offset 8 and the records start at 12. */
  lemma SpansRead(b: bytes, n: nat)
    requires |b| >= 12 && At(b, 8, ToBigEndian(n, FOUR)) && n < MAX_UINT32
    ensures OrderedWithin([], 12) && JksSpans(b) == ReadEntries(b, 12, n, [])
  {
    hide At, ToBigEndian, BigEndian, ReadEntries;
    PrintedNumber(b, 8, n, FOUR);
  }

  lemma MagicRead(b: bytes)
    requires |b| >= 4 && b[0] == 0xfe && b[1] == 0xed && b[2] == 0xfe && b[3] == 0xed
    ensures BigEndian(b, 0, UINT32) == JKS_MAGIC
  {
    assert BigEndian(b, 0, 1) == 0xfe;
    assert BigEndian(b, 0, 2) == 0xfeed;
    assert BigEndian(b, 0, 3) == 0xfeedfe;
  }

  lemma PrintedParts(version: bytes, entries: seq<JksEntry>, trailer: bytes)
    requires |version| == 4
    ensures var b := PrintJks(version, entries, trailer);
      && |b| >= 12
      && b[0] == 0xfe && b[1] == 0xed && b[2] == 0xfe && b[3] == 0xed
      && At(b, 8, ToBigEndian(|entries|, FOUR))
      && At(b, 12, PrintEntries(entries))
  {
    var b := PrintJks(version, entries, trailer);
    var magic: bytes := [0xfe, 0xed, 0xfe, 0xed];
    assert At(b, 0, b);
    AtConcat(b, 0, magic, version + (ToBigEndian(|entries|, FOUR) + (PrintEntries(entries) + trailer)));
    AtConcat(b, 4, version, ToBigEndian(|entries|, FOUR) + (PrintEntries(entries) + trailer));
    AtConcat(b, 8, ToBigEndian(|entries|, FOUR), PrintEntries(entries) + trailer);
    AtConcat(b, 12, PrintEntries(entries), trailer);
  }

  lemma PrintedNumber(b: bytes, o: nat, n: nat, width: nat)
    requires At(b, o, ToBigEndian(n, width))
    requires (width == TWO && n < 0x1_0000) || (width == FOUR && n < MAX_UINT32)
    ensures BigEndian(b, o, width) == n
  {
    assert Pow256(2) == 0x1_0000;
    assert Pow256(4) == MAX_UINT32;
    BigEndianOfPrinted(b, o, n, width);
  }

  lemma UtfRead(b: bytes, o: nat, s: bytes)
    requires At(b, o, PrintUtf(s)) && |s| < 0x1_0000
    ensures SkipUtf(b, o) == Ok(o + |PrintUtf(s)|) && |PrintUtf(s)| == 2 + |s|
  {
    AtConcat(b, o, ToBigEndian(|s|, TWO), s);
    PrintedNumber(b, o, |s|, TWO);
  }

  lemma BlockRead(b: bytes, o: nat, s: bytes)
    requires At(b, o, PrintBlock(s)) && |s| < MAX_UINT32
    ensures SkipBlock(b, o) == Ok(o + |PrintBlock(s)|)
    ensures At(b, o + 4, s) && |PrintBlock(s)| == 4 + |s|
  {
    AtConcat(b, o, ToBigEndian(|s|, FOUR), s);
    PrintedNumber(b, o, |s|, FOUR);
  }

  lemma {:induction false} LinksRead(b: bytes, o: nat, chain: seq<Link>)
    requires At(b, o, PrintLinks(chain)) && ValidChain(chain)
    ensures SkipLinks(b, o, |chain|) == Ok(o + |PrintLinks(chain)|)
    decreases |chain|
  {
    hide At, PrintUtf, PrintBlock, SkipUtf, SkipBlock;
    if chain != [] {
      var utf, block, rest := PrintUtf(chain[0].certType), PrintBlock(chain[0].der), PrintLinks(chain[1..]);
      AtConcat(b, o, utf, block + rest);
      AtConcat(b, o + |utf|, block, rest);
      UtfRead(b, o, chain[0].certType);
      BlockRead(b, o + |utf|, chain[0].der);
      var next := o + |utf| + |block|;
      LinksRead(b, next, chain[1..]);
      assert SkipLink(b, o) == Ok(next);
      assert |PrintLinks(chain)| == |utf| + |block| + |rest|;
    }
  }

  lemma KeyBodyRead(b: bytes, o: nat, key: bytes, chain: seq<Link>)
    requires At(b, o, PrintKeyBody(key, chain)) && |key| < MAX_UINT32 && |chain| < MAX_UINT32
    requires ValidChain(chain)
    ensures ReadKeyBody(b, o) == Ok(Entry(o + |PrintKeyBody(key, chain)|, None))
  {
    hide At, PrintUtf, ToBigEndian, BigEndian, PrintLinks, SkipLinks;
    var count, links := ToBigEndian(|chain|, FOUR), PrintLinks(chain);
    AtConcat(b, o, PrintBlock(key), count + links);
    BlockRead(b, o, key);
    var afterKey := o + |PrintBlock(key)|;
    AtConcat(b, afterKey, count, links);
    PrintedNumber(b, afterKey, |chain|, FOUR);
    LinksRead(b, afterKey + 4, chain);
    assert |PrintKeyBody(key, chain)| == |PrintBlock(key)| + 4 + |links|;
  }

  lemma CertBodyRead(b: bytes, o: nat, certType: bytes, der: bytes)
    requires At(b, o, PrintUtf(certType) + PrintBlock(der)) && |certType| < 0x1_0000 && |der| < MAX_UINT32
    ensures var next := o + |PrintUtf(certType) + PrintBlock(der)|;
      ReadCertBody(b, o) == Ok(Entry(next, Some(Span(next - |der|, next)))) && next <= |b| && b[next - |der|..next] == der
  {
    hide At;
    AtConcat(b, o, PrintUtf(certType), PrintBlock(der));
    UtfRead(b, o, certType);
    BlockRead(b, o + |PrintUtf(certType)|, der);
  }

  /** A record's header reads as its tag, and its body starts after the time stamp. */
  lemma HeaderRead(b: bytes, o: nat, tag: nat, alias: bytes, stamp: bytes, body: bytes)
    requires At(b, o, ToBigEndian(tag, FOUR) + (PrintUtf(alias) + (stamp + body)))
    requires tag < MAX_UINT32 && |alias| < 0x1_0000 && |stamp| == 8
    ensures Uint32At(b, o) == Ok(tag)
    ensures SkipUtf(b, o + 4) == Ok(o + 4 + |PrintUtf(alias)|)
    ensures At(b, o + 12 + |PrintUtf(alias)|, body)
  {
    hide At;
    var utf := PrintUtf(alias);
    AtConcat(b, o, ToBigEndian(tag, FOUR), utf + (stamp + body));
    PrintedNumber(b, o, tag, FOUR);
    AtConcat(b, o + 4, utf, stamp + body);
    UtfRead(b, o + 4, alias);
    AtConcat(b, o + 4 + |utf|, stamp, body);
  }

  /** A printed record is read as a whole, and yields its DER exactly when it is a trusted one. */
  lemma EntryRead(b: bytes, o: nat, entry: JksEntry)
    requires At(b, o, PrintEntry(entry)) && ValidEntry(entry)
    ensures var next := o + |PrintEntry(entry)|;
      && next <= |b|
      && ReadEntry(b, o).Ok? && ReadEntry(b, o).value.next == next
      && match entry
         case PrivateKey(_, _, _, _) => ReadEntry(b, o).value.cert == None
         case TrustedCert(_, _, _, der) =>
           ReadEntry(b, o).value.cert == Some(Span(next - |der|, next)) && b[next - |der|..next] == der
  {
    hide At, PrintEntry, ReadEntry, ValidChain;
    match entry {
      case PrivateKey(alias, stamp, key, chain) => KeyEntryRead(b, o, alias, stamp, key, chain);
      case TrustedCert(alias, stamp, certType, der) => CertEntryRead(b, o, alias, stamp, certType, der);
    }
  }

  lemma KeyEntryRead(b: bytes, o: nat, alias: bytes, stamp: bytes, key: bytes, chain: seq<Link>)
    requires At(b, o, PrintEntry(PrivateKey(alias, stamp, key, chain))) && ValidEntry(PrivateKey(alias, stamp, key, chain))
    ensures var next := o + |PrintEntry(PrivateKey(alias, stamp, key, chain))|;
      next <= |b| && ReadEntry(b, o) == Ok(Entry(next, None))
  {
    hide At, PrintUtf, PrintBlock, PrintKeyBody, ToBigEndian, Uint32At, SkipUtf, ReadKeyBody, ReadCertBody, ValidChain;
    var body := o + 12 + |PrintUtf(alias)|;
    HeaderRead(b, o, KEY_ENTRY, alias, stamp, PrintKeyBody(key, chain));
    KeyBodyRead(b, body, key, chain);
  }

  lemma CertEntryRead(b: bytes, o: nat, alias: bytes, stamp: bytes, certType: bytes, der: bytes)
    requires At(b, o, PrintEntry(TrustedCert(alias, stamp, certType, der))) && ValidEntry(TrustedCert(alias, stamp, certType, der))
    ensures var next := o + |PrintEntry(TrustedCert(alias, stamp, certType, der))|;
      next <= |b| && ReadEntry(b, o) == Ok(Entry(next, Some(Span(next - |der|, next)))) && b[next - |der|..next] == der
  {
    hide At, PrintUtf, PrintBlock, ToBigEndian, Uint32At, SkipUtf, ReadKeyBody, ReadCertBody;
    var body := o + 12 + |PrintUtf(alias)|;
    HeaderRead(b, o, CERT_ENTRY, alias, stamp, PrintUtf(certType) + PrintBlock(der));
    CertBodyRead(b, body, certType, der);
  }

  lemma {:induction false} EntriesRead(b: bytes, o: nat, entries: seq<JksEntry>, spans: seq<Span>)
    requires At(b, o, PrintEntries(entries)) && o <= |b|
    requires OrderedWithin(spans, o) && OrderedWithin(spans, |b|) && |spans| <= MOST
    requires ValidEntries(entries)
    ensures var r := ReadEntries(b, o, |entries|, spans);
      r.Ok? && Slices(b, r.value) == Capped(Slices(b, spans) + TrustedCerts(entries))
    decreases |entries|
  {
    hide At, PrintEntry, ReadEntry, ValidEntry, OrderedWithin, WithCert, Slices, Capped, TrustedCerts;
    var gathered := Slices(b, spans);
    if entries == [] {
      NoTrustedCerts();
      CappedPrefix(gathered, []);
    } else if |spans| == MOST {
      CappedPrefix(gathered, TrustedCerts(entries));
    } else {
      var first, rest := entries[0], entries[1..];
      AtConcat(b, o, PrintEntry(first), PrintEntries(rest));
      EntryRead(b, o, first);
      var entry := ReadEntry(b, o).value;
      SlicesWithCert(b, spans, entry, o);
      var extended := WithCert(spans, entry, o);
      assert ReadEntries(b, o, |entries|, spans) == ReadEntries(b, entry.next, |rest|, extended);
      EntriesRead(b, entry.next, rest, extended);
      TrustedAfter(gathered, entries);
    }
  }

  lemma NoTrustedCerts()
    ensures TrustedCerts([]) == []
  {
  }

  lemma TrustedAfter(gathered: seq<bytes>, entries: seq<JksEntry>)
    requires entries != []
    ensures var here := if entries[0].TrustedCert? then [entries[0].der] else [];
      gathered + here + TrustedCerts(entries[1..]) == gathered + TrustedCerts(entries)
  {
  }

  /** A list within the cap stays whole; a full one ignores what follows. */
  lemma CappedPrefix(certs: seq<bytes>, more: seq<bytes>)
    requires |certs| <= MOST && (more == [] || |certs| == MOST)
    ensures Capped(certs + more) == certs
  {
    assert (certs + more)[..|certs|] == certs;
  }
}
