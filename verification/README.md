# Portcall, verified

Portcall tells an operator why a vendor's tool cannot connect from a given network: it reads the
trust anchors of the machine and of each runtime, captures certificate chains directly and through
a proxy, compares them, and reports what it found. This project models the parts of it whose
answers rest on parsing, searching and bookkeeping, and proves what those answers mean.

| file | what it holds |
|---|---|
| `Keystore`, `KeystoreLaws`, `KeystoreRoundTrip`, `Pkcs12RoundTrip`, `KeystoreFailures`, `Asn1` | the JKS and PKCS#12 reader, its laws over every byte string, a printer for each format that it undoes, and what each fault in a printed file reads as |
| `Base64`, `Base64Laws`, `Pem`, `PemLaws` | certificates as text |
| `RootIndex`, `PublicRoots` | the indexed bundle and the class of a presented chain |
| `PeerChain`, `TlsAnchor` | the captured chain and the anchor it hands on |
| `StoreTypes`, `CrossCheck`, `CrossCheckLaws`, `CrossCheckFacts`, `CrossCheckReport`, `CrossCheckOrder`, `CrossCheckInvariance`, `CrossCheckTies` | OS stores against runtime trust sets |
| `Stores`, `StoreFiles`, `StoreLaws`, `JavaStores`, `GoOnLinux`, `GoPlatforms` | stores read off one file system, and what the files hold from their bytes to the verdict on Node, Java and Go |
| `StoreReader`, `StoreBudgets`, `StoreReaderLaws` | one child process read to its end, and its budget against the run's deadline |
| `Guard`, `Sockets`, `SocketRuns`, `SocketLaws` | which hosts may be contacted, and the sockets of captures running side by side |
| `Addresses`, `AddressLaws` | IPv4 and IPv6 text |
| `Glob` | shell globs by way of regular expressions |
| `Proxy`, `ProxyLaws`, `ProxyRuns` | routes, CONNECT outcomes and their clusters, and where each endpoint of a run ends up |
| `Wrap` | greedy text wrapping |
| `Wrappers`, `Bits`, `Text`, `Decimals`, `TextLaws` | results, 32-bit operators, strings and numbers as the source uses them |

`dafny verify dfyconfig.toml` checks everything.

A throw is an `Err`. A loop or a field that is updated in place is a method or a class here, proved
equal to a function of its input or of the state before; the laws are lemmas about those functions, and
they write out the numbers, texts and identifiers they speak of, naming none of the reader's own.
What the outside world answers (a decoder, a file system, a clock, a child's events, a server's
replies) is a parameter, so each law holds for every behaviour of it.

## Where the code and its documentation differ

The model follows the code. Four places where that matters:

- `src/probes/truststore/evaluate.ts:168-186` says that a block which does not parse is counted,
  because throwing over it would take the report down. The OS half does that; but the same block in
  a runtime's store reaches `certificateIndex` (`evaluate.ts:990`, `root-index.ts:80-84`), which
  throws. On Linux, Go's store is the very bundle whose bad block was counted. The exact conditions
  are `CrossCheckLaws.ThrowsExactlyWhen` and `GoOnLinux.BadBlockThrows`; the other laws of the
  report speak of runs that do not throw.
- `src/net/os-truststore.ts:113-122` says that the OS reference equals the modelled Go store by
  construction. The path table is the same, but the OS reader stops at a `stat` error other than
  absence and at 4 MiB, where Go's goes on and at 8 MiB. The two are equal whenever the OS read
  succeeded, which is all the verdict needs (`GoOnLinux.SameBundle`).
- `shExpMatch` is the PAC helper for shell globs; `.` in the regular expression it builds does
  not match a line terminator. `Glob.GlobExactlyOnOneLine` says exactly for which candidates the two
  agree, and `Glob.ShExpMatchIs` what it computes for the others.
- `src/probes/proxy/index.ts:29-31` says that the probe finds, for each declared endpoint, which proxy
  it is expected to use, if any. The environment leg is in effect as soon as a variable is set
  (`:298-300`), but an endpoint whose variable is no URL gets neither a route nor a finding
  (`:314-336`): the report is silent about it. `ProxyRuns.ConservedExactlyWhen` and
  `ProxyRuns.UnusableUrlLosesEndpoints` say exactly when that happens, and
  `ProxyRuns.AnEndpointIsDropped` is an input.

## Model

| member | source | states |
|---|---|---|
| Keystore.ReadUint32 | src/net/java-keystore.ts:84-91 | shift-and-or over four bytes gives the base-256 number they spell, or `truncated` when they run past the buffer |
| Keystore.ReadUint16 | src/net/java-keystore.ts:94-99 | the same for two bytes |
| Bits.ShiftOrIsBigEndian4 | src/net/java-keystore.ts:90 | four bytes shifted and or-ed on 32-bit patterns are the base-256 number they spell |
| Keystore.SkipChain | src/net/java-keystore.ts:146-156 | a private key's chain is skipped link by link; every completed iteration consumes at least six bytes, also when it ends in a throw |
| Keystore.ParseEntry | src/net/java-keystore.ts:133-170 | one JKS record of either tag, or `truncated` for any other; the iterations it completes are bounded by the bytes it consumes |
| Keystore.ParseJks | src/net/java-keystore.ts:125-179 | the loop computes the meaning of a JKS file, and its completed entry and chain-link iterations are at most a sixth of the file length whatever the declared counts say |
| Keystore.LengthMasks | src/net/java-keystore.ts:234-236 | the masks 0x80 and 0x7f split a length byte into form and count |
| Keystore.ReadLength | src/net/java-keystore.ts:231-242 | X.690 section 8.1.3 definite lengths of at most four bytes, big-endian; indefinite and wider ones are `unsupported-encoding` |
| Keystore.ParsePkcs12 | src/net/java-keystore.ts:302-359 | the nested loops compute the meaning of a PKCS#12 file: inner encrypted contents are passed over, every other throw ends the read |
| Keystore.ReadKeystore | src/net/java-keystore.ts:362-383 | the format is decided by the first four bytes alone and every byte string has a result |
| KeystoreLaws.ResultShape | src/net/java-keystore.ts:47-54 | for every input: certificates are empty exactly when there is a failure, `partial` implies PKCS#12 with a certificate, there are at most 4096, each is a contiguous run of the input, and those of a JKS file are in order and disjoint |
| KeystoreLaws.DepthGuardNeverFires | src/net/java-keystore.ts:245-246 | no input reaches a nesting depth above 11, so every cap from 11 up, the 16 of the source included, reads every input alike |
| KeystoreLaws.ExtensionStable | src/net/java-keystore.ts:231-383 | appending bytes to a file of four or more leaves every result other than `truncated` unchanged |
| KeystoreLaws.PrefixReadsSameOrTruncated | src/net/java-keystore.ts:231-383 | every prefix of four or more bytes reads as the whole file does or as `truncated` |
| KeystoreRoundTrip.JksRoundTrip | src/net/java-keystore.ts:108-179 | a JKS file printed with magic, tags and widths written out as numbers, of any private-key and trusted-certificate entries and any trailer after them, reads as exactly the first 4096 trusted certificates in order |
| Pkcs12RoundTrip.Pkcs12RoundTrip | src/net/java-keystore.ts:302-359 | a PKCS#12 store (RFC 7292 sections 4, 4.1, 4.2 and 4.2.3) printed with tags and object identifiers of its own (X.690 sections 8.1.2 and 8.19) and a definite length form chosen for every field by itself reads as the first 4096 x509 cert bags of its plain contents in order, with `partial`, `encrypted` and `no-certificates` each exactly when due |
| Pkcs12RoundTrip.DerStoreRead | src/net/java-keystore.ts:302-359 | the same in the one form DER allows (X.690 section 10.1): a store with fewer than 4096 certificates gives all of them, and is partial or `encrypted` exactly when it holds an encrypted content |
| Pkcs12RoundTrip.SealedWithinCap | src/net/java-keystore.ts:320-331 | below the certificate cap, passing over an encrypted content is the same as there being one |
| Pkcs12RoundTrip.SealedStore | src/net/java-keystore.ts:309-311 | a store whose authSafe is encryptedData as a whole is reported `encrypted` |
| Pkcs12RoundTrip.OidsKnown | src/net/java-keystore.ts:208-215 | the four object identifiers that the reader compares are 1.2.840.113549.1.7.1, .1.7.6, .1.12.10.1.3 and .1.9.22.1 encoded arc by arc (X.690 section 8.19) |
| KeystoreFailures.FormatIs | src/net/java-keystore.ts:362-369 | the first octets decide the format, each way; a file of neither format is of none and `unsupported-format` |
| KeystoreFailures.LengthIsRead | src/net/java-keystore.ts:231-242 | a length is `unsupported-encoding` exactly when it is indefinite or wider than four octets, and `truncated` exactly when it or its octets lie outside the file |
| KeystoreFailures.CutStoreIsTruncated | src/net/java-keystore.ts:245-253 | a PKCS#12 store cut anywhere short of its end is `truncated` |
| KeystoreFailures.CutRecordsAreTruncated | src/net/java-keystore.ts:125-170 | so is a JKS file cut anywhere within its header and records, when it has fewer certificates than the cap |
| KeystoreFailures.OtherRecord | src/net/java-keystore.ts:166-170 | after any records, one that is neither a key nor a certificate makes the whole file `truncated`, whatever follows it |
| KeystoreFailures.MalformedContent | src/net/java-keystore.ts:262-346 | after any well-formed contents and bags, one field with a wrong tag or a content of an unknown type takes every certificate back: `unsupported-format` for a fault of the ContentInfo, `truncated` for each of the others, encrypted contents or not |
| KeystoreFailures.MalformedPfx | src/net/java-keystore.ts:302-314 | the same for the version, the authSafe ContentInfo and the AuthenticatedSafe themselves |
| Pem.DerToPem | src/net/pem.ts:53-60 | the 64-column loop (RFC 7468 section 2) prints the one text of a certificate |
| Pem.PemBlocks | src/net/pem.ts:68-76 | the scanning loop computes the blocks of a text |
| PemLaws.ScanIsRegex | src/net/pem.ts:39 | the deterministic scan matches where the lazy regular expression does and takes the same body, because the body class excludes the dash |
| PemLaws.PemOfInjective | src/net/pem.ts:53-60 | different certificates have different texts |
| PemLaws.BlocksOfPrinted | src/net/pem.ts:62-76 | certificates printed with any whitespace in their bodies and any text between them that opens no block come back in order, each in its one text |
| PemLaws.BlocksAreCanonical | src/net/pem.ts:62-76 | everything the scanner returns is the one text of some non-empty bytes |
| PemLaws.BlocksIdempotent | src/net/pem.ts:62-76 | on any text, scanning the scanner's own output gives it again |
| PemLaws.FormatsAgree | src/net/os-truststore.ts:253-267 | base64 lines and a PEM stream of the same certificates give the same strings |
| PemLaws.LeftmostMatch | src/net/pem.ts:68-76 | on any text, the first place where the regular expression matches gives its body as one text when that is base64 and nothing otherwise, and the scan goes on right behind it |
| PemLaws.NoMatch | src/net/pem.ts:68-76 | a text in which the expression matches nowhere gives nothing |
| PemLaws.TextIs | src/net/pem.ts:53-60 | the one text of a certificate character by character: the two boundaries (RFC 7468 section 5.1), and between them the base64 digits with a line end after every sixty-fourth |
| PemLaws.LinesAreSeparate | src/net/os-truststore.ts:258-267 | lines are read one by one, wherever they stand: each gives what its own base64 gives, and one that is not base64 gives nothing and spoils nothing |
| Pem.ParseStdout | src/net/os-truststore.ts:258-267 | both branches of the stdout parser, lines without a base64 body dropped |
| Base64.EncodeInjective | src/probes/shared/root-index.ts:37-47 | base64 (RFC 4648 section 4) is injective, so the printed bytes are an identity key |
| Base64Laws.EncodedAt | src/net/pem.ts:53-60 | what stands at each position of a print: the octets in threes as 24-bit numbers, their groups of six bits as digits of the alphabet (RFC 4648 table 1), `=` for a group that holds no bit |
| Base64Laws.DecodedAt | src/net/pem.ts:41-50 | and what each octet of a decoded body is, with spare bits dropped and as many octets as the padding leaves |
| Base64Laws.BodyIs | src/net/pem.ts:44-49 | a body is one or more digits of the alphabet and at most two signs of padding at its end |
| TextLaws.StripIs | src/net/pem.ts:42 | the whitespace taken out is the 25 code points of ECMA-262 sections 12.2 and 12.3, wherever they stand, and nothing else is |
| TextLaws.LinesAre | src/net/os-truststore.ts:262 | a line ends at a newline with one return before it taken off |
| RootIndex.DerKey | src/probes/shared/root-index.ts:38-47 | gathering the bytes chunk by chunk and printing them is printing them |
| RootIndex.BuildIndex | src/probes/shared/root-index.ts:76-91 | the loop builds the index, or throws on the first PEM that does not parse |
| RootIndex.IndexIsMembership | src/probes/shared/root-index.ts:25-35 | the hash-keyed index answers plain membership: exactly the certificates, and exactly the subjects, of the listed PEMs |
| PublicRoots.IssuancePath | src/probes/tls/public-roots.ts:77-96 | the walk terminates and computes the path |
| PublicRoots.ClassifyRoot | src/probes/tls/public-roots.ts:115-139 | the verdict over the path |
| PublicRoots.PathShape | src/probes/tls/public-roots.ts:59-76 | on every chain, cyclic names included, the path starts at the leaf, repeats nothing, links issuer to subject, is self-signed only at its end, and ends there or where no unvisited certificate carries the name |
| PublicRoots.PathTakesFirst | src/probes/tls/public-roots.ts:77-96 | of several certificates that carry the name pointed at, each step takes the first in the chain that is not yet on the path |
| PublicRoots.VerdictMeans | src/probes/tls/public-roots.ts:98-139 | public exactly when a certificate of the path is bundled, the first in chain order being named; otherwise each of the three reasons exactly when the terminus is self-signed, points at a name no bundled root has, or points at one that some has |
| PublicRoots.PaddingIsInert | src/probes/tls/public-roots.ts:98-108 | appending certificates leaves the verdict unchanged exactly when the path does not go on into them: the terminus is self-signed or no appended subject is the terminus's issuer |
| PublicRoots.OrderIsIrrelevant | src/probes/tls/public-roots.ts:59-76 | with distinct subjects, reordering all but the leaf keeps the certificates of the path, the class and the reason |
| PublicRoots.BundleMonotone | src/probes/tls/public-roots.ts:115-139 | a larger bundle moves the class only up the order private, indeterminate, public |
| PublicRoots.MorePemsInclude | src/probes/shared/root-index.ts:76-91 | indexing more PEMs gives a larger bundle |
| PublicRoots.AppendedRootDecides | src/probes/tls/public-roots.ts:28-38 | an indeterminate chain becomes public once the bundled root that its terminus names is appended |
| PeerChain.ChainDerOf | src/net/tls-capture.ts:70-81 | the walk over the TLS layer's linked certificates terminates on any linking and copies out its bytes |
| PeerChain.WalkShape | src/net/tls-capture.ts:55-69 | the walk follows issuers from the leaf, meets no fingerprint twice, and stops only at a missing link, missing bytes or a fingerprint it has met |
| TlsAnchor.ParseChain | src/probes/tls/evaluate.ts:155-165 | the whole chain or nothing |
| TlsAnchor.EvaluateChain | src/probes/tls/evaluate.ts:601-645 | the anchor of one capture |
| TlsAnchor.CollectAnchors | src/probes/tls/index.ts:146-166 | one observed anchor for each capture that has one, in order |
| TlsAnchor.AnchorMeans | src/probes/tls/evaluate.ts:647-684 | a chain hands an anchor on exactly when nothing on its path is bundled, under the host and the way it was captured; the anchor has bytes exactly when the terminus is self-signed, and they are the terminus's; it is private exactly when the terminus is self-signed or no bundled root has the name it points at |
| TlsAnchor.InterceptionBlocks | src/probes/truststore/evaluate.ts:631-658 | from the wire to a blocker: a captured chain ends in a self-signed root with nothing bundled on its path, a read OS store holds the root and a judged trust set read in full lacks it; then that set's finding is a blocker |
| TlsAnchor.BlockerWasSeen | src/probes/truststore/evaluate.ts:733-780 | from a blocker to the wire: it rests on a listed root that the machine adds, a judged fully read set lacks, and some captured chain with nothing bundled on its path ends at or names as issuer |
| CrossCheck.ReadAnchors | src/probes/truststore/evaluate.ts:189-206 | one store's anchors, deduplicated by bytes in store order, with the unparsable blocks counted |
| CrossCheck.GatherAnchors | src/probes/truststore/evaluate.ts:1013-1031 | the anchors of all read stores, each once |
| CrossCheck.CheckStores | src/probes/truststore/evaluate.ts:483-568 | one finding for each store read or failed, and the unsupported-platform finding for none at all |
| CrossCheck.CheckRuntime | src/probes/truststore/evaluate.ts:939-1005 | the findings of one runtime: facts first, then the platform verifier, nothing located, no OS evidence, or one verdict for each trust set |
| CrossCheck.CrossCheck | src/probes/truststore/evaluate.ts:1013-1058 | the whole report or the throw |
| CrossCheckLaws.LocallyAddedAre | src/probes/truststore/evaluate.ts:1033-1037 | the locally added list is the anchors of the read stores that are not public, each once |
| CrossCheckFacts.LocallyAddedInOrder | src/probes/truststore/evaluate.ts:208-212 | the locally added anchors are in the order of their canonical subjects |
| CrossCheckOrder.AnchorsInOrder | src/probes/truststore/evaluate.ts:1016-1031 | anchors are gathered in the order in which the stores first show them |
| CrossCheckOrder.TiesKeepTheirOrder | src/probes/truststore/evaluate.ts:1033-1037 | and those that no subject tells apart are listed in that order |
| CrossCheckLaws.CorrelateFinds | src/probes/truststore/evaluate.ts:631-658 | a correlation is found exactly when some observed anchor ties some missing one, and bytes are never passed over for a name |
| CrossCheckOrder.CorrelationIs | src/probes/truststore/evaluate.ts:631-658 | which one: the first observed anchor with the bytes of a missing one; only without any, the first private one that names a missing one as issuer, and of several with that name the last |
| CrossCheckLaws.TiedIsListed | src/probes/truststore/evaluate.ts:735-746 | the tied anchor is always among the five listed |
| CrossCheckLaws.SetVerdict | src/probes/truststore/evaluate.ts:988-1003 | what is said of one trust set in terms of sets alone: the count it lacks, whether a tie is reported, the severity, the clean verdict, or nothing for a partial set that lacks nothing |
| CrossCheckLaws.ThrowsExactlyWhen | src/probes/shared/root-index.ts:80-84 | the cross-check throws if and only if a public PEM, or a PEM of a judged trust set, does not parse |
| CrossCheckLaws.VerdictsAreSaid | src/probes/truststore/evaluate.ts:939-1005 | the verdicts in the report are exactly those said of judged trust sets |
| CrossCheckLaws.BlockerIsSound | src/probes/truststore/evaluate.ts:758-767 | every blocker is said of a fully read judged set and rests on an added anchor that the set lacks and an observed anchor ties |
| CrossCheckLaws.BlockerIsComplete | src/probes/truststore/evaluate.ts:637-658 | an observed anchor with the bytes of a root that a fully read judged set lacks always makes a blocker |
| CrossCheckLaws.RootsPresentIsSound | src/probes/truststore/evaluate.ts:996-1003 | a clean verdict means every parsed anchor of the read stores is public or in a fully read trust set |
| CrossCheckLaws.NoStoreNoVerdict | src/probes/truststore/evaluate.ts:984-986 | with no OS store read there is no verdict and exactly one `crosscheck.indeterminate`; otherwise there is none of it |
| CrossCheckInvariance.VerdictsDependOnEvidence | src/probes/truststore/evaluate.ts:1013-1058 | runs that differ only in how the OS stores were read, with the same set of anchors and agreeing on whether any was read, throw alike or give the same verdicts in the same order: set, missing count, tie and severity; and when no two added anchors share a canonical subject, the same missing-root findings with all that they list |
| CrossCheckInvariance.ListIsDetermined | src/probes/truststore/evaluate.ts:208-212 | with distinct subjects the list of locally added anchors is one list, whatever stores the anchors came from |
| CrossCheckTies.ListIsDeterminedExactly | src/probes/truststore/evaluate.ts:1033-1037 | the evidence alone decides that list if and only if no two added anchors share a canonical subject |
| CrossCheckTies.EitherWay | src/probes/truststore/evaluate.ts:1016-1037 | for any two added anchors that share one, there are two runs with this evidence, their stores each a reordering of the other, that list the two either way |
| CrossCheckTies.FindingsFollowStores | src/probes/truststore/evaluate.ts:733-780 | the same in a finding: a trust set's missing roots are listed in one order or the other as the stores are |
| CrossCheckInvariance.VerdictsIgnoreOrder | src/probes/truststore/evaluate.ts:1016-1031 | permuting OS stores, or permuting or duplicating the PEMs inside one, keeps every verdict and every missing set, and whole findings when subjects are distinct |
| CrossCheckInvariance.FailedStoreChangesNothing | src/probes/truststore/evaluate.ts:595-617 | a runtime store that failed changes no verdict, and nothing in a missing-root finding, wherever it stands |
| CrossCheckInvariance.AddedStoreShrinksMissing | src/probes/truststore/evaluate.ts:604-617 | one more readable `adds-to` store leaves the runtime's sets where they are and takes exactly its own certificates off what each lacks |
| CrossCheckFacts.VerdictNamed | src/probes/truststore/evaluate.ts:988-1003 | what the report says under a judged trust set's own name: clean exactly when it was read in full and lacks nothing, missing roots exactly when it lacks some, how many, and at blocker exactly when one is tied and nothing was skipped |
| CrossCheckFacts.StoreCountsAreItsOwn | src/probes/truststore/evaluate.ts:474-500 | a read store is reported with the number of its own anchors, of those that are not public, and of its blocks that did not parse |
| CrossCheckFacts.StoreFindingsReported | src/probes/truststore/evaluate.ts:483-568 | what is said of a store is in the report whatever else is |
| CrossCheckFacts.FactsAreAlwaysReported | src/probes/truststore/evaluate.ts:933-960 | a variable that names an unreadable or a readable store, and a keystore read in part or not at all, are reported whether or not any OS store was read |
| CrossCheckReport.FactsAre | src/probes/truststore/evaluate.ts:483-568 | what the report says besides verdicts, told from the inputs alone and in both directions: an OS store that failed, was cut off or was not read in time, with its kind, failure and advice; one that was read, with its counts; the unsupported platform exactly when there is no store; every variable, keystore, platform verifier and missing store of a declared runtime |
| CrossCheckOrder.StoresComeFirst | src/probes/truststore/evaluate.ts:1009-1037 | a report begins with one finding for each OS store in the order of the stores, and says no more of them |
| CrossCheckOrder.RuntimesInTurn | src/probes/truststore/evaluate.ts:1038-1041 | then come the declared runtimes in their order, each with what would be said if it were the only one |
| CrossCheckOrder.FactsBeforeVerdicts | src/probes/truststore/evaluate.ts:939-1005 | and of each runtime, what is said of its stores comes before what is said of its trust sets |
| CrossCheckOrder.LevelIs | src/probes/truststore/evaluate.ts:226-230 | coverage is complete exactly when there are stores and all were read, and none exactly when none was |
| CrossCheckOrder.CoverageAddsUp | src/probes/truststore/evaluate.ts:246-254 | its counts add up store by store: read with the blocks that do not parse, or unread |
| CrossCheckReport.TrustSetsAre | src/probes/truststore/evaluate.ts:595-617 | the trust sets of a runtime are one for each readable standalone or replacing store that heads one, with exactly the certificates of that store and of those that add to it, and partial exactly when one of these is |
| CrossCheckReport.ListedAre | src/probes/truststore/evaluate.ts:733-746 | a missing-root finding lists at most five of the missing anchors, the tied one first and the others the least in order of canonical subject |
| Stores.ReadLinuxCaBundle | src/net/os-truststore.ts:407-444 | the first path that is not absent decides, with every error branch |
| StoreLaws.PrintedFileIsRead | src/net/runtime-stores.ts:246-261 | a file within the cap that prints certificates, with any layout and any text between them, is read as exactly those in order |
| StoreLaws.FileFailsFor | src/net/runtime-stores.ts:239-261 | a file gives certificates exactly when nothing failed, each in its one text; absent, unreadable, too large and empty are four states of the file, each with its code; a larger cap changes only `output-too-large`; writing back what was read changes nothing |
| StoreLaws.UselessVariableChangesNothing | src/net/runtime-stores.ts:281-300 | a variable that is unset, or names a file without a usable certificate, changes no verdict wherever its outcome stands |
| StoreLaws.NodeIsToldWhatItsFileLacks | src/net/runtime-stores.ts:474-485 | Node lacks exactly the added roots that the file of `NODE_EXTRA_CA_CERTS` does not hold, and is told so: clean exactly when there are none, else how many, at blocker exactly when one is tied |
| StoreLaws.ExtraCertificatesCount | src/net/runtime-stores.ts:281-300 | from a file to the verdict: when that file prints certificates, Node is told that its roots are present exactly when every root the machine adds is one of them |
| Stores.CertDirStore | src/net/runtime-stores.ts:307-357 | the directory loop |
| StoreLaws.CertDirIsUnion | src/net/runtime-stores.ts:302-357 | a listed directory opens the least eight names of certificate files in order, and holds exactly what they hold |
| StoreLaws.LeastFewAreDetermined | src/net/runtime-stores.ts:333-337 | there is only one such choice of names |
| StoreFiles.BundleReads | src/net/os-truststore.ts:407-444 | the first path of the table that is there decides whatever becomes of reading it: which failure and which code for each state of the file, and no failure exactly with certificates |
| StoreFiles.NoBundle | src/net/os-truststore.ts:443 | with none of the paths there the bundle is reported missing at the first of them |
| StoreFiles.EnvFileIs | src/net/runtime-stores.ts:281-300 | a variable that names a file gives exactly what the file gives, under its path; one that is unset or empty is `not-configured` |
| StoreFiles.UnlistedDirectory | src/net/runtime-stores.ts:307-331 | a directory that cannot be listed is not found or unreadable by the code of the error, and keeps it |
| StoreFiles.CertNameIs | src/net/runtime-stores.ts:333-335 | certificate files are those whose names end in `.pem` or `.crt`, each letter large or small |
| StoreFiles.UnionJoins | src/net/runtime-stores.ts:338-346 | files are read in order, their certificates appended, and the first code that any of them gave is kept |
| StoreFiles.GoBundleReads | src/net/runtime-stores.ts:496-512 | the first path that can be looked at is the bundle, for whatever reason those before it cannot |
| Stores.GoSystemBundleStore | src/net/runtime-stores.ts:496-512 | the first path that can be stat'ed decides |
| Stores.GoStores | src/net/runtime-stores.ts:523-535 | the stores of Go on each platform |
| GoPlatforms.GoWithoutVariables | src/net/runtime-stores.ts:523-535 | with neither variable set Go asks the platform on macOS and Windows, and exactly there, and gets no verdict; on a platform of no kind it is found nowhere |
| GoPlatforms.GoWithVariables | src/net/runtime-stores.ts:523-535 | with one set, on every platform, Go is judged on what the named file and the named directory hold, each by itself, and on nothing else |
| JavaStores.ReadJavaCacerts | src/net/runtime-stores.ts:417-440 | a keystore file's bytes read by the keystore reader and printed as PEMs, with what it skipped carried across |
| JavaStores.ReadJavaStores | src/net/runtime-stores.ts:461-471 | one store for each path found, at most eight, or one that says none was |
| JavaStores.KeystoreVerdict | src/net/runtime-stores.ts:417-471 | for any bytes in a `cacerts` file: no verdict when the reader fails on them, clean exactly when nothing was skipped and every added root is among the certificates read, otherwise how many are missing, at blocker only when nothing was skipped |
| JavaStores.UnusableIsReported | src/net/runtime-stores.ts:432-439 | each of the reader's five failures, and a keystore read in part, is reported as itself |
| JavaStores.UnreadFileFailsFor | src/net/runtime-stores.ts:417-431 | a file that is not there, cannot be read or is too large is told apart from one that the reader fails on |
| JavaStores.JavaIsNotFound | src/net/runtime-stores.ts:461-471 | with no keystore found the report says so and gives Java no verdict |
| JavaStores.PassedOverIsNeverClean | src/net/runtime-stores.ts:417-440 | for any bytes, when the reader passed over an encrypted content the report neither calls the keystore clean nor blocks on it |
| JavaStores.TrustedEntriesCount | src/net/runtime-stores.ts:432-439 | from a printed JKS file to the verdict: clean exactly when every added root is one of its trusted certificates |
| JavaStores.PlainContentsCount | src/net/runtime-stores.ts:432-439 | from a printed PKCS#12 file to the verdict: clean exactly when every added root is in its plain contents and nothing encrypted was passed over |
| GoOnLinux.SameBundle | src/net/os-truststore.ts:104-123 | when the OS bundle was read, Go's bundle is the same path and certificates; Go reads one that the OS reader does not exactly when an earlier path fails for a reason other than absence or the file is above the lower cap |
| GoOnLinux.GoIsNeverToldItLacksARoot | src/net/runtime-stores.ts:487-535 | on one file system with both variables unset, no finding says Go lacks a root; with the OS bundle read, the report says its roots are present; otherwise there is no verdict |
| GoOnLinux.BadBlockThrows | src/probes/truststore/evaluate.ts:168-186 | with Go alone declared such a run throws if and only if a public PEM does not parse, or the OS bundle was read and one of its blocks does not |
| StoreReader.ReadOneStore.constructor | src/net/os-truststore.ts:314-323 | a read starts unsettled, unkilled and empty |
| StoreReader.ReadOneStore.KillChild | src/net/os-truststore.ts:335-340 | the first reason to kill wins, frees the chunks and comes to nothing after settling |
| StoreReader.ReadOneStore.Settle | src/net/os-truststore.ts:348-356 | the first answer is the answer |
| StoreReader.ReadOneStore.OnData | src/net/os-truststore.ts:362-370 | a chunk is kept unless it would pass the cap, in which case the child is killed |
| StoreReader.ReadOneStore.OnError | src/net/os-truststore.ts:372-378 | a failed start |
| StoreReader.ReadOneStore.OnClose | src/net/os-truststore.ts:380-395 | the end of the child: killed, signalled, non-zero, or its certificates |
| StoreReader.ReadOneStore.OnTimer | src/net/os-truststore.ts:344-346 | the budget runs out |
| StoreReader.ReadOneStore.OnAbort | src/net/os-truststore.ts:341-343 | the run's signal fires |
| StoreReader.RunMeans | src/net/os-truststore.ts:308-398 | over every order of events the read has settled exactly when an error or close came, and its outcome is fixed by the first of them and what came before: the first reason to kill, else all that was printed |
| StoreReader.OutcomeShape | src/net/types.ts:224-238 | over every order of events at most 4 MiB are retained, certificates come with success and only with it, and a timeout means the timer fired |
| StoreReaderLaws.ReadMeans | src/net/os-truststore.ts:308-398 | what a read is reported as, by its first settling event and the first one before it that had the child killed: an absent program apart from a failed start, a timeout from a cancelled run and from more than 4 MiB, a signal from an exit code, each with its code |
| StoreBudgets.Await | src/net/os-truststore.ts:285-399 | a child's events handed to the callbacks in order settle the read as the whole run means |
| StoreBudgets.ReadStores | src/net/os-truststore.ts:466-492 | one outcome for each row of the platform, in table order |
| StoreBudgets.Read | src/net/os-truststore.ts:462-493 | the Linux branch and the table branch |
| StoreReaderLaws.PlatformStores | src/net/os-truststore.ts:462-493 | what is read on each platform, row by row: both keychains on macOS in order, the machine root store on Windows, the one bundle on Linux over its six paths, nothing elsewhere |
| StoreReaderLaws.RowsAreKept | src/net/os-truststore.ts:467-468 | of any table, the rows of a platform are all read, in order and as often as they stand there |
| StoreReaderLaws.RowMeans | src/net/os-truststore.ts:466-492 | a row gets its ceiling or what is left until two seconds before the deadline; under a second, or in a cancelled run, nothing is started and the row says which |
| StoreBudgets.EmptyMeansUnsupported | src/net/types.ts:277-293 | the answer is empty exactly on an unsupported platform, and every store has certificates exactly when it has no failure |
| StoreBudgets.BudgetsHold | src/net/os-truststore.ts:159-167 | every child has between 1000 ms and its row's ceiling and is to end 2000 ms before the deadline; a zero budget means exactly that no child was started |
| StoreBudgets.AdviceIsHonest | src/probes/truststore/evaluate.ts:278-309 | a store that timed out is told to raise `--timeout` exactly when the deadline was the smaller bound |
| Guard.NetworkGuard.constructor | src/net/guard.ts:47-54 | the profile's endpoints and resolvers are admitted, the latter on port 443 |
| Guard.NetworkGuard.PermitPeer | src/net/guard.ts:56-64 | one more host and port, in the entry of that host when it has one |
| Guard.NetworkGuard.IsAllowed | src/net/guard.ts:66-69 | exactly the hosts and ports that were permitted, spaces and case aside |
| Guard.NetworkGuard.IsHostAllowed | src/net/guard.ts:79-81 | exactly the hosts that were permitted on some port |
| Guard.NetworkGuard.AssertAllowed | src/net/guard.ts:71-73 | the denial names the host and the port |
| Guard.NetworkGuard.AssertHostAllowed | src/net/guard.ts:83-85 | the denial names the host alone |
| Guard.AdmittedMeans | src/net/guard.ts:44-81 | the table of hosts and port sets answers exactly what the list of `permit` calls says |
| Guard.FirstReasonStays | src/net/guard.ts:56-64 | an entry keeps the reason of the first call that named its host |
| SocketLaws.HostKeyIs | src/net/guard.ts:57 | hosts are compared without the white space around them and in small letters |
| SocketLaws.ResolversOnHttps | src/net/guard.ts:49-53 | a profile's resolvers are permitted on port 443 and on no other |
| Sockets.Network.Resolve | src/net/dns.ts:123-130 | no lookup before the guard has admitted the host |
| Sockets.Network.OpenTunnel | src/net/proxy-connect.ts:354-426 | exact outcome and acts; it ends with one more live socket, the one handed over, exactly when it reports ok |
| Sockets.Network.Capture | src/net/tls-capture.ts:84-191 | a target that is not admitted is refused before anything happens; otherwise exact outcome and acts, and no socket stays open, direct or proxied |
| SocketLaws.TunnelEnds | src/net/proxy-connect.ts:354-426 | a tunnel is handed over exactly on a 200; otherwise the outcome names the first phase that failed, and a refusal with a status from 100 to 599 carries that status |
| SocketLaws.RefusalCodes | src/net/proxy-connect.ts:414-421 | and the code `HTTP_` with its three digits; any other answer carries neither |
| SocketLaws.CaptureEnds | src/net/tls-capture.ts:84-191 | a capture has a chain exactly when every phase went well; otherwise it names the first that failed with that phase's own code, a refused tunnel's included |
| SocketRuns.EveryRunIsSafe | src/probes/tls/index.ts:117-138 | for any number of captures in any interleaving: nothing looked up or opened before the guard admitted it, each capture opens at most one socket, to its own proxy or target, and closes it once, and the open sockets are exactly those of waiting captures |
| SocketRuns.OthersHaveNoSay | src/probes/tls/index.ts:135-138 | a capture whose target the profile names is, in every interleaving, where its own events alone would have brought it |
| SocketRuns.AloneIsCapture | src/net/tls-capture.ts:84-191 | step by step and in one go, a capture has the same outcome and does the same things |
| Addresses.ParseIpv4 | src/probes/dns/analyse.ts:50-65 | the octet loop |
| Addresses.ParseHexGroups | src/probes/dns/analyse.ts:68-77 | the token loop |
| Addresses.ParseIpv6 | src/probes/dns/analyse.ts:93-124 | the dotted tail rewritten, the gap cut, the halves read |
| AddressLaws.Ipv4IsCanonical | src/probes/dns/analyse.ts:44-65 | a text reads as a dotted quad if and only if it is its canonical decimal print |
| AddressLaws.SpellingRead | src/probes/dns/analyse.ts:93-124 | every spelling reads as what it means: tokens of one to four hex digits in either case, a gap for one or more zero groups, a dotted tail |
| AddressLaws.HexDigitIs | src/probes/dns/analyse.ts:68-77 | the sixteen digits, large or small, each with its place among them as its value |
| AddressLaws.OnlySpellings | src/probes/dns/analyse.ts:93-124 | whatever reads as an address is one of its spellings |
| AddressLaws.PrintedIsRead | src/probes/dns/analyse.ts:93-124 | for any eight groups and any run of zeros, the full form and the form with a gap for that run read back (RFC 4291 section 2.2) |
| AddressLaws.DottedPrintIsRead | src/probes/dns/analyse.ts:96-106 | the same with the last two groups as a dotted quad |
| AddressLaws.MappedIsUnwrapped | src/probes/dns/analyse.ts:152-176 | every spelling of an IPv4-mapped address classifies as its dotted quad does, which is by the range that its 32-bit number lies in |
| AddressLaws.ClassOfText | src/probes/dns/analyse.ts:139-176 | malformed exactly when neither form reads; a dotted quad, and every spelling of a mapped one, by the interval that its 32-bit number lies in; any other spelling by the range of its groups, with the bit masks read as ranges |
| AddressLaws.QuadInRange | src/probes/dns/analyse.ts:126-137 | as intervals of 32-bit numbers: 0/8 and 127/8 are sinkholes, 10/8, 172.16/12, 192.168/16, 169.254/16 and 100.64/10 are private, all others public |
| Glob.TranslationParses | src/probes/proxy/pac-bootstrap.ts:124-128 | the three rewrites of any pattern give a regular expression with one atom for each character of the pattern |
| Glob.ShExpMatchIs | src/probes/proxy/pac-bootstrap.ts:124-128 | for every pattern and candidate, the anchored match is glob matching with wildcards that stay within a line |
| Glob.GlobExactlyOnOneLine | src/probes/proxy/pac-bootstrap.ts:124-128 | it is plain glob matching for all patterns if and only if the candidate holds no line terminator |
| Proxy.RouteTable.constructor | src/probes/proxy/index.ts:238 | an empty table |
| Proxy.RouteTable.AddRoute | src/probes/proxy/index.ts:209-219 | a new route, or the one with that key made louder, in place |
| Proxy.EvaluatePacPerEndpoint | src/probes/proxy/index.ts:229-269 | the endpoints sorted by the script's answers |
| Proxy.EnvRoutes | src/probes/proxy/index.ts:320-327 | the routes that the environment names |
| Proxy.Clustered | src/probes/proxy/index.ts:433-453 | the map loop |
| Proxy.ProbeRoutes | src/probes/proxy/index.ts:393-424 | one CONNECT for each route |
| ProxyLaws.TargetKeyTells | src/probes/proxy/index.ts:204-207 | `host:port` keys are equal exactly for the same host, case aside, and port |
| ProxyLaws.ClusterKeyTells | src/probes/proxy/index.ts:436 | the joined key tells its four parts apart for every proxy host, as long as codes hold no bar |
| ProxyLaws.RoutesMean | src/probes/proxy/index.ts:209-219 | every pair of proxy and endpoint has exactly one route, required exactly when one of the pairs that share it is |
| ProxyLaws.RoutesInOrder | src/probes/proxy/index.ts:209-219 | routes stand in the order in which their pairs are first found, under the first spelling of their hosts |
| ProxyLaws.ClustersMean | src/probes/proxy/index.ts:426-453 | clusters are the equivalence classes of proxy (case aside), verdict, code and scheme; each lists exactly its own destinations and is required exactly when one of them is |
| ProxyLaws.ClustersInOrder | src/probes/proxy/index.ts:433-453 | clusters stand in the order in which their outcomes first come, and list destinations in theirs |
| ProxyLaws.ClustersConserve | src/probes/proxy/index.ts:433-453 | clustering neither drops nor repeats a destination |
| ProxyRuns.EndpointsAreConserved | src/probes/proxy/index.ts:123-198 | on every leg, with distinct endpoints: those that the report places (bypassed, direct, inconclusive, or in one cluster) and those that it drops are together every endpoint once; one CONNECT for each in a cluster |
| ProxyRuns.ConservedExactlyWhen | src/probes/proxy/index.ts:157-193 | a run without a note of its own places every endpoint if and only if it does not go by the environment, or the environment gives a usable proxy for every endpoint that is not bypassed; a run with one places none |
| ProxyRuns.UnusableUrlLosesEndpoints | src/probes/proxy/index.ts:298-336 | in terms of `HTTPS_PROXY` and `HTTP_PROXY`: every endpoint is placed if and only if the text that each unbypassed one goes by is a proxy URL, whatever the other variable holds |
| ProxyRuns.AnEndpointIsDropped | src/probes/proxy/index.ts:169-171 | an input that shows it: one endpoint, no bypass, an unusable URL, and an empty report |
| ProxyRuns.EnvPairsAre | src/probes/proxy/index.ts:320-327 | the environment leg finds one pair for each endpoint that the environment names a proxy for, and no other |
| ProxyRuns.VariableIs | src/probes/proxy/index.ts:298-336 | an endpoint on port 443 goes by `HTTPS_PROXY` and only without it by `HTTP_PROXY`, any other the other way round, and the leg is in effect as soon as either is set |
| ProxyRuns.BypassedIsExempted | src/probes/proxy/index.ts:144-154 | on every leg that says nothing of a failed discovery, an endpoint is reported as bypassed exactly when a valid `NO_PROXY` entry matches it |
| ProxyLaws.EvaluationFollows | src/probes/proxy/index.ts:242-266 | every endpoint goes where the script's answer for it says |
| ProxyLaws.EvaluationKeepsOrder | src/probes/proxy/index.ts:242-266 | and keeps its place among those that go there |
| ProxyLaws.ClustersAreConsistent | src/probes/proxy/index.ts:399-424 | no code with an established tunnel and no scheme without a challenge, in outcomes and clusters alike |
| ProxyRuns.ReportIsTrue | src/probes/proxy/index.ts:123-198 | on every leg, a run opens one CONNECT for each different pair that its leg finds, and its clusters are the classes of equal outcomes of those |
| ProxyRuns.RepliesAreReported | src/probes/proxy/index.ts:393-453 | a cluster lists a destination exactly when a CONNECT to it through its proxy was answered with what the cluster says, and every answer is in some cluster: a code only of a failure, a scheme only of a challenge, a cancelled run as such |
| ProxyRuns.NotesAre | src/probes/proxy/index.ts:144-193 | each of the three notes on a failed discovery exactly when its leg is the one in effect and ends that way |
| ProxyRuns.FirstLegDecides | src/probes/proxy/index.ts:144-193 | a configured script goes before the environment and that before `wpad`, whatever the later ones would say |
| ProxyRuns.RoutedKeepsOrder | src/probes/proxy/index.ts:144-154 | the endpoints to route are those that no valid entry exempts, as often as they are there and in their order |
| Wrap.WrapText | src/report/text.ts:84-100 | the loop computes the greedy split |
| Wrap.WordsAre | src/report/text.ts:85 | the words of a text are its stretches without white space: a white-space character ends one and begins another, and a text without any is one word |
| Wrap.LinesAreGreedy | src/report/text.ts:84-100 | no line but the last could take the next line's first word as well, and each is its words with one space between them |
| Wrap.WrappingIsOptimal | src/report/text.ts:84-100 | the words of the lines are the words of the text, every line is within the width or one word, and no other split into such lines has fewer |
| Wrap.GreedyIsFewest | src/report/text.ts:88-97 | from any line under way that fits, going on greedily uses no more lines than any split of the same words |

## Left out

- X.509 is abstract: a partial decoder from PEM text or presented bytes to DER, and a function from DER to its names. Signatures are never checked, by the source either.
- Distinguished names come already canonical; how `canonicalDn` prints one (attribute order, case, spacing, unescaped separators) is not modelled.
- Strings are sequences of Dafny characters, not of UTF-16 code units: a character outside the basic plane is one unit here and two in the source, which matters to `?` in a glob, to line widths and to the order of canonical subjects.
- Guard.NetworkGuard.PermitPeer: lower-casing is that of ASCII letters, so hosts that differ only in the case of other letters count as different.
- ProxyLaws.TargetKeyTells: the same ASCII lower-casing.
- Guard: the reasons kept for the report are modelled, the sorted listing `permitted()` is not.
- Keystore.ParsePkcs12: no bound on its work and no containment of a value in its parent is claimed; the code checks a value against the buffer only.
- Keystore.ReadKeystore: the catch-all for unforeseen exceptions has no counterpart, as every branch of the model is total.
- CrossCheck.CrossCheck: an anchor is its DER, with its names read off it; titles, remediation text and evidence labels other than the ones in `Finding` are not modelled.
- StoreBudgets.ReadStores: every child is taken to fail to start or to close sooner or later; the child's environment and argument vector are not modelled.
- StoreReader.ReadOneStore.OnClose: UTF-8 decoding of the output is a parameter.
- JavaStores.ReadJavaStores: the paths found are a parameter; how path patterns, home directories and `JAVA_HOME` lead to them is not modelled, and neither are the stores of Python, whose outcomes are inputs of the cross-check.
- JavaStores.ReadJavaCacerts: the format that the reader recognised is not carried into a finding.
- Sockets.Network.Capture: phase budgets and abort signals appear as the faults they cause; timings, SNI, protocol and cipher are not modelled.
- Sockets.Network.OpenTunnel: bytes read past the response head and their return to the stream are not modelled; `connectDetailed`, which never hands a socket over, is not modelled.
- SocketRuns.EveryRunIsSafe: each answer of the network reaches the capture that waits for it; an answer that no capture waits for changes nothing.
- TlsAnchor.EvaluateChain: the findings on protocol, validity and names are not modelled, only the verdict and the anchor.
- Proxy.RunProxy: the parsing of `NO_PROXY` and of proxy URLs, the PAC sandbox, name resolution before evaluation, and the table from CONNECT failures to verdicts are parameters.
- ProxyRuns.VariableIs: the two variables come read and trimmed; which spelling of a variable's name is looked up is not modelled.
- Wrap.WrapText: the rest of the text report, and the JSON and HTML ones, are layout.
- Profiles, redaction, exit codes, the egress and DNS probes beyond address text, and the engine are not part of this model.
