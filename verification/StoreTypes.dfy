/** The records that pass between the store readers and the cross-check (src/net/types.ts). */
module StoreTypes {
  import opened Wrappers
  import opened Bits
  import Pem

  datatype StoreKind = MacosSystemRoots | MacosAdminAnchors | WindowsMachineRoot | LinuxCaBundle

  datatype OsFailure =
    | UnsupportedPlatform
    | ReaderMissing
    | ReaderFailed
    | Aborted
    | Timeout
    | OutputTooLarge
    | NoCertificates

  /** One OS store's read. `budgetMs` is absent where no process is ever started. */
  datatype OsStore = OsStore(
    kind: StoreKind, locator: string, pems: seq<string>, failure: Option<OsFailure>,
    code: Option<string>, budgetMs: Option<int>, readMs: Option<int>)

  datatype Platform = Darwin | Win32 | Linux | OtherPlatform

  /** The row of the pinned command table that a budget is measured against. */
  datatype Command = Command(platform: Platform, kind: StoreKind, locator: string, format: Pem.Format, timeoutMs: int)

  datatype Runtime = Node | Go | Python | Java

  datatype RuntimeStoreKind =
    | NodeBundled
    | NodeExtraCa
    | GoSslCertFile
    | GoSslCertDir
    | GoSystemBundle
    | PythonCertifi
    | PythonSslCertFile
    | PythonRequestsCaBundle
    | JavaCacerts
    | PlatformVerifier

  datatype RuntimeFailure =
    | NotConfigured
    | NotFound
    | Unreadable
    | TooLarge
    | UnsupportedFormat
    | UnsupportedEncoding
    | Truncated
    | Encrypted
    | NoCertificatesInStore

  datatype Combines = AddsTo | Replaces | Standalone

  datatype RuntimeStore = RuntimeStore(
    runtime: Runtime, kind: RuntimeStoreKind, locator: Option<string>, searched: seq<string>,
    combines: Combines, pems: seq<string>, partial: bool, failure: Option<RuntimeFailure>, code: Option<string>)

  datatype Via = Direct | Proxied

  datatype AnchorClass = PrivateAnchor | IndeterminateAnchor

  /** What the tls probe saw terminate a chain. */
  datatype ObservedAnchor = ObservedAnchor(
    der: Option<bytes>, canonicalIssuer: string, canonicalSubject: string, host: string, via: Via,
    anchorClass: AnchorClass)
}
