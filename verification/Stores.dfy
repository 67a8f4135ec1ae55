/**
 * Reading PEM stores off one file system: the Linux bundle the operating system uses
 * (src/net/os-truststore.ts) and the stores Go consults (src/net/runtime-stores.ts).
 */
module Stores {
  import opened Wrappers
  import opened Bits
  import opened StoreTypes
  import Pem
  import Text

  /** A machine code off a rejected call, when it carries one. */
  type Errno = Option<string>

  const ENOENT: string := "ENOENT"

  /** The file system during one run: what `stat`, `readFile` as text or as bytes and `readdir` answer for a path. */
  datatype Files = Files(
    stat: string -> Result<int, Errno>, read: string -> Result<string, Errno>, load: string -> Result<bytes, Errno>,
    list: string -> Result<seq<string>, Errno>, join: (string, string) -> string)

  const FIRST_LINUX_PATH: string := "/etc/ssl/certs/ca-certificates.crt"

  const LINUX_CA_BUNDLE_PATHS: seq<string> := [
    FIRST_LINUX_PATH,
    "/etc/pki/tls/certs/ca-bundle.crt",
    "/etc/ssl/ca-bundle.pem",
    "/etc/pki/tls/cacert.pem",
    "/etc/pki/ca-trust/extracted/pem/tls-ca-bundle.pem",
    "/etc/ssl/cert.pem"
  ]

  const MAX_STORE_OUTPUT_BYTES: nat := 4 * 1024 * 1024
  const MAX_DISCOVERY_MATCHES: nat := 8

  predicate Absent(files: Files, path: string) {
    files.stat(path) == Err(Some(ENOENT))
  }

  // ---- the operating system's bundle ----

  function BundleOutcome(locator: string, pems: seq<string>, failure: Option<OsFailure>, code: Errno, readMs: Option<int>): OsStore {
    OsStore(LinuxCaBundle, locator, pems, failure, code, None, readMs)
  }

  /** What the first path that is not absent gives. */
  function BundleAt(files: Files, path: string, maxBytes: nat, readMs: Option<int>): OsStore {
    match files.stat(path)
    case Err(code) => BundleOutcome(path, [], Some(ReaderFailed), code, readMs)
    case Ok(size) =>
      if size > maxBytes then BundleOutcome(path, [], Some(OutputTooLarge), None, readMs)
      else match files.read(path)
        case Err(code) => BundleOutcome(path, [], Some(ReaderFailed), code, readMs)
        case Ok(text) =>
          var pems := Pem.Blocks(text);
          BundleOutcome(path, pems, if pems == [] then Some(NoCertificates) else None, None, readMs)
  }

  /** The first path of the table that is not absent; the length of the table when there is none. */
  function FirstPresent(files: Files, paths: seq<string>): (i: nat)
    ensures i <= |paths|
    ensures i < |paths| ==> !Absent(files, paths[i])
    ensures forall k :: 0 <= k < i ==> Absent(files, paths[k])
  {
    if paths == [] || !Absent(files, paths[0]) then 0 else 1 + FirstPresent(files, paths[1..])
  }

  function LinuxBundle(files: Files, paths: seq<string>, maxBytes: nat, elapsed: int): OsStore {
    var readMs := if paths == [] then None else Some(elapsed);
    var i := FirstPresent(files, paths);
    if i < |paths| then BundleAt(files, paths[i], maxBytes, readMs)
    else BundleOutcome(if paths == [] then FIRST_LINUX_PATH else paths[0], [], Some(ReaderMissing), Some(ENOENT), readMs)
  }

  /** `elapsed` is what the clock shows when the outcome is made. */
  method ReadLinuxCaBundle(files: Files, paths: seq<string>, maxBytes: nat, elapsed: int) returns (r: OsStore)
    ensures r == LinuxBundle(files, paths, maxBytes, elapsed)
  {
    var readMs := if paths == [] then None else Some(elapsed);
    for i := 0 to |paths|
      invariant forall k :: 0 <= k < i ==> Absent(files, paths[k])
    {
      var size := files.stat(paths[i]);
      if size.Err? {
        if size.error == Some(ENOENT) { continue; }
        FirstPresentIs(files, paths, i);
        return BundleOutcome(paths[i], [], Some(ReaderFailed), size.error, readMs);
      }
      FirstPresentIs(files, paths, i);
      if size.value > maxBytes { return BundleOutcome(paths[i], [], Some(OutputTooLarge), None, readMs); }
      var text := files.read(paths[i]);
      if text.Err? { return BundleOutcome(paths[i], [], Some(ReaderFailed), text.error, readMs); }
      var pems := Pem.PemBlocks(text.value);
      return BundleOutcome(paths[i], pems, if pems == [] then Some(NoCertificates) else None, None, readMs);
    }
    FirstPresentIs(files, paths, |paths|);
    r := BundleOutcome(if paths == [] then FIRST_LINUX_PATH else paths[0], [], Some(ReaderMissing), Some(ENOENT), readMs);
  }

  lemma FirstPresentIs(files: Files, paths: seq<string>, i: nat)
    requires i <= |paths| && forall k :: 0 <= k < i ==> Absent(files, paths[k])
    requires i < |paths| ==> !Absent(files, paths[i])
    ensures FirstPresent(files, paths) == i
  {
  }

  // ---- one PEM file of a runtime ----

  datatype Contents = Contents(pems: seq<string>, failure: Option<RuntimeFailure>, code: Errno)

  function PemFile(files: Files, path: string, maxBytes: nat): Contents {
    match files.stat(path)
    case Err(code) => Contents([], Some(if code == Some(ENOENT) then NotFound else Unreadable), code)
    case Ok(size) =>
      if size > maxBytes then Contents([], Some(TooLarge), None)
      else match files.read(path)
        case Err(code) => Contents([], Some(Unreadable), code)
        case Ok(text) =>
          var pems := Pem.Blocks(text);
          Contents(pems, if pems == [] then Some(NoCertificatesInStore) else None, None)
  }

  method ReadPemFile(files: Files, path: string, maxBytes: nat) returns (r: Contents)
    ensures r == PemFile(files, path, maxBytes)
  {
    var size := files.stat(path);
    if size.Err? {
      return Contents([], Some(if size.error == Some(ENOENT) then NotFound else Unreadable), size.error);
    }
    if size.value > maxBytes { return Contents([], Some(TooLarge), None); }
    var text := files.read(path);
    if text.Err? { return Contents([], Some(Unreadable), text.error); }
    var pems := Pem.PemBlocks(text.value);
    r := Contents(pems, if pems == [] then Some(NoCertificatesInStore) else None, None);
  }

  /** An environment variable that is set to something. */
  function EnvValue(env: map<string, string>, name: string): Option<string> {
    if name in env && env[name] != "" then Some(env[name]) else None
  }

  function EnvFile(
    files: Files, env: map<string, string>, runtime: Runtime, kind: RuntimeStoreKind, variable: string,
    combines: Combines, maxBytes: nat): RuntimeStore
  {
    match EnvValue(env, variable)
    case None =>
      RuntimeStore(runtime, kind, Some(variable), [variable], combines, [], false, Some(NotConfigured), None)
    case Some(path) =>
      var contents := PemFile(files, path, maxBytes);
      RuntimeStore(runtime, kind, Some(path), [variable, path], combines, contents.pems, false, contents.failure, contents.code)
  }

  method EnvFileStore(
    files: Files, env: map<string, string>, runtime: Runtime, kind: RuntimeStoreKind, variable: string,
    combines: Combines, maxBytes: nat) returns (r: RuntimeStore)
    ensures r == EnvFile(files, env, runtime, kind, variable, combines, maxBytes)
  {
    var path := EnvValue(env, variable);
    if path.None? {
      return RuntimeStore(runtime, kind, Some(variable), [variable], combines, [], false, Some(NotConfigured), None);
    }
    var contents := ReadPemFile(files, path.value, maxBytes);
    r := RuntimeStore(runtime, kind, Some(path.value), [variable, path.value], combines, contents.pems, false,
                      contents.failure, contents.code);
  }

  // ---- a directory of PEM files ----

  const SSL_CERT_FILE: string := "SSL_CERT_FILE"
  const SSL_CERT_DIR: string := "SSL_CERT_DIR"

  /** The name ends in `.pem` or `.crt`, in either case. */
  predicate IsCertName(entry: string) {
    |entry| >= 4 && Text.Lower(entry[|entry| - 4..]) in {".pem", ".crt"}
  }

  function CertNames(entries: seq<string>): seq<string> {
    if entries == [] then [] else (if IsCertName(entries[0]) then [entries[0]] else []) + CertNames(entries[1..])
  }

  function InsertName(name: string, sorted: seq<string>): seq<string> {
    if sorted == [] || !Text.TextLess(sorted[0], name) then [name] + sorted
    else [sorted[0]] + InsertName(name, sorted[1..])
  }

  function SortedNames(names: seq<string>): seq<string> {
    if names == [] then [] else InsertName(names[0], SortedNames(names[1..]))
  }

  function Capped(paths: seq<string>): seq<string> {
    if |paths| <= MAX_DISCOVERY_MATCHES then paths else paths[..MAX_DISCOVERY_MATCHES]
  }

  function Joined(files: Files, dir: string, names: seq<string>): (paths: seq<string>)
    ensures |paths| == |names| && forall i :: 0 <= i < |names| ==> paths[i] == files.join(dir, names[i])
  {
    if names == [] then [] else [files.join(dir, names[0])] + Joined(files, dir, names[1..])
  }

  /** The certificates of the listed files in order, and the first machine code any of them gave. */
  function UnionOf(files: Files, paths: seq<string>, maxBytes: nat): Contents {
    if paths == [] then Contents([], None, None)
    else
      var before := UnionOf(files, paths[..|paths| - 1], maxBytes);
      var last := PemFile(files, paths[|paths| - 1], maxBytes);
      Contents(before.pems + last.pems, None, if before.code.Some? then before.code else last.code)
  }

  function CertDir(files: Files, env: map<string, string>, runtime: Runtime, maxBytes: nat): RuntimeStore {
    match EnvValue(env, SSL_CERT_DIR)
    case None =>
      RuntimeStore(runtime, GoSslCertDir, Some(SSL_CERT_DIR), [SSL_CERT_DIR], Replaces, [], false, Some(NotConfigured), None)
    case Some(dir) =>
      match files.list(dir)
      case Err(code) =>
        RuntimeStore(runtime, GoSslCertDir, Some(dir), [SSL_CERT_DIR, dir], Replaces, [], false,
                     Some(if code == Some(ENOENT) then NotFound else Unreadable), code)
      case Ok(entries) =>
        var chosen := Joined(files, dir, Capped(SortedNames(CertNames(entries))));
        var union := UnionOf(files, chosen, maxBytes);
        RuntimeStore(runtime, GoSslCertDir, Some(dir), chosen, Replaces, union.pems, false,
                     if union.pems == [] then Some(NoCertificatesInStore) else None, union.code)
  }

  method CertDirStore(files: Files, env: map<string, string>, runtime: Runtime, maxBytes: nat) returns (r: RuntimeStore)
    ensures r == CertDir(files, env, runtime, maxBytes)
  {
    hide PemFile, SortedNames, CertNames, Joined;
    var dir := EnvValue(env, SSL_CERT_DIR);
    if dir.None? {
      return RuntimeStore(runtime, GoSslCertDir, Some(SSL_CERT_DIR), [SSL_CERT_DIR], Replaces, [], false, Some(NotConfigured), None);
    }
    var entries := files.list(dir.value);
    if entries.Err? {
      return RuntimeStore(runtime, GoSslCertDir, Some(dir.value), [SSL_CERT_DIR, dir.value], Replaces, [], false,
                          Some(if entries.error == Some(ENOENT) then NotFound else Unreadable), entries.error);
    }
    var chosen := Joined(files, dir.value, Capped(SortedNames(CertNames(entries.value))));
    var pems: seq<string> := [];
    var code: Errno := None;
    for i := 0 to |chosen|
      invariant UnionOf(files, chosen[..i], maxBytes) == Contents(pems, None, code)
    {
      assert chosen[..i + 1][..i] == chosen[..i];
      var contents := ReadPemFile(files, chosen[i], maxBytes);
      if contents.code.Some? && code.None? { code := contents.code; }
      pems := pems + contents.pems;
    }
    assert chosen[..|chosen|] == chosen;
    r := RuntimeStore(runtime, GoSslCertDir, Some(dir.value), chosen, Replaces, pems, false,
                      if pems == [] then Some(NoCertificatesInStore) else None, code);
  }

  // ---- Node ----

  const NODE_EXTRA_CA_CERTS: string := "NODE_EXTRA_CA_CERTS"

  /** The bundle Node ships, and the file that its variable adds to it. */
  function NodeStoresOf(files: Files, env: map<string, string>, bundle: seq<string>, maxBytes: nat): seq<RuntimeStore> {
    [RuntimeStore(Node, NodeBundled, None, [], Standalone, bundle, false,
                  if bundle == [] then Some(NoCertificatesInStore) else None, None),
     EnvFile(files, env, Node, NodeExtraCa, NODE_EXTRA_CA_CERTS, AddsTo, maxBytes)]
  }

  method NodeStores(files: Files, env: map<string, string>, bundle: seq<string>, maxBytes: nat) returns (r: seq<RuntimeStore>)
    ensures r == NodeStoresOf(files, env, bundle, maxBytes)
  {
    hide EnvFile;
    var bundled := RuntimeStore(Node, NodeBundled, None, [], Standalone, bundle, false,
                                if bundle == [] then Some(NoCertificatesInStore) else None, None);
    var extra := EnvFileStore(files, env, Node, NodeExtraCa, NODE_EXTRA_CA_CERTS, AddsTo, maxBytes);
    r := [bundled, extra];
  }

  // ---- Go ----

  predicate Exists(files: Files, path: string) {
    files.stat(path).Ok?
  }

  /** The first path that can be stat'ed, whatever stopped the ones before it. */
  function FirstExisting(files: Files, paths: seq<string>): (i: nat)
    ensures i <= |paths|
    ensures i < |paths| ==> Exists(files, paths[i])
    ensures forall k :: 0 <= k < i ==> !Exists(files, paths[k])
  {
    if paths == [] || Exists(files, paths[0]) then 0 else 1 + FirstExisting(files, paths[1..])
  }

  function GoBundle(files: Files, paths: seq<string>, maxBytes: nat): RuntimeStore {
    var i := FirstExisting(files, paths);
    if i < |paths| then
      var contents := PemFile(files, paths[i], maxBytes);
      RuntimeStore(Go, GoSystemBundle, Some(paths[i]), Capped(paths[..i + 1]), Standalone, contents.pems, false,
                   contents.failure, contents.code)
    else RuntimeStore(Go, GoSystemBundle, None, Capped(paths), Standalone, [], false, Some(NotFound), None)
  }

  method GoSystemBundleStore(files: Files, paths: seq<string>, maxBytes: nat) returns (r: RuntimeStore)
    ensures r == GoBundle(files, paths, maxBytes)
  {
    var tried: seq<string> := [];
    for i := 0 to |paths|
      invariant tried == paths[..i]
      invariant forall k :: 0 <= k < i ==> !Exists(files, paths[k])
    {
      tried := tried + [paths[i]];
      if !Exists(files, paths[i]) { continue; }
      FirstExistingIs(files, paths, i);
      var contents := ReadPemFile(files, paths[i], maxBytes);
      return RuntimeStore(Go, GoSystemBundle, Some(paths[i]), Capped(tried), Standalone, contents.pems, false,
                          contents.failure, contents.code);
    }
    FirstExistingIs(files, paths, |paths|);
    r := RuntimeStore(Go, GoSystemBundle, None, Capped(paths), Standalone, [], false, Some(NotFound), None);
  }

  lemma FirstExistingIs(files: Files, paths: seq<string>, i: nat)
    requires i <= |paths| && forall k :: 0 <= k < i ==> !Exists(files, paths[k])
    requires i < |paths| ==> Exists(files, paths[i])
    ensures FirstExisting(files, paths) == i
  {
  }

  function GoStoresOf(files: Files, env: map<string, string>, platform: Platform, paths: seq<string>, maxBytes: nat): seq<RuntimeStore> {
    var named := [EnvFile(files, env, Go, GoSslCertFile, SSL_CERT_FILE, Replaces, maxBytes), CertDir(files, env, Go, maxBytes)];
    if EnvValue(env, SSL_CERT_FILE).Some? || EnvValue(env, SSL_CERT_DIR).Some? then named
    else if platform == Darwin || platform == Win32 then
      named + [RuntimeStore(Go, PlatformVerifier, None, [], Standalone, [], false, None, None)]
    else if platform == Linux then named + [GoBundle(files, paths, maxBytes)]
    else named
  }

  method GoStores(files: Files, env: map<string, string>, platform: Platform, paths: seq<string>, maxBytes: nat)
    returns (r: seq<RuntimeStore>)
    ensures r == GoStoresOf(files, env, platform, paths, maxBytes)
  {
    hide EnvFile, CertDir, GoBundle;
    var file := EnvFileStore(files, env, Go, GoSslCertFile, SSL_CERT_FILE, Replaces, maxBytes);
    var dir := CertDirStore(files, env, Go, maxBytes);
    var overridden := EnvValue(env, SSL_CERT_FILE).Some? || EnvValue(env, SSL_CERT_DIR).Some?;
    var usesVerifier := platform == Darwin || platform == Win32;
    if !overridden && usesVerifier {
      return [file, dir, RuntimeStore(Go, PlatformVerifier, None, [], Standalone, [], false, None, None)];
    }
    if !overridden && platform == Linux {
      var bundle := GoSystemBundleStore(files, paths, maxBytes);
      return [file, dir, bundle];
    }
    r := [file, dir];
  }
}
