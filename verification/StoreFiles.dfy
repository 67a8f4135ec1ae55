/** What each store read off the file system reports, state by state of the files (src/net/os-truststore.ts, src/net/runtime-stores.ts). */
module StoreFiles {
  import opened Wrappers
  import opened StoreTypes
  import opened Stores
  import Pem
  import Text

  /** Nothing is at the path. */
  ghost predicate Missing(files: Files, path: string) {
    files.stat(path) == Err(Some("ENOENT"))
  }

  // ---- the operating system's bundle ----

  /**
   * The first path of the table that is there is the bundle, whatever becomes of reading it: a file
   * that cannot be had keeps the error's code, one that is too large or holds no certificate has
   * none, and only a file with certificates has no failure.
   */
  lemma BundleReads(files: Files, paths: seq<string>, maxBytes: nat, elapsed: int, i: nat)
    requires i < |paths| && !Missing(files, paths[i]) && forall k :: 0 <= k < i ==> Missing(files, paths[k])
    ensures var s, size, text := LinuxBundle(files, paths, maxBytes, elapsed), files.stat(paths[i]), files.read(paths[i]);
      && s.kind == LinuxCaBundle && s.locator == paths[i] && s.budgetMs == None && s.readMs == Some(elapsed)
      && (s.failure.None? <==> s.pems != [])
      && (s.failure == Some(OutputTooLarge) <==> size.Ok? && size.value > maxBytes)
      && (s.failure == Some(ReaderFailed) <==> size.Err? || (size.value <= maxBytes && text.Err?))
      && (size.Ok? && size.value <= maxBytes && text.Ok? ==>
            s.pems == Pem.Blocks(text.value) && s.failure == if s.pems == [] then Some(NoCertificates) else None)
      && s.code == if size.Err? then size.error else if size.value <= maxBytes && text.Err? then text.error else None
  {
    hide Pem.Blocks;
    FirstPresentIs(files, paths, i);
  }

  /** With none of the paths there, the bundle is reported missing at the first of them. */
  lemma NoBundle(files: Files, paths: seq<string>, maxBytes: nat, elapsed: int)
    requires forall k :: 0 <= k < |paths| ==> Missing(files, paths[k])
    ensures var s := LinuxBundle(files, paths, maxBytes, elapsed);
      && s.kind == LinuxCaBundle && s.pems == [] && s.failure == Some(ReaderMissing) && s.code == Some("ENOENT")
      && s.budgetMs == None
      && (paths != [] ==> s.locator == paths[0] && s.readMs == Some(elapsed))
      && (paths == [] ==> s.locator == "/etc/ssl/certs/ca-certificates.crt" && s.readMs == None)
  {
    FirstPresentIs(files, paths, |paths|);
  }

  // ---- a variable that names a file or a directory ----

  /** The variable is set to something. */
  ghost predicate Names(env: map<string, string>, variable: string, path: string) {
    variable in env && env[variable] == path && path != ""
  }

  /** A variable that names a file gives what the file holds, under the file's name; one that names none, nothing. */
  lemma EnvFileIs(
    files: Files, env: map<string, string>, runtime: Runtime, kind: RuntimeStoreKind, variable: string,
    combines: Combines, maxBytes: nat, path: string)
    ensures var s := EnvFile(files, env, runtime, kind, variable, combines, maxBytes);
      && s.runtime == runtime && s.kind == kind && s.combines == combines && !s.partial
      && (Names(env, variable, path) ==>
            Contents(s.pems, s.failure, s.code) == PemFile(files, path, maxBytes)
            && s.locator == Some(path) && s.searched == [variable, path])
      && ((forall p :: !Names(env, variable, p)) ==>
            s.pems == [] && s.failure == Some(NotConfigured) && s.code == None
            && s.locator == Some(variable) && s.searched == [variable])
  {
    hide PemFile;
    if EnvValue(env, variable).Some? {
      assert Names(env, variable, env[variable]);
    }
  }

  /** A directory that cannot be listed gives nothing, and says whether it is there at all. */
  lemma UnlistedDirectory(files: Files, env: map<string, string>, runtime: Runtime, maxBytes: nat, dir: string)
    ensures var s := CertDir(files, env, runtime, maxBytes);
      && s.runtime == runtime && s.kind == GoSslCertDir && s.combines == Replaces && !s.partial
      && (Names(env, "SSL_CERT_DIR", dir) ==> s.locator == Some(dir))
      && (Names(env, "SSL_CERT_DIR", dir) && files.list(dir).Err? ==>
            s.pems == [] && s.code == files.list(dir).error && s.searched == ["SSL_CERT_DIR", dir]
            && s.failure == Some(if files.list(dir).error == Some("ENOENT") then NotFound else Unreadable))
      && ((forall p :: !Names(env, "SSL_CERT_DIR", p)) ==>
            s.pems == [] && s.failure == Some(NotConfigured) && s.code == None
            && s.locator == Some("SSL_CERT_DIR") && s.searched == ["SSL_CERT_DIR"])
  {
    hide UnionOf, SortedNames, CertNames, Joined;
    if EnvValue(env, SSL_CERT_DIR).Some? {
      assert Names(env, "SSL_CERT_DIR", env[SSL_CERT_DIR]);
    }
  }

  /** A certificate file's name ends in `.pem` or `.crt`, each letter large or small. */
  lemma CertNameIs(entry: string)
    ensures IsCertName(entry) <==>
      |entry| >= 4 && entry[|entry| - 4] == '.' && EndsIn(entry)
  {
    if |entry| >= 4 {
      var end := entry[|entry| - 4..];
      assert end[0] == entry[|entry| - 4] && end[1] == entry[|entry| - 3]
        && end[2] == entry[|entry| - 2] && end[3] == entry[|entry| - 1];
      var low := Text.Lower(end);
      assert low == [low[0], low[1], low[2], low[3]];
    }
  }

  predicate EndsIn(entry: string)
    requires |entry| >= 4
  {
    var a, b, c := entry[|entry| - 3], entry[|entry| - 2], entry[|entry| - 1];
    (a in {'p', 'P'} && b in {'e', 'E'} && c in {'m', 'M'}) || (a in {'c', 'C'} && b in {'r', 'R'} && c in {'t', 'T'})
  }

  /** Files are read in order: the certificates of one list and then those of the next, and the first code of either. */
  lemma {:induction false} UnionJoins(files: Files, a: seq<string>, path: string, b: seq<string>, maxBytes: nat)
    ensures var all, before, file, after :=
        UnionOf(files, a + [path] + b, maxBytes), UnionOf(files, a, maxBytes), PemFile(files, path, maxBytes),
        UnionOf(files, b, maxBytes);
      && all.pems == before.pems + file.pems + after.pems
      && all.code == if before.code.Some? then before.code else if file.code.Some? then file.code else after.code
  {
    hide PemFile;
    if b == [] {
      assert (a + [path] + b)[..|a|] == a;
    } else {
      var n := |b| - 1;
      assert (a + [path] + b)[..|a| + 1 + n] == a + [path] + b[..n];
      UnionJoins(files, a, path, b[..n], maxBytes);
    }
  }

  // ---- the stores that need no variable ----

  /** Node's own bundle stands alone and is never partial; without a certificate it is not judged. */
  lemma NodeBundleIs(files: Files, env: map<string, string>, bundle: seq<string>, maxBytes: nat)
    ensures var s := NodeStoresOf(files, env, bundle, maxBytes);
      && |s| == 2
      && s[0].runtime == Node && s[0].kind == NodeBundled && s[0].locator == None && s[0].combines == Standalone
      && s[0].pems == bundle && !s[0].partial && s[0].code == None
      && s[0].failure == (if bundle == [] then Some(NoCertificatesInStore) else None)
      && s[1] == EnvFile(files, env, Node, NodeExtraCa, "NODE_EXTRA_CA_CERTS", AddsTo, maxBytes)
  {
    hide EnvFile;
  }

  /** Go's bundle is the first path that can be looked at, for whatever reason those before it cannot. */
  lemma GoBundleReads(files: Files, paths: seq<string>, maxBytes: nat, i: nat)
    requires i <= |paths| && forall k :: 0 <= k < i ==> files.stat(paths[k]).Err?
    requires i < |paths| ==> files.stat(paths[i]).Ok?
    ensures var s := GoBundle(files, paths, maxBytes);
      && s.runtime == Go && s.kind == GoSystemBundle && s.combines == Standalone && !s.partial
      && |s.searched| <= 8 && s.searched <= paths
      && (i < |paths| ==>
            Contents(s.pems, s.failure, s.code) == PemFile(files, paths[i], maxBytes) && s.locator == Some(paths[i]))
      && (i == |paths| ==> s.pems == [] && s.failure == Some(NotFound) && s.code == None && s.locator == None)
  {
    hide PemFile;
    FirstExistingIs(files, paths, i);
  }
}
