/** The issuance path of a presented chain and the class of its anchor (src/probes/tls/public-roots.ts). */
module PublicRoots {
  import opened Wrappers
  import opened Bits
  import opened RootIndex

  /** A parsed certificate: its bytes and its canonical subject and issuer. */
  datatype Cert = Cert(der: bytes, subject: string, issuer: string)

  datatype RootClass = Private | Indeterminate | Public

  datatype RootReason =
    | BundledRootOnPath
    | SelfSignedAnchorNotBundled
    | IssuerMatchesNoBundledRoot
    | AnchorNotPresented

  datatype RootVerdict = RootVerdict(class_: RootClass, reason: RootReason, matchedIndex: Option<nat>, path: seq<nat>)

  // ---- the path ----

  /** Every position of the chain. */
  function Positions(chain: seq<Cert>): set<nat> {
    Below(|chain|)
  }

  function Below(n: nat): (r: set<nat>)
    ensures forall i: nat :: i in r <==> i < n
  {
    if n == 0 then {} else Below(n - 1) + {n - 1}
  }

  predicate InRange(chain: seq<Cert>, path: seq<nat>) {
    forall k :: 0 <= k < |path| ==> path[k] < |chain|
  }

  /** The first position at or after `from` whose subject is `issuer` and that is not visited. */
  function FirstUnvisited(chain: seq<Cert>, issuer: string, visited: set<nat>, from: nat): (i: nat)
    requires from <= |chain|
    ensures from <= i <= |chain|
    ensures i < |chain| ==> chain[i].subject == issuer && i !in visited
    decreases |chain| - from
  {
    if from == |chain| || (chain[from].subject == issuer && from !in visited) then from
    else FirstUnvisited(chain, issuer, visited, from + 1)
  }

  /** Where the walk goes from `current`: the chain's length when it ends there. */
  function Next(chain: seq<Cert>, current: nat, visited: set<nat>): (i: nat)
    requires current < |chain|
    ensures i <= |chain|
    ensures i < |chain| ==> i !in visited && chain[i].subject == chain[current].issuer && !SelfSigned(chain[current])
  {
    if SelfSigned(chain[current]) then |chain|
    else FirstUnvisited(chain, chain[current].issuer, visited, 0)
  }

  predicate SelfSigned(c: Cert) {
    c.subject == c.issuer
  }

  /** The walk from `current`, having visited `visited`. */
  function Walk(chain: seq<Cert>, current: nat, visited: set<nat>): (r: seq<nat>)
    requires current < |chain| && current !in visited
    ensures r != [] && r[0] == current
    ensures InRange(chain, r)
    ensures forall i: nat :: i in r ==> i !in visited
    decreases Positions(chain) - visited
  {
    var seen := visited + {current};
    var next := Next(chain, current, seen);
    assert current in Positions(chain);
    if next == |chain| then [current] else [current] + Walk(chain, next, seen)
  }

  /** The positions on the leaf's issuance path, leaf first. */
  function PathOf(chain: seq<Cert>): (r: seq<nat>)
    ensures InRange(chain, r)
    ensures chain != [] ==> r != [] && r[0] == 0
  {
    if chain == [] then [] else Walk(chain, 0, {})
  }

  /** One step of the walk. */
  lemma WalkStep(chain: seq<Cert>, current: nat, visited: set<nat>)
    requires current < |chain| && current !in visited
    ensures current in Positions(chain)
    ensures var seen := visited + {current};
      var next := Next(chain, current, seen);
      Walk(chain, current, visited) == if next == |chain| then [current] else [current] + Walk(chain, next, seen)
    ensures Positions(chain) - (visited + {current}) < Positions(chain) - visited
  {
    assert current in Positions(chain) - visited;
  }

  lemma StepsOn(path: seq<nat>, current: nat, rest: seq<nat>)
    ensures path + ([current] + rest) == path + [current] + rest
  {
  }

  method IssuancePath(chain: seq<Cert>) returns (path: seq<nat>)
    ensures path == PathOf(chain)
  {
    hide Walk, FirstUnvisited, Positions, InRange;
    path := [];
    if chain == [] { return; }
    var visited: set<nat> := {};
    var current: nat := 0;
    while true
      invariant current < |chain| && current !in visited
      invariant PathOf(chain) == path + Walk(chain, current, visited)
      decreases Positions(chain) - visited
    {
      WalkStep(chain, current, visited);
      visited := visited + {current};
      ghost var before := path;
      path := path + [current];
      var issuer := chain[current].issuer;
      if issuer == chain[current].subject { return; }
      var next := FindUnvisited(chain, issuer, visited);
      if next == |chain| { return; }
      StepsOn(before, current, Walk(chain, next, visited));
      current := next;
    }
  }

  /** `subjects.findIndex(...)` over the unvisited certificates. */
  method FindUnvisited(chain: seq<Cert>, issuer: string, visited: set<nat>) returns (next: nat)
    ensures next == FirstUnvisited(chain, issuer, visited, 0)
  {
    next := 0;
    while next < |chain| && !(chain[next].subject == issuer && next !in visited)
      invariant next <= |chain|
      invariant FirstUnvisited(chain, issuer, visited, 0) == FirstUnvisited(chain, issuer, visited, next)
    {
      next := next + 1;
    }
  }

  // ---- the verdict ----

  /** The first position of the chain, in array order, that is on the path and bundled. */
  function FirstBundled(chain: seq<Cert>, roots: CertificateIndex, path: seq<nat>, from: nat): (i: nat)
    requires from <= |chain|
    ensures from <= i <= |chain|
    ensures i < |chain| ==> i in path && roots.HasCertificate(chain[i].der)
    decreases |chain| - from
  {
    if from == |chain| || (from in path && roots.HasCertificate(chain[from].der)) then from
    else FirstBundled(chain, roots, path, from + 1)
  }

  function Terminus(chain: seq<Cert>): Cert
    requires chain != []
  {
    var path := PathOf(chain);
    chain[path[|path| - 1]]
  }

  function VerdictOf(chain: seq<Cert>, roots: CertificateIndex): RootVerdict
    requires chain != []
  {
    var path := PathOf(chain);
    var matched := FirstBundled(chain, roots, path, 0);
    var terminus := Terminus(chain);
    if matched < |chain| then RootVerdict(Public, BundledRootOnPath, Some(matched), path)
    else if terminus.subject == terminus.issuer then RootVerdict(Private, SelfSignedAnchorNotBundled, None, path)
    else if !roots.HasSubject(terminus.issuer) then RootVerdict(Private, IssuerMatchesNoBundledRoot, None, path)
    else RootVerdict(Indeterminate, AnchorNotPresented, None, path)
  }

  /** The source throws on an empty chain; no caller passes one. */
  method ClassifyRoot(chain: seq<Cert>, roots: CertificateIndex) returns (verdict: RootVerdict)
    requires chain != []
    ensures verdict == VerdictOf(chain, roots)
  {
    var path := IssuancePath(chain);
    for index := 0 to |chain|
      invariant FirstBundled(chain, roots, path, 0) == FirstBundled(chain, roots, path, index)
    {
      if index !in path { continue; }
      if roots.HasCertificate(chain[index].der) {
        return RootVerdict(Public, BundledRootOnPath, Some(index), path);
      }
    }
    var terminus := chain[path[|path| - 1]];
    if terminus.subject == terminus.issuer {
      return RootVerdict(Private, SelfSignedAnchorNotBundled, None, path);
    }
    if !roots.HasSubject(terminus.issuer) {
      return RootVerdict(Private, IssuerMatchesNoBundledRoot, None, path);
    }
    verdict := RootVerdict(Indeterminate, AnchorNotPresented, None, path);
  }

  // ---- laws of the path ----

  /** No position occurs twice. */
  ghost predicate Distinct(path: seq<nat>) {
    forall i, j :: 0 <= i < j < |path| ==> path[i] != path[j]
  }

  /** Each certificate but the last is not self-signed and names the next one as its issuer. */
  ghost predicate Linked(chain: seq<Cert>, path: seq<nat>)
    requires InRange(chain, path)
  {
    forall i :: 0 <= i < |path| - 1 ==>
      !SelfSigned(chain[path[i]]) && chain[path[i]].issuer == chain[path[i + 1]].subject
  }

  /**
   * On every chain, cyclic names included, the path starts at the leaf, visits no certificate
   * twice, steps from issuer to subject, and only its last certificate can be self-signed; it
   * ends because that one is, or because nothing unvisited carries the name it points at.
   */
  lemma PathShape(chain: seq<Cert>)
    requires chain != []
    ensures var path := PathOf(chain);
      && Distinct(path) && path[0] == 0 && Linked(chain, path)
      && (SelfSigned(Terminus(chain)) ||
            forall k :: 0 <= k < |chain| && k !in path ==> chain[k].subject != Terminus(chain).issuer)
  {
    WalkShape(chain, 0, {});
  }

  lemma {:induction false} WalkShape(chain: seq<Cert>, current: nat, visited: set<nat>)
    requires current < |chain| && current !in visited
    ensures var r := Walk(chain, current, visited);
      && Distinct(r) && Linked(chain, r)
      && var last := chain[r[|r| - 1]];
         SelfSigned(last)
         || forall k :: 0 <= k < |chain| && k !in r && k !in visited ==> chain[k].subject != last.issuer
    decreases Positions(chain) - visited
  {
    hide Walk, FirstUnvisited, Distinct, Linked;
    var seen := visited + {current};
    var next := Next(chain, current, seen);
    WalkStep(chain, current, visited);
    OneIsDistinct(chain, current);
    if next < |chain| {
      WalkShape(chain, next, seen);
      var rest := Walk(chain, next, seen);
      PrependShape(chain, current, rest);
    } else if !SelfSigned(chain[current]) {
      NoneUnvisited(chain, chain[current].issuer, seen, 0);
    }
  }

  lemma OneIsDistinct(chain: seq<Cert>, current: nat)
    requires current < |chain|
    ensures Distinct([current]) && Linked(chain, [current])
  {
  }

  lemma PrependShape(chain: seq<Cert>, current: nat, rest: seq<nat>)
    requires current < |chain| && InRange(chain, rest)
    requires rest != [] && current !in rest && Distinct(rest) && Linked(chain, rest)
    requires !SelfSigned(chain[current]) && chain[current].issuer == chain[rest[0]].subject
    ensures Distinct([current] + rest) && Linked(chain, [current] + rest)
  {
    var r := [current] + rest;
    forall i, j | 0 <= i < j < |r| ensures r[i] != r[j] {
      assert r[j] == rest[j - 1];
      if i > 0 {
        assert r[i] == rest[i - 1];
      }
    }
    forall i | 0 <= i < |r| - 1 ensures !SelfSigned(chain[r[i]]) && chain[r[i]].issuer == chain[r[i + 1]].subject {
      assert r[i + 1] == rest[i];
      if i > 0 {
        assert r[i] == rest[i - 1];
      }
    }
  }

  lemma {:induction false} NoneUnvisited(chain: seq<Cert>, issuer: string, visited: set<nat>, from: nat)
    requires from <= |chain| && FirstUnvisited(chain, issuer, visited, from) == |chain|
    ensures forall k :: from <= k < |chain| ==> chain[k].subject != issuer || k in visited
    decreases |chain| - from
  {
    if from < |chain| {
      NoneUnvisited(chain, issuer, visited, from + 1);
    }
  }

  lemma {:induction false} SomeUnvisited(chain: seq<Cert>, issuer: string, visited: set<nat>, from: nat, k: nat)
    requires from <= k < |chain| && chain[k].subject == issuer && k !in visited
    ensures FirstUnvisited(chain, issuer, visited, from) <= k
    decreases k - from
  {
    if from < k {
      SomeUnvisited(chain, issuer, visited, from + 1, k);
    }
  }

  /** Each step takes the first certificate of the chain that carries the name and was not yet visited. */
  ghost predicate TakesFirst(chain: seq<Cert>, path: seq<nat>, visited: set<nat>)
    requires InRange(chain, path)
  {
    forall i, j :: 0 <= i && j == i + 1 && j < |path| ==> NoneSooner(chain, path[..j], path[i], path[j], visited)
  }

  /** No certificate before `next` carries the name that `at` points at, unless it was seen or visited. */
  ghost predicate NoneSooner(chain: seq<Cert>, seen: seq<nat>, at: nat, next: nat, visited: set<nat>)
    requires at < |chain| && next < |chain|
  {
    forall k: nat :: k < next && k !in visited && k !in seen ==> chain[k].subject != chain[at].issuer
  }

  /** Of several certificates with the name pointed at, the path takes the first one not yet on it. */
  lemma PathTakesFirst(chain: seq<Cert>)
    ensures TakesFirst(chain, PathOf(chain), {})
  {
    if chain != [] {
      WalkTakesFirst(chain, 0, {});
    }
  }

  lemma {:induction false} WalkTakesFirst(chain: seq<Cert>, current: nat, visited: set<nat>)
    requires current < |chain| && current !in visited
    ensures TakesFirst(chain, Walk(chain, current, visited), visited)
    decreases Positions(chain) - visited
  {
    hide Walk, FirstUnvisited, TakesFirst;
    var seen := visited + {current};
    var next := Next(chain, current, seen);
    WalkStep(chain, current, visited);
    if next < |chain| {
      WalkTakesFirst(chain, next, seen);
      NoneBefore(chain, chain[current].issuer, seen, 0);
      PrependFirst(chain, current, Walk(chain, next, seen), visited);
    } else {
      AloneTakesFirst(chain, current, visited);
    }
  }

  lemma AloneTakesFirst(chain: seq<Cert>, current: nat, visited: set<nat>)
    requires current < |chain|
    ensures TakesFirst(chain, [current], visited)
  {
  }

  lemma PrependFirst(chain: seq<Cert>, current: nat, rest: seq<nat>, visited: set<nat>)
    requires current < |chain| && InRange(chain, rest) && rest != [] && TakesFirst(chain, rest, visited + {current})
    requires NoneSooner(chain, [current], current, rest[0], visited)
    ensures TakesFirst(chain, [current] + rest, visited)
  {
    hide NoneSooner;
    var r := [current] + rest;
    forall i, j | 0 <= i && j == i + 1 && j < |r| ensures NoneSooner(chain, r[..j], r[i], r[j], visited) {
      if i == 0 {
        assert r[..1] == [current];
      } else {
        assert NoneSooner(chain, rest[..i], rest[i - 1], rest[i], visited + {current});
        SeenOrVisited(chain, current, rest[..i], rest[i - 1], rest[i], visited);
        assert r[..j] == [current] + rest[..i];
      }
    }
  }

  lemma SeenOrVisited(chain: seq<Cert>, current: nat, seen: seq<nat>, at: nat, next: nat, visited: set<nat>)
    requires at < |chain| && next < |chain| && NoneSooner(chain, seen, at, next, visited + {current})
    ensures NoneSooner(chain, [current] + seen, at, next, visited)
  {
  }

  lemma {:induction false} NoneBefore(chain: seq<Cert>, issuer: string, visited: set<nat>, from: nat)
    requires from <= |chain|
    ensures forall k :: from <= k < FirstUnvisited(chain, issuer, visited, from) && k !in visited ==> chain[k].subject != issuer
    decreases |chain| - from
  {
    if from < |chain| && !(chain[from].subject == issuer && from !in visited) {
      NoneBefore(chain, issuer, visited, from + 1);
    }
  }

  // ---- what a verdict says ----

  /** Some certificate on the path is in the bundle. */
  ghost predicate BundledOnPath(chain: seq<Cert>, roots: CertificateIndex) {
    exists k :: k in PathOf(chain) && roots.HasCertificate(chain[k].der)
  }

  /**
   * Public exactly when a certificate on the path is bundled, of which the first in the chain's own
   * order is named. Otherwise nothing is named, and the certificate the path ends in decides: it is
   * self-signed, or no bundled root carries the name it points at, and only when one does is the
   * anchor open.
   */
  lemma VerdictMeans(chain: seq<Cert>, roots: CertificateIndex)
    requires chain != []
    ensures var v, path := VerdictOf(chain, roots), PathOf(chain);
      var last := chain[path[|path| - 1]];
      && v.path == path
      && (v.class_ == Public <==> BundledOnPath(chain, roots))
      && (v.reason == BundledRootOnPath <==> BundledOnPath(chain, roots))
      && (v.matchedIndex.Some? <==> BundledOnPath(chain, roots))
      && (forall k :: v.matchedIndex == Some(k) ==>
            k in path && roots.HasCertificate(chain[k].der)
            && forall j :: j in path && roots.HasCertificate(chain[j].der) ==> k <= j)
      && (!BundledOnPath(chain, roots) ==>
            && (v.reason == SelfSignedAnchorNotBundled <==> last.subject == last.issuer)
            && (v.reason == IssuerMatchesNoBundledRoot <==> last.subject != last.issuer && !roots.HasSubject(last.issuer))
            && (v.reason == AnchorNotPresented <==> last.subject != last.issuer && roots.HasSubject(last.issuer))
            && (v.class_ == Indeterminate <==> last.subject != last.issuer && roots.HasSubject(last.issuer)))
  {
    hide PathOf;
    var path := PathOf(chain);
    forall j | j in path && roots.HasCertificate(chain[j].der) ensures FirstBundled(chain, roots, path, 0) <= j {
      NotBundled(chain, roots, path, 0, j);
    }
  }

  // ---- padding ----

  /** No appended certificate carries the name the terminus points at, or it is self-signed. */
  ghost predicate Inert(terminus: Cert, more: seq<Cert>) {
    SelfSigned(terminus) || forall c :: c in more ==> c.subject != terminus.issuer
  }

  /**
   * Padding: certificates appended to a chain leave the path, and with it the whole verdict,
   * unchanged exactly when the terminus is self-signed or none of them carries the name the
   * terminus points at.
   */
  lemma PaddingIsInert(chain: seq<Cert>, more: seq<Cert>, roots: CertificateIndex)
    requires chain != []
    ensures VerdictOf(chain + more, roots) == VerdictOf(chain, roots) <==> Inert(Terminus(chain), more)
  {
    hide Walk, Inert, FirstBundled;
    WalkPadded(chain, more, 0, {});
    var path := PathOf(chain);
    if PathOf(chain + more) == path {
      BundledPadded(chain, more, roots, path, 0);
      assert (chain + more)[path[|path| - 1]] == chain[path[|path| - 1]];
    }
  }

  lemma {:induction false} WalkPadded(chain: seq<Cert>, more: seq<Cert>, current: nat, visited: set<nat>)
    requires current < |chain| && current !in visited && visited <= Positions(chain)
    ensures var r := Walk(chain, current, visited);
      Walk(chain + more, current, visited) == r <==> Inert(chain[r[|r| - 1]], more)
    decreases Positions(chain) - visited
  {
    hide Inert, Next;
    var seen := visited + {current};
    var next := Next(chain, current, seen);
    assert current in Positions(chain) && current in Positions(chain + more);
    NextPadded(chain, more, current, seen);
    if next < |chain| {
      WalkPadded(chain, more, next, seen);
      var rest := Walk(chain, next, seen);
      var padded := Walk(chain + more, next, seen);
      assert ([current] + rest)[1..] == rest && ([current] + padded)[1..] == padded;
    }
  }

  lemma NextPadded(chain: seq<Cert>, more: seq<Cert>, current: nat, visited: set<nat>)
    requires current < |chain| && visited <= Positions(chain)
    ensures var next := Next(chain, current, visited);
      if next < |chain| then Next(chain + more, current, visited) == next
      else (Next(chain + more, current, visited) == |chain + more| <==> Inert(chain[current], more))
  {
    var issuer := chain[current].issuer;
    FirstPadded(chain, more, issuer, visited, 0);
    var beyond := FirstUnvisited(chain + more, issuer, visited, 0);
    if |chain| <= beyond < |chain + more| {
      assert (chain + more)[beyond] in more;
    } else if beyond == |chain + more| {
      NoneUnvisited(chain + more, issuer, visited, 0);
      forall c | c in more ensures c.subject != issuer {
        var k :| 0 <= k < |more| && more[k] == c;
        assert (chain + more)[|chain| + k] == c;
      }
    }
  }

  lemma {:induction false} FirstPadded(chain: seq<Cert>, more: seq<Cert>, issuer: string, visited: set<nat>, from: nat)
    requires from <= |chain|
    ensures var i := FirstUnvisited(chain, issuer, visited, from);
      if i < |chain| then FirstUnvisited(chain + more, issuer, visited, from) == i
      else FirstUnvisited(chain + more, issuer, visited, from) >= |chain|
    decreases |chain| - from
  {
    if from < |chain| {
      FirstPadded(chain, more, issuer, visited, from + 1);
    }
  }

  lemma {:induction false} BundledPadded(chain: seq<Cert>, more: seq<Cert>, roots: CertificateIndex, path: seq<nat>, from: nat)
    requires from <= |chain| && InRange(chain, path)
    ensures var i := FirstBundled(chain, roots, path, from);
      FirstBundled(chain + more, roots, path, from) == if i < |chain| then i else |chain + more|
    decreases |chain| - from
  {
    if from < |chain| {
      BundledPadded(chain, more, roots, path, from + 1);
    }
  }

  // ---- the order certificates arrive in ----

  ghost predicate DistinctSubjects(chain: seq<Cert>) {
    forall i, j :: 0 <= i < j < |chain| ==> chain[i].subject != chain[j].subject
  }

  ghost predicate SameCerts(a: seq<Cert>, b: seq<Cert>) {
    forall c :: c in a <==> c in b
  }

  /** The certificates at the given positions. */
  function CertsAt(chain: seq<Cert>, path: seq<nat>): (r: seq<Cert>)
    requires InRange(chain, path)
    ensures |r| == |path| && forall i :: 0 <= i < |path| ==> r[i] == chain[path[i]]
  {
    if path == [] then [] else [chain[path[0]]] + CertsAt(chain, path[1..])
  }

  /**
   * When no two presented certificates share a subject, any reordering that keeps the leaf first
   * leaves the certificates along the path, the class and the reason as they were.
   */
  lemma OrderIsIrrelevant(a: seq<Cert>, b: seq<Cert>, roots: CertificateIndex)
    requires a != [] && b != [] && a[0] == b[0] && multiset(a) == multiset(b) && DistinctSubjects(a)
    ensures CertsAt(a, PathOf(a)) == CertsAt(b, PathOf(b))
    ensures VerdictOf(a, roots).class_ == VerdictOf(b, roots).class_
    ensures VerdictOf(a, roots).reason == VerdictOf(b, roots).reason
  {
    SameMembers(a, b);
    DistinctTransfers(a, b);
    WalkReordered(a, b, 0, 0, {}, {});
    SameCertsSameVerdict(a, b, roots);
  }

  /** The class and the reason depend only on the certificates along the path. */
  lemma SameCertsSameVerdict(a: seq<Cert>, b: seq<Cert>, roots: CertificateIndex)
    requires a != [] && b != [] && CertsAt(a, PathOf(a)) == CertsAt(b, PathOf(b))
    ensures VerdictOf(a, roots).class_ == VerdictOf(b, roots).class_
    ensures VerdictOf(a, roots).reason == VerdictOf(b, roots).reason
  {
    hide PathOf;
    BundledIffOnPath(a, roots);
    BundledIffOnPath(b, roots);
    var certs := CertsAt(a, PathOf(a));
    assert Terminus(a) == certs[|certs| - 1] == Terminus(b);
  }

  lemma SameMembers(a: seq<Cert>, b: seq<Cert>)
    requires multiset(a) == multiset(b)
    ensures SameCerts(a, b)
  {
    assert forall c :: c in a <==> c in multiset(a);
    assert forall c :: c in b <==> c in multiset(b);
  }

  /** Distinct subjects make the certificates distinct, and a reordering keeps both. */
  lemma DistinctTransfers(a: seq<Cert>, b: seq<Cert>)
    requires multiset(a) == multiset(b) && DistinctSubjects(a)
    ensures DistinctSubjects(b)
  {
    SameMembers(a, b);
    forall i, j | 0 <= i < j < |b| ensures b[i].subject != b[j].subject {
      assert b[i] in a && b[j] in a;
      OnceOnly(a, b[i]);
      if b[i] == b[j] {
        Twice(b, i, j);
        assert false;
      }
    }
  }

  lemma Twice(b: seq<Cert>, i: nat, j: nat)
    requires i < j < |b| && b[i] == b[j]
    ensures multiset(b)[b[i]] >= 2
  {
    assert b == b[..j] + b[j..];
    assert b[..j][i] == b[i] && b[j..][0] == b[j];
    assert multiset(b[..j])[b[i]] >= 1 && multiset(b[j..])[b[i]] >= 1;
  }

  lemma {:induction false} OnceOnly(a: seq<Cert>, c: Cert)
    requires DistinctSubjects(a)
    ensures multiset(a)[c] <= 1
  {
    if a != [] {
      var init, last := a[..|a| - 1], a[|a| - 1];
      assert a == init + [last];
      OnceOnly(init, c);
      if last == c {
        assert c !in init;
        assert multiset(init)[c] == 0;
      }
    }
  }

  lemma BundledIffOnPath(chain: seq<Cert>, roots: CertificateIndex)
    requires chain != []
    ensures FirstBundled(chain, roots, PathOf(chain), 0) < |chain| <==>
      exists c :: c in CertsAt(chain, PathOf(chain)) && roots.HasCertificate(c.der)
  {
    hide PathOf;
    var path := PathOf(chain);
    var certs := CertsAt(chain, path);
    var first := FirstBundled(chain, roots, path, 0);
    if first < |chain| {
      var i :| 0 <= i < |path| && path[i] == first;
      assert certs[i] == chain[first];
    } else if c :| c in certs && roots.HasCertificate(c.der) {
      var i :| 0 <= i < |certs| && certs[i] == c;
      NotBundled(chain, roots, path, 0, path[i]);
    }
  }

  lemma {:induction false} NotBundled(chain: seq<Cert>, roots: CertificateIndex, path: seq<nat>, from: nat, i: nat)
    requires from <= i < |chain| && i in path && roots.HasCertificate(chain[i].der)
    ensures FirstBundled(chain, roots, path, from) <= i
    decreases i - from
  {
    if from < i {
      NotBundled(chain, roots, path, from + 1, i);
    }
  }

  /** The two walks have visited the same certificates. */
  ghost predicate SameVisited(a: seq<Cert>, b: seq<Cert>, v: set<nat>, w: set<nat>) {
    forall i, j :: 0 <= i < |a| && 0 <= j < |b| && a[i] == b[j] ==> (i in v <==> j in w)
  }

  lemma {:induction false} WalkReordered(a: seq<Cert>, b: seq<Cert>, i: nat, j: nat, v: set<nat>, w: set<nat>)
    requires DistinctSubjects(a) && DistinctSubjects(b) && SameCerts(a, b) && SameVisited(a, b, v, w)
    requires i < |a| && j < |b| && a[i] == b[j] && i !in v && j !in w
    ensures CertsAt(a, Walk(a, i, v)) == CertsAt(b, Walk(b, j, w))
    decreases Positions(a) - v
  {
    var v', w' := v + {i}, w + {j};
    assert i in Positions(a) && j in Positions(b);
    var next, other := Next(a, i, v'), Next(b, j, w');
    VisitedTogether(a, b, i, j, v, w);
    NextTogether(a, b, i, j, v', w');
    VisitedBack(a, b, v', w');
    NextTogether(b, a, j, i, w', v');
    if next < |a| {
      WalkReordered(a, b, next, other, v', w');
      assert ([i] + Walk(a, next, v'))[1..] == Walk(a, next, v');
      assert ([j] + Walk(b, other, w'))[1..] == Walk(b, other, w');
    }
  }

  lemma VisitedTogether(a: seq<Cert>, b: seq<Cert>, i: nat, j: nat, v: set<nat>, w: set<nat>)
    requires DistinctSubjects(a) && DistinctSubjects(b) && SameVisited(a, b, v, w)
    requires i < |a| && j < |b| && a[i] == b[j]
    ensures SameVisited(a, b, v + {i}, w + {j})
  {
    forall k, l | 0 <= k < |a| && 0 <= l < |b| && a[k] == b[l] ensures k in v + {i} <==> l in w + {j} {
      assert k == i ==> b[l].subject == b[j].subject;
      assert l == j ==> a[k].subject == a[i].subject;
    }
  }

  lemma VisitedBack(a: seq<Cert>, b: seq<Cert>, v: set<nat>, w: set<nat>)
    requires SameVisited(a, b, v, w)
    ensures SameVisited(b, a, w, v)
  {
  }

  /** If one order offers a next certificate, the other offers the same one. */
  lemma NextTogether(a: seq<Cert>, b: seq<Cert>, i: nat, j: nat, v: set<nat>, w: set<nat>)
    requires DistinctSubjects(a) && DistinctSubjects(b) && SameCerts(a, b) && SameVisited(a, b, v, w)
    requires i < |a| && j < |b| && a[i] == b[j]
    ensures var next, other := Next(a, i, v), Next(b, j, w);
      next < |a| ==> other < |b| && a[next] == b[other]
  {
    var next, other := Next(a, i, v), Next(b, j, w);
    if next < |a| {
      assert a[next] in a && a[next] in b;
      var k :| 0 <= k < |b| && b[k] == a[next];
      SomeUnvisited(b, b[j].issuer, w, 0, k);
      assert b[other].subject == b[k].subject;
    }
  }

  // ---- a larger bundle ----

  predicate Includes(larger: CertificateIndex, smaller: CertificateIndex) {
    smaller.certificates <= larger.certificates && smaller.subjects <= larger.subjects
  }

  function Rank(c: RootClass): nat {
    match c case Private => 0 case Indeterminate => 1 case Public => 2
  }

  /** Enlarging the bundle moves a class up the order private, indeterminate, public, or nowhere. */
  lemma BundleMonotone(chain: seq<Cert>, smaller: CertificateIndex, larger: CertificateIndex)
    requires chain != [] && Includes(larger, smaller)
    ensures Rank(VerdictOf(chain, smaller).class_) <= Rank(VerdictOf(chain, larger).class_)
  {
    BundledIffOnPath(chain, smaller);
    BundledIffOnPath(chain, larger);
  }

  /** Indexing more PEMs gives a larger bundle. */
  lemma {:induction false} MorePemsInclude(x: X509, pems: seq<string>, more: seq<string>)
    requires AllParse(x, pems + more)
    ensures AllParse(x, pems) && Includes(IndexOf(x, pems + more).value, IndexOf(x, pems).value)
  {
    assert forall p :: p in pems ==> p in pems + more;
    KeysGrow(x, pems, more);
  }

  lemma {:induction false} KeysGrow(x: X509, pems: seq<string>, more: seq<string>)
    ensures KeySet(x, pems) <= KeySet(x, pems + more) && SubjectSet(x, pems) <= SubjectSet(x, pems + more)
    decreases |more|
  {
    if more == [] {
      assert pems + more == pems;
    } else {
      var init := more[..|more| - 1];
      assert (pems + more)[..|pems + more| - 1] == pems + init;
      KeysGrow(x, pems, init);
    }
  }

  /**
   * An indeterminate chain becomes public once the bundled root that its terminus names as
   * issuer is appended to it.
   */
  lemma AppendedRootDecides(chain: seq<Cert>, root: Cert, roots: CertificateIndex)
    requires chain != [] && VerdictOf(chain, roots).class_ == Indeterminate
    requires root.subject == Terminus(chain).issuer && roots.HasCertificate(root.der)
    ensures VerdictOf(chain + [root], roots).class_ == Public
  {
    var longer := chain + [root];
    WalkExtended(chain, root, 0, {});
    BundledIffOnPath(longer, roots);
    var path := PathOf(longer);
    var i :| 0 <= i < |path| && path[i] == |chain|;
    assert CertsAt(longer, path)[i] == root;
  }

  lemma {:induction false} WalkExtended(chain: seq<Cert>, root: Cert, current: nat, visited: set<nat>)
    requires current < |chain| && current !in visited && visited <= Positions(chain)
    requires var r := Walk(chain, current, visited); var last := chain[r[|r| - 1]];
      !SelfSigned(last) && root.subject == last.issuer
    ensures |chain| in Walk(chain + [root], current, visited)
    decreases Positions(chain) - visited
  {
    var longer := chain + [root];
    var seen := visited + {current};
    var next := Next(chain, current, seen);
    assert current in Positions(chain) && current in Positions(longer);
    FirstPadded(chain, [root], chain[current].issuer, seen, 0);
    if next < |chain| {
      WalkExtended(chain, root, next, seen);
    } else {
      SomeUnvisited(longer, chain[current].issuer, seen, 0, |chain|);
      assert Next(longer, current, seen) == |chain|;
    }
  }
}
