/** The presented chain copied out of a handshake (src/net/tls-capture.ts). */
module PeerChain {
  import opened Wrappers
  import opened Bits

  /**
   * One certificate as the TLS layer links them: the empty object that stands for no certificate
   * has no bytes, and the last certificate points at itself.
   */
  datatype PeerCert = PeerCert(raw: Option<bytes>, fingerprint: string, issuer: Option<nat>)

  /** The linked certificates; issuers are positions in the list. */
  type Peers = seq<PeerCert>

  ghost predicate WellLinked(peers: Peers) {
    forall p :: p in peers && p.issuer.Some? ==> p.issuer.value < |peers|
  }

  ghost function Fingerprints(peers: Peers): set<string> {
    set p | p in peers :: p.fingerprint
  }

  /** The walk goes on at this certificate. */
  predicate Continues(peers: Peers, current: Option<nat>, seen: set<string>) {
    && current.Some? && current.value < |peers|
    && peers[current.value].raw.Some? && peers[current.value].fingerprint !in seen
  }

  function Walk(peers: Peers, current: Option<nat>, seen: set<string>): (path: seq<nat>)
    ensures forall k :: 0 <= k < |path| ==> path[k] < |peers| && peers[path[k]].raw.Some?
    decreases Fingerprints(peers) - seen
  {
    if !Continues(peers, current, seen) then []
    else
      var p := peers[current.value];
      assert p.fingerprint in Fingerprints(peers) - seen;
      [current.value] + Walk(peers, p.issuer, seen + {p.fingerprint})
  }

  function RawAt(peers: Peers, path: seq<nat>): (r: seq<bytes>)
    requires forall k :: 0 <= k < |path| ==> path[k] < |peers| && peers[path[k]].raw.Some?
    ensures |r| == |path| && forall k :: 0 <= k < |path| ==> peers[path[k]].raw == Some(r[k])
  {
    if path == [] then [] else [peers[path[0]].raw.value] + RawAt(peers, path[1..])
  }

  /** One step of the walk, and the bytes it copies out. */
  lemma WalkStep(peers: Peers, current: Option<nat>, seen: set<string>)
    requires Continues(peers, current, seen)
    ensures var p := peers[current.value];
      && p in peers && p.fingerprint in Fingerprints(peers) - seen
      && Walk(peers, current, seen) == [current.value] + Walk(peers, p.issuer, seen + {p.fingerprint})
      && RawAt(peers, Walk(peers, current, seen))
           == [p.raw.value] + RawAt(peers, Walk(peers, p.issuer, seen + {p.fingerprint}))
  {
    var p := peers[current.value];
    var rest := Walk(peers, p.issuer, seen + {p.fingerprint});
    assert p.fingerprint in Fingerprints(peers) - seen;
    assert ([current.value] + rest)[1..] == rest;
  }

  lemma WalkEnds(peers: Peers, current: Option<nat>, seen: set<string>)
    requires !Continues(peers, current, seen)
    ensures Walk(peers, current, seen) == [] && RawAt(peers, []) == []
  {
  }

  method ChainDerOf(peers: Peers, leaf: Option<nat>) returns (chain: seq<bytes>)
    requires WellLinked(peers) && (leaf.Some? ==> leaf.value < |peers|)
    ensures chain == RawAt(peers, Walk(peers, leaf, {}))
  {
    hide Walk, RawAt, Fingerprints;
    chain := [];
    var seen: set<string> := {};
    var current: Option<nat> := leaf;
    while Continues(peers, current, seen)
      invariant current.Some? ==> current.value < |peers|
      invariant RawAt(peers, Walk(peers, leaf, {})) == chain + RawAt(peers, Walk(peers, current, seen))
      decreases Fingerprints(peers) - seen
    {
      var p := peers[current.value];
      WalkStep(peers, current, seen);
      seen := seen + {p.fingerprint};
      chain := chain + [p.raw.value];
      current := p.issuer;
    }
    WalkEnds(peers, current, seen);
    assert chain + [] == chain;
  }

  /** Where the walk stands after its last certificate. */
  function Onward(peers: Peers, leaf: Option<nat>, path: seq<nat>): Option<nat>
    requires forall k :: 0 <= k < |path| ==> path[k] < |peers|
  {
    if path == [] then leaf else peers[path[|path| - 1]].issuer
  }

  /**
   * On any linking, loops included, the walk starts at the leaf, follows issuers, meets no
   * fingerprint twice, and stops only where nothing is linked, where there are no bytes, or at a
   * fingerprint it has met.
   */
  lemma {:induction false} WalkShape(peers: Peers, current: Option<nat>, seen: set<string>)
    requires WellLinked(peers) && (current.Some? ==> current.value < |peers|)
    ensures var path := Walk(peers, current, seen);
      && (path != [] ==> current == Some(path[0]))
      && (forall k :: 0 < k < |path| ==> peers[path[k - 1]].issuer == Some(path[k]))
      && (forall j, k :: 0 <= j < k < |path| ==> peers[path[j]].fingerprint != peers[path[k]].fingerprint)
      && (forall k :: 0 <= k < |path| ==> peers[path[k]].fingerprint !in seen)
      && var end := Onward(peers, current, path);
        || end.None? || peers[end.value].raw.None?
        || peers[end.value].fingerprint in seen
        || exists k :: 0 <= k < |path| && peers[path[k]].fingerprint == peers[end.value].fingerprint
    decreases Fingerprints(peers) - seen
  {
    if Continues(peers, current, seen) {
      var p := peers[current.value];
      assert p.fingerprint in Fingerprints(peers) - seen && p in peers;
      WalkShape(peers, p.issuer, seen + {p.fingerprint});
      var rest := Walk(peers, p.issuer, seen + {p.fingerprint});
      var path := [current.value] + rest;
      assert Walk(peers, current, seen) == path;
      Lengthen(peers, current.value, rest);
      var end := Onward(peers, p.issuer, rest);
      if k :| 0 <= k < |rest| && end.Some? && peers[rest[k]].fingerprint == peers[end.value].fingerprint {
        assert path[k + 1] == rest[k];
      }
    }
  }

  lemma Lengthen(peers: Peers, first: nat, rest: seq<nat>)
    requires first < |peers| && forall k :: 0 <= k < |rest| ==> rest[k] < |peers|
    ensures var path := [first] + rest;
      && path[0] == first && (forall k :: 0 < k < |path| ==> path[k] == rest[k - 1])
      && Onward(peers, Some(first), path) == Onward(peers, peers[first].issuer, rest)
  {
  }
}
