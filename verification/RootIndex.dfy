/**
 * A certificate set indexed for membership questions (src/probes/shared/root-index.ts).
 *
 * X.509 itself is abstract: a decoder from PEM text to DER that may fail, and the names that
 * the DER carries. Distinguished names are already in canonical form.
 */
module RootIndex {
  import opened Wrappers
  import opened Bits
  import opened Base64

  datatype Names = Names(subject: string, canonicalSubject: string, canonicalIssuer: string)

  /** What the certificate parser makes of a PEM text, and the names in a DER certificate. */
  datatype X509 = X509(derOf: string -> Option<bytes>, names: bytes -> Names)

  /** The one exception the parser throws. */
  datatype Thrown = UnparsableCertificate

  datatype CertificateIndex = CertificateIndex(size: nat, certificates: set<string>, subjects: set<string>)
  {
    predicate HasCertificate(der: bytes) {
      Encode(der) in certificates
    }

    predicate HasSubject(canonicalSubject: string) {
      canonicalSubject in subjects
    }
  }

  const CHUNK: nat := 0x2000

  /** `derKey`: the bytes gathered chunk by chunk, then printed in base64. */
  method DerKey(der: bytes) returns (key: string)
    ensures key == Encode(der)
  {
    var binary: bytes := [];
    var offset := 0;
    while offset < |der|
      invariant binary == der[..if offset < |der| then offset else |der|]
    {
      var end := if offset + CHUNK < |der| then offset + CHUNK else |der|;
      binary := binary + der[offset..end];
      offset := offset + CHUNK;
    }
    assert binary == der;
    key := Encode(binary);
  }

  /** The DERs a list of PEM texts decodes to. */
  function DerSet(x: X509, pems: seq<string>): set<bytes> {
    if pems == [] then {} else
      var last := x.derOf(pems[|pems| - 1]);
      DerSet(x, pems[..|pems| - 1]) + if last.Some? then {last.value} else {}
  }

  function KeySet(x: X509, pems: seq<string>): set<string> {
    if pems == [] then {} else
      var last := x.derOf(pems[|pems| - 1]);
      KeySet(x, pems[..|pems| - 1]) + if last.Some? then {Encode(last.value)} else {}
  }

  function SubjectSet(x: X509, pems: seq<string>): set<string> {
    if pems == [] then {} else
      var last := x.derOf(pems[|pems| - 1]);
      SubjectSet(x, pems[..|pems| - 1]) + if last.Some? then {x.names(last.value).canonicalSubject} else {}
  }

  predicate AllParse(x: X509, pems: seq<string>) {
    forall pem :: pem in pems ==> x.derOf(pem).Some?
  }

  /** The index of a list of PEM texts; one that does not parse throws. */
  function IndexOf(x: X509, pems: seq<string>): Result<CertificateIndex, Thrown> {
    if AllParse(x, pems) then Ok(CertificateIndex(|pems|, KeySet(x, pems), SubjectSet(x, pems)))
    else Err(UnparsableCertificate)
  }

  method BuildIndex(x: X509, pems: seq<string>) returns (r: Result<CertificateIndex, Thrown>)
    ensures r == IndexOf(x, pems)
  {
    var certificates: set<string> := {};
    var subjects: set<string> := {};
    for i := 0 to |pems|
      invariant AllParse(x, pems[..i])
      invariant certificates == KeySet(x, pems[..i])
      invariant subjects == SubjectSet(x, pems[..i])
    {
      assert pems[..i + 1] == pems[..i] + [pems[i]] && pems[..i + 1][..i] == pems[..i];
      var der := x.derOf(pems[i]);
      if der.None? {
        assert pems[i] in pems;
        return Err(UnparsableCertificate);
      }
      var key := DerKey(der.value);
      certificates := certificates + {key};
      subjects := subjects + {x.names(der.value).canonicalSubject};
    }
    assert pems[..|pems|] == pems;
    r := Ok(CertificateIndex(|pems|, certificates, subjects));
  }

  // ---- what the index answers ----

  lemma {:induction false} InDerSet(x: X509, pems: seq<string>, der: bytes)
    ensures der in DerSet(x, pems) <==> exists pem :: pem in pems && x.derOf(pem) == Some(der)
  {
    if pems != [] {
      var init, last := pems[..|pems| - 1], pems[|pems| - 1];
      assert pems == init + [last];
      InDerSet(x, init, der);
      assert forall pem :: pem in pems <==> pem in init || pem == last;
    }
  }

  lemma {:induction false} InKeySet(x: X509, pems: seq<string>, der: bytes)
    ensures Encode(der) in KeySet(x, pems) <==> der in DerSet(x, pems)
  {
    if pems != [] {
      InKeySet(x, pems[..|pems| - 1], der);
      var last := x.derOf(pems[|pems| - 1]);
      if last.Some? && Encode(last.value) == Encode(der) {
        EncodeInjective(last.value, der);
      }
    }
  }

  lemma {:induction false} InSubjectSet(x: X509, pems: seq<string>, subject: string)
    ensures subject in SubjectSet(x, pems) <==>
      exists der :: der in DerSet(x, pems) && x.names(der).canonicalSubject == subject
  {
    if pems != [] {
      InSubjectSet(x, pems[..|pems| - 1], subject);
    }
  }

  /**
   * The hash-keyed index refines plain membership: it has exactly the certificates whose PEM is
   * in the list, and exactly the subjects those certificates carry.
   */
  lemma IndexIsMembership(x: X509, pems: seq<string>, der: bytes, subject: string)
    requires AllParse(x, pems)
    ensures var index := IndexOf(x, pems).value;
      && (index.HasCertificate(der) <==> exists pem :: pem in pems && x.derOf(pem) == Some(der))
      && (index.HasSubject(subject) <==>
            exists pem :: pem in pems && x.derOf(pem).Some? && x.names(x.derOf(pem).value).canonicalSubject == subject)
      && index.size == |pems|
  {
    InKeySet(x, pems, der);
    InDerSet(x, pems, der);
    InSubjectSet(x, pems, subject);
    forall d ensures d in DerSet(x, pems) <==> exists pem :: pem in pems && x.derOf(pem) == Some(d) {
      InDerSet(x, pems, d);
    }
  }
}
