/** The identifiers of ASN.1 that a printed keystore uses, as the standards give them. */
module Asn1 {
  import opened Bits

  // ---- tags (ITU-T X.680, section 8.6, in the octet of X.690, section 8.1.2) ----

  const INTEGER: byte := 2
  const OCTET_STRING: byte := 4
  const OBJECT_IDENTIFIER: byte := 6
  const SEQUENCE: byte := 32 + 16
  const CONTEXT_0: byte := 128 + 32

  // ---- object identifiers (X.690, section 8.19) ----

  /** The base-128 digits of `n`, each with the bit that says another follows. */
  function Continued(n: nat): bytes {
    if n == 0 then [] else Continued(n / 128) + [128 + n % 128]
  }

  function Subidentifier(n: nat): bytes {
    Continued(n / 128) + [n % 128]
  }

  function Subidentifiers(arcs: seq<nat>): bytes {
    if arcs == [] then [] else Subidentifier(arcs[0]) + Subidentifiers(arcs[1..])
  }

  /** The content octets of an object identifier: the first two arcs share a subidentifier. */
  function Oid(arcs: seq<nat>): bytes
    requires |arcs| >= 2
  {
    Subidentifier(arcs[0] * 40 + arcs[1]) + Subidentifiers(arcs[2..])
  }

  /** `1.2.840.113549`, the arc of the PKCS standards (RFC 8017, appendix C). */
  const PKCS_ARCS: seq<nat> := [1, 2, 840, 113549]

  /** id-data (RFC 5652, section 4). */
  function DataOid(): bytes {
    Oid(PKCS_ARCS + [1, 7, 1])
  }

  /** id-encryptedData (RFC 5652, section 8). */
  function EncryptedDataOid(): bytes {
    Oid(PKCS_ARCS + [1, 7, 6])
  }

  /** certBag (RFC 7292, section 4.2). */
  function CertBagOid(): bytes {
    Oid(PKCS_ARCS + [1, 12, 10, 1, 3])
  }

  /** x509Certificate (RFC 7292, section 4.2.3). */
  function X509CertificateOid(): bytes {
    Oid(PKCS_ARCS + [1, 9, 22, 1])
  }

  lemma SmallSubidentifier(n: nat)
    requires n < 128
    ensures Subidentifier(n) == [n]
  {
  }

  lemma {:induction false} SmallSubidentifiers(arcs: seq<nat>)
    requires forall a :: a in arcs ==> a < 128
    ensures |Subidentifiers(arcs)| == |arcs| && forall i :: 0 <= i < |arcs| ==> Subidentifiers(arcs)[i] == arcs[i]
  {
    if arcs != [] {
      assert arcs[0] in arcs && forall a :: a in arcs[1..] ==> a in arcs;
      SmallSubidentifier(arcs[0]);
      SmallSubidentifiers(arcs[1..]);
    }
  }

  lemma PkcsSubidentifiers()
    ensures Subidentifier(1 * 40 + 2) == [0x2a]
    ensures Subidentifier(840) == [0x86, 0x48]
    ensures Subidentifier(113549) == [0x86, 0xf7, 0x0d]
  {
    assert Continued(6) == [0x86];
    assert Continued(887) == Continued(6) + [0xf7];
  }

  /** An identifier under the PKCS arc: its six octets and then one for each small arc. */
  lemma UnderPkcs(arcs: seq<nat>)
    requires forall a :: a in arcs ==> a < 128
    ensures Oid(PKCS_ARCS + arcs) == [0x2a, 0x86, 0x48, 0x86, 0xf7, 0x0d] + Subidentifiers(arcs)
    ensures |Subidentifiers(arcs)| == |arcs| && forall i :: 0 <= i < |arcs| ==> Subidentifiers(arcs)[i] == arcs[i]
  {
    hide Subidentifier, Subidentifiers;
    SmallSubidentifiers(arcs);
    PkcsSubidentifiers();
    SubidentifiersNext(840, [113549] + arcs);
    SubidentifiersNext(113549, arcs);
    var all := PKCS_ARCS + arcs;
    assert all[2..] == [840] + ([113549] + arcs);
  }

  lemma SubidentifiersNext(arc: nat, arcs: seq<nat>)
    ensures Subidentifiers([arc] + arcs) == Subidentifier(arc) + Subidentifiers(arcs)
  {
    hide Subidentifier;
    assert ([arc] + arcs)[1..] == arcs;
  }
}
