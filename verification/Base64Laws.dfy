/** Base64 told by position: which digit stands where, and which octet a text's digits make. */
module Base64Laws {
  import opened Bits
  import opened Base64

  /** The base64 alphabet (RFC 4648, section 4, table 1). */
  function AlphabetAt(v: nat): char
    requires v < 64
  {
    if v < 26 then 'A' + v as char
    else if v < 52 then 'a' + (v - 26) as char
    else if v < 62 then '0' + (v - 52) as char
    else if v == 62 then '+'
    else '/'
  }

  ghost predicate InAlphabet(c: char) {
    exists v: nat | v < 64 :: AlphabetAt(v) == c
  }

  /** The digits are those of the alphabet and each has its place there as its value. */
  lemma DigitsAre(c: char, v: nat)
    requires v < 64
    ensures IsDigit(c) <==> InAlphabet(c)
    ensures Digit(v) == AlphabetAt(v)
    ensures c == AlphabetAt(v) ==> ValueOf(c) == v
  {
    if IsDigit(c) {
      DigitHasValue(c);
    }
  }

  lemma DigitHasValue(c: char)
    requires IsDigit(c)
    ensures AlphabetAt(ValueOf(c)) == c
  {
  }

  /** The octet at a position, with zero after the end. */
  function OctetAt(b: bytes, k: nat): nat {
    if k < |b| then b[k] else 0
  }

  /** Three octets read as one number of 24 bits. */
  function Number(b: bytes, group: nat): nat {
    OctetAt(b, 3 * group) * 0x10000 + OctetAt(b, 3 * group + 1) * 0x100 + OctetAt(b, 3 * group + 2)
  }

  /** The six bits at a place of a 24-bit number, from the high end. */
  function SixBits(n: nat, place: nat): (v: nat)
    requires place < 4
    ensures v < 64
  {
    n / [0x40000, 0x1000, 0x40, 1][place] % 64
  }

  /** The eight bits at a place of a 24-bit number, from the high end. */
  function EightBits(n: nat, place: nat): (v: nat)
    requires place < 3
    ensures v < 256
  {
    n / [0x10000, 0x100, 1][place] % 256
  }

  lemma SextetsAre(x: byte, y: byte, z: byte)
    ensures var n := x * 0x10000 + y * 0x100 + z;
      var (v0, v1, v2, v3) := Sextets(x, y, z);
      v0 == SixBits(n, 0) && v1 == SixBits(n, 1) && v2 == SixBits(n, 2) && v3 == SixBits(n, 3)
  {
    Parts(x, 4);
    Parts(y, 16);
    Parts(z, 64);
    FourSextets(x / 4, x % 4 * 16 + y / 16, y % 16 * 4 + z / 64, z % 64);
  }

  lemma Parts(x: nat, k: nat)
    requires k in {4, 16, 64}
    ensures x == x / k * k + x % k
  {
  }

  lemma FourSextets(v0: sextet, v1: sextet, v2: sextet, v3: sextet)
    ensures var n := v0 * 0x40000 + v1 * 0x1000 + v2 * 0x40 + v3;
      SixBits(n, 0) == v0 && SixBits(n, 1) == v1 && SixBits(n, 2) == v2 && SixBits(n, 3) == v3
  {
    var n := v0 * 0x40000 + v1 * 0x1000 + v2 * 0x40 + v3;
    assert n / 0x40000 == v0;
    assert n / 0x1000 == v0 * 0x40 + v1;
    assert n / 0x40 == v0 * 0x1000 + v1 * 0x40 + v2;
  }

  lemma TripleAt(x: byte, y: byte, z: byte, i: nat)
    requires i < 4
    ensures EncodeTriple(x, y, z)[i] == AlphabetAt(SixBits(x * 0x10000 + y * 0x100 + z, i))
  {
    hide Digit, AlphabetAt, Sextets, SixBits;
    SextetsAre(x, y, z);
    var (v0, v1, v2, v3) := Sextets(x, y, z);
    DigitsAre('A', v0);
    DigitsAre('A', v1);
    DigitsAre('A', v2);
    DigitsAre('A', v3);
  }

  /**
   * What stands at a position of the print: the octets in threes as 24-bit numbers, each number's
   * four groups of six bits as digits of the alphabet, and `=` in place of a group that holds no
   * bit of any octet.
   */
  lemma {:induction false} EncodedAt(b: bytes, i: nat)
    requires i < |Encode(b)|
    ensures |Encode(b)| == (|b| + 2) / 3 * 4
    ensures Encode(b)[i] == if i / 4 * 3 + i % 4 > |b| then '=' else AlphabetAt(SixBits(Number(b, i / 4), i % 4))
  {
    hide EncodeTriple, AlphabetAt, SixBits;
    EncodedLength(b);
    if |b| >= 3 {
      TripleAt(b[0], b[1], b[2], if i < 4 then i else 0);
      if i >= 4 {
        NextGroup(b, i);
        EncodedLength(b[3..]);
        EncodedAt(b[3..], i - 4);
      }
    } else {
      TripleAt(b[0], if |b| == 1 then 0 else b[1], 0, i);
    }
  }

  lemma NextGroup(b: bytes, i: nat)
    requires |b| >= 3 && i >= 4
    ensures (i - 4) / 4 == i / 4 - 1 && (i - 4) % 4 == i % 4
    ensures Number(b[3..], i / 4 - 1) == Number(b, i / 4)
  {
    var g := i / 4;
    assert forall k: nat :: OctetAt(b[3..], k) == OctetAt(b, k + 3);
    assert 3 * (g - 1) + 3 == 3 * g;
  }

  lemma {:induction false} EncodedLength(b: bytes)
    ensures |Encode(b)| == (|b| + 2) / 3 * 4
  {
    hide EncodeTriple;
    if |b| >= 3 {
      EncodedLength(b[3..]);
      assert |EncodeTriple(b[0], b[1], b[2])| == 4;
    }
  }

  // ---- reading ----

  /** The values of a text's digits, with zero for padding. */
  ghost predicate Values(s: string, vs: seq<nat>) {
    |vs| == |s| && forall i :: 0 <= i < |s| ==>
      if s[i] == '=' then vs[i] == 0 else vs[i] < 64 && s[i] == AlphabetAt(vs[i])
  }

  /** Four digits read as one number of 24 bits. */
  function DigitsNumber(vs: seq<nat>, group: nat): nat
    requires 4 * group + 4 <= |vs|
  {
    vs[4 * group] * 0x40000 + vs[4 * group + 1] * 0x1000 + vs[4 * group + 2] * 0x40 + vs[4 * group + 3]
  }

  /** How much padding a body ends in. */
  function Padding(s: string): nat {
    if s != "" && s[|s| - 1] == '=' then if |s| > 1 && s[|s| - 2] == '=' then 2 else 1 else 0
  }

  /** A body is digits of the alphabet, at least one, and then at most two signs of padding. */
  lemma BodyIs(s: string)
    ensures IsBody(s) <==>
      exists n: nat | |s| - 2 <= n <= |s| && 0 < n :: (forall i :: 0 <= i < n ==> InAlphabet(s[i])) && s[n..] in {"", "=", "=="}
  {
    hide IsDigit, InAlphabet;
    forall c ensures IsDigit(c) <==> InAlphabet(c) {
      DigitsAre(c, 0);
    }
    forall k: nat | k <= 2 ensures PaddedBy(s, k) <==>
      k < |s| && (forall i :: 0 <= i < |s| - k ==> InAlphabet(s[i])) && s[|s| - k..] in {"", "=", "=="}
    {
      PaddedIs(s, k);
    }
    if exists n: nat | |s| - 2 <= n <= |s| && 0 < n :: (forall i :: 0 <= i < n ==> InAlphabet(s[i])) && s[n..] in {"", "=", "=="} {
      var n: nat :| |s| - 2 <= n <= |s| && 0 < n && (forall i :: 0 <= i < n ==> InAlphabet(s[i])) && s[n..] in {"", "=", "=="};
      assert PaddedBy(s, |s| - n);
    } else if IsBody(s) {
      var k: nat :| k <= 2 && PaddedBy(s, k);
      assert |s| - 2 <= |s| - k <= |s|;
    }
  }

  lemma PaddingSigns(end: string)
    requires |end| <= 2
    ensures end in {"", "=", "=="} <==> forall i :: 0 <= i < |end| ==> end[i] == '='
  {
    if forall i :: 0 <= i < |end| ==> end[i] == '=' {
      assert end == ["", "=", "=="][|end|];
    }
  }

  lemma PaddedIs(s: string, k: nat)
    requires k <= 2 && forall c :: IsDigit(c) <==> InAlphabet(c)
    ensures PaddedBy(s, k) <==>
      k < |s| && (forall i :: 0 <= i < |s| - k ==> InAlphabet(s[i])) && s[|s| - k..] in {"", "=", "=="}
  {
    hide IsDigit, InAlphabet;
    if k < |s| {
      var end := s[|s| - k..];
      assert forall i :: 0 <= i < k ==> end[i] == s[|s| - k + i];
      assert forall i :: |s| - k <= i < |s| ==> s[i] == end[i - (|s| - k)];
      PaddingSigns(end);
    }
  }

  lemma GroupRead(c0: char, c1: char, c2: char, c3: char, v0: nat, v1: nat, v2: nat, v3: nat)
    requires Values([c0, c1, c2, c3], [v0, v1, v2, v3]) && c0 != '=' && c1 != '=' && (c2 == '=' ==> c3 == '=')
    ensures var b, n := DecodeGroup(c0, c1, c2, c3), v0 * 0x40000 + v1 * 0x1000 + v2 * 0x40 + v3;
      && |b| == 3 - Padding([c0, c1, c2, c3])
      && forall k: nat :: k < |b| ==> b[k] == EightBits(n, k)
  {
    hide AlphabetAt, ValueOf, IsDigit, InAlphabet;
    var s, vs := [c0, c1, c2, c3], [v0, v1, v2, v3];
    assert forall i :: 0 <= i < 4 && s[i] != '=' ==> vs[i] < 64 && s[i] == AlphabetAt(vs[i]);
    assert s[0] == c0 && s[1] == c1 && s[2] == c2 && s[3] == c3;
    DigitsAre(c0, v0);
    DigitsAre(c1, v1);
    if c2 != '=' { DigitsAre(c2, v2); }
    if c3 != '=' { DigitsAre(c3, v3); }
    OctetsAre(v0, v1, v2, v3);
    OctetsAre(v0, v1, v2, ValueOf(c3));
    OctetsAre(v0, v1, ValueOf(c2), ValueOf(c3));
    HighBits(v0, v1, v2, v3, ValueOf(c2), ValueOf(c3));
  }

  /** Spare bits do not reach the octets before them. */
  lemma HighBits(v0: sextet, v1: sextet, v2: sextet, v3: sextet, w2: sextet, w3: sextet)
    ensures var n, m := v0 * 0x40000 + v1 * 0x1000 + v2 * 0x40 + v3, v0 * 0x40000 + v1 * 0x1000 + w2 * 0x40 + w3;
      EightBits(n, 0) == EightBits(m, 0) && (v2 == w2 ==> EightBits(n, 1) == EightBits(m, 1))
  {
    hide EightBits;
    OctetsAre(v0, v1, v2, v3);
    OctetsAre(v0, v1, w2, w3);
  }

  lemma OctetsAre(v0: sextet, v1: sextet, v2: sextet, v3: sextet)
    ensures var n := v0 * 0x40000 + v1 * 0x1000 + v2 * 0x40 + v3;
      Octets(v0, v1, v2, v3) == [EightBits(n, 0), EightBits(n, 1), EightBits(n, 2)]
  {
    var b0, b1, b2 := v0 * 4 + v1 / 16, v1 % 16 * 16 + v2 / 4, v2 % 4 * 64 + v3;
    Whole(v1, v2);
    ThreeOctets(b0, b1, b2);
  }

  lemma Whole(v1: nat, v2: nat)
    ensures v1 == v1 / 16 * 16 + v1 % 16 && v2 == v2 / 4 * 4 + v2 % 4
  {
  }

  lemma ThreeOctets(b0: byte, b1: byte, b2: byte)
    ensures var n := b0 * 0x10000 + b1 * 0x100 + b2;
      EightBits(n, 0) == b0 && EightBits(n, 1) == b1 && EightBits(n, 2) == b2
  {
    var n := b0 * 0x10000 + b1 * 0x100 + b2;
    assert n / 0x10000 == b0 && n / 0x100 == b0 * 0x100 + b1;
  }

  /**
   * What stands at a position of what a body of whole groups decodes to: its digits in fours as
   * 24-bit numbers and each number's three octets, as many as the padding leaves.
   */
  lemma {:induction false} DecodedAt(s: string, vs: seq<nat>)
    requires s != "" && |s| % 4 == 0 && IsBody(s) && Values(s, vs)
    ensures |Decode(s)| == |s| / 4 * 3 - Padding(s)
    ensures forall k: nat :: k < |Decode(s)| ==> Decode(s)[k] == EightBits(DigitsNumber(vs, k / 3), k % 3)
  {
    hide IsDigit, EightBits, DecodeGroup, Values, Decode, DigitsNumber, Padding, IsBody;
    FirstGroup(s, vs);
    GroupRead(s[0], s[1], s[2], s[3], vs[0], vs[1], vs[2], vs[3]);
    var b := DecodeGroup(s[0], s[1], s[2], s[3]);
    DecodedGroup(s);
    FirstNumber(vs);
    if |s| == 4 {
      assert s == [s[0], s[1], s[2], s[3]];
    } else {
      DecodedAt(s[4..], vs[4..]);
      NoPaddingYet(s[0], s[1], s[2], s[3]);
      GroupsJoin(b, Decode(s[4..]), vs);
    }
  }

  lemma NoPaddingYet(c0: char, c1: char, c2: char, c3: char)
    requires c3 != '='
    ensures Padding([c0, c1, c2, c3]) == 0
  {
  }

  lemma DecodedGroup(s: string)
    requires |s| % 4 == 0 && s != ""
    ensures |s| == 4 ==> Decode(s) == DecodeGroup(s[0], s[1], s[2], s[3])
    ensures |s| > 4 && s[2] != '=' && s[3] != '=' ==> Decode(s) == DecodeGroup(s[0], s[1], s[2], s[3]) + Decode(s[4..])
  {
    hide DecodeGroup;
    if |s| == 4 {
      assert s[4..] == "";
      assert Decode(s[4..]) == [];
    }
  }

  lemma FirstNumber(vs: seq<nat>)
    requires |vs| >= 4
    ensures DigitsNumber(vs, 0) == vs[0] * 0x40000 + vs[1] * 0x1000 + vs[2] * 0x40 + vs[3]
  {
  }

  /** A whole first group and the octets of the others are the octets of all. */
  lemma GroupsJoin(b: bytes, rest: bytes, vs: seq<nat>)
    requires |b| == 3 && |vs| >= 4 && |vs| % 4 == 0 && |rest| <= |vs[4..]| / 4 * 3
    requires forall k: nat :: k < 3 ==> b[k] == EightBits(DigitsNumber(vs, 0), k)
    requires forall k: nat :: k < |rest| ==> rest[k] == EightBits(DigitsNumber(vs[4..], k / 3), k % 3)
    ensures forall k: nat :: k < |b + rest| ==> (b + rest)[k] == EightBits(DigitsNumber(vs, k / 3), k % 3)
  {
    hide EightBits, DigitsNumber;
    forall k: nat | k < |b + rest| ensures (b + rest)[k] == EightBits(DigitsNumber(vs, k / 3), k % 3) {
      if k >= 3 {
        NextNumber(vs, k);
      }
    }
  }

  lemma NextNumber(vs: seq<nat>, k: nat)
    requires k >= 3 && 4 * (k / 3) + 4 <= |vs|
    ensures (k - 3) / 3 == k / 3 - 1 && (k - 3) % 3 == k % 3
    ensures DigitsNumber(vs[4..], k / 3 - 1) == DigitsNumber(vs, k / 3)
  {
  }

  /** The first group of a body has its padding only when it is the last. */
  lemma FirstGroup(s: string, vs: seq<nat>)
    requires s != "" && |s| % 4 == 0 && IsBody(s) && Values(s, vs)
    ensures |vs| == |s| >= 4 && s[0] != '=' && s[1] != '=' && (s[2] == '=' ==> s[3] == '=')
    ensures Values([s[0], s[1], s[2], s[3]], [vs[0], vs[1], vs[2], vs[3]])
    ensures |s| > 4 ==> s[2] != '=' && s[3] != '=' && IsBody(s[4..]) && Values(s[4..], vs[4..]) && Padding(s[4..]) == Padding(s)
  {
    hide AlphabetAt;
    var k := if PaddedBy(s, 0) then 0 else if PaddedBy(s, 1) then 1 else 2;
    assert PaddedBy(s, k) && !IsDigit('=');
    if |s| > 4 {
      assert PaddedBy(s[4..], k);
    }
  }
}
