/** Base64 (RFC 4648, section 4), as `Buffer` prints and reads it. */
module Base64 {
  import opened Bits
  import opened Text

  /** A value of one base64 digit. */
  type sextet = v: nat | v < 64

  /** `[A-Za-z0-9+/]`. */
  predicate IsDigit(c: char) {
    'A' <= c <= 'Z' || 'a' <= c <= 'z' || '0' <= c <= '9' || c == '+' || c == '/'
  }

  function Digit(v: sextet): (c: char)
    ensures IsDigit(c) && ValueOf(c) == v
  {
    if v < 26 then (v + 65) as char
    else if v < 52 then (v + 71) as char
    else if v < 62 then (v - 4) as char
    else if v == 62 then '+'
    else '/'
  }

  function ValueOf(c: char): sextet {
    if 'A' <= c <= 'Z' then c as nat - 65
    else if 'a' <= c <= 'z' then c as nat - 71
    else if '0' <= c <= '9' then c as nat + 4
    else if c == '+' then 62
    else 63
  }

  /** One or two bytes left over, padded to a whole group. */
  function LastGroup(b: bytes): (s: string)
    requires 1 <= |b| <= 2
    ensures |s| == 4
  {
    if |b| == 1 then EncodeTriple(b[0], 0, 0)[..2] + "==" else EncodeTriple(b[0], b[1], 0)[..3] + "="
  }

  /** `Buffer.from(b).toString('base64')`. */
  function Encode(b: bytes): (s: string)
    ensures |s| % 4 == 0
    ensures |b| == 0 <==> |s| == 0
  {
    if |b| == 0 then []
    else if |b| < 3 then LastGroup(b)
    else
      var rest := Encode(b[3..]);
      OneMoreGroup(|rest|);
      EncodeTriple(b[0], b[1], b[2]) + rest
  }

  lemma OneMoreGroup(n: nat)
    requires n % 4 == 0
    ensures (4 + n) % 4 == 0
  {
  }

  /** Three bytes regrouped as four six-bit values. */
  function Sextets(x: byte, y: byte, z: byte): (sextet, sextet, sextet, sextet) {
    (x / 4, x % 4 * 16 + y / 16, y % 16 * 4 + z / 64, z % 64)
  }

  function EncodeTriple(x: byte, y: byte, z: byte): (s: string)
    ensures |s| == 4 && forall c :: c in s ==> IsDigit(c)
  {
    var (v0, v1, v2, v3) := Sextets(x, y, z);
    [Digit(v0), Digit(v1), Digit(v2), Digit(v3)]
  }

  /** `Buffer.from(s, 'base64')` on whole groups: padding ends the bytes, spare bits are dropped. */
  function Decode(s: string): bytes
    requires |s| % 4 == 0
  {
    if s == [] then [] else DecodeGroup(s[0], s[1], s[2], s[3]) + if s[2] == '=' || s[3] == '=' then [] else Decode(s[4..])
  }

  function DecodeGroup(c0: char, c1: char, c2: char, c3: char): (b: bytes)
    ensures |b| > 0
  {
    var b := Octets(ValueOf(c0), ValueOf(c1), ValueOf(c2), ValueOf(c3));
    if c2 == '=' then b[..1] else if c3 == '=' then b[..2] else b
  }

  /** Four six-bit values regrouped as three bytes. */
  function Octets(v0: sextet, v1: sextet, v2: sextet, v3: sextet): (b: bytes)
    ensures |b| == 3
  {
    [v0 * 4 + v1 / 16, v1 % 16 * 16 + v2 / 4, v2 % 4 * 64 + v3]
  }

  /** `k` padding characters end `s` and digits fill the rest. */
  predicate PaddedBy(s: string, k: nat) {
    k < |s| && (forall i :: 0 <= i < |s| - k ==> IsDigit(s[i])) && forall i :: |s| - k <= i < |s| ==> s[i] == '='
  }

  /** The regular expression `^[A-Za-z0-9+/]+={0,2}$`. */
  predicate IsBody(s: string) {
    PaddedBy(s, 0) || PaddedBy(s, 1) || PaddedBy(s, 2)
  }

  lemma {:induction false} DecodeEncode(b: bytes)
    ensures Decode(Encode(b)) == b
  {
    hide EncodeTriple, DecodeGroup;
    if |b| >= 3 {
      var s, rest := EncodeTriple(b[0], b[1], b[2]), Encode(b[3..]);
      assert Encode(b) == s + rest && (s + rest)[4..] == rest;
      assert IsDigit(s[2]) && IsDigit(s[3]);
      TripleRead(b[0], b[1], b[2]);
      DecodeEncode(b[3..]);
      assert b == [b[0], b[1], b[2]] + b[3..];
    } else if |b| == 2 {
      PairRead(b[0], b[1]);
      assert b == [b[0], b[1]];
    } else if |b| == 1 {
      SingleRead(b[0]);
      assert b == [b[0]];
    }
  }

  lemma SingleRead(x: byte)
    ensures var s := EncodeTriple(x, 0, 0); DecodeGroup(s[0], s[1], '=', '=') == [x]
  {
    hide ValueOf, Digit, Sextets;
    Regroup(x, 0, 0);
    var (v0, v1, v2, v3) := Sextets(x, 0, 0);
    assert Octets(v0, v1, v2, v3)[0] == x;
  }

  lemma PairRead(x: byte, y: byte)
    ensures var s := EncodeTriple(x, y, 0);
      IsDigit(s[2]) && DecodeGroup(s[0], s[1], s[2], '=') == [x, y]
  {
    hide ValueOf, Digit, Sextets;
    Regroup(x, y, 0);
    var (v0, v1, v2, v3) := Sextets(x, y, 0);
    assert Octets(v0, v1, v2, v3)[0] == x && Octets(v0, v1, v2, v3)[1] == y;
  }

  lemma TripleRead(x: byte, y: byte, z: byte)
    ensures var s := EncodeTriple(x, y, z); DecodeGroup(s[0], s[1], s[2], s[3]) == [x, y, z]
  {
    hide ValueOf, Digit, Sextets, Octets;
    Regroup(x, y, z);
  }

  lemma Regroup(x: byte, y: byte, z: byte)
    ensures var (v0, v1, v2, v3) := Sextets(x, y, z); Octets(v0, v1, v2, v3) == [x, y, z]
  {
  }

  /** Different bytes print differently. */
  lemma EncodeInjective(a: bytes, b: bytes)
    requires Encode(a) == Encode(b)
    ensures a == b
  {
    DecodeEncode(a);
    DecodeEncode(b);
  }

  lemma {:induction false} EncodedIsBody(b: bytes)
    requires b != []
    ensures IsBody(Encode(b))
  {
    hide EncodeTriple;
    if |b| > 3 {
      EncodedIsBody(b[3..]);
      var s, rest := EncodeTriple(b[0], b[1], b[2]), Encode(b[3..]);
      var k := if PaddedBy(rest, 0) then 0 else if PaddedBy(rest, 1) then 1 else 2;
      assert PaddedBy(s + rest, k);
    } else if |b| == 3 {
      assert Encode(b) == EncodeTriple(b[0], b[1], b[2]) + [];
      assert PaddedBy(Encode(b), 0);
    } else {
      assert |EncodeTriple(b[0], if |b| == 1 then 0 else b[1], 0)| == 4;
      assert PaddedBy(Encode(b), 3 - |b|);
    }
  }

  /** A body holds nothing but digits and padding, so stripping leaves it alone. */
  lemma BodyIsSolid(s: string)
    requires IsBody(s)
    ensures forall c :: c in s ==> (IsDigit(c) || c == '=') && !IsSpace(c)
    ensures Strip(s) == s
  {
    StripSolid(s);
  }
}
