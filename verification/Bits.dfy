/**
 * Bytes and the bitwise operators the source uses on them, written on natural numbers.
 *
 * A 32-bit JavaScript operand is its unsigned bit pattern: `<<` drops the bits shifted past
 * the top, `|` and `&` work bit by bit, and `>>> 0` reads the pattern as an unsigned number.
 */
module Bits {

  type byte = b: int | 0 <= b < 256
  type bytes = seq<byte>

  /** `a` doubled `k` times. */
  function Scale(a: nat, k: nat): nat {
    if k == 0 then a else 2 * Scale(a, k - 1)
  }

  /** `a << k` on a 32-bit pattern. */
  function ShiftLeft(a: nat, k: nat): nat {
    Scale(a, k) % 0x1_0000_0000
  }

  /** `a >>> k` on a 32-bit pattern. */
  function ShiftRight(a: nat, k: nat): nat {
    if k == 0 then a else ShiftRight(a / 2, k - 1)
  }

  /** `a | b`, one binary digit at a time. */
  function Or(a: nat, b: nat): nat {
    if a == 0 && b == 0 then 0
    else (if a % 2 == 1 || b % 2 == 1 then 1 else 0) + 2 * Or(a / 2, b / 2)
  }

  /** `a & b`, one binary digit at a time. */
  function And(a: nat, b: nat): nat {
    if a == 0 && b == 0 then 0
    else (if a % 2 == 1 && b % 2 == 1 then 1 else 0) + 2 * And(a / 2, b / 2)
  }

  /** The value of the `n` bytes at `o` read big-endian in base 256. */
  function BigEndian(s: bytes, o: nat, n: nat): nat
    requires o + n <= |s|
  {
    if n == 0 then 0 else BigEndian(s, o, n - 1) * 256 + s[o + n - 1]
  }

  // ---- shifting is scaling ----

  lemma ScaleByBits(a: nat)
    ensures Scale(a, 6) == a * 64 && Scale(a, 7) == a * 128 && Scale(a, 9) == a * 512 && Scale(a, 10) == a * 1024
  {
    assert Scale(a, 1) == a * 2;
    assert Scale(a, 3) == a * 8;
    assert Scale(a, 5) == a * 32;
    assert Scale(a, 7) == a * 128;
    assert Scale(a, 9) == a * 512;
  }

  lemma ScaleByBytes(a: nat)
    ensures Scale(a, 8) == a * 256 && Scale(a, 16) == a * 0x1_0000 && Scale(a, 24) == a * 0x100_0000
  {
    ScaleByBits(a);
    assert Scale(a, 12) == a * 4096;
    assert Scale(a, 14) == a * 0x4000;
    assert Scale(a, 16) == a * 0x1_0000;
    assert Scale(a, 18) == a * 0x4_0000;
    assert Scale(a, 20) == a * 0x10_0000;
    assert Scale(a, 22) == a * 0x40_0000;
  }

  /** The low `m` binary digits. */
  function Low(x: nat, m: nat): nat {
    if m == 0 then 0 else x % 2 + 2 * Low(x / 2, m - 1)
  }

  /** A number is what a right shift leaves, shifted back, and the digits the shift drops. */
  lemma {:induction false} ShiftSplits(x: nat, m: nat)
    ensures x == Scale(ShiftRight(x, m), m) + Low(x, m) && Low(x, m) < Scale(1, m)
  {
    if m > 0 {
      ShiftSplits(x / 2, m - 1);
    }
  }

  // ---- or and and ----

  /** Or-ing a number into the free low bits of another adds it. */
  lemma {:induction false} OrDisjoint(x: nat, k: nat, y: nat)
    requires y < Scale(1, k)
    ensures Or(Scale(x, k), y) == Scale(x, k) + y
  {
    if k == 0 {
      OrZero(x);
    } else {
      OrDisjoint(x, k - 1, y / 2);
    }
  }

  lemma {:induction false} OrZero(x: nat)
    ensures Or(x, 0) == x
  {
    if x > 0 {
      OrZero(x / 2);
    }
  }

  /** Masking with the low `m` ones keeps the low `m` digits. */
  lemma {:induction false} AndLowMask(x: nat, m: nat)
    ensures Scale(1, m) >= 1 && And(x, Scale(1, m) - 1) == Low(x, m)
  {
    if m == 0 {
      AndZero(x);
    } else {
      AndLowMask(x / 2, m - 1);
    }
  }

  /** Masking with a number shifted up by `k` masks what lies above the low `k` digits. */
  lemma {:induction false} AndShifted(k: nat, top: nat, rest: nat, n: nat)
    requires rest < Scale(1, k)
    ensures And(Scale(top, k) + rest, Scale(n, k)) == Scale(And(top, n), k)
  {
    hide And;
    if k > 0 {
      AndShifted(k - 1, top, rest / 2, n);
      assert (Scale(top, k) + rest) / 2 == Scale(top, k - 1) + rest / 2;
      AndDouble(Scale(top, k) + rest, Scale(n, k - 1));
    }
  }

  lemma AndDouble(x: nat, y: nat)
    ensures And(x, 2 * y) == 2 * And(x / 2, y)
  {
  }

  lemma {:induction false} AndZero(x: nat)
    ensures And(x, 0) == 0
  {
    if x > 0 {
      AndZero(x / 2);
    }
  }

  // ---- bytes ----

  /** Two bytes assembled by shift-and-or are the base-256 number they spell. */
  lemma ShiftOrIsBigEndian2(s: bytes, o: nat)
    requires o + 2 <= |s|
    ensures Or(ShiftLeft(s[o], 8), s[o + 1]) == BigEndian(s, o, 2) == (s[o] as int) * 256 + s[o + 1]
  {
    hide Or, Scale;
    ScaleByBytes(1);
    ScaleByBytes(s[o]);
    OrDisjoint(s[o], 8, s[o + 1]);
    assert BigEndian(s, o, 1) == s[o];
  }

  lemma BigEndianNext(s: bytes, o: nat)
    requires o + 4 <= |s|
    ensures BigEndian(s, o, 2) == (s[o] as int) * 256 + s[o + 1]
    ensures BigEndian(s, o, 3) == BigEndian(s, o, 2) * 256 + s[o + 2]
    ensures BigEndian(s, o, 4) == BigEndian(s, o, 3) * 256 + s[o + 3]
  {
    assert BigEndian(s, o, 1) == s[o];
  }

  lemma TopTwo(b0: byte, b1: byte)
    ensures Or(ShiftLeft(b0, 24), ShiftLeft(b1, 16)) == ((b0 as int) * 256 + b1) * 0x1_0000
  {
    hide Or, Scale;
    ScaleByBytes(1);
    ScaleByBytes(b0);
    ScaleByBytes(b1);
    OrDisjoint(b0, 24, b1 as int * 0x1_0000);
  }

  lemma ThirdByte(top: nat, b2: byte)
    ensures Or(top * 0x1_0000, ShiftLeft(b2, 8)) == (top * 256 + b2) * 256
  {
    hide Or, Scale;
    ScaleByBytes(1);
    ScaleByBytes(top);
    ScaleByBytes(b2);
    OrDisjoint(top, 16, b2 as int * 256);
  }

  lemma FourthByte(high: nat, b3: byte)
    ensures Or(high * 256, b3) == high * 256 + b3
  {
    hide Or, Scale;
    ScaleByBytes(1);
    ScaleByBytes(high);
    OrDisjoint(high, 8, b3);
  }

  /** Four bytes assembled by shift-and-or are the base-256 number they spell. */
  lemma ShiftOrIsBigEndian4(s: bytes, o: nat)
    requires o + 4 <= |s|
    ensures Or(Or(Or(ShiftLeft(s[o], 24), ShiftLeft(s[o + 1], 16)), ShiftLeft(s[o + 2], 8)), s[o + 3])
         == BigEndian(s, o, 4)
  {
    hide Or, ShiftLeft, BigEndian;
    BigEndianNext(s, o);
    TopTwo(s[o], s[o + 1]);
    ThirdByte(BigEndian(s, o, 2), s[o + 2]);
    FourthByte(BigEndian(s, o, 3), s[o + 3]);
  }

  /** A number written big-endian on exactly `width` bytes. */
  function ToBigEndian(n: nat, width: nat): (s: bytes)
    ensures |s| == width
  {
    if width == 0 then [] else ToBigEndian(n / 256, width - 1) + [n % 256]
  }

  function Pow256(k: nat): (p: nat)
    ensures p > 0
  {
    if k == 0 then 1 else 256 * Pow256(k - 1)
  }

  /** Reading a printed number where it lies gives the number back. */
  lemma {:induction false} BigEndianOfPrinted(s: bytes, o: nat, n: nat, width: nat)
    requires o + width <= |s| && s[o..o + width] == ToBigEndian(n, width) && n < Pow256(width)
    ensures BigEndian(s, o, width) == n
  {
    if width > 0 {
      var digits := ToBigEndian(n / 256, width - 1);
      assert s[o..o + width][..width - 1] == digits;
      assert s[o..o + width - 1] == digits;
      assert s[o + width - 1] == s[o..o + width][width - 1] == n % 256;
      BigEndianOfPrinted(s, o, n / 256, width - 1);
    }
  }

  /** The value depends only on the bytes read. */
  lemma {:induction false} BigEndianAgrees(s: bytes, t: bytes, o: nat, n: nat)
    requires o + n <= |s| && o + n <= |t| && forall i :: o <= i < o + n ==> s[i] == t[i]
    ensures BigEndian(s, o, n) == BigEndian(t, o, n)
  {
    if n > 0 {
      BigEndianAgrees(s, t, o, n - 1);
    }
  }

  lemma SliceOfSlice<T>(b: seq<T>, i: nat, j: nat, s: nat, e: nat)
    requires i <= j <= |b| && s <= e <= j - i
    ensures b[i..j][s..e] == b[i + s..i + e]
  {
    assert |b[i..j][s..e]| == e - s;
    assert forall k :: 0 <= k < e - s ==> b[i..j][s..e][k] == b[i + s + k];
  }
}
