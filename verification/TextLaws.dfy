/** What the string operations compute, told character by character. */
module TextLaws {
  import opened Text
  import opened Decimals

  // ---- white space and letter case ----

  /** The code points that ECMAScript counts as white space or line terminators (ECMA-262, sections 12.2 and 12.3). */
  const SPACES: set<int> := {
    0x0009, 0x000A, 0x000B, 0x000C, 0x000D, 0x0020, 0x00A0, 0x1680, 0x2000, 0x2001, 0x2002, 0x2003, 0x2004, 0x2005,
    0x2006, 0x2007, 0x2008, 0x2009, 0x200A, 0x2028, 0x2029, 0x202F, 0x205F, 0x3000, 0xFEFF
  }

  lemma SpacesAre(c: char)
    ensures IsSpace(c) <==> c as int in SPACES
  {
  }

  const CAPITALS: string := "ABCDEFGHIJKLMNOPQRSTUVWXYZ"
  const SMALL: string := "abcdefghijklmnopqrstuvwxyz"

  lemma LetterIs(c: char)
    ensures forall k :: 0 <= k < 26 && c == CAPITALS[k] ==> LowerAscii(c) == SMALL[k]
    ensures c !in CAPITALS ==> LowerAscii(c) == c
  {
    if 'A' <= c <= 'Z' {
      var k := c as int - 'A' as int;
      CapitalAt(k);
      assert SMALL[k] == LowerAscii(c);
    }
  }

  /** The letters stand in the order of their code points. */
  lemma CapitalAt(k: nat)
    requires k < 26
    ensures CAPITALS[k] as int == 65 + k && forall j :: 0 <= j < 26 && CAPITALS[j] == CAPITALS[k] ==> j == k
  {
    assert forall j :: 0 <= j < 26 ==> CAPITALS[j] as int == 65 + j;
  }

  /** Lower-casing keeps the length, turns each capital into its small letter and leaves the rest. */
  lemma LowerIs(s: string, i: nat)
    requires i < |s|
    ensures |Lower(s)| == |s|
    ensures forall k :: 0 <= k < 26 && s[i] == CAPITALS[k] ==> Lower(s)[i] == SMALL[k]
    ensures s[i] !in CAPITALS ==> Lower(s)[i] == s[i]
  {
    hide LowerAscii;
    LetterIs(s[i]);
  }

  /** The text with `left` and `right` taken off its ends. */
  ghost predicate Trims(s: string, left: string, core: string, right: string) {
    && s == left + core + right
    && (forall c :: c in left + right ==> c as int in SPACES)
    && (core != "" ==> core[0] as int !in SPACES && core[|core| - 1] as int !in SPACES)
  }

  lemma {:induction false} StartTrims(s: string) returns (left: string)
    ensures s == left + TrimStart(s) && (forall c :: c in left ==> IsSpace(c))
    ensures TrimStart(s) != "" ==> !IsSpace(TrimStart(s)[0])
  {
    if s != "" && IsSpace(s[0]) {
      var more := StartTrims(s[1..]);
      left := [s[0]] + more;
      assert s == [s[0]] + s[1..];
    } else {
      left := "";
    }
  }

  lemma {:induction false} EndTrims(s: string) returns (right: string)
    ensures s == TrimEnd(s) + right && (forall c :: c in right ==> IsSpace(c))
    ensures TrimEnd(s) != "" ==> !IsSpace(TrimEnd(s)[|TrimEnd(s)| - 1]) && TrimEnd(s)[0] == s[0]
  {
    if s != "" && IsSpace(s[|s| - 1]) {
      var more := EndTrims(s[..|s| - 1]);
      right := more + [s[|s| - 1]];
      assert s == s[..|s| - 1] + [s[|s| - 1]];
    } else {
      right := "";
    }
  }

  /** Trimming takes the white space off both ends and nothing else. */
  lemma TrimIs(s: string) returns (left: string, right: string)
    ensures Trims(s, left, Trim(s), right)
  {
    hide IsSpace, TrimStart, TrimEnd;
    left := StartTrims(s);
    right := EndTrims(TrimStart(s));
    forall c ensures IsSpace(c) <==> c as int in SPACES {
      SpacesAre(c);
    }
  }

  /** Stripping takes each white-space character out, wherever it stands, and keeps the others in order. */
  lemma StripIs(s: string, c: char, t: string)
    ensures Strip(s + [c] + t) == Strip(s) + (if c as int in SPACES then "" else [c]) + Strip(t)
    ensures Strip("") == ""
  {
    hide IsSpace;
    SpacesAre(c);
    StripConcat(s + [c], t);
    StripConcat(s, [c]);
    assert [c][1..] == "";
    assert Strip([c]) == (if IsSpace(c) then "" else [c]) + Strip("");
  }

  /** A line ends at a newline or at a return and a newline; what follows the last end is a line too. */
  lemma LinesAre(line: string, rest: string)
    requires '\n' !in line
    ensures SplitLines(line) == [line]
    ensures SplitLines(line + "\r\n" + rest) == [line] + SplitLines(rest)
    ensures !(line != "" && line[|line| - 1] == '\r') ==> SplitLines(line + "\n" + rest) == [line] + SplitLines(rest)
  {
    hide IsSpace;
    IndexOfUnique(line, '\n', |line|);
    var s := line + "\r\n" + rest;
    IndexOfUnique(s, '\n', |line| + 1);
    assert s[..|line| + 1] == line + "\r" && s[|line| + 2..] == rest;
    assert DropReturn(line + "\r") == line;
    var t := line + "\n" + rest;
    IndexOfUnique(t, '\n', |line|);
    assert t[..|line|] == line && t[|line| + 1..] == rest;
  }

  // ---- order ----

  /** The texts agree up to `k`, and there the first ends or has the lesser character. */
  ghost predicate LessAt(s: string, t: string, k: nat) {
    k <= |s| && k < |t| && s[..k] == t[..k] && (k < |s| ==> s[k] < t[k])
  }

  /** The order of texts is that of the first character in which they differ. */
  lemma {:induction false} TextLessIs(s: string, t: string)
    ensures TextLess(s, t) <==> exists k: nat :: LessAt(s, t, k)
  {
    if t == "" || s == "" || s[0] < t[0] {
      if t != "" {
        assert LessAt(s, t, 0);
      }
    } else {
      TextLessIs(s[1..], t[1..]);
      if s[0] == t[0] {
        forall k: nat | LessAt(s[1..], t[1..], k) ensures LessAt(s, t, k + 1) {
          assert s[..k + 1] == [s[0]] + s[1..][..k] && t[..k + 1] == [t[0]] + t[1..][..k];
        }
      }
      forall k: nat | LessAt(s, t, k) ensures k > 0 && s[0] == t[0] && LessAt(s[1..], t[1..], k - 1) {
        if k > 0 {
          assert s[..k][0] == t[..k][0];
          assert s[1..][..k - 1] == s[..k][1..] && t[1..][..k - 1] == t[..k][1..];
        }
      }
    }
  }

  // ---- numbers ----

  function PowerOfTen(k: nat): (p: nat)
    ensures p > 0
  {
    if k == 0 then 1 else 10 * PowerOfTen(k - 1)
  }

  const DIGITS: string := "0123456789"

  function DigitFor(v: nat): char
    requires v < 10
  {
    DIGITS[v]
  }

  lemma {:induction false} TimesGrows(k: nat, x: nat, y: nat)
    requires x <= y
    ensures k * x <= k * y
  {
  }

  lemma QuotientIs(n: nat, k: nat, a: nat, r: nat)
    requires n == k * a + r && r < k
    ensures n / k == a
  {
    var q, m := n / k, n % k;
    Split(n, k);
    if q < a {
      TimesGrows(k, q + 1, a);
      Distributes(k, q);
    } else if q > a {
      TimesGrows(k, a + 1, q);
      Distributes(k, a);
    }
  }

  lemma Split(n: nat, k: nat)
    requires k > 0
    ensures n == k * (n / k) + n % k && 0 <= n % k < k
  {
  }

  lemma Distributes(k: nat, x: nat)
    ensures k * (x + 1) == k * x + k
  {
  }

  /** Dividing by ten and then by `t` is dividing by ten times `t`. */
  lemma DividedTwice(n: nat, t: nat)
    requires t > 0
    ensures n / 10 / t == n / (10 * t)
  {
    var m := n / 10;
    var a, b := m / t, m % t;
    assert m == t * a + b;
    assert 10 * m == 10 * t * a + 10 * b;
    QuotientIs(n, 10 * t, a, 10 * b + n % 10);
  }

  lemma {:induction false} DecimalBounds(n: nat)
    ensures PowerOfTen(|Decimal(n)| - 1) <= (if n == 0 then 1 else n) < PowerOfTen(|Decimal(n)|)
  {
    hide Decimal, PowerOfTen, DigitFor;
    DecimalEnds(n);
    PowerNext(0);
    if n >= 10 {
      DecimalBounds(n / 10);
      PowerNext(|Decimal(n / 10)|);
      PowerNext(|Decimal(n / 10)| - 1);
    }
  }

  lemma {:induction false} DecimalAt(n: nat, i: nat)
    requires i < |Decimal(n)|
    ensures Decimal(n)[i] == DigitFor(n / PowerOfTen(|Decimal(n)| - 1 - i) % 10)
  {
    hide Decimal, PowerOfTen, DigitFor;
    DecimalEnds(n);
    var k := |Decimal(n)| - 1 - i;
    if k == 0 {
      PowerNext(0);
      assert n / 1 == n;
    } else {
      DecimalAt(n / 10, i);
      PowerNext(k - 1);
      DividedTwice(n, PowerOfTen(k - 1));
    }
  }

  /** A number's print is its decimal digits from the highest down, as many as it needs. */
  lemma DecimalIs(n: nat)
    ensures PowerOfTen(|Decimal(n)| - 1) <= (if n == 0 then 1 else n) < PowerOfTen(|Decimal(n)|)
    ensures forall i :: 0 <= i < |Decimal(n)| ==> Decimal(n)[i] == DigitFor(n / PowerOfTen(|Decimal(n)| - 1 - i) % 10)
  {
    hide Decimal, PowerOfTen, DigitFor;
    DecimalBounds(n);
    forall i | 0 <= i < |Decimal(n)| ensures Decimal(n)[i] == DigitFor(n / PowerOfTen(|Decimal(n)| - 1 - i) % 10) {
      DecimalAt(n, i);
    }
  }

  lemma PowerNext(k: nat)
    ensures PowerOfTen(k + 1) == 10 * PowerOfTen(k) && PowerOfTen(0) == 1
  {
  }

  lemma DecimalEnds(n: nat)
    ensures Decimal(n) == (if n < 10 then "" else Decimal(n / 10)) + [DigitFor(n % 10)]
  {
    assert DigitFor(n % 10) == ('0' as int + n % 10) as char;
  }
}
