/** The parts of JavaScript strings and regular expressions that the modelled code uses. */
module Text {

  /** The regular-expression class `\s`. */
  predicate IsSpace(c: char) {
    || '\t' <= c <= '\r' || c == ' ' || c == '\U{00A0}' || c == '\U{1680}'
    || '\U{2000}' <= c <= '\U{200A}' || c == '\U{2028}' || c == '\U{2029}'
    || c == '\U{202F}' || c == '\U{205F}' || c == '\U{3000}' || c == '\U{FEFF}'
  }

  /** `text.replace(/\s+/g, '')`. */
  function Strip(s: string): (r: string)
    ensures forall c :: c in r ==> !IsSpace(c)
  {
    if s == [] then [] else (if IsSpace(s[0]) then [] else [s[0]]) + Strip(s[1..])
  }

  lemma {:induction false} StripConcat(s: string, t: string)
    ensures Strip(s + t) == Strip(s) + Strip(t)
  {
    if s == [] {
      assert s + t == t;
    } else {
      assert (s + t)[1..] == s[1..] + t;
      StripConcat(s[1..], t);
    }
  }

  /** Text without whitespace is its own stripped form. */
  lemma {:induction false} StripSolid(s: string)
    requires forall c :: c in s ==> !IsSpace(c)
    ensures Strip(s) == s
  {
    if s != [] {
      StripSolid(s[1..]);
    }
  }

  /** Every character is whitespace or survives stripping. */
  lemma {:induction false} StripKeeps(s: string)
    ensures forall c :: c in s ==> IsSpace(c) || c in Strip(s)
  {
    if s != [] {
      StripKeeps(s[1..]);
    }
  }

  /** `parts.join(separator)`. */
  function Join(parts: seq<string>, separator: string): string {
    if parts == [] then []
    else if |parts| == 1 then parts[0]
    else parts[0] + separator + Join(parts[1..], separator)
  }

  /** `text.split(/\r?\n/)`: each newline ends a line, with one carriage return before it. */
  function SplitLines(s: string): seq<string>
    decreases |s|
  {
    var i := IndexOf(s, '\n', 0);
    if i == |s| then [s] else [DropReturn(s[..i])] + SplitLines(s[i + 1..])
  }

  function DropReturn(line: string): string {
    if line != [] && line[|line| - 1] == '\r' then line[..|line| - 1] else line
  }

  /** The first position at or after `from` that holds `c`, or the length when there is none. */
  function IndexOf(s: string, c: char, from: nat): (i: nat)
    requires from <= |s|
    ensures from <= i <= |s|
    ensures i < |s| ==> s[i] == c
    ensures forall j :: from <= j < i ==> s[j] != c
    decreases |s| - from
  {
    if from == |s| || s[from] == c then from else IndexOf(s, c, from + 1)
  }

  /** A first occurrence after a stretch free of `c` is found where that stretch ends. */
  lemma IndexOfUnique(s: string, c: char, k: nat)
    requires k <= |s| && (k < |s| ==> s[k] == c) && forall j :: 0 <= j < k ==> s[j] != c
    ensures IndexOf(s, c, 0) == k
  {
  }

  function TrimStart(s: string): string {
    if s != "" && IsSpace(s[0]) then TrimStart(s[1..]) else s
  }

  function TrimEnd(s: string): string {
    if s != "" && IsSpace(s[|s| - 1]) then TrimEnd(s[..|s| - 1]) else s
  }

  /** `text.trim()`. */
  function Trim(s: string): string {
    TrimEnd(TrimStart(s))
  }

  function LowerAscii(c: char): char {
    if 'A' <= c <= 'Z' then c - 'A' + 'a' else c
  }

  /** `text.toLowerCase()` on the ASCII letters. */
  function Lower(s: string): (r: string)
    ensures |r| == |s| && forall i :: 0 <= i < |s| ==> r[i] == LowerAscii(s[i])
  {
    if s == "" then "" else [LowerAscii(s[0])] + Lower(s[1..])
  }

  /** `text.split(c)` for a one-character separator. */
  function SplitOn(s: string, c: char): (parts: seq<string>)
    ensures parts != []
    ensures forall p :: p in parts ==> c !in p
    decreases |s|
  {
    var i := IndexOf(s, c, 0);
    if i == |s| then [s] else [s[..i]] + SplitOn(s[i + 1..], c)
  }

  /** Joining what a split gives is the text again. */
  lemma {:induction false} JoinOfSplit(s: string, c: char)
    ensures Join(SplitOn(s, c), [c]) == s
    decreases |s|
  {
    var i := IndexOf(s, c, 0);
    if i < |s| {
      JoinOfSplit(s[i + 1..], c);
      var rest := SplitOn(s[i + 1..], c);
      assert ([s[..i]] + rest)[1..] == rest;
      assert s == s[..i] + [c] + s[i + 1..];
    }
  }

  /** Splitting what a join gives is the parts again, when none holds the separator. */
  lemma {:induction false} SplitOfJoin(parts: seq<string>, c: char)
    requires parts != [] && forall p :: p in parts ==> c !in p
    ensures SplitOn(Join(parts, [c]), c) == parts
  {
    assert parts[0] in parts;
    if |parts| == 1 {
      IndexOfUnique(parts[0], c, |parts[0]|);
    } else {
      assert forall p :: p in parts[1..] ==> p in parts;
      SplitOfJoin(parts[1..], c);
      SplitAtFirst(parts[0], c, Join(parts[1..], [c]));
    }
  }

  /** A separator after a part free of it is where the split cuts. */
  lemma SplitAtFirst(first: string, c: char, rest: string)
    requires c !in first
    ensures SplitOn(first + [c] + rest, c) == [first] + SplitOn(rest, c)
  {
    var s := first + [c] + rest;
    assert s[|first|] == c && forall j :: 0 <= j < |first| ==> s[j] == first[j];
    IndexOfUnique(s, c, |first|);
    assert s[..|first|] == first && s[|first| + 1..] == rest;
  }

  // ---- order ----

  predicate TextLess(s: string, t: string) {
    t != [] && (s == [] || s[0] < t[0] || (s[0] == t[0] && TextLess(s[1..], t[1..])))
  }

  lemma {:induction false} TextLessAsymmetric(s: string, t: string)
    requires TextLess(s, t)
    ensures !TextLess(t, s)
  {
    if s != "" && s[0] == t[0] {
      TextLessAsymmetric(s[1..], t[1..]);
    }
  }

  lemma TextLessIrreflexive(s: string)
    ensures !TextLess(s, s)
  {
    if TextLess(s, s) {
      TextLessAsymmetric(s, s);
    }
  }

  /** Of two different texts one is less. */
  lemma {:induction false} TextLessTotal(s: string, t: string)
    requires !TextLess(s, t) && !TextLess(t, s)
    ensures s == t
  {
    if s != "" && t != "" {
      TextLessTotal(s[1..], t[1..]);
      assert s == [s[0]] + s[1..] && t == [t[0]] + t[1..];
    }
  }

  /** Being no less is transitive. */
  lemma {:induction false} NotLessTransitive(s: string, t: string, u: string)
    requires !TextLess(t, s) && !TextLess(u, t)
    ensures !TextLess(u, s)
  {
    if s != "" && t != "" && u != "" && s[0] == t[0] == u[0] {
      NotLessTransitive(s[1..], t[1..], u[1..]);
    }
  }
}
