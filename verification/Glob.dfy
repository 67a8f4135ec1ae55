/** Shell globs by way of regular expressions: `shExpMatch` of src/probes/proxy/pac-bootstrap.ts. */
module Glob {
  import opened Wrappers

  // ---- the three rewrites ----

  const SPECIAL: set<char> := {'.', '+', '^', '$', '{', '}', '(', ')', '|', '[', ']', '\\'}

  /** `text.replace(c, to)` for every character: what each one becomes, one after the other. */
  function Replace(text: string, to: char -> string): string {
    if text == "" then "" else to(text[0]) + Replace(text[1..], to)
  }

  function Escaped(c: char): string {
    if c in SPECIAL then ['\\', c] else [c]
  }

  function StarRewritten(c: char): string {
    if c == '*' then ".*" else [c]
  }

  function MarkRewritten(c: char): string {
    if c == '?' then "." else [c]
  }

  /** The text between `^` and `$`. */
  function Translate(pattern: string): string {
    Replace(Replace(Replace(pattern, Escaped), StarRewritten), MarkRewritten)
  }

  // ---- the regular expressions that come out ----

  datatype Atom = Literal(c: char) | AnyOne | AnyRun

  /** Characters that mean something else on their own (ECMA-262, section 22.2.1, SyntaxCharacter). */
  const SYNTAX: set<char> := {'^', '$', '\\', '.', '*', '+', '?', '(', ')', '[', ']', '{', '}', '|'}

  predicate IsSyntax(c: char) {
    c in SYNTAX
  }

  /** The regular expressions of literals, escaped specials, `.` and `.*`; anything else is none of them. */
  function Parse(regex: string): Option<seq<Atom>>
    decreases |regex|
  {
    if regex == "" then Some([])
    else if regex[0] == '\\' then
      if |regex| >= 2 && IsSyntax(regex[1]) then Then(Literal(regex[1]), Parse(regex[2..])) else None
    else if regex[0] == '.' then
      if |regex| >= 2 && regex[1] == '*' then Then(AnyRun, Parse(regex[2..])) else Then(AnyOne, Parse(regex[1..]))
    else if IsSyntax(regex[0]) then None
    else Then(Literal(regex[0]), Parse(regex[1..]))
  }

  function Then(atom: Atom, rest: Option<seq<Atom>>): Option<seq<Atom>> {
    if rest.None? then None else Some([atom] + rest.value)
  }

  /** The characters that `.` does not match. */
  predicate IsLineTerminator(c: char) {
    c == '\n' || c == '\r' || c == '\U{2028}' || c == '\U{2029}'
  }

  predicate OneLine(s: string) {
    forall c :: c in s ==> !IsLineTerminator(c)
  }

  /** The whole of `s` is in the language of the atoms one after the other. */
  ghost predicate Matches(atoms: seq<Atom>, s: string) {
    if atoms == [] then s == ""
    else match atoms[0]
      case Literal(c) => s != "" && s[0] == c && Matches(atoms[1..], s[1..])
      case AnyOne => s != "" && !IsLineTerminator(s[0]) && Matches(atoms[1..], s[1..])
      case AnyRun => exists n: nat :: n <= |s| && OneLine(s[..n]) && Matches(atoms[1..], s[n..])
  }

  ghost predicate ShExpMatch(candidate: string, pattern: string) {
    var regex := Parse(Translate(pattern));
    regex.Some? && Matches(regex.value, candidate)
  }

  // ---- globs ----

  /** The code points that end a line (ECMA-262, section 12.3). */
  const LINE_ENDS: set<int> := {0x000A, 0x000D, 0x2028, 0x2029}

  predicate HasLineEnd(s: string) {
    exists c :: c in s && c as int in LINE_ENDS
  }

  /** What a wildcard may stand for: any character, or any that does not end a line. */
  predicate Wild(c: char, withinLine: bool) {
    withinLine ==> c as int !in LINE_ENDS
  }

  /** `*` any run, `?` any one character, everything else itself. */
  predicate GlobMatch(pattern: string, s: string, withinLine: bool)
    decreases |pattern| + |s|
  {
    if pattern == "" then s == ""
    else if pattern[0] == '*' then
      (GlobMatch(pattern[1..], s, withinLine)
       || (s != "" && Wild(s[0], withinLine) && GlobMatch(pattern, s[1..], withinLine)))
    else
      (s != "" && (if pattern[0] == '?' then Wild(s[0], withinLine) else s[0] == pattern[0])
       && GlobMatch(pattern[1..], s[1..], withinLine))
  }

  function AtomOf(c: char): Atom {
    if c == '*' then AnyRun else if c == '?' then AnyOne else Literal(c)
  }

  function AtomsOf(pattern: string): seq<Atom> {
    if pattern == "" then [] else [AtomOf(pattern[0])] + AtomsOf(pattern[1..])
  }

  // ---- the rewrites keep the meaning ----

  lemma {:induction false} ReplaceConcat(a: string, b: string, to: char -> string)
    ensures Replace(a + b, to) == Replace(a, to) + Replace(b, to)
  {
    if a == "" {
      assert a + b == b;
    } else {
      assert (a + b)[1..] == a[1..] + b;
      ReplaceConcat(a[1..], b, to);
    }
  }

  /** What one character of the pattern becomes. */
  function Rewritten(c: char): string {
    if c == '*' then ".*" else if c == '?' then "." else Escaped(c)
  }

  lemma TranslateCons(pattern: string)
    requires pattern != ""
    ensures Translate(pattern) == Rewritten(pattern[0]) + Translate(pattern[1..])
  {
    var rest := Replace(pattern[1..], Escaped);
    var starred := Replace(rest, StarRewritten);
    ReplaceConcat(Escaped(pattern[0]), rest, StarRewritten);
    ReplaceConcat(Replace(Escaped(pattern[0]), StarRewritten), starred, MarkRewritten);
    OneRewritten(pattern[0]);
  }

  lemma OneRewritten(c: char)
    ensures Replace(Replace(Escaped(c), StarRewritten), MarkRewritten) == Rewritten(c)
  {
    ReplaceOne(c, StarRewritten);
    ReplaceOne(c, MarkRewritten);
    ReplaceTwo('\\', c, StarRewritten);
    ReplaceTwo('\\', c, MarkRewritten);
    ReplaceTwo('.', '*', MarkRewritten);
  }

  lemma ReplaceOne(c: char, to: char -> string)
    ensures Replace([c], to) == to(c)
  {
    assert [c][1..] == "";
    assert to(c) + "" == to(c);
  }

  lemma ReplaceTwo(a: char, b: char, to: char -> string)
    ensures Replace([a, b], to) == to(a) + to(b)
  {
    assert [a, b][1..] == [b];
    ReplaceOne(b, to);
  }

  /** The translation never starts with a star, so no quantifier is read that was not meant. */
  lemma NoLeadingStar(pattern: string)
    ensures Translate(pattern) != "" ==> Translate(pattern)[0] != '*'
  {
    if pattern != "" {
      hide Translate;
      TranslateCons(pattern);
    }
  }

  /** Every pattern translates to a regular expression of the subset, atom for character. */
  lemma {:induction false} TranslationParses(pattern: string)
    ensures Parse(Translate(pattern)) == Some(AtomsOf(pattern))
  {
    if pattern != "" {
      hide Translate;
      TranslateCons(pattern);
      TranslationParses(pattern[1..]);
      NoLeadingStar(pattern[1..]);
      ParseRewritten(pattern[0], Translate(pattern[1..]));
    }
  }

  lemma ParseRewritten(c: char, rest: string)
    requires rest != "" ==> rest[0] != '*'
    ensures Parse(Rewritten(c) + rest) == Then(AtomOf(c), Parse(rest))
  {
    var regex := Rewritten(c) + rest;
    assert regex[|Rewritten(c)|..] == rest;
  }

  /** The language of the atoms is what the glob matches with wildcards kept within a line. */
  lemma {:induction false} AtomsMatchGlob(pattern: string, s: string)
    ensures Matches(AtomsOf(pattern), s) <==> GlobMatch(pattern, s, true)
    decreases |pattern| + |s|
  {
    if pattern != "" {
      var atoms := AtomsOf(pattern);
      assert atoms[1..] == AtomsOf(pattern[1..]);
      if pattern[0] == '*' {
        AtomsMatchGlob(pattern[1..], s);
        if s != "" {
          AtomsMatchGlob(pattern, s[1..]);
        }
        RunUnfolds(atoms, s);
      } else if s != "" {
        AtomsMatchGlob(pattern[1..], s[1..]);
      }
    }
  }

  /** A run is empty, or one character of the same line and a run. */
  lemma RunUnfolds(atoms: seq<Atom>, s: string)
    requires atoms != [] && atoms[0] == AnyRun
    ensures Matches(atoms, s) <==>
      Matches(atoms[1..], s) || (s != "" && !IsLineTerminator(s[0]) && Matches(atoms, s[1..]))
  {
    hide Matches;
    if Matches(atoms[1..], s) {
      RunMayBeEmpty(atoms, s);
    }
    if s != "" && !IsLineTerminator(s[0]) && Matches(atoms, s[1..]) {
      RunGrows(atoms, s);
    }
    if Matches(atoms, s) {
      RunSplits(atoms, s);
    }
  }

  /** The run takes the first `n` characters. */
  ghost predicate RunTakes(atoms: seq<Atom>, s: string, n: nat)
    requires atoms != []
  {
    n <= |s| && OneLine(s[..n]) && Matches(atoms[1..], s[n..])
  }

  lemma RunMeans(atoms: seq<Atom>, s: string)
    requires atoms != [] && atoms[0] == AnyRun
    ensures Matches(atoms, s) <==> exists n: nat :: RunTakes(atoms, s, n)
  {
    if Matches(atoms, s) {
      var n: nat :| n <= |s| && OneLine(s[..n]) && Matches(atoms[1..], s[n..]);
      assert RunTakes(atoms, s, n);
    }
  }

  lemma RunMayBeEmpty(atoms: seq<Atom>, s: string)
    requires atoms != [] && atoms[0] == AnyRun && Matches(atoms[1..], s)
    ensures Matches(atoms, s)
  {
    hide Matches;
    RunMeans(atoms, s);
    assert s[..0] == "" && s[0..] == s;
    assert RunTakes(atoms, s, 0);
  }

  lemma RunGrows(atoms: seq<Atom>, s: string)
    requires atoms != [] && atoms[0] == AnyRun
    requires s != "" && !IsLineTerminator(s[0]) && Matches(atoms, s[1..])
    ensures Matches(atoms, s)
  {
    hide Matches, IsLineTerminator;
    RunMeans(atoms, s);
    RunMeans(atoms, s[1..]);
    var n: nat :| RunTakes(atoms, s[1..], n);
    assert s[..n + 1] == [s[0]] + s[1..][..n] && s[n + 1..] == s[1..][n..];
    assert RunTakes(atoms, s, n + 1);
  }

  lemma RunSplits(atoms: seq<Atom>, s: string)
    requires atoms != [] && atoms[0] == AnyRun && Matches(atoms, s)
    ensures Matches(atoms[1..], s) || (s != "" && !IsLineTerminator(s[0]) && Matches(atoms, s[1..]))
  {
    hide Matches, IsLineTerminator;
    RunMeans(atoms, s);
    var n: nat :| RunTakes(atoms, s, n);
    if n == 0 {
      assert s[0..] == s;
    } else {
      RunMeans(atoms, s[1..]);
      assert s[..n] == [s[0]] + s[1..][..n - 1] && s[n..] == s[1..][n - 1..];
      assert s[0] in s[..n] && forall c :: c in s[1..][..n - 1] ==> c in s[..n];
      assert RunTakes(atoms, s[1..], n - 1);
    }
  }

  /** For every pattern and every candidate: a glob whose wildcards do not cross a line's end. */
  lemma ShExpMatchIs(candidate: string, pattern: string)
    ensures ShExpMatch(candidate, pattern) <==> GlobMatch(pattern, candidate, true)
  {
    TranslationParses(pattern);
    AtomsMatchGlob(pattern, candidate);
  }

  lemma {:induction false} OneLineGlob(pattern: string, s: string)
    requires OneLine(s)
    ensures GlobMatch(pattern, s, true) <==> GlobMatch(pattern, s, false)
    decreases |pattern| + |s|
  {
    if pattern != "" {
      OneLineGlob(pattern[1..], s);
      if s != "" {
        assert s[0] in s && forall c :: c in s[1..] ==> c in s;
        OneLineGlob(pattern, s[1..]);
        OneLineGlob(pattern[1..], s[1..]);
      }
    }
  }

  /**
   * Matching through the regular expression is direct glob matching, for every pattern, exactly on
   * the candidates that hold no line terminator.
   */
  lemma GlobExactlyOnOneLine(candidate: string)
    ensures !HasLineEnd(candidate) <==>
      forall pattern :: ShExpMatch(candidate, pattern) <==> GlobMatch(pattern, candidate, false)
  {
    if OneLine(candidate) {
      forall pattern ensures ShExpMatch(candidate, pattern) <==> GlobMatch(pattern, candidate, false) {
        ShExpMatchIs(candidate, pattern);
        OneLineGlob(pattern, candidate);
      }
    } else {
      ShExpMatchIs(candidate, "*");
      StarMatches(candidate);
    }
  }

  /** The pattern `*` stands for everything, or for everything on one line. */
  lemma {:induction false} StarMatches(s: string)
    ensures GlobMatch("*", s, false)
    ensures GlobMatch("*", s, true) <==> OneLine(s)
  {
    assert "*"[1..] == "";
    if s != "" {
      StarMatches(s[1..]);
      assert s == [s[0]] + s[1..] && (Wild(s[0], true) <==> !IsLineTerminator(s[0]));
      assert forall c :: c in s <==> c == s[0] || c in s[1..];
    }
  }
}
