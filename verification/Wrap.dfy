/** Greedy text wrapping (src/report/text.ts). */
module Wrap {
  import opened Text
  import TextLaws

  // ---- words ----

  /** How many characters before the first space. */
  function RunLength(s: string): (n: nat)
    ensures n <= |s|
    ensures forall i :: 0 <= i < n ==> !IsSpace(s[i])
    ensures n < |s| ==> IsSpace(s[n])
  {
    if s == "" || IsSpace(s[0]) then 0 else 1 + RunLength(s[1..])
  }

  predicate IsWord(w: string) {
    w != "" && forall i :: 0 <= i < |w| ==> !IsSpace(w[i])
  }

  predicate AllWords(words: seq<string>) {
    forall w :: w in words ==> IsWord(w)
  }

  /** `text.split(/\s+/).filter(word => word.length > 0)`. */
  function WordsOf(text: string): (r: seq<string>)
    ensures AllWords(r)
    decreases |text|
  {
    if text == "" then []
    else if IsSpace(text[0]) then WordsOf(text[1..])
    else
      var n := RunLength(text);
      [text[..n]] + WordsOf(text[n..])
  }

  // ---- wrapping ----

  /** The length of the words joined with single spaces. */
  function LineLength(line: seq<string>): int {
    |Join(line, " ")|
  }

  /** The lines, as lists of words, when `current` is under way and `rest` is to come. */
  function WrapFrom(current: seq<string>, rest: seq<string>, width: int): seq<seq<string>>
    decreases |rest|
  {
    if rest == [] then [current]
    else if LineLength(current) + 1 + |rest[0]| <= width then WrapFrom(current + [rest[0]], rest[1..], width)
    else [current] + WrapFrom([rest[0]], rest[1..], width)
  }

  function Wrapped(words: seq<string>, width: int): seq<seq<string>> {
    if words == [] then [] else WrapFrom([words[0]], words[1..], width)
  }

  function Printed(lines: seq<seq<string>>): (r: seq<string>)
    ensures |r| == |lines|
  {
    if lines == [] then [] else [Join(lines[0], " ")] + Printed(lines[1..])
  }

  method WrapText(text: string, width: int) returns (lines: seq<string>)
    ensures lines == Printed(Wrapped(WordsOf(text), width))
  {
    hide WordsOf;
    var words := WordsOf(text);
    lines := [];
    var current := "";
    ghost var line: seq<string> := [];
    for i := 0 to |words|
      invariant AllWords(line) && current == Join(line, " ") && (line == [] <==> i == 0)
      invariant current == "" <==> line == []
      invariant i > 0 ==> Printed(Wrapped(words, width)) == lines + Printed(WrapFrom(line, words[i..], width))
      invariant i == 0 ==> lines == []
    {
      assert words[i] in words && words[i..][1..] == words[i + 1..];
      if |current| == 0 {
        current := words[i];
        line := [words[i]];
      } else if |current| + 1 + |words[i]| <= width {
        JoinNext(line, words[i]);
        current := current + " " + words[i];
        line := line + [words[i]];
      } else {
        PrintedNext(lines, line, WrapFrom([words[i]], words[i + 1..], width));
        lines := lines + [current];
        current := words[i];
        line := [words[i]];
      }
    }
    if |words| > 0 {
      assert words[|words|..] == [];
      assert [line][1..] == [] && Printed([line]) == [current];
    }
    if |current| > 0 { lines := lines + [current]; }
  }

  lemma {:induction false} JoinNext(line: seq<string>, word: string)
    requires line != []
    ensures Join(line + [word], " ") == Join(line, " ") + " " + word
  {
    if |line| > 1 {
      JoinNext(line[1..], word);
      assert (line + [word])[1..] == line[1..] + [word];
    } else {
      assert (line + [word])[1..] == [word];
    }
  }

  lemma PrintedNext(done: seq<string>, line: seq<string>, more: seq<seq<string>>)
    ensures done + Printed([line] + more) == done + [Join(line, " ")] + Printed(more)
  {
    assert ([line] + more)[1..] == more;
  }

  // ---- the words are kept ----

  function Flat(lines: seq<seq<string>>): seq<string> {
    if lines == [] then [] else lines[0] + Flat(lines[1..])
  }

  /** The words of several texts, one after the other. */
  function WordsOfAll(texts: seq<string>): seq<string> {
    if texts == [] then [] else WordsOf(texts[0]) + WordsOfAll(texts[1..])
  }

  lemma FlatCons(line: seq<string>, more: seq<seq<string>>)
    ensures Flat([line] + more) == line + Flat(more)
    ensures Flat([line]) == line
  {
    assert ([line] + more)[1..] == more && [line][1..] == [];
    assert line + [] == line;
  }

  lemma {:induction false} WrapKeepsWords(current: seq<string>, rest: seq<string>, width: int)
    ensures Flat(WrapFrom(current, rest, width)) == current + rest
    decreases |rest|
  {
    hide Flat, LineLength;
    if rest == [] {
      FlatCons(current, []);
    } else if LineLength(current) + 1 + |rest[0]| <= width {
      WrapKeepsWords(current + [rest[0]], rest[1..], width);
      assert current + [rest[0]] + rest[1..] == current + rest;
    } else {
      WrapKeepsWords([rest[0]], rest[1..], width);
      FlatCons(current, WrapFrom([rest[0]], rest[1..], width));
      assert [rest[0]] + rest[1..] == rest;
    }
  }

  lemma WordAlone(w: string)
    requires IsWord(w)
    ensures WordsOf(w) == [w]
  {
    assert RunLength(w) == |w|;
    assert w[|w|..] == "" && w[..|w|] == w;
  }

  lemma WordThenMore(w: string, rest: string)
    requires IsWord(w)
    ensures WordsOf(w + " " + rest) == [w] + WordsOf(rest)
  {
    var text := w + " " + rest;
    assert text[|w|] == ' ' && forall i :: 0 <= i < |w| ==> text[i] == w[i];
    assert RunLength(text) == |w|;
    assert text[..|w|] == w && text[|w|..][1..] == rest && text[|w|..] != "";
  }

  /** A line printed with single spaces reads back as its words. */
  lemma {:induction false} WordsOfLine(line: seq<string>)
    requires AllWords(line)
    ensures WordsOf(Join(line, " ")) == line
  {
    hide WordsOf, IsWord;
    if line == [] {
      WordsOfNothing();
    } else if |line| == 1 {
      assert line[0] in line;
      WordAlone(line[0]);
    } else {
      assert line[0] in line && forall w :: w in line[1..] ==> w in line;
      WordsOfLine(line[1..]);
      WordThenMore(line[0], Join(line[1..], " "));
    }
  }

  lemma WordsOfNothing()
    ensures WordsOf("") == []
  {
  }

  lemma {:induction false} WordsOfPrinted(lines: seq<seq<string>>)
    requires forall line :: line in lines ==> AllWords(line)
    ensures WordsOfAll(Printed(lines)) == Flat(lines)
  {
    hide WordsOf, AllWords;
    if lines != [] {
      assert lines[0] in lines;
      WordsOfLine(lines[0]);
      WordsOfPrinted(lines[1..]);
      assert Printed(lines)[1..] == Printed(lines[1..]);
    }
  }

  lemma {:induction false} FlatHolds(lines: seq<seq<string>>)
    requires AllWords(Flat(lines))
    ensures forall line :: line in lines ==> AllWords(line)
  {
    hide IsWord;
    if lines != [] {
      assert forall w :: w in lines[0] ==> w in Flat(lines);
      assert forall w :: w in Flat(lines[1..]) ==> w in Flat(lines);
      FlatHolds(lines[1..]);
    }
  }

  // ---- every line fits ----

  /** A line is within the width, or is one word that nothing can be done about. */
  predicate Fits(line: seq<string>, width: int) {
    |line| == 1 || (line != [] && LineLength(line) <= width)
  }

  predicate AllFit(lines: seq<seq<string>>, width: int) {
    forall line :: line in lines ==> Fits(line, width)
  }

  lemma {:induction false} WrapFits(current: seq<string>, rest: seq<string>, width: int)
    requires Fits(current, width)
    ensures AllFit(WrapFrom(current, rest, width), width)
    decreases |rest|
  {
    if rest == [] {
    } else if LineLength(current) + 1 + |rest[0]| <= width {
      JoinNext(current, rest[0]);
      WrapFits(current + [rest[0]], rest[1..], width);
    } else {
      WrapFits([rest[0]], rest[1..], width);
    }
  }

  // ---- no fewer lines would do ----

  lemma {:induction false} LengthSplits(a: seq<string>, b: seq<string>)
    requires a != [] && b != []
    ensures LineLength(a + b) == LineLength(a) + 1 + LineLength(b)
    decreases |a|
  {
    if |a| == 1 {
      assert (a + b)[1..] == b;
    } else {
      assert (a + b)[1..] == a[1..] + b;
      LengthSplits(a[1..], b);
    }
  }

  /** Part of a line that fits also fits. */
  lemma PartFits(a: seq<string>, b: seq<string>, width: int)
    requires Fits(a + b, width)
    ensures a != [] ==> Fits(a, width)
    ensures b != [] ==> Fits(b, width)
  {
    hide LineLength;
    if a != [] && b != [] {
      LengthSplits(a, b);
      LengthsAreNatural(a, b);
    } else {
      assert a == [] ==> a + b == b;
      assert b == [] ==> a + b == a;
    }
  }

  lemma LengthsAreNatural(a: seq<string>, b: seq<string>)
    ensures LineLength(a) >= 0 && LineLength(b) >= 0
  {
  }

  /** The lines without their first `n` words; a line that loses all of them goes. */
  function WithoutFirst(lines: seq<seq<string>>, n: nat): seq<seq<string>>
    requires n <= |Flat(lines)|
  {
    if lines == [] || n == 0 then lines
    else if |lines[0]| <= n then WithoutFirst(lines[1..], n - |lines[0]|)
    else [lines[0][n..]] + lines[1..]
  }

  lemma {:induction false} WithoutFirstIs(lines: seq<seq<string>>, n: nat, width: int)
    requires n <= |Flat(lines)| && AllFit(lines, width)
    ensures var fewer := WithoutFirst(lines, n);
      Flat(fewer) == Flat(lines)[n..] && AllFit(fewer, width) && |fewer| <= |lines|
  {
    hide Fits, Flat;
    if lines != [] && n > 0 {
      var first, rest := lines[0], lines[1..];
      assert lines == [first] + rest;
      assert first in lines && forall line :: line in rest ==> line in lines;
      FlatCons(first, rest);
      if |first| <= n {
        WithoutFirstIs(rest, n - |first|, width);
        assert (first + Flat(rest))[n..] == Flat(rest)[n - |first|..];
      } else {
        assert first == first[..n] + first[n..];
        PartFits(first[..n], first[n..], width);
        FlatCons(first[n..], rest);
        assert (first + Flat(rest))[n..] == first[n..] + Flat(rest);
        var fewer := [first[n..]] + rest;
        assert forall line :: line in fewer <==> line == first[n..] || line in rest;
      }
    } else {
      FlatNothing();
      assert Flat(lines)[0..] == Flat(lines);
    }
  }

  lemma FlatNothing()
    ensures Flat([]) == []
  {
  }

  /** Greedy is never behind: no split of the same words into lines that fit has fewer lines. */
  lemma {:induction false} GreedyIsFewest(current: seq<string>, rest: seq<string>, width: int, lines: seq<seq<string>>)
    requires Fits(current, width) && AllFit(lines, width) && Flat(lines) == current + rest
    ensures |WrapFrom(current, rest, width)| <= |lines|
    decreases |rest|
  {
    hide Fits;
    FitsIsSome(current, width);
    if rest == [] {
      assert lines != [];
    } else if LineLength(current) + 1 + |rest[0]| <= width {
      StillFits(current, rest[0], width);
      assert current + [rest[0]] + rest[1..] == current + rest;
      GreedyIsFewest(current + [rest[0]], rest[1..], width, lines);
    } else {
      var first, others := lines[0], lines[1..];
      assert first in lines && forall line :: line in others ==> line in lines;
      FirstIsNoLonger(current, rest, width, first, Flat(others));
      var n := |current| - |first|;
      assert Flat(lines) == first + Flat(others);
      assert Flat(others) == (current + rest)[|first|..];
      assert (current + rest)[|first|..][n..] == rest;
      WithoutFirstIs(others, n, width);
      WordFits(rest[0], width);
      assert [rest[0]] + rest[1..] == rest;
      GreedyIsFewest([rest[0]], rest[1..], width, WithoutFirst(others, n));
    }
  }

  lemma FitsIsSome(line: seq<string>, width: int)
    requires Fits(line, width)
    ensures line != []
  {
  }

  lemma WordFits(word: string, width: int)
    ensures Fits([word], width)
  {
  }

  lemma StillFits(line: seq<string>, word: string, width: int)
    requires line != [] && LineLength(line) + 1 + |word| <= width
    ensures Fits(line + [word], width)
  {
    JoinNext(line, word);
  }

  /** When the next word does not fit, no line that fits and starts with the same words has it. */
  lemma FirstIsNoLonger(current: seq<string>, rest: seq<string>, width: int, first: seq<string>, more: seq<string>)
    requires current != [] && rest != [] && first + more == current + rest && Fits(first, width)
    requires LineLength(current) + 1 + |rest[0]| > width
    ensures |first| <= |current|
  {
    if |first| > |current| {
      var longer := current + [rest[0]];
      assert first == (first + more)[..|first|] == longer + first[|longer|..];
      PartFits(longer, first[|longer|..], width);
      JoinNext(current, rest[0]);
    }
  }

  /**
   * The words of the lines, in order, are the words of the text; every line is within the width or
   * a single word; and no other split of the words into such lines uses fewer lines.
   */
  lemma WrappingIsOptimal(text: string, width: int, other: seq<seq<string>>)
    ensures var lines := Printed(Wrapped(WordsOf(text), width));
      && WordsOfAll(lines) == WordsOf(text)
      && (forall i :: 0 <= i < |lines| ==> |lines[i]| <= width || |WordsOf(lines[i])| == 1)
      && (AllFit(other, width) && Flat(other) == WordsOf(text) ==> |lines| <= |other|)
  {
    hide WordsOf, Printed, WordsOfAll, Fits, IsWord;
    var words := WordsOf(text);
    var wrapped := Wrapped(words, width);
    if words == [] {
      NothingPrinted();
    } else {
      assert [words[0]] + words[1..] == words;
      WordFits(words[0], width);
      WrapKeepsWords([words[0]], words[1..], width);
      WrapFits([words[0]], words[1..], width);
      FlatHolds(wrapped);
      WordsOfPrinted(wrapped);
      PrintedFit(wrapped, width);
      if AllFit(other, width) && Flat(other) == words {
        GreedyIsFewest([words[0]], words[1..], width, other);
      }
    }
  }

  lemma NothingPrinted()
    ensures Printed([]) == [] && WordsOfAll([]) == []
  {
  }

  lemma {:induction false} PrintedFit(lines: seq<seq<string>>, width: int)
    requires AllFit(lines, width) && forall line :: line in lines ==> AllWords(line)
    ensures forall i :: 0 <= i < |lines| ==> |Printed(lines)[i]| <= width || |WordsOf(Printed(lines)[i])| == 1
  {
    hide WordsOf, IsWord;
    if lines != [] {
      assert lines[0] in lines;
      WordsOfLine(lines[0]);
      PrintedFit(lines[1..], width);
    }
  }

  // ---- which words, and which lines ----

  /** The words of a text are its stretches without white space: what a white-space character ends and begins. */
  lemma WordsAre(s: string, c: char, t: string)
    requires c as int in TextLaws.SPACES
    ensures WordsOf(s + [c] + t) == WordsOf(s) + WordsOf(t)
    ensures s != "" && (forall d :: d in s ==> d as int !in TextLaws.SPACES) ==> WordsOf(s) == [s]
    ensures WordsOf("") == []
  {
    hide WordsOf, IsSpace;
    WordsOfNothing();
    forall d ensures IsSpace(d) <==> d as int in TextLaws.SPACES {
      TextLaws.SpacesAre(d);
    }
    WordsJoin(s, c, t);
    if s != "" && forall d :: d in s ==> !IsSpace(d) {
      WordAlone(s);
    }
  }

  lemma {:induction false} WordsJoin(s: string, c: char, t: string)
    requires IsSpace(c)
    ensures WordsOf(s + [c] + t) == WordsOf(s) + WordsOf(t)
    decreases |s|
  {
    hide IsSpace;
    var text := s + [c] + t;
    if s == "" {
      assert text[0] == c && text[1..] == t;
      assert WordsOf(s) == [];
    } else if IsSpace(s[0]) {
      assert text[1..] == s[1..] + [c] + t;
      WordsJoin(s[1..], c, t);
    } else {
      var n := RunLength(s);
      RunStops(text, n);
      assert text[..n] == s[..n] && text[n..] == s[n..] + [c] + t;
      WordsJoin(s[n..], c, t);
    }
  }

  lemma {:induction false} RunStops(text: string, n: nat)
    requires n < |text| && IsSpace(text[n]) && forall i :: 0 <= i < n ==> !IsSpace(text[i])
    ensures RunLength(text) == n
  {
  }

  /** No line ends while the next word would still fit on it. */
  ghost predicate FilledUp(lines: seq<seq<string>>, width: int) {
    forall i, j :: 0 <= i && j == i + 1 && j < |lines| ==> Full(lines[i], lines[j], width)
  }

  /** The line cannot take the next line's first word. */
  predicate Full(line: seq<string>, next: seq<string>, width: int) {
    next != [] && LineLength(line + [next[0]]) > width
  }

  lemma {:induction false} WrapFillsUp(current: seq<string>, rest: seq<string>, width: int)
    requires current != []
    ensures var lines := WrapFrom(current, rest, width);
      FilledUp(lines, width) && lines != [] && lines[0] != [] && lines[0][0] == current[0]
    decreases |rest|
  {
    hide LineLength;
    if rest == [] {
    } else if LineLength(current) + 1 + |rest[0]| <= width {
      WrapFillsUp(current + [rest[0]], rest[1..], width);
    } else {
      WrapFillsUp([rest[0]], rest[1..], width);
      OneMoreLength(current, rest[0]);
      FilledBefore(current, WrapFrom([rest[0]], rest[1..], width), width);
    }
  }

  lemma OneMoreLength(line: seq<string>, word: string)
    requires line != []
    ensures LineLength(line + [word]) == LineLength(line) + 1 + |word|
  {
    JoinNext(line, word);
  }

  lemma FilledBefore(line: seq<string>, more: seq<seq<string>>, width: int)
    requires FilledUp(more, width) && more != [] && Full(line, more[0], width)
    ensures FilledUp([line] + more, width)
  {
    hide Full;
    var all := [line] + more;
    forall i, j | 0 <= i && j == i + 1 && j < |all| ensures Full(all[i], all[j], width) {
      if i > 0 {
        assert all[i] == more[i - 1] && all[j] == more[j - 1];
      }
    }
  }

  /**
   * The printed lines are lines of words with one space between them, and each but the last is as
   * long as it can be: with the next line's first word it would be too wide.
   */
  lemma LinesAreGreedy(text: string, width: int)
    ensures var words := WordsOf(text); var lines := Wrapped(words, width);
      FilledUp(lines, width) && Flat(lines) == words && (words == [] <==> lines == [])
    ensures forall i :: 0 <= i < |Wrapped(WordsOf(text), width)| ==>
      Printed(Wrapped(WordsOf(text), width))[i] == Join(Wrapped(WordsOf(text), width)[i], " ")
  {
    hide WordsOf, LineLength, FilledUp;
    var words := WordsOf(text);
    if words == [] {
      NoLinesFilled(width);
    } else {
      assert [words[0]] + words[1..] == words;
      WrapFillsUp([words[0]], words[1..], width);
      WrapKeepsWords([words[0]], words[1..], width);
    }
    PrintedAre(Wrapped(words, width));
  }

  lemma NoLinesFilled(width: int)
    ensures FilledUp([], width) && Flat([]) == []
  {
  }

  lemma {:induction false} PrintedAre(lines: seq<seq<string>>)
    ensures forall i :: 0 <= i < |lines| ==> Printed(lines)[i] == Join(lines[i], " ")
  {
    hide Join;
    if lines != [] {
      PrintedAre(lines[1..]);
    }
  }
}
