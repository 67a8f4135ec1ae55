/** "The same certificate, the same string": the canonical form of certificate text. */
module PemLaws {
  import opened Wrappers
  import opened Bits
  import opened Text
  import opened Base64
  import opened Pem
  import opened Base64Laws
  import TextLaws

  /** The encapsulation boundaries of a certificate (RFC 7468, section 5.1). */
  const OPENING: string := "-----BEGIN CERTIFICATE-----"
  const CLOSING: string := "-----END CERTIFICATE-----"

  /** A character that a block's body may hold: a digit of the alphabet, padding or white space. */
  ghost predicate InClass(c: char) {
    InAlphabet(c) || c == '=' || c as int in TextLaws.SPACES
  }

  lemma ClassIs(c: char)
    ensures IsBodyChar(c) <==> InClass(c)
  {
    hide IsDigit, InAlphabet, IsSpace;
    DigitsAre(c, 0);
    TextLaws.SpacesAre(c);
  }

  // ---- the scan is the regular expression ----

  /**
   * The regular expression matches at the start of `t` with `n` body characters: the opening
   * delimiter, `n` characters of the class, the closing delimiter.
   */
  ghost predicate RegexMatch(t: string, n: nat) {
    && OPENING <= t
    && |OPENING| + n <= |t|
    && (forall i :: |OPENING| <= i < |OPENING| + n ==> InClass(t[i]))
    && CLOSING <= t[|OPENING| + n..]
  }

  /**
   * A match can end in one place only, because no delimiter character is in the class: the lazy
   * quantifier has nothing to choose, and the deterministic scan finds exactly the matches.
   */
  lemma ScanIsRegex(t: string, n: nat)
    ensures RegexMatch(t, n) <==> BlockAt(t).Some? && |BlockAt(t).value| == n
  {
    hide BodyRun, IsBodyChar, InClass;
    forall c ensures IsBodyChar(c) <==> InClass(c) {
      ClassIs(c);
    }
    if OPENING <= t {
      var b := |OPENING|;
      var rest := t[b..];
      assert forall i :: 0 <= i < |rest| ==> rest[i] == t[b + i];
      assert rest[BodyRun(rest)..] == t[b + BodyRun(rest)..];
      if RegexMatch(t, n) {
        ClosingDelimiter(t[b + n..]);
        assert rest[n] == t[b + n..][0];
        RunEnds(rest, n);
      }
    }
  }

  lemma ClosingDelimiter(t: string)
    requires CLOSING <= t
    ensures t != [] && !IsBodyChar(t[0])
  {
    assert t[0] == CLOSING[0];
  }

  lemma {:induction false} RunEnds(t: string, n: nat)
    requires n < |t| && !IsBodyChar(t[n]) && forall i :: 0 <= i < n ==> IsBodyChar(t[i])
    ensures BodyRun(t) == n
  {
    if n > 0 {
      RunEnds(t[1..], n - 1);
    }
  }

  /** What a match gives: the one text of the decoded body when that is base64, and nothing otherwise. */
  function TextOfBody(body: string): seq<string> {
    if WellPadded(Strip(body)) then [PemOf(Decode(Strip(body)))] else []
  }

  /** Whole groups of base64 digits, with padding only at the end. */
  predicate WellPadded(s: string) {
    |s| % 4 == 0 && IsBody(s)
  }

  /** Up to a match that no earlier one precedes, the text gives nothing; after it the scan goes on. */
  lemma {:induction false} LeftmostMatch(t: string, i: nat, n: nat)
    requires i <= |t| && RegexMatch(t[i..], n)
    requires forall j, m: nat :: 0 <= j < i ==> !RegexMatch(t[j..], m)
    ensures i + |OPENING| + n + |CLOSING| <= |t|
    ensures Blocks(t) == TextOfBody(t[i + |OPENING|..i + |OPENING| + n]) + Blocks(t[i + |OPENING| + n + |CLOSING|..])
  {
    hide RegexMatch, BlockAt, TextOfBody, Rebuilt;
    ScanIsRegex(t[i..], n);
    MatchInside(t[i..], n);
    var body := t[i + |OPENING|..i + |OPENING| + n];
    assert t[i..][|OPENING|..|OPENING| + n] == body;
    if i == 0 {
      assert t[0..] == t;
      BodyGives(body);
    } else {
      assert t[0..] == t;
      if BlockAt(t).Some? {
        ScanIsRegex(t, |BlockAt(t).value|);
      }
      assert t[1..][i - 1..] == t[i..];
      assert forall j :: 0 <= j < i - 1 ==> t[1..][j..] == t[j + 1..];
      LeftmostMatch(t[1..], i - 1, n);
      assert t[1..][i - 1 + |OPENING|..i - 1 + |OPENING| + n] == body;
      assert t[1..][i - 1 + |OPENING| + n + |CLOSING|..] == t[i + |OPENING| + n + |CLOSING|..];
    }
  }

  lemma MatchInside(t: string, n: nat)
    requires RegexMatch(t, n)
    ensures |OPENING| + n + |CLOSING| <= |t|
    ensures BlockAt(t) == Some(t[|OPENING|..|OPENING| + n])
  {
    hide BodyRun, InClass;
    ScanIsRegex(t, n);
    var rest := t[|OPENING|..];
    assert rest[..n] == t[|OPENING|..|OPENING| + n];
  }

  lemma BodyGives(body: string)
    ensures Rebuilt(body) == TextOfBody(body)
    ensures BlockLength(body) == |OPENING| + |body| + |CLOSING|
  {
  }

  /** A text in which nothing matches gives nothing. */
  lemma {:induction false} NoMatch(t: string)
    requires forall j, m: nat :: 0 <= j < |t| ==> !RegexMatch(t[j..], m)
    ensures Blocks(t) == []
  {
    hide RegexMatch, BlockAt;
    if t != "" {
      assert t[0..] == t;
      if BlockAt(t).Some? {
        ScanIsRegex(t, |BlockAt(t).value|);
      }
      assert forall j :: 0 <= j < |t| - 1 ==> t[1..][j..] == t[j + 1..];
      NoMatch(t[1..]);
    }
  }

  // ---- reading printed blocks ----

  /** A block as some tool printed it: arbitrary text before it, and its body laid out anyhow. */
  datatype Printed = Printed(gap: string, body: string, der: bytes)

  /** No opening delimiter starts inside `gap` when one follows it. */
  predicate NoBeginIn(gap: string) {
    forall i :: 0 <= i < |gap| ==> !(OPENING <= (gap + OPENING)[i..])
  }

  predicate ValidPrinted(p: Printed) {
    p.der != [] && Strip(p.body) == Encode(p.der) && NoBeginIn(p.gap)
  }

  function PrintAll(ps: seq<Printed>, tail: string): string {
    if ps == [] then tail
    else ps[0].gap + (OPENING + ps[0].body + CLOSING + PrintAll(ps[1..], tail))
  }

  function Pems(ps: seq<Printed>): seq<string> {
    if ps == [] then [] else [PemOf(ps[0].der)] + Pems(ps[1..])
  }

  /**
   * Certificates printed by any tool - any whitespace in the bodies, any text between the blocks
   * that does not open one, such as a private key - are read back in order, each in its one text.
   */
  lemma {:induction false} BlocksOfPrinted(ps: seq<Printed>, tail: string)
    requires forall p :: p in ps ==> ValidPrinted(p)
    requires forall i :: 0 <= i < |tail| ==> !(OPENING <= tail[i..])
    ensures Blocks(PrintAll(ps, tail)) == Pems(ps)
  {
    hide Blocks, ValidPrinted, PemOf, NoBeginIn;
    if ps == [] {
      NoBlocks(tail);
    } else {
      var p, rest := ps[0], PrintAll(ps[1..], tail);
      PrintedParts(p);
      SkipGap(p.gap, p.body + CLOSING + rest);
      SameText(p.gap, p.body, rest);
      BlockRead(p.body, p.der, rest);
      assert forall q :: q in ps[1..] ==> q in ps;
      BlocksOfPrinted(ps[1..], tail);
    }
  }

  lemma PrintedParts(p: Printed)
    requires ValidPrinted(p)
    ensures p.der != [] && Strip(p.body) == Encode(p.der) && NoBeginIn(p.gap)
  {
  }

  lemma SameText(gap: string, body: string, rest: string)
    ensures gap + (OPENING + body + CLOSING + rest)
         == gap + (OPENING + (body + CLOSING + rest))
    ensures OPENING + (body + CLOSING + rest) == OPENING + body + CLOSING + rest
  {
  }

  lemma {:induction false} NoBlocks(t: string)
    requires forall i :: 0 <= i < |t| ==> !(OPENING <= t[i..])
    ensures Blocks(t) == []
  {
    if t != [] {
      assert t[0..] == t;
      assert forall i :: 0 <= i < |t| - 1 ==> t[1..][i..] == t[i + 1..];
      NoBlocks(t[1..]);
    }
  }

  lemma NoBlockHere(t: string)
    requires t != [] && !(OPENING <= t)
    ensures Blocks(t) == Blocks(t[1..])
  {
  }

  lemma NoBeginNext(gap: string)
    requires NoBeginIn(gap) && gap != []
    ensures NoBeginIn(gap[1..]) && !(OPENING <= gap + OPENING)
  {
    var near := gap + OPENING;
    assert near[0..] == near;
    assert forall i :: 0 <= i < |gap| - 1 ==> (gap[1..] + OPENING)[i..] == near[i + 1..];
  }

  lemma {:induction false} SkipGap(gap: string, rest: string)
    requires NoBeginIn(gap)
    ensures Blocks(gap + (OPENING + rest)) == Blocks(OPENING + rest)
  {
    hide Blocks, NoBeginIn;
    var t := gap + (OPENING + rest);
    if gap == [] {
      assert t == OPENING + rest;
    } else {
      NoBeginNext(gap);
      assert t == gap + OPENING + rest;
      PrefixWithin(OPENING, gap + OPENING, rest);
      NoBlockHere(t);
      assert t[1..] == gap[1..] + (OPENING + rest);
      SkipGap(gap[1..], rest);
    }
  }

  lemma PrefixWithin(p: string, s: string, t: string)
    requires |p| <= |s|
    ensures p <= s + t <==> p <= s
  {
    assert forall i :: 0 <= i < |p| ==> (s + t)[i] == s[i];
  }

  /** A printed block at the front is read as its certificate. */
  lemma BlockRead(body: string, der: bytes, rest: string)
    requires der != [] && Strip(body) == Encode(der)
    ensures Blocks(OPENING + body + CLOSING + rest) == [PemOf(der)] + Blocks(rest)
  {
    var t := OPENING + body + CLOSING + rest;
    BodyFound(body, der, rest);
    BodyRebuilt(body, der);
    assert t[BlockLength(body)..] == rest;
  }

  lemma BodyFound(body: string, der: bytes, rest: string)
    requires der != [] && Strip(body) == Encode(der)
    ensures BlockAt(OPENING + body + CLOSING + rest) == Some(body)
  {
    hide BodyRun, IsBodyChar, Strip, Encode;
    var t := OPENING + body + CLOSING + rest;
    var after := t[|OPENING|..];
    assert after == body + (CLOSING + rest);
    PrintedBodyChars(body, der);
    assert forall i :: 0 <= i < |body| ==> after[i] == body[i] && body[i] in body;
    ClosingDelimiter(CLOSING + rest);
    assert after[|body|] == (CLOSING + rest)[0];
    RunEnds(after, |body|);
    assert after[..|body|] == body && after[|body|..] == CLOSING + rest;
  }

  lemma PrintedBodyChars(body: string, der: bytes)
    requires der != [] && Strip(body) == Encode(der)
    ensures forall c :: c in body ==> IsBodyChar(c)
  {
    EncodedIsBody(der);
    BodyIsSolid(Encode(der));
    StripKeeps(body);
  }

  lemma BodyRebuilt(body: string, der: bytes)
    requires der != [] && Strip(body) == Encode(der)
    ensures NormaliseBase64(body) == Some(Encode(der)) && Rebuilt(body) == [PemOf(der)]
  {
    EncodedIsBody(der);
    DecodeEncode(der);
  }

  // ---- the canonical layout ----

  lemma {:induction false} JoinedLines(body: string)
    ensures Strip(Join(BodyLines(body), "\n")) == Strip(body)
    decreases |body|
  {
    hide Strip;
    if |body| > PEM_LINE_LENGTH {
      var line, rest := body[..PEM_LINE_LENGTH], body[PEM_LINE_LENGTH..];
      var lines := BodyLines(rest);
      assert BodyLines(body)[1..] == lines;
      assert Join(BodyLines(body), "\n") == line + "\n" + Join(lines, "\n");
      StripConcat(line + "\n", Join(lines, "\n"));
      StripConcat(line, "\n");
      LineEndsStrip();
      JoinedLines(rest);
      StripConcat(line, rest);
      assert line + rest == body;
    }
  }

  lemma LineEndsStrip()
    ensures Strip("\n") == Strip("\r") == Strip("") == ""
  {
    assert "\n"[1..] == "" && "\r"[1..] == "";
  }

  lemma WrappedStrips(der: bytes)
    ensures Strip(WrappedBody(der)) == Encode(der)
  {
    var joined := Join(BodyLines(Encode(der)), "\n");
    StripConcat("\n" + joined, "\n");
    StripConcat("\n", joined);
    JoinedLines(Encode(der));
    if der != [] {
      EncodedIsBody(der);
      BodyIsSolid(Encode(der));
    }
  }

  /** The lines of a body joined: every 65th character ends a line and the others are the body's, in order. */
  lemma {:induction false} LinesAt(body: string, i: nat)
    requires body != "" && i < |body| + (|body| - 1) / 64
    ensures |Join(BodyLines(body), "\n")| == |body| + (|body| - 1) / 64
    ensures i - i / 65 < |body|
    ensures Join(BodyLines(body), "\n")[i] == if i % 65 == 64 then '\n' else body[i - i / 65]
    decreases |body|
  {
    if |body| > 64 {
      var rest := body[64..];
      var lines := BodyLines(rest);
      assert BodyLines(body)[1..] == lines;
      var text := Join(lines, "\n");
      assert Join(BodyLines(body), "\n") == body[..64] + "\n" + text;
      LinesAt(rest, if i < 65 then 0 else i - 65);
    }
  }

  /** The body in lines of sixty-four characters, of which only the last can be shorter. */
  ghost predicate InLines(text: string, body: string) {
    && |text| == |body| + (|body| - 1) / 64
    && forall i :: 0 <= i < |text| ==> i - i / 65 < |body| && text[i] == if i % 65 == 64 then '\n' else body[i - i / 65]
  }

  lemma JoinedInLines(body: string)
    requires body != ""
    ensures InLines(Join(BodyLines(body), "\n"), body)
  {
    hide Join, BodyLines;
    LinesAt(body, 0);
    forall i | 0 <= i < |Join(BodyLines(body), "\n")|
      ensures i - i / 65 < |body| && Join(BodyLines(body), "\n")[i] == if i % 65 == 64 then '\n' else body[i - i / 65]
    {
      LinesAt(body, i);
    }
  }

  /** The one layout of a certificate: its base64 digits in lines between the two boundaries. */
  lemma TextIs(der: bytes) returns (lines: string)
    requires der != []
    ensures PemOf(der) == OPENING + ("\n" + lines + "\n") + CLOSING + "\n"
    ensures InLines(lines, Encode(der))
  {
    hide Join, BodyLines, Encode, InLines;
    lines := Join(BodyLines(Encode(der)), "\n");
    assert Encode(der) != "";
    JoinedInLines(Encode(der));
  }

  /** Different certificates have different texts. */
  lemma PemOfInjective(a: bytes, b: bytes)
    requires PemOf(a) == PemOf(b)
    ensures a == b
  {
    var p := PemOf(a);
    var head, foot := |OPENING|, |CLOSING| + 1;
    assert p[head..|p| - foot] == WrappedBody(a);
    assert PemOf(b)[head..|p| - foot] == WrappedBody(b);
    WrappedStrips(a);
    WrappedStrips(b);
    EncodeInjective(a, b);
  }

  function Concat(texts: seq<string>): string {
    if texts == [] then [] else texts[0] + Concat(texts[1..])
  }

  ghost predicate AllCanonical(pems: seq<string>) {
    forall p :: p in pems ==> IsCanonical(p)
  }

  ghost predicate IsCanonical(pem: string) {
    exists der: bytes :: der != [] && pem == PemOf(der)
  }

  /** Everything the scanner returns is the one text of some certificate bytes. */
  lemma {:induction false} BlocksAreCanonical(t: string)
    ensures AllCanonical(Blocks(t))
    decreases |t|
  {
    if t != [] {
      match BlockAt(t) {
        case Some(body) =>
          BlocksAreCanonical(t[BlockLength(body)..]);
          var normal := NormaliseBase64(body);
          if normal.Some? {
            assert Decode(normal.value) != [];
          }
        case None =>
          BlocksAreCanonical(t[1..]);
      }
    }
  }

  lemma {:induction false} CanonicalReadsBack(pems: seq<string>)
    requires AllCanonical(pems)
    ensures Blocks(Concat(pems)) == pems
  {
    hide Blocks, PemOf;
    if pems == [] {
      assert Concat(pems) == "";
      NoBlocks("");
    } else {
      var rest := Concat(pems[1..]);
      assert forall p :: p in pems[1..] ==> p in pems;
      assert pems[0] in pems && IsCanonical(pems[0]);
      var der: bytes :| der != [] && pems[0] == PemOf(der);
      CanonicalRead(der, rest);
      CanonicalReadsBack(pems[1..]);
    }
  }

  lemma CanonicalRead(der: bytes, rest: string)
    requires der != []
    ensures Blocks(PemOf(der) + rest) == [PemOf(der)] + Blocks(rest)
  {
    var body := WrappedBody(der);
    assert PemOf(der) + rest == OPENING + body + CLOSING + ("\n" + rest);
    WrappedStrips(der);
    BlockRead(body, der, "\n" + rest);
    assert ("\n" + rest)[1..] == rest;
  }

  /** Reading what was read: on any text, scanning the scanner's own output changes nothing. */
  lemma BlocksIdempotent(t: string)
    ensures Blocks(Concat(Blocks(t))) == Blocks(t)
  {
    BlocksAreCanonical(t);
    CanonicalReadsBack(Blocks(t));
  }

  // ---- the two stdout formats agree ----

  /** One certificate on a line of base64, ended by a newline with or without a return. */
  datatype Line = Line(text: string, crlf: bool, der: bytes)

  predicate ValidLine(line: Line) {
    line.der != [] && '\n' !in line.text && Strip(line.text) == Encode(line.der)
  }

  function PrintLines(lines: seq<Line>): string {
    if lines == [] then []
    else lines[0].text + (if lines[0].crlf then "\r\n" else "\n") + PrintLines(lines[1..])
  }

  function LineDers(lines: seq<Line>): seq<bytes> {
    if lines == [] then [] else [lines[0].der] + LineDers(lines[1..])
  }

  function PrintedDers(ps: seq<Printed>): seq<bytes> {
    if ps == [] then [] else [ps[0].der] + PrintedDers(ps[1..])
  }

  function PemsOf(ders: seq<bytes>): seq<string> {
    if ders == [] then [] else [PemOf(ders[0])] + PemsOf(ders[1..])
  }

  lemma {:induction false} LinesRead(lines: seq<Line>)
    requires forall l :: l in lines ==> ValidLine(l)
    ensures StdoutPems(Base64DerLines, PrintLines(lines)) == PemsOf(LineDers(lines))
  {
    hide ValidLine, LinePem, LinesPems, SplitLines, DropReturn, PemOf;
    if lines == [] {
      NoLines();
    } else {
      var line, rest := lines[0], PrintLines(lines[1..]);
      assert line in lines && forall l :: l in lines[1..] ==> l in lines;
      var ended := line.text + if line.crlf then "\r" else "";
      assert PrintLines(lines) == ended + "\n" + rest;
      LineSplits(line, ended, rest);
      LinesPemsCons(DropReturn(ended), SplitLines(rest));
      EndedLineRead(line, ended);
      LinesRead(lines[1..]);
    }
  }

  /** Lines are read one by one: each gives what its own base64 gives, and one that is no base64 gives nothing. */
  lemma {:induction false} LinesAreSeparate(lines: seq<string>, line: string, more: seq<string>)
    ensures LinesPems(lines + [line] + more) == LinesPems(lines) + TextOfBody(line) + LinesPems(more)
  {
    hide LinePem, TextOfBody;
    if lines == [] {
      assert [] + [line] + more == [line] + more;
      LinesPemsCons(line, more);
      LineGives(line);
    } else {
      assert (lines + [line] + more)[1..] == lines[1..] + [line] + more;
      LinesAreSeparate(lines[1..], line, more);
    }
  }

  lemma LineGives(line: string)
    ensures LinePem(line) == TextOfBody(line)
  {
  }

  lemma NoLines()
    ensures LinesPems(SplitLines("")) == []
  {
    assert SplitLines("") == [""];
    assert LinePem("") == [];
    LinesPemsCons("", []);
  }

  lemma LinesPemsCons(line: string, rest: seq<string>)
    ensures LinesPems([line] + rest) == LinePem(line) + LinesPems(rest) && LinesPems([]) == []
  {
    hide LinePem;
    assert ([line] + rest)[1..] == rest;
  }

  /** A valid line's text ends at its newline. */
  lemma LineSplits(line: Line, ended: string, rest: string)
    requires ValidLine(line) && ended == line.text + if line.crlf then "\r" else ""
    ensures SplitLines(ended + "\n" + rest) == [DropReturn(ended)] + SplitLines(rest)
  {
    hide Strip, Encode, DropReturn;
    var t := ended + "\n" + rest;
    IndexOfUnique(t, '\n', |ended|);
    assert t[..|ended|] == ended && t[|ended| + 1..] == rest;
  }

  lemma EndedLineRead(line: Line, ended: string)
    requires ValidLine(line) && ended == line.text + if line.crlf then "\r" else ""
    ensures LinePem(DropReturn(ended)) == [PemOf(line.der)]
  {
    hide PemOf, Encode, Strip;
    var piece := DropReturn(ended);
    LineEndsStrip();
    StripConcat(line.text, if line.crlf then "\r" else "");
    if piece != ended {
      StripConcat(piece, "\r");
      assert ended == piece + "\r";
    }
    assert Strip(line.text) + "" == Strip(line.text) && Strip(piece) + "" == Strip(piece);
    BodyRebuilt(piece, line.der);
  }

  lemma {:induction false} PemsOfPrinted(ps: seq<Printed>)
    ensures Pems(ps) == PemsOf(PrintedDers(ps))
  {
    if ps != [] {
      PemsOfPrinted(ps[1..]);
    }
  }

  /** The same certificates give the same strings whichever of the two formats printed them. */
  lemma FormatsAgree(lines: seq<Line>, ps: seq<Printed>, tail: string)
    requires forall l :: l in lines ==> ValidLine(l)
    requires forall p :: p in ps ==> ValidPrinted(p)
    requires forall i :: 0 <= i < |tail| ==> !(OPENING <= tail[i..])
    requires LineDers(lines) == PrintedDers(ps)
    ensures StdoutPems(Base64DerLines, PrintLines(lines)) == StdoutPems(PemStream, PrintAll(ps, tail))
  {
    LinesRead(lines);
    BlocksOfPrinted(ps, tail);
    PemsOfPrinted(ps);
  }
}
