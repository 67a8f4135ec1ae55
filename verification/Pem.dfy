/** Certificates as text (src/net/pem.ts), and what a store reader makes of its stdout. */
module Pem {
  import opened Wrappers
  import opened Bits
  import opened Text
  import opened Base64

  const PEM_LINE_LENGTH: nat := 64
  const BEGIN_CERTIFICATE: string := "-----BEGIN CERTIFICATE-----"
  const END_CERTIFICATE: string := "-----END CERTIFICATE-----"

  /** The class `[A-Za-z0-9+/=\s]` of a block's body. */
  predicate IsBodyChar(c: char) {
    IsDigit(c) || c == '=' || IsSpace(c)
  }

  /** Base64 with no whitespace and correct padding, or nothing. */
  function NormaliseBase64(text: string): (r: Option<string>)
    ensures r.Some? ==> IsBody(r.value) && |r.value| % 4 == 0 && r.value == Strip(text)
  {
    var body := Strip(text);
    if |body| == 0 || |body| % 4 != 0 then None
    else if !IsBody(body) then None
    else Some(body)
  }

  // ---- printing ----

  /** The body cut into lines of 64, the last one possibly shorter. */
  function BodyLines(body: string): seq<string>
    decreases |body|
  {
    if body == [] then []
    else if |body| <= PEM_LINE_LENGTH then [body]
    else [body[..PEM_LINE_LENGTH]] + BodyLines(body[PEM_LINE_LENGTH..])
  }

  /** What stands between the delimiters of a certificate's own block. */
  function WrappedBody(der: bytes): string {
    "\n" + Join(BodyLines(Encode(der)), "\n") + "\n"
  }

  /** The one text of a certificate. */
  function PemOf(der: bytes): string {
    BEGIN_CERTIFICATE + WrappedBody(der) + END_CERTIFICATE + "\n"
  }

  function Least(a: nat, b: nat): nat {
    if a < b then a else b
  }

  /** The lines of a body from `offset` are one line of 64, or what is left, and the lines after it. */
  lemma OneMoreBodyLine(lines: seq<string>, body: string, offset: nat)
    requires offset < |body|
    ensures var end := Least(offset + PEM_LINE_LENGTH, |body|);
      lines + BodyLines(body[offset..]) == lines + [body[offset..end]] + BodyLines(body[end..])
  {
    var end := Least(offset + PEM_LINE_LENGTH, |body|);
    var rest := body[offset..];
    if |rest| <= PEM_LINE_LENGTH {
      assert body[offset..end] == rest && body[end..] == [];
    } else {
      assert body[offset..end] == rest[..PEM_LINE_LENGTH] && body[end..] == rest[PEM_LINE_LENGTH..];
    }
  }

  lemma NoBodyLines()
    ensures BodyLines([]) == []
  {
  }

  method DerToPem(der: bytes) returns (pem: string)
    ensures pem == PemOf(der)
  {
    hide Encode, BodyLines, Join;
    var body := Encode(der);
    var lines: seq<string> := [];
    var offset := 0;
    assert body[0..] == body && lines + BodyLines(body) == BodyLines(body);
    while offset < |body|
      invariant BodyLines(body) == lines + BodyLines(body[Least(offset, |body|)..])
    {
      var end := Least(offset + PEM_LINE_LENGTH, |body|);
      OneMoreBodyLine(lines, body, offset);
      lines := lines + [body[offset..end]];
      offset := offset + PEM_LINE_LENGTH;
    }
    NoBodyLines();
    assert body[|body|..] == [] && lines + [] == lines;
    pem := BEGIN_CERTIFICATE + ("\n" + Join(lines, "\n") + "\n") + END_CERTIFICATE + "\n";
  }

  // ---- scanning ----

  /** How many body characters the text starts with. */
  function BodyRun(t: string): (n: nat)
    ensures n <= |t| && (forall i :: 0 <= i < n ==> IsBodyChar(t[i])) && (n < |t| ==> !IsBodyChar(t[n]))
  {
    if t == [] || !IsBodyChar(t[0]) then 0 else 1 + BodyRun(t[1..])
  }

  /** The body of the block the text starts with, if it starts with one. */
  function BlockAt(t: string): (r: Option<string>)
    ensures r.Some? ==> BlockLength(r.value) <= |t|
  {
    if !(BEGIN_CERTIFICATE <= t) then None
    else
      var rest := t[|BEGIN_CERTIFICATE|..];
      var n := BodyRun(rest);
      if END_CERTIFICATE <= rest[n..] then Some(rest[..n]) else None
  }

  function BlockLength(body: string): nat {
    |BEGIN_CERTIFICATE| + |body| + |END_CERTIFICATE|
  }

  /** A block's text rebuilt in the one layout, or nothing when its body is not base64. */
  function Rebuilt(body: string): seq<string> {
    var normal := NormaliseBase64(body);
    if normal.None? then [] else [PemOf(Decode(normal.value))]
  }

  /** Every block in order: the leftmost match is taken and the scan resumes after it. */
  function Blocks(t: string): seq<string>
    decreases |t|
  {
    if t == [] then []
    else
      match BlockAt(t)
      case Some(body) => Rebuilt(body) + Blocks(t[BlockLength(body)..])
      case None => Blocks(t[1..])
  }

  /** One step of the scan at `pos`. */
  lemma NextBlock(blocks: seq<string>, text: string, pos: nat)
    requires pos < |text|
    ensures var found := BlockAt(text[pos..]);
      && (found.None? ==> blocks + Blocks(text[pos..]) == blocks + Blocks(text[pos + 1..]))
      && (found.Some? ==>
            && pos + BlockLength(found.value) <= |text|
            && blocks + Blocks(text[pos..]) == blocks + Rebuilt(found.value) + Blocks(text[pos + BlockLength(found.value)..])
            && blocks + [] == blocks)
  {
    hide BlockAt, Rebuilt;
    var rest := text[pos..];
    var found := BlockAt(rest);
    if found.Some? {
      assert rest[BlockLength(found.value)..] == text[pos + BlockLength(found.value)..];
    } else {
      assert rest[1..] == text[pos + 1..];
    }
  }

  lemma NothingToScan()
    ensures Blocks("") == []
  {
  }

  method PemBlocks(text: string) returns (blocks: seq<string>)
    ensures blocks == Blocks(text)
  {
    hide BlockAt, NormaliseBase64, PemOf, Decode, Blocks;
    blocks := [];
    var pos := 0;
    assert text[0..] == text && [] + Blocks(text) == Blocks(text);
    while pos < |text|
      invariant pos <= |text|
      invariant Blocks(text) == blocks + Blocks(text[pos..])
    {
      NextBlock(blocks, text, pos);
      match BlockAt(text[pos..]) {
        case Some(matched) =>
          pos := pos + BlockLength(matched);
          var body := NormaliseBase64(matched);
          if body.None? { continue; }
          var block := DerToPem(Decode(body.value));
          blocks := blocks + [block];
        case None =>
          pos := pos + 1;
      }
    }
    assert text[pos..] == [];
    NothingToScan();
    assert blocks + [] == blocks;
  }

  // ---- a reader's stdout ----

  datatype Format = PemStream | Base64DerLines

  function LinePem(line: string): seq<string> {
    var body := NormaliseBase64(line);
    if body.None? then [] else [PemOf(Decode(body.value))]
  }

  function LinesPems(lines: seq<string>): seq<string> {
    if lines == [] then [] else LinePem(lines[0]) + LinesPems(lines[1..])
  }

  function StdoutPems(format: Format, stdout: string): seq<string> {
    match format
    case PemStream => Blocks(stdout)
    case Base64DerLines => LinesPems(SplitLines(stdout))
  }

  lemma OneMoreLine(pems: seq<string>, lines: seq<string>, i: nat)
    requires i < |lines|
    ensures pems + LinesPems(lines[i..]) == pems + LinePem(lines[i]) + LinesPems(lines[i + 1..])
    ensures LinePem(lines[i]) == [] ==> pems + LinePem(lines[i]) == pems
  {
    hide LinePem;
    assert lines[i..][1..] == lines[i + 1..];
  }

  lemma NoMoreLines(pems: seq<string>, lines: seq<string>)
    ensures pems + LinesPems(lines[|lines|..]) == pems
  {
    assert lines[|lines|..] == [];
  }

  method ParseStdout(format: Format, stdout: string) returns (pems: seq<string>)
    ensures pems == StdoutPems(format, stdout)
  {
    hide NormaliseBase64, PemOf, Decode, SplitLines, Blocks, LinesPems;
    if format == PemStream {
      pems := PemBlocks(stdout);
      return;
    }
    pems := [];
    var lines := SplitLines(stdout);
    assert lines[0..] == lines;
    for i := 0 to |lines|
      invariant LinesPems(lines) == pems + LinesPems(lines[i..])
    {
      OneMoreLine(pems, lines, i);
      var body := NormaliseBase64(lines[i]);
      if body.None? { continue; }
      var pem := DerToPem(Decode(body.value));
      pems := pems + [pem];
    }
    NoMoreLines(pems, lines);
  }
}
