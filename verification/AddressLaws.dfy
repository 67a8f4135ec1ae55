/** Which texts are addresses, what they mean, and that every spelling of one means the same. */
module AddressLaws {
  import opened Wrappers
  import opened Bits
  import opened Text
  import opened Decimals
  import opened Addresses

  // ---- dotted quads are read exactly in canonical print ----

  predicate IsIpv4(q: Ipv4) {
    q.a <= 255 && q.b <= 255 && q.c <= 255 && q.d <= 255
  }

  function DottedParts(q: Ipv4): seq<string> {
    [Decimal(q.a), Decimal(q.b), Decimal(q.c), Decimal(q.d)]
  }

  function Dotted(q: Ipv4): string {
    Join(DottedParts(q), ".")
  }

  lemma OctetLength(n: nat)
    requires n <= 255
    ensures |Decimal(n)| <= 3
  {
    assert |Decimal(n / 10 / 10)| == 1;
    assert |Decimal(n / 10)| <= 2;
  }

  lemma OctetRead(part: string)
    requires IsOctetText(part)
    ensures Decimal(DecValue(part)) == part
  {
    assert part == "0" ==> part[0] == '0';
    NumeralRead(part);
  }

  lemma DecimalShape(n: nat)
    requires n <= 255
    ensures IsOctetText(Decimal(n)) && DecValue(Decimal(n)) == n
  {
    NumeralPrinted(n);
    OctetLength(n);
    if |Decimal(n)| == 1 && Decimal(n)[0] == '0' {
      assert Decimal(n) == "0";
    }
  }

  lemma {:induction false} OctetsMean(parts: seq<string>, values: seq<nat>)
    ensures Octets(parts) == Some(values) <==>
      |parts| == |values| && forall i :: 0 <= i < |parts| ==> values[i] <= 255 && parts[i] == Decimal(values[i])
  {
    hide IsOctetText, DecValue, Decimal;
    if parts != [] && |parts| == |values| {
      var last, value := parts[|parts| - 1], values[|values| - 1];
      OctetsMean(parts[..|parts| - 1], values[..|values| - 1]);
      assert values == values[..|values| - 1] + [value];
      if IsOctetText(last) {
        OctetRead(last);
      }
      if value <= 255 {
        DecimalShape(value);
      }
    }
  }

  /** A text reads as a dotted quad exactly when it is the canonical decimal print of one. */
  lemma Ipv4IsCanonical(text: string, q: Ipv4)
    ensures Ipv4Of(text) == Some(q) <==> IsIpv4(q) && text == Dotted(q)
  {
    hide Octets, SplitOn, Join, Decimal;
    var parts := SplitOn(text, '.');
    JoinOfSplit(text, '.');
    OctetsMean(parts, [q.a, q.b, q.c, q.d]);
    if IsIpv4(q) && text == Dotted(q) {
      DottedPartsPlain(q);
      SplitOfJoin(DottedParts(q), '.');
    }
    if Ipv4Of(text) == Some(q) {
      var octets := Octets(parts).value;
      assert octets == [q.a, q.b, q.c, q.d];
      assert parts == DottedParts(q);
    }
  }

  lemma OctetPlain(n: nat)
    requires n <= 255
    ensures '.' !in Decimal(n) && ':' !in Decimal(n)
  {
    hide Decimal, DecValue;
    DecimalShape(n);
  }

  lemma DottedPartsPlain(q: Ipv4)
    requires IsIpv4(q)
    ensures forall p :: p in DottedParts(q) ==> '.' !in p && ':' !in p
  {
    hide Decimal;
    OctetPlain(q.a);
    OctetPlain(q.b);
    OctetPlain(q.c);
    OctetPlain(q.d);
  }

  // ---- hexadecimal tokens ----

  predicate AllGroupTexts(tokens: seq<string>) {
    forall t :: t in tokens ==> IsGroupText(t)
  }

  /** The values of a list of tokens. */
  function Values(tokens: seq<string>): (r: seq<nat>)
    requires AllGroupTexts(tokens)
    ensures |r| == |tokens|
  {
    if tokens == [] then []
    else
      assert tokens[|tokens| - 1] in tokens && forall t :: t in tokens[..|tokens| - 1] ==> t in tokens;
      Values(tokens[..|tokens| - 1]) + [HexValue(tokens[|tokens| - 1])]
  }

  lemma {:induction false} GroupsInMeans(tokens: seq<string>)
    ensures GroupsIn(tokens).Some? <==> AllGroupTexts(tokens)
    ensures AllGroupTexts(tokens) ==> GroupsIn(tokens) == Some(Values(tokens))
  {
    hide HexValue, IsGroupText;
    if tokens != [] {
      var init, last := tokens[..|tokens| - 1], tokens[|tokens| - 1];
      assert tokens == init + [last];
      GroupsInMeans(init);
      assert forall t :: t in tokens <==> t in init || t == last;
    }
  }

  /** A segment reads as groups exactly when it is a colon-joined list of tokens. */
  lemma SegmentMeans(segment: string)
    ensures HexGroups(segment).Some? <==> exists tokens :: AllGroupTexts(tokens) && segment == Join(tokens, ":")
    ensures forall tokens :: AllGroupTexts(tokens) && segment == Join(tokens, ":") ==> HexGroups(segment) == Some(Values(tokens))
  {
    hide GroupsIn, SplitOn, Values, IsGroupText, Join;
    JoinEmpty();
    var split := SplitOn(segment, ':');
    JoinOfSplit(segment, ':');
    GroupsInMeans(split);
    GroupsInMeans([]);
    if segment == "" {
      assert AllGroupTexts([]) && segment == Join([], ":");
    } else if HexGroups(segment).Some? {
      assert AllGroupTexts(split) && segment == Join(split, ":");
    }
    forall tokens | AllGroupTexts(tokens) && segment == Join(tokens, ":") ensures HexGroups(segment) == Some(Values(tokens)) {
      if tokens == [] {
        ValuesOfNone();
      } else {
        TokensPlain(tokens);
        SplitOfJoin(tokens, ':');
        JoinSolid(tokens);
      }
    }
  }

  lemma JoinEmpty()
    ensures Join([], ":") == ""
  {
  }

  lemma ValuesOfNone()
    ensures Values([]) == []
  {
  }

  lemma TokensPlain(tokens: seq<string>)
    requires AllGroupTexts(tokens)
    ensures forall t :: t in tokens ==> t != "" && ':' !in t && '.' !in t
  {
  }

  /** No two colons stand together. */
  ghost predicate NoGap(s: string) {
    forall j :: 0 <= j && j + 1 < |s| ==> !(s[j] == ':' && s[j + 1] == ':')
  }

  /** A joined list of tokens neither starts nor ends with a colon, and has no gap in it. */
  lemma {:induction false} JoinSolid(tokens: seq<string>)
    requires AllGroupTexts(tokens)
    ensures var s := Join(tokens, ":");
      && NoGap(s) && '.' !in s && (tokens != [] ==> s != "" && s[0] != ':' && s[|s| - 1] != ':')
  {
    hide IsGroupText;
    TokensPlain(tokens);
    if tokens == [] {
    } else if |tokens| == 1 {
      assert tokens[0] in tokens;
      NoGapPlain(tokens[0]);
    } else {
      var first, rest := tokens[0], tokens[1..];
      assert first in tokens && forall t :: t in rest ==> t in tokens;
      JoinSolid(rest);
      SolidJoined(first, Join(rest, ":"));
    }
  }

  lemma NoGapPlain(s: string)
    requires ':' !in s
    ensures NoGap(s)
  {
  }

  lemma SolidJoined(first: string, rest: string)
    requires first != "" && ':' !in first && '.' !in first
    requires NoGap(rest) && '.' !in rest && rest != "" && rest[0] != ':' && rest[|rest| - 1] != ':'
    ensures var s := first + ":" + rest;
      NoGap(s) && '.' !in s && s != "" && s[0] != ':' && s[|s| - 1] != ':'
  {
    var s := first + ":" + rest;
    assert s[0] == first[0] && first[0] in first;
    forall j | 0 <= j && j + 1 < |s| ensures !(s[j] == ':' && s[j + 1] == ':') {
      if j < |first| {
        assert s[j] == first[j] && first[j] in first;
      } else if j > |first| {
        assert s[j] == rest[j - |first| - 1] && s[j + 1] == rest[j - |first|];
      }
    }
  }

  // ---- cutting at the gap ----

  /** A text without a gap is one part; with one gap between texts that cannot make another, two. */
  lemma CutAtGap(head: string, tail: string)
    requires NoGap(head) && NoGap(tail) && (head != "" ==> head[|head| - 1] != ':')
    ensures SplitAtGaps(head) == [head]
    ensures SplitAtGaps(head + "::" + tail) == [head, tail]
  {
    NoGapOnePart(head);
    NoGapOnePart(tail);
    var s := head + "::" + tail;
    assert s[|head|] == ':' && s[|head| + 1] == ':';
    forall j | 0 <= j < |head| ensures !(s[j] == ':' && s[j + 1] == ':') {
      assert s[j] == head[j];
      assert j + 1 < |head| ==> s[j + 1] == head[j + 1];
    }
    var i := GapAt(s, 0);
    assert i == |head|;
    assert s[..i] == head && s[i + 2..] == tail;
  }

  lemma NoGapOnePart(s: string)
    requires NoGap(s)
    ensures SplitAtGaps(s) == [s]
  {
    assert GapAt(s, 0) == |s|;
  }

  /** The parts around the gaps, joined, are the text; and only the last of them can hold a gap: it does not. */
  lemma PartsRejoin(s: string)
    ensures var parts := SplitAtGaps(s);
      && (|parts| == 1 ==> parts[0] == s)
      && (|parts| == 2 ==> s == parts[0] + "::" + parts[1])
  {
    var i := GapAt(s, 0);
    if i < |s| {
      assert s == s[..i] + "::" + s[i + 2..];
      var j := GapAt(s[i + 2..], 0);
    }
  }

  // ---- spellings ----

  /**
   * A way to write an address: tokens before the gap, tokens after it when there is a gap, and a
   * dotted quad after the last of them.
   */
  datatype Spelling = Spelling(head: seq<string>, tail: Option<seq<string>>, dotted: Option<Ipv4>)

  /** What stands at the very end of a list of tokens. */
  function Ending(sp: Spelling): seq<string> {
    if sp.dotted.Some? then [Dotted(sp.dotted.value)] else []
  }

  function Render(sp: Spelling): string {
    if sp.tail.None? then Join(sp.head + Ending(sp), ":")
    else Join(sp.head, ":") + "::" + Join(sp.tail.value + Ending(sp), ":")
  }

  function DottedGroups(sp: Spelling): seq<nat> {
    if sp.dotted.None? then []
    else [sp.dotted.value.a * 256 + sp.dotted.value.b, sp.dotted.value.c * 256 + sp.dotted.value.d]
  }

  /** The tokens are one to four hexadecimal digits, and the groups come to eight; a gap stands for at least one. */
  predicate IsSpelling(sp: Spelling) {
    && AllGroupTexts(sp.head) && (sp.tail.Some? ==> AllGroupTexts(sp.tail.value))
    && (sp.dotted.Some? ==> IsIpv4(sp.dotted.value))
    && var written := |sp.head| + (if sp.tail.Some? then |sp.tail.value| else 0) + if sp.dotted.Some? then 2 else 0;
      if sp.tail.None? then written == 8 else written <= 7
  }

  /** The eight groups a spelling stands for: zeros fill the gap. */
  function Meaning(sp: Spelling): (r: seq<nat>)
    requires IsSpelling(sp)
    ensures |r| == 8
  {
    if sp.tail.None? then Values(sp.head) + DottedGroups(sp)
    else
      var after := Values(sp.tail.value) + DottedGroups(sp);
      Values(sp.head) + Zeros(8 - |sp.head| - |after|) + after
  }

  // ---- texts without a dotted quad ----

  /** A body reads as groups exactly when it renders an undotted spelling, and then as its meaning. */
  lemma BodyOfSpelling(sp: Spelling)
    requires IsSpelling(sp) && sp.dotted.None?
    ensures GroupsOf(Render(sp)) == Some(Meaning(sp))
  {
    hide SplitAtGaps, HexGroups, Values, IsGroupText, Join, NoGap, Dotted;
    var head := Join(sp.head, ":");
    assert sp.head + [] == sp.head && Values(sp.head) + [] == Values(sp.head);
    SolidOrEmpty(sp.head);
    SegmentMeans(head);
    if sp.tail.None? {
      CutAtGap(head, "");
    } else {
      var tail := Join(sp.tail.value, ":");
      assert sp.tail.value + [] == sp.tail.value && Values(sp.tail.value) + [] == Values(sp.tail.value);
      SolidOrEmpty(sp.tail.value);
      SegmentMeans(tail);
      CutAtGap(head, tail);
    }
  }

  lemma SolidOrEmpty(tokens: seq<string>)
    requires AllGroupTexts(tokens)
    ensures var s := Join(tokens, ":");
      NoGap(s) && NoGap("") && (s != "" ==> s[|s| - 1] != ':')
  {
    hide IsGroupText;
    JoinSolid(tokens);
    JoinEmpty();
  }

  lemma SpellingOfBody(body: string) returns (sp: Spelling)
    requires GroupsOf(body).Some?
    ensures IsSpelling(sp) && sp.dotted.None? && body == Render(sp) && GroupsOf(body) == Some(Meaning(sp))
  {
    hide SplitAtGaps, HexGroups, Values, IsGroupText, Join;
    var halves := SplitAtGaps(body);
    PartsRejoin(body);
    SegmentMeans(halves[0]);
    var head :| AllGroupTexts(head) && halves[0] == Join(head, ":");
    assert head + [] == head;
    if |halves| == 1 {
      sp := Spelling(head, None, None);
    } else {
      SegmentMeans(halves[1]);
      var tail :| AllGroupTexts(tail) && halves[1] == Join(tail, ":");
      assert tail + [] == tail;
      sp := Spelling(head, Some(tail), None);
    }
    BodyOfSpelling(sp);
  }

  // ---- a dotted tail is two groups ----

  lemma HexValueGrows(s: string, c: char)
    requires IsHexDigit(c) && forall i :: 0 <= i < |s| ==> IsHexDigit(s[i])
    ensures HexValue(s + [c]) == HexValue(s) * 16 + HexDigitValue(c)
    ensures HexValue("") == 0
  {
    assert (s + [c])[..|s|] == s;
  }

  lemma {:induction false} HexPrinted(n: nat)
    ensures Hex(n) != "" && (forall i :: 0 <= i < |Hex(n)| ==> IsHexDigit(Hex(n)[i])) && HexValue(Hex(n)) == n
  {
    hide HexValue, HexDigit, IsHexDigit, HexDigitValue;
    var c := HexDigit(n % 16);
    if n < 16 {
      assert Hex(n) == "" + [c];
      HexValueGrows("", c);
    } else {
      HexPrinted(n / 16);
      var init := Hex(n / 16);
      assert Hex(n) == init + [c];
      HexValueGrows(init, c);
    }
  }

  lemma HexShape(n: nat)
    requires n < 0x1_0000
    ensures IsGroupText(Hex(n)) && HexValue(Hex(n)) == n
  {
    HexPrinted(n);
    assert |Hex(n / 16 / 16 / 16)| == 1;
    assert |Hex(n / 16 / 16)| <= 2;
    assert |Hex(n / 16)| <= 3;
  }

  /** Shifted and or-ed, two octets are one group. */
  lemma HighLowIs(q: Ipv4)
    requires IsIpv4(q)
    ensures HighLow(q) == Hex(q.a * 256 + q.b) + ":" + Hex(q.c * 256 + q.d)
  {
    hide Hex;
    OctetPair(q.a, q.b);
    OctetPair(q.c, q.d);
  }

  lemma OctetPair(a: nat, b: nat)
    requires a <= 255 && b <= 255
    ensures Or(ShiftLeft(a, 8), b) == a * 256 + b
  {
    hide Or;
    ScaleByBytes(1);
    ScaleByBytes(a);
    OrDisjoint(a, 8, b);
  }

  function PairTokens(q: Ipv4): seq<string> {
    [Hex(q.a * 256 + q.b), Hex(q.c * 256 + q.d)]
  }

  lemma PairTokensAre(q: Ipv4)
    requires IsIpv4(q)
    ensures AllGroupTexts(PairTokens(q)) && Values(PairTokens(q)) == [q.a * 256 + q.b, q.c * 256 + q.d]
  {
    hide Hex, IsGroupText, HexValue;
    HexShape(q.a * 256 + q.b);
    HexShape(q.c * 256 + q.d);
    var pair := PairTokens(q);
    assert pair[..1] == [pair[0]] && pair[..1][..0] == [];
    assert Values(pair[..1]) == [HexValue(pair[0])];
  }

  lemma {:induction false} ValuesConcat(a: seq<string>, b: seq<string>)
    requires AllGroupTexts(a) && AllGroupTexts(b)
    ensures AllGroupTexts(a + b) && Values(a + b) == Values(a) + Values(b)
    decreases |b|
  {
    hide IsGroupText, HexValue;
    if b == [] {
      assert a + b == a;
    } else {
      var init := b[..|b| - 1];
      assert b == init + [b[|b| - 1]];
      assert forall t :: t in init ==> t in b;
      ValuesConcat(a, init);
      assert (a + b)[..|a + b| - 1] == a + init;
    }
  }

  /** The spelling with its dotted quad written as two tokens. */
  function Expanded(sp: Spelling): Spelling {
    if sp.dotted.None? then sp
    else if sp.tail.None? then Spelling(sp.head + PairTokens(sp.dotted.value), None, None)
    else Spelling(sp.head, Some(sp.tail.value + PairTokens(sp.dotted.value)), None)
  }

  lemma ExpandedMeans(sp: Spelling)
    requires IsSpelling(sp)
    ensures IsSpelling(Expanded(sp)) && Meaning(Expanded(sp)) == Meaning(sp)
  {
    hide Values, PairTokens, IsGroupText;
    if sp.dotted.Some? {
      var q := sp.dotted.value;
      PairTokensAre(q);
      ValuesConcat(if sp.tail.None? then sp.head else sp.tail.value, PairTokens(q));
    }
  }

  /** A list of tokens, each with a colon after it. */
  function JoinOpen(tokens: seq<string>): string {
    if tokens == [] then "" else Join(tokens, ":") + ":"
  }

  lemma {:induction false} JoinLast(tokens: seq<string>, last: string)
    ensures Join(tokens + [last], ":") == JoinOpen(tokens) + last
  {
    if tokens != [] {
      var rest := tokens[1..];
      JoinLast(rest, last);
      assert (tokens + [last])[1..] == rest + [last];
      if rest != [] {
        assert Join(tokens, ":") == tokens[0] + ":" + Join(rest, ":");
      }
    } else {
      assert tokens + [last] == [last];
    }
  }

  lemma JoinLastTwo(tokens: seq<string>, high: string, low: string)
    ensures Join(tokens + [high, low], ":") == JoinOpen(tokens) + (high + ":" + low)
  {
    hide Join;
    JoinLast(tokens + [high], low);
    JoinLast(tokens, high);
    assert tokens + [high] + [low] == tokens + [high, low];
  }

  /** Everything before the dotted quad. */
  function Front(sp: Spelling): string {
    if sp.tail.None? then JoinOpen(sp.head) else Join(sp.head, ":") + "::" + JoinOpen(sp.tail.value)
  }

  lemma FrontRenders(sp: Spelling)
    requires IsSpelling(sp) && sp.dotted.Some?
    ensures Render(sp) == Front(sp) + Dotted(sp.dotted.value)
    ensures Render(Expanded(sp)) == Front(sp) + HighLow(sp.dotted.value)
    ensures EndsOpen(Front(sp)) && Front(sp) != ""
  {
    hide Join, Dotted, Hex, HighLow;
    var q := sp.dotted.value;
    var tokens := if sp.tail.None? then sp.head else sp.tail.value;
    JoinLast(tokens, Dotted(q));
    JoinLastTwo(tokens, Hex(q.a * 256 + q.b), Hex(q.c * 256 + q.d));
    HighLowIs(q);
    assert Expanded(sp).head + [] == Expanded(sp).head;
    assert sp.tail.Some? ==> Expanded(sp).tail.value + [] == Expanded(sp).tail.value;
  }

  /** Nothing, or text up to and including a colon. */
  ghost predicate EndsOpen(s: string) {
    s == "" || s[|s| - 1] == ':'
  }

  lemma LastColon(front: string, x: string)
    requires EndsOpen(front) && ':' !in x
    ensures AfterLast(front + x, ':') == |front|
  {
    hide AfterLast;
    var s := front + x;
    var n := AfterLast(s, ':');
    assert front != "" ==> s[|front| - 1] == ':';
    forall j | |front| <= j < |s| ensures s[j] != ':' {
      assert s[j] == x[j - |front|];
    }
  }

  /** What follows the last colon is determined by the text. */
  lemma SameEnding(f1: string, x1: string, f2: string, x2: string)
    requires EndsOpen(f1) && EndsOpen(f2) && ':' !in x1 && ':' !in x2 && f1 + x1 == f2 + x2
    ensures f1 == f2 && x1 == x2
  {
    hide AfterLast;
    LastColon(f1, x1);
    LastColon(f2, x2);
    assert f1 == (f1 + x1)[..|f1|] && f2 == (f2 + x2)[..|f2|];
    assert x1 == (f1 + x1)[|f1|..] && x2 == (f2 + x2)[|f2|..];
  }

  lemma DottedText(q: Ipv4)
    requires IsIpv4(q)
    ensures '.' in Dotted(q) && ':' !in Dotted(q)
  {
    hide Decimal;
    DottedPartsPlain(q);
    var parts := DottedParts(q);
    JoinLacks(parts, ".", ':');
    assert Dotted(q) == parts[0] + "." + Join(parts[1..], ".");
    assert Dotted(q)[|parts[0]|] == '.';
  }

  lemma {:induction false} JoinLacks(parts: seq<string>, separator: string, c: char)
    requires c !in separator && forall p :: p in parts ==> c !in p
    ensures c !in Join(parts, separator)
  {
    if |parts| > 1 {
      JoinLacks(parts[1..], separator, c);
    }
  }

  // ---- every spelling, and nothing else ----

  /**
   * Every spelling is read as what it means: full or with a gap for any run of zeros, in either
   * hex case, with leading zeros, with or without a dotted quad at the end.
   */
  lemma SpellingRead(sp: Spelling)
    requires IsSpelling(sp)
    ensures Ipv6Of(Render(sp)) == Some(Meaning(sp))
  {
    hide GroupsOf, Meaning, Join, HighLow, Dotted, AfterLast, Ipv4Of, IsGroupText;
    ExpandedMeans(sp);
    BodyOfSpelling(Expanded(sp));
    if sp.dotted.Some? {
      var q := sp.dotted.value;
      FrontRenders(sp);
      DottedText(q);
      LastColon(Front(sp), Dotted(q));
      var text := Render(sp);
      assert text[|Front(sp)|..] == Dotted(q) && text[..|Front(sp)|] == Front(sp);
      Ipv4IsCanonical(Dotted(q), q);
      var k :| 0 <= k < |Dotted(q)| && Dotted(q)[k] == '.';
      assert text[|Front(sp)| + k] == '.';
    } else {
      assert sp.head + [] == sp.head;
      JoinSolid(sp.head);
      if sp.tail.Some? {
        assert sp.tail.value + [] == sp.tail.value;
        JoinSolid(sp.tail.value);
      }
    }
  }

  /** Whatever is read as an address is one of its spellings. */
  lemma OnlySpellings(text: string) returns (sp: Spelling)
    requires Ipv6Of(text).Some?
    ensures IsSpelling(sp) && text == Render(sp) && Ipv6Of(text) == Some(Meaning(sp))
  {
    hide GroupsOf, Meaning, Join, HighLow, Dotted, AfterLast, Ipv4Of, IsSpelling, Render;
    if '.' !in text {
      sp := SpellingOfBody(text);
    } else {
      var n := AfterLast(text, ':');
      var q := Ipv4Of(text[n..]).value;
      Ipv4IsCanonical(text[n..], q);
      var body := SpellingOfBody(text[..n] + HighLow(q));
      sp := Contracted(text[..n], q, body);
      assert text == text[..n] + text[n..];
      SpellingRead(sp);
    }
  }

  /** The tokens after the gap, or all of them. */
  function LastTokens(sp: Spelling): seq<string> {
    if sp.tail.None? then sp.head else sp.tail.value
  }

  /** The text before those tokens. */
  function BeforeLast(sp: Spelling): string {
    if sp.tail.None? then "" else Join(sp.head, ":") + "::"
  }

  /** The spelling with other tokens there, and a quad after them. */
  function PutBack(sp: Spelling, kept: seq<string>, q: Ipv4): Spelling {
    if sp.tail.None? then Spelling(kept, None, Some(q)) else Spelling(sp.head, Some(kept), Some(q))
  }

  lemma UndottedText(sp: Spelling)
    requires sp.dotted.None?
    ensures Render(sp) == BeforeLast(sp) + Join(LastTokens(sp), ":")
    ensures var before := BeforeLast(sp);
      before == "" || (|before| >= 2 && before[|before| - 2] == ':' && before[|before| - 1] == ':')
  {
    hide Join;
    assert LastTokens(sp) + [] == LastTokens(sp) && sp.head + [] == sp.head;
  }

  lemma FrontOfPutBack(sp: Spelling, kept: seq<string>, q: Ipv4)
    ensures Front(PutBack(sp, kept, q)) == BeforeLast(sp) + JoinOpen(kept)
  {
    hide Join, JoinOpen;
    assert "" + JoinOpen(kept) == JoinOpen(kept);
  }

  /** Two tokens at the end give way to the quad that is worth two groups. */
  lemma PutBackIsSpelling(sp: Spelling, kept: seq<string>, q: Ipv4, high: string, low: string)
    requires IsSpelling(sp) && sp.dotted.None? && IsIpv4(q) && LastTokens(sp) == kept + [high, low]
    ensures IsSpelling(PutBack(sp, kept, q))
  {
    hide IsGroupText;
    assert forall t :: t in kept ==> t in kept + [high, low];
  }

  lemma LastTokensPlain(sp: Spelling)
    requires IsSpelling(sp)
    ensures forall t :: t in LastTokens(sp) ==> ':' !in t
  {
    hide IsGroupText;
    TokensPlain(LastTokens(sp));
  }

  /** A quad's two groups are written as two tokens without colons. */
  lemma PairText(front: string, q: Ipv4) returns (high: string, low: string)
    requires IsIpv4(q)
    ensures high != "" && low != "" && ':' !in high && ':' !in low
    ensures front + HighLow(q) == front + high + ":" + low
  {
    hide Join, Dotted, HighLow, Hex, IsGroupText, Values;
    HighLowIs(q);
    PairTokensAre(q);
    high, low := PairTokens(q)[0], PairTokens(q)[1];
    assert high in PairTokens(q) && low in PairTokens(q);
    TokensPlain(PairTokens(q));
  }

  /** The two tokens that stand for a dotted quad are the last two, so it can be put back. */
  lemma Contracted(front: string, q: Ipv4, body: Spelling) returns (sp: Spelling)
    requires EndsOpen(front) && front != "" && IsIpv4(q)
    requires IsSpelling(body) && body.dotted.None? && Render(body) == front + HighLow(q)
    ensures IsSpelling(sp) && Render(sp) == front + Dotted(q)
  {
    hide Join, JoinOpen, Dotted, HighLow, IsSpelling, EndsOpen, Render, Front, LastTokens, BeforeLast;
    UndottedText(body);
    LastTokensPlain(body);
    var high, low := PairText(front, q);
    var kept := LastTwo(BeforeLast(body), LastTokens(body), front, high, low);
    sp := PutBack(body, kept, q);
    PutBackIsSpelling(body, kept, q, high, low);
    FrontOfPutBack(body, kept, q);
    FrontRenders(sp);
  }

  /** Text that ends in a gap, or is empty, does not end in a colon-free token after a colon. */
  lemma NotJustBefore(before: string, front: string, high: string, low: string)
    requires before == "" || (|before| >= 2 && before[|before| - 2] == ':' && before[|before| - 1] == ':')
    requires high != "" && low != "" && ':' !in high && ':' !in low
    ensures before != front + high + ":" + low && before != front + high + ":"
  {
    var open := front + high + ":";
    assert open[|open| - 2] == high[|high| - 1] && high[|high| - 1] in high;
    assert (open + low)[|open + low| - 1] == low[|low| - 1] && low[|low| - 1] in low;
  }

  lemma ChopColon(a: string, b: string)
    requires a + ":" == b + ":"
    ensures a == b
  {
    assert a == (a + ":")[..|a + ":"| - 1] && b == (b + ":")[..|b + ":"| - 1];
  }

  lemma LastOne(before: string, tokens: seq<string>, open: string, x: string) returns (init: seq<string>)
    requires EndsOpen(before) && EndsOpen(open) && ':' !in x
    requires tokens != [] && forall t :: t in tokens ==> ':' !in t
    requires before + Join(tokens, ":") == open + x
    ensures tokens == init + [x] && before + JoinOpen(init) == open
  {
    hide Join;
    init := tokens[..|tokens| - 1];
    var last := tokens[|tokens| - 1];
    assert tokens == init + [last] && last in tokens;
    JoinLast(init, last);
    assert before + Join(tokens, ":") == before + JoinOpen(init) + last;
    SameEnding(before + JoinOpen(init), last, open, x);
  }

  lemma LastTwo(before: string, tokens: seq<string>, front: string, high: string, low: string) returns (kept: seq<string>)
    requires before == "" || (|before| >= 2 && before[|before| - 2] == ':' && before[|before| - 1] == ':')
    requires forall t :: t in tokens ==> ':' !in t
    requires EndsOpen(front) && high != "" && low != "" && ':' !in high && ':' !in low
    requires before + Join(tokens, ":") == front + high + ":" + low
    ensures tokens == kept + [high, low] && front == before + JoinOpen(kept)
  {
    hide Join, EndsOpen;
    OpenFacts(before, front + high);
    JoinEmpty();
    NotJustBefore(before, front, high, low);
    assert before + "" == before;
    var init := LastOne(before, tokens, front + high + ":", low);
    assert before + JoinOpen(init) == before + Join(init, ":") + ":";
    ChopColon(before + Join(init, ":"), front + high);
    kept := LastOne(before, init, front, high);
  }

  lemma OpenFacts(before: string, rest: string)
    requires before == "" || before[|before| - 1] == ':'
    ensures EndsOpen(before) && EndsOpen(rest + ":")
  {
  }

  // ---- printing and reading back ----

  lemma ValuesSlice(tokens: seq<string>, i: nat, j: nat)
    requires AllGroupTexts(tokens) && i <= j <= |tokens|
    ensures AllGroupTexts(tokens[i..j]) && Values(tokens[i..j]) == Values(tokens)[i..j]
  {
    hide AllGroupTexts, Values;
    PartIsGroups(tokens, i, j);
    var part, whole := Values(tokens[i..j]), Values(tokens);
    forall k | 0 <= k < j - i ensures part[k] == whole[i..j][k] {
      ValueInPart(tokens, i, j, k);
    }
  }

  lemma PartIsGroups(tokens: seq<string>, i: nat, j: nat)
    requires AllGroupTexts(tokens) && i <= j <= |tokens|
    ensures AllGroupTexts(tokens[i..j])
  {
    hide IsGroupText;
  }

  lemma ValueInPart(tokens: seq<string>, i: nat, j: nat, k: nat)
    requires AllGroupTexts(tokens) && i <= j <= |tokens| && AllGroupTexts(tokens[i..j]) && k < j - i
    ensures Values(tokens[i..j])[k] == Values(tokens)[i + k]
  {
    hide AllGroupTexts, Values, IsGroupText, HexValue;
    ValueAt(tokens, i + k);
    ValueAt(tokens[i..j], k);
    assert tokens[i..j][k] == tokens[i + k];
  }

  lemma ValueAt(tokens: seq<string>, k: nat)
    requires AllGroupTexts(tokens) && k < |tokens|
    ensures IsGroupText(tokens[k]) && Values(tokens)[k] == HexValue(tokens[k])
  {
    hide IsGroupText, Values, HexValue;
    ValuesAt(tokens);
  }

  lemma {:induction false} ValuesAt(tokens: seq<string>)
    requires AllGroupTexts(tokens)
    ensures forall k :: 0 <= k < |tokens| ==> IsGroupText(tokens[k]) && Values(tokens)[k] == HexValue(tokens[k])
  {
    hide IsGroupText, HexValue;
    if tokens != [] {
      var init := tokens[..|tokens| - 1];
      assert forall t :: t in init ==> t in tokens;
      ValuesAt(init);
    }
  }

  /** A run of zeros is what a gap in its place is filled with. */
  lemma GapFills(values: seq<nat>, i: nat, j: nat, pair: seq<nat>)
    requires i <= j <= |values| && forall k :: i <= k < j ==> values[k] == 0
    ensures values[..i] + Zeros(j - i) + (values[j..] + pair) == values + pair
  {
    hide Zeros;
    assert values[..i] + Zeros(j - i) + values[j..] == values;
    assert values[..i] + Zeros(j - i) + (values[j..] + pair) == values[..i] + Zeros(j - i) + values[j..] + pair;
  }

  lemma GapWidth(sp: Spelling, head: seq<nat>, tail: seq<nat>, width: nat)
    requires IsSpelling(sp) && sp.tail.Some? && Values(sp.head) == head && Values(sp.tail.value) == tail
    requires |head| + width + |tail| + |DottedGroups(sp)| == 8
    ensures Meaning(sp) == head + Zeros(width) + (tail + DottedGroups(sp))
  {
    hide Values, Zeros, IsGroupText;
  }

  /** What a spelling with a gap from `i` to `j` means, when zeros stand there. */
  lemma GappedMeans(tokens: seq<string>, i: nat, j: nat, dotted: Option<Ipv4>)
    requires AllGroupTexts(tokens) && i < j <= |tokens| && (dotted.Some? ==> IsIpv4(dotted.value))
    requires |tokens| == (if dotted.Some? then 6 else 8) && forall k :: i <= k < j ==> Values(tokens)[k] == 0
    ensures var sp := Spelling(tokens[..i], Some(tokens[j..]), dotted);
      IsSpelling(sp) && Meaning(sp) == Values(tokens) + DottedGroups(sp)
  {
    hide IsGroupText, AllGroupTexts, IsSpelling, Values, Zeros, Meaning;
    var sp := Spelling(tokens[..i], Some(tokens[j..]), dotted);
    GappedIsSpelling(tokens, i, j, dotted);
    ValuesSlice(tokens, 0, i);
    ValuesSlice(tokens, j, |tokens|);
    assert tokens[0..i] == tokens[..i] && tokens[j..|tokens|] == tokens[j..];
    var values := Values(tokens);
    assert values[0..i] == values[..i] && values[j..|tokens|] == values[j..];
    GapWidth(sp, values[..i], values[j..], j - i);
    GapFills(values, i, j, DottedGroups(sp));
  }

  lemma GappedIsSpelling(tokens: seq<string>, i: nat, j: nat, dotted: Option<Ipv4>)
    requires AllGroupTexts(tokens) && i < j <= |tokens| && (dotted.Some? ==> IsIpv4(dotted.value))
    requires |tokens| == (if dotted.Some? then 6 else 8)
    ensures IsSpelling(Spelling(tokens[..i], Some(tokens[j..]), dotted))
  {
    hide IsGroupText;
    assert forall t :: t in tokens[..i] ==> t in tokens;
    assert forall t :: t in tokens[j..] ==> t in tokens;
  }

  /**
   * For any eight groups and any way of writing them as tokens: the full form reads back as the
   * groups, and so does the form with a gap in place of any run of one or more zeros.
   */
  lemma PrintedIsRead(tokens: seq<string>, i: nat, j: nat)
    requires |tokens| == 8 && AllGroupTexts(tokens) && i < j <= 8
    requires forall k :: i <= k < j ==> Values(tokens)[k] == 0
    ensures Ipv6Of(Join(tokens, ":")) == Some(Values(tokens))
    ensures Ipv6Of(Join(tokens[..i], ":") + "::" + Join(tokens[j..], ":")) == Some(Values(tokens))
  {
    hide IsGroupText, Values, Ipv6Of, Join;
    assert tokens + [] == tokens && tokens[j..] + [] == tokens[j..] && Values(tokens) + [] == Values(tokens);
    SpellingRead(Spelling(tokens, None, None));
    GappedMeans(tokens, i, j, None);
    SpellingRead(Spelling(tokens[..i], Some(tokens[j..]), None));
  }

  /** The same with the last two groups written as a dotted quad. */
  lemma DottedPrintIsRead(tokens: seq<string>, q: Ipv4, i: nat, j: nat)
    requires |tokens| == 6 && AllGroupTexts(tokens) && IsIpv4(q) && i < j <= 6
    requires forall k :: i <= k < j ==> Values(tokens)[k] == 0
    ensures var groups := Values(tokens) + [q.a * 256 + q.b, q.c * 256 + q.d];
      && Ipv6Of(Join(tokens + [Dotted(q)], ":")) == Some(groups)
      && Ipv6Of(Join(tokens[..i], ":") + "::" + Join(tokens[j..] + [Dotted(q)], ":")) == Some(groups)
  {
    hide IsGroupText, Values, Ipv6Of, Join, Dotted;
    SpellingRead(Spelling(tokens, None, Some(q)));
    GappedMeans(tokens, i, j, Some(q));
    SpellingRead(Spelling(tokens[..i], Some(tokens[j..]), Some(q)));
  }

  // ---- classes ----

  lemma NotBoth(text: string)
    ensures Ipv4Of(text).None? || Ipv6Of(text).None?
  {
    hide Dotted;
    if Ipv4Of(text).Some? {
      Ipv4IsCanonical(text, Ipv4Of(text).value);
      DottedText(Ipv4Of(text).value);
    }
  }

  lemma TopByte(x: nat)
    requires x < 0x1_0000
    ensures ShiftRight(x, 8) == x / 256 && And(x, 0xff) == x % 256
  {
    hide And, Low, ShiftRight;
    ScaleByBytes(1);
    ScaleByBytes(ShiftRight(x, 8));
    AndLowMask(x, 8);
    ShiftSplits(x, 8);
  }

  function MappedGroups(q: Ipv4): seq<nat> {
    [0, 0, 0, 0, 0, 0xffff, q.a * 256 + q.b, q.c * 256 + q.d]
  }

  /** The 32-bit number that a dotted quad stands for. */
  function Number(q: Ipv4): nat {
    q.a * 0x100_0000 + q.b * 0x1_0000 + q.c * 0x100 + q.d
  }

  /** The block of numbers from `first` to `last`. */
  predicate Within(v: nat, first: nat, last: nat) {
    first <= v <= last
  }

  /**
   * The class of a 32-bit address: 0.0.0.0/8 and 127.0.0.0/8 are what a sinkhole answers; 10/8,
   * 172.16/12, 192.168/16 (RFC 1918), 169.254/16 (RFC 3927) and 100.64/10 (RFC 6598) are private;
   * everything else is the internet.
   */
  ghost predicate QuadFits(v: nat, c: AddressClass) {
    if Within(v, 0x0000_0000, 0x00ff_ffff) || Within(v, 0x7f00_0000, 0x7fff_ffff) then c == Sinkhole
    else if Within(v, 0x0a00_0000, 0x0aff_ffff) || Within(v, 0xac10_0000, 0xac1f_ffff) || Within(v, 0xc0a8_0000, 0xc0a8_ffff)
      || Within(v, 0xa9fe_0000, 0xa9fe_ffff) || Within(v, 0x6440_0000, 0x647f_ffff)
    then c == PrivateAddress
    else c == PublicAddress
  }

  lemma QuadInRange(q: Ipv4)
    requires IsIpv4(q)
    ensures QuadFits(Number(q), ClassifyIpv4(q))
  {
  }

  /**
   * A dotted quad falls in the class of the range that its number lies in, and every spelling of a
   * mapped address falls in the class of the quad it wraps.
   */
  lemma MappedIsUnwrapped(text: string, q: Ipv4)
    requires IsIpv4(q) && Ipv6Of(text) == Some(MappedGroups(q))
    ensures Classify(text) == Classify(Dotted(q)) == ClassifyIpv4(q) && QuadFits(Number(q), Classify(text))
  {
    hide Ipv6Of, Ipv4Of, Dotted, And, ShiftRight, ClassifyIpv4, QuadFits;
    QuadInRange(q);
    NotBoth(text);
    Ipv4IsCanonical(Dotted(q), q);
    TopByte(q.a * 256 + q.b);
    TopByte(q.c * 256 + q.d);
    PairBack(q.a, q.b);
    PairBack(q.c, q.d);
  }

  lemma PairBack(a: nat, b: nat)
    requires b <= 255
    ensures (a * 256 + b) / 256 == a && (a * 256 + b) % 256 == b
  {
  }

  lemma UniqueLocal(x: nat)
    requires x < 0x1_0000
    ensures And(x, 0xfe00) == 0xfc00 <==> 0xfc00 <= x <= 0xfdff
  {
    hide And, Low, Scale, ShiftRight;
    var top := ShiftRight(x, 9);
    AboveMask(x, 9, 7);
    ScaleByBits(1);
    ScaleByBits(0x7f);
    ShiftSplits(x, 9);
    ScaleByBits(top);
    ShiftSplits(top, 7);
    ScaleByBits(ShiftRight(top, 7));
  }

  lemma LinkLocal(x: nat)
    requires x < 0x1_0000
    ensures And(x, 0xffc0) == 0xfe80 <==> 0xfe80 <= x <= 0xfebf
  {
    hide And, Low, Scale, ShiftRight;
    var top := ShiftRight(x, 6);
    AboveMask(x, 6, 10);
    ScaleByBits(1);
    ScaleByBits(0x3ff);
    ShiftSplits(x, 6);
    ScaleByBits(top);
    ShiftSplits(top, 10);
    ScaleByBits(ShiftRight(top, 10));
  }

  /** Masking with `m` ones above the low `k` digits keeps the `m` digits that lie there. */
  lemma AboveMask(x: nat, k: nat, m: nat)
    ensures Scale(1, m) >= 1 && And(x, Scale(Scale(1, m) - 1, k)) == Scale(Low(ShiftRight(x, k), m), k)
  {
    hide And, Low;
    ShiftSplits(x, k);
    AndLowMask(ShiftRight(x, k), m);
    AndShifted(k, ShiftRight(x, k), Low(x, k), Scale(1, m) - 1);
  }

  const LOWER_DIGITS: string := "0123456789abcdef"
  const UPPER_DIGITS: string := "0123456789ABCDEF"

  /** The sixteen digits in either case, each with its place among them as its value. */
  lemma HexDigitIs(c: char, v: nat)
    requires v < 16
    ensures IsHexDigit(c) <==> c in LOWER_DIGITS || c in UPPER_DIGITS
    ensures c == LOWER_DIGITS[v] || c == UPPER_DIGITS[v] ==> HexDigitValue(c) == v
    ensures HexDigit(v) == LOWER_DIGITS[v]
  {
    DigitAt(v);
    if IsHexDigit(c) {
      var k := HexDigitValue(c);
      DigitAt(k);
      assert c == LOWER_DIGITS[k] || c == UPPER_DIGITS[k];
    } else {
      NoDigit(c);
    }
  }

  lemma DigitAt(v: nat)
    requires v < 16
    ensures LOWER_DIGITS[v] as int == (if v < 10 then 48 + v else 87 + v)
    ensures UPPER_DIGITS[v] as int == (if v < 10 then 48 + v else 55 + v)
  {
  }

  lemma NoDigit(c: char)
    requires !IsHexDigit(c)
    ensures c !in LOWER_DIGITS && c !in UPPER_DIGITS
  {
    forall v: nat | v < 16 ensures c != LOWER_DIGITS[v] && c != UPPER_DIGITS[v] {
      DigitAt(v);
    }
  }

  lemma GroupBound(token: string)
    requires IsGroupText(token)
    ensures HexValue(token) < 0x1_0000
  {
    HexBound(token, 4, 0x1_0000);
  }

  lemma {:induction false} HexBound(s: string, width: nat, bound: nat)
    requires |s| <= width <= 4 && forall i :: 0 <= i < |s| ==> IsHexDigit(s[i])
    requires bound == Pow16(width)
    ensures HexValue(s) < bound
    decreases width
  {
    if s != "" {
      HexBound(s[..|s| - 1], width - 1, Pow16(width - 1));
    }
  }

  function Pow16(k: nat): (p: nat)
    ensures p > 0
  {
    if k == 0 then 1 else 16 * Pow16(k - 1)
  }

  lemma {:induction false} ValuesBound(tokens: seq<string>)
    requires AllGroupTexts(tokens)
    ensures forall v :: v in Values(tokens) ==> v < 0x1_0000
  {
    hide IsGroupText, HexValue;
    if tokens != [] {
      var init, last := tokens[..|tokens| - 1], tokens[|tokens| - 1];
      assert tokens == init + [last] && last in tokens;
      assert forall t :: t in init ==> t in tokens;
      ValuesBound(init);
      GroupBound(last);
    }
  }

  lemma GroupsAreSmall(text: string)
    requires Ipv6Of(text).Some?
    ensures forall v :: v in Ipv6Of(text).value ==> v < 0x1_0000
  {
    hide IsGroupText, Values, Ipv6Of;
    var sp := OnlySpellings(text);
    ValuesBound(sp.head);
    if sp.tail.Some? {
      ValuesBound(sp.tail.value);
    }
  }

  /** The ranges of section 2.5 of RFC 4291 and section 3 of RFC 4193, for addresses that are not mapped. */
  ghost predicate ClassFits(groups: seq<nat>, c: AddressClass)
    requires |groups| == 8
  {
    var zeros := forall k :: 0 <= k < 7 ==> groups[k] == 0;
    if zeros && groups[7] <= 1 then c == Sinkhole
    else if 0xfc00 <= groups[0] <= 0xfdff || 0xfe80 <= groups[0] <= 0xfebf then c == PrivateAddress
    else c == PublicAddress
  }

  /**
   * A text is malformed exactly when it is neither the canonical print of a dotted quad nor a
   * spelling of eight groups. A dotted quad and a spelling of a mapped address fall in the class of
   * the range that the 32-bit number lies in; any other spelling, in that of its groups.
   */
  lemma ClassOfText(text: string)
    ensures Classify(text) == Malformed <==>
      (forall q :: !(IsIpv4(q) && text == Dotted(q))) && (forall sp :: !(IsSpelling(sp) && text == Render(sp)))
    ensures forall q :: IsIpv4(q) && text == Dotted(q) ==> QuadFits(Number(q), Classify(text))
    ensures forall q, sp :: IsIpv4(q) && IsSpelling(sp) && text == Render(sp) && Meaning(sp) == MappedGroups(q) ==>
      QuadFits(Number(q), Classify(text))
    ensures forall sp :: IsSpelling(sp) && text == Render(sp) && Meaning(sp)[..6] != [0, 0, 0, 0, 0, 0xffff] ==>
      ClassFits(Meaning(sp), Classify(text))
  {
    hide Ipv6Of, Ipv4Of, Dotted, Render, IsSpelling, Meaning, Classify, QuadFits, ClassFits;
    ClassIsMalformed(text);
    forall q | IsIpv4(q) && text == Dotted(q) ensures QuadFits(Number(q), Classify(text)) {
      QuadClassified(text, q);
    }
    forall sp | IsSpelling(sp) && text == Render(sp) ensures Ipv6Of(text) == Some(Meaning(sp)) {
      SpellingRead(sp);
    }
    forall q, sp | IsIpv4(q) && IsSpelling(sp) && text == Render(sp) && Meaning(sp) == MappedGroups(q)
      ensures QuadFits(Number(q), Classify(text))
    {
      MappedIsUnwrapped(text, q);
    }
    forall sp | IsSpelling(sp) && text == Render(sp) && Meaning(sp)[..6] != [0, 0, 0, 0, 0, 0xffff]
      ensures ClassFits(Meaning(sp), Classify(text))
    {
      UnmappedClassified(text, Meaning(sp));
    }
  }

  lemma QuadClassified(text: string, q: Ipv4)
    requires IsIpv4(q) && text == Dotted(q)
    ensures QuadFits(Number(q), Classify(text))
  {
    hide Ipv6Of, Ipv4Of, Dotted, ClassifyIpv4, QuadFits;
    Ipv4IsCanonical(text, q);
    QuadInRange(q);
  }

  lemma UnmappedClassified(text: string, groups: seq<nat>)
    requires Ipv6Of(text) == Some(groups) && |groups| == 8 && groups[..6] != [0, 0, 0, 0, 0, 0xffff]
    ensures ClassFits(groups, Classify(text))
  {
    hide Ipv6Of, Ipv4Of, And, ShiftRight;
    NotBoth(text);
    GroupsAreSmall(text);
    assert groups[0] in groups;
    UniqueLocal(groups[0]);
    LinkLocal(groups[0]);
    ZeroGroups(groups);
  }

  lemma ClassIsMalformed(text: string)
    ensures Classify(text) == Malformed <==>
      (forall q :: !(IsIpv4(q) && text == Dotted(q))) && (forall sp :: !(IsSpelling(sp) && text == Render(sp)))
  {
    hide Ipv6Of, Ipv4Of, Dotted, And, ShiftRight, Render, IsSpelling, Meaning;
    NotBoth(text);
    forall q ensures Ipv4Of(text) == Some(q) <==> IsIpv4(q) && text == Dotted(q) {
      Ipv4IsCanonical(text, q);
    }
    forall sp | IsSpelling(sp) && text == Render(sp) ensures Ipv6Of(text).Some? {
      SpellingRead(sp);
    }
    if Ipv6Of(text).Some? {
      var sp := OnlySpellings(text);
    }
  }

  lemma ZeroGroups(groups: seq<nat>)
    requires |groups| == 8
    ensures AllZero(groups[..7]) <==> forall k :: 0 <= k < 7 ==> groups[k] == 0
    ensures AllZero(groups) <==> AllZero(groups[..7]) && groups[7] == 0
  {
    var init := groups[..7];
    assert groups == init + [groups[7]];
    assert forall k :: 0 <= k < 7 ==> init[k] == groups[k] && init[k] in init;
    assert groups[7] in groups && forall g :: g in init ==> g in groups;
  }
}
