/** Addresses read out of text and classified (src/probes/dns/analyse.ts). */
module Addresses {
  import opened Wrappers
  import opened Bits
  import opened Text
  import opened Decimals

  datatype Ipv4 = Ipv4(a: nat, b: nat, c: nat, d: nat)

  datatype AddressClass = PublicAddress | PrivateAddress | Sinkhole | Malformed

  // ---- dotted quads ----

  /** `/^(?:0|[1-9]\d{0,2})$/`. */
  predicate IsOctetText(part: string) {
    part == "0" || (1 <= |part| <= 3 && IsDigit(part[0]) && part[0] != '0' && forall i :: 0 < i < |part| ==> IsDigit(part[i]))
  }

  function Octets(parts: seq<string>): (r: Option<seq<nat>>)
    ensures r.Some? ==> |r.value| == |parts|
  {
    if parts == [] then Some([])
    else
      var before := Octets(parts[..|parts| - 1]);
      var last := parts[|parts| - 1];
      if before.None? || !IsOctetText(last) || DecValue(last) > 255 then None
      else Some(before.value + [DecValue(last)])
  }

  function Ipv4Of(text: string): Option<Ipv4> {
    var parts := SplitOn(text, '.');
    if |parts| != 4 then None
    else
      var octets := Octets(parts);
      if octets.None? then None
      else Some(Ipv4(octets.value[0], octets.value[1], octets.value[2], octets.value[3]))
  }

  method ParseIpv4(text: string) returns (r: Option<Ipv4>)
    ensures r == Ipv4Of(text)
  {
    hide DecValue, SplitOn;
    var parts := SplitOn(text, '.');
    if |parts| != 4 { return None; }
    var octets: seq<nat> := [];
    for i := 0 to |parts|
      invariant Octets(parts[..i]) == Some(octets)
    {
      assert parts[..i + 1][..i] == parts[..i];
      if !IsOctetText(parts[i]) || DecValue(parts[i]) > 255 {
        BadOctet(parts, i + 1);
        return None;
      }
      octets := octets + [DecValue(parts[i])];
    }
    assert parts[..|parts|] == parts;
    r := Some(Ipv4(octets[0], octets[1], octets[2], octets[3]));
  }

  lemma {:induction false} BadOctet(parts: seq<string>, n: nat)
    requires n <= |parts| && Octets(parts[..n]).None?
    ensures Octets(parts).None?
    decreases |parts|
  {
    hide DecValue;
    if n == |parts| {
      assert parts[..n] == parts;
    } else {
      assert parts[..|parts| - 1][..n] == parts[..n];
      BadOctet(parts[..|parts| - 1], n);
    }
  }

  // ---- hexadecimal groups ----

  predicate IsHexDigit(c: char) {
    IsDigit(c) || 'a' <= c <= 'f' || 'A' <= c <= 'F'
  }

  /** `/^[0-9a-fA-F]{1,4}$/`. */
  predicate IsGroupText(token: string) {
    1 <= |token| <= 4 && forall i :: 0 <= i < |token| ==> IsHexDigit(token[i])
  }

  function HexDigitValue(c: char): (v: nat)
    requires IsHexDigit(c)
    ensures v < 16
  {
    if IsDigit(c) then c as int - '0' as int
    else if 'a' <= c <= 'f' then c as int - 'a' as int + 10
    else c as int - 'A' as int + 10
  }

  /** `Number.parseInt(token, 16)`. */
  function HexValue(token: string): nat
    requires forall i :: 0 <= i < |token| ==> IsHexDigit(token[i])
  {
    if token == "" then 0 else HexValue(token[..|token| - 1]) * 16 + HexDigitValue(token[|token| - 1])
  }

  function HexDigit(v: nat): (c: char)
    requires v < 16
    ensures IsHexDigit(c) && HexDigitValue(c) == v
  {
    if v < 10 then ('0' as int + v) as char else ('a' as int + v - 10) as char
  }

  /** `value.toString(16)`. */
  function Hex(value: nat): string {
    (if value < 16 then "" else Hex(value / 16)) + [HexDigit(value % 16)]
  }

  function GroupsIn(tokens: seq<string>): (r: Option<seq<nat>>)
    ensures r.Some? ==> |r.value| == |tokens|
  {
    if tokens == [] then Some([])
    else
      var before := GroupsIn(tokens[..|tokens| - 1]);
      var last := tokens[|tokens| - 1];
      if before.None? || !IsGroupText(last) then None else Some(before.value + [HexValue(last)])
  }

  function HexGroups(segment: string): Option<seq<nat>> {
    if segment == "" then Some([]) else GroupsIn(SplitOn(segment, ':'))
  }

  method ParseHexGroups(segment: string) returns (r: Option<seq<nat>>)
    ensures r == HexGroups(segment)
  {
    hide HexValue, SplitOn;
    if segment == "" { return Some([]); }
    var groups: seq<nat> := [];
    var tokens := SplitOn(segment, ':');
    for i := 0 to |tokens|
      invariant GroupsIn(tokens[..i]) == Some(groups)
    {
      assert tokens[..i + 1][..i] == tokens[..i];
      if !IsGroupText(tokens[i]) {
        BadGroup(tokens, i + 1);
        return None;
      }
      groups := groups + [HexValue(tokens[i])];
    }
    assert tokens[..|tokens|] == tokens;
    r := Some(groups);
  }

  lemma {:induction false} BadGroup(tokens: seq<string>, n: nat)
    requires n <= |tokens| && GroupsIn(tokens[..n]).None?
    ensures GroupsIn(tokens).None?
    decreases |tokens|
  {
    hide HexValue;
    if n == |tokens| {
      assert tokens[..n] == tokens;
    } else {
      assert tokens[..|tokens| - 1][..n] == tokens[..n];
      BadGroup(tokens[..|tokens| - 1], n);
    }
  }

  // ---- IPv6 ----

  /** One more than the last position of `c`, zero when there is none. */
  function AfterLast(s: string, c: char): (n: nat)
    ensures n <= |s|
    ensures n > 0 ==> s[n - 1] == c
    ensures forall j :: n <= j < |s| ==> s[j] != c
  {
    if s == "" then 0 else if s[|s| - 1] == c then |s| else AfterLast(s[..|s| - 1], c)
  }

  /** The first position at or after `from` where two colons stand, or the length when there is none. */
  function GapAt(s: string, from: nat): (i: nat)
    requires from <= |s|
    ensures from <= i <= |s|
    ensures i < |s| ==> i + 1 < |s| && s[i] == ':' && s[i + 1] == ':'
    ensures forall j :: from <= j < i && j + 1 < |s| ==> !(s[j] == ':' && s[j + 1] == ':')
    decreases |s| - from
  {
    if from == |s| then from
    else if from + 1 < |s| && s[from] == ':' && s[from + 1] == ':' then from
    else GapAt(s, from + 1)
  }

  /** `text.split('::')`. */
  function SplitAtGaps(s: string): (parts: seq<string>)
    ensures parts != []
    decreases |s|
  {
    var i := GapAt(s, 0);
    if i == |s| then [s] else [s[..i]] + SplitAtGaps(s[i + 2..])
  }

  function HighLow(q: Ipv4): string {
    Hex(Or(ShiftLeft(q.a, 8), q.b)) + ":" + Hex(Or(ShiftLeft(q.c, 8), q.d))
  }

  /** A dotted quad after the last colon gives way to its two groups. */
  function Undotted(text: string): Option<string> {
    if '.' !in text then Some(text)
    else
      var n := AfterLast(text, ':');
      if n == 0 then None
      else
        var embedded := Ipv4Of(text[n..]);
        if embedded.None? then None else Some(text[..n] + HighLow(embedded.value))
  }

  function Zeros(n: nat): (r: seq<nat>)
    ensures |r| == n && forall i :: 0 <= i < n ==> r[i] == 0
  {
    if n == 0 then [] else Zeros(n - 1) + [0]
  }

  function Eight(groups: seq<nat>): Option<seq<nat>> {
    if |groups| == 8 then Some(groups) else None
  }

  function GroupsOf(body: string): Option<seq<nat>> {
    var halves := SplitAtGaps(body);
    if |halves| > 2 then None
    else
      var head := HexGroups(halves[0]);
      if head.None? then None
      else if |halves| == 1 then Eight(head.value)
      else
        var tail := HexGroups(halves[1]);
        if tail.None? || |head.value| + |tail.value| > 7 then None
        else Eight(head.value + Zeros(8 - |head.value| - |tail.value|) + tail.value)
  }

  function Ipv6Of(text: string): Option<seq<nat>> {
    var body := Undotted(text);
    if body.None? then None else GroupsOf(body.value)
  }

  method ParseIpv6(text: string) returns (r: Option<seq<nat>>)
    ensures r == Ipv6Of(text)
  {
    hide SplitAtGaps, AfterLast, Hex, Or, ShiftLeft;
    var body := text;
    if '.' in body {
      var n := AfterLast(body, ':');
      if n == 0 { return None; }
      var embedded := ParseIpv4(body[n..]);
      if embedded.None? { return None; }
      var high := Hex(Or(ShiftLeft(embedded.value.a, 8), embedded.value.b));
      var low := Hex(Or(ShiftLeft(embedded.value.c, 8), embedded.value.d));
      body := body[..n] + (high + ":" + low);
    }
    var halves := SplitAtGaps(body);
    if |halves| > 2 { return None; }
    var head := ParseHexGroups(halves[0]);
    if head.None? { return None; }
    if |halves| == 1 { return Eight(head.value); }
    var tail := ParseHexGroups(halves[1]);
    if tail.None? || |head.value| + |tail.value| > 7 { return None; }
    r := Eight(head.value + Zeros(8 - |head.value| - |tail.value|) + tail.value);
  }

  // ---- classes ----

  function ClassifyIpv4(q: Ipv4): AddressClass {
    if q.a == 0 || q.a == 127 then Sinkhole
    else if q.a == 10 then PrivateAddress
    else if q.a == 172 && 16 <= q.b <= 31 then PrivateAddress
    else if q.a == 192 && q.b == 168 then PrivateAddress
    else if q.a == 169 && q.b == 254 then PrivateAddress
    else if q.a == 100 && 64 <= q.b <= 127 then PrivateAddress
    else PublicAddress
  }

  predicate AllZero(groups: seq<nat>) {
    forall g :: g in groups ==> g == 0
  }

  function ClassifyIpv6(groups: seq<nat>): AddressClass
    requires |groups| == 8
  {
    if AllZero(groups) then Sinkhole
    else if groups[7] == 1 && AllZero(groups[..7]) then Sinkhole
    else if And(groups[0], 0xfe00) == 0xfc00 then PrivateAddress
    else if And(groups[0], 0xffc0) == 0xfe80 then PrivateAddress
    else PublicAddress
  }

  function MappedIpv4(groups: seq<nat>): Option<Ipv4>
    requires |groups| == 8
  {
    if groups[0] != 0 || groups[1] != 0 || groups[2] != 0 || groups[3] != 0 || groups[4] != 0 then None
    else if groups[5] != 0xffff then None
    else Some(Ipv4(ShiftRight(groups[6], 8), And(groups[6], 0xff), ShiftRight(groups[7], 8), And(groups[7], 0xff)))
  }

  function Classify(address: string): AddressClass {
    var v4 := Ipv4Of(address);
    if v4.Some? then ClassifyIpv4(v4.value)
    else
      var v6 := Ipv6Of(address);
      if v6.None? then Malformed
      else
        var mapped := MappedIpv4(v6.value);
        if mapped.None? then ClassifyIpv6(v6.value) else ClassifyIpv4(mapped.value)
  }
}
