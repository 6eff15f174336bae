/**
 * What an address is: host normalisation, the IPv4 and IPv6 parsers, and the classifier.
 */
module Net {
  import opened Prelude
  import opened Text

  datatype AddressClass = Public | Private | Loopback | LinkLocal | Metadata | Unspecified | Reserved

  datatype ParsedAddress = ParsedAddress(family: nat, classification: AddressClass)

  type Octets = seq<nat>
  type Hextets = seq<nat>

  // ----- digits -----

  predicate IsDigit(c: char) { '0' <= c <= '9' }

  predicate IsHex(c: char) { '0' <= c <= '9' || 'a' <= c <= 'f' }

  function DigitValue(c: char): nat
    requires IsHex(c)
  {
    if c <= '9' then (c - '0') as nat else (c - 'a') as nat + 10
  }

  /** `Number.parseInt(token, base)`. */
  function NumberOf(token: string, base: nat): nat
    requires forall c :: c in token ==> IsHex(c)
  {
    if token == "" then 0
    else NumberOf(token[..|token| - 1], base) * base + DigitValue(token[|token| - 1])
  }

  /** More values in front of a list that may have failed to parse. */
  function After(head: seq<nat>, r: Option<seq<nat>>): Option<seq<nat>> {
    match r case None => None case Some(rest) => Some(head + rest)
  }

  lemma AfterAfter(a: seq<nat>, b: seq<nat>, r: Option<seq<nat>>)
    ensures After(a, After(b, r)) == After(a + b, r) && After([], r) == r
  {
    if r.Some? {
      assert a + (b + r.value) == (a + b) + r.value;
      assert [] + r.value == r.value;
    }
  }

  // ----- IPv4 -----

  /** One to three digits, no leading zero, at most 255. */
  predicate IsOctet(part: string) {
    && 1 <= |part| <= 3 && (forall c :: c in part ==> IsDigit(c))
    && !(|part| > 1 && part[0] == '0')
    && NumberOf(part, 10) <= 255
  }

  function OctetsOf(parts: seq<string>): Option<Octets> {
    if parts == [] then Some([])
    else if !IsOctet(parts[0]) then None
    else After([NumberOf(parts[0], 10)], OctetsOf(parts[1..]))
  }

  function IPv4Of(value: string): Option<Octets> {
    var parts := Split(value, '.');
    if |parts| != 4 then None else OctetsOf(parts)
  }

  method ParseIPv4(value: string) returns (r: Option<Octets>)
    ensures r == IPv4Of(value)
  {
    var parts := Split(value, '.');
    if |parts| != 4 {
      return None;
    }
    var octets: Octets := [];
    assert parts[0..] == parts;
    AfterAfter([], [], OctetsOf(parts));
    for i := 0 to |parts|
      invariant OctetsOf(parts) == After(octets, OctetsOf(parts[i..]))
    {
      var part := parts[i];
      assert parts[i..][1..] == parts[i + 1..];
      if !(1 <= |part| <= 3 && forall c :: c in part ==> IsDigit(c)) {
        return None;
      }
      if |part| > 1 && part[0] == '0' {
        return None;
      }
      var octet := NumberOf(part, 10);
      if octet > 255 {
        return None;
      }
      AfterAfter(octets, [octet], OctetsOf(parts[i + 1..]));
      octets := octets + [octet];
    }
    assert octets + [] == octets;
    return Some(octets);
  }

  function ClassifyIPv4(o: Octets): AddressClass
    requires |o| == 4
  {
    var a, b, c, d := o[0], o[1], o[2], o[3];
    if a == 0 then (if b == 0 && c == 0 && d == 0 then Unspecified else Reserved)
    else if a == 10 then Private
    else if a == 127 then Loopback
    else if a == 100 && 64 <= b <= 127 then Private
    else if a == 169 && b == 254 then
      (if o == [169, 254, 169, 254] || o == [169, 254, 170, 2] then Metadata else LinkLocal)
    else if a == 172 && 16 <= b <= 31 then Private
    else if a == 192 && b == 0 && c == 0 then Reserved
    else if a == 192 && b == 0 && c == 2 then Reserved
    else if a == 192 && b == 88 && c == 99 then Reserved
    else if a == 192 && b == 168 then Private
    else if a == 198 && (b == 18 || b == 19) then Reserved
    else if a == 198 && b == 51 && c == 100 then Reserved
    else if a == 203 && b == 0 && c == 113 then Reserved
    else if a >= 224 then Reserved
    else Public
  }

  // ----- IPv6 -----

  predicate IsHexToken(token: string) {
    1 <= |token| <= 4 && forall c :: c in token ==> IsHex(c)
  }

  /** The two hextets of a dotted quad. */
  function Packed(o: Octets): Hextets
    requires |o| == 4
  {
    [o[0] * 256 + o[1], o[2] * 256 + o[3]]
  }

  /** The hextets of a colon-separated token list; a dotted quad may stand last. */
  function TokensOf(tokens: seq<string>): Option<Hextets> {
    if tokens == [] then Some([])
    else
      var token := tokens[0];
      if '.' in token then
        if |tokens| != 1 then None
        else
          match IPv4Of(token)
          case None => None
          case Some(o) => if |o| == 4 then Some(Packed(o)) else None
      else if !IsHexToken(token) then None
      else After([NumberOf(token, 16)], TokensOf(tokens[1..]))
  }

  function GroupsOf(segment: string): Option<Hextets> {
    if segment == "" then Some([])
    else
      match TokensOf(Split(segment, ':'))
      case None => None
      case Some(hextets) => if |hextets| > 8 then None else Some(hextets)
  }

  lemma IPv4HasFour(value: string)
    ensures IPv4Of(value).Some? ==> |IPv4Of(value).value| == 4
  {
    OctetsKeepCount(Split(value, '.'));
  }

  lemma {:induction false} OctetsKeepCount(parts: seq<string>)
    ensures OctetsOf(parts).Some? ==> |OctetsOf(parts).value| == |parts|
    decreases |parts|
  {
    if parts != [] {
      OctetsKeepCount(parts[1..]);
    }
  }

  method ExpandGroups(segment: string) returns (r: Option<Hextets>)
    ensures r == GroupsOf(segment)
  {
    if |segment| == 0 {
      return Some([]);
    }
    var tokens := Split(segment, ':');
    var hextets: Hextets := [];
    assert tokens[0..] == tokens;
    AfterAfter([], [], TokensOf(tokens));
    for index := 0 to |tokens|
      invariant TokensOf(tokens) == After(hextets, TokensOf(tokens[index..]))
    {
      var token := tokens[index];
      assert tokens[index..][1..] == tokens[index + 1..];
      if '.' in token {
        if index != |tokens| - 1 {
          return None;
        }
        var octets := ParseIPv4(token);
        if octets.None? {
          return None;
        }
        IPv4HasFour(token);
        assert hextets + Packed(octets.value) + [] == hextets + Packed(octets.value);
        hextets := hextets + [octets.value[0] * 256 + octets.value[1], octets.value[2] * 256 + octets.value[3]];
      } else {
        if !(1 <= |token| <= 4 && forall c :: c in token ==> IsHex(c)) {
          return None;
        }
        AfterAfter(hextets, [NumberOf(token, 16)], TokensOf(tokens[index + 1..]));
        hextets := hextets + [NumberOf(token, 16)];
      }
    }
    assert hextets + [] == hextets;
    return if |hextets| > 8 then None else Some(hextets);
  }

  /** `value.split("::")`. */
  function SplitElision(s: string): (halves: seq<string>)
    ensures halves != []
  {
    if |s| < 2 then [s]
    else if s[0] == ':' && s[1] == ':' then [""] + SplitElision(s[2..])
    else
      var rest := SplitElision(s[1..]);
      [[s[0]] + rest[0]] + rest[1..]
  }

  function Zeros(n: nat): seq<nat> { seq(n, _ => 0) }

  function IPv6Of(value: string): Option<Hextets> {
    var halves := SplitElision(value);
    if |halves| > 2 then None
    else
      var leading := GroupsOf(halves[0]);
      var trailing := if |halves| == 2 then GroupsOf(halves[1]) else Some([]);
      if leading.None? || trailing.None? then None
      else if |halves| == 1 then (if |leading.value| == 8 then leading else None)
      else
        var gap := 8 - |leading.value| - |trailing.value|;
        if gap < 1 then None else Some(leading.value + Zeros(gap) + trailing.value)
  }

  // ----- classification -----

  predicate AllZero(h: Hextets, from: nat, to: nat)
    requires from <= to < |h|
  {
    forall i :: from <= i <= to ==> h[i] == 0
  }

  function Unpacked(hi: nat, lo: nat): Octets { [hi / 256, hi % 256, lo / 256, lo % 256] }

  /** The IPv4 an address embeds, for the prefixes that embed one. */
  function EmbeddedIPv4(h: Hextets): Option<Octets>
    requires |h| == 8
  {
    if AllZero(h, 0, 4) && (h[5] == 0xffff || h[5] == 0) then Some(Unpacked(h[6], h[7]))
    else if AllZero(h, 0, 3) && h[4] == 0xffff && h[5] == 0 then Some(Unpacked(h[6], h[7]))
    else if h[0] == 0x0064 && h[1] == 0xff9b && AllZero(h, 2, 5) then Some(Unpacked(h[6], h[7]))
    else if h[0] == 0x2002 then Some(Unpacked(h[1], h[2]))
    else None
  }

  /** The masks of the source are written as the quotients they select: the top 8, 10, 10 and 7 bits. */
  function ClassifyIPv6(h: Hextets): AddressClass
    requires |h| == 8
  {
    if AllZero(h, 0, 7) then Unspecified
    else if AllZero(h, 0, 6) && h[7] == 1 then Loopback
    else if EmbeddedIPv4(h).Some? then ClassifyIPv4(EmbeddedIPv4(h).value)
    else if h[0] == 0x2001 && h[1] == 0 then Reserved
    else if h[0] == 0x2001 && h[1] == 0x0db8 then Reserved
    else if h[0] == 0x0100 && AllZero(h, 1, 3) then Reserved
    else if h[0] / 0x100 == 0xff then Reserved
    else if h[0] / 0x40 == 0xfe80 / 0x40 then LinkLocal
    else if h[0] / 0x40 == 0xfec0 / 0x40 then Private
    else if h[0] == 0xfd00 && h[1] == 0x0ec2 && AllZero(h, 2, 6) && h[7] == 0x0254 then Metadata
    else if h[0] / 0x200 == 0xfc00 / 0x200 then Private
    else Public
  }

  // ----- hosts -----

  function Lower(c: char): char {
    if 'A' <= c <= 'Z' then c - 'A' + 'a' else c
  }

  function ToLowerCase(s: string): (r: string)
    ensures |r| == |s| && forall i :: 0 <= i < |s| ==> r[i] == Lower(s[i])
  {
    seq(|s|, i requires 0 <= i < |s| => Lower(s[i]))
  }

  function NormalizeHost(host: string): string {
    var withoutZone := Split(host, '%')[0];
    var unbracketed :=
      if |withoutZone| >= 2 && withoutZone[0] == '[' && withoutZone[|withoutZone| - 1] == ']'
      then withoutZone[1..|withoutZone| - 1] else withoutZone;
    ToLowerCase(unbracketed)
  }

  function ParseAddress(value: string): Option<ParsedAddress> {
    var address := NormalizeHost(value);
    var v4 := IPv4Of(address);
    if v4.Some? && |v4.value| == 4 then Some(ParsedAddress(4, ClassifyIPv4(v4.value)))
    else
      var v6 := IPv6Of(address);
      if v6.Some? && |v6.value| == 8 then Some(ParsedAddress(6, ClassifyIPv6(v6.value))) else None
  }
}
