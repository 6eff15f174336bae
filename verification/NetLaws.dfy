/**
 * What the address parsers accept, stated as the ways an address may be spelt, and what the
 * classifier makes of an IPv4 address in any IPv6 clothing.
 */
module NetLaws {
  import opened Prelude
  import opened Text
  import opened Net

  // ----- dotted quads -----

  predicate IsQuad(o: Octets) {
    |o| == 4 && forall i :: 0 <= i < 4 ==> o[i] <= 255
  }

  function Digit(n: nat): (c: char)
    requires n < 10
    ensures IsDigit(c) && DigitValue(c) == n
  {
    '0' + n as char
  }

  /** Decimal, without leading zeros. */
  function OctetText(n: nat): string
    requires n <= 255
  {
    if n < 10 then [Digit(n)]
    else if n < 100 then [Digit(n / 10), Digit(n % 10)]
    else [Digit(n / 100), Digit(n / 10 % 10), Digit(n % 10)]
  }

  function OctetTexts(o: Octets): (texts: seq<string>)
    requires forall i :: 0 <= i < |o| ==> o[i] <= 255
    ensures |texts| == |o|
  {
    if o == [] then [] else [OctetText(o[0])] + OctetTexts(o[1..])
  }

  function Dotted(o: Octets): string
    requires IsQuad(o)
  {
    Join(OctetTexts(o), '.')
  }

  lemma NumberOfPush(token: string, c: char, base: nat)
    requires (forall d :: d in token ==> IsHex(d)) && IsHex(c)
    ensures (forall d :: d in token + [c] ==> IsHex(d))
    ensures NumberOf(token + [c], base) == NumberOf(token, base) * base + DigitValue(c)
  {
    assert (token + [c])[..|token|] == token;
  }

  lemma OneDigit(a: char)
    requires IsDigit(a)
    ensures NumberOf([a], 10) == DigitValue(a) < 10 && Digit(DigitValue(a)) == a
  {
    NumberOfPush("", a, 10);
    assert "" + [a] == [a];
  }

  lemma TwoDigits(a: char, b: char)
    requires IsDigit(a) && IsDigit(b)
    ensures NumberOf([a, b], 10) == DigitValue(a) * 10 + DigitValue(b)
  {
    OneDigit(a);
    NumberOfPush([a], b, 10);
    assert [a] + [b] == [a, b];
  }

  lemma ThreeDigits(a: char, b: char, c: char)
    requires IsDigit(a) && IsDigit(b) && IsDigit(c)
    ensures NumberOf([a, b, c], 10) == DigitValue(a) * 100 + DigitValue(b) * 10 + DigitValue(c)
  {
    TwoDigits(a, b);
    NumberOfPush([a, b], c, 10);
    assert [a, b] + [c] == [a, b, c];
  }

  /** A text that reads as octet `n` and has no separator in it. */
  ghost predicate Spells(text: string, n: nat) {
    IsOctet(text) && NumberOf(text, 10) == n && '.' !in text && ':' !in text
  }

  lemma OneDigitSpells(n: nat)
    requires n < 10
    ensures Spells([Digit(n)], n)
  {
    OneDigit(Digit(n));
  }

  lemma TwoDigitsSpell(n: nat)
    requires 10 <= n < 100
    ensures Spells([Digit(n / 10), Digit(n % 10)], n)
  {
    DigitIsUnique(Digit(n / 10));
    TwoDigits(Digit(n / 10), Digit(n % 10));
  }

  lemma ThreeDigitsSpell(n: nat)
    requires 100 <= n <= 255
    ensures Spells([Digit(n / 100), Digit(n / 10 % 10), Digit(n % 10)], n)
  {
    DigitIsUnique(Digit(n / 100));
    ThreeDigits(Digit(n / 100), Digit(n / 10 % 10), Digit(n % 10));
  }

  lemma OctetTextReads(n: nat)
    requires n <= 255
    ensures Spells(OctetText(n), n)
  {
    if n < 10 {
      OneDigitSpells(n);
    } else if n < 100 {
      TwoDigitsSpell(n);
    } else {
      ThreeDigitsSpell(n);
    }
  }

  lemma DigitIsUnique(c: char)
    requires IsDigit(c)
    ensures DigitValue(c) < 10 && Digit(DigitValue(c)) == c && (DigitValue(c) == 0 <==> c == '0')
  {
  }

  lemma Places(x: nat, y: nat, z: nat)
    requires x < 10 && y < 10 && z < 10
    ensures (x * 10 + y) / 10 == x && (x * 10 + y) % 10 == y
    ensures (x * 100 + y * 10 + z) / 100 == x && (x * 100 + y * 10 + z) / 10 % 10 == y
    ensures (x * 100 + y * 10 + z) % 10 == z
  {
  }

  lemma TwoCanonical(a: char, b: char)
    requires IsDigit(a) && IsDigit(b) && a != '0'
    ensures NumberOf([a, b], 10) < 100 && OctetText(NumberOf([a, b], 10)) == [a, b]
  {
    TwoDigits(a, b);
    DigitIsUnique(a);
    DigitIsUnique(b);
    Places(DigitValue(a), DigitValue(b), 0);
  }

  lemma ThreeCanonical(a: char, b: char, c: char)
    requires IsDigit(a) && IsDigit(b) && IsDigit(c) && a != '0' && NumberOf([a, b, c], 10) <= 255
    ensures OctetText(NumberOf([a, b, c], 10)) == [a, b, c]
  {
    ThreeDigits(a, b, c);
    DigitIsUnique(a);
    DigitIsUnique(b);
    DigitIsUnique(c);
    Places(DigitValue(a), DigitValue(b), DigitValue(c));
  }

  /** Only one spelling of each octet is read. */
  lemma OctetIsCanonical(part: string)
    requires IsOctet(part)
    ensures OctetText(NumberOf(part, 10)) == part
  {
    assert forall i :: 0 <= i < |part| ==> part[i] in part && IsDigit(part[i]);
    if |part| == 1 {
      assert part == [part[0]];
      OneDigit(part[0]);
    } else if |part| == 2 {
      assert part == [part[0], part[1]];
      TwoCanonical(part[0], part[1]);
    } else {
      assert part == [part[0], part[1], part[2]];
      ThreeCanonical(part[0], part[1], part[2]);
    }
  }

  lemma {:induction false} OctetTextsRead(o: Octets)
    requires forall i :: 0 <= i < |o| ==> o[i] <= 255
    ensures OctetsOf(OctetTexts(o)) == Some(o) && Lacks(OctetTexts(o), '.') && Lacks(OctetTexts(o), ':')
    decreases |o|
  {
    if o != [] {
      var first := OctetText(o[0]);
      OctetTextReads(o[0]);
      OctetTextsRead(o[1..]);
      assert OctetTexts(o) == [first] + OctetTexts(o[1..]);
      assert OctetTexts(o)[1..] == OctetTexts(o[1..]);
      assert o == [o[0]] + o[1..];
    }
  }

  lemma {:induction false} ReadOctetsAreTexts(parts: seq<string>)
    requires OctetsOf(parts).Some?
    ensures var o := OctetsOf(parts).value;
            |o| == |parts| && (forall i :: 0 <= i < |o| ==> o[i] <= 255) && OctetTexts(o) == parts
    decreases |parts|
  {
    if parts != [] {
      OctetIsCanonical(parts[0]);
      ReadOctetsAreTexts(parts[1..]);
      var o := OctetsOf(parts).value;
      assert o[1..] == OctetsOf(parts[1..]).value;
      assert parts == [parts[0]] + parts[1..];
    }
  }

  lemma DottedReads(o: Octets)
    requires IsQuad(o)
    ensures IPv4Of(Dotted(o)) == Some(o)
  {
    OctetTextsRead(o);
    SplitJoin(OctetTexts(o), '.');
  }

  lemma ReadIsDotted(value: string)
    requires IPv4Of(value).Some?
    ensures IsQuad(IPv4Of(value).value) && value == Dotted(IPv4Of(value).value)
  {
    JoinSplit(value, '.');
    ReadOctetsAreTexts(Split(value, '.'));
  }

  /** The IPv4 parser reads exactly the canonical dotted quads: one text for each address, and no other text. */
  lemma IPv4IsCanonical(value: string, o: Octets)
    ensures IPv4Of(value) == Some(o) <==> IsQuad(o) && value == Dotted(o)
  {
    if IPv4Of(value) == Some(o) {
      ReadIsDotted(value);
    }
    if IsQuad(o) && value == Dotted(o) {
      DottedReads(o);
    }
  }

  // ----- spellings of an IPv6 address -----

  /** A piece between colons. */
  datatype Part = Group(digits: string) | Quad(octets: Octets)

  predicate PartOk(p: Part) {
    if p.Group? then IsHexToken(p.digits) else IsQuad(p.octets)
  }

  function PartText(p: Part): string
    requires PartOk(p)
  {
    if p.Group? then p.digits else Dotted(p.octets)
  }

  function PartValue(p: Part): Hextets
    requires PartOk(p)
  {
    if p.Group? then [NumberOf(p.digits, 16)] else Packed(p.octets)
  }

  /** Colon-separated pieces, with a dotted quad nowhere but last. */
  predicate SideOk(side: seq<Part>) {
    && (forall i :: 0 <= i < |side| ==> PartOk(side[i]))
    && (forall i :: 0 <= i < |side| - 1 ==> side[i].Group?)
  }

  function SideTexts(side: seq<Part>): (texts: seq<string>)
    requires SideOk(side)
    ensures |texts| == |side|
  {
    if side == [] then [] else [PartText(side[0])] + SideTexts(side[1..])
  }

  function SideValue(side: seq<Part>): Hextets
    requires SideOk(side)
  {
    if side == [] then [] else PartValue(side[0]) + SideValue(side[1..])
  }

  function SideText(side: seq<Part>): string
    requires SideOk(side)
  {
    Join(SideTexts(side), ':')
  }

  /**
   * The forms of section 2.2 of RFC 4291: all the pieces, or the pieces on either side of one `::`.
   * A dotted quad may end either side; the RFC has it only at the end of the whole text.
   */
  datatype Spelling = Full(all: seq<Part>) | Elided(left: seq<Part>, right: seq<Part>)

  predicate SpellingOk(s: Spelling) {
    match s
    case Full(all) => SideOk(all) && |SideValue(all)| == 8
    case Elided(left, right) => SideOk(left) && SideOk(right) && |SideValue(left)| + |SideValue(right)| <= 7
  }

  /** What the RFC allows of these. */
  predicate InRfc(s: Spelling) {
    SpellingOk(s) && (s.Elided? && s.left != [] ==> s.left[|s.left| - 1].Group?)
  }

  function SpellingText(s: Spelling): string
    requires SpellingOk(s)
  {
    match s
    case Full(all) => SideText(all)
    case Elided(left, right) => SideText(left) + ("::" + SideText(right))
  }

  function Address(s: Spelling): (h: Hextets)
    requires SpellingOk(s)
    ensures |h| == 8
  {
    match s
    case Full(all) => SideValue(all)
    case Elided(left, right) =>
      SideValue(left) + Zeros(8 - |SideValue(left)| - |SideValue(right)|) + SideValue(right)
  }

  // ----- one side -----

  lemma PartReads(p: Part)
    requires PartOk(p)
    ensures PartText(p) != "" && ':' !in PartText(p)
    ensures '.' in PartText(p) <==> p.Quad?
    ensures p.Quad? ==> IPv4Of(PartText(p)) == Some(p.octets)
  {
    if p.Quad? {
      DottedReads(p.octets);
      DottedPlain(p.octets);
    } else {
      assert forall c :: c in p.digits ==> IsHex(c);
    }
  }

  lemma DottedPlain(o: Octets)
    requires IsQuad(o)
    ensures ':' !in Dotted(o) && '.' in Dotted(o)
  {
    OctetTextsRead(o);
    JoinPlain(OctetTexts(o), '.', ':');
    assert Dotted(o) == OctetTexts(o)[0] + (['.'] + Join(OctetTexts(o)[1..], '.'));
    assert Dotted(o)[|OctetTexts(o)[0]|] == '.';
  }

  lemma {:induction false} JoinPlain(parts: seq<string>, sep: char, c: char)
    requires Lacks(parts, c) && c != sep
    ensures c !in Join(parts, sep)
    decreases |parts|
  {
    if |parts| > 1 {
      assert parts[0] in parts && forall p :: p in parts[1..] ==> p in parts;
      JoinPlain(parts[1..], sep, c);
    } else if |parts| == 1 {
      assert parts[0] in parts;
    }
  }

  lemma {:induction false} SideReads(side: seq<Part>)
    requires SideOk(side)
    ensures TokensOf(SideTexts(side)) == Some(SideValue(side))
    decreases |side|
  {
    if side != [] {
      PartReads(side[0]);
      SideReads(side[1..]);
      var texts := SideTexts(side);
      assert texts[1..] == SideTexts(side[1..]);
      if side[0].Quad? {
        assert |side| == 1 && side[1..] == [];
        assert SideValue(side) == Packed(side[0].octets) + [] == Packed(side[0].octets);
        assert texts[0] == PartText(side[0]);
      }
    }
  }

  lemma {:induction false} TokensSpell(tokens: seq<string>) returns (side: seq<Part>)
    requires TokensOf(tokens).Some?
    ensures SideOk(side) && SideTexts(side) == tokens && SideValue(side) == TokensOf(tokens).value
    decreases |tokens|
  {
    if tokens == [] {
      side := [];
    } else if '.' in tokens[0] {
      ReadIsDotted(tokens[0]);
      side := [Quad(IPv4Of(tokens[0]).value)];
      assert side[1..] == [];
      assert SideValue(side) == Packed(side[0].octets) + [];
    } else {
      var rest := TokensSpell(tokens[1..]);
      side := [Group(tokens[0])] + rest;
      assert side[1..] == rest;
    }
  }

  lemma {:induction false} TextsPlain(side: seq<Part>)
    requires SideOk(side)
    ensures forall t :: t in SideTexts(side) ==> t != "" && ':' !in t
    decreases |side|
  {
    if side != [] {
      PartReads(side[0]);
      TextsPlain(side[1..]);
    }
  }

  lemma GroupsRead(side: seq<Part>)
    requires SideOk(side)
    ensures GroupsOf(SideText(side)) == if |SideValue(side)| > 8 then None else Some(SideValue(side))
  {
    TextsPlain(side);
    SideReads(side);
    if side != [] {
      SplitJoin(SideTexts(side), ':');
      PlainJoin(SideTexts(side));
    }
  }

  lemma GroupsSpell(segment: string) returns (side: seq<Part>)
    requires GroupsOf(segment).Some?
    ensures SideOk(side) && SideText(side) == segment && SideValue(side) == GroupsOf(segment).value
  {
    if segment == "" {
      side := [];
    } else {
      JoinSplit(segment, ':');
      side := TokensSpell(Split(segment, ':'));
    }
  }

  // ----- the elision -----

  ghost predicate NoDouble(s: string) {
    forall i :: 0 <= i < |s| - 1 ==> !(s[i] == ':' && s[i + 1] == ':')
  }

  lemma {:induction false} PlainJoin(parts: seq<string>)
    requires parts != [] && forall t :: t in parts ==> t != "" && ':' !in t
    ensures var s := Join(parts, ':'); s != "" && s[0] != ':' && s[|s| - 1] != ':' && NoDouble(s)
    decreases |parts|
  {
    assert parts[0] in parts;
    if |parts| > 1 {
      assert forall t :: t in parts[1..] ==> t in parts;
      PlainJoin(parts[1..]);
    }
  }

  lemma {:induction false} ElisionOf(s: string)
    requires NoDouble(s)
    ensures SplitElision(s) == [s]
    decreases |s|
  {
    if |s| >= 2 {
      forall i | 0 <= i < |s[1..]| - 1 ensures !(s[1..][i] == ':' && s[1..][i + 1] == ':') {
        assert s[1..][i] == s[i + 1];
      }
      ElisionOf(s[1..]);
      assert s == [s[0]] + s[1..];
    }
  }

  lemma {:induction false} ElisionSplits(left: string, right: string)
    requires NoDouble(left) && (left != "" ==> left[|left| - 1] != ':') && NoDouble(right)
    ensures SplitElision(left + ("::" + right)) == [left, right]
    decreases |left|
  {
    var s := left + ("::" + right);
    ElisionOf(right);
    if left == "" {
      assert s[2..] == right;
    } else {
      forall i | 0 <= i < |left[1..]| - 1 ensures !(left[1..][i] == ':' && left[1..][i + 1] == ':') {
        assert left[1..][i] == left[i + 1];
      }
      assert s[1..] == left[1..] + ("::" + right);
      assert s[1] == if |left| > 1 then left[1] else ':';
      ElisionSplits(left[1..], right);
      assert left == [left[0]] + left[1..];
    }
  }

  lemma {:induction false} ElisionRejoins(s: string)
    ensures |SplitElision(s)| == 1 ==> SplitElision(s)[0] == s
    ensures |SplitElision(s)| == 2 ==> s == SplitElision(s)[0] + ("::" + SplitElision(s)[1])
    decreases |s|
  {
    if |s| >= 2 {
      if s[0] == ':' && s[1] == ':' {
        ElisionRejoins(s[2..]);
        assert s == "::" + s[2..];
      } else {
        ElisionRejoins(s[1..]);
        assert s == [s[0]] + s[1..];
      }
    }
  }

  // ----- the parser -----

  lemma SideIsPlain(side: seq<Part>)
    requires SideOk(side)
    ensures var t := SideText(side); NoDouble(t) && (t != "" ==> t[|t| - 1] != ':')
  {
    TextsPlain(side);
    if side != [] {
      PlainJoin(SideTexts(side));
    }
  }

  lemma FullReads(all: seq<Part>)
    requires SpellingOk(Full(all))
    ensures IPv6Of(SideText(all)) == Some(SideValue(all))
  {
    SideIsPlain(all);
    ElisionOf(SideText(all));
    GroupsRead(all);
  }

  /** A text that may stand beside an elision and reads as these hextets. */
  ghost predicate Half(text: string, h: Hextets) {
    && NoDouble(text) && (text != "" ==> text[|text| - 1] != ':')
    && GroupsOf(text) == Some(h)
  }

  lemma HalvesRead(left: string, right: string, h: Hextets, t: Hextets)
    requires Half(left, h) && Half(right, t) && |h| + |t| <= 7
    ensures IPv6Of(left + ("::" + right)) == Some(h + Zeros(8 - |h| - |t|) + t)
  {
    ElisionSplits(left, right);
  }

  lemma SideIsHalf(side: seq<Part>)
    requires SideOk(side) && |SideValue(side)| <= 7
    ensures Half(SideText(side), SideValue(side))
  {
    SideIsPlain(side);
    GroupsRead(side);
  }

  lemma ElidedReads(left: seq<Part>, right: seq<Part>)
    requires SpellingOk(Elided(left, right))
    ensures IPv6Of(SideText(left) + ("::" + SideText(right))) == Some(Address(Elided(left, right)))
  {
    SideIsHalf(left);
    SideIsHalf(right);
    HalvesRead(SideText(left), SideText(right), SideValue(left), SideValue(right));
  }

  lemma SpellingReads(s: Spelling)
    requires SpellingOk(s)
    ensures IPv6Of(SpellingText(s)) == Some(Address(s))
  {
    match s
    case Full(all) => FullReads(all);
    case Elided(left, right) => ElidedReads(left, right);
  }

  lemma ReadIsSpelt(value: string) returns (s: Spelling)
    requires IPv6Of(value).Some?
    ensures SpellingOk(s) && SpellingText(s) == value && Address(s) == IPv6Of(value).value
  {
    var halves := SplitElision(value);
    ElisionRejoins(value);
    var left := GroupsSpell(halves[0]);
    if |halves| == 1 {
      s := Full(left);
    } else {
      var right := GroupsSpell(halves[1]);
      s := Elided(left, right);
    }
  }

  lemma {:induction false} SideInRange(side: seq<Part>)
    requires SideOk(side)
    ensures forall i :: 0 <= i < |SideValue(side)| ==> SideValue(side)[i] < 0x1_0000
    decreases |side|
  {
    if side != [] {
      SideInRange(side[1..]);
      if side[0].Group? {
        TokenInRange(side[0].digits);
      }
    }
  }

  lemma {:induction false} TokenInRange(token: string)
    requires |token| <= 4 && forall c :: c in token ==> IsHex(c)
    ensures NumberOf(token, 16) < if |token| == 0 then 1 else if |token| == 1 then 0x10
                                  else if |token| == 2 then 0x100 else if |token| == 3 then 0x1000 else 0x1_0000
    decreases |token|
  {
    if token != "" {
      TokenInRange(token[..|token| - 1]);
      assert IsHex(token[|token| - 1]) && DigitValue(token[|token| - 1]) < 16;
    }
  }

  /**
   * The IPv6 parser reads exactly the spellings above, each as the address it spells; so any two
   * spellings of one address read the same, and whatever is read is eight values below 65536.
   */
  lemma IPv6ReadsSpellings(value: string, h: Hextets)
    ensures IPv6Of(value) == Some(h) <==> exists s :: SpellingOk(s) && SpellingText(s) == value && Address(s) == h
    ensures IPv6Of(value) == Some(h) ==> |h| == 8 && forall i :: 0 <= i < 8 ==> h[i] < 0x1_0000
  {
    if IPv6Of(value) == Some(h) {
      var s := ReadIsSpelt(value);
      match s
      case Full(all) => SideInRange(all);
      case Elided(left, right) =>
        SideInRange(left);
        SideInRange(right);
    }
    forall s | SpellingOk(s) && SpellingText(s) == value ensures IPv6Of(value) == Some(Address(s)) {
      SpellingReads(s);
    }
  }

  lemma {:induction false} TextsAreUnique(a: seq<Part>, b: seq<Part>)
    requires SideOk(a) && SideOk(b) && SideTexts(a) == SideTexts(b)
    ensures a == b
    decreases |a|
  {
    if a != [] {
      var texts := SideTexts(a);
      assert texts[0] == PartText(a[0]) == PartText(b[0]);
      assert texts[1..] == SideTexts(a[1..]) && texts[1..] == SideTexts(b[1..]);
      PartReads(a[0]);
      PartReads(b[0]);
      TextsAreUnique(a[1..], b[1..]);
      assert a == [a[0]] + a[1..] && b == [b[0]] + b[1..];
    }
  }

  lemma SidesAreUnique(a: seq<Part>, b: seq<Part>)
    requires SideOk(a) && SideOk(b) && SideText(a) == SideText(b)
    ensures a == b
  {
    TextsPlain(a);
    TextsPlain(b);
    if a != [] {
      PlainJoin(SideTexts(a));
      SplitJoin(SideTexts(a), ':');
    }
    if b != [] {
      PlainJoin(SideTexts(b));
      SplitJoin(SideTexts(b), ':');
    }
    TextsAreUnique(a, b);
  }

  /** The halves a spelling's text splits into. */
  lemma HalvesOf(s: Spelling)
    requires SpellingOk(s)
    ensures SplitElision(SpellingText(s))
            == if s.Full? then [SideText(s.all)] else [SideText(s.left), SideText(s.right)]
  {
    if s.Full? {
      SideIsPlain(s.all);
      ElisionOf(SideText(s.all));
    } else {
      SideIsPlain(s.left);
      SideIsPlain(s.right);
      ElisionSplits(SideText(s.left), SideText(s.right));
    }
  }

  /** A text is spelt in one way. */
  lemma SpellingIsUnique(s: Spelling, t: Spelling)
    requires SpellingOk(s) && SpellingOk(t) && SpellingText(s) == SpellingText(t)
    ensures s == t
  {
    HalvesOf(s);
    HalvesOf(t);
    if s.Full? {
      SidesAreUnique(s.all, t.all);
    } else {
      SidesAreUnique(s.left, t.left);
      SidesAreUnique(s.right, t.right);
    }
  }

  /** A side has a dot in it exactly when it ends in a dotted quad. */
  lemma {:induction false} DotMeansQuad(side: seq<Part>)
    requires SideOk(side)
    ensures '.' in SideText(side) <==> side != [] && side[|side| - 1].Quad?
    decreases |side|
  {
    if side != [] {
      PartReads(side[0]);
      DotMeansQuad(side[1..]);
      var texts := SideTexts(side);
      assert texts[1..] == SideTexts(side[1..]);
      if |side| == 1 {
        assert SideText(side) == PartText(side[0]);
      } else {
        assert SideText(side) == texts[0] + ([':'] + SideText(side[1..]));
        assert side[1..][|side| - 2] == side[|side| - 1];
      }
    }
  }

  /** Of the texts read, those outside the RFC are exactly the ones with a dot before their elision. */
  lemma BeyondRfc(value: string)
    requires IPv6Of(value).Some?
    ensures (exists t :: InRfc(t) && SpellingText(t) == value) <==>
            !(|SplitElision(value)| == 2 && '.' in SplitElision(value)[0])
  {
    var s := ReadIsSpelt(value);
    HalvesOf(s);
    forall t | InRfc(t) && SpellingText(t) == value ensures t == s {
      SpellingIsUnique(s, t);
    }
    if s.Elided? {
      DotMeansQuad(s.left);
    }
    assert InRfc(s) <==> !(s.Elided? && '.' in SideText(s.left));
  }

  /** Such texts: a dotted quad, the elision, and a short enough side. */
  lemma QuadBeforeElision(o: Octets, right: seq<Part>)
    requires IsQuad(o) && SideOk(right) && |SideValue(right)| <= 5
    ensures var value := Dotted(o) + ("::" + SideText(right));
            IPv6Of(value).Some? && !exists t :: InRfc(t) && SpellingText(t) == value
  {
    var left := [Quad(o)];
    assert SideTexts(left) == [Dotted(o)] + SideTexts(left[1..]) && left[1..] == [];
    assert SideValue(left) == Packed(o) + [];
    assert SideText(left) == Dotted(o);
    SpellingReads(Elided(left, right));
    HalvesOf(Elided(left, right));
    DotMeansQuad(left);
    BeyondRfc(Dotted(o) + ("::" + SideText(right)));
  }

  lemma OneGroup()
    ensures SideOk([Group("5")]) && SideText([Group("5")]) == "5" && |SideValue([Group("5")])| == 1
  {
    assert [Group("5")][1..] == [];
    assert SideTexts([Group("5")]) == ["5"] + SideTexts([]);
    assert SideValue([Group("5")]) == PartValue(Group("5")) + SideValue([]);
  }

  /** For instance `1.2.3.4::5`. */
  lemma QuadBeforeElisionIsRead()
    ensures IPv6Of("1.2.3.4::5").Some? && !exists t :: InRfc(t) && SpellingText(t) == "1.2.3.4::5"
  {
    OneGroup();
    FourTexts(1, 2, 3, 4);
    FourJoined("1", "2", "3", "4");
    assert "1" + (['.'] + ("2" + (['.'] + ("3" + (['.'] + "4"))))) == "1.2.3.4";
    assert "1.2.3.4" + ("::" + "5") == "1.2.3.4::5";
    QuadBeforeElision([1, 2, 3, 4], [Group("5")]);
  }

  lemma FourTexts(a: nat, b: nat, c: nat, d: nat)
    requires a <= 255 && b <= 255 && c <= 255 && d <= 255
    ensures OctetTexts([a, b, c, d]) == [OctetText(a), OctetText(b), OctetText(c), OctetText(d)]
  {
    assert [a, b, c, d][1..] == [b, c, d] && [b, c, d][1..] == [c, d] && [c, d][1..] == [d] && [d][1..] == [];
    assert OctetTexts([d]) == [OctetText(d)];
    assert OctetTexts([c, d]) == [OctetText(c), OctetText(d)];
    assert OctetTexts([b, c, d]) == [OctetText(b), OctetText(c), OctetText(d)];
  }

  lemma FourJoined(a: string, b: string, c: string, d: string)
    ensures Join([a, b, c, d], '.') == a + (['.'] + (b + (['.'] + (c + (['.'] + d)))))
  {
    assert [a, b, c, d][1..] == [b, c, d] && [b, c, d][1..] == [c, d] && [c, d][1..] == [d];
    assert Join([c, d], '.') == c + (['.'] + Join([d], '.'));
    assert Join([b, c, d], '.') == b + (['.'] + Join([c, d], '.'));
  }

  // ----- classification -----

  /** The hextets with nothing set but these. */
  function LowIPv4(h5: nat, h4: nat, o: Octets): Hextets
    requires IsQuad(o)
  {
    [0, 0, 0, 0, h4, h5] + Packed(o)
  }

  /** `h` carries `o`: mapped, translated, NAT64 (RFC 6052), 6to4 (RFC 3056) or compatible. */
  predicate Carries(h: Hextets, o: Octets)
    requires |h| == 8 && IsQuad(o)
  {
    || h == LowIPv4(0xffff, 0, o)
    || h == LowIPv4(0, 0xffff, o)
    || h == [0x0064, 0xff9b, 0, 0, 0, 0] + Packed(o)
    || (h[0] == 0x2002 && h[1..3] == Packed(o))
    || h == LowIPv4(0, 0, o)
  }

  lemma PackedUnpacks(o: Octets)
    requires IsQuad(o)
    ensures Unpacked(Packed(o)[0], Packed(o)[1]) == o
  {
  }

  lemma CarriedIsFound(h: Hextets, o: Octets)
    requires |h| == 8 && IsQuad(o) && Carries(h, o)
    ensures EmbeddedIPv4(h) == Some(o)
  {
    PackedUnpacks(o);
    if h[0] == 0x2002 {
      assert h[1] == h[1..3][0] && h[2] == h[1..3][1];
    }
  }

  /** An IPv4 address is the same thing in every IPv6 clothing, save `::1`, which is the IPv6 loopback. */
  lemma CarriedClass(h: Hextets, o: Octets)
    requires |h| == 8 && IsQuad(o) && Carries(h, o)
    ensures ClassifyIPv6(h) == ClassifyIPv4(o) <==> h != [0, 0, 0, 0, 0, 0, 0, 1]
  {
    CarriedIsFound(h, o);
    if AllZero(h, 0, 7) {
      assert h == [0, 0, 0, 0, 0, 0, 0, 0];
      assert o == Unpacked(0, 0);
    } else if AllZero(h, 0, 6) && h[7] == 1 {
      assert h == [0, 0, 0, 0, 0, 0, 0, 1];
      assert o == Unpacked(0, 1);
    }
  }

  // ----- the classes as address blocks -----

  /** The 32-bit number of an address. */
  function Number(o: Octets): nat
    requires |o| == 4
  {
    ((o[0] * 256 + o[1]) * 256 + o[2]) * 256 + o[3]
  }

  /** A CIDR block: its first address and how many addresses it holds. */
  datatype Block = Block(first: Octets, size: nat)

  const SLASH_4 := 0x1000_0000
  const SLASH_8 := 0x100_0000
  const SLASH_10 := 0x40_0000
  const SLASH_12 := 0x10_0000
  const SLASH_15 := 0x2_0000
  const SLASH_16 := 0x1_0000
  const SLASH_24 := 0x100

  predicate Within(o: Octets, b: Block) {
    |o| == 4 && |b.first| == 4 && Number(b.first) <= Number(o) < Number(b.first) + b.size
  }

  lemma OctetsOfNumber(o: Octets)
    requires IsQuad(o)
    ensures var n := Number(o);
            o[0] == n / 0x100_0000 && o[1] == n / 0x1_0000 % 256 && o[2] == n / 0x100 % 256 && o[3] == n % 256
  {
  }

  /** RFC 1918 and the shared address space of RFC 6598. */
  lemma PrivateBlocks(o: Octets)
    requires IsQuad(o)
    ensures ClassifyIPv4(o) == Private <==>
              || Within(o, Block([10, 0, 0, 0], SLASH_8))
              || Within(o, Block([100, 64, 0, 0], SLASH_10))
              || Within(o, Block([172, 16, 0, 0], SLASH_12))
              || Within(o, Block([192, 168, 0, 0], SLASH_16))
  {
    OctetsOfNumber(o);
  }

  lemma LocalBlocks(o: Octets)
    requires IsQuad(o)
    ensures ClassifyIPv4(o) == Loopback <==> Within(o, Block([127, 0, 0, 0], SLASH_8))
    ensures ClassifyIPv4(o) == Metadata <==> o == [169, 254, 169, 254] || o == [169, 254, 170, 2]
    ensures ClassifyIPv4(o) == LinkLocal <==>
              Within(o, Block([169, 254, 0, 0], SLASH_16)) && o != [169, 254, 169, 254] && o != [169, 254, 170, 2]
    ensures ClassifyIPv4(o) == Unspecified <==> o == [0, 0, 0, 0]
  {
    OctetsOfNumber(o);
  }

  /** The special-purpose blocks an ordinary destination never lies in. */
  predicate InSpecialBlock(o: Octets) {
    || Within(o, Block([192, 0, 0, 0], SLASH_24)) || Within(o, Block([192, 0, 2, 0], SLASH_24))
    || Within(o, Block([192, 88, 99, 0], SLASH_24)) || Within(o, Block([198, 18, 0, 0], SLASH_15))
    || Within(o, Block([198, 51, 100, 0], SLASH_24)) || Within(o, Block([203, 0, 113, 0], SLASH_24))
  }

  lemma SpecialBlocks(o: Octets)
    requires IsQuad(o)
    ensures InSpecialBlock(o) <==>
              || (o[0] == 192 && o[1] == 0 && (o[2] == 0 || o[2] == 2)) || (o[0] == 192 && o[1] == 88 && o[2] == 99)
              || (o[0] == 198 && (o[1] == 18 || o[1] == 19)) || (o[0] == 198 && o[1] == 51 && o[2] == 100)
              || (o[0] == 203 && o[1] == 0 && o[2] == 113)
  {
    OctetsOfNumber(o);
  }

  /** Those, what is left of the first block, multicast and everything above. */
  lemma ReservedBlocks(o: Octets)
    requires IsQuad(o)
    ensures ClassifyIPv4(o) == Reserved <==>
              || (Within(o, Block([0, 0, 0, 0], SLASH_8)) && o != [0, 0, 0, 0])
              || InSpecialBlock(o)
              || Within(o, Block([224, 0, 0, 0], SLASH_4)) || Within(o, Block([240, 0, 0, 0], SLASH_4))
  {
    OctetsOfNumber(o);
    SpecialBlocks(o);
  }

  /** The blocks of an address that carries no IPv4, by its first hextets. */
  lemma IPv6Blocks(h: Hextets)
    requires |h| == 8 && (forall i :: 0 <= i < 8 ==> h[i] < 0x1_0000) && EmbeddedIPv4(h).None?
    ensures ClassifyIPv6(h) == LinkLocal <==> 0xfe80 <= h[0] <= 0xfebf
    ensures ClassifyIPv6(h) == Metadata <==> h == [0xfd00, 0x0ec2, 0, 0, 0, 0, 0, 0x0254]
    ensures ClassifyIPv6(h) == Private <==>
              (0xfc00 <= h[0] <= 0xfdff || 0xfec0 <= h[0] <= 0xfeff) && h != [0xfd00, 0x0ec2, 0, 0, 0, 0, 0, 0x0254]
    ensures ClassifyIPv6(h) == Reserved <==>
              || 0xff00 <= h[0] || (h[0] == 0x2001 && (h[1] == 0 || h[1] == 0x0db8)) || h[..4] == [0x0100, 0, 0, 0]
    ensures ClassifyIPv6(h) != Unspecified && ClassifyIPv6(h) != Loopback
  {
  }

  // ----- hosts -----

  lemma DottedHead(o: Octets)
    requires IsQuad(o)
    ensures Dotted(o) != "" && IsDigit(Dotted(o)[0])
  {
    OctetTextReads(o[0]);
    assert Dotted(o) == OctetTexts(o)[0] + (['.'] + Join(OctetTexts(o)[1..], '.'));
    assert OctetTexts(o)[0] == OctetText(o[0]);
    assert OctetText(o[0])[0] in OctetText(o[0]);
  }

  lemma PartHead(p: Part)
    requires PartOk(p)
    ensures PartText(p) != "" && IsHex(PartText(p)[0])
  {
    if p.Quad? {
      DottedHead(p.octets);
    } else {
      assert p.digits[0] in p.digits;
    }
  }

  lemma SideHead(side: seq<Part>)
    requires SideOk(side) && side != []
    ensures SideText(side) != "" && IsHex(SideText(side)[0])
  {
    PartHead(side[0]);
    assert SideTexts(side)[0] == PartText(side[0]);
  }

  lemma SidesHaveMany(side: seq<Part>)
    requires SideOk(side) && |SideValue(side)| == 8
    ensures |side| > 1
  {
  }

  /** An IPv6 text starts with a hex digit or a colon, and has a colon in it. */
  lemma SpellingHead(s: Spelling)
    requires SpellingOk(s)
    ensures var t := SpellingText(s); t != "" && (IsHex(t[0]) || t[0] == ':') && ':' in t
  {
    if s.Full? {
      SideHead(s.all);
      SidesHaveMany(s.all);
      assert SideText(s.all) == SideTexts(s.all)[0] + ([':'] + Join(SideTexts(s.all)[1..], ':'));
      assert SideText(s.all)[|SideTexts(s.all)[0]|] == ':';
    } else {
      var t := SpellingText(s);
      if s.left != [] {
        SideHead(s.left);
      }
      assert t[|SideText(s.left)|] == ':';
    }
  }

  lemma SpeltClass(host: string, s: Spelling)
    requires SpellingOk(s) && NormalizeHost(host) == SpellingText(s)
    ensures ParseAddress(host) == Some(ParsedAddress(6, ClassifyIPv6(Address(s))))
  {
    SpellingHead(s);
    SpellingReads(s);
    var t := SpellingText(s);
    if IPv4Of(t).Some? {
      ReadIsDotted(t);
      DottedPlain(IPv4Of(t).value);
    }
  }

  lemma QuadClass(host: string, o: Octets)
    requires IsQuad(o) && NormalizeHost(host) == Dotted(o)
    ensures ParseAddress(host) == Some(ParsedAddress(4, ClassifyIPv4(o)))
  {
    DottedReads(o);
  }

  /**
   * Whatever way an IPv4 address is dressed and spelt, its host is classified as the plain address
   * is, save for the one IPv6 address that is the loopback.
   */
  lemma DressedClass(host: string, s: Spelling, plain: string, o: Octets)
    requires SpellingOk(s) && NormalizeHost(host) == SpellingText(s)
    requires IsQuad(o) && NormalizeHost(plain) == Dotted(o) && Carries(Address(s), o)
    ensures ParseAddress(host).Some? && ParseAddress(plain).Some?
    ensures ParseAddress(host).value.classification == ParseAddress(plain).value.classification <==>
            Address(s) != [0, 0, 0, 0, 0, 0, 0, 1]
  {
    SpeltClass(host, s);
    QuadClass(plain, o);
    CarriedClass(Address(s), o);
  }

  ghost predicate Bare(raw: string) {
    '%' !in raw && ']' !in raw && raw != "" && raw[0] != '['
  }

  lemma PlainHost(raw: string)
    requires Bare(raw)
    ensures NormalizeHost(raw) == ToLowerCase(raw)
    ensures NormalizeHost("[" + (raw + "]")) == ToLowerCase(raw)
  {
    SplitPlain(raw, '%');
    var bracketed := "[" + (raw + "]");
    SplitPlain(bracketed, '%');
    assert bracketed[1..|bracketed| - 1] == raw;
  }

  /** Letter case, brackets and a zone after them do not matter. */
  lemma HostForms(raw: string, zone: string)
    requires Bare(raw)
    ensures NormalizeHost(raw) == NormalizeHost("[" + (raw + "]")) == ToLowerCase(raw)
    ensures NormalizeHost(raw + ("%" + zone)) == NormalizeHost("[" + (raw + "]") + ("%" + zone)) == ToLowerCase(raw)
  {
    PlainHost(raw);
    SplitFirst(raw, zone, '%');
    SplitFirst("[" + (raw + "]"), zone, '%');
    var bracketed := "[" + (raw + "]");
    assert bracketed[1..|bracketed| - 1] == raw;
  }

  /** A zone inside the brackets does: the closing bracket goes with it, and no address is read. */
  lemma ZoneInBrackets(raw: string, zone: string)
    requires Bare(raw)
    ensures ParseAddress("[" + raw + ("%" + (zone + "]"))) == None
  {
    var host := "[" + raw;
    SplitFirst(host, zone + "]", '%');
    assert host[|host| - 1] == raw[|raw| - 1];
    assert NormalizeHost(host + ("%" + (zone + "]"))) == ToLowerCase(host);
    BracketReadsNothing(ToLowerCase(host));
  }

  lemma BracketReadsNothing(t: string)
    requires t != "" && t[0] == '['
    ensures IPv4Of(t) == None && IPv6Of(t) == None
  {
    if IPv4Of(t).Some? {
      ReadIsDotted(t);
      DottedHead(IPv4Of(t).value);
    }
    if IPv6Of(t).Some? {
      var s := ReadIsSpelt(t);
      SpellingHead(s);
    }
  }
}
