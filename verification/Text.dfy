/** Splitting and joining text at a one-character separator, and decimal digits. */
module Text {

  /** `s.split(sep)`. */
  function Split(s: string, sep: char): (parts: seq<string>)
    ensures parts != []
  {
    if s == "" then [""]
    else if s[0] == sep then [""] + Split(s[1..], sep)
    else
      var rest := Split(s[1..], sep);
      [[s[0]] + rest[0]] + rest[1..]
  }

  function Join(parts: seq<string>, sep: char): string {
    if parts == [] then ""
    else if |parts| == 1 then parts[0]
    else parts[0] + ([sep] + Join(parts[1..], sep))
  }

  ghost predicate Lacks(parts: seq<string>, sep: char) {
    forall p :: p in parts ==> sep !in p
  }

  lemma {:induction false} JoinSplit(s: string, sep: char)
    ensures Join(Split(s, sep), sep) == s && Lacks(Split(s, sep), sep)
    decreases |s|
  {
    if s != "" {
      JoinSplit(s[1..], sep);
      var rest := Split(s[1..], sep);
      if s[0] == sep {
        assert ([""] + rest)[1..] == rest;
        assert s == [sep] + s[1..];
      } else {
        var parts := [[s[0]] + rest[0]] + rest[1..];
        assert s == [s[0]] + s[1..];
        assert parts[1..] == rest[1..];
        assert Join(parts, sep) == [s[0]] + Join(rest, sep);
      }
    }
  }

  lemma {:induction false} SplitPlain(s: string, sep: char)
    requires sep !in s
    ensures Split(s, sep) == [s]
    decreases |s|
  {
    if s != "" {
      SplitPlain(s[1..], sep);
      assert s == [s[0]] + s[1..];
    }
  }

  lemma {:induction false} SplitFirst(first: string, rest: string, sep: char)
    requires sep !in first
    ensures Split(first + ([sep] + rest), sep) == [first] + Split(rest, sep)
    decreases |first|
  {
    var s := first + ([sep] + rest);
    if first == "" {
      assert s[1..] == rest;
    } else {
      assert s[1..] == first[1..] + ([sep] + rest);
      SplitFirst(first[1..], rest, sep);
      assert first == [first[0]] + first[1..];
    }
  }

  lemma {:induction false} SplitJoin(parts: seq<string>, sep: char)
    requires parts != [] && Lacks(parts, sep)
    ensures Split(Join(parts, sep), sep) == parts
    decreases |parts|
  {
    if |parts| == 1 {
      SplitPlain(parts[0], sep);
    } else {
      SplitFirst(parts[0], Join(parts[1..], sep), sep);
      SplitJoin(parts[1..], sep);
      assert parts == [parts[0]] + parts[1..];
    }
  }

  lemma {:induction false} FirstPart(s: string, sep: char) returns (head: string, tail: string)
    requires sep in s
    ensures sep !in head && s == head + ([sep] + tail)
    decreases |s|
  {
    if s[0] == sep {
      head, tail := "", s[1..];
    } else {
      var h, t := FirstPart(s[1..], sep);
      head, tail := [s[0]] + h, t;
    }
  }

  lemma Regrouped(head: string, tail: string, b: string, sep: char)
    ensures (head + ([sep] + tail)) + ([sep] + b) == head + ([sep] + (tail + ([sep] + b)))
  {
  }

  lemma {:induction false} SplitAppend(a: string, b: string, sep: char)
    ensures Split(a + ([sep] + b), sep) == Split(a, sep) + Split(b, sep)
    decreases |a|
  {
    if sep in a {
      var head, tail := FirstPart(a, sep);
      SplitFirst(head, tail, sep);
      Regrouped(head, tail, b, sep);
      SplitFirst(head, tail + ([sep] + b), sep);
      SplitAppend(tail, b, sep);
      assert ([head] + Split(tail, sep)) + Split(b, sep) == [head] + (Split(tail, sep) + Split(b, sep));
    } else {
      SplitPlain(a, sep);
      SplitFirst(a, b, sep);
    }
  }

  /** Every part split again, end to end. */
  function Flatten(parts: seq<string>, sep: char): seq<string> {
    if parts == [] then [] else Split(parts[0], sep) + Flatten(parts[1..], sep)
  }

  lemma {:induction false} SplitIsFlatten(parts: seq<string>, sep: char)
    requires parts != []
    ensures Split(Join(parts, sep), sep) == Flatten(parts, sep)
    decreases |parts|
  {
    if |parts| == 1 {
      assert parts[1..] == [];
      assert Split(parts[0], sep) + [] == Split(parts[0], sep);
    } else {
      SplitAppend(parts[0], Join(parts[1..], sep), sep);
      SplitIsFlatten(parts[1..], sep);
    }
  }

  /** Two lists join to one text exactly when their parts, split again, are the same. */
  lemma JoinsAlike(a: seq<string>, b: seq<string>, sep: char)
    requires a != [] && b != []
    ensures Join(a, sep) == Join(b, sep) <==> Flatten(a, sep) == Flatten(b, sep)
  {
    SplitIsFlatten(a, sep);
    SplitIsFlatten(b, sep);
    JoinSplit(Join(a, sep), sep);
    JoinSplit(Join(b, sep), sep);
  }

  // ----- decimal text -----

  function DigitChar(n: nat): char
    requires n < 10
  {
    (48 + n) as char
  }

  function Digits(n: nat): (r: string)
    ensures r != "" && forall i :: 0 <= i < |r| ==> '0' <= r[i] <= '9'
  {
    if n < 10 then [DigitChar(n)] else Digits(n / 10) + [DigitChar(n % 10)]
  }

  lemma LastDigit(n: nat)
    ensures var r := Digits(n);
            r[|r| - 1] == DigitChar(n % 10) && r[..|r| - 1] == (if n < 10 then "" else Digits(n / 10))
  {
  }

  lemma {:induction false} DigitsInjective(m: nat, n: nat)
    requires Digits(m) == Digits(n)
    ensures m == n
    decreases m
  {
    LastDigit(m);
    LastDigit(n);
    assert DigitChar(m % 10) as int == 48 + m % 10 && DigitChar(n % 10) as int == 48 + n % 10;
    if m >= 10 && n >= 10 {
      DigitsInjective(m / 10, n / 10);
    }
  }
}
