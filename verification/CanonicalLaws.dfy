/** Canonical text determines meaning, and meaning determines canonical text. */
module CanonicalLaws {
  import opened Prelude
  import opened Canonical

  // ----- the key order is a strict total order -----

  lemma {:induction false} LessIsTotal(a: string, b: string)
    ensures Less(a, b) || Less(b, a) || a == b
    ensures !(Less(a, b) && Less(b, a)) && !Less(a, a)
    decreases |a|
  {
    if a != "" { LessIsTotal(a[1..], a[1..]); }
    if a != "" && b != "" {
      LessIsTotal(a[1..], b[1..]);
      assert a == [a[0]] + a[1..] && b == [b[0]] + b[1..];
    }
  }

  lemma {:induction false} LessIsTransitive(a: string, b: string, c: string)
    requires Less(a, b) && Less(b, c)
    ensures Less(a, c)
    decreases |a|
  {
    if a != "" && a[0] == b[0] == c[0] {
      LessIsTransitive(a[1..], b[1..], c[1..]);
    }
  }

  ghost predicate Sorted(entries: seq<(string, Json)>) {
    forall i, j :: 0 <= i < j < |entries| ==> Less(entries[i].0, entries[j].0)
  }

  lemma {:induction false} InsertSorts(e: (string, Json), sorted: seq<(string, Json)>)
    requires Sorted(sorted) && forall p :: p in sorted ==> p.0 != e.0
    ensures Sorted(Insert(e, sorted))
    decreases |sorted|
  {
    if sorted != [] {
      LessIsTotal(e.0, sorted[0].0);
      if Less(e.0, sorted[0].0) {
        forall j | 0 <= j < |sorted| ensures Less(e.0, sorted[j].0) {
          if j > 0 { LessIsTransitive(e.0, sorted[0].0, sorted[j].0); }
        }
      } else {
        InsertSorts(e, sorted[1..]);
        forall p | p in Insert(e, sorted[1..]) ensures Less(sorted[0].0, p.0) {
        }
      }
    }
  }

  lemma {:induction false} SortSorts(entries: seq<(string, Json)>)
    requires DistinctKeys(entries)
    ensures Sorted(SortByKey(entries))
    decreases |entries|
  {
    if entries != [] {
      SortSorts(entries[1..]);
      InsertSorts(entries[0], SortByKey(entries[1..]));
    }
  }

  lemma {:induction false} DefinedDistinct(entries: seq<(string, Json)>)
    requires DistinctKeys(entries)
    ensures DistinctKeys(Defined(entries))
    decreases |entries|
  {
    if entries != [] { DefinedDistinct(entries[1..]); }
  }

  /** The list an object prints. */
  function Printed(entries: seq<(string, Json)>): seq<(string, Json)> {
    SortByKey(Defined(entries))
  }

  lemma PrintedIsSorted(entries: seq<(string, Json)>)
    requires DistinctKeys(entries)
    ensures Sorted(Printed(entries))
    ensures forall p :: p in Printed(entries) <==> p in entries && p.1 != Undefined
  {
    DefinedDistinct(entries);
    SortSorts(Defined(entries));
  }

  function KeysOf(entries: seq<(string, Json)>): set<string> {
    set i | 0 <= i < |entries| :: entries[i].0
  }

  lemma HeadIsLeast(s: seq<(string, Json)>, k: string)
    requires Sorted(s) && s != [] && k in KeysOf(s)
    ensures k == s[0].0 || Less(s[0].0, k)
  {
  }

  lemma TailKeys(s: seq<(string, Json)>)
    requires Sorted(s) && s != []
    ensures KeysOf(s[1..]) == KeysOf(s) - {s[0].0}
  {
    forall k | k in KeysOf(s) && k != s[0].0 ensures k in KeysOf(s[1..]) {
      var i :| 0 <= i < |s| && s[i].0 == k;
      assert s[1..][i - 1] == s[i];
    }
    forall k | k in KeysOf(s[1..]) ensures k in KeysOf(s) && k != s[0].0 {
      var i :| 0 <= i < |s| - 1 && s[1..][i].0 == k;
      assert s[i + 1].0 == k;
      LessIsTotal(s[0].0, k);
    }
  }

  /** Two sorted lists with the same keys have them in the same places. */
  lemma {:induction false} SameKeysSamePlaces(s: seq<(string, Json)>, t: seq<(string, Json)>)
    requires Sorted(s) && Sorted(t) && KeysOf(s) == KeysOf(t)
    ensures |s| == |t| && forall i :: 0 <= i < |s| ==> s[i].0 == t[i].0
    decreases |s|
  {
    assert s != [] ==> s[0].0 in KeysOf(s);
    assert t != [] ==> t[0].0 in KeysOf(t);
    if s != [] && t != [] {
      HeadIsLeast(s, t[0].0);
      HeadIsLeast(t, s[0].0);
      LessIsTotal(s[0].0, t[0].0);
      TailKeys(s);
      TailKeys(t);
      SameKeysSamePlaces(s[1..], t[1..]);
    }
  }

  // ----- meaning of an object, read off its entries -----

  lemma {:induction false} EntriesMeaningHas(within: Json, entries: seq<(string, Json)>, i: nat)
    requires forall p :: p in entries ==> p.1 < within
    requires DistinctKeys(entries) && i < |entries| && entries[i].1 != Undefined
    ensures var m := EntriesMeaning(within, entries);
            entries[i].0 in m && m[entries[i].0] == Meaning(entries[i].1)
    decreases |entries|
  {
    if i > 0 {
      assert entries[1..][i - 1] == entries[i];
      EntriesMeaningHas(within, entries[1..], i - 1);
    }
  }

  lemma {:induction false} EntriesMeaningOnly(within: Json, entries: seq<(string, Json)>, k: string) returns (i: nat)
    requires forall p :: p in entries ==> p.1 < within
    requires k in EntriesMeaning(within, entries)
    ensures i < |entries| && entries[i].0 == k && entries[i].1 != Undefined
    decreases |entries|
  {
    if entries[0].1 != Undefined && entries[0].0 == k {
      return 0;
    }
    i := EntriesMeaningOnly(within, entries[1..], k);
    i := i + 1;
  }

  /** An object means the finite map its printed list is the graph of. */
  lemma PrintedMeaning(v: Json)
    requires v.Object? && DistinctKeys(v.entries)
    ensures var m := EntriesMeaning(v, v.entries);
            var s := Printed(v.entries);
            && Sorted(s) && KeysOf(s) == m.Keys
            && forall i :: 0 <= i < |s| ==> s[i].0 in m && m[s[i].0] == Meaning(s[i].1)
  {
    var m, s := EntriesMeaning(v, v.entries), Printed(v.entries);
    PrintedIsSorted(v.entries);
    forall i | 0 <= i < |s| ensures s[i].0 in m && m[s[i].0] == Meaning(s[i].1) {
      assert s[i] in s;
      var j :| 0 <= j < |v.entries| && v.entries[j] == s[i];
      EntriesMeaningHas(v, v.entries, j);
    }
    forall k | k in m ensures k in KeysOf(s) {
      var i := EntriesMeaningOnly(v, v.entries, k);
      assert v.entries[i] in s;
    }
  }

  // ----- the same meaning prints the same text -----

  lemma {:induction false} SameMeaningSameText(v: Json, w: Json)
    requires Valid(v) && Valid(w) && Meaning(v) == Meaning(w)
    ensures Canonicalize(v) == Canonicalize(w)
    decreases v, 1, 0
  {
    match v
    case Array(items) => SameItemsSameText(v, w, items, w.items);
    case Object(entries) =>
      PrintedMeaning(v);
      PrintedMeaning(w);
      var s, t := Printed(entries), Printed(w.entries);
      SameKeysSamePlaces(s, t);
      SameEntriesSameText(v, w, s, t);
    case _ =>
  }

  lemma {:induction false} SameItemsSameText(v: Json, w: Json, items: seq<Json>, others: seq<Json>)
    requires forall i :: 0 <= i < |items| ==> items[i] < v && Valid(items[i])
    requires forall i :: 0 <= i < |others| ==> others[i] < w && Valid(others[i])
    requires ItemsMeaning(v, items) == ItemsMeaning(w, others)
    ensures ItemsText(v, items) == ItemsText(w, others)
    decreases v, 0, |items|
  {
    if items != [] {
      assert ItemsMeaning(v, items)[0] == ItemsMeaning(w, others)[0];
      assert ItemsMeaning(v, items)[1..] == ItemsMeaning(w, others)[1..];
      SameMeaningSameText(items[0], others[0]);
      SameItemsSameText(v, w, items[1..], others[1..]);
    }
  }

  lemma {:induction false} SameEntriesSameText(v: Json, w: Json, s: seq<(string, Json)>, t: seq<(string, Json)>)
    requires forall p :: p in s ==> p.1 < v && Valid(p.1)
    requires forall p :: p in t ==> p.1 < w && Valid(p.1)
    requires |s| == |t| && forall i :: 0 <= i < |s| ==> s[i].0 == t[i].0 && Meaning(s[i].1) == Meaning(t[i].1)
    ensures EntriesText(v, s) == EntriesText(w, t)
    decreases v, 0, |s|
  {
    if s != [] {
      assert s[0] in s && t[0] in t;
      SameMeaningSameText(s[0].1, t[0].1);
      SameEntriesSameText(v, w, s[1..], t[1..]);
    }
  }

  // ----- the same text has the same meaning: the printer is self-delimiting -----

  lemma Reassociate(a: string, b: string, c: string)
    ensures (a + b) + c == a + (b + c)
  {
  }

  lemma Regroup3(a: string, b: string, c: string, d: string)
    ensures a + b + c + d == a + (b + (c + d))
  {
    Reassociate(a + b, c, d);
    Reassociate(a, b, c + d);
  }

  lemma Regroup(a: string, b: string, c: string, d: string, e: string)
    ensures a + b + c + d + e == a + (b + (c + (d + e)))
  {
    Reassociate(a + b + c, d, e);
    Reassociate(a + b, c, d + e);
    Reassociate(a, b, c + (d + e));
  }

  lemma CancelFirst(c: char, x: string, y: string)
    requires [c] + x == [c] + y
    ensures x == y
  {
    assert x == ([c] + x)[1..] && y == ([c] + y)[1..];
  }

  lemma FirstOf(a: string, x: string)
    requires a != ""
    ensures a + x != "" && (a + x)[0] == a[0]
  {
  }

  /** What may follow a printed value. */
  predicate Delimits(x: string) {
    x == "" || x[0] == ',' || x[0] == ']' || x[0] == '}'
  }

  predicate StartsWith(x: string, c: char) { x != "" && x[0] == c }

  lemma HexDigitInjective(m: nat, n: nat)
    requires m < 16 && n < 16 && HexDigit(m) == HexDigit(n)
    ensures m == n
  {
  }

  /** An escape never starts with the closing quote, and no escape is a prefix of another. */
  lemma EscapeCharIsPrefixFree(c: char, d: char, x: string, y: string)
    requires EscapeChar(c) + x == EscapeChar(d) + y
    ensures c == d && x == y
  {
    var e, f := EscapeChar(c), EscapeChar(d);
    var whole := e + x;
    assert whole[0] == e[0] == f[0];
    if |e| > 1 && |f| > 1 {
      assert whole[1] == e[1] == f[1];
      if e[1] == 'u' {
        assert e[4] == whole[4] == f[4] && e[5] == whole[5] == f[5];
        HexDigitInjective(c as int / 16, d as int / 16);
        HexDigitInjective(c as int % 16, d as int % 16);
        assert c as int == d as int;
      }
    }
    assert c == d;
    assert x == whole[|e|..] && y == whole[|f|..];
  }

  lemma EscapeStarts(s: string, x: string)
    requires s != "" && StartsWith(x, '\"')
    ensures Escape(s) + x == EscapeChar(s[0]) + (Escape(s[1..]) + x)
    ensures !StartsWith(Escape(s) + x, '\"')
  {
    Reassociate(EscapeChar(s[0]), Escape(s[1..]), x);
    FirstOf(EscapeChar(s[0]), Escape(s[1..]) + x);
  }

  lemma {:induction false} EscapeIsPrefixFree(s: string, t: string, x: string, y: string)
    requires StartsWith(x, '\"') && StartsWith(y, '\"') && Escape(s) + x == Escape(t) + y
    ensures s == t && x == y
    decreases |s|
  {
    if s != "" { EscapeStarts(s, x); }
    if t != "" { EscapeStarts(t, y); }
    if s == "" || t == "" {
      assert "" + x == x && "" + y == y;
    } else {
      EscapeCharIsPrefixFree(s[0], t[0], Escape(s[1..]) + x, Escape(t[1..]) + y);
      EscapeIsPrefixFree(s[1..], t[1..], x, y);
    }
  }

  lemma QuoteIsPrefixFree(s: string, t: string, x: string, y: string)
    requires Quote(s) + x == Quote(t) + y
    ensures s == t && x == y
  {
    var close := "\"";
    Regroup3(close, Escape(s), close, x);
    Regroup3(close, Escape(t), close, y);
    CancelFirst('\"', Escape(s) + (close + x), Escape(t) + (close + y));
    EscapeIsPrefixFree(s, t, close + x, close + y);
    CancelFirst('\"', x, y);
  }

  /** How many number characters a text starts with. */
  function NumberLength(text: string): nat {
    if text == "" || !IsNumberChar(text[0]) then 0 else 1 + NumberLength(text[1..])
  }

  lemma {:induction false} NumberLengthIs(s: string, x: string)
    requires (forall i :: 0 <= i < |s| ==> IsNumberChar(s[i])) && Delimits(x)
    ensures NumberLength(s + x) == |s|
    decreases |s|
  {
    if s == "" {
      assert s + x == x;
    } else {
      assert (s + x)[1..] == s[1..] + x;
      NumberLengthIs(s[1..], x);
    }
  }

  lemma NumberIsPrefixFree(s: NumberText, t: NumberText, x: string, y: string)
    requires s + x == t + y && Delimits(x) && Delimits(y)
    ensures s == t && x == y
  {
    NumberLengthIs(s, x);
    NumberLengthIs(t, y);
    assert s == (s + x)[..|s|] && t == (t + y)[..|s|] && x == (s + x)[|s|..] && y == (t + y)[|s|..];
  }

  /** The first character tells the kinds of value apart. */
  function Head(v: Json): char {
    match v
    case Undefined => 'n'
    case Null => 'n'
    case NonFinite => 'n'
    case Bool(b) => if b then 't' else 'f'
    case Number(text) => text[0]
    case Text(_) => '\"'
    case Array(_) => '['
    case Object(_) => '{'
  }

  lemma HeadIs(v: Json, x: string)
    ensures StartsWith(Canonicalize(v) + x, Head(v))
    ensures Head(v) != ',' && Head(v) != ']' && Head(v) != '}'
    ensures v.Number? ==> IsNumberChar(Head(v))
  {
    assert Canonicalize(v) != "" && Canonicalize(v)[0] == Head(v);
  }

  // A list is its first item and, behind a comma, the rest.

  function MoreItems(within: Json, items: seq<Json>): string
    requires forall i :: 0 <= i < |items| ==> items[i] < within
  {
    if items == [] then "" else "," + ItemsText(within, items)
  }

  lemma ItemsSplit(within: Json, items: seq<Json>, r: string)
    requires items != [] && forall i :: 0 <= i < |items| ==> items[i] < within
    ensures ItemsText(within, items) + r == Canonicalize(items[0]) + (MoreItems(within, items[1..]) + r)
  {
    var head, more := Canonicalize(items[0]), MoreItems(within, items[1..]);
    if |items| > 1 { Reassociate(head, ",", ItemsText(within, items[1..])); }
    assert head + "" == head;
    Reassociate(head, more, r);
  }

  function MoreEntries(within: Json, entries: seq<(string, Json)>): string
    requires forall p :: p in entries ==> p.1 < within
  {
    if entries == [] then "" else "," + EntriesText(within, entries)
  }

  lemma EntriesSplit(within: Json, entries: seq<(string, Json)>, r: string)
    requires entries != [] && forall p :: p in entries ==> p.1 < within
    ensures EntriesText(within, entries) + r ==
            Quote(entries[0].0) + (":" + (Canonicalize(entries[0].1) + (MoreEntries(within, entries[1..]) + r)))
  {
    var key, head, more := Quote(entries[0].0), Canonicalize(entries[0].1), MoreEntries(within, entries[1..]);
    if |entries| > 1 { Reassociate(key + ":" + head, ",", EntriesText(within, entries[1..])); }
    assert key + ":" + head + "" == key + ":" + head;
    Regroup(key, ":", head, more, r);
  }

  lemma {:induction false} SameTextSameMeaning(v: Json, w: Json, x: string, y: string)
    requires Valid(v) && Valid(w) && Delimits(x) && Delimits(y)
    requires Canonicalize(v) + x == Canonicalize(w) + y
    ensures Meaning(v) == Meaning(w) && x == y
    decreases v, 1, 0
  {
    HeadIs(v, x);
    HeadIs(w, y);
    match v
    case Number(text) => NumberIsPrefixFree(text, w.text, x, y);
    case Text(s) => QuoteIsPrefixFree(s, w.s, x, y);
    case Array(items) =>
      BracketsOpen('[', "]", ItemsText(v, items), ItemsText(w, w.items), x, y);
      SameItems(v, w, items, w.items, "]" + x, "]" + y);
      CancelFirst(']', x, y);
    case Object(entries) =>
      var s, t := Printed(entries), Printed(w.entries);
      BracketsOpen('{', "}", EntriesText(v, s), EntriesText(w, t), x, y);
      SameEntries(v, w, s, t, "}" + x, "}" + y);
      CancelFirst('}', x, y);
      PrintedMeaning(v);
      PrintedMeaning(w);
      SameMaps(v, w, s, t);
    case _ => SameAtoms(v, w, x, y);
  }

  lemma SameAtoms(v: Json, w: Json, x: string, y: string)
    requires v.Undefined? || v.Null? || v.NonFinite? || v.Bool?
    requires Head(v) == Head(w) && !w.Number?
    requires Canonicalize(v) + x == Canonicalize(w) + y
    ensures Meaning(v) == Meaning(w) && x == y
  {
    var whole := Canonicalize(v) + x;
    assert Canonicalize(v) == Canonicalize(w);
    assert x == whole[|Canonicalize(v)|..] && y == whole[|Canonicalize(w)|..];
  }

  lemma BracketsOpen(open: char, close: string, left: string, right: string, x: string, y: string)
    requires [open] + left + close + x == [open] + right + close + y
    ensures left + (close + x) == right + (close + y)
  {
    Regroup3([open], left, close, x);
    Regroup3([open], right, close, y);
    CancelFirst(open, left + (close + x), right + (close + y));
  }

  lemma SameMaps(v: Json, w: Json, s: seq<(string, Json)>, t: seq<(string, Json)>)
    requires v.Object? && w.Object? && |s| == |t|
    requires KeysOf(s) == EntriesMeaning(v, v.entries).Keys && KeysOf(t) == EntriesMeaning(w, w.entries).Keys
    requires forall i :: 0 <= i < |s| ==> EntriesMeaning(v, v.entries)[s[i].0] == Meaning(s[i].1)
    requires forall i :: 0 <= i < |t| ==> EntriesMeaning(w, w.entries)[t[i].0] == Meaning(t[i].1)
    requires forall i :: 0 <= i < |s| ==> s[i].0 == t[i].0 && Meaning(s[i].1) == Meaning(t[i].1)
    ensures EntriesMeaning(v, v.entries) == EntriesMeaning(w, w.entries)
  {
    assert KeysOf(s) == KeysOf(t);
    forall k | k in KeysOf(s) ensures EntriesMeaning(v, v.entries)[k] == EntriesMeaning(w, w.entries)[k] {
      var i :| 0 <= i < |s| && s[i].0 == k;
      assert t[i].0 == k;
    }
  }

  /** The text of a list starts with an item or with what closes it, so equal texts pair the items off. */
  lemma {:induction false} SameItems(v: Json, w: Json, items: seq<Json>, others: seq<Json>, x: string, y: string)
    requires forall i :: 0 <= i < |items| ==> items[i] < v && Valid(items[i])
    requires forall i :: 0 <= i < |others| ==> others[i] < w && Valid(others[i])
    requires StartsWith(x, ']') && StartsWith(y, ']')
    requires ItemsText(v, items) + x == ItemsText(w, others) + y
    ensures ItemsMeaning(v, items) == ItemsMeaning(w, others) && x == y
    decreases v, 0, |items|
  {
    if items != [] {
      ItemsSplit(v, items, x);
      HeadIs(items[0], MoreItems(v, items[1..]) + x);
    }
    if others != [] {
      ItemsSplit(w, others, y);
      HeadIs(others[0], MoreItems(w, others[1..]) + y);
    }
    if items == [] || others == [] {
      assert "" + x == x && "" + y == y;
    } else {
      var more, also := MoreItems(v, items[1..]) + x, MoreItems(w, others[1..]) + y;
      SameTextSameMeaning(items[0], others[0], more, also);
      MoreDelimits(ItemsText(v, items[1..]), x, items[1..] == []);
      MoreDelimits(ItemsText(w, others[1..]), y, others[1..] == []);
      if |items| > 1 && |others| > 1 {
        SameItems(v, w, items[1..], others[1..], x, y);
      }
    }
  }

  /** After the first item comes a comma, or what closes the list. */
  lemma MoreDelimits(rest: string, r: string, last: bool)
    requires r != ""
    ensures var more := (if last then "" else "," + rest) + r;
            && more != "" && more[0] == (if last then r[0] else ',')
            && (last ==> more == r) && (!last ==> more == "," + (rest + r) && more[1..] == rest + r)
  {
    assert "" + r == r;
    Reassociate(",", rest, r);
  }

  /** Equal texts pair off their first entries, and what follows them is equal. */
  lemma SameFirstEntry(v: Json, w: Json, s: seq<(string, Json)>, t: seq<(string, Json)>, x: string, y: string)
    requires forall p :: p in s ==> p.1 < v && Valid(p.1)
    requires forall p :: p in t ==> p.1 < w && Valid(p.1)
    requires StartsWith(x, '}') && StartsWith(y, '}') && s != [] && t != []
    requires EntriesText(v, s) + x == EntriesText(w, t) + y
    ensures s[0].0 == t[0].0 && Meaning(s[0].1) == Meaning(t[0].1)
    ensures MoreEntries(v, s[1..]) + x == MoreEntries(w, t[1..]) + y
    decreases v, 0, 0
  {
    assert s[0] in s && t[0] in t;
    EntriesSplit(v, s, x);
    EntriesSplit(w, t, y);
    var more, also := MoreEntries(v, s[1..]) + x, MoreEntries(w, t[1..]) + y;
    var a, b := Canonicalize(s[0].1) + more, Canonicalize(t[0].1) + also;
    QuoteIsPrefixFree(s[0].0, t[0].0, ":" + a, ":" + b);
    CancelFirst(':', a, b);
    MoreDelimits(EntriesText(v, s[1..]), x, s[1..] == []);
    MoreDelimits(EntriesText(w, t[1..]), y, t[1..] == []);
    SameTextSameMeaning(s[0].1, t[0].1, more, also);
  }

  lemma EntriesStart(within: Json, s: seq<(string, Json)>, x: string)
    requires s != [] && forall p :: p in s ==> p.1 < within
    ensures StartsWith(EntriesText(within, s) + x, '\"')
  {
    EntriesSplit(within, s, x);
  }

  lemma {:induction false} SameEntries(v: Json, w: Json, s: seq<(string, Json)>, t: seq<(string, Json)>,
                                       x: string, y: string)
    requires forall p :: p in s ==> p.1 < v && Valid(p.1)
    requires forall p :: p in t ==> p.1 < w && Valid(p.1)
    requires StartsWith(x, '}') && StartsWith(y, '}')
    requires EntriesText(v, s) + x == EntriesText(w, t) + y
    ensures |s| == |t| && x == y
    ensures forall i :: 0 <= i < |s| ==> s[i].0 == t[i].0 && Meaning(s[i].1) == Meaning(t[i].1)
    decreases v, 0, |s|
  {
    if s == [] || t == [] {
      if s != [] { EntriesStart(v, s, x); }
      if t != [] { EntriesStart(w, t, y); }
      assert "" + x == x && "" + y == y;
    } else {
      SameFirstEntry(v, w, s, t, x, y);
      MoreDelimits(EntriesText(v, s[1..]), x, s[1..] == []);
      MoreDelimits(EntriesText(w, t[1..]), y, t[1..] == []);
      if |s| > 1 && |t| > 1 {
        SameEntries(v, w, s[1..], t[1..], x, y);
        AllPaired(s, t);
      }
    }
  }

  lemma AllPaired(s: seq<(string, Json)>, t: seq<(string, Json)>)
    requires s != [] && |s| == |t| && s[0].0 == t[0].0 && Meaning(s[0].1) == Meaning(t[0].1)
    requires forall i :: 0 <= i < |s[1..]| ==> s[1..][i].0 == t[1..][i].0 && Meaning(s[1..][i].1) == Meaning(t[1..][i].1)
    ensures forall i :: 0 <= i < |s| ==> s[i].0 == t[i].0 && Meaning(s[i].1) == Meaning(t[i].1)
  {
    forall i | 0 < i < |s| ensures s[i].0 == t[i].0 && Meaning(s[i].1) == Meaning(t[i].1) {
      assert s[i] == s[1..][i - 1] && t[i] == t[1..][i - 1];
    }
  }

  /** The ledger's canonical form: text and meaning determine each other, for every pair of values. */
  lemma CanonicalIffSameMeaning(v: Json, w: Json)
    requires Valid(v) && Valid(w)
    ensures Canonicalize(v) == Canonicalize(w) <==> Meaning(v) == Meaning(w)
  {
    if Meaning(v) == Meaning(w) {
      SameMeaningSameText(v, w);
    }
    if Canonicalize(v) == Canonicalize(w) {
      SameTextSameMeaning(v, w, "", "");
    }
  }
}
