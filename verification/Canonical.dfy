/**
 * The canonical text that every signature covers.
 *
 * Strings are sequences of UTF-16 code units, as in JavaScript. `Undefined` is the value
 * that a missing optional field reads as; it prints like null.
 */
module Canonical {

  type CodeUnit = n: int | 0 <= n < 0x10000
  type Text = seq<CodeUnit>

  /** Integers that a JavaScript number holds exactly. */
  type SafeInt = n: int | -0x20000000000000 < n < 0x20000000000000

  datatype Json =
    | Undefined
    | Null
    | Bool(b: bool)
    | Num(n: SafeInt)
    | Str(s: Text)
    | Arr(items: seq<Json>)
    | Obj(fields: seq<Field>)

  datatype Field = Field(key: Text, value: Json)

  const QUOTE: CodeUnit := 0x22
  const COMMA: CodeUnit := 0x2C
  const MINUS: CodeUnit := 0x2D
  const SLASH: CodeUnit := 0x2F
  const COLON: CodeUnit := 0x3A
  const OPEN_BRACKET: CodeUnit := 0x5B
  const BACKSLASH: CodeUnit := 0x5C
  const CLOSE_BRACKET: CodeUnit := 0x5D
  const LETTER_U: CodeUnit := 0x75
  const OPEN_BRACE: CodeUnit := 0x7B
  const CLOSE_BRACE: CodeUnit := 0x7D
  /** "null", "true" and "false". */
  const NULL: Text := [0x6E, 0x75, 0x6C, 0x6C]
  const TRUE: Text := [0x74, 0x72, 0x75, 0x65]
  const FALSE: Text := [0x66, 0x61, 0x6C, 0x73, 0x65]

  // ---- numbers ------------------------------------------------------------------------

  predicate IsDigit(c: CodeUnit) { 0x30 <= c <= 0x39 }

  /** Decimal digits of a natural number, no leading zeros. */
  function PrintNat(n: nat): Text {
    if n < 10 then [0x30 + n] else PrintNat(n / 10) + [0x30 + n % 10]
  }

  function PrintInt(n: int): Text {
    if n < 0 then [MINUS] + PrintNat(-n) else PrintNat(n)
  }

  // ---- strings ------------------------------------------------------------------------

  predicate IsLead(c: CodeUnit) { 0xD800 <= c < 0xDC00 }

  predicate IsTrail(c: CodeUnit) { 0xDC00 <= c < 0xE000 }

  /** Lower-case hexadecimal digit. */
  function HexDigit(d: nat): CodeUnit
    requires d < 16
  {
    if d < 10 then 0x30 + d else 0x57 + d
  }

  function UnicodeEscape(c: CodeUnit): Text {
    [BACKSLASH, LETTER_U, HexDigit(c / 0x1000), HexDigit(c / 0x100 % 16), HexDigit(c / 16 % 16), HexDigit(c % 16)]
  }

  /** One code unit inside a JSON string (RFC 8259, section 7, as JSON.stringify chooses). */
  function QuoteUnit(c: CodeUnit): Text {
    if c == 0x08 then [BACKSLASH, 0x62]
    else if c == 0x09 then [BACKSLASH, 0x74]
    else if c == 0x0A then [BACKSLASH, 0x6E]
    else if c == 0x0C then [BACKSLASH, 0x66]
    else if c == 0x0D then [BACKSLASH, 0x72]
    else if c == QUOTE || c == BACKSLASH then [BACKSLASH, c]
    else if c < 0x20 || IsLead(c) || IsTrail(c) then UnicodeEscape(c)
    else [c]
  }

  /** A surrogate pair is copied; a lone surrogate is escaped. */
  function QuoteUnits(s: Text): Text {
    if s == [] then []
    else if |s| >= 2 && IsLead(s[0]) && IsTrail(s[1]) then [s[0], s[1]] + QuoteUnits(s[2..])
    else QuoteUnit(s[0]) + QuoteUnits(s[1..])
  }

  /** `JSON.stringify` of a string. */
  function Quote(s: Text): Text {
    [QUOTE] + QuoteUnits(s) + [QUOTE]
  }

  // ---- key order ----------------------------------------------------------------------

  /** Order of `Array.sort` on strings: by UTF-16 code units. */
  predicate Before(a: Text, b: Text) {
    if b == [] then false
    else if a == [] then true
    else if a[0] != b[0] then a[0] < b[0]
    else Before(a[1..], b[1..])
  }

  function InsertKey(k: Text, ks: seq<Text>): seq<Text> {
    if ks == [] || !Before(ks[0], k) then [k] + ks
    else [ks[0]] + InsertKey(k, ks[1..])
  }

  function SortKeys(ks: seq<Text>): seq<Text> {
    if ks == [] then [] else InsertKey(ks[0], SortKeys(ks[1..]))
  }

  function Keys(fields: seq<Field>): (ks: seq<Text>)
    ensures |ks| == |fields| && forall i :: 0 <= i < |fields| ==> ks[i] == fields[i].key
  {
    seq(|fields|, i requires 0 <= i < |fields| => fields[i].key)
  }

  // ---- canonicalize -------------------------------------------------------------------

  /** The parts, with commas between them. */
  function Join(parts: seq<Text>): Text {
    if parts == [] then []
    else if |parts| == 1 then parts[0]
    else parts[0] + [COMMA] + Join(parts[1..])
  }

  /** Property access: the value of the first field with this key, undefined without one. */
  function Get(fields: seq<Field>, key: Text): (v: Json)
    ensures v == Undefined || exists i :: 0 <= i < |fields| && fields[i] == Field(key, v)
  {
    if fields == [] then Undefined
    else if fields[0].key == key then assert fields[0] == Field(key, fields[0].value); fields[0].value
    else
      var v := Get(fields[1..], key);
      assert forall i :: 0 <= i < |fields[1..]| ==> fields[1..][i] == fields[i + 1];
      v
  }

  function Canonicalize(v: Json): Text
    decreases v, 1, 0
  {
    match v
    case Undefined => NULL
    case Null => NULL
    case Bool(b) => if b then TRUE else FALSE
    case Num(n) => PrintInt(n)
    case Str(s) => Quote(s)
    case Arr(items) => [OPEN_BRACKET] + Join(CanonicalItems(items)) + [CLOSE_BRACKET]
    case Obj(fields) =>
      [OPEN_BRACE] + Join(CanonicalPairs(v, SortKeys(Keys(fields)))) + [CLOSE_BRACE]
  }

  function CanonicalItems(items: seq<Json>): seq<Text>
    decreases items, 0, 0
  {
    if items == [] then [] else [Canonicalize(items[0])] + CanonicalItems(items[1..])
  }

  function CanonicalPairs(obj: Json, keys: seq<Text>): seq<Text>
    requires obj.Obj?
    decreases obj, 0, |keys|
  {
    if keys == [] then []
    else
      var v := Get(obj.fields, keys[0]);
      var text := if v == Undefined then NULL else Canonicalize(v);
      [Quote(keys[0]) + [COLON] + text] + CanonicalPairs(obj, keys[1..])
  }
}
