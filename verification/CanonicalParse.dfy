/**
 * Reading canonical text back: a parser, and the proof that it recovers from the text of
 * a value its normal form, members sorted by key at every depth.
 */
module CanonicalParse {
  import opened Canonical

  datatype Parsed<+T> = Fail | Ok(value: T, rest: Text)

  // ---- printing without sorting --------------------------------------------------------

  function Print(v: Json): Text
    decreases v, 1
  {
    match v
    case Undefined => NULL
    case Null => NULL
    case Bool(b) => if b then TRUE else FALSE
    case Num(n) => PrintInt(n)
    case Str(s) => Quote(s)
    case Arr(items) => [OPEN_BRACKET] + Join(PrintItems(items)) + [CLOSE_BRACKET]
    case Obj(fields) => [OPEN_BRACE] + Join(PrintFields(fields)) + [CLOSE_BRACE]
  }

  function PrintItems(items: seq<Json>): (r: seq<Text>)
    ensures |r| == |items|
    decreases items, 0
  {
    if items == [] then [] else [Print(items[0])] + PrintItems(items[1..])
  }

  function PrintField(f: Field): Text
    decreases f
  {
    Quote(f.key) + [COLON] + Print(f.value)
  }

  function PrintFields(fields: seq<Field>): (r: seq<Text>)
    ensures |r| == |fields|
    decreases fields, 0
  {
    if fields == [] then [] else [PrintField(fields[0])] + PrintFields(fields[1..])
  }

  // ---- the parser -----------------------------------------------------------------------

  predicate NoDigitAhead(t: Text) { t == [] || !IsDigit(t[0]) }

  function ParseDigits(t: Text, acc: nat): (r: Parsed<nat>)
    ensures r.Ok? && |r.rest| <= |t|
  {
    if NoDigitAhead(t) then Ok(acc, t)
    else ParseDigits(t[1..], acc * 10 + (t[0] - 0x30))
  }

  function ParseNumber(t: Text): (r: Parsed<SafeInt>)
    ensures r.Ok? ==> |r.rest| < |t|
  {
    var negative := t != [] && t[0] == MINUS;
    var digits := if negative then t[1..] else t;
    if NoDigitAhead(digits) then Fail
    else
      var r := ParseDigits(digits[1..], digits[0] - 0x30);
      var n: int := if negative then -(r.value as int) else r.value;
      if r.value < 0x20000000000000 then Ok(n, r.rest) else Fail
  }

  predicate IsHex(c: CodeUnit) { IsDigit(c) || 0x61 <= c <= 0x66 }

  function HexValue(c: CodeUnit): nat
    requires IsHex(c)
  {
    if IsDigit(c) then c - 0x30 else c - 0x57
  }

  /** The code unit at the head of a string body, and what follows it. */
  function ParseUnit(t: Text): (r: Parsed<CodeUnit>)
    ensures r.Ok? ==> |r.rest| < |t|
  {
    if t == [] || t[0] == QUOTE then Fail
    else if t[0] != BACKSLASH then Ok(t[0], t[1..])
    else if |t| < 2 then Fail
    else if t[1] == 0x62 then Ok(0x08, t[2..])
    else if t[1] == 0x74 then Ok(0x09, t[2..])
    else if t[1] == 0x6E then Ok(0x0A, t[2..])
    else if t[1] == 0x66 then Ok(0x0C, t[2..])
    else if t[1] == 0x72 then Ok(0x0D, t[2..])
    else if t[1] == QUOTE || t[1] == BACKSLASH || t[1] == SLASH then Ok(t[1], t[2..])
    else if t[1] == LETTER_U && |t| >= 6 && IsHex(t[2]) && IsHex(t[3]) && IsHex(t[4]) && IsHex(t[5]) then
      Ok(HexValue(t[2]) * 0x1000 + HexValue(t[3]) * 0x100 + HexValue(t[4]) * 16 + HexValue(t[5]), t[6..])
    else Fail
  }

  /** A string body up to and including its closing quote. */
  function ParseUnits(t: Text): (r: Parsed<Text>)
    ensures r.Ok? ==> |r.rest| < |t|
    decreases |t|
  {
    if t != [] && t[0] == QUOTE then Ok([], t[1..])
    else
      match ParseUnit(t)
      case Fail => Fail
      case Ok(c, rest) =>
        match ParseUnits(rest)
        case Fail => Fail
        case Ok(s, rest') => Ok([c] + s, rest')
  }

  function ParseValue(t: Text): (r: Parsed<Json>)
    ensures r.Ok? ==> |r.rest| < |t|
    decreases |t|, 0
  {
    if t == [] then Fail
    else if NULL <= t then Ok(Null, t[4..])
    else if TRUE <= t then Ok(Bool(true), t[4..])
    else if FALSE <= t then Ok(Bool(false), t[5..])
    else if t[0] == QUOTE then
      match ParseUnits(t[1..])
      case Fail => Fail
      case Ok(s, rest) => Ok(Str(s), rest)
    else if t[0] == OPEN_BRACKET then
      if |t| >= 2 && t[1] == CLOSE_BRACKET then Ok(Arr([]), t[2..])
      else
        match ParseItems(t[1..])
        case Fail => Fail
        case Ok(items, rest) => Ok(Arr(items), rest)
    else if t[0] == OPEN_BRACE then
      if |t| >= 2 && t[1] == CLOSE_BRACE then Ok(Obj([]), t[2..])
      else
        match ParseFields(t[1..])
        case Fail => Fail
        case Ok(fields, rest) => Ok(Obj(fields), rest)
    else
      match ParseNumber(t)
      case Fail => Fail
      case Ok(n, rest) => Ok(Num(n), rest)
  }

  /** One or more items, up to and including the closing bracket. */
  function ParseItems(t: Text): (r: Parsed<seq<Json>>)
    ensures r.Ok? ==> |r.rest| < |t|
    decreases |t|, 1
  {
    match ParseValue(t)
    case Fail => Fail
    case Ok(v, rest) =>
      if rest == [] then Fail
      else if rest[0] == CLOSE_BRACKET then Ok([v], rest[1..])
      else if rest[0] == COMMA then
        match ParseItems(rest[1..])
        case Fail => Fail
        case Ok(vs, rest') => Ok([v] + vs, rest')
      else Fail
  }

  function ParseField(t: Text): (r: Parsed<Field>)
    ensures r.Ok? ==> |r.rest| < |t|
    decreases |t|, 1
  {
    if t == [] || t[0] != QUOTE then Fail
    else
      match ParseUnits(t[1..])
      case Fail => Fail
      case Ok(key, rest) =>
        if rest == [] || rest[0] != COLON then Fail
        else
          match ParseValue(rest[1..])
          case Fail => Fail
          case Ok(v, rest') => Ok(Field(key, v), rest')
  }

  function ParseFields(t: Text): (r: Parsed<seq<Field>>)
    ensures r.Ok? ==> |r.rest| < |t|
    decreases |t|, 2
  {
    match ParseField(t)
    case Fail => Fail
    case Ok(f, rest) =>
      if rest == [] then Fail
      else if rest[0] == CLOSE_BRACE then Ok([f], rest[1..])
      else if rest[0] == COMMA then
        match ParseFields(rest[1..])
        case Fail => Fail
        case Ok(fs, rest') => Ok([f] + fs, rest')
      else Fail
  }

  /** A text that is one value and nothing else. */
  function Parse(t: Text): (r: Parsed<Json>) {
    match ParseValue(t)
    case Fail => Fail
    case Ok(v, rest) => if rest == [] then Ok(v, []) else Fail
  }

  // ---- reading back what was printed ------------------------------------------------------

  lemma {:induction false} ParsePrintNat(n: nat, rest: Text)
    ensures PrintNat(n) != [] && IsDigit(PrintNat(n)[0])
    ensures ParseDigits(PrintNat(n) + rest, 0) == ParseDigits(rest, n)
  {
    if n < 10 {
      assert ([0x30 + n] + rest)[1..] == rest;
    } else {
      var d: CodeUnit := 0x30 + n % 10;
      assert PrintNat(n) + rest == PrintNat(n / 10) + ([d] + rest);
      ParsePrintNat(n / 10, [d] + rest);
      assert ([d] + rest)[1..] == rest;
    }
  }

  lemma ParsePrintInt(n: SafeInt, rest: Text)
    requires NoDigitAhead(rest)
    ensures ParseNumber(PrintInt(n) + rest) == Ok(n, rest)
  {
    hide PrintNat;
    var m: nat := if n < 0 then -n else n;
    var digits := PrintNat(m) + rest;
    ParsePrintNat(m, rest);
    assert PrintInt(n) + rest == if n < 0 then [MINUS] + digits else digits;
    assert ParseDigits(digits, 0) == ParseDigits(digits[1..], digits[0] - 0x30);
    assert ParseDigits(rest, m) == Ok(m, rest);
    if n < 0 {
      assert ([MINUS] + digits)[1..] == digits;
    }
  }

  lemma HexRoundTrip(d: nat)
    requires d < 16
    ensures IsHex(HexDigit(d)) && HexValue(HexDigit(d)) == d
  {
  }

  lemma HexDigitsOf(c: CodeUnit)
    ensures c / 0x1000 < 16
    ensures c == c / 0x1000 * 0x1000 + c / 0x100 % 16 * 0x100 + c / 16 % 16 * 16 + c % 16
  {
    assert c / 0x100 == c / 0x1000 * 16 + c / 0x100 % 16;
    assert c / 16 == c / 0x100 * 16 + c / 16 % 16;
  }

  lemma ParseUnicodeEscape(c: CodeUnit, rest: Text)
    ensures ParseUnit(UnicodeEscape(c) + rest) == Ok(c, rest)
  {
    HexDigitsOf(c);
    var w, x, y, z := c / 0x1000, c / 0x100 % 16, c / 16 % 16, c % 16;
    ParseFourDigits(w, x, y, z, rest);
    assert UnicodeEscape(c) == [BACKSLASH, LETTER_U, HexDigit(w), HexDigit(x), HexDigit(y), HexDigit(z)];
  }

  lemma ParseFourDigits(w: nat, x: nat, y: nat, z: nat, rest: Text)
    requires w < 16 && x < 16 && y < 16 && z < 16
    ensures w * 0x1000 + x * 0x100 + y * 16 + z < 0x10000
    ensures ParseUnit([BACKSLASH, LETTER_U, HexDigit(w), HexDigit(x), HexDigit(y), HexDigit(z)] + rest)
            == Ok(w * 0x1000 + x * 0x100 + y * 16 + z, rest)
  {
    var t := [BACKSLASH, LETTER_U, HexDigit(w), HexDigit(x), HexDigit(y), HexDigit(z)] + rest;
    HexRoundTrip(w);
    HexRoundTrip(x);
    HexRoundTrip(y);
    HexRoundTrip(z);
    assert t[6..] == rest;
    assert t[2] == HexDigit(w) && t[3] == HexDigit(x) && t[4] == HexDigit(y) && t[5] == HexDigit(z);
  }

  lemma ParseQuoteUnit(c: CodeUnit, rest: Text)
    ensures ParseUnit(QuoteUnit(c) + rest) == Ok(c, rest)
    ensures QuoteUnit(c)[0] != QUOTE
  {
    if QuoteUnit(c) == UnicodeEscape(c) {
      ParseUnicodeEscape(c, rest);
    } else {
      var k := |QuoteUnit(c)|;
      assert (QuoteUnit(c) + rest)[k..] == rest;
    }
  }

  /** A string body read from its first unit and the rest. */
  lemma ParseOneUnit(c: CodeUnit, quoted: Text, body: Text, s: Text, rest: Text)
    requires quoted != [] && quoted[0] != QUOTE
    requires ParseUnit(quoted + body) == Ok(c, body)
    requires ParseUnits(body) == Ok(s, rest)
    ensures ParseUnits(quoted + body) == Ok([c] + s, rest)
  {
    assert (quoted + body)[0] == quoted[0];
  }

  lemma ParsePlainUnit(c: CodeUnit, body: Text, s: Text, rest: Text)
    requires c != QUOTE && c != BACKSLASH
    requires ParseUnits(body) == Ok(s, rest)
    ensures ParseUnits([c] + body) == Ok([c] + s, rest)
  {
    assert ([c] + body)[1..] == body;
    ParseOneUnit(c, [c], body, s, rest);
  }

  lemma {:induction false} ParseQuoteUnits(s: Text, tail: Text)
    requires tail != [] && tail[0] == QUOTE
    ensures ParseUnits(QuoteUnits(s) + tail) == Ok(s, tail[1..])
    decreases |s|
  {
    if s == [] {
      assert QuoteUnits(s) + tail == tail;
    } else {
      hide ParseUnits, ParseUnit, QuoteUnit, UnicodeEscape;
      var n := if |s| >= 2 && IsLead(s[0]) && IsTrail(s[1]) then 2 else 1;
      var body := QuoteUnits(s[n..]) + tail;
      ParseQuoteUnits(s[n..], tail);
      if n == 2 {
        ParsePairUnits(s, tail, body);
      } else {
        ParseSingleUnit(s, tail, body);
      }
    }
  }

  lemma ParseSingleUnit(s: Text, tail: Text, body: Text)
    requires s != [] && !(|s| >= 2 && IsLead(s[0]) && IsTrail(s[1])) && tail != []
    requires body == QuoteUnits(s[1..]) + tail
    requires ParseUnits(body) == Ok(s[1..], tail[1..])
    ensures ParseUnits(QuoteUnits(s) + tail) == Ok(s, tail[1..])
  {
    hide ParseUnits, ParseUnit, QuoteUnit, UnicodeEscape;
    assert QuoteUnits(s) + tail == QuoteUnit(s[0]) + body;
    ParseQuoteUnit(s[0], body);
    ParseOneUnit(s[0], QuoteUnit(s[0]), body, s[1..], tail[1..]);
    assert s == [s[0]] + s[1..];
  }

  lemma ParsePairUnits(s: Text, tail: Text, body: Text)
    requires |s| >= 2 && IsLead(s[0]) && IsTrail(s[1]) && tail != []
    requires body == QuoteUnits(s[2..]) + tail
    requires ParseUnits(body) == Ok(s[2..], tail[1..])
    ensures ParseUnits(QuoteUnits(s) + tail) == Ok(s, tail[1..])
  {
    hide ParseUnits, ParseUnit, QuoteUnit, UnicodeEscape;
    assert QuoteUnits(s) + tail == [s[0]] + ([s[1]] + body);
    ParsePlainUnit(s[1], body, s[2..], tail[1..]);
    ParsePlainUnit(s[0], [s[1]] + body, [s[1]] + s[2..], tail[1..]);
    assert s == [s[0]] + ([s[1]] + s[2..]);
  }

  /** A quoted string, opening quote already read. */
  lemma ParseQuote(s: Text, rest: Text)
    ensures Quote(s) != [] && Quote(s)[0] == QUOTE
    ensures ParseUnits((Quote(s) + rest)[1..]) == Ok(s, rest)
  {
    ParseQuoteUnits(s, [QUOTE] + rest);
    assert (Quote(s) + rest)[1..] == QuoteUnits(s) + ([QUOTE] + rest);
    assert ([QUOTE] + rest)[1..] == rest;
  }

  // ---- values ------------------------------------------------------------------------------

  /** No undefined at any depth. */
  predicate Defined(v: Json)
    decreases v, 1
  {
    match v
    case Undefined => false
    case Arr(items) => AllDefined(items)
    case Obj(fields) => FieldsDefined(fields)
    case _ => true
  }

  predicate AllDefined(items: seq<Json>)
    decreases items, 0
  {
    items == [] || (Defined(items[0]) && AllDefined(items[1..]))
  }

  predicate FieldsDefined(fields: seq<Field>)
    decreases fields, 0
  {
    fields == [] || (Defined(fields[0].value) && FieldsDefined(fields[1..]))
  }

  lemma PrintHead(v: Json)
    ensures Print(v) != []
    ensures Print(v)[0] != CLOSE_BRACKET && Print(v)[0] != CLOSE_BRACE
    ensures v.Num? ==> Print(v)[0] == MINUS || IsDigit(Print(v)[0])
  {
    if v.Num? {
      ParsePrintNat(if v.n < 0 then -v.n else v.n, []);
    }
  }

  lemma {:induction false} ParsePrint(v: Json, rest: Text)
    requires Defined(v) && NoDigitAhead(rest)
    ensures ParseValue(Print(v) + rest) == Ok(v, rest)
    decreases v, 1
  {
    var t := Print(v) + rest;
    PrintHead(v);
    assert t[0] == Print(v)[0];
    match v {
      case Null =>
        assert NULL <= t && t[4..] == rest;
      case Bool(b) =>
        ParsePrintBool(b, rest);
      case Num(n) =>
        ParsePrintInt(n, rest);
      case Str(s) =>
        ParseQuote(s, rest);
      case Arr(items) =>
        if items != [] {
          ParsePrintItems(items, rest);
        }
        ParsePrintArr(items, rest);
      case Obj(fields) =>
        if fields != [] {
          ParsePrintFields(fields, rest);
        }
        ParsePrintObj(fields, rest);
    }
  }

  lemma ParsePrintBool(b: bool, rest: Text)
    ensures ParseValue(Print(Bool(b)) + rest) == Ok(Bool(b), rest)
  {
    var t := Print(Bool(b)) + rest;
    if b {
      assert TRUE <= t && t[4..] == rest;
    } else {
      assert t[0] == FALSE[0] && t[0] != NULL[0] && t[0] != TRUE[0];
      assert FALSE <= t && t[5..] == rest;
    }
  }

  lemma ParsePrintArr(items: seq<Json>, rest: Text)
    requires items != [] ==> ParseItems(Join(PrintItems(items)) + ([CLOSE_BRACKET] + rest)) == Ok(items, rest)
    ensures ParseValue(Print(Arr(items)) + rest) == Ok(Arr(items), rest)
  {
    hide ParseUnits, ParseNumber, ParseItems, ParseFields, PrintItems, Join;
    var inner := Join(PrintItems(items)) + ([CLOSE_BRACKET] + rest);
    var t := Print(Arr(items)) + rest;
    assert t == [OPEN_BRACKET] + inner;
    assert t[1..] == inner;
    JoinItemsHead(items);
    if items == [] {
      assert t[1] == CLOSE_BRACKET && t[2..] == rest;
    } else {
      PrintHead(items[0]);
      assert t[1] == Print(items[0])[0];
    }
  }

  lemma JoinItemsHead(items: seq<Json>)
    ensures var text := Join(PrintItems(items));
            if items == [] then text == [] else Print(items[0]) != [] && text != [] && text[0] == Print(items[0])[0]
  {
    if items != [] {
      PrintHead(items[0]);
      JoinHead(PrintItems(items));
    }
  }

  lemma {:induction false} ParsePrintObj(fields: seq<Field>, rest: Text)
    requires fields != [] ==> ParseFields(Join(PrintFields(fields)) + ([CLOSE_BRACE] + rest)) == Ok(fields, rest)
    ensures ParseValue(Print(Obj(fields)) + rest) == Ok(Obj(fields), rest)
  {
    hide ParseUnits, ParseNumber, ParseItems, ParseFields, PrintFields, Join;
    var inner := Join(PrintFields(fields)) + ([CLOSE_BRACE] + rest);
    var t := Print(Obj(fields)) + rest;
    assert t == [OPEN_BRACE] + inner;
    assert t[1..] == inner;
    JoinFieldsHead(fields);
    if fields == [] {
      assert t[1] == CLOSE_BRACE && t[2..] == rest;
    } else {
      assert t[1] == QUOTE;
    }
  }

  lemma JoinFieldsHead(fields: seq<Field>)
    ensures var text := Join(PrintFields(fields));
            if fields == [] then text == [] else text != [] && text[0] == QUOTE
  {
    if fields != [] {
      assert PrintField(fields[0])[0] == QUOTE;
      JoinHead(PrintFields(fields));
    }
  }

  lemma JoinHead(parts: seq<Text>)
    requires parts != [] && parts[0] != []
    ensures Join(parts) != [] && Join(parts)[0] == parts[0][0]
  {
  }

  /** A joined list, cut after its first part. */
  lemma JoinTail(part: Text, parts: seq<Text>, close: CodeUnit, rest: Text)
    ensures Join([part] + parts) + ([close] + rest)
            == part + (if parts == [] then [close] + rest else [COMMA] + (Join(parts) + ([close] + rest)))
  {
    assert ([part] + parts)[1..] == parts;
  }

  lemma {:induction false} ParsePrintItems(items: seq<Json>, rest: Text)
    requires items != [] && AllDefined(items)
    ensures ParseItems(Join(PrintItems(items)) + ([CLOSE_BRACKET] + rest)) == Ok(items, rest)
    decreases items, 0
  {
    hide ParseValue, Print, Join;
    var more := items[1..];
    var after := if more == [] then [CLOSE_BRACKET] + rest
                 else [COMMA] + (Join(PrintItems(more)) + ([CLOSE_BRACKET] + rest));
    JoinTail(Print(items[0]), PrintItems(more), CLOSE_BRACKET, rest);
    ParsePrint(items[0], after);
    if more == [] {
      assert after[1..] == rest;
      assert items == [items[0]];
    } else {
      ParsePrintItems(more, rest);
      assert after[1..] == Join(PrintItems(more)) + ([CLOSE_BRACKET] + rest);
      assert items == [items[0]] + more;
    }
  }

  lemma {:induction false} ParsePrintField(f: Field, rest: Text)
    requires Defined(f.value) && NoDigitAhead(rest)
    ensures ParseField(PrintField(f) + rest) == Ok(f, rest)
    decreases f
  {
    hide ParseValue, ParseUnits, Print, QuoteUnits;
    var t := PrintField(f) + rest;
    var after := [COLON] + (Print(f.value) + rest);
    assert t == Quote(f.key) + after;
    ParseQuote(f.key, after);
    assert t[0] == QUOTE;
    assert after[1..] == Print(f.value) + rest;
    ParsePrint(f.value, rest);
  }

  lemma {:induction false} ParsePrintFields(fields: seq<Field>, rest: Text)
    requires fields != [] && FieldsDefined(fields)
    ensures ParseFields(Join(PrintFields(fields)) + ([CLOSE_BRACE] + rest)) == Ok(fields, rest)
    decreases fields, 0
  {
    hide ParseField, PrintField, Join;
    var more := fields[1..];
    var after := if more == [] then [CLOSE_BRACE] + rest
                 else [COMMA] + (Join(PrintFields(more)) + ([CLOSE_BRACE] + rest));
    JoinTail(PrintField(fields[0]), PrintFields(more), CLOSE_BRACE, rest);
    ParsePrintField(fields[0], after);
    if more == [] {
      assert after[1..] == rest;
      assert fields == [fields[0]];
    } else {
      ParsePrintFields(more, rest);
      assert after[1..] == Join(PrintFields(more)) + ([CLOSE_BRACE] + rest);
      assert fields == [fields[0]] + more;
    }
  }
}
