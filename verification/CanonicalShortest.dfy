/**
 * Which of the texts that `Parse` reads as a value is its canonical text: the shortest. Other
 * texts of the same members in the same order escape more, or write numbers with more digits.
 */
module CanonicalShortest {
  import opened Canonical
  import opened CanonicalParse
  import opened CanonicalForms
  import opened Utf8

  /** Text as RFC 8259, section 7 and RFC 3629 allow it: no control characters, surrogates in pairs. */
  predicate Legal(t: Text) {
    WellPaired(t) && forall i :: 0 <= i < |t| ==> t[i] >= 0x20
  }

  predicate IsSurrogate(c: CodeUnit) { IsLead(c) || IsTrail(c) }

  /**
   * What was read off `t`, up to `rest`, is no shorter than `text`; and if it is as long, it is
   * that text.
   */
  ghost predicate Covers(t: Text, text: Text, rest: Text) {
    && Legal(rest)
    && |text| <= |t| - |rest|
    && (|text| == |t| - |rest| ==> t == text + rest)
  }

  lemma CoversMore(t: Text, a: Text, middle: Text, b: Text, rest: Text)
    requires Covers(t, a, middle) && Covers(middle, b, rest)
    ensures Covers(t, a + b, rest)
  {
    assert a + (b + rest) == (a + b) + rest;
  }

  /** Units that are no surrogates leave the rest of a legal text legal. */
  lemma {:induction false} LegalAfter(t: Text, k: nat)
    requires Legal(t) && k <= |t| && forall i :: 0 <= i < k ==> !IsSurrogate(t[i])
    ensures Legal(t[k..])
  {
    if k == 0 {
      assert t[0..] == t;
    } else {
      var tail := t[1..];
      assert forall i :: 0 <= i < |tail| ==> tail[i] == t[i + 1];
      LegalAfter(tail, k - 1);
      assert tail[k - 1..] == t[k..];
    }
  }

  /** A text read as it stands. */
  lemma CoversItself(t: Text, k: nat)
    requires Legal(t) && k <= |t| && forall i :: 0 <= i < k ==> !IsSurrogate(t[i])
    ensures Covers(t, t[..k], t[k..])
  {
    LegalAfter(t, k);
    assert t == t[..k] + t[k..];
  }

  /** A unit, when what follows it starts with the next thing to read. */
  lemma CoversOne(t: Text, c: CodeUnit)
    requires Legal(t) && t != [] && t[0] == c && !IsSurrogate(c)
    ensures Covers(t, [c], t[1..])
  {
    CoversItself(t, 1);
    assert t[..1] == [c];
  }

  // ---- strings ---------------------------------------------------------------------------------

  lemma HexOfValue(c: CodeUnit)
    requires IsHex(c)
    ensures HexValue(c) < 16 && HexDigit(HexValue(c)) == c
  {
  }

  lemma HexStep(high: nat, low: nat)
    requires low < 16
    ensures (high * 16 + low) / 16 == high && (high * 16 + low) % 16 == low
  {
  }

  /** The digits of a unit given by its digits. */
  lemma FourHexDigits(w: nat, x: nat, y: nat, z: nat)
    requires w < 16 && x < 16 && y < 16 && z < 16
    ensures var n := w * 0x1000 + x * 0x100 + y * 16 + z;
            n < 0x10000 && n / 0x1000 == w && n / 0x100 % 16 == x && n / 16 % 16 == y && n % 16 == z
  {
    var n := w * 0x1000 + x * 0x100 + y * 16 + z;
    HexStep(w * 0x100 + x * 16 + y, z);
    HexStep(w * 16 + x, y);
    HexStep(w, x);
    assert n / 0x100 == n / 16 / 16 && n / 0x1000 == n / 0x100 / 16;
  }

  /** A unicode escape is the one that the unit it stands for is written as. */
  lemma EscapeIsUnicodeEscape(t: Text)
    requires |t| >= 6 && IsHex(t[2]) && IsHex(t[3]) && IsHex(t[4]) && IsHex(t[5])
    requires t[0] == BACKSLASH && t[1] == LETTER_U
    ensures var n := HexValue(t[2]) * 0x1000 + HexValue(t[3]) * 0x100 + HexValue(t[4]) * 16 + HexValue(t[5]);
            n < 0x10000 && UnicodeEscape(n) == t[..6]
  {
    var w, x, y, z := HexValue(t[2]), HexValue(t[3]), HexValue(t[4]), HexValue(t[5]);
    HexOfValue(t[2]);
    HexOfValue(t[3]);
    HexOfValue(t[4]);
    HexOfValue(t[5]);
    FourHexDigits(w, x, y, z);
  }

  /** Nothing that reads as a unit is shorter than what it is written as, and nothing else is as short. */
  lemma UnitIsShortest(t: Text)
    requires Legal(t) && ParseUnit(t).Ok? && !IsSurrogate(t[0])
    ensures var c, rest := ParseUnit(t).value, ParseUnit(t).rest;
            && Covers(t, QuoteUnit(c), rest)
            && (IsSurrogate(c) ==> |t| - |rest| == 6)
  {
    var c, rest := ParseUnit(t).value, ParseUnit(t).rest;
    if t[0] != BACKSLASH {
      CoversOne(t, c);
    } else if t[1] == LETTER_U {
      EscapeIsUnicodeEscape(t);
      EscapeIsPlain(t);
      CoversItself(t, 6);
      UnicodeEscapeIsLongest(c);
    } else {
      EscapeIsPlain(t);
      CoversItself(t, 2);
      assert QuoteUnit(c) == if c == 0x2F then [c] else t[..2];
    }
  }

  /** Units of an escape are no surrogates. */
  lemma EscapeIsPlain(t: Text)
    requires ParseUnit(t).Ok? && t[0] == BACKSLASH
    ensures forall i :: 0 <= i < |t| - |ParseUnit(t).rest| ==> !IsSurrogate(t[i])
  {
  }

  lemma UnicodeEscapeIsLongest(c: CodeUnit)
    ensures |QuoteUnit(c)| < 6 || QuoteUnit(c) == UnicodeEscape(c)
  {
  }

  lemma {:induction false} UnitsAreShortest(t: Text)
    requires Legal(t) && ParseUnits(t).Ok?
    ensures Covers(t, QuoteUnits(ParseUnits(t).value) + [QUOTE], ParseUnits(t).rest)
    decreases |t|, 1
  {
    var s, rest := ParseUnits(t).value, ParseUnits(t).rest;
    if t[0] == QUOTE {
      CoversOne(t, QUOTE);
      assert QuoteUnits(s) + [QUOTE] == [QUOTE];
    } else if IsSurrogate(t[0]) {
      PairIsShortest(t);
    } else {
      UnitIsShortest(t);
      var c, middle := ParseUnit(t).value, ParseUnit(t).rest;
      UnitsAreShortest(middle);
      hide ParseUnit, ParseUnits, QuoteUnit;
      OneMoreUnit(t, c, middle, s[1..], rest);
      assert s == [c] + s[1..];
    }
  }

  /** A pair is read and written as it stands. */
  lemma {:induction false} PairIsShortest(t: Text)
    requires Legal(t) && ParseUnits(t).Ok? && IsSurrogate(t[0])
    ensures Covers(t, QuoteUnits(ParseUnits(t).value) + [QUOTE], ParseUnits(t).rest)
    decreases |t|, 0
  {
    assert |t| >= 2 && IsLead(t[0]) && IsTrail(t[1]);
    var after := t[2..];
    assert ParseUnit(t) == Ok(t[0], t[1..]);
    assert ParseUnit(t[1..]) == Ok(t[1], after) by { assert t[1..][1..] == after; }
    assert ParseUnits(t[1..]).Ok? && ParseUnits(after).Ok?;
    assert Legal(after);
    UnitsAreShortest(after);
    var s, tail := ParseUnits(t).value, ParseUnits(after).value;
    assert s == [t[0]] + ([t[1]] + tail);
    assert s[2..] == tail;
    assert QuoteUnits(s) == [t[0], t[1]] + QuoteUnits(tail);
    assert t == [t[0], t[1]] + after;
    assert Covers(t, [t[0], t[1]], after);
    CoversMore(t, [t[0], t[1]], after, QuoteUnits(tail) + [QUOTE], ParseUnits(after).rest);
    assert [t[0], t[1]] + (QuoteUnits(tail) + [QUOTE]) == QuoteUnits(s) + [QUOTE];
  }

  /** One unit before a string body; a lead and a trail that were both escaped are written as a pair. */
  lemma OneMoreUnit(t: Text, c: CodeUnit, middle: Text, s: Text, rest: Text)
    requires Covers(t, QuoteUnit(c), middle) && (IsSurrogate(c) ==> |t| - |middle| == 6)
    requires Covers(middle, QuoteUnits(s) + [QUOTE], rest)
    ensures Covers(t, QuoteUnits([c] + s) + [QUOTE], rest)
  {
    hide QuoteUnit;
    assert ([c] + s)[1..] == s;
    if IsLead(c) && s != [] && IsTrail(s[0]) {
      assert ([c] + s)[2..] == s[1..];
      TrailAlone(s);
    } else {
      CoversMore(t, QuoteUnit(c), middle, QuoteUnits(s) + [QUOTE], rest);
      assert QuoteUnit(c) + (QuoteUnits(s) + [QUOTE]) == QuoteUnits([c] + s) + [QUOTE];
    }
  }

  lemma TrailAlone(s: Text)
    requires s != [] && IsTrail(s[0])
    ensures |QuoteUnits(s)| == 6 + |QuoteUnits(s[1..])|
  {
  }

  /** A quoted string, with its opening quote. */
  lemma StringIsShortest(t: Text)
    requires Legal(t) && t != [] && t[0] == QUOTE && ParseUnits(t[1..]).Ok?
    ensures Covers(t, Quote(ParseUnits(t[1..]).value), ParseUnits(t[1..]).rest)
  {
    hide ParseUnits, QuoteUnits;
    CoversOne(t, QUOTE);
    UnitsAreShortest(t[1..]);
    var s := ParseUnits(t[1..]).value;
    CoversMore(t, [QUOTE], t[1..], QuoteUnits(s) + [QUOTE], ParseUnits(t[1..]).rest);
    assert [QUOTE] + (QuoteUnits(s) + [QUOTE]) == Quote(s);
  }

  // ---- numbers ---------------------------------------------------------------------------------

  lemma OneMoreDigit(acc: nat, d: CodeUnit)
    requires acc > 0 && IsDigit(d)
    ensures PrintNat(acc * 10 + (d - 0x30)) == PrintNat(acc) + [d]
  {
    assert (acc * 10 + (d - 0x30)) / 10 == acc && (acc * 10 + (d - 0x30)) % 10 == d - 0x30;
  }

  /** Digits after a number that is not zero are its further digits. */
  lemma {:induction false} FurtherDigits(t: Text, acc: nat)
    requires acc > 0
    ensures var r := ParseDigits(t, acc); r.value > 0 && PrintNat(r.value) + r.rest == PrintNat(acc) + t
    decreases |t|
  {
    if !NoDigitAhead(t) {
      var d := t[0] - 0x30;
      FurtherDigits(t[1..], acc * 10 + d);
      OneMoreDigit(acc, t[0]);
      hide PrintNat;
      assert t == [t[0]] + t[1..];
      assert (PrintNat(acc) + [t[0]]) + t[1..] == PrintNat(acc) + t;
    }
  }

  /** After a zero, every further digit makes the text longer than the number needs. */
  lemma {:induction false} DigitsAfterZero(t: Text)
    ensures var r := ParseDigits(t, 0);
            if r.rest == t then r.value == 0 else |PrintNat(r.value)| <= |t| - |r.rest|
    decreases |t|
  {
    if !NoDigitAhead(t) {
      var d := t[0] - 0x30;
      if d == 0 {
        DigitsAfterZero(t[1..]);
        assert PrintNat(0) == [0x30];
      } else {
        FurtherDigits(t[1..], d);
        var r := ParseDigits(t[1..], d);
        assert |PrintNat(d)| == 1;
        assert |PrintNat(r.value) + r.rest| == |PrintNat(d) + t[1..]|;
      }
    }
  }

  /** What is read off as digits is digits. */
  lemma {:induction false} DigitsArePlain(t: Text, acc: nat)
    requires Legal(t)
    ensures Legal(ParseDigits(t, acc).rest)
    decreases |t|
  {
    if !NoDigitAhead(t) {
      LegalAfter(t, 1);
      DigitsArePlain(t[1..], acc * 10 + (t[0] - 0x30));
    }
  }

  /** One digit, and what may follow. */
  lemma NatIsShortest(t: Text)
    requires Legal(t) && !NoDigitAhead(t)
    ensures var r := ParseDigits(t[1..], t[0] - 0x30); Covers(t, PrintNat(r.value), r.rest)
  {
    var d := t[0] - 0x30;
    var r := ParseDigits(t[1..], d);
    LegalAfter(t, 1);
    DigitsArePlain(t[1..], d);
    assert t == [t[0]] + t[1..];
    assert PrintNat(d) == [t[0]];
    if d > 0 {
      FurtherDigits(t[1..], d);
      assert |PrintNat(r.value) + r.rest| == |t|;
    } else {
      DigitsAfterZero(t[1..]);
      if r.rest != t[1..] {
        RestIsShorter(t[1..], d);
      }
    }
  }

  lemma {:induction false} RestIsShorter(t: Text, acc: nat)
    ensures ParseDigits(t, acc).rest != t ==> |ParseDigits(t, acc).rest| < |t|
  {
  }

  lemma NumberIsShortest(t: Text)
    requires Legal(t) && ParseNumber(t).Ok?
    ensures Covers(t, PrintInt(ParseNumber(t).value), ParseNumber(t).rest)
  {
    if t[0] == MINUS {
      CoversOne(t, MINUS);
      NatIsShortest(t[1..]);
      var r := ParseDigits(t[1..][1..], t[1..][0] - 0x30);
      hide ParseDigits;
      CoversMore(t, [MINUS], t[1..], PrintNat(r.value), r.rest);
      if r.value == 0 {
        assert |PrintNat(0)| == 1;
      }
    } else {
      NatIsShortest(t);
    }
  }

  // ---- values ----------------------------------------------------------------------------------

  lemma {:induction false} ValueIsShortest(t: Text)
    requires Legal(t) && ParseValue(t).Ok?
    ensures Covers(t, Print(ParseValue(t).value), ParseValue(t).rest)
    decreases |t|, 1
  {
    if NULL <= t {
      WordIsShortest(t, NULL);
    } else if TRUE <= t {
      WordIsShortest(t, TRUE);
    } else if FALSE <= t {
      WordIsShortest(t, FALSE);
    } else if t[0] == QUOTE {
      StringIsShortest(t);
    } else if t[0] == OPEN_BRACKET {
      ArrayIsShortest(t);
    } else if t[0] == OPEN_BRACE {
      ObjectIsShortest(t);
    } else {
      NumberIsShortest(t);
    }
  }

  lemma WordIsShortest(t: Text, word: Text)
    requires Legal(t) && word <= t && forall i :: 0 <= i < |word| ==> !IsSurrogate(word[i])
    ensures Covers(t, word, t[|word|..])
  {
    CoversItself(t, |word|);
  }

  lemma {:induction false} ArrayIsShortest(t: Text)
    requires Legal(t) && t != [] && t[0] == OPEN_BRACKET
    requires (|t| >= 2 && t[1] == CLOSE_BRACKET) || ParseItems(t[1..]).Ok?
    ensures if |t| >= 2 && t[1] == CLOSE_BRACKET then Covers(t, Print(Arr([])), t[2..])
            else Covers(t, Print(Arr(ParseItems(t[1..]).value)), ParseItems(t[1..]).rest)
    decreases |t|, 0
  {
    hide ParseItems, PrintItems, Join;
    CoversOne(t, OPEN_BRACKET);
    if |t| >= 2 && t[1] == CLOSE_BRACKET {
      CoversOne(t[1..], CLOSE_BRACKET);
      CoversMore(t, [OPEN_BRACKET], t[1..], [CLOSE_BRACKET], t[2..]);
      EmptyBrackets();
    } else {
      ItemsAreShortest(t[1..]);
      var items := ParseItems(t[1..]).value;
      CoversMore(t, [OPEN_BRACKET], t[1..], Join(PrintItems(items)) + [CLOSE_BRACKET], ParseItems(t[1..]).rest);
      assert [OPEN_BRACKET] + (Join(PrintItems(items)) + [CLOSE_BRACKET]) == Print(Arr(items));
    }
  }

  lemma EmptyBrackets()
    ensures Print(Arr([])) == [OPEN_BRACKET, CLOSE_BRACKET] && Print(Obj([])) == [OPEN_BRACE, CLOSE_BRACE]
  {
    assert PrintItems([]) == [] && PrintFields([]) == [];
  }

  /** Something, a comma, and more of the kind; or the closing sign. */
  lemma JoinedIsShortest(t: Text, part: Text, middle: Text, parts: seq<Text>, close: CodeUnit, rest: Text)
    requires Covers(t, part, middle) && middle != [] && !IsSurrogate(close)
    requires if parts == [] then middle[0] == close && rest == middle[1..]
             else middle[0] == COMMA && Covers(middle[1..], Join(parts) + [close], rest)
    ensures Covers(t, Join([part] + parts) + [close], rest)
  {
    assert ([part] + parts)[1..] == parts;
    if parts == [] {
      CoversOne(middle, close);
      CoversMore(t, part, middle, [close], rest);
    } else {
      CoversOne(middle, COMMA);
      CoversMore(middle, [COMMA], middle[1..], Join(parts) + [close], rest);
      CoversMore(t, part, middle, [COMMA] + (Join(parts) + [close]), rest);
      assert part + ([COMMA] + (Join(parts) + [close])) == Join([part] + parts) + [close];
    }
  }

  lemma {:induction false} ItemsAreShortest(t: Text)
    requires Legal(t) && ParseItems(t).Ok?
    ensures Covers(t, Join(PrintItems(ParseItems(t).value)) + [CLOSE_BRACKET], ParseItems(t).rest)
    ensures ParseItems(t).value != []
    decreases |t|, 2
  {
    ValueIsShortest(t);
    hide ParseValue, Print, Join;
    var v, middle := ParseValue(t).value, ParseValue(t).rest;
    var items := ParseItems(t).value;
    if middle[0] == COMMA {
      LegalAfter(middle, 1);
      ItemsAreShortest(middle[1..]);
      assert items == [v] + ParseItems(middle[1..]).value;
    } else {
      assert items == [v];
    }
    assert items[0] == v;
    assert PrintItems(items) == [Print(v)] + PrintItems(items[1..]);
    JoinedIsShortest(t, Print(v), middle, PrintItems(items[1..]), CLOSE_BRACKET, ParseItems(t).rest);
  }

  lemma {:induction false} ObjectIsShortest(t: Text)
    requires Legal(t) && t != [] && t[0] == OPEN_BRACE
    requires (|t| >= 2 && t[1] == CLOSE_BRACE) || ParseFields(t[1..]).Ok?
    ensures if |t| >= 2 && t[1] == CLOSE_BRACE then Covers(t, Print(Obj([])), t[2..])
            else Covers(t, Print(Obj(ParseFields(t[1..]).value)), ParseFields(t[1..]).rest)
    decreases |t|, 0
  {
    hide ParseFields, PrintFields, Join;
    CoversOne(t, OPEN_BRACE);
    if |t| >= 2 && t[1] == CLOSE_BRACE {
      CoversOne(t[1..], CLOSE_BRACE);
      CoversMore(t, [OPEN_BRACE], t[1..], [CLOSE_BRACE], t[2..]);
      EmptyBrackets();
    } else {
      FieldsAreShortest(t[1..]);
      var fields := ParseFields(t[1..]).value;
      CoversMore(t, [OPEN_BRACE], t[1..], Join(PrintFields(fields)) + [CLOSE_BRACE], ParseFields(t[1..]).rest);
      assert [OPEN_BRACE] + (Join(PrintFields(fields)) + [CLOSE_BRACE]) == Print(Obj(fields));
    }
  }

  lemma {:induction false} FieldIsShortest(t: Text)
    requires Legal(t) && ParseField(t).Ok?
    ensures Covers(t, PrintField(ParseField(t).value), ParseField(t).rest)
    decreases |t|, 2
  {
    hide ParseUnits, Quote, ParseValue, Print, Legal;
    StringIsShortest(t);
    var key, middle := ParseUnits(t[1..]).value, ParseUnits(t[1..]).rest;
    CoversOne(middle, COLON);
    ValueIsShortest(middle[1..]);
    var f := ParseField(t).value;
    CoversMore(middle, [COLON], middle[1..], Print(f.value), ParseField(t).rest);
    CoversMore(t, Quote(key), middle, [COLON] + Print(f.value), ParseField(t).rest);
    assert Quote(key) + ([COLON] + Print(f.value)) == PrintField(f);
  }

  lemma {:induction false} FieldsAreShortest(t: Text)
    requires Legal(t) && ParseFields(t).Ok?
    ensures Covers(t, Join(PrintFields(ParseFields(t).value)) + [CLOSE_BRACE], ParseFields(t).rest)
    ensures ParseFields(t).value != []
    decreases |t|, 3
  {
    FieldIsShortest(t);
    hide ParseField, PrintField, Join;
    var f, middle := ParseField(t).value, ParseField(t).rest;
    var fields := ParseFields(t).value;
    if middle[0] == COMMA {
      LegalAfter(middle, 1);
      FieldsAreShortest(middle[1..]);
      assert fields == [f] + ParseFields(middle[1..]).value;
    } else {
      assert fields == [f];
    }
    assert fields[0] == f;
    assert PrintFields(fields) == [PrintField(f)] + PrintFields(fields[1..]);
    JoinedIsShortest(t, PrintField(f), middle, PrintFields(fields[1..]), CLOSE_BRACE, ParseFields(t).rest);
  }

  // ---- canonical text is legal -----------------------------------------------------------------

  predicate NoControls(t: Text) {
    forall i :: 0 <= i < |t| ==> t[i] >= 0x20
  }

  lemma {:induction false} DigitsHaveNoControls(n: nat)
    ensures NoControls(PrintNat(n))
  {
    if n >= 10 {
      DigitsHaveNoControls(n / 10);
    }
  }

  lemma UnitHasNoControls(c: CodeUnit)
    ensures NoControls(QuoteUnit(c))
  {
    assert c / 0x1000 < 16;
  }

  lemma {:induction false} UnitsHaveNoControls(s: Text)
    ensures NoControls(QuoteUnits(s))
    decreases |s|
  {
    if s != [] {
      hide QuoteUnit;
      if |s| >= 2 && IsLead(s[0]) && IsTrail(s[1]) {
        UnitsHaveNoControls(s[2..]);
      } else {
        UnitHasNoControls(s[0]);
        UnitsHaveNoControls(s[1..]);
      }
    }
  }

  lemma {:induction false} JoinHasNoControls(parts: seq<Text>)
    requires forall i :: 0 <= i < |parts| ==> NoControls(parts[i])
    ensures NoControls(Join(parts))
  {
    if |parts| >= 2 {
      JoinHasNoControls(parts[1..]);
    }
  }

  lemma {:induction false} PrintedHasNoControls(v: Json)
    ensures NoControls(Print(v))
    decreases v, 1
  {
    match v {
      case Num(n) => DigitsHaveNoControls(if n < 0 then -n else n);
      case Str(s) => UnitsHaveNoControls(s);
      case Arr(items) =>
        ItemsHaveNoControls(items);
        JoinHasNoControls(PrintItems(items));
      case Obj(fields) =>
        FieldsHaveNoControls(fields);
        JoinHasNoControls(PrintFields(fields));
      case _ =>
    }
  }

  lemma {:induction false} ItemsHaveNoControls(items: seq<Json>)
    ensures forall i :: 0 <= i < |PrintItems(items)| ==> NoControls(PrintItems(items)[i])
    decreases items, 0
  {
    if items != [] {
      PrintedHasNoControls(items[0]);
      ItemsHaveNoControls(items[1..]);
    }
  }

  lemma {:induction false} FieldsHaveNoControls(fields: seq<Field>)
    ensures forall i :: 0 <= i < |PrintFields(fields)| ==> NoControls(PrintFields(fields)[i])
    decreases fields, 0
  {
    if fields != [] {
      UnitsHaveNoControls(fields[0].key);
      PrintedHasNoControls(fields[0].value);
      FieldsHaveNoControls(fields[1..]);
    }
  }

  // ---- the promise -----------------------------------------------------------------------------

  /**
   * Canonical text is legal and reads as the key-sorted value; every other legal text that reads
   * as it is longer.
   */
  lemma CanonicalIsTheShortest(v: Json, t: Text)
    requires WellFormed(v)
    ensures Legal(Canonicalize(v)) && Parse(Canonicalize(v)) == Ok(Normal(v), [])
    ensures Legal(t) && Parse(t) == Ok(Normal(v), []) ==> t == Canonicalize(v) || |t| > |Canonicalize(v)|
  {
    hide Canonicalize, Normal, Print, ParseValue, WellFormed, WellPaired;
    ParseCanonical(v);
    CanonicalWellPaired(v);
    CanonicalIsNormalPrinted(v);
    PrintedHasNoControls(Normal(v));
    if Legal(t) && Parse(t) == Ok(Normal(v), []) {
      ValueIsShortest(t);
      assert Canonicalize(v) + [] == Canonicalize(v);
    }
  }
}
