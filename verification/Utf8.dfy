/** The UTF-8 bytes of a text, as `TextEncoder` gives them. */
module Utf8 {
  import opened Canonical
  import opened Seqs

  /** Every surrogate is half of a pair. */
  predicate WellPaired(t: Text) {
    if t == [] then true
    else if |t| >= 2 && IsLead(t[0]) && IsTrail(t[1]) then WellPaired(t[2..])
    else !IsLead(t[0]) && !IsTrail(t[0]) && WellPaired(t[1..])
  }

  type CodePoint = n: int | 0 <= n < 0x110000

  function PairPoint(lead: int, trail: int): int { 0x10000 + (lead - 0xD800) * 0x400 + (trail - 0xDC00) }

  /** The code point at the head of a nonempty text; a lone surrogate reads as U+FFFD. */
  function HeadPoint(t: Text): CodePoint
    requires t != []
  {
    if |t| >= 2 && IsLead(t[0]) && IsTrail(t[1]) then PairPoint(t[0], t[1])
    else if IsLead(t[0]) || IsTrail(t[0]) then 0xFFFD
    else t[0]
  }

  function HeadLength(t: Text): nat {
    if |t| >= 2 && IsLead(t[0]) && IsTrail(t[1]) then 2 else 1
  }

  function EncodePoint(c: CodePoint): seq<Byte> {
    if c < 0x80 then [c]
    else if c < 0x800 then [0xC0 + c / 64, 0x80 + c % 64]
    else if c < 0x10000 then [0xE0 + c / 0x1000, 0x80 + c / 64 % 64, 0x80 + c % 64]
    else [0xF0 + c / 0x40000, 0x80 + c / 0x1000 % 64, 0x80 + c / 64 % 64, 0x80 + c % 64]
  }

  function Encode(t: Text): seq<Byte>
    decreases |t|
  {
    if t == [] then [] else EncodePoint(HeadPoint(t)) + Encode(t[HeadLength(t)..])
  }

  // ---- decoding what was encoded ---------------------------------------------------------

  /** Number of bytes announced by the first byte. */
  function PointLength(b: Byte): nat {
    if b < 0x80 then 1 else if b < 0xE0 then 2 else if b < 0xF0 then 3 else 4
  }

  function Bits(b: int, mark: int): int { b - mark }

  function DecodePoint(b: seq<Byte>): int
    requires b != [] && |b| == PointLength(b[0])
  {
    if |b| == 1 then b[0]
    else if |b| == 2 then Bits(b[0], 0xC0) * 64 + Bits(b[1], 0x80)
    else if |b| == 3 then Bits(b[0], 0xE0) * 0x1000 + Bits(b[1], 0x80) * 64 + Bits(b[2], 0x80)
    else Bits(b[0], 0xF0) * 0x40000 + Bits(b[1], 0x80) * 0x1000 + Bits(b[2], 0x80) * 64 + Bits(b[3], 0x80)
  }

  lemma DecodeEncodedPoint(c: CodePoint)
    ensures var b := EncodePoint(c); |b| == PointLength(b[0]) && DecodePoint(b) == c
  {
    if c >= 0x10000 {
      assert c / 64 == c / 0x1000 * 64 + c / 64 % 64;
      assert c / 0x1000 == c / 0x40000 * 64 + c / 0x1000 % 64;
    } else if c >= 0x800 {
      assert c / 64 == c / 0x1000 * 64 + c / 64 % 64;
    }
  }

  /**
   * The bytes of a code point as section 3 of RFC 3629 has them: as few as will do, the first one
   * telling how many, six bits in each that follows.
   */
  lemma EncodedPointIsUtf8(c: CodePoint)
    ensures var b := EncodePoint(c);
            && |b| == (if c < 0x80 then 1 else if c < 0x800 then 2 else if c < 0x1_0000 then 3 else 4)
            && (|b| == 1 ==> b[0] < 0x80)
            && (|b| == 2 ==> 0xC0 <= b[0] < 0xE0)
            && (|b| == 3 ==> 0xE0 <= b[0] < 0xF0)
            && (|b| == 4 ==> 0xF0 <= b[0] < 0xF8)
            && (forall i :: 1 <= i < |b| ==> 0x80 <= b[i] < 0xC0)
            && c == if |b| == 1 then b[0]
                    else if |b| == 2 then Bits(b[0], 0xC0) * 64 + Bits(b[1], 0x80)
                    else if |b| == 3 then Bits(b[0], 0xE0) * 4096 + Bits(b[1], 0x80) * 64 + Bits(b[2], 0x80)
                    else Bits(b[0], 0xF0) * 262_144 + Bits(b[1], 0x80) * 4096 + Bits(b[2], 0x80) * 64
                         + Bits(b[3], 0x80)
  {
    DecodeEncodedPoint(c);
  }

  /** A code point beyond 16 bits is read off the surrogate pair that section 2.1 of RFC 2781 gives it. */
  lemma PairsAreRead(c: CodePoint, rest: Text)
    requires c >= 0x1_0000
    ensures var t := [0xD800 + (c - 0x1_0000) / 1024, 0xDC00 + (c - 0x1_0000) % 1024] + rest;
            HeadPoint(t) == c && HeadLength(t) == 2
  {
  }

  /** A code point's bytes can be cut off the front of a byte string in one way only. */
  lemma EncodedPointIsPrefixFree(c: CodePoint, d: CodePoint, x: seq<Byte>, y: seq<Byte>)
    requires EncodePoint(c) + x == EncodePoint(d) + y
    ensures c == d && x == y
  {
    var b := EncodePoint(c) + x;
    DecodeEncodedPoint(c);
    DecodeEncodedPoint(d);
    assert b[0] == EncodePoint(c)[0] == EncodePoint(d)[0];
    var n := PointLength(b[0]);
    assert EncodePoint(c) == b[..n] == EncodePoint(d);
    assert x == b[n..] == y;
  }

  lemma WellPairedHead(t: Text)
    requires t != [] && WellPaired(t)
    ensures HeadLength(t) <= |t| && WellPaired(t[HeadLength(t)..])
    ensures HeadLength(t) == 2 ==> HeadPoint(t) == PairPoint(t[0], t[1]) && IsLead(t[0]) && IsTrail(t[1])
    ensures HeadLength(t) == 1 ==> HeadPoint(t) == t[0]
  {
  }

  lemma {:induction false} HeadDetermines(t: Text, u: Text)
    requires t != [] && u != [] && WellPaired(t) && WellPaired(u)
    requires HeadPoint(t) == HeadPoint(u)
    ensures HeadLength(t) == HeadLength(u) <= |t| && HeadLength(u) <= |u|
    ensures t[..HeadLength(t)] == u[..HeadLength(u)]
    ensures WellPaired(t[HeadLength(t)..]) && WellPaired(u[HeadLength(u)..])
  {
    hide WellPaired, HeadPoint;
    WellPairedHead(t);
    WellPairedHead(u);
  }

  /** Distinct well-paired texts have distinct bytes. */
  lemma {:induction false} EncodeIsInjective(t: Text, u: Text)
    requires WellPaired(t) && WellPaired(u)
    requires Encode(t) == Encode(u)
    ensures t == u
    decreases |t|
  {
    if t == [] || u == [] {
      EncodeEmpty(t);
      EncodeEmpty(u);
    } else {
      var k, m := HeadLength(t), HeadLength(u);
      EncodedPointIsPrefixFree(HeadPoint(t), HeadPoint(u), Encode(t[k..]), Encode(u[m..]));
      HeadDetermines(t, u);
      EncodeIsInjective(t[k..], u[k..]);
      assert t == t[..k] + t[k..] && u == u[..k] + u[k..];
    }
  }

  lemma EncodeEmpty(t: Text)
    ensures Encode(t) == [] <==> t == []
  {
  }

  // ---- canonical text is well paired -------------------------------------------------------

  lemma {:induction false} ConcatWellPaired(a: Text, b: Text)
    requires WellPaired(a) && WellPaired(b)
    ensures WellPaired(a + b)
    decreases |a|
  {
    if a == [] {
      assert a + b == b;
    } else {
      var k := HeadLength(a);
      assert k <= |a| && HeadLength(a + b) == k;
      ConcatWellPaired(a[k..], b);
      assert (a + b)[k..] == a[k..] + b;
    }
  }

  /** Text without any surrogate. */
  lemma {:induction false} PlainWellPaired(t: Text)
    requires forall i :: 0 <= i < |t| ==> !IsLead(t[i]) && !IsTrail(t[i])
    ensures WellPaired(t)
  {
    if t != [] {
      PlainWellPaired(t[1..]);
    }
  }

  lemma {:induction false} PrintNatPlain(n: nat)
    ensures forall i :: 0 <= i < |PrintNat(n)| ==> PrintNat(n)[i] <= 0x39
  {
    if n >= 10 {
      PrintNatPlain(n / 10);
    }
  }

  lemma QuoteUnitPlain(c: CodeUnit)
    ensures forall i :: 0 <= i < |QuoteUnit(c)| ==> !IsLead(QuoteUnit(c)[i]) && !IsTrail(QuoteUnit(c)[i])
  {
    assert c / 0x1000 < 16;
  }

  lemma {:induction false} QuoteUnitsWellPaired(s: Text)
    ensures WellPaired(QuoteUnits(s))
    decreases |s|
  {
    if s != [] {
      hide QuoteUnit;
      var k := HeadLength(s);
      QuoteUnitsWellPaired(s[k..]);
      if k == 2 {
        assert WellPaired([s[0], s[1]]);
        ConcatWellPaired([s[0], s[1]], QuoteUnits(s[2..]));
      } else {
        QuoteUnitPlain(s[0]);
        PlainWellPaired(QuoteUnit(s[0]));
        ConcatWellPaired(QuoteUnit(s[0]), QuoteUnits(s[1..]));
      }
    }
  }

  lemma QuoteWellPaired(s: Text)
    ensures WellPaired(Quote(s))
  {
    QuoteUnitsWellPaired(s);
    BracketWellPaired(QUOTE, QuoteUnits(s), QUOTE);
  }

  lemma BracketWellPaired(open: CodeUnit, t: Text, close: CodeUnit)
    requires WellPaired(t) && open < 0xD800 && close < 0xD800
    ensures WellPaired([open] + t + [close])
  {
    PlainWellPaired([open]);
    PlainWellPaired([close]);
    ConcatWellPaired([open], t);
    ConcatWellPaired([open] + t, [close]);
  }

  lemma {:induction false} JoinWellPaired(parts: seq<Text>)
    requires forall i :: 0 <= i < |parts| ==> WellPaired(parts[i])
    ensures WellPaired(Join(parts))
  {
    if |parts| >= 2 {
      JoinWellPaired(parts[1..]);
      PlainWellPaired([COMMA]);
      ConcatWellPaired(parts[0], [COMMA]);
      ConcatWellPaired(parts[0] + [COMMA], Join(parts[1..]));
    }
  }

  /** `JSON.stringify` escapes lone surrogates, so canonical text has none. */
  lemma {:induction false} CanonicalWellPaired(v: Json)
    ensures WellPaired(Canonicalize(v))
    decreases v, 1, 0
  {
    match v {
      case Str(s) => QuoteWellPaired(s);
      case Num(n) =>
        PrintNatPlain(if n < 0 then -n else n);
        PlainWellPaired(PrintInt(n));
      case Arr(items) =>
        ItemsWellPaired(items);
        JoinWellPaired(CanonicalItems(items));
        BracketWellPaired(OPEN_BRACKET, Join(CanonicalItems(items)), CLOSE_BRACKET);
      case Obj(fields) =>
        var pairs := CanonicalPairs(v, SortKeys(Keys(fields)));
        PairsWellPaired(v, SortKeys(Keys(fields)));
        JoinWellPaired(pairs);
        BracketWellPaired(OPEN_BRACE, Join(pairs), CLOSE_BRACE);
      case _ =>
        PlainWellPaired(Canonicalize(v));
    }
  }

  lemma {:induction false} ItemsWellPaired(items: seq<Json>)
    ensures forall i :: 0 <= i < |CanonicalItems(items)| ==> WellPaired(CanonicalItems(items)[i])
    decreases items, 0, 0
  {
    if items != [] {
      CanonicalWellPaired(items[0]);
      ItemsWellPaired(items[1..]);
    }
  }

  lemma {:induction false} PairsWellPaired(obj: Json, keys: seq<Text>)
    requires obj.Obj?
    ensures forall i :: 0 <= i < |CanonicalPairs(obj, keys)| ==> WellPaired(CanonicalPairs(obj, keys)[i])
    decreases obj, 0, |keys|
  {
    if keys != [] {
      var v := Get(obj.fields, keys[0]);
      var text := if v == Undefined then NULL else Canonicalize(v);
      if v == Undefined {
        PlainWellPaired(NULL);
      } else {
        CanonicalWellPaired(v);
      }
      QuoteWellPaired(keys[0]);
      PlainWellPaired([COLON]);
      ConcatWellPaired(Quote(keys[0]), [COLON]);
      ConcatWellPaired(Quote(keys[0]) + [COLON], text);
      PairsWellPaired(obj, keys[1..]);
    }
  }
}
