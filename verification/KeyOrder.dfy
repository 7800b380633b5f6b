/**
 * The order of the keys in canonical text. They are sorted by UTF-16 code units, while the
 * specification orders them by Unicode code points; what follows says exactly when that is
 * the same.
 */
module KeyOrder {
  import opened Canonical
  import opened Utf8

  type Order = (Text, Text) -> bool

  /** Lexicographic order of sequences of numbers. */
  predicate Lex(a: seq<int>, b: seq<int>) {
    if b == [] then false
    else if a == [] then true
    else if a[0] != b[0] then a[0] < b[0]
    else Lex(a[1..], b[1..])
  }

  /** The code points of a text, whose surrogates come in pairs. */
  function CodePoints(t: Text): (points: seq<CodePoint>)
    ensures points == [] <==> t == []
    decreases |t|
  {
    if t == [] then [] else [HeadPoint(t)] + CodePoints(t[HeadLength(t)..])
  }

  /** Order by code point, as the specification has it. */
  predicate PointsBefore(a: Text, b: Text) {
    Lex(CodePoints(a), CodePoints(b))
  }

  predicate IsSurrogate(c: CodeUnit) { 0xD800 <= c < 0xE000 }

  predicate AboveSurrogates(c: CodeUnit) { c >= 0xE000 }

  /** Where two texts first differ, one has a surrogate and the other a unit above them. */
  predicate Clash(a: Text, b: Text) {
    if a == [] || b == [] then false
    else if a[0] != b[0] then
      (IsSurrogate(a[0]) && AboveSurrogates(b[0])) || (AboveSurrogates(a[0]) && IsSurrogate(b[0]))
    else Clash(a[1..], b[1..])
  }

  // ---- two keys -------------------------------------------------------------------------------

  /** Dropping an equal first code point changes neither order, nor where the texts differ. */
  lemma {:induction false} SameHead(a: Text, b: Text, k: nat)
    requires 1 <= k <= 2 && k <= |a| && k <= |b| && a[..k] == b[..k]
    ensures Before(a, b) <==> Before(a[k..], b[k..])
    ensures Clash(a, b) <==> Clash(a[k..], b[k..])
  {
    assert a[0] == a[..k][0] == b[0];
    if k == 2 {
      assert a[1] == a[..k][1] == b[1];
      assert a[1..][1..] == a[2..] && b[1..][1..] == b[2..];
    }
  }

  /** The first code points differ. */
  lemma OtherHead(a: Text, b: Text)
    requires a != [] && b != [] && WellPaired(a) && WellPaired(b) && HeadPoint(a) != HeadPoint(b)
    ensures (Before(a, b) <==> HeadPoint(a) < HeadPoint(b)) <==> !Clash(a, b)
  {
    WellPairedHead(a);
    WellPairedHead(b);
    hide WellPaired;
    if HeadLength(a) == 2 && HeadLength(b) == 2 && a[0] == b[0] {
      assert a[1..][0] == a[1] && b[1..][0] == b[1];
    }
  }

  /** The two orders agree on two keys exactly when these do not clash. */
  lemma {:induction false} OrdersAgreeIff(a: Text, b: Text)
    requires WellPaired(a) && WellPaired(b)
    ensures (Before(a, b) <==> PointsBefore(a, b)) <==> !Clash(a, b)
    decreases |a|
  {
    if a != [] && b != [] {
      if HeadPoint(a) == HeadPoint(b) {
        var k := HeadLength(a);
        HeadDetermines(a, b);
        OrdersAgreeIff(a[k..], b[k..]);
        SameHead(a, b, k);
        hide Before, Clash, HeadPoint, HeadLength;
        assert CodePoints(a)[1..] == CodePoints(a[k..]) && CodePoints(b)[1..] == CodePoints(b[k..]);
      } else {
        OtherHead(a, b);
      }
    }
  }

  lemma {:induction false} ClashIsSymmetric(a: Text, b: Text)
    ensures Clash(a, b) <==> Clash(b, a)
  {
    if a != [] && b != [] && a[0] == b[0] {
      ClashIsSymmetric(a[1..], b[1..]);
    }
  }

  /** A caller's condition: among keys without surrogates, or without units above them, none clash. */
  lemma {:induction false} NoClashWithout(a: Text, b: Text)
    requires (forall c :: c in a || c in b ==> !IsSurrogate(c))
             || (forall c :: c in a || c in b ==> !AboveSurrogates(c))
    ensures !Clash(a, b)
  {
    if a != [] && b != [] {
      assert a[0] in a && b[0] in b;
      assert forall c :: c in a[1..] ==> c in a;
      assert forall c :: c in b[1..] ==> c in b;
      NoClashWithout(a[1..], b[1..]);
    }
  }

  // ---- sorting by an order ----------------------------------------------------------------------

  function ByUnits(): Order { (a: Text, b: Text) => Before(a, b) }

  function ByPoints(): Order { (a: Text, b: Text) => PointsBefore(a, b) }

  function InsertBy(before: Order, k: Text, ks: seq<Text>): seq<Text> {
    if ks == [] || !before(ks[0], k) then [k] + ks
    else [ks[0]] + InsertBy(before, k, ks[1..])
  }

  function SortBy(before: Order, ks: seq<Text>): seq<Text> {
    if ks == [] then [] else InsertBy(before, ks[0], SortBy(before, ks[1..]))
  }

  lemma {:induction false} InsertKeyIsByUnits(k: Text, ks: seq<Text>)
    ensures InsertKey(k, ks) == InsertBy(ByUnits(), k, ks)
  {
    if ks != [] {
      InsertKeyIsByUnits(k, ks[1..]);
    }
  }

  lemma {:induction false} SortKeysIsByUnits(ks: seq<Text>)
    ensures SortKeys(ks) == SortBy(ByUnits(), ks)
  {
    if ks != [] {
      SortKeysIsByUnits(ks[1..]);
      InsertKeyIsByUnits(ks[0], SortKeys(ks[1..]));
    }
  }

  ghost predicate IsOrder(before: Order) {
    && (forall a, b :: !(before(a, b) && before(b, a)))
    && (forall a, b, c :: !before(b, a) && !before(c, b) ==> !before(c, a))
  }

  ghost predicate SortedBy(before: Order, ks: seq<Text>) {
    forall i, j :: 0 <= i < j < |ks| ==> !before(ks[j], ks[i])
  }

  lemma {:induction false} InsertSorts(before: Order, k: Text, ks: seq<Text>)
    requires IsOrder(before) && SortedBy(before, ks)
    ensures SortedBy(before, InsertBy(before, k, ks))
    ensures forall x :: x in InsertBy(before, k, ks) <==> x == k || x in ks
  {
    if ks != [] && before(ks[0], k) {
      var rest := InsertBy(before, k, ks[1..]);
      InsertSorts(before, k, ks[1..]);
      forall i | 0 <= i < |rest|
        ensures !before(rest[i], ks[0])
      {
        assert rest[i] in rest;
        if rest[i] != k {
          var j :| 0 <= j < |ks[1..]| && ks[1..][j] == rest[i];
          assert ks[j + 1] == rest[i];
        }
      }
    } else if ks != [] {
      forall i | 0 <= i < |ks|
        ensures !before(ks[i], k)
      {
        assert !before(ks[0], k) && (i > 0 ==> !before(ks[i], ks[0]));
      }
    }
  }

  lemma {:induction false} SortSorts(before: Order, ks: seq<Text>)
    requires IsOrder(before)
    ensures SortedBy(before, SortBy(before, ks))
    ensures forall x :: x in SortBy(before, ks) <==> x in ks
  {
    if ks != [] {
      SortSorts(before, ks[1..]);
      InsertSorts(before, ks[0], SortBy(before, ks[1..]));
    }
  }

  // ---- both orders are orders ---------------------------------------------------------------------

  lemma {:induction false} LexFacts(a: seq<int>, b: seq<int>)
    ensures !(Lex(a, b) && Lex(b, a))
    ensures Lex(a, b) || Lex(b, a) || a == b
  {
    if a != [] && b != [] && a[0] == b[0] {
      LexFacts(a[1..], b[1..]);
      assert a == [a[0]] + a[1..] && b == [b[0]] + b[1..];
    }
  }

  lemma {:induction false} LexIsTransitive(a: seq<int>, b: seq<int>, c: seq<int>)
    requires !Lex(b, a) && !Lex(c, b)
    ensures !Lex(c, a)
  {
    if a != [] && b != [] && c != [] && a[0] == b[0] == c[0] {
      LexIsTransitive(a[1..], b[1..], c[1..]);
    }
  }

  lemma {:induction false} BeforeIsLex(a: Text, b: Text)
    ensures Before(a, b) <==> Lex(a, b)
  {
    if a != [] && b != [] && a[0] == b[0] {
      BeforeIsLex(a[1..], b[1..]);
    }
  }

  lemma UnitsAreOrdered()
    ensures IsOrder(ByUnits())
  {
    hide Lex, Before;
    forall a: Text, b: Text
      ensures !(Before(a, b) && Before(b, a))
    {
      BeforeIsLex(a, b);
      BeforeIsLex(b, a);
      LexFacts(a, b);
    }
    forall a: Text, b: Text, c: Text | !Before(b, a) && !Before(c, b)
      ensures !Before(c, a)
    {
      BeforeIsLex(b, a);
      BeforeIsLex(c, b);
      BeforeIsLex(c, a);
      LexIsTransitive(a, b, c);
    }
  }

  lemma PointsAreOrdered()
    ensures IsOrder(ByPoints())
  {
    hide Lex, CodePoints;
    forall a: Text, b: Text
      ensures !(PointsBefore(a, b) && PointsBefore(b, a))
    {
      LexFacts(CodePoints(a), CodePoints(b));
    }
    forall a: Text, b: Text, c: Text | !PointsBefore(b, a) && !PointsBefore(c, b)
      ensures !PointsBefore(c, a)
    {
      LexIsTransitive(CodePoints(a), CodePoints(b), CodePoints(c));
    }
  }

  // ---- all keys of an object ------------------------------------------------------------------------

  ghost predicate NoneClash(ks: seq<Text>) {
    forall a, b :: a in ks && b in ks ==> !Clash(a, b)
  }

  lemma {:induction false} SameInsert(k: Text, ks: seq<Text>)
    requires forall x :: x in ks ==> (Before(x, k) <==> PointsBefore(x, k))
    ensures InsertBy(ByUnits(), k, ks) == InsertBy(ByPoints(), k, ks)
  {
    if ks != [] {
      assert ks[0] in ks;
      SameInsert(k, ks[1..]);
    }
  }

  lemma {:induction false} SameSort(ks: seq<Text>)
    requires forall k :: k in ks ==> WellPaired(k)
    requires NoneClash(ks)
    ensures SortBy(ByUnits(), ks) == SortBy(ByPoints(), ks)
  {
    if ks != [] {
      hide WellPaired, Before, Clash, PointsBefore;
      var k, rest := ks[0], ks[1..];
      assert k in ks && forall x :: x in rest ==> x in ks;
      SameSort(rest);
      PointsAreOrdered();
      SortSorts(ByPoints(), rest);
      forall x | x in SortBy(ByPoints(), rest)
        ensures Before(x, k) <==> PointsBefore(x, k)
      {
        OrdersAgreeIff(x, k);
      }
      SameInsert(k, SortBy(ByPoints(), rest));
    }
  }

  /** Two keys that clash are sorted one way round by units and the other by points. */
  lemma ClashSortsApart(s: seq<Text>, i: nat, j: nat)
    requires i < j < |s| && WellPaired(s[i]) && WellPaired(s[j])
    requires SortedBy(ByUnits(), s) && SortedBy(ByPoints(), s)
    ensures !Clash(s[i], s[j])
  {
    hide WellPaired, Before, Clash, Lex, CodePoints;
    var a, b := s[i], s[j];
    assert !ByUnits()(b, a) && !ByPoints()(b, a);
    OrdersAgreeIff(a, b);
    OrdersAgreeIff(b, a);
    ClashIsSymmetric(a, b);
  }

  lemma {:induction false} NeverClashesWithItself(a: Text)
    ensures !Clash(a, a)
  {
    if a != [] {
      NeverClashesWithItself(a[1..]);
    }
  }

  /**
   * The keys of an object are in the specified order exactly when no two of them clash. Keys
   * without surrogates never clash, nor do keys without units above them.
   */
  lemma KeysSortAsSpecifiedIff(ks: seq<Text>)
    requires forall k :: k in ks ==> WellPaired(k)
    ensures SortKeys(ks) == SortBy(ByPoints(), ks) <==> NoneClash(ks)
    ensures (forall k, c :: k in ks && c in k ==> !IsSurrogate(c)) ==> NoneClash(ks)
    ensures (forall k, c :: k in ks && c in k ==> !AboveSurrogates(c)) ==> NoneClash(ks)
  {
    hide WellPaired, Clash, SortKeys, SortBy, IsSurrogate, AboveSurrogates;
    SortKeysIsByUnits(ks);
    if NoneClash(ks) {
      SameSort(ks);
    }
    var s := SortBy(ByPoints(), ks);
    if SortKeys(ks) == s {
      UnitsAreOrdered();
      PointsAreOrdered();
      SortSorts(ByUnits(), ks);
      SortSorts(ByPoints(), ks);
      forall a, b | a in ks && b in ks
        ensures !Clash(a, b)
      {
        SortedApart(s, a, b);
      }
    }
    forall a, b | a in ks && b in ks && ((forall k, c :: k in ks && c in k ==> !IsSurrogate(c))
                                         || (forall k, c :: k in ks && c in k ==> !AboveSurrogates(c)))
      ensures !Clash(a, b)
    {
      NoClashWithout(a, b);
    }
  }

  lemma SortedApart(s: seq<Text>, a: Text, b: Text)
    requires SortedBy(ByUnits(), s) && SortedBy(ByPoints(), s)
    requires a in s && b in s && WellPaired(a) && WellPaired(b)
    ensures !Clash(a, b)
  {
    hide WellPaired, Clash, SortedBy;
    var i :| 0 <= i < |s| && s[i] == a;
    var j :| 0 <= j < |s| && s[j] == b;
    if i < j {
      ClashSortsApart(s, i, j);
    } else if j < i {
      ClashSortsApart(s, j, i);
      ClashIsSymmetric(a, b);
    } else {
      NeverClashesWithItself(a);
    }
  }

  /** Two keys that are not in the specified order: U+1F600, a surrogate pair, and U+FF5E. */
  lemma CodeUnitOrderIsNotCodePointOrder()
    ensures var a: Text, b: Text := [0xD83D, 0xDE00], [0xFF5E];
            && Before(a, b) && !PointsBefore(a, b)
            && CodePoints(a) == [0x1F600] && CodePoints(b) == [0xFF5E]
  {
    var a: Text := [0xD83D, 0xDE00];
    assert a[2..] == [];
    assert CodePoints(a) == [0x1F600] + CodePoints(a[2..]);
    var b: Text := [0xFF5E];
    assert b[1..] == [];
  }
}
