/**
 * What the canonical text says about a value: two values have the same text exactly when
 * they are equal up to the order of members, at every depth.
 */
module CanonicalForms {
  import opened Canonical
  import opened CanonicalParse

  ghost predicate DistinctKeys(fields: seq<Field>) {
    forall i, j :: 0 <= i < j < |fields| ==> fields[i].key != fields[j].key
  }

  /** JavaScript objects: no object, at any depth, has a key twice. */
  ghost predicate WellFormed(v: Json)
    decreases v
  {
    match v
    case Arr(items) => forall i | 0 <= i < |items| :: WellFormed(items[i])
    case Obj(fields) => DistinctKeys(fields) && forall i | 0 <= i < |fields| :: WellFormed(fields[i].value)
    case _ => true
  }

  /** `gs` has a member with the key of `f` and the same value. */
  ghost predicate HasSame(f: Field, gs: seq<Field>)
    decreases f, 1
  {
    exists j | 0 <= j < |gs| :: gs[j].key == f.key && Same(f.value, gs[j].value)
  }

  /** `g` has the key of a member of `fs` and the same value. */
  ghost predicate IsSameAsSome(fs: seq<Field>, g: Field)
    decreases fs, 1
  {
    exists i | 0 <= i < |fs| :: fs[i].key == g.key && Same(fs[i].value, g.value)
  }

  /** Equal up to the order of members at every depth; undefined reads as null. */
  ghost predicate Same(a: Json, b: Json)
    decreases a, 0
  {
    match a
    case Undefined => b.Undefined? || b.Null?
    case Null => b.Undefined? || b.Null?
    case Arr(items) =>
      b.Arr? && |items| == |b.items| && forall i | 0 <= i < |items| :: Same(items[i], b.items[i])
    case Obj(fields) =>
      && b.Obj?
      && (forall i | 0 <= i < |fields| :: HasSame(fields[i], b.fields))
      && (forall j | 0 <= j < |b.fields| :: IsSameAsSome(fields, b.fields[j]))
    case _ => a == b
  }

  // ---- the normal form -------------------------------------------------------------------

  function InsertField(f: Field, fields: seq<Field>): seq<Field> {
    if fields == [] || !Before(fields[0].key, f.key) then [f] + fields
    else [fields[0]] + InsertField(f, fields[1..])
  }

  function SortFields(fields: seq<Field>): seq<Field> {
    if fields == [] then [] else InsertField(fields[0], SortFields(fields[1..]))
  }

  /** Members sorted by key at every depth, undefined made null. */
  function Normal(v: Json): (r: Json)
    decreases v, 1
  {
    match v
    case Undefined => Null
    case Arr(items) => Arr(NormalItems(items))
    case Obj(fields) => Obj(SortFields(NormalFields(fields)))
    case _ => v
  }

  function NormalItems(items: seq<Json>): (r: seq<Json>)
    ensures |r| == |items|
    ensures forall i :: 0 <= i < |items| ==> r[i] == Normal(items[i])
    decreases items, 0
  {
    if items == [] then [] else [Normal(items[0])] + NormalItems(items[1..])
  }

  function NormalFields(fields: seq<Field>): (r: seq<Field>)
    ensures |r| == |fields|
    ensures forall i :: 0 <= i < |fields| ==> r[i] == Field(fields[i].key, Normal(fields[i].value))
    decreases fields, 0
  {
    if fields == [] then []
    else [Field(fields[0].key, Normal(fields[0].value))] + NormalFields(fields[1..])
  }

  // ---- key order ---------------------------------------------------------------------------

  lemma {:induction false} BeforeIsTotal(a: Text, b: Text)
    ensures Before(a, b) || Before(b, a) || a == b
    ensures !(Before(a, b) && Before(b, a))
    ensures Before(a, b) ==> a != b
  {
    if a != [] && b != [] && a[0] == b[0] {
      BeforeIsTotal(a[1..], b[1..]);
      assert a == [a[0]] + a[1..] && b == [b[0]] + b[1..];
    }
  }

  lemma {:induction false} BeforeIsTransitive(a: Text, b: Text, c: Text)
    requires Before(a, b) && Before(b, c)
    ensures Before(a, c)
  {
    if a != [] && a[0] == b[0] == c[0] {
      BeforeIsTransitive(a[1..], b[1..], c[1..]);
    }
  }

  ghost predicate StrictlySorted(fields: seq<Field>) {
    forall i, j :: 0 <= i < j < |fields| ==> Before(fields[i].key, fields[j].key)
  }

  lemma {:induction false} InsertMembers(f: Field, fields: seq<Field>)
    ensures forall g :: g in InsertField(f, fields) <==> g == f || g in fields
  {
    if fields != [] && Before(fields[0].key, f.key) {
      InsertMembers(f, fields[1..]);
      assert fields == [fields[0]] + fields[1..];
    }
  }

  lemma {:induction false} InsertKeys(f: Field, fields: seq<Field>)
    ensures Keys(InsertField(f, fields)) == InsertKey(f.key, Keys(fields))
  {
    if fields == [] || !Before(fields[0].key, f.key) {
      KeysOfMore(f, fields);
    } else {
      InsertKeys(f, fields[1..]);
      KeysOfMore(fields[0], fields[1..]);
      KeysOfMore(fields[0], InsertField(f, fields[1..]));
      assert fields == [fields[0]] + fields[1..];
      assert Keys(fields)[1..] == Keys(fields[1..]);
    }
  }

  lemma KeysOfMore(f: Field, fields: seq<Field>)
    ensures Keys([f] + fields) == [f.key] + Keys(fields)
  {
  }

  lemma {:induction false} InsertSorted(f: Field, fields: seq<Field>)
    requires StrictlySorted(fields)
    requires forall g :: g in fields ==> g.key != f.key
    ensures StrictlySorted(InsertField(f, fields))
    ensures forall g :: g in InsertField(f, fields) <==> g == f || g in fields
    ensures Keys(InsertField(f, fields)) == InsertKey(f.key, Keys(fields))
  {
    InsertMembers(f, fields);
    InsertKeys(f, fields);
    hide InsertKey, Before;
    if fields != [] && Before(fields[0].key, f.key) {
      var rest := InsertField(f, fields[1..]);
      InsertSorted(f, fields[1..]);
      forall k | 0 <= k < |rest|
        ensures Before(fields[0].key, rest[k].key)
      {
        assert rest[k] in rest;
      }
      assert InsertField(f, fields) == [fields[0]] + rest;
    } else {
      InsertFirst(f, fields);
    }
  }

  lemma InsertFirst(f: Field, fields: seq<Field>)
    requires StrictlySorted(fields)
    requires forall g :: g in fields ==> g.key != f.key
    requires fields == [] || !Before(fields[0].key, f.key)
    ensures StrictlySorted([f] + fields)
    ensures Keys([f] + fields) == [f.key] + Keys(fields)
  {
    forall k | 0 <= k < |fields|
      ensures Before(f.key, fields[k].key)
    {
      BeforeIsTotal(fields[0].key, f.key);
      assert fields[0] in fields;
      if k > 0 {
        BeforeIsTransitive(f.key, fields[0].key, fields[k].key);
      }
    }
  }

  lemma {:induction false} SortSorted(fields: seq<Field>)
    requires DistinctKeys(fields)
    ensures StrictlySorted(SortFields(fields))
    ensures forall g :: g in SortFields(fields) <==> g in fields
    ensures Keys(SortFields(fields)) == SortKeys(Keys(fields))
  {
    if fields != [] {
      var f, rest := fields[0], fields[1..];
      SortSorted(rest);
      assert Keys(fields)[1..] == Keys(rest);
      forall g | g in SortFields(rest)
        ensures g.key != f.key
      {
        var k :| 0 <= k < |rest| && rest[k] == g;
        assert fields[k + 1] == g;
      }
      InsertSorted(f, SortFields(rest));
    }
  }

  /** A set of fields can be strictly sorted in one way only. */
  lemma {:induction false} SortedIsUnique(a: seq<Field>, b: seq<Field>)
    requires StrictlySorted(a) && StrictlySorted(b)
    requires forall f :: f in a <==> f in b
    ensures a == b
  {
    if a == [] {
      if b != [] {
        HasMember(b);
        assert false;
      }
    } else {
      assert a[0] in b;
      SameHead(a, b);
      assert StrictlySorted(a[1..]) && StrictlySorted(b[1..]);
      forall f
        ensures f in a[1..] <==> f in b[1..]
      {
        TailMembers(a, f);
        TailMembers(b, f);
      }
      SortedIsUnique(a[1..], b[1..]);
      assert a == [a[0]] + a[1..] && b == [b[0]] + b[1..];
    }
  }

  lemma HasMember(b: seq<Field>)
    requires b != []
    ensures exists f :: f in b
  {
    assert b[0] in b;
  }

  lemma SameHead(a: seq<Field>, b: seq<Field>)
    requires StrictlySorted(a) && StrictlySorted(b) && a != [] && b != []
    requires a[0] in b && b[0] in a
    ensures a[0] == b[0]
  {
    var j :| 0 <= j < |b| && b[j] == a[0];
    var i :| 0 <= i < |a| && a[i] == b[0];
    BeforeIsTotal(a[0].key, b[0].key);
  }

  lemma TailMembers(a: seq<Field>, f: Field)
    requires StrictlySorted(a) && a != []
    ensures f in a[1..] <==> f in a && f != a[0]
  {
    assert a == [a[0]] + a[1..];
    if f in a[1..] {
      var k :| 0 <= k < |a[1..]| && a[1..][k] == f;
      assert Before(a[0].key, a[k + 1].key);
      BeforeIsTotal(a[0].key, f.key);
    }
  }

  // ---- same up to order is same normal form ----------------------------------------------

  lemma {:induction false} SameIffNormal(a: Json, b: Json)
    requires WellFormed(a) && WellFormed(b)
    ensures Same(a, b) <==> Normal(a) == Normal(b)
    decreases a
  {
    if a.Arr? && b.Arr? {
      if |a.items| == |b.items| {
        forall i | 0 <= i < |a.items|
          ensures Same(a.items[i], b.items[i]) <==> Normal(a.items[i]) == Normal(b.items[i])
        {
          SameIffNormal(a.items[i], b.items[i]);
        }
        assert Normal(a) == Normal(b) <==> NormalItems(a.items) == NormalItems(b.items);
      }
    } else if a.Obj? && b.Obj? {
      forall i, j | 0 <= i < |a.fields| && 0 <= j < |b.fields|
        ensures Same(a.fields[i].value, b.fields[j].value)
                <==> Normal(a.fields[i].value) == Normal(b.fields[j].value)
      {
        SameIffNormal(a.fields[i].value, b.fields[j].value);
      }
      SameMembers(a.fields, b.fields);
    }
  }

  /** Sameness of members' values has been shown to be equality of their normal forms. */
  ghost predicate SameIsNormal(fs: seq<Field>, gs: seq<Field>) {
    forall i, j :: 0 <= i < |fs| && 0 <= j < |gs| ==>
      (Same(fs[i].value, gs[j].value) <==> Normal(fs[i].value) == Normal(gs[j].value))
  }

  lemma HasSameIsIn(fs: seq<Field>, gs: seq<Field>, i: nat)
    requires SameIsNormal(fs, gs) && i < |fs|
    ensures HasSame(fs[i], gs) <==> NormalFields(fs)[i] in NormalFields(gs)
  {
    hide Same, Normal;
    var nf, ng := NormalFields(fs), NormalFields(gs);
    if HasSame(fs[i], gs) {
      var j :| 0 <= j < |gs| && gs[j].key == fs[i].key && Same(fs[i].value, gs[j].value);
      assert ng[j] == nf[i];
    }
    if nf[i] in ng {
      var j :| 0 <= j < |ng| && ng[j] == nf[i];
      assert gs[j].key == fs[i].key && Same(fs[i].value, gs[j].value);
    }
  }

  lemma IsSameIsIn(fs: seq<Field>, gs: seq<Field>, j: nat)
    requires SameIsNormal(fs, gs) && j < |gs|
    ensures IsSameAsSome(fs, gs[j]) <==> NormalFields(gs)[j] in NormalFields(fs)
  {
    hide Same, Normal;
    var nf, ng := NormalFields(fs), NormalFields(gs);
    if IsSameAsSome(fs, gs[j]) {
      var i :| 0 <= i < |fs| && fs[i].key == gs[j].key && Same(fs[i].value, gs[j].value);
      assert nf[i] == ng[j];
    }
    if ng[j] in nf {
      var i :| 0 <= i < |nf| && nf[i] == ng[j];
      assert fs[i].key == gs[j].key && Same(fs[i].value, gs[j].value);
    }
  }

  lemma SameMembers(fs: seq<Field>, gs: seq<Field>)
    requires DistinctKeys(fs) && DistinctKeys(gs) && SameIsNormal(fs, gs)
    ensures Same(Obj(fs), Obj(gs)) <==> Normal(Obj(fs)) == Normal(Obj(gs))
  {
    hide SortFields, SameIsNormal, HasSame, IsSameAsSome;
    var nf, ng := NormalFields(fs), NormalFields(gs);
    forall i | 0 <= i < |fs|
      ensures HasSame(fs[i], gs) <==> nf[i] in ng
    {
      HasSameIsIn(fs, gs, i);
    }
    forall j | 0 <= j < |gs|
      ensures IsSameAsSome(fs, gs[j]) <==> ng[j] in nf
    {
      IsSameIsIn(fs, gs, j);
    }
    SortsEqual(nf, ng);
  }

  lemma {:induction false} SortsEqual(nf: seq<Field>, ng: seq<Field>)
    requires DistinctKeys(nf) && DistinctKeys(ng)
    ensures SortFields(nf) == SortFields(ng)
            <==> (forall i :: 0 <= i < |nf| ==> nf[i] in ng) && (forall j :: 0 <= j < |ng| ==> ng[j] in nf)
  {
    hide SortFields, StrictlySorted, SortKeys, Keys;
    SortSorted(nf);
    SortSorted(ng);
    if (forall i :: 0 <= i < |nf| ==> nf[i] in ng) && (forall j :: 0 <= j < |ng| ==> ng[j] in nf) {
      hide DistinctKeys;
      assert forall f :: f in nf <==> f in ng;
      SortedIsUnique(SortFields(nf), SortFields(ng));
    }
    if SortFields(nf) == SortFields(ng) {
      assert forall i :: 0 <= i < |nf| ==> nf[i] in SortFields(nf);
      assert forall j :: 0 <= j < |ng| ==> ng[j] in SortFields(ng);
    }
  }

  // ---- the canonical text is the printed normal form -------------------------------------

  lemma {:induction false} CanonicalIsNormalPrinted(v: Json)
    requires WellFormed(v)
    ensures Canonicalize(v) == Print(Normal(v))
    decreases v
  {
    match v {
      case Arr(items) =>
        forall i | 0 <= i < |items|
          ensures Canonicalize(items[i]) == Print(Normal(items[i]))
        {
          CanonicalIsNormalPrinted(items[i]);
        }
        ItemsPrinted(items);
      case Obj(fields) =>
        forall i | 0 <= i < |fields|
          ensures Canonicalize(fields[i].value) == Print(Normal(fields[i].value))
        {
          CanonicalIsNormalPrinted(fields[i].value);
        }
        var sorted := SortFields(NormalFields(fields));
        SortSorted(NormalFields(fields));
        assert Keys(NormalFields(fields)) == Keys(fields);
        PairsPrinted(fields, sorted);
      case _ =>
    }
  }

  lemma {:induction false} ItemsPrinted(items: seq<Json>)
    requires forall i :: 0 <= i < |items| ==> Canonicalize(items[i]) == Print(Normal(items[i]))
    ensures CanonicalItems(items) == PrintItems(NormalItems(items))
  {
    if items != [] {
      assert forall i :: 0 <= i < |items[1..]| ==> items[1..][i] == items[i + 1];
      ItemsPrinted(items[1..]);
    }
  }

  lemma {:induction false} GetField(fields: seq<Field>, k: nat)
    requires DistinctKeys(fields) && k < |fields|
    ensures Get(fields, fields[k].key) == fields[k].value
  {
    if k > 0 {
      GetField(fields[1..], k - 1);
    }
  }

  /** `sorted` lists, in any order, normal forms of members of `fields`. */
  lemma {:induction false} PairsPrinted(fields: seq<Field>, sorted: seq<Field>)
    requires DistinctKeys(fields)
    requires forall i :: 0 <= i < |fields| ==> Canonicalize(fields[i].value) == Print(Normal(fields[i].value))
    requires forall f :: f in sorted ==> f in NormalFields(fields)
    ensures CanonicalPairs(Obj(fields), Keys(sorted)) == PrintFields(sorted)
    decreases |sorted|
  {
    if sorted != [] {
      var f := sorted[0];
      assert f in sorted;
      var k :| 0 <= k < |fields| && NormalFields(fields)[k] == f;
      GetField(fields, k);
      assert Keys(sorted)[1..] == Keys(sorted[1..]);
      PairsPrinted(fields, sorted[1..]);
      assert PrintField(f) == Quote(f.key) + [COLON] + Canonicalize(fields[k].value);
    }
  }

  // ---- the normal form has no undefined ----------------------------------------------------

  lemma {:induction false} NormalDefined(v: Json)
    ensures Defined(Normal(v))
    decreases v
  {
    match v {
      case Arr(items) =>
        forall i | 0 <= i < |items|
          ensures Defined(NormalItems(items)[i])
        {
          NormalDefined(items[i]);
        }
        ItemsDefined(NormalItems(items));
      case Obj(fields) =>
        forall i | 0 <= i < |fields|
          ensures Defined(NormalFields(fields)[i].value)
        {
          NormalDefined(fields[i].value);
        }
        SortDefined(NormalFields(fields));
      case _ =>
    }
  }

  lemma {:induction false} ItemsDefined(items: seq<Json>)
    requires forall i :: 0 <= i < |items| ==> Defined(items[i])
    ensures AllDefined(items)
  {
    if items != [] {
      ItemsDefined(items[1..]);
    }
  }

  lemma {:induction false} SortDefined(fields: seq<Field>)
    requires forall i :: 0 <= i < |fields| ==> Defined(fields[i].value)
    ensures FieldsDefined(SortFields(fields))
  {
    if fields != [] {
      SortDefined(fields[1..]);
      InsertDefined(fields[0], SortFields(fields[1..]));
    }
  }

  lemma {:induction false} InsertDefined(f: Field, fields: seq<Field>)
    requires Defined(f.value) && FieldsDefined(fields)
    ensures FieldsDefined(InsertField(f, fields))
  {
    if !(fields == [] || !Before(fields[0].key, f.key)) {
      InsertDefined(f, fields[1..]);
      assert InsertField(f, fields)[1..] == InsertField(f, fields[1..]);
    } else {
      assert ([f] + fields)[1..] == fields;
    }
  }

  // ---- the promises ------------------------------------------------------------------------

  /** Parsing the canonical text gives the normal form of the value. */
  lemma ParseCanonical(v: Json)
    requires WellFormed(v)
    ensures Parse(Canonicalize(v)) == Ok(Normal(v), [])
  {
    CanonicalIsNormalPrinted(v);
    NormalDefined(v);
    ParsePrint(Normal(v), []);
    assert Print(Normal(v)) + [] == Print(Normal(v));
  }

  /** Same canonical text exactly when same up to member order. */
  lemma CanonicalTextIdentifies(a: Json, b: Json)
    requires WellFormed(a) && WellFormed(b)
    ensures Canonicalize(a) == Canonicalize(b) <==> Same(a, b)
  {
    SameIffNormal(a, b);
    ParseCanonical(a);
    ParseCanonical(b);
    CanonicalIsNormalPrinted(a);
    CanonicalIsNormalPrinted(b);
  }
}
