/**
 * The insertion-ordered, id-keyed store that every handler works on.
 *
 * A JavaScript object is a `Ref`: a reference to a record that its holders update in
 * place. `filter` and `getById` return the stored references themselves, so what a
 * handler does to a found object it does to the store.
 */
module JsonStores {
  import opened Seqs

  class Ref<V> {
    var it: V

    constructor (v: V)
      ensures it == v
    {
      it := v;
    }
  }

  /** The referenced records are, at this moment, `vs`. */
  ghost predicate Shows<V>(refs: seq<Ref<V>>, vs: seq<V>)
    reads refs
  {
    |refs| == |vs| && forall i :: 0 <= i < |refs| ==> refs[i].it == vs[i]
  }

  // ---- the store on values ----------------------------------------------------------

  /** Position of the first record with this id, or -1. */
  function IndexOfId<V>(s: seq<V>, idOf: V -> string, id: string): (r: int)
    ensures -1 <= r < |s|
    ensures r >= 0 ==> idOf(s[r]) == id && forall k :: 0 <= k < r ==> idOf(s[k]) != id
    ensures r == -1 ==> forall k :: 0 <= k < |s| ==> idOf(s[k]) != id
  {
    if s == [] then -1
    else if idOf(s[0]) == id then 0
    else
      var r := IndexOfId(s[1..], idOf, id);
      assert forall k :: 0 <= k < |s[1..]| ==> s[1..][k] == s[k + 1];
      if r < 0 then -1 else r + 1
  }

  function Put<V>(s: seq<V>, idOf: V -> string, v: V): seq<V> {
    var i := IndexOfId(s, idOf, idOf(v));
    if i >= 0 then s[i := v] else s + [v]
  }

  function Without<V>(s: seq<V>, idOf: V -> string, id: string): seq<V> {
    var i := IndexOfId(s, idOf, id);
    if i >= 0 then RemoveAt(s, i) else s
  }

  function Find<V>(s: seq<V>, idOf: V -> string, id: string): Option<V> {
    var i := IndexOfId(s, idOf, id);
    if i >= 0 then Some(s[i]) else None
  }

  ghost predicate DistinctIds<V(!new)>(s: seq<V>, idOf: V -> string) {
    forall i, j :: 0 <= i < j < |s| ==> idOf(s[i]) != idOf(s[j])
  }

  lemma IndexIsUnique<V(!new)>(s: seq<V>, idOf: V -> string, k: nat)
    requires DistinctIds(s, idOf) && k < |s|
    ensures IndexOfId(s, idOf, idOf(s[k])) == k
  {
  }

  lemma PutKeepsDistinct<V(!new)>(s: seq<V>, idOf: V -> string, v: V)
    requires DistinctIds(s, idOf)
    ensures DistinctIds(Put(s, idOf, v), idOf)
    ensures v in Put(s, idOf, v)
  {
    var i := IndexOfId(s, idOf, idOf(v));
    assert Put(s, idOf, v)[if i >= 0 then i else |s|] == v;
  }

  /** Putting a record replaces the one with its id and no other. */
  lemma PutMembers<V(!new)>(s: seq<V>, idOf: V -> string, v: V)
    requires DistinctIds(s, idOf)
    ensures DistinctIds(Put(s, idOf, v), idOf)
    ensures forall x :: x in Put(s, idOf, v) <==> x == v || (x in s && idOf(x) != idOf(v))
  {
    var i, after := IndexOfId(s, idOf, idOf(v)), Put(s, idOf, v);
    PutKeepsDistinct(s, idOf, v);
    forall x
      ensures x in after <==> x == v || (x in s && idOf(x) != idOf(v))
    {
      if x in after && x != v {
        var k :| 0 <= k < |after| && after[k] == x;
        assert s[k] == x;
      }
      if x in s && idOf(x) != idOf(v) {
        var k :| 0 <= k < |s| && s[k] == x;
        assert after[k] == x;
      }
    }
  }

  /** Putting a stored record back changes nothing. */
  lemma PutStored<V(!new)>(s: seq<V>, idOf: V -> string, v: V)
    requires DistinctIds(s, idOf) && v in s
    ensures Put(s, idOf, v) == s
  {
    var k :| 0 <= k < |s| && s[k] == v;
    IndexIsUnique(s, idOf, k);
  }

  lemma FindMember<V(!new)>(s: seq<V>, idOf: V -> string, v: V)
    requires DistinctIds(s, idOf)
    ensures v in s <==> Find(s, idOf, idOf(v)) == Some(v)
  {
    if v in s {
      var k :| 0 <= k < |s| && s[k] == v;
      IndexIsUnique(s, idOf, k);
    }
  }

  lemma WithoutKeepsDistinct<V(!new)>(s: seq<V>, idOf: V -> string, id: string)
    requires DistinctIds(s, idOf)
    ensures DistinctIds(Without(s, idOf, id), idOf)
    ensures forall v :: v in Without(s, idOf, id) <==> v in s && idOf(v) != id
  {
    var i := IndexOfId(s, idOf, id);
    if i >= 0 {
      forall v
        ensures v in RemoveAt(s, i) <==> v in s && idOf(v) != id
      {
        RemoveAtMembers(s, i, v);
      }
    }
  }

  function OtherThan<V>(idOf: V -> string, id: string): V -> bool {
    (v: V) => idOf(v) != id
  }

  /** Removing an id is filtering it out, when ids are distinct. */
  lemma {:induction false} WithoutIsFilter<V(!new)>(s: seq<V>, idOf: V -> string, id: string)
    requires DistinctIds(s, idOf)
    ensures Without(s, idOf, id) == Filter(s, OtherThan(idOf, id))
  {
    var p := OtherThan(idOf, id);
    var i := IndexOfId(s, idOf, id);
    if i >= 0 {
      RemoveAtSplices(s, i);
      assert s == s[..i] + ([s[i]] + s[i + 1..]);
      FilterConcat(s[..i], [s[i]] + s[i + 1..], p);
      FilterConcat([s[i]], s[i + 1..], p);
      FilterAll(s[..i], p);
      FilterAll(s[i + 1..], p);
    } else {
      FilterAll(s, p);
    }
  }

  /** Replacing a record that a filter skips by another that it skips. */
  lemma {:induction false} FilterPut<V(!new)>(s: seq<V>, idOf: V -> string, v: V, p: V -> bool)
    requires !p(v)
    requires IndexOfId(s, idOf, idOf(v)) >= 0 ==> !p(s[IndexOfId(s, idOf, idOf(v))])
    ensures Filter(Put(s, idOf, v), p) == Filter(s, p)
  {
    var i := IndexOfId(s, idOf, idOf(v));
    if i >= 0 {
      var s' := s[i := v];
      FilterMiddle(s, i, p);
      FilterMiddle(s', i, p);
      assert s'[..i] == s[..i] && s'[i + 1..] == s[i + 1..];
    } else {
      FilterConcat(s, [v], p);
    }
  }

  lemma {:induction false} FilterWithout<V(!new)>(s: seq<V>, idOf: V -> string, id: string, p: V -> bool)
    requires IndexOfId(s, idOf, id) >= 0 ==> !p(s[IndexOfId(s, idOf, id)])
    ensures Filter(Without(s, idOf, id), p) == Filter(s, p)
  {
    var i := IndexOfId(s, idOf, id);
    if i >= 0 {
      FilterMiddle(s, i, p);
      RemoveAtSplices(s, i);
      FilterConcat(s[..i], s[i + 1..], p);
    }
  }

  // ---- the store itself -------------------------------------------------------------

  class JsonStore<V(!new)> {
    const idOf: V -> string
    var items: seq<Ref<V>>
    /** The stored records; a handler's update in place shows here once it is added. */
    ghost var contents: seq<V>

    /** All items but those in `dirty` show their record; a dirty item has kept its id. */
    ghost predicate UpToDateBut(dirty: set<Ref<V>>)
      reads this, items
    {
      && |items| == |contents|
      && DistinctIds(contents, idOf)
      && forall i :: 0 <= i < |items| ==>
           if items[i] in dirty then idOf(items[i].it) == idOf(contents[i]) else items[i].it == contents[i]
    }

    ghost predicate Valid()
      reads this, items
    {
      UpToDateBut({})
    }

    constructor (idOf: V -> string)
      ensures Valid() && items == [] && contents == [] && this.idOf == idOf
    {
      this.idOf := idOf;
      items, contents := [], [];
    }

    /** Ids are distinct, so two stored references to one record are one reference. */
    lemma SameRecord(r: Ref<V>, s: Ref<V>)
      requires Valid() && r in items && s in items && r.it == s.it
      ensures r == s
    {
      var i :| 0 <= i < |items| && items[i] == r;
      var j :| 0 <= j < |items| && items[j] == s;
      IndexIsUnique(contents, idOf, i);
      IndexIsUnique(contents, idOf, j);
    }

    /** `findIndex` by id. */
    method FindIndex(id: string, ghost dirty: set<Ref<V>>) returns (i: int)
      requires UpToDateBut(dirty)
      ensures i == IndexOfId(contents, idOf, id)
    {
      i := 0;
      while i < |items|
        invariant 0 <= i <= |items|
        invariant forall k :: 0 <= k < i ==> idOf(contents[k]) != id
      {
        if idOf(items[i].it) == id {
          return;
        }
        i := i + 1;
      }
      i := -1;
    }

    method GetById(id: string) returns (found: Option<Ref<V>>)
      requires Valid()
      ensures found.None? <==> Find(contents, idOf, id).None?
      ensures found.Some? ==> found.value in items && Find(contents, idOf, id) == Some(found.value.it)
    {
      var i := FindIndex(id, {});
      found := if i >= 0 then Some(items[i]) else None;
    }

    /** Replaces the item with this id in place, or appends. */
    method Add(item: Ref<V>, ghost dirty: set<Ref<V>> := {})
      requires UpToDateBut(dirty + {item})
      modifies this
      ensures UpToDateBut(dirty - {item})
      ensures contents == Put(old(contents), idOf, item.it)
      ensures item in items
      ensures forall r :: r in items ==> r in old(items) || r == item
      ensures item in old(items) ==> items == old(items)
    {
      hide IndexOfId;
      var existing := FindIndex(idOf(item.it), dirty + {item});
      PutKeepsDistinct(contents, idOf, item.it);
      if item in items {
        var k :| 0 <= k < |items| && items[k] == item;
        IndexIsUnique(contents, idOf, k);
      }
      contents := Put(contents, idOf, item.it);
      if existing >= 0 {
        items := items[existing := item];
        assert items[existing] == item;
      } else {
        items := items + [item];
        assert items[|items| - 1] == item;
      }
    }

    method Remove(id: string) returns (removed: bool)
      requires Valid()
      modifies this
      ensures Valid()
      ensures contents == Without(old(contents), idOf, id)
      ensures forall r :: r in items ==> r in old(items)
      ensures forall r :: r in old(items) && idOf(r.it) != id ==> r in items
    {
      var i := FindIndex(id, {});
      WithoutKeepsDistinct(contents, idOf, id);
      removed := i >= 0;
      if i >= 0 {
        RemoveAtKeeps(items, i);
        contents := RemoveAt(contents, i);
        items := RemoveAt(items, i);
      }
    }

    /** References to the stored items that satisfy `p`, in store order. */
    method Filter(p: V -> bool) returns (found: seq<Ref<V>>)
      requires Valid()
      ensures Shows(found, Seqs.Filter(contents, p))
      ensures forall r :: r in found ==> r in items
    {
      hide DistinctIds, Seqs.Filter;
      found := [];
      var i := 0;
      assert Seqs.Filter(contents[..0], p) == [] by { FilterNone(contents[..0], p); }
      while i < |items|
        invariant 0 <= i <= |items|
        invariant Shows(found, Seqs.Filter(contents[..i], p))
        invariant forall r :: r in found ==> r in items
      {
        FilterTake(contents, i, p);
        if p(items[i].it) {
          found := found + [items[i]];
        }
        i := i + 1;
      }
      assert contents[..i] == contents;
    }
  }
}
