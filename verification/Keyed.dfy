/** Lists of items that carry identifiers, the tables and position maps made from them, and back. */
module Keyed {
  import opened Pigeonhole
  import opened Sorting

  // ---- Positions ----

  /** index maps every identifier to its last position. */
  ghost predicate LastPositions(index: map<string, nat>, ids: seq<string>) {
    && (forall i :: 0 <= i < |ids| ==> ids[i] in index && i <= index[ids[i]])
    && forall id :: id in index ==> index[id] < |ids| && ids[index[id]] == id
  }

  method IndexOf(ids: seq<string>) returns (index: map<string, nat>)
    ensures LastPositions(index, ids)
  {
    index := map[];
    var i := 0;
    while i < |ids|
      invariant 0 <= i <= |ids|
      invariant LastPositions(index, ids[..i])
    {
      assert ids[..i + 1] == ids[..i] + [ids[i]];
      index := index[ids[i] := i];
      i := i + 1;
    }
    assert ids[..|ids|] == ids;
  }

  lemma OnlyPositions(index: map<string, nat>, ids: seq<string>)
    requires LastPositions(index, ids) && Distinct(ids)
    ensures forall i :: 0 <= i < |ids| ==> ids[i] in index && index[ids[i]] == i
  {
    forall i | 0 <= i < |ids|
      ensures index[ids[i]] == i
    {
      assert ids[index[ids[i]]] == ids[i];
    }
  }

  lemma SamePositions(index: map<string, nat>, index': map<string, nat>, ids: seq<string>)
    requires LastPositions(index, ids) && LastPositions(index', ids)
    ensures index == index'
  {
    forall id
      ensures id in index <==> id in index'
      ensures id in index ==> index[id] == index'[id]
    {
      if id in index {
        assert ids[index[id]] == id;
      }
      if id in index' {
        assert ids[index'[id]] == id;
      }
    }
  }

  /** Position i is the last with its identifier. */
  ghost predicate IsLast(ids: seq<string>, i: nat) {
    i < |ids| && forall k :: i < k < |ids| ==> ids[k] != ids[i]
  }

  lemma LastIsIndexed(index: map<string, nat>, ids: seq<string>, i: nat)
    requires LastPositions(index, ids) && IsLast(ids, i)
    ensures ids[i] in index && index[ids[i]] == i
  {
  }

  lemma LastStays(ids: seq<string>, id: string, i: nat)
    requires IsLast(ids, i) && id != ids[i]
    ensures IsLast(ids + [id], i)
  {
  }

  // ---- Sorted lists ----

  lemma OnePerID<T>(a: seq<T>, x: T, i: nat, id: T -> string)
    requires Distinct(MapSeq(a, id)) && x in a && i < |a| && id(a[i]) == id(x)
    ensures a[i] == x
  {
    var k :| 0 <= k < |a| && a[k] == x;
    assert MapSeq(a, id)[k] == MapSeq(a, id)[i];
  }

  /** Two sorted arrangements of items with distinct identifiers are the same. */
  lemma SameOrder<T>(a: seq<T>, b: seq<T>, id: T -> string)
    requires multiset(a) == multiset(b) && Distinct(MapSeq(a, id))
    requires Sorted(MapSeq(a, id), IdLess) && Sorted(MapSeq(b, id), IdLess)
    ensures a == b
  {
    IdOrder();
    SortedKeysAgree(a, b, id, IdLess);
    PermutationKeepsElements(b, a);
    forall i | 0 <= i < |a|
      ensures a[i] == b[i]
    {
      assert MapSeq(b, id)[i] == MapSeq(a, id)[i];
      OnePerID(a, b[i], i, id);
    }
  }

  // ---- Tables ----

  /** The item a table has under a key is the last of the list, at i, with that identifier. */
  ghost predicate LastWith<T>(m: map<string, T>, items: seq<T>, id: T -> string, key: string, i: nat) {
    key in m && i < |items| && items[i] == m[key] && id(m[key]) == key && IsLast(MapSeq(items, id), i)
  }

  /** m finds, for every identifier of the list, the last item that has it. */
  ghost predicate MapsLast<T>(m: map<string, T>, items: seq<T>, id: T -> string) {
    && (forall key :: key in m ==> exists i :: LastWith(m, items, id, key, i))
    && forall i :: 0 <= i < |items| ==> id(items[i]) in m
  }

  lemma OneMoreItem<T>(m: map<string, T>, items: seq<T>, id: T -> string, x: T)
    requires MapsLast(m, items, id)
    ensures MapsLast(m[id(x) := x], items + [x], id)
  {
    var all, m' := items + [x], m[id(x) := x];
    assert MapSeq(all, id) == MapSeq(items, id) + [id(x)];
    forall key | key in m'
      ensures exists i :: LastWith(m', all, id, key, i)
    {
      if key == id(x) {
        assert LastWith(m', all, id, key, |items|);
      } else {
        var i :| LastWith(m, items, id, key, i);
        LastStays(MapSeq(items, id), id(x), i);
        assert LastWith(m', all, id, key, i);
      }
    }
  }

  method TableOf<T>(items: seq<T>, id: T -> string) returns (m: map<string, T>)
    ensures MapsLast(m, items, id)
  {
    m := map[];
    var i := 0;
    while i < |items|
      invariant 0 <= i <= |items|
      invariant MapsLast(m, items[..i], id)
    {
      OneMoreItem(m, items[..i], id, items[i]);
      assert items[..i + 1] == items[..i] + [items[i]];
      m := m[id(items[i]) := items[i]];
      i := i + 1;
    }
    assert items[..|items|] == items;
  }

  /** What is found by position. */
  ghost function FoundAt<T>(index: map<string, nat>, items: seq<T>): map<string, T> {
    map key | key in index && index[key] < |items| :: items[index[key]]
  }

  /** Position map and table find the same items. */
  lemma TableIsFound<T>(index: map<string, nat>, m: map<string, T>, items: seq<T>, id: T -> string)
    requires LastPositions(index, MapSeq(items, id)) && MapsLast(m, items, id)
    ensures FoundAt(index, items) == m
  {
    forall key
      ensures key in index <==> key in m
      ensures key in m ==> index[key] < |items| && items[index[key]] == m[key]
    {
      FoundBoth(index, m, items, id, key);
    }
  }

  lemma FoundBoth<T>(index: map<string, nat>, m: map<string, T>, items: seq<T>, id: T -> string, key: string)
    requires LastPositions(index, MapSeq(items, id)) && MapsLast(m, items, id)
    ensures key in index <==> key in m
    ensures key in m ==> index[key] < |items| && items[index[key]] == m[key]
  {
    if key in m {
      var i :| LastWith(m, items, id, key, i);
      LastIsIndexed(index, MapSeq(items, id), i);
    }
    if key in index {
      assert MapSeq(items, id)[index[key]] == key;
    }
  }

  ghost predicate KeyedBy<T>(m: map<string, T>, id: T -> string) {
    forall key :: key in m ==> id(m[key]) == key
  }

  lemma TableIsKeyed<T>(m: map<string, T>, items: seq<T>, id: T -> string)
    requires MapsLast(m, items, id)
    ensures KeyedBy(m, id)
  {
    forall key | key in m
      ensures id(m[key]) == key
    {
      var i :| LastWith(m, items, id, key, i);
    }
  }

  ghost predicate ListsTable<T(!new)>(items: seq<T>, m: map<string, T>, id: T -> string) {
    forall x :: x in items <==> id(x) in m && m[id(x)] == x
  }

  /** The items of a table whose keys are the items' own identifiers, each once, in identifier order. */
  method ListOf<T(!new)>(m: map<string, T>, id: T -> string) returns (items: seq<T>)
    requires KeyedBy(m, id)
    ensures |items| == |m| && Distinct(MapSeq(items, id)) && ListsTable(items, m, id)
  {
    var ids := SortedIds(m.Keys);
    items := seq(|ids|, i requires 0 <= i < |ids| => m[ids[i]]);
    assert MapSeq(items, id) == ids;
    ListedAll(ids, m.Keys);
    forall x
      ensures x in items <==> id(x) in m && m[id(x)] == x
    {
      if id(x) in m && m[id(x)] == x {
        var i :| 0 <= i < |ids| && ids[i] == id(x);
        assert items[i] == x;
      }
    }
  }

  lemma ListedAll(ids: seq<string>, keys: set<string>)
    requires Distinct(ids) && forall id :: id in ids <==> id in keys
    ensures |ids| == |keys|
  {
    DistinctCard(ids);
    assert Elements(ids) == keys;
  }

  /** A list of everything in a keyed table, each identifier once, has that table. */
  lemma ListHasTable<T(!new)>(items: seq<T>, m: map<string, T>, id: T -> string)
    requires ListsTable(items, m, id) && KeyedBy(m, id) && Distinct(MapSeq(items, id))
    ensures MapsLast(m, items, id)
  {
    forall i | 0 <= i < |items|
      ensures id(items[i]) in m && IsLast(MapSeq(items, id), i)
    {
      assert items[i] in items;
    }
    forall key | key in m
      ensures exists i :: LastWith(m, items, id, key, i)
    {
      assert m[key] in items;
      var i :| 0 <= i < |items| && items[i] == m[key];
      assert LastWith(m, items, id, key, i);
    }
  }
}
