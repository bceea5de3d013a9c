/** What sorting the members of an object does to the link of its first one, told from the keys alone. */
module LinkOrder {
  import opened Keys
  import opened Json
  import opened SortList
  import opened SortedObjects
  import opened TailLink
  import opened LinkedTree

  lemma {:induction false} CountedOnce(s: seq<(nat, Entry)>, e: (nat, Entry))
    requires forall i, j :: 0 <= i < j < |s| ==> s[i] != s[j]
    ensures multiset(s)[e] <= 1
  {
    if s != [] {
      CountedOnce(s[1..], e);
      MultisetSplit(s, 1);
      assert s[..1] == [s[0]];
      if e == s[0] {
        assert e !in s[1..];
      }
    }
  }

  lemma {:induction false} PermutedDistinct(a: seq<(nat, Entry)>, b: seq<(nat, Entry)>)
    requires multiset(a) == multiset(b)
    requires forall i, j :: 0 <= i < j < |a| ==> a[i] != a[j]
    ensures forall i, j :: 0 <= i < j < |b| ==> b[i] != b[j]
  {
    forall i, j | 0 <= i < j < |b| ensures b[i] != b[j] {
      CountedOnce(a, b[i]);
      MultisetSplit(b, j);
      assert b[..j][i] in multiset(b[..j]) && b[j..][0] in multiset(b[j..]);
    }
  }

  /** Sorting leaves at every place the field that stood at the old position noted for it, equal keys in reverse. */
  lemma {:induction false} SortedPlaces(fields: seq<Entry>, cs: bool)
    ensures var order, r := SortOrder(fields, cs), SortFields(fields, cs);
            && |order| == |r| == |fields| && Permutation(order)
            && (forall i :: 0 <= i < |r| ==> order[i] < |fields| && r[i] == fields[order[i]])
            && Ordered(PlainFields(fields), order, cs)
  {
    hide Sort, PlainFields, Before, SameKey;
    var s, r := Indexed(fields), Sort(Indexed(fields), IndexedKey, cs);
    SortPermutes(s, IndexedKey, cs);
    SortRanks(s, IndexedKey, First, cs);
    PermutedDistinct(s, r);
    forall i | 0 <= i < |r| ensures r[i].0 < |fields| && r[i].1 == fields[r[i].0] {
      assert r[i] in multiset(r) && r[i] in multiset(s);
    }
    var order, ms := SortOrder(fields, cs), PlainFields(fields);
    forall x: nat | x < |fields| ensures x in order {
      assert s[x] in multiset(s) && s[x] in multiset(r);
      var p :| 0 <= p < |r| && r[p] == s[x];
      assert order[p] == x;
    }
    forall i, j | 0 <= i < j < |r|
      ensures Before(ms[order[i]].key, ms[order[j]].key, cs) ||
              (SameKey(ms[order[i]].key, ms[order[j]].key, cs) && order[i] > order[j])
    {
      assert Precedes(r[i], r[j], IndexedKey, First, cs);
    }
  }

  /** The positions of the members in the order of their keys; of equal keys the last comes first. */
  ghost predicate Ordered(ms: seq<Member>, order: seq<nat>, cs: bool) {
    && |order| == |ms| && (forall i :: 0 <= i < |order| ==> order[i] < |order|)
    && (forall i, j :: 0 <= i < j < |order| ==>
          Before(ms[order[i]].key, ms[order[j]].key, cs) ||
          (SameKey(ms[order[i]].key, ms[order[j]].key, cs) && order[i] > order[j]))
  }

  lemma {:induction false} FirstExact(ms: seq<Member>, order: seq<nat>, cs: bool)
    requires ms != [] && Ordered(ms, order, cs) && Permutation(order)
    ensures order[0] == 0 <==> forall i :: 0 < i < |ms| ==> Before(ms[0].key, ms[i].key, cs)
  {
    hide Permutation, Before, SameKey, Norm;
    var p := PlaceOf(order, 0);
    if order[0] == 0 {
      forall i | 0 < i < |ms| ensures Before(ms[0].key, ms[i].key, cs) {
        var q := PlaceOf(order, i);
      }
    } else {
      assert Before(ms[order[0]].key, ms[order[p]].key, cs) || SameKey(ms[order[0]].key, ms[order[p]].key, cs);
      KeyOrder(ms[0].key, ms[order[0]].key, "", cs);
      KeyOrder(ms[order[0]].key, ms[0].key, "", cs);
    }
  }

  lemma {:induction false} LastExact(ms: seq<Member>, order: seq<nat>, cs: bool)
    requires ms != [] && Ordered(ms, order, cs) && Permutation(order)
    ensures order[|ms| - 1] == |ms| - 1 <==> forall i :: 0 <= i < |ms| - 1 ==> Before(ms[i].key, ms[|ms| - 1].key, cs)
  {
    hide Permutation, Before, SameKey, Norm;
    var last := |ms| - 1;
    var p := PlaceOf(order, last);
    if order[last] == last {
      forall i | 0 <= i < last ensures Before(ms[i].key, ms[last].key, cs) {
        var q := PlaceOf(order, i);
      }
    } else {
      assert Before(ms[order[p]].key, ms[order[last]].key, cs) || SameKey(ms[order[p]].key, ms[order[last]].key, cs);
      KeyOrder(ms[last].key, ms[order[last]].key, "", cs);
      KeyOrder(ms[order[last]].key, ms[last].key, "", cs);
    }
  }

  lemma {:induction false} PlaceOf(order: seq<nat>, x: nat) returns (p: nat)
    requires Permutation(order) && x < |order|
    ensures p < |order| && order[p] == x
  {
    assert x in order;
    p :| p < |order| && order[p] == x;
  }

  /** Links that an append can follow: into the list, and to the last node of an empty one. */
  predicate Fits(fields: seq<Entry>, tail: Tail) {
    && !tail.Gone?
    && (fields == [] ==> tail.Last?)
    && (tail.Inner? ==> tail.k + 1 < |fields|)
  }

  /** A sort keeps the first member pointing to the last one exactly when it need not move either of them. */
  lemma {:induction false} SortKeeps(fields: seq<Entry>, sorted: seq<Entry>, cs: bool)
    requires |sorted| == |fields|
    ensures var tail := AfterSort(SortOrder(fields, cs), Last);
            Fits(sorted, tail) && (tail.Last? <==> InPlace(PlainFields(fields), cs))
  {
    hide SortOrder, SortFields, Permutation, PlainFields, AfterSort;
    var order := SortOrder(fields, cs);
    SortedPlaces(fields, cs);
    NeverGone(order);
    if fields != [] {
      FirstExact(PlainFields(fields), order, cs);
      LastExact(PlainFields(fields), order, cs);
      SortExact(order);
      InnerFits(order);
    } else {
      NothingSorted(order);
    }
  }

  lemma {:induction false} NothingSorted(order: seq<nat>)
    requires order == []
    ensures AfterSort(order, Last) == Last
  {
  }

  lemma {:induction false} NeverGone(order: seq<nat>)
    ensures !AfterSort(order, Last).Gone?
  {
  }
}
