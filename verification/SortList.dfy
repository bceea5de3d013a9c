/**
 The merge sort of cJSON_Utils.c as a function on sequences, with the facts every
 caller relies on. `NodeSort` runs the same algorithm on linked nodes.
 */
module SortList {
  import opened Keys

  /** The early exit of `sort_list`: every neighbour pair is strictly ascending. */
  predicate Ascending<T>(s: seq<T>, key: T -> string, cs: bool) {
    forall i :: 0 < i < |s| ==> Before(key(s[i - 1]), key(s[i]), cs)
  }

  predicate Sorted<T>(s: seq<T>, key: T -> string, cs: bool) {
    forall i, j :: 0 <= i < j < |s| ==> !Before(key(s[j]), key(s[i]), cs)
  }

  /** On a tie the element of the second list is taken first. */
  function Merge<T>(a: seq<T>, b: seq<T>, key: T -> string, cs: bool): (r: seq<T>)
    ensures |r| == |a| + |b|
  {
    if a == [] then b
    else if b == [] then a
    else if Before(key(a[0]), key(b[0]), cs) then [a[0]] + Merge(a[1..], b, key, cs)
    else [b[0]] + Merge(a, b[1..], key, cs)
  }

  function Sort<T>(s: seq<T>, key: T -> string, cs: bool): (r: seq<T>)
    ensures |r| == |s|
    decreases |s|
  {
    if |s| <= 1 || Ascending(s, key, cs) then s
    else
      var mid := (|s| + 1) / 2;
      Merge(Sort(s[..mid], key, cs), Sort(s[mid..], key, cs), key, cs)
  }

  // ----- permutation -----

  lemma MultisetSplit<T>(s: seq<T>, i: nat)
    requires i <= |s|
    ensures multiset(s) == multiset(s[..i]) + multiset(s[i..])
  {
    assert s == s[..i] + s[i..];
  }

  lemma {:induction false} MergePermutes<T>(a: seq<T>, b: seq<T>, key: T -> string, cs: bool)
    ensures multiset(Merge(a, b, key, cs)) == multiset(a) + multiset(b)
  {
    if a == [] || b == [] {
    } else {
      var first := Before(key(a[0]), key(b[0]), cs);
      var a', b' := if first then a[1..] else a, if first then b else b[1..];
      var rest := Merge(a', b', key, cs);
      MergePermutes(a', b', key, cs);
      MultisetSplit(a, 1);
      MultisetSplit(b, 1);
      MultisetSplit(Merge(a, b, key, cs), 1);
      assert Merge(a, b, key, cs)[1..] == rest;
      assert Merge(a, b, key, cs)[..1] == if first then a[..1] else b[..1];
    }
  }

  lemma {:induction false} SortPermutes<T>(s: seq<T>, key: T -> string, cs: bool)
    ensures multiset(Sort(s, key, cs)) == multiset(s)
    decreases |s|
  {
    if |s| <= 1 || Ascending(s, key, cs) {
    } else {
      var mid := (|s| + 1) / 2;
      var x, y := Sort(s[..mid], key, cs), Sort(s[mid..], key, cs);
      SortPermutes(s[..mid], key, cs);
      SortPermutes(s[mid..], key, cs);
      MergePermutes(x, y, key, cs);
      MultisetSplit(s, mid);
      assert Sort(s, key, cs) == Merge(x, y, key, cs);
    }
  }

  // ----- order -----

  lemma {:induction false} AscendingIsSorted<T>(s: seq<T>, key: T -> string, cs: bool)
    requires Ascending(s, key, cs)
    ensures forall i, j :: 0 <= i < j < |s| ==> Before(key(s[i]), key(s[j]), cs)
    ensures Sorted(s, key, cs)
  {
    hide Before;
    if |s| > 1 {
      var n := |s| - 1;
      AscendingIsSorted(s[..n], key, cs);
      forall i | 0 <= i < n ensures Before(key(s[i]), key(s[n]), cs) {
        KeyOrder(key(s[i]), key(s[n - 1]), key(s[n]), cs);
        assert i < n - 1 ==> Before(key(s[..n][i]), key(s[..n][n - 1]), cs);
      }
      forall i, j | 0 <= i < j < |s|
        ensures Before(key(s[i]), key(s[j]), cs) && !Before(key(s[j]), key(s[i]), cs)
      {
        assert j < n ==> Before(key(s[..n][i]), key(s[..n][j]), cs);
        KeyOrder(key(s[i]), key(s[j]), key(s[j]), cs);
      }
    }
  }

  /** No element of `s` comes before the key `x`. */
  predicate AllFrom<T>(x: string, s: seq<T>, key: T -> string, cs: bool) {
    forall i :: 0 <= i < |s| ==> !Before(key(s[i]), x, cs)
  }

  lemma NotBeforeTrans(z: string, y: string, x: string, cs: bool)
    requires !Before(z, y, cs) && !Before(y, x, cs)
    ensures !Before(z, x, cs)
  {
    KeyOrder(z, x, y, cs);
    KeyOrder(y, z, x, cs);
    KeyOrder(x, y, z, cs);
  }

  lemma AllFromWeaker<T>(x: string, y: string, s: seq<T>, key: T -> string, cs: bool)
    requires AllFrom(y, s, key, cs) && !Before(y, x, cs)
    ensures AllFrom(x, s, key, cs)
  {
    forall i | 0 <= i < |s| ensures !Before(key(s[i]), x, cs) {
      NotBeforeTrans(key(s[i]), y, x, cs);
    }
  }

  lemma SortedParts<T>(s: seq<T>, key: T -> string, cs: bool)
    requires s != [] && Sorted(s, key, cs)
    ensures Sorted(s[1..], key, cs) && AllFrom(key(s[0]), s, key, cs)
  {
    KeyOrder(key(s[0]), key(s[0]), key(s[0]), cs);
  }

  lemma SortedCons<T>(x: T, s: seq<T>, key: T -> string, cs: bool)
    requires Sorted(s, key, cs) && AllFrom(key(x), s, key, cs)
    ensures Sorted([x] + s, key, cs)
  {
  }

  lemma {:induction false} MergeAllFrom<T>(x: string, a: seq<T>, b: seq<T>, key: T -> string, cs: bool)
    requires AllFrom(x, a, key, cs) && AllFrom(x, b, key, cs)
    ensures AllFrom(x, Merge(a, b, key, cs), key, cs)
  {
    if a == [] || b == [] {
    } else if Before(key(a[0]), key(b[0]), cs) {
      MergeAllFrom(x, a[1..], b, key, cs);
    } else {
      MergeAllFrom(x, a, b[1..], key, cs);
    }
  }

  lemma {:induction false} MergeSorted<T>(a: seq<T>, b: seq<T>, key: T -> string, cs: bool)
    requires Sorted(a, key, cs) && Sorted(b, key, cs)
    ensures Sorted(Merge(a, b, key, cs), key, cs)
  {
    if a == [] || b == [] {
    } else {
      SortedParts(a, key, cs);
      SortedParts(b, key, cs);
      KeyOrder(key(a[0]), key(b[0]), key(a[0]), cs);
      if Before(key(a[0]), key(b[0]), cs) {
        AllFromWeaker(key(a[0]), key(b[0]), b, key, cs);
        MergeSorted(a[1..], b, key, cs);
        MergeAllFrom(key(a[0]), a[1..], b, key, cs);
        SortedCons(a[0], Merge(a[1..], b, key, cs), key, cs);
      } else {
        AllFromWeaker(key(b[0]), key(a[0]), a, key, cs);
        MergeSorted(a, b[1..], key, cs);
        MergeAllFrom(key(b[0]), a, b[1..], key, cs);
        SortedCons(b[0], Merge(a, b[1..], key, cs), key, cs);
      }
    }
  }

  /** `sort_list` returns the same elements in non-descending key order. */
  lemma {:induction false} SortSorts<T>(s: seq<T>, key: T -> string, cs: bool)
    ensures Sorted(Sort(s, key, cs), key, cs)
    ensures multiset(Sort(s, key, cs)) == multiset(s)
    decreases |s|
  {
    SortPermutes(s, key, cs);
    if |s| <= 1 {
    } else if Ascending(s, key, cs) {
      AscendingIsSorted(s, key, cs);
    } else {
      var mid := (|s| + 1) / 2;
      SortSorts(s[..mid], key, cs);
      SortSorts(s[mid..], key, cs);
      MergeSorted(Sort(s[..mid], key, cs), Sort(s[mid..], key, cs), key, cs);
    }
  }

  // ----- elements with the same key -----

  /** Where elements have numbers: those with the same key end up in the reverse order of their numbers. */
  predicate Precedes<T>(x: T, y: T, key: T -> string, number: T -> nat, cs: bool) {
    Before(key(x), key(y), cs) || (SameKey(key(x), key(y), cs) && number(x) > number(y))
  }

  predicate Ranked<T>(s: seq<T>, key: T -> string, number: T -> nat, cs: bool) {
    forall i, j :: 0 <= i < j < |s| ==> Precedes(s[i], s[j], key, number, cs)
  }

  predicate PrecedesAll<T>(x: T, s: seq<T>, key: T -> string, number: T -> nat, cs: bool) {
    forall i :: 0 <= i < |s| ==> Precedes(x, s[i], key, number, cs)
  }

  lemma {:induction false} PrecedesTrans<T>(x: T, y: T, z: T, key: T -> string, number: T -> nat, cs: bool)
    requires Precedes(x, y, key, number, cs) && Precedes(y, z, key, number, cs)
    ensures Precedes(x, z, key, number, cs)
  {
    KeyOrder(key(x), key(y), key(z), cs);
    KeyOrder(key(y), key(z), key(x), cs);
    KeyOrder(key(x), key(z), key(y), cs);
    BeforeSame(key(x), key(y), key(z), cs);
  }

  lemma {:induction false} BeforeSame(x: string, y: string, z: string, cs: bool)
    ensures Before(x, y, cs) && SameKey(y, z, cs) ==> Before(x, z, cs)
    ensures SameKey(x, y, cs) && Before(y, z, cs) ==> Before(x, z, cs)
  {
    KeyOrder(y, z, x, cs);
    KeyOrder(x, y, z, cs);
  }

  lemma {:induction false} PrecedesAllTrans<T>(x: T, y: T, s: seq<T>, key: T -> string, number: T -> nat, cs: bool)
    requires Precedes(x, y, key, number, cs) && PrecedesAll(y, s, key, number, cs)
    ensures PrecedesAll(x, s, key, number, cs)
  {
    forall i | 0 <= i < |s| ensures Precedes(x, s[i], key, number, cs) {
      PrecedesTrans(x, y, s[i], key, number, cs);
    }
  }

  lemma {:induction false} MergePrecedesAll<T>(x: T, a: seq<T>, b: seq<T>, key: T -> string, number: T -> nat, cs: bool)
    requires PrecedesAll(x, a, key, number, cs) && PrecedesAll(x, b, key, number, cs)
    ensures PrecedesAll(x, Merge(a, b, key, cs), key, number, cs)
  {
    hide Precedes;
    if a == [] || b == [] {
    } else if Before(key(a[0]), key(b[0]), cs) {
      MergePrecedesAll(x, a[1..], b, key, number, cs);
    } else {
      MergePrecedesAll(x, a, b[1..], key, number, cs);
    }
  }

  lemma {:induction false} RankedParts<T>(s: seq<T>, key: T -> string, number: T -> nat, cs: bool)
    requires s != [] && Ranked(s, key, number, cs)
    ensures Ranked(s[1..], key, number, cs) && PrecedesAll(s[0], s[1..], key, number, cs)
  {
    hide Precedes;
  }

  lemma {:induction false} RankedCons<T>(x: T, s: seq<T>, key: T -> string, number: T -> nat, cs: bool)
    requires Ranked(s, key, number, cs) && PrecedesAll(x, s, key, number, cs)
    ensures Ranked([x] + s, key, number, cs)
  {
    hide Precedes;
  }

  lemma {:induction false} MergeRanks<T>(a: seq<T>, b: seq<T>, key: T -> string, number: T -> nat, cs: bool)
    requires Ranked(a, key, number, cs) && Ranked(b, key, number, cs)
    requires forall i, j :: 0 <= i < |a| && 0 <= j < |b| ==> number(a[i]) < number(b[j])
    ensures Ranked(Merge(a, b, key, cs), key, number, cs)
  {
    hide Ranked, PrecedesAll, Before, SameKey;
    if a == [] || b == [] {
    } else {
      RankedParts(a, key, number, cs);
      RankedParts(b, key, number, cs);
      KeyOrder(key(a[0]), key(b[0]), "", cs);
      KeyOrder(key(b[0]), key(a[0]), "", cs);
      if Before(key(a[0]), key(b[0]), cs) {
        PrecedesAllTrans(a[0], b[0], b[1..], key, number, cs);
        PrecedesWhole(a[0], b, key, number, cs);
        MergeRanks(a[1..], b, key, number, cs);
        MergePrecedesAll(a[0], a[1..], b, key, number, cs);
        RankedCons(a[0], Merge(a[1..], b, key, cs), key, number, cs);
      } else {
        PrecedesAllTrans(b[0], a[0], a[1..], key, number, cs);
        PrecedesWhole(b[0], a, key, number, cs);
        MergeRanks(a, b[1..], key, number, cs);
        MergePrecedesAll(b[0], a, b[1..], key, number, cs);
        RankedCons(b[0], Merge(a, b[1..], key, cs), key, number, cs);
      }
    }
  }

  lemma {:induction false} PrecedesWhole<T>(x: T, s: seq<T>, key: T -> string, number: T -> nat, cs: bool)
    requires s != [] && Precedes(x, s[0], key, number, cs) && PrecedesAll(x, s[1..], key, number, cs)
    ensures PrecedesAll(x, s, key, number, cs)
  {
    hide Precedes;
    forall i | 0 <= i < |s| ensures Precedes(x, s[i], key, number, cs) {
      if i > 0 {
        assert s[i] == s[1..][i - 1];
      }
    }
  }

  /** With the elements numbered in their order, `Sort` is decided by key and number. */
  lemma {:induction false} SortRanks<T>(s: seq<T>, key: T -> string, number: T -> nat, cs: bool)
    requires forall i, j :: 0 <= i < j < |s| ==> number(s[i]) < number(s[j])
    ensures Ranked(Sort(s, key, cs), key, number, cs)
    decreases |s|
  {
    hide Merge, Ranked, Ascending;
    SortUnfold(s, key, cs);
    if |s| <= 1 || Ascending(s, key, cs) {
      AscendingRanked(s, key, number, cs);
    } else {
      var mid := (|s| + 1) / 2;
      var a, b := Sort(s[..mid], key, cs), Sort(s[mid..], key, cs);
      SortRanks(s[..mid], key, number, cs);
      SortRanks(s[mid..], key, number, cs);
      forall i, j | 0 <= i < |a| && 0 <= j < |b| ensures number(a[i]) < number(b[j]) {
        SortFrom(s[..mid], i, key, cs);
        SortFrom(s[mid..], j, key, cs);
      }
      MergeRanks(a, b, key, number, cs);
    }
  }

  lemma {:induction false} SortFrom<T>(s: seq<T>, i: nat, key: T -> string, cs: bool)
    requires i < |s|
    ensures exists p :: 0 <= p < |s| && s[p] == Sort(s, key, cs)[i]
  {
    SortPermutes(s, key, cs);
    var r := Sort(s, key, cs);
    assert r[i] in multiset(r) && r[i] in multiset(s);
  }

  lemma {:induction false} AscendingRanked<T>(s: seq<T>, key: T -> string, number: T -> nat, cs: bool)
    requires |s| <= 1 || Ascending(s, key, cs)
    ensures Ranked(s, key, number, cs)
  {
    if |s| > 1 {
      AscendingIsSorted(s, key, cs);
    }
  }

  // ----- sorting what is made from the elements -----

  function MapSeq<T, U>(f: T -> U, s: seq<T>): (r: seq<U>)
    ensures |r| == |s| && forall i :: 0 <= i < |s| ==> r[i] == f(s[i])
  {
    seq(|s|, i requires 0 <= i < |s| => f(s[i]))
  }

  lemma {:induction false} MergeMap<T(!new), U>(a: seq<T>, b: seq<T>, f: T -> U, k: T -> string, m: U -> string, cs: bool)
    requires forall t :: m(f(t)) == k(t)
    ensures MapSeq(f, Merge(a, b, k, cs)) == Merge(MapSeq(f, a), MapSeq(f, b), m, cs)
  {
    var x, y := MapSeq(f, a), MapSeq(f, b);
    if a != [] && b != [] {
      if Before(k(a[0]), k(b[0]), cs) {
        MergeMap(a[1..], b, f, k, m, cs);
        assert x[1..] == MapSeq(f, a[1..]);
      } else {
        MergeMap(a, b[1..], f, k, m, cs);
        assert y[1..] == MapSeq(f, b[1..]);
      }
    }
  }

  lemma AscendingMap<T(!new), U>(s: seq<T>, f: T -> U, k: T -> string, m: U -> string, cs: bool)
    requires forall t :: m(f(t)) == k(t)
    ensures Ascending(s, k, cs) <==> Ascending(MapSeq(f, s), m, cs)
  {
    hide Before;
    var x := MapSeq(f, s);
    assert forall i :: 0 <= i < |s| ==> m(x[i]) == k(s[i]);
  }

  lemma HalvesMap<T(!new), U>(s: seq<T>, f: T -> U, mid: nat)
    requires mid <= |s|
    ensures MapSeq(f, s[..mid]) == MapSeq(f, s)[..mid] && MapSeq(f, s[mid..]) == MapSeq(f, s)[mid..]
  {
  }

  lemma SortUnfold<T>(s: seq<T>, k: T -> string, cs: bool)
    ensures |s| <= 1 || Ascending(s, k, cs) ==> Sort(s, k, cs) == s
    ensures var mid := (|s| + 1) / 2;
            |s| > 1 && !Ascending(s, k, cs) ==>
              Sort(s, k, cs) == Merge(Sort(s[..mid], k, cs), Sort(s[mid..], k, cs), k, cs)
  {
  }

  /** Sorting and mapping commute, if the map keeps the keys. */
  lemma {:induction false} SortMap<T(!new), U>(s: seq<T>, f: T -> U, k: T -> string, m: U -> string, cs: bool)
    requires forall t :: m(f(t)) == k(t)
    ensures MapSeq(f, Sort(s, k, cs)) == Sort(MapSeq(f, s), m, cs)
    decreases |s|
  {
    hide Ascending, Merge, Sort, MapSeq;
    AscendingMap(s, f, k, m, cs);
    SortUnfold(s, k, cs);
    SortUnfold(MapSeq(f, s), m, cs);
    if |s| > 1 && !Ascending(s, k, cs) {
      var mid := (|s| + 1) / 2;
      HalvesMap(s, f, mid);
      SortMap(s[..mid], f, k, m, cs);
      SortMap(s[mid..], f, k, m, cs);
      MergeMap(Sort(s[..mid], k, cs), Sort(s[mid..], k, cs), f, k, m, cs);
    }
  }
}
