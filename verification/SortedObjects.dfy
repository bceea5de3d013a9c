/**
 Objects with sorted members, and `compare_json` of cJSON_Utils.c, which sorts both
 objects and then walks them in step.
 */
module SortedObjects {
  import opened Keys
  import opened Json
  import opened SortList
  import opened Compare

  function MemberKey(m: Member): string { m.key }

  /** `sort_object`. */
  function SortMembers(ms: seq<Member>, cs: bool): (r: seq<Member>)
    ensures |r| == |ms|
    ensures multiset(r) == multiset(ms)
    ensures forall i :: 0 <= i < |r| ==> r[i] in ms
  {
    SortPermutes(ms, MemberKey, cs);
    var r := Sort(ms, MemberKey, cs);
    assert forall i :: 0 <= i < |r| ==> r[i] in multiset(r);
    r
  }

  predicate StrictlyAscending(ms: seq<Member>, cs: bool) {
    forall i, j :: 0 <= i < j < |ms| ==> Before(ms[i].key, ms[j].key, cs)
  }

  // ----- permutations of members -----

  lemma {:induction false} SplitAt(ms: seq<Member>, i: nat)
    requires i < |ms|
    ensures multiset(ms) == multiset(ms[..i] + ms[i + 1..]) + multiset{ms[i]}
  {
    assert ms == ms[..i] + [ms[i]] + ms[i + 1..];
  }

  function RemoveAt<T>(s: seq<T>, i: nat): seq<T>
    requires i < |s|
  {
    s[..i] + s[i + 1..]
  }

  lemma {:induction false} Regroup<T>(done: seq<T>, x: T, rest: seq<T>)
    ensures done + ([x] + rest) == (done + [x]) + rest
  {
  }

  lemma {:induction false} SizePermuted(a: seq<Member>, b: seq<Member>)
    requires multiset(a) == multiset(b)
    ensures MembersSize(a) == MembersSize(b)
    decreases |a|
  {
    if a == [] {
      assert b == [];
    } else {
      assert a[0] in multiset(b);
      var i :| 0 <= i < |b| && b[i] == a[0];
      RemoveBoth(a, b, i);
      SizePermuted(a[1..], RemoveAt(b, i));
      SizeWithout(b, i);
    }
  }

  lemma RemoveBoth(a: seq<Member>, b: seq<Member>, i: nat)
    requires multiset(a) == multiset(b) && a != [] && i < |b| && b[i] == a[0]
    ensures multiset(a[1..]) == multiset(RemoveAt(b, i))
  {
    SplitAt(b, i);
    SplitAt(a, 0);
    assert a[..0] + a[0 + 1..] == a[1..];
    var x, y, m := multiset(a[1..]), multiset(RemoveAt(b, i)), multiset{a[0]};
    assert x + m == y + m;
    assert x == (x + m) - m && y == (y + m) - m;
  }

  lemma {:induction false} SizeWithout(b: seq<Member>, i: nat)
    requires i < |b|
    ensures MembersSize(b) == Size(b[i].value) + MembersSize(RemoveAt(b, i))
  {
    if i == 0 {
      assert RemoveAt(b, i) == b[1..];
    } else {
      SizeWithout(b[1..], i - 1);
      assert RemoveAt(b, i)[1..] == RemoveAt(b[1..], i - 1);
    }
  }

  /** The first member belongs in front of all the others, and the last one behind them. */
  predicate InPlace(ms: seq<Member>, cs: bool) {
    && (forall i :: 0 < i < |ms| ==> Before(ms[0].key, ms[i].key, cs))
    && (forall i :: 0 <= i < |ms| - 1 ==> Before(ms[i].key, ms[|ms| - 1].key, cs))
  }

  /** Distinct keys stay distinct under a permutation. */
  lemma {:induction false} PermutedKeys(a: seq<Member>, b: seq<Member>, cs: bool)
    requires multiset(a) == multiset(b) && DistinctKeys(a, cs)
    ensures DistinctKeys(b, cs)
  {
    forall i, j | 0 <= i < j < |b| ensures Norm(b[i].key, cs) != Norm(b[j].key, cs) {
      if Norm(b[i].key, cs) == Norm(b[j].key, cs) {
        assert b[i] in multiset(b) && b[j] in multiset(b);
        var x :| 0 <= x < |a| && a[x] == b[i];
        var y :| 0 <= y < |a| && a[y] == b[j];
        assert x == y;
        SplitAt(b, i);
        SplitAt(a, x);
        assert false;
      }
    }
  }

  /** A permutation of members with distinct keys leaves every lookup, so the meaning, as it was. */
  lemma PermutedLookup(a: seq<Member>, b: seq<Member>, name: string, cs: bool)
    requires multiset(a) == multiset(b) && DistinctKeys(a, cs) && DistinctKeys(b, cs)
    ensures Get(a, name, cs) == Get(b, name, cs)
  {
    if Has(a, name, cs) {
      PermutedLookupHalf(a, b, name, cs);
    } else if Has(b, name, cs) {
      PermutedLookupHalf(b, a, name, cs);
    }
  }

  lemma PermutedLookupHalf(a: seq<Member>, b: seq<Member>, name: string, cs: bool)
    requires multiset(a) == multiset(b) && DistinctKeys(b, cs) && Has(a, name, cs)
    ensures Get(a, name, cs) == Get(b, name, cs)
  {
    var i := IndexOf(a, name, cs);
    assert a[i] in multiset(a) && a[i] in multiset(b);
    var k :| 0 <= k < |b| && b[k] == a[i];
    IndexOfDistinct(b, k, cs);
    IndexOfNorm(b, name, b[k].key, cs);
  }

  lemma PermutedMeaning(a: seq<Member>, b: seq<Member>, cs: bool)
    requires multiset(a) == multiset(b) && DistinctKeys(a, cs)
    ensures MembersMeaning(a, cs) == MembersMeaning(b, cs) && DistinctKeys(b, cs)
  {
    PermutedKeys(a, b, cs);
    forall i | 0 <= i < |a| ensures Has(b, a[i].key, cs) && SameAt(a, b, a[i].key, cs) {
      HasMember(a, i, cs);
      PermutedLookupHalf(a, b, a[i].key, cs);
    }
    forall i | 0 <= i < |b| ensures Has(a, b[i].key, cs) {
      HasMember(b, i, cs);
      PermutedLookupHalf(b, a, b[i].key, cs);
    }
    SameFields(a, b, cs);
  }

  /** What `sort_object` gives on an object with distinct keys. */
  lemma SortedObject(ms: seq<Member>, cs: bool)
    requires DistinctKeys(ms, cs)
    ensures StrictlyAscending(SortMembers(ms, cs), cs) && DistinctKeys(SortMembers(ms, cs), cs)
    ensures MembersMeaning(SortMembers(ms, cs), cs) == MembersMeaning(ms, cs)
  {
    var r := SortMembers(ms, cs);
    SortSorts(ms, MemberKey, cs);
    PermutedMeaning(ms, r, cs);
    forall i, j | 0 <= i < j < |r| ensures Before(r[i].key, r[j].key, cs) {
      KeyOrder(r[i].key, r[j].key, r[i].key, cs);
      assert !Before(MemberKey(r[j]), MemberKey(r[i]), cs);
    }
  }

  // ----- two ascending lists -----

  predicate SameMember(a: Member, b: Member, cs: bool) {
    Norm(a.key, cs) == Norm(b.key, cs) && Meaning(a.value, cs) == Meaning(b.value, cs)
  }

  lemma AscendingTail(ms: seq<Member>, cs: bool)
    requires ms != [] && StrictlyAscending(ms, cs)
    ensures StrictlyAscending(ms[1..], cs) && Norm(ms[0].key, cs) !in MembersMeaning(ms[1..], cs)
  {
    forall i | 0 <= i < |ms[1..]| ensures Norm(ms[1..][i].key, cs) != Norm(ms[0].key, cs) {
      KeyOrder(ms[0].key, ms[i + 1].key, ms[0].key, cs);
    }
    FieldIs(ms[1..], ms[0].key, cs);
    assert !Has(ms[1..], ms[0].key, cs);
  }

  /** Ascending lists with the same keys carry them at the same positions. */
  lemma {:induction false} AscendingAgree(a: seq<Member>, b: seq<Member>, cs: bool)
    requires StrictlyAscending(a, cs) && StrictlyAscending(b, cs)
    requires MembersMeaning(a, cs) == MembersMeaning(b, cs)
    ensures |a| == |b|
    ensures forall i :: 0 <= i < |a| ==> SameMember(a[i], b[i], cs)
  {
    if a == [] || b == [] {
      if a != [] { FieldIs(a, a[0].key, cs); }
      if b != [] { FieldIs(b, b[0].key, cs); }
    } else {
      var x, y := MembersMeaning(a, cs), MembersMeaning(b, cs);
      var n, m := Norm(a[0].key, cs), Norm(b[0].key, cs);
      assert n in x && m in y;
      var i := FieldFrom(b, cs, n);
      var k := FieldFrom(a, cs, m);
      KeyOrder(a[0].key, b[0].key, a[0].key, cs);
      KeyOrder(b[0].key, b[i].key, b[0].key, cs);
      KeyOrder(a[0].key, a[k].key, a[0].key, cs);
      assert n == m;
      AscendingTail(a, cs);
      AscendingTail(b, cs);
      assert MembersMeaning(a[1..], cs) == x - {n};
      assert MembersMeaning(b[1..], cs) == y - {n};
      AscendingAgree(a[1..], b[1..], cs);
    }
  }

  // ----- compare_json -----

  /** `compare_json`. */
  predicate CompareJson(a: Json, b: Json, cs: bool)
    decreases Size(a)
  {
    if Kind(a) != Kind(b) then false
    else match a
      case Num(n) => n == b.n
      case Str(s) => s == b.s
      case Arr(items) =>
        |items| == |b.items| &&
        forall i :: 0 <= i < |items| ==> CompareJson(items[i], b.items[i], cs)
      case Obj(ms) =>
        var x, y := SortMembers(ms, cs), SortMembers(b.members, cs);
        |x| == |y| &&
        forall i :: 0 <= i < |x| ==>
          SameKey(x[i].key, y[i].key, cs) &&
          (SizeIn(ms, x[i]); CompareJson(x[i].value, y[i].value, cs))
      case _ => true
  }

  lemma SizeIn(ms: seq<Member>, m: Member)
    requires m in ms
    ensures Size(m.value) < Size(Obj(ms))
  {
  }

  lemma UniqueIn(ms: seq<Member>, cs: bool)
    requires UniqueKeys(Obj(ms), cs)
    ensures forall i :: 0 <= i < |ms| ==> UniqueKeys(SortMembers(ms, cs)[i].value, cs)
  {
  }

  /** On trees with unique keys `compare_json` decides equality of meaning. */
  lemma {:induction false} CompareJsonExact(a: Json, b: Json, cs: bool)
    requires UniqueKeys(a, cs) && UniqueKeys(b, cs)
    ensures CompareJson(a, b, cs) <==> Meaning(a, cs) == Meaning(b, cs)
    decreases Size(a), 1
  {
    if Kind(a) != Kind(b) {
    } else if a.Arr? {
      CompareItemsExact(a.items, b.items, cs);
    } else if a.Obj? {
      CompareMembersExact(a.members, b.members, cs);
    }
  }

  lemma {:induction false} CompareItemsExact(a: seq<Json>, b: seq<Json>, cs: bool)
    requires UniqueKeys(Arr(a), cs) && UniqueKeys(Arr(b), cs)
    ensures CompareJson(Arr(a), Arr(b), cs) <==> ItemsMeaning(a, cs) == ItemsMeaning(b, cs)
    decreases Size(Arr(a)), 0
  {
    forall i | 0 <= i < |a| && i < |b|
      ensures CompareJson(a[i], b[i], cs) <==> ItemsMeaning(a, cs)[i] == ItemsMeaning(b, cs)[i]
    {
      CompareJsonExact(a[i], b[i], cs);
    }
    if CompareJson(Arr(a), Arr(b), cs) {
      assert ItemsMeaning(a, cs) == ItemsMeaning(b, cs);
    }
  }

  lemma {:induction false} CompareMembersExact(a: seq<Member>, b: seq<Member>, cs: bool)
    requires UniqueKeys(Obj(a), cs) && UniqueKeys(Obj(b), cs)
    ensures CompareJson(Obj(a), Obj(b), cs) <==> MembersMeaning(a, cs) == MembersMeaning(b, cs)
    decreases Size(Obj(a)), 0
  {
    var x, y := SortMembers(a, cs), SortMembers(b, cs);
    UniqueIn(a, cs);
    UniqueIn(b, cs);
    forall i | 0 <= i < |x| && i < |y|
      ensures SameKey(x[i].key, y[i].key, cs) && CompareJson(x[i].value, y[i].value, cs) <==> SameMember(x[i], y[i], cs)
    {
      SizeIn(a, x[i]);
      CompareJsonExact(x[i].value, y[i].value, cs);
      KeyOrder(x[i].key, y[i].key, x[i].key, cs);
    }
    SortedObject(a, cs);
    SortedObject(b, cs);
    if CompareJson(Obj(a), Obj(b), cs) {
      PairwiseSame(x, y, cs);
    }
    if MembersMeaning(a, cs) == MembersMeaning(b, cs) {
      AscendingAgree(x, y, cs);
    }
  }

  lemma {:induction false} PairwiseSame(x: seq<Member>, y: seq<Member>, cs: bool)
    requires |x| == |y|
    requires forall i :: 0 <= i < |x| ==> SameMember(x[i], y[i], cs)
    ensures MembersMeaning(x, cs) == MembersMeaning(y, cs)
  {
    if x != [] {
      PairwiseSame(x[1..], y[1..], cs);
    }
  }
}
