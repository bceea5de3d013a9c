/** What `compare_json` does to the tree it is given: it sorts the objects that it compares, in place. */
module CompareEffect {
  import opened Keys
  import opened Json
  import opened Compare
  import opened SortedObjects
  import SortList

  /** The first tree after comparing it with the second; at the first difference the rest stays as it was. */
  function Compared(a: Json, b: Json, cs: bool): (r: Json)
    ensures Kind(r) == Kind(a) && Size(r) == Size(a)
    decreases Size(a), 0
  {
    if Kind(a) != Kind(b) then a
    else match a
      case Arr(items) => Arr(ComparedItems(items, b.items, cs))
      case Obj(ms) =>
        SizePermuted(ms, SortMembers(ms, cs));
        Obj(ComparedMembers(SortMembers(ms, cs), SortMembers(b.members, cs), cs))
      case _ => a
  }

  function ComparedItems(xs: seq<Json>, ys: seq<Json>, cs: bool): (r: seq<Json>)
    ensures |r| == |xs| && ItemsSize(r) == ItemsSize(xs)
    decreases ItemsSize(xs), |xs| + 1
  {
    if xs == [] || ys == [] then xs
    else
      [Compared(xs[0], ys[0], cs)] +
      if CompareJson(xs[0], ys[0], cs) then ComparedItems(xs[1..], ys[1..], cs) else xs[1..]
  }

  function ComparedMembers(xs: seq<Member>, ys: seq<Member>, cs: bool): (r: seq<Member>)
    ensures |r| == |xs| && MembersSize(r) == MembersSize(xs)
    ensures forall i :: 0 <= i < |xs| ==> r[i].key == xs[i].key
    decreases MembersSize(xs), |xs| + 1
  {
    if xs == [] || ys == [] || !SameKey(xs[0].key, ys[0].key, cs) then xs
    else
      [Member(xs[0].key, Compared(xs[0].value, ys[0].value, cs))] +
      if CompareJson(xs[0].value, ys[0].value, cs) then ComparedMembers(xs[1..], ys[1..], cs) else xs[1..]
  }

  /** Comparing is symmetric, so what it does to the second tree is `Compared` with the two exchanged. */
  lemma {:induction false} CompareSymmetric(a: Json, b: Json, cs: bool)
    requires CompareJson(a, b, cs)
    ensures CompareJson(b, a, cs)
    decreases Size(a)
  {
    match a
    case Arr(items) =>
      forall i | 0 <= i < |items| ensures CompareJson(b.items[i], items[i], cs) {
        CompareSymmetric(items[i], b.items[i], cs);
      }
    case Obj(ms) =>
      var x, y := SortMembers(ms, cs), SortMembers(b.members, cs);
      forall i | 0 <= i < |x| ensures SameKey(y[i].key, x[i].key, cs) && CompareJson(y[i].value, x[i].value, cs) {
        SizeIn(ms, x[i]);
        CompareSymmetric(x[i].value, y[i].value, cs);
        KeyOrder(x[i].key, y[i].key, "", cs);
        KeyOrder(y[i].key, x[i].key, "", cs);
      }
    case _ =>
  }

  /** The meaning of a tree with unique keys is not touched. */
  lemma {:induction false} ComparedMeaning(a: Json, b: Json, cs: bool)
    requires UniqueKeys(a, cs)
    ensures Meaning(Compared(a, b, cs), cs) == Meaning(a, cs)
    decreases Size(a), 0
  {
    hide SortMembers;
    if Kind(a) == Kind(b) {
      match a
      case Arr(items) => ComparedItemsMeaning(items, b.items, cs);
      case Obj(ms) =>
        SizePermuted(ms, SortMembers(ms, cs));
        SortedObject(ms, cs);
        UniqueIn(ms, cs);
        ComparedMembersMeaning(SortMembers(ms, cs), SortMembers(b.members, cs), cs);
        PairwiseSame(ComparedMembers(SortMembers(ms, cs), SortMembers(b.members, cs), cs), SortMembers(ms, cs), cs);
      case _ =>
    }
  }

  lemma {:induction false} ComparedItemsMeaning(xs: seq<Json>, ys: seq<Json>, cs: bool)
    requires forall i :: 0 <= i < |xs| ==> UniqueKeys(xs[i], cs)
    ensures ItemsMeaning(ComparedItems(xs, ys, cs), cs) == ItemsMeaning(xs, cs)
    decreases ItemsSize(xs), |xs| + 1
  {
    hide Meaning, Compared, CompareJson;
    if xs != [] && ys != [] {
      ComparedMeaning(xs[0], ys[0], cs);
      ComparedItemsMeaning(xs[1..], ys[1..], cs);
      var r := ComparedItems(xs, ys, cs);
      assert r[1..] == if CompareJson(xs[0], ys[0], cs) then ComparedItems(xs[1..], ys[1..], cs) else xs[1..];
      ItemsMeaningFirst(r, cs);
      ItemsMeaningFirst(xs, cs);
    }
  }

  lemma ItemsMeaningFirst(xs: seq<Json>, cs: bool)
    requires xs != []
    ensures ItemsMeaning(xs, cs) == [Meaning(xs[0], cs)] + ItemsMeaning(xs[1..], cs)
  {
  }

  lemma {:induction false} ComparedMembersMeaning(xs: seq<Member>, ys: seq<Member>, cs: bool)
    requires forall i :: 0 <= i < |xs| ==> UniqueKeys(xs[i].value, cs)
    ensures forall i :: 0 <= i < |xs| ==> SameMember(ComparedMembers(xs, ys, cs)[i], xs[i], cs)
    decreases MembersSize(xs), |xs| + 1
  {
    hide Meaning, Compared, CompareJson, Norm;
    if xs != [] && ys != [] && SameKey(xs[0].key, ys[0].key, cs) {
      ComparedMeaning(xs[0].value, ys[0].value, cs);
      ComparedMembersMeaning(xs[1..], ys[1..], cs);
      var r := ComparedMembers(xs, ys, cs);
      forall i | 0 <= i < |xs| ensures SameMember(r[i], xs[i], cs) {
        if i > 0 {
          assert r[i] == r[1..][i - 1] && xs[i] == xs[1..][i - 1];
        }
      }
    }
  }

  // ----- when nothing is moved -----

  /** The objects that the comparison reaches are sorted already. */
  predicate SortedWalk(a: Json, b: Json, cs: bool)
    decreases Size(a), 0
  {
    Kind(a) == Kind(b) ==>
      match a
      case Arr(items) => SortedItems(items, b.items, cs)
      case Obj(ms) => StrictlyAscending(ms, cs) && SortedInside(ms, SortMembers(b.members, cs), cs)
      case _ => true
  }

  predicate SortedItems(xs: seq<Json>, ys: seq<Json>, cs: bool)
    decreases ItemsSize(xs), |xs| + 1
  {
    xs == [] || ys == [] ||
    (SortedWalk(xs[0], ys[0], cs) && (CompareJson(xs[0], ys[0], cs) ==> SortedItems(xs[1..], ys[1..], cs)))
  }

  predicate SortedInside(xs: seq<Member>, ys: seq<Member>, cs: bool)
    decreases MembersSize(xs), |xs| + 1
  {
    xs == [] || ys == [] || !SameKey(xs[0].key, ys[0].key, cs) ||
    (SortedWalk(xs[0].value, ys[0].value, cs) &&
     (CompareJson(xs[0].value, ys[0].value, cs) ==> SortedInside(xs[1..], ys[1..], cs)))
  }

  /** A comparison leaves a tree with unique keys as it is exactly when all objects that it reaches are sorted. */
  lemma {:induction false} ComparedUnchanged(a: Json, b: Json, cs: bool)
    requires UniqueKeys(a, cs)
    ensures Compared(a, b, cs) == a <==> SortedWalk(a, b, cs)
    decreases Size(a), 1
  {
    if Kind(a) == Kind(b) {
      match a
      case Arr(items) => ItemsUnchanged(items, b.items, cs);
      case Obj(ms) => ObjectUnchanged(ms, b.members, cs);
      case _ =>
    }
  }

  lemma {:induction false} ObjectUnchanged(ms: seq<Member>, bs: seq<Member>, cs: bool)
    requires UniqueKeys(Obj(ms), cs)
    ensures Compared(Obj(ms), Obj(bs), cs) == Obj(ms) <==> SortedWalk(Obj(ms), Obj(bs), cs)
    decreases Size(Obj(ms)), 0
  {
    hide SortMembers, ComparedMembers, SortedInside, StrictlyAscending;
    var ys, r := SortMembers(bs, cs), ComparedMembers(SortMembers(ms, cs), SortMembers(bs, cs), cs);
    assert Compared(Obj(ms), Obj(bs), cs) == Obj(r);
    if r == ms {
      KeysAscend(ms, r, cs);
    }
    if StrictlyAscending(ms, cs) {
      SortIdle(ms, cs);
      InsideUnchanged(ms, ys, cs);
    }
  }

  lemma {:induction false} KeysAscend(ms: seq<Member>, r: seq<Member>, cs: bool)
    requires DistinctKeys(ms, cs) && |r| == |ms| && forall i :: 0 <= i < |ms| ==> r[i].key == SortMembers(ms, cs)[i].key
    ensures StrictlyAscending(r, cs)
  {
    hide SortMembers, Before;
    SortedObject(ms, cs);
  }

  lemma {:induction false} SortIdle(ms: seq<Member>, cs: bool)
    requires StrictlyAscending(ms, cs)
    ensures SortMembers(ms, cs) == ms
  {
    assert SortList.Ascending(ms, MemberKey, cs);
  }

  lemma {:induction false} ItemsUnchanged(xs: seq<Json>, ys: seq<Json>, cs: bool)
    requires forall i :: 0 <= i < |xs| ==> UniqueKeys(xs[i], cs)
    ensures ComparedItems(xs, ys, cs) == xs <==> SortedItems(xs, ys, cs)
    decreases ItemsSize(xs), |xs| + 1
  {
    hide Compared, SortedWalk, CompareJson, UniqueKeys;
    if xs != [] && ys != [] {
      ComparedUnchanged(xs[0], ys[0], cs);
      ItemsUnchanged(xs[1..], ys[1..], cs);
      var r := ComparedItems(xs, ys, cs);
      assert r == xs <==> r[0] == xs[0] && r[1..] == xs[1..] by {
        assert r == [r[0]] + r[1..] && xs == [xs[0]] + xs[1..];
      }
      assert r[1..] == if CompareJson(xs[0], ys[0], cs) then ComparedItems(xs[1..], ys[1..], cs) else xs[1..];
    }
  }

  lemma {:induction false} InsideUnchanged(xs: seq<Member>, ys: seq<Member>, cs: bool)
    requires forall i :: 0 <= i < |xs| ==> UniqueKeys(xs[i].value, cs)
    ensures ComparedMembers(xs, ys, cs) == xs <==> SortedInside(xs, ys, cs)
    decreases MembersSize(xs), |xs| + 1
  {
    hide Compared, SortedWalk, CompareJson, UniqueKeys, SameKey;
    if xs != [] && ys != [] && SameKey(xs[0].key, ys[0].key, cs) {
      ComparedUnchanged(xs[0].value, ys[0].value, cs);
      InsideUnchanged(xs[1..], ys[1..], cs);
      var r := ComparedMembers(xs, ys, cs);
      assert r == xs <==> r[0] == xs[0] && r[1..] == xs[1..] by {
        assert r == [r[0]] + r[1..] && xs == [xs[0]] + xs[1..];
      }
      assert r[1..] == if CompareJson(xs[0].value, ys[0].value, cs) then ComparedMembers(xs[1..], ys[1..], cs) else xs[1..];
    }
  }

  // ----- when no link breaks -----

  /** In every object that the comparison reaches the first and the last member are where they belong. */
  predicate ComparisonKeeps(a: Json, b: Json, cs: bool)
    decreases Size(a), 0
  {
    Kind(a) == Kind(b) ==>
      match a
      case Arr(items) => ItemsKeep(items, b.items, cs)
      case Obj(ms) =>
        SizePermuted(ms, SortMembers(ms, cs));
        InPlace(ms, cs) && MembersKeep(SortMembers(ms, cs), SortMembers(b.members, cs), cs)
      case _ => true
  }

  predicate ItemsKeep(xs: seq<Json>, ys: seq<Json>, cs: bool)
    decreases ItemsSize(xs), |xs| + 1
  {
    xs == [] || ys == [] ||
    (ComparisonKeeps(xs[0], ys[0], cs) && (CompareJson(xs[0], ys[0], cs) ==> ItemsKeep(xs[1..], ys[1..], cs)))
  }

  predicate MembersKeep(xs: seq<Member>, ys: seq<Member>, cs: bool)
    decreases MembersSize(xs), |xs| + 1
  {
    xs == [] || ys == [] || !SameKey(xs[0].key, ys[0].key, cs) ||
    (ComparisonKeeps(xs[0].value, ys[0].value, cs) &&
     (CompareJson(xs[0].value, ys[0].value, cs) ==> MembersKeep(xs[1..], ys[1..], cs)))
  }

  // ----- the comparison as it runs -----

  lemma {:induction false} CompareFlip(a: Json, b: Json, cs: bool)
    ensures CompareJson(a, b, cs) == CompareJson(b, a, cs)
  {
    if CompareJson(a, b, cs) {
      CompareSymmetric(a, b, cs);
    }
    if CompareJson(b, a, cs) {
      CompareSymmetric(b, a, cs);
    }
  }

  /** What the walk over two lists leaves of the first one, when its first `i` elements have been compared. */
  ghost predicate ItemsSoFar(done: seq<Json>, xs: seq<Json>, ys: seq<Json>, i: nat, cs: bool)
    requires i <= |xs| && i <= |ys|
  {
    |done| == i && done + ComparedItems(xs[i..], ys[i..], cs) == ComparedItems(xs, ys, cs)
  }

  lemma {:induction false} UnfoldItems(xs: seq<Json>, ys: seq<Json>, i: nat, cs: bool)
    requires i < |xs| && i < |ys|
    ensures ComparedItems(xs[i..], ys[i..], cs) ==
            [Compared(xs[i], ys[i], cs)] +
            if CompareJson(xs[i], ys[i], cs) then ComparedItems(xs[i + 1..], ys[i + 1..], cs) else xs[i + 1..]
  {
    hide Compared, CompareJson;
    assert xs[i..][0] == xs[i] && xs[i..][1..] == xs[i + 1..];
    assert ys[i..][0] == ys[i] && ys[i..][1..] == ys[i + 1..];
  }

  lemma {:induction false} NextItem(done: seq<Json>, xs: seq<Json>, ys: seq<Json>, i: nat, cs: bool)
    requires i < |xs| && i < |ys| && ItemsSoFar(done, xs, ys, i, cs)
    ensures var more := done + [Compared(xs[i], ys[i], cs)];
            if CompareJson(xs[i], ys[i], cs) then ItemsSoFar(more, xs, ys, i + 1, cs)
            else more + xs[i + 1..] == ComparedItems(xs, ys, cs)
  {
    hide Compared, CompareJson, ComparedItems;
    UnfoldItems(xs, ys, i, cs);
    Regroup(done, Compared(xs[i], ys[i], cs), ComparedItems(xs[i + 1..], ys[i + 1..], cs));
    Regroup(done, Compared(xs[i], ys[i], cs), xs[i + 1..]);
  }

  /** The loop over two arrays. */
  method CompareElements(xs: seq<Json>, ys: seq<Json>, cs: bool) returns (same: bool, xs': seq<Json>, ys': seq<Json>)
    ensures same == CompareJson(Arr(xs), Arr(ys), cs)
    ensures xs' == ComparedItems(xs, ys, cs) && ys' == ComparedItems(ys, xs, cs)
    decreases ItemsSize(xs) + 1, 0
  {
    hide Compared, CompareJson, ItemsSoFar;
    xs', ys' := [], [];
    var i := 0;
    ItemsStart(xs, ys, cs);
    ItemsStart(ys, xs, cs);
    while i < |xs| && i < |ys|
      invariant 0 <= i <= |xs| && i <= |ys|
      invariant ItemsSoFar(xs', xs, ys, i, cs) && ItemsSoFar(ys', ys, xs, i, cs)
      invariant forall k :: 0 <= k < i ==> CompareJson(xs[k], ys[k], cs)
    {
      var s, x, y := CompareInPlace(xs[i], ys[i], cs);
      CompareFlip(xs[i], ys[i], cs);
      NextItem(xs', xs, ys, i, cs);
      NextItem(ys', ys, xs, i, cs);
      xs', ys' := xs' + [x], ys' + [y];
      if !s {
        ArraysDiffer(xs, ys, i, cs);
        return false, xs' + xs[i + 1..], ys' + ys[i + 1..];
      }
      i := i + 1;
    }
    ItemsEnd(xs', xs, ys, i, cs);
    ItemsEnd(ys', ys, xs, i, cs);
    ArraysSame(xs, ys, i, cs);
    return i == |xs| && i == |ys|, xs' + xs[i..], ys' + ys[i..];
  }

  lemma {:induction false} ItemsStart(xs: seq<Json>, ys: seq<Json>, cs: bool)
    ensures ItemsSoFar([], xs, ys, 0, cs)
  {
    assert xs[0..] == xs && ys[0..] == ys;
  }

  lemma {:induction false} ItemsEnd(done: seq<Json>, xs: seq<Json>, ys: seq<Json>, i: nat, cs: bool)
    requires i <= |xs| && i <= |ys| && (i == |xs| || i == |ys|) && ItemsSoFar(done, xs, ys, i, cs)
    ensures done + xs[i..] == ComparedItems(xs, ys, cs)
  {
  }

  lemma {:induction false} ArraysDiffer(xs: seq<Json>, ys: seq<Json>, i: nat, cs: bool)
    requires i < |xs| && i < |ys| && !CompareJson(xs[i], ys[i], cs)
    ensures !CompareJson(Arr(xs), Arr(ys), cs)
  {
  }

  lemma {:induction false} ArraysSame(xs: seq<Json>, ys: seq<Json>, i: nat, cs: bool)
    requires i <= |xs| && i <= |ys| && (i == |xs| || i == |ys|)
    requires forall k :: 0 <= k < i ==> CompareJson(xs[k], ys[k], cs)
    ensures CompareJson(Arr(xs), Arr(ys), cs) <==> i == |xs| && i == |ys|
  {
  }

  /** The same for members. */
  ghost predicate MembersSoFar(done: seq<Member>, xs: seq<Member>, ys: seq<Member>, i: nat, cs: bool)
    requires i <= |xs| && i <= |ys|
  {
    |done| == i && done + ComparedMembers(xs[i..], ys[i..], cs) == ComparedMembers(xs, ys, cs)
  }

  /** What the comparison of two members leaves of the first one. */
  function ComparedMember(x: Member, y: Member, cs: bool): Member {
    if SameKey(x.key, y.key, cs) then Member(x.key, Compared(x.value, y.value, cs)) else x
  }

  predicate SamePair(x: Member, y: Member, cs: bool) {
    SameKey(x.key, y.key, cs) && CompareJson(x.value, y.value, cs)
  }

  lemma {:induction false} UnfoldMembers(xs: seq<Member>, ys: seq<Member>, i: nat, cs: bool)
    requires i < |xs| && i < |ys|
    ensures ComparedMembers(xs[i..], ys[i..], cs) ==
            [ComparedMember(xs[i], ys[i], cs)] +
            if SamePair(xs[i], ys[i], cs) then ComparedMembers(xs[i + 1..], ys[i + 1..], cs) else xs[i + 1..]
  {
    hide Compared, CompareJson, SameKey;
    assert xs[i..][0] == xs[i] && xs[i..][1..] == xs[i + 1..];
    assert ys[i..][0] == ys[i] && ys[i..][1..] == ys[i + 1..];
    assert xs[i..] == [xs[i]] + xs[i + 1..];
  }

  lemma {:induction false} NextMember(done: seq<Member>, xs: seq<Member>, ys: seq<Member>, i: nat, cs: bool)
    requires i < |xs| && i < |ys| && MembersSoFar(done, xs, ys, i, cs)
    ensures var more := done + [ComparedMember(xs[i], ys[i], cs)];
            if SamePair(xs[i], ys[i], cs) then MembersSoFar(more, xs, ys, i + 1, cs)
            else more + xs[i + 1..] == ComparedMembers(xs, ys, cs)
  {
    hide ComparedMember, SamePair, ComparedMembers;
    UnfoldMembers(xs, ys, i, cs);
    Regroup(done, ComparedMember(xs[i], ys[i], cs), ComparedMembers(xs[i + 1..], ys[i + 1..], cs));
    Regroup(done, ComparedMember(xs[i], ys[i], cs), xs[i + 1..]);
  }

  method ComparePair(x: Member, y: Member, cs: bool) returns (same: bool, x': Member, y': Member)
    ensures same == SamePair(x, y, cs) == SamePair(y, x, cs)
    ensures x' == ComparedMember(x, y, cs) && y' == ComparedMember(y, x, cs)
    decreases Size(x.value), 2
  {
    hide Compared, CompareJson;
    var diff := CompareStrings(x.key, y.key, cs);
    KeyOrder(x.key, y.key, "", cs);
    KeyOrder(y.key, x.key, "", cs);
    CompareFlip(x.value, y.value, cs);
    if diff != 0 {
      return false, x, y;
    }
    var v, w;
    same, v, w := CompareInPlace(x.value, y.value, cs);
    return same, Member(x.key, v), Member(y.key, w);
  }

  /** Two sorted objects are the same for the walk. */
  predicate SamePairs(xs: seq<Member>, ys: seq<Member>, cs: bool) {
    |xs| == |ys| && forall i :: 0 <= i < |xs| ==> SamePair(xs[i], ys[i], cs)
  }

  /** The loop over two sorted objects. */
  method CompareSorted(xs: seq<Member>, ys: seq<Member>, cs: bool) returns (same: bool, xs': seq<Member>, ys': seq<Member>)
    ensures same == SamePairs(xs, ys, cs)
    ensures xs' == ComparedMembers(xs, ys, cs) && ys' == ComparedMembers(ys, xs, cs)
    decreases MembersSize(xs) + 1, 0
  {
    hide ComparedMember, SamePair, MembersSoFar;
    xs', ys' := [], [];
    var i := 0;
    MembersStart(xs, ys, cs);
    MembersStart(ys, xs, cs);
    while i < |xs| && i < |ys|
      invariant 0 <= i <= |xs| && i <= |ys|
      invariant MembersSoFar(xs', xs, ys, i, cs) && MembersSoFar(ys', ys, xs, i, cs)
      invariant forall k :: 0 <= k < i ==> SamePair(xs[k], ys[k], cs)
    {
      var s, x, y := ComparePair(xs[i], ys[i], cs);
      NextMember(xs', xs, ys, i, cs);
      NextMember(ys', ys, xs, i, cs);
      xs', ys' := xs' + [x], ys' + [y];
      if !s {
        return false, xs' + xs[i + 1..], ys' + ys[i + 1..];
      }
      i := i + 1;
    }
    MembersEnd(xs', xs, ys, i, cs);
    MembersEnd(ys', ys, xs, i, cs);
    return i == |xs| && i == |ys|, xs' + xs[i..], ys' + ys[i..];
  }

  lemma {:induction false} MembersStart(xs: seq<Member>, ys: seq<Member>, cs: bool)
    ensures MembersSoFar([], xs, ys, 0, cs)
  {
    assert xs[0..] == xs && ys[0..] == ys;
  }

  lemma {:induction false} MembersEnd(done: seq<Member>, xs: seq<Member>, ys: seq<Member>, i: nat, cs: bool)
    requires i <= |xs| && i <= |ys| && (i == |xs| || i == |ys|) && MembersSoFar(done, xs, ys, i, cs)
    ensures done + xs[i..] == ComparedMembers(xs, ys, cs)
  {
  }

  lemma {:induction false} ObjectsSame(ms: seq<Member>, bs: seq<Member>, cs: bool)
    ensures CompareJson(Obj(ms), Obj(bs), cs) == SamePairs(SortMembers(ms, cs), SortMembers(bs, cs), cs)
  {
  }

  /** `compare_json`, which sorts both trees as it goes: the answer and what is left of either. */
  method CompareInPlace(a: Json, b: Json, cs: bool) returns (same: bool, a': Json, b': Json)
    ensures same == CompareJson(a, b, cs) && a' == Compared(a, b, cs) && b' == Compared(b, a, cs)
    decreases Size(a), 1
  {
    a', b' := a, b;
    if Kind(a) != Kind(b) {
      return false, a, b;
    }
    match a
    case Num(n) => same := n == b.n;
    case Str(s) => same := s == b.s;
    case Arr(items) =>
      var xs, ys;
      same, xs, ys := CompareElements(items, b.items, cs);
      a', b' := Arr(xs), Arr(ys);
    case Obj(ms) =>
      var xs, ys := SortMembers(ms, cs), SortMembers(b.members, cs);
      SizePermuted(ms, xs);
      ObjectsSame(ms, b.members, cs);
      same, xs, ys := CompareSorted(xs, ys, cs);
      a', b' := Obj(xs), Obj(ys);
    case _ => same := true;
  }
}
