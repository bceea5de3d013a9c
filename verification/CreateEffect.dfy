/** What `create_patches` does to the trees it is given: it sorts the objects that both have in a place. */
module CreateEffect {
  import opened Keys
  import opened Json
  import opened Compare
  import opened SortedObjects

  /** The first tree afterwards; what is left of the second one is this with the two exchanged. */
  function Created(a: Json, b: Json, cs: bool): (r: Json)
    ensures Kind(r) == Kind(a) && Size(r) == Size(a)
    decreases Size(a), 0, 0
  {
    if Kind(a) != Kind(b) then a
    else match a
      case Arr(items) => Arr(CreatedItems(items, b.items, cs))
      case Obj(ms) =>
        SizePermuted(ms, SortMembers(ms, cs));
        Obj(CreatedMembers(SortMembers(ms, cs), SortMembers(b.members, cs), cs))
      case _ => a
  }

  function CreatedItems(xs: seq<Json>, ys: seq<Json>, cs: bool): (r: seq<Json>)
    ensures |r| == |xs| && ItemsSize(r) == ItemsSize(xs)
    decreases ItemsSize(xs), |xs| + 1, 0
  {
    if xs == [] || ys == [] then xs
    else [Created(xs[0], ys[0], cs)] + CreatedItems(xs[1..], ys[1..], cs)
  }

  /** The walk in step over two sorted objects: members of the same key are descended into. */
  function CreatedMembers(xs: seq<Member>, ys: seq<Member>, cs: bool): (r: seq<Member>)
    ensures |r| == |xs| && MembersSize(r) == MembersSize(xs)
    ensures forall i :: 0 <= i < |xs| ==> r[i].key == xs[i].key
    decreases MembersSize(xs), |xs| + 1, |ys|
  {
    if xs == [] || ys == [] then xs
    else if SameKey(xs[0].key, ys[0].key, cs) then
      [Member(xs[0].key, Created(xs[0].value, ys[0].value, cs))] + CreatedMembers(xs[1..], ys[1..], cs)
    else if Before(xs[0].key, ys[0].key, cs) then [xs[0]] + CreatedMembers(xs[1..], ys, cs)
    else CreatedMembers(xs, ys[1..], cs)
  }

  /** In every object that both trees have in a place the first and the last member are where they belong. */
  predicate CreationKeeps(a: Json, b: Json, cs: bool)
    decreases Size(a), 0, 0
  {
    Kind(a) == Kind(b) ==>
      match a
      case Arr(items) => CreationKeepsItems(items, b.items, cs)
      case Obj(ms) =>
        SizePermuted(ms, SortMembers(ms, cs));
        InPlace(ms, cs) && CreationKeepsMembers(SortMembers(ms, cs), SortMembers(b.members, cs), cs)
      case _ => true
  }

  predicate CreationKeepsItems(xs: seq<Json>, ys: seq<Json>, cs: bool)
    decreases ItemsSize(xs), |xs| + 1, 0
  {
    xs == [] || ys == [] || (CreationKeeps(xs[0], ys[0], cs) && CreationKeepsItems(xs[1..], ys[1..], cs))
  }

  predicate CreationKeepsMembers(xs: seq<Member>, ys: seq<Member>, cs: bool)
    decreases MembersSize(xs), |xs| + 1, |ys|
  {
    if xs == [] || ys == [] then true
    else if SameKey(xs[0].key, ys[0].key, cs) then
      CreationKeeps(xs[0].value, ys[0].value, cs) && CreationKeepsMembers(xs[1..], ys[1..], cs)
    else if Before(xs[0].key, ys[0].key, cs) then CreationKeepsMembers(xs[1..], ys, cs)
    else CreationKeepsMembers(xs, ys[1..], cs)
  }

  /** Members are moved; the meaning of a tree with unique keys stays. */
  lemma {:induction false} CreatedMeaning(a: Json, b: Json, cs: bool)
    requires UniqueKeys(a, cs)
    ensures Meaning(Created(a, b, cs), cs) == Meaning(a, cs)
    decreases Size(a), 1, 0
  {
    if Kind(a) == Kind(b) {
      match a
      case Arr(items) => CreatedItemsMeaning(items, b.items, cs);
      case Obj(ms) => CreatedObjectMeaning(ms, b.members, cs);
      case _ =>
    }
  }

  lemma {:induction false} CreatedObjectMeaning(ms: seq<Member>, bs: seq<Member>, cs: bool)
    requires UniqueKeys(Obj(ms), cs)
    ensures Meaning(Created(Obj(ms), Obj(bs), cs), cs) == Meaning(Obj(ms), cs)
    decreases Size(Obj(ms)), 0, 0
  {
    hide SortMembers, CreatedMembers;
    var xs, ys := SortMembers(ms, cs), SortMembers(bs, cs);
    SizePermuted(ms, xs);
    SortedObject(ms, cs);
    UniqueIn(ms, cs);
    CreatedMembersMeaning(xs, ys, cs);
    PairwiseSame(CreatedMembers(xs, ys, cs), xs, cs);
  }

  lemma {:induction false} CreatedItemsMeaning(xs: seq<Json>, ys: seq<Json>, cs: bool)
    requires forall i :: 0 <= i < |xs| ==> UniqueKeys(xs[i], cs)
    ensures ItemsMeaning(CreatedItems(xs, ys, cs), cs) == ItemsMeaning(xs, cs)
    decreases ItemsSize(xs), |xs| + 1, 0
  {
    hide Meaning, Created, UniqueKeys;
    if xs != [] && ys != [] {
      CreatedMeaning(xs[0], ys[0], cs);
      CreatedItemsMeaning(xs[1..], ys[1..], cs);
      var r := CreatedItems(xs, ys, cs);
      assert r[1..] == CreatedItems(xs[1..], ys[1..], cs);
    }
  }

  lemma {:induction false} CreatedMembersMeaning(xs: seq<Member>, ys: seq<Member>, cs: bool)
    requires forall i :: 0 <= i < |xs| ==> UniqueKeys(xs[i].value, cs)
    ensures forall i :: 0 <= i < |xs| ==> SameMember(CreatedMembers(xs, ys, cs)[i], xs[i], cs)
    decreases MembersSize(xs), |xs| + 1, |ys|
  {
    hide Meaning, Created, Before, SameKey, UniqueKeys, Norm;
    if xs != [] && ys != [] {
      var same, r := SameKey(xs[0].key, ys[0].key, cs), CreatedMembers(xs, ys, cs);
      if same || Before(xs[0].key, ys[0].key, cs) {
        if same {
          CreatedMeaning(xs[0].value, ys[0].value, cs);
        }
        CreatedMembersMeaning(xs[1..], if same then ys[1..] else ys, cs);
        forall i | 0 <= i < |xs| ensures SameMember(r[i], xs[i], cs) {
          if i > 0 {
            assert r[i] == r[1..][i - 1] && xs[i] == xs[1..][i - 1];
          }
        }
      } else {
        CreatedMembersMeaning(xs, ys[1..], cs);
      }
    }
  }

  // ----- the walks, step by step -----

  lemma {:induction false} NextCreatedItem(xs: seq<Json>, ys: seq<Json>, i: nat, cs: bool)
    requires i < |xs| && i < |ys|
    ensures CreatedItems(xs[i..], ys[i..], cs) == [Created(xs[i], ys[i], cs)] + CreatedItems(xs[i + 1..], ys[i + 1..], cs)
  {
    hide Created;
    assert xs[i..][0] == xs[i] && xs[i..][1..] == xs[i + 1..];
    assert ys[i..][0] == ys[i] && ys[i..][1..] == ys[i + 1..];
  }

  lemma {:induction false} NextCreatedMember(xs: seq<Member>, ys: seq<Member>, i: nat, k: nat, cs: bool)
    requires i <= |xs| && k <= |ys| && (i < |xs| || k < |ys|)
    ensures CreatedMembers(xs[i..], ys[k..], cs) ==
            if i < |xs| && k < |ys| && SameKey(xs[i].key, ys[k].key, cs) then
              [Member(xs[i].key, Created(xs[i].value, ys[k].value, cs))] + CreatedMembers(xs[i + 1..], ys[k + 1..], cs)
            else if i < |xs| && (k == |ys| || Before(xs[i].key, ys[k].key, cs)) then
              [xs[i]] + CreatedMembers(xs[i + 1..], ys[k..], cs)
            else CreatedMembers(xs[i..], ys[k + 1..], cs)
  {
    hide Created, SameKey, Before;
    assert i < |xs| ==> xs[i..][0] == xs[i] && xs[i..][1..] == xs[i + 1..] && xs[i..] == [xs[i]] + xs[i + 1..];
    assert k < |ys| ==> ys[k..][0] == ys[k] && ys[k..][1..] == ys[k + 1..];
  }
}
