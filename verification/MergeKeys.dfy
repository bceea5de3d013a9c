/** The keys on which JSON Merge Patch makes the round trip at all. */
module MergeKeys {
  import opened Wrappers
  import opened Keys
  import opened Json
  import opened SortList
  import opened SortedObjects
  import opened CompareEffect
  import opened PatchSound
  import opened MergePatch
  import opened MergeTheorem
  import opened MergeRoundTrip

  function One(a: string): seq<Member> { [Member(a, Bool(true))] }

  function Two(a: string, b: string): seq<Member> { [Member(a, Bool(true)), Member(b, Bool(true))] }

  /** The patch that the walk generates when the two orders disagree on `x` and `y`. */
  function Confused(x: string, y: string): seq<Member> {
    [Member(x, Bool(true)), Member(y, Null), Member(x, Null)]
  }

  lemma OneSorted(m: Member, cs: bool)
    ensures SortMembers([m], cs) == [m]
  {
  }

  lemma TwoSorted(x: string, y: string, cs: bool)
    ensures SortMembers(Two(x, y), cs) == if Before(x, y, cs) then Two(x, y) else Two(y, x)
  {
    hide SortMembers, Before;
    if Before(x, y, cs) {
      TwoKept(x, y, cs);
    } else {
      TwoReversed(x, y, cs);
    }
  }

  lemma TwoKept(x: string, y: string, cs: bool)
    requires Before(x, y, cs)
    ensures SortMembers(Two(x, y), cs) == Two(x, y)
  {
    hide Before;
    var s := Two(x, y);
    assert forall i :: 0 < i < |s| ==> Before(MemberKey(s[i - 1]), MemberKey(s[i]), cs);
  }

  lemma TwoReversed(x: string, y: string, cs: bool)
    requires !Before(x, y, cs)
    ensures SortMembers(Two(x, y), cs) == Two(y, x)
  {
    hide Before;
    var s := Two(x, y);
    assert !Before(MemberKey(s[0]), MemberKey(s[1]), cs);
    assert s[..1] == One(x) && s[1..] == One(y);
    assert Sort(One(x), MemberKey, cs) == One(x) && Sort(One(y), MemberKey, cs) == One(y);
    assert Sort(s, MemberKey, cs) == SortList.Merge(One(x), One(y), MemberKey, cs);
    TwoMerged(x, y, cs);
  }

  lemma TwoMerged(x: string, y: string, cs: bool)
    requires !Before(x, y, cs)
    ensures SortList.Merge(One(x), One(y), MemberKey, cs) == Two(y, x)
  {
    assert One(y)[1..] == [];
    assert SortList.Merge(One(x), [], MemberKey, cs) == One(x);
    assert One(y)[..1] + One(x) == Two(y, x);
  }

  lemma ConfusedWalk(x: string, y: string)
    requires StrCmp(x, y) < 0
    ensures MergeEdits(Two(y, x), One(x), false) == Confused(x, y)
  {
    StrCmpFlip(x, y);
    assert Two(y, x)[1..] == One(x) && One(x)[1..] == [];
    assert MergeEdits([], [], false) == [];
    assert MergeEdits(One(x), [], false) == [Member(x, Null)];
    assert MergeEdits(Two(y, x), [], false) == [Member(y, Null)] + [Member(x, Null)];
    assert Confused(x, y) == One(x) + ([Member(y, Null)] + [Member(x, Null)]);
  }

  /** Sorted by the comparison first, the two stand in this order again once the generation has sorted them. */
  lemma SortedTwice(x: string, y: string, cs: bool)
    requires Before(x, y, true) && !Before(x, y, false)
    ensures SortMembers(SortMembers(Two(y, x), cs), false) == Two(y, x)
  {
    hide SortMembers, Before;
    KeyOrder(x, y, x, true);
    TwoSorted(y, x, cs);
    TwoSorted(x, y, false);
    TwoSorted(y, x, false);
  }

  lemma ConfusedGenerate(x: string, y: string, cs: bool)
    requires Before(x, y, true) && !Before(x, y, false)
    ensures Generate(Obj(SortMembers(Two(y, x), cs)), Obj(One(x)), false) == Some(Obj(Confused(x, y)))
  {
    hide SortMembers, MergeEdits;
    var ms := SortMembers(Two(y, x), cs);
    SortedTwice(x, y, cs);
    OneSorted(One(x)[0], false);
    ConfusedWalk(x, y);
    SizePermuted(ms, Two(y, x));
  }

  lemma ConfusedMerge(x: string, y: string, cs: bool)
    ensures MergePatch.Merge(Some(Obj(Two(y, x))), Obj(Confused(x, y)), cs) == Obj([])
  {
    hide Norm;
    var ps := Confused(x, y);
    var rest := [Member(x, Null)];
    assert ps[1..][0] == Member(y, Null) && ps[1..][1..] == rest && rest[1..] == [];
    assert Drop(One(x), x, cs) == [] && MergeMembers([], [], cs) == [];
    assert MergeMembers(One(x), rest, cs) == [];
    FirstDropped(x, y, cs);
    var s1 := Drop(Two(y, x), x, cs) + [Member(x, Bool(true))];
    assert MergeMembers(s1, ps[1..], cs) == MergeMembers(One(x), rest, cs);
    assert MergeMembers(Two(y, x), ps, cs) == MergeMembers(s1, ps[1..], cs);
  }

  /** Whichever of the two is found first. */
  lemma FirstDropped(x: string, y: string, cs: bool)
    ensures Drop(Drop(Two(y, x), x, cs) + [Member(x, Bool(true))], y, cs) == One(x)
  {
    hide Norm;
    if Norm(x, cs) == Norm(y, cs) {
      assert Drop(Two(y, x), x, cs) == One(x);
      assert One(x) + [Member(x, Bool(true))] == Two(x, x);
      assert IndexOf(Two(x, x), y, cs) == 0 && RemoveAt(Two(x, x), 0) == One(x);
    } else {
      assert Two(y, x)[1..] == One(x);
      assert IndexOf(Two(y, x), x, cs) == 1 && RemoveAt(Two(y, x), 1) == One(y);
      assert One(y) + [Member(x, Bool(true))] == Two(y, x);
      assert IndexOf(Two(y, x), y, cs) == 0 && RemoveAt(Two(y, x), 0) == One(x);
    }
  }

  function Wrap(k: string, v: Json): seq<Member> { [Member(k, v)] }

  lemma ComparedTwo(x: string, y: string, cs: bool)
    ensures Compared(Obj(Two(y, x)), Obj(One(x)), cs) == Obj(SortMembers(Two(y, x), cs))
    ensures Compared(Obj(One(x)), Obj(Two(y, x)), cs) == Obj(One(x))
    ensures !CompareJson(Obj(Two(y, x)), Obj(One(x)), cs)
  {
    hide SortMembers, Compared, CompareJson;
    TwoSorted(y, x, cs);
    OneSorted(One(x)[0], cs);
    ComparedBools(Two(y, x), One(x), cs);
    ComparedBools(One(x), Two(y, x), cs);
    Longer(Two(y, x), One(x), cs);
  }

  lemma ComparedBools(ms: seq<Member>, ns: seq<Member>, cs: bool)
    requires forall i :: 0 <= i < |ms| ==> SortMembers(ms, cs)[i].value.Bool?
    ensures Compared(Obj(ms), Obj(ns), cs) == Obj(SortMembers(ms, cs))
  {
    hide SortMembers, ComparedMembers;
    BoolsStay(SortMembers(ms, cs), SortMembers(ns, cs), cs);
  }

  lemma Longer(ms: seq<Member>, ns: seq<Member>, cs: bool)
    requires |ms| != |ns|
    ensures !CompareJson(Obj(ms), Obj(ns), cs)
  {
    assert |SortMembers(ms, cs)| != |SortMembers(ns, cs)|;
  }

  lemma {:induction false} BoolsStay(xs: seq<Member>, ys: seq<Member>, cs: bool)
    requires forall i :: 0 <= i < |xs| ==> xs[i].value.Bool?
    ensures ComparedMembers(xs, ys, cs) == xs
    decreases |xs|
  {
    hide SameKey, CompareJson;
    if xs != [] && ys != [] && SameKey(xs[0].key, ys[0].key, cs) {
      BoolsStay(xs[1..], ys[1..], cs);
      assert xs == [xs[0]] + xs[1..];
    }
  }

  lemma WrappedGenerate(x: string, y: string, cs: bool)
    requires Before(x, y, true) && !Before(x, y, false)
    ensures Generate(Obj(Wrap(x, Obj(Two(y, x)))), Obj(Wrap(x, Obj(One(x)))), cs) ==
            Some(Obj(Wrap(x, Obj(Confused(x, y)))))
  {
    hide Before, CompareJson, Compared, SortMembers;
    var f, t, p := Wrap(x, Obj(Two(y, x))), Wrap(x, Obj(One(x))), Wrap(x, Obj(Confused(x, y)));
    OneSorted(f[0], cs);
    OneSorted(t[0], cs);
    WrappedCommon(x, y, cs);
    StrCmpZero(x, x);
    assert f[1..] == [] && t[1..] == [] && MergeEdits([], [], cs) == [];
    assert p + [] == p;
    assert MergeEdits(f, t, cs) == p;
  }

  lemma WrappedCommon(x: string, y: string, cs: bool)
    requires Before(x, y, true) && !Before(x, y, false)
    ensures Common(Member(x, Obj(Two(y, x))), Member(x, Obj(One(x))), cs) == Wrap(x, Obj(Confused(x, y)))
  {
    hide Before, CompareJson, Compared, SortMembers, Generate;
    ComparedTwo(x, y, cs);
    ConfusedGenerate(x, y, cs);
  }

  lemma WrappedMerge(x: string, y: string, cs: bool)
    ensures MergePatch.Merge(Some(Obj(Wrap(x, Obj(Two(y, x))))), Obj(Wrap(x, Obj(Confused(x, y)))), cs) ==
            Obj(Wrap(x, Obj([])))
  {
    ConfusedMerge(x, y, cs);
    var f, p := Wrap(x, Obj(Two(y, x))), Wrap(x, Obj(Confused(x, y)));
    assert IndexOf(f, x, cs) == 0 && RemoveAt(f, 0) == [];
    assert p[1..] == [];
    assert MergeMembers(f, p, cs) == MergeMembers([] + [Member(x, Obj([]))], [], cs);
  }

  /** Keys on which the two orders disagree lose the member that was to stay. */
  lemma IncompatibleFails(x: string, y: string, cs: bool)
    requires Before(x, y, true) && !Before(x, y, false)
    ensures var from, to := Obj(Wrap(x, Obj(Two(y, x)))), Obj(Wrap(x, Obj(One(x))));
            !MergeTrips(from, from, to, cs, cs)
  {
    WrappedGenerate(x, y, cs);
    WrappedMerge(x, y, cs);
    assert Meaning(Obj([]), true) == VObj(map[]);
    FieldIs(One(x), x, true);
    assert Has(One(x), x, true);
    assert Meaning(Obj([]), true) != Meaning(Obj(One(x)), true);
    FieldIs(Wrap(x, Obj([])), x, true);
    FieldIs(Wrap(x, Obj(One(x))), x, true);
    assert IndexOf(Wrap(x, Obj([])), x, true) == 0 && IndexOf(Wrap(x, Obj(One(x))), x, true) == 0;
  }

  ghost predicate AllMergeTrip(keys: set<string>, cs: bool) {
    forall from, to :: Over(from, keys) && Over(to, keys) && NullOk(from, to) ==>
      MergeTrips(from, from, to, cs, cs)
  }

  /**
   JSON Merge Patch makes the round trip for all documents over a set of keys (whose nulls
   allow it) exactly when `strcmp` and the order that ignores case agree on the keys.
   */
  lemma MergeKeysExact(keys: set<string>, cs: bool)
    ensures AllMergeTrip(keys, cs) <==> OrderCompatible(keys)
  {
    if OrderCompatible(keys) {
      forall from, to | Over(from, keys) && Over(to, keys) && NullOk(from, to) ensures MergeTrips(from, from, to, cs, cs) {
        MergeRoundTripExact(from, from, to, keys, cs, cs);
      }
    }
    if AllMergeTrip(keys, cs) {
      forall x, y | x in keys && y in keys && Before(x, y, true) ensures Before(x, y, false) {
        OnlyCompatible(keys, x, y, cs);
      }
    }
  }

  lemma OnlyCompatible(keys: set<string>, x: string, y: string, cs: bool)
    requires AllMergeTrip(keys, cs) && x in keys && y in keys && Before(x, y, true)
    ensures Before(x, y, false)
  {
    if !Before(x, y, false) {
      IncompatibleFails(x, y, cs);
      TripNulls(x, y);
      TripOver(keys, x, y);
    }
  }

  lemma TripOver(keys: set<string>, x: string, y: string)
    requires x in keys && y in keys && Before(x, y, true)
    ensures Over(Obj(Wrap(x, Obj(Two(y, x)))), keys) && Over(Obj(Wrap(x, Obj(One(x)))), keys)
  {
    StrCmpZero(x, x);
    assert x != y;
    assert DistinctKeys(Two(y, x), true);
    assert Over(Obj(Two(y, x)), keys);
    assert Over(Obj(One(x)), keys);
  }

  lemma TripNulls(x: string, y: string)
    ensures NullOk(Obj(Wrap(x, Obj(Two(y, x)))), Obj(Wrap(x, Obj(One(x)))))
  {
    HasMember(Two(y, x), 1, true);
    assert Get(Two(y, x), x, true) == Some(Bool(true));
    assert MemberOk(Two(y, x), One(x)[0]);
    assert NullOk(Obj(Two(y, x)), Obj(One(x)));
    assert Get(Wrap(x, Obj(Two(y, x))), x, true) == Some(Obj(Two(y, x)));
    assert MemberOk(Wrap(x, Obj(Two(y, x))), Wrap(x, Obj(One(x)))[0]);
  }
}
