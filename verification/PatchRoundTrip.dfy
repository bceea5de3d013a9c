/** The main result on JSON Patch, with the exact condition on the keys. */
module PatchRoundTrip {
  import opened Wrappers
  import opened Keys
  import opened Json
  import opened Pointer
  import opened PointerDecode
  import opened SortList
  import opened SortedObjects
  import opened PatchApply
  import opened PatchCreate
  import opened PatchSteps
  import opened PatchSound
  import opened PatchTheorem

  /** Applying the generated patches to `from` succeeds and gives a document that means what `to` means. */
  ghost predicate RoundTrips(from: Json, to: Json, cs: bool) {
    var r := ApplyPatches(from, GeneratePatches(from, to, cs), cs);
    r.status == 0 && Meaning(r.doc, true) == Meaning(to, true)
  }

  lemma GeneratedRun(from: Json, to: Json, cs: bool)
    ensures ApplyPatches(from, GeneratePatches(from, to, cs), cs) ==
            ApplyEdits(from, CreateEdits("", from, to, cs), cs)
  {
    EditsLocal(from, to, cs);
    ReadBackAll(from, CreateEdits("", from, to, cs), cs);
  }

  lemma PatchRoundTrip(from: Json, to: Json, keys: set<string>, cs: bool)
    requires GoodKeys(keys) && Over(from, keys) && Over(to, keys)
    ensures RoundTrips(from, to, cs)
  {
    GeneratedRun(from, to, cs);
    EditsReach(from, to, keys, cs);
  }

  // ----- documents on which it fails -----

  function Single(k: string): seq<Member> { [Member(k, Null)] }

  lemma SingleMeaning(a: string, b: string)
    requires a != b
    ensures Meaning(Obj(Single(a)), true) != Meaning(Obj(Single(b)), true)
  {
    FieldIs(Single(a), a, true);
    FieldIs(Single(b), a, true);
    assert Single(a)[0].key == a && Single(b)[0].key == b;
    assert Single(b)[1..] == [];
  }

  lemma SortShort(ms: seq<Member>, cs: bool)
    requires |ms| <= 1
    ensures SortMembers(ms, cs) == ms
  {
  }

  lemma AddOnly(k: string, cs: bool)
    ensures CreateEdits("", Obj([]), Obj(Single(k)), cs) == [Edit(ADD, KeyPath("", k), Some(Null))]
  {
    SortShort([], cs);
    SortShort(Single(k), cs);
    assert Single(k)[1..] == [];
    assert MemberEdits("", [], [], cs) == [];
  }

  lemma AddToEmpty(k: string, cs: bool)
    ensures ApplyEdit(Obj([]), Edit(ADD, KeyPath("", k), Some(Null)), cs) == Outcome(0, Obj(Single(Decode(Encode(k)))))
  {
    EncodeNoSlash(k);
    SplitLast("", Encode(k));
    var d := Decode(Encode(k));
    assert [] + [Member(d, Null)] == Single(d);
    assert AddChild(Obj([]), Encode(k), Null, cs) == Outcome(0, Obj(Single(d)));
  }

  /** A key that is not decoded back cannot even be added. */
  lemma UnsafeKeyFails(k: string, cs: bool)
    requires !Safe(k)
    ensures !RoundTrips(Obj([]), Obj(Single(k)), cs)
  {
    AddOnly(k, cs);
    AddToEmpty(k, cs);
    GeneratedRun(Obj([]), Obj(Single(k)), cs);
    OneEdit(Obj([]), Edit(ADD, KeyPath("", k), Some(Null)), [], cs);
    DecodeExact(k);
    SingleMeaning(Decode(Encode(k)), k);
  }

  function Pair(a: string, b: string): seq<Member> { [Member(a, Null), Member(b, Null)] }

  lemma MergePair(a: string, b: string, cs: bool)
    requires !Before(a, b, cs)
    ensures Merge(Single(a), Single(b), MemberKey, cs) == Pair(b, a)
  {
    assert Single(b)[1..] == [];
    assert Merge(Single(a), [], MemberKey, cs) == Single(a);
    assert Single(b)[..1] + Single(a) == Pair(b, a);
  }

  lemma SortPairReversed(a: string, b: string, cs: bool)
    requires !Before(a, b, cs)
    ensures SortMembers(Pair(a, b), cs) == Pair(b, a)
  {
    var s := Pair(a, b);
    assert !Before(MemberKey(s[0]), MemberKey(s[1]), cs);
    assert s[..1] == Single(a) && s[1..] == Single(b);
    SortShort(Single(a), cs);
    SortShort(Single(b), cs);
    assert Sort(s, MemberKey, cs) == Merge(Single(a), Single(b), MemberKey, cs);
    MergePair(a, b, cs);
  }

  lemma SortPairKept(a: string, b: string, cs: bool)
    requires Before(a, b, cs)
    ensures SortMembers(Pair(a, b), cs) == Pair(a, b)
  {
    var s := Pair(a, b);
    assert forall i :: 0 < i < |s| ==> Before(MemberKey(s[i - 1]), MemberKey(s[i]), cs);
  }

  lemma RemoveOnly(k: string, cs: bool)
    ensures MemberEdits("", Single(k), [], cs) == [Edit(REMOVE, KeyPath("", k), None)]
  {
    assert Single(k)[1..] == [];
    assert MemberEdits("", [], [], cs) == [];
  }

  lemma KeepOnly(a: string, b: string, cs: bool)
    requires SameKey(a, b, cs)
    ensures MemberEdits("", Single(a), Single(b), cs) == []
  {
    assert Single(a)[1..] == [] && Single(b)[1..] == [];
    assert MemberEdits("", [], [], cs) == [];
  }

  lemma ToSorted(a: string, b: string, fs: seq<Member>, cs: bool)
    requires fs == SortMembers(Pair(a, b), cs)
    ensures CreateEdits("", Obj(Pair(a, b)), Obj(Single(a)), cs) == MemberEdits("", fs, Single(a), cs)
  {
    SortShort(Single(a), cs);
    SizePermuted(Pair(a, b), fs);
  }

  lemma DropSecond(x: string, k: string, a: string, cs: bool)
    requires SameKey(x, a, cs)
    ensures MemberEdits("", Pair(x, k), Single(a), cs) == [Edit(REMOVE, KeyPath("", k), None)]
  {
    assert Pair(x, k)[1..] == Single(k) && Single(a)[1..] == [];
    RemoveOnly(k, cs);
    assert CreateEdits(KeyPath("", x), Null, Null, cs) == [];
  }

  lemma DropFirst(k: string, a: string, cs: bool)
    requires Before(k, a, cs)
    ensures MemberEdits("", Pair(k, a), Single(a), cs) == [Edit(REMOVE, KeyPath("", k), None)]
  {
    assert Pair(k, a)[1..] == Single(a);
    KeyOrder(k, a, k, cs);
    KeyOrder(a, a, a, cs);
    KeepOnly(a, a, cs);
  }

  /** What is generated to remove the second of two keys that differ in case only. */
  lemma ClashEdits(a: string, b: string, cs: bool)
    requires a != b && Lower(a) == Lower(b)
    ensures CreateEdits("", Obj(Pair(a, b)), Obj(Single(a)), cs) ==
            [Edit(REMOVE, KeyPath("", if cs then b else a), None)]
  {
    KeyOrder(a, b, a, cs);
    KeyOrder(a, a, a, cs);
    KeyOrder(b, a, b, cs);
    if Before(a, b, cs) {
      SortPairKept(a, b, cs);
      ToSorted(a, b, Pair(a, b), cs);
      DropSecond(a, b, a, cs);
    } else {
      SortPairReversed(a, b, cs);
      ToSorted(a, b, Pair(b, a), cs);
      if cs {
        DropFirst(b, a, cs);
      } else {
        DropSecond(b, a, a, cs);
      }
    }
  }

  lemma ClashDetaches(a: string, b: string, k: string)
    requires Lower(a) == Lower(b) == Lower(k) && Safe(k)
    ensures DetachChild(Obj(Pair(a, b)), Encode(k)) == Some(Detached(Null, Obj(Single(b))))
  {
    DecodeExact(k);
    assert Norm(Pair(a, b)[0].key, false) == Norm(k, false);
    assert IndexOf(Pair(a, b), k, false) == 0;
    assert RemoveAt(Pair(a, b), 0) == Single(b);
  }

  lemma ClashRemoves(a: string, b: string, k: string, cs: bool)
    requires Lower(a) == Lower(b) == Lower(k) && Safe(k)
    ensures ApplyEdit(Obj(Pair(a, b)), Edit(REMOVE, KeyPath("", k), None), cs) == Outcome(0, Obj(Single(b)))
  {
    RootParent(k);
    ClashDetaches(a, b, k);
    assert DetachPath(Obj(Pair(a, b)), KeyPath("", k), cs) == Some(Detached(Null, Obj(Single(b))));
  }

  /** Of two keys that differ in case only, the removal takes the first, whichever was meant. */
  lemma CaseClashFails(a: string, b: string, cs: bool)
    requires a != b && Lower(a) == Lower(b) && Safe(a) && Safe(b)
    ensures !RoundTrips(Obj(Pair(a, b)), Obj(Single(a)), cs)
  {
    var k := if cs then b else a;
    ClashEdits(a, b, cs);
    ClashRemoves(a, b, k, cs);
    GeneratedRun(Obj(Pair(a, b)), Obj(Single(a)), cs);
    OneEdit(Obj(Pair(a, b)), Edit(REMOVE, KeyPath("", k), None), [], cs);
    SingleMeaning(b, a);
  }

  // ----- exactly when -----

  ghost predicate AllRoundTrip(keys: set<string>, cs: bool) {
    forall from, to :: Over(from, keys) && Over(to, keys) ==> RoundTrips(from, to, cs)
  }

  lemma OnlySafe(keys: set<string>, k: string, cs: bool)
    requires AllRoundTrip(keys, cs) && k in keys
    ensures Safe(k)
  {
    if !Safe(k) {
      UnsafeKeyFails(k, cs);
      assert Over(Obj([]), keys);
      assert Over(Obj(Single(k)), keys);
    }
  }

  lemma OnlyCaseDistinct(keys: set<string>, a: string, b: string, cs: bool)
    requires AllRoundTrip(keys, cs) && a in keys && b in keys && Lower(a) == Lower(b)
    ensures a == b
  {
    hide RoundTrips, Lower;
    OnlySafe(keys, a, cs);
    OnlySafe(keys, b, cs);
    if a != b {
      CaseClashFails(a, b, cs);
      ClashOver(a, b, keys);
    }
  }

  lemma ClashOver(a: string, b: string, keys: set<string>)
    requires a in keys && b in keys && a != b
    ensures Over(Obj(Pair(a, b)), keys) && Over(Obj(Single(a)), keys)
  {
    assert DistinctKeys(Pair(a, b), true) && KeysIn(Pair(a, b), keys);
    assert DistinctKeys(Single(a), true) && KeysIn(Single(a), keys);
    assert Over(Null, keys);
  }

  lemma OnlyGoodKeys(keys: set<string>, cs: bool)
    requires AllRoundTrip(keys, cs)
    ensures GoodKeys(keys)
  {
    forall k | k in keys ensures Safe(k) {
      OnlySafe(keys, k, cs);
    }
    forall a, b | a in keys && b in keys && Lower(a) == Lower(b) ensures a == b {
      OnlyCaseDistinct(keys, a, b, cs);
    }
  }

  /**
   JSON Patch makes the round trip for all documents over a set of keys exactly when no two
   of the keys differ in case only and all of them are decoded back.
   */
  lemma PatchRoundTripExact(keys: set<string>, cs: bool)
    ensures AllRoundTrip(keys, cs) <==> GoodKeys(keys)
  {
    if GoodKeys(keys) {
      forall from, to | Over(from, keys) && Over(to, keys) ensures RoundTrips(from, to, cs) {
        PatchRoundTrip(from, to, keys, cs);
      }
    }
    if AllRoundTrip(keys, cs) {
      OnlyGoodKeys(keys, cs);
    }
  }
}
