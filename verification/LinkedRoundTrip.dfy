/** Generated patches on documents with their links; and what sorting one of them in place does to a later append. */
module LinkedRoundTrip {
  import opened Wrappers
  import opened Keys
  import opened Json
  import opened SortList
  import opened Pointer
  import opened PointerDecode
  import opened SortedObjects
  import opened CompareEffect
  import opened PatchApply
  import opened PatchCreate
  import opened PatchSteps
  import opened PatchSound
  import opened PatchRoundTrip
  import opened TailLink
  import opened LinkedTree
  import opened LinkOrder
  import opened LinkedTreeLaws

  // ----- applied to a copy -----

  /** The patches generated for two documents, applied to a copy of the first: the second, with all links right. */
  ghost predicate LinkedRoundTrips(from: Json, to: Json, cs: bool) {
    match ApplyAllTree(Fresh(from), GeneratePatches(from, to, cs).items, cs)
    case Undefined => false
    case Done(status, t) => status == 0 && Proper(t) && Meaning(Plain(t), true) == Meaning(to, true)
  }

  lemma {:induction false} LocalNoTests(es: seq<Edit>, cs: bool)
    requires AllLocal(es)
    ensures NoTests(PatchObjects(es), cs)
  {
    if es != [] {
      OpBack(es[0], cs);
      LocalNoTests(es[1..], cs);
    }
  }

  /** On a copy the links change nothing. */
  lemma {:induction false} CopyRoundTrips(from: Json, to: Json, cs: bool)
    ensures LinkedRoundTrips(from, to, cs) <==> RoundTrips(from, to, cs)
  {
    hide Fresh, Plain, Proper, Meaning, CreateEdits, ApplyAllTree, ApplyAll, PatchObjects;
    var es := CreateEdits("", from, to, cs);
    EditsLocal(from, to, cs);
    LocalNoTests(es, cs);
    FreshTree(from);
    NoTestsKeep(Fresh(from), PatchObjects(es), cs);
    FormedToo(Fresh(from));
    AllRefines(Fresh(from), PatchObjects(es), cs);
  }

  /** Over a set of keys this works for all documents exactly when the keys are good. */
  lemma {:induction false} LinkedRoundTripExact(keys: set<string>, cs: bool)
    ensures (forall from, to :: Over(from, keys) && Over(to, keys) ==> LinkedRoundTrips(from, to, cs)) <==> GoodKeys(keys)
  {
    hide LinkedRoundTrips, RoundTrips, Over, GoodKeys;
    forall from, to ensures LinkedRoundTrips(from, to, cs) <==> RoundTrips(from, to, cs) {
      CopyRoundTrips(from, to, cs);
    }
    PatchRoundTripExact(keys, cs);
  }

  // ----- how a member is lost -----

  /** Adding a member under a new key to an object at the root. */
  lemma {:induction false} RootAddition(fields: seq<Entry>, tail: Tail, k: string, v: Json, cs: bool)
    requires fields != [] && !tail.Gone? && Safe(k) && !Has(PlainFields(fields), k, cs)
    ensures ApplyOpTree(Dict(fields, tail), ADD, KeyPath("", k), Some(v), None, cs) ==
            Done(0, Dict(AfterAppend(fields, tail, Entry(k, Fresh(v))), TailAfterAppend(fields, tail)))
    ensures ApplyOp(Obj(PlainFields(fields)), ADD, KeyPath("", k), Some(v), None, cs) ==
            Outcome(0, Obj(PlainFields(fields) + [Member(k, v)]))
  {
    hide Fresh, PlainFields, IndexOf, Encode, Decode, Split, AfterAppend;
    RootParent(k);
  }

  /** Where another key belongs in front of the first one, the new member is lost: status 0 and nothing changed. */
  lemma {:induction false} AddLost(ms: seq<Member>, fields: seq<Entry>, i: nat, k: string, v: Json, cs: bool)
    requires Safe(k) && !Has(ms, k, cs) && |fields| == |ms|
    requires forall i :: 0 <= i < |ms| ==> fields[i].key == SortFields(FreshFields(ms), cs)[i].key
    requires 0 < i < |ms| && Before(ms[i].key, ms[0].key, cs)
    ensures AfterSort(SortOrder(FreshFields(ms), cs), Last) == Nowhere
    ensures ApplyOpTree(Dict(fields, Nowhere), ADD, KeyPath("", k), Some(v), None, cs) == Done(0, Dict(fields, Nowhere))
    ensures !Has(PlainFields(fields), k, cs)
  {
    hide Fresh, SortFields, SortOrder, Permutation, Before, Ordered;
    var order := SortOrder(FreshFields(ms), cs);
    PlainFresh(ms);
    SortedPlaces(FreshFields(ms), cs);
    KeyOrder(ms[i].key, ms[0].key, "", cs);
    FirstExact(ms, order, cs);
    forall j | 0 <= j < |ms| ensures order[j] < |ms| && fields[j].key == ms[order[j]].key {
      assert SortFields(FreshFields(ms), cs)[j] == FreshFields(ms)[order[j]];
    }
    StillNew(ms, fields, order, k, cs);
    RootAddition(fields, Nowhere, k, v, cs);
  }

  lemma {:induction false} PlainFresh(ms: seq<Member>)
    ensures PlainFields(FreshFields(ms)) == ms
  {
    FreshTree(Obj(ms));
    assert Plain(Fresh(Obj(ms))) == Obj(PlainFields(FreshFields(ms)));
  }

  lemma {:induction false} StillNew(ms: seq<Member>, fields: seq<Entry>, order: seq<nat>, k: string, cs: bool)
    requires !Has(ms, k, cs) && |fields| == |order| == |ms|
    requires forall i :: 0 <= i < |ms| ==> order[i] < |ms| && fields[i].key == ms[order[i]].key
    ensures !Has(PlainFields(fields), k, cs)
  {
  }

  function TestThenAdd(test: Json, k: string, v: Json): seq<Json> {
    [PatchObject(Edit(TEST, "", Some(test))), PatchObject(Edit(ADD, KeyPath("", k), Some(v)))]
  }

  lemma {:induction false} ReadTree(doc: Tree, e: Edit, cs: bool)
    ensures ApplyPatchTree(doc, PatchObject(e), cs) == ApplyOpTree(doc, e.op, e.path, e.value, None, cs)
    ensures ApplyPatch(Plain(doc), PatchObject(e), cs) == ApplyOp(Plain(doc), e.op, e.path, e.value, None, cs)
  {
    hide ApplyOpTree, ApplyOp, PatchObject, Plain, Field, DecodeOp;
    OpBack(e, cs);
    FieldPath(e, cs);
    FieldValue(e, cs);
    PatchSound.FieldFrom(e, cs);
  }

  lemma {:induction false} OnePatch(doc: Tree, a: Json, cs: bool)
    ensures ApplyAllTree(doc, [a], cs) == ApplyPatchTree(doc, a, cs)
    ensures ApplyAll(Plain(doc), [a], cs) == ApplyPatch(Plain(doc), a, cs)
  {
    hide ApplyPatchTree, ApplyPatch, Plain;
    assert [a][1..] == [];
  }

  lemma {:induction false} TwoPatches(doc: Tree, next: Tree, a: Json, b: Json, cs: bool)
    requires ApplyPatchTree(doc, a, cs) == Done(0, next) && ApplyPatch(Plain(doc), a, cs) == Outcome(0, Plain(next))
    ensures ApplyAllTree(doc, [a, b], cs) == ApplyPatchTree(next, b, cs)
    ensures ApplyAll(Plain(doc), [a, b], cs) == ApplyPatch(Plain(next), b, cs)
  {
    hide ApplyPatchTree, ApplyPatch, Plain;
    assert [a, b][1..] == [b];
    OnePatch(next, b, cs);
  }

  /**
   A document is tested against itself and then given a new member. Without links that works. With them
   the member is lost although the status is 0, once a key belongs in front of the first one.
   */
  lemma {:induction false} TestLosesMember(ms: seq<Member>, i: nat, k: string, v: Json, cs: bool)
    requires UniqueKeys(Obj(ms), cs) && Safe(k) && !Has(ms, k, cs)
    requires 0 < i < |ms| && Before(ms[i].key, ms[0].key, cs)
    ensures var patches := TestThenAdd(Obj(ms), k, v);
            var plain, linked := ApplyAll(Obj(ms), patches, cs), ApplyAllTree(Fresh(Obj(ms)), patches, cs);
            && plain.status == 0 && plain.doc.Obj? && Get(plain.doc.members, k, cs) == Some(v)
            && linked.Done? && linked.status == 0 && linked.tree.Dict?
            && Meaning(Plain(linked.tree), cs) == Meaning(Obj(ms), cs) && !Has(PlainFields(linked.tree.fields), k, cs)
  {
    hide Fresh, SortFields, SortOrder, SortMembers, Before, CompareJson, Meaning, AfterSort, ComparedFields, UniqueKeys,
         FreshFields, PatchObject, ApplyPatchTree, ApplyPatch, ApplyAllTree, ApplyAll, Plain, ApplyOpTree, ApplyOp, IndexOf,
         SelfTested, PlainFields;
    var doc, test, add := Fresh(Obj(ms)), Edit(TEST, "", Some(Obj(ms))), Edit(ADD, KeyPath("", k), Some(v));
    var fields := SelfTested(ms, cs);
    var tested := Dict(fields, Nowhere);
    FreshTree(Obj(ms));
    TestedAgainstItself(ms, i, k, v, cs);
    ReadTree(doc, test, cs);
    ReadTree(tested, add, cs);
    RootAddition(fields, Nowhere, k, v, cs);
    PlainDict(fields, Nowhere);
    AppendedLookup(PlainFields(fields), k, v, cs);
    TwoPatches(doc, tested, PatchObject(test), PatchObject(add), cs);
  }

  /** The members of an object that has been tested against itself. */
  function SelfTested(ms: seq<Member>, cs: bool): (r: seq<Entry>)
    ensures |r| == |ms|
  {
    ComparedFields(SortFields(FreshFields(ms), cs), SortMembers(ms, cs), cs)
  }

  lemma {:induction false} SelfTest(ms: seq<Member>, cs: bool)
    requires UniqueKeys(Obj(ms), cs)
    ensures var tree := Dict(SelfTested(ms, cs), AfterSort(SortOrder(FreshFields(ms), cs), Last));
            && ApplyOpTree(Fresh(Obj(ms)), TEST, "", Some(Obj(ms)), None, cs) == Done(0, tree)
            && ApplyOp(Obj(ms), TEST, "", Some(Obj(ms)), None, cs) == Outcome(0, Plain(tree))
            && Meaning(Plain(tree), cs) == Meaning(Obj(ms), cs)
  {
    hide SortFields, SortOrder, SortMembers, CompareJson, Meaning, AfterSort, ComparedFields, FreshFields, Plain, UniqueKeys,
         Compared;
    CompareJsonExact(Obj(ms), Obj(ms), cs);
    FreshTree(Obj(ms));
    FormedToo(Fresh(Obj(ms)));
    PlainCompared(Fresh(Obj(ms)), Obj(ms), cs);
    ComparedMeaning(Obj(ms), Obj(ms), cs);
    SameDict(ms, cs);
  }

  lemma {:induction false} SameDict(ms: seq<Member>, cs: bool)
    ensures ComparedTree(Fresh(Obj(ms)), Obj(ms), cs) == Dict(SelfTested(ms, cs), AfterSort(SortOrder(FreshFields(ms), cs), Last))
  {
    hide SortFields, SortOrder, SortMembers, AfterSort, ComparedFields, FreshFields;
    FreshTree(Obj(ms));
    assert Fresh(Obj(ms)) == Dict(FreshFields(ms), Last);
  }

  lemma {:induction false} TestedAgainstItself(ms: seq<Member>, i: nat, k: string, v: Json, cs: bool)
    requires UniqueKeys(Obj(ms), cs) && Safe(k) && !Has(ms, k, cs)
    requires 0 < i < |ms| && Before(ms[i].key, ms[0].key, cs)
    ensures var tree := Dict(SelfTested(ms, cs), Nowhere);
            && ApplyOpTree(Fresh(Obj(ms)), TEST, "", Some(Obj(ms)), None, cs) == Done(0, tree)
            && ApplyOp(Obj(ms), TEST, "", Some(Obj(ms)), None, cs) == Outcome(0, Plain(tree))
            && Meaning(Plain(tree), cs) == Meaning(Obj(ms), cs)
    ensures !Has(PlainFields(SelfTested(ms, cs)), k, cs)
    ensures ApplyOpTree(Dict(SelfTested(ms, cs), Nowhere), ADD, KeyPath("", k), Some(v), None, cs) ==
            Done(0, Dict(SelfTested(ms, cs), Nowhere))
  {
    hide SortFields, SortOrder, SortMembers, Before, CompareJson, Meaning, AfterSort, ComparedFields, FreshFields, Fresh,
         Plain, ApplyOpTree, ApplyOp;
    SelfTest(ms, cs);
    AddLost(ms, SelfTested(ms, cs), i, k, v, cs);
  }

  lemma {:induction false} AppendedLookup(ms: seq<Member>, k: string, v: Json, cs: bool)
    requires !Has(ms, k, cs)
    ensures Get(ms + [Member(k, v)], k, cs) == Some(v)
  {
    IndexOfUnique(ms + [Member(k, v)], k, cs, |ms|);
  }

  /** Two members the wrong way round, and the same with a third one behind. */
  function Widened(a: string, b: string, c: string): seq<Member> { Pair(a, b) + [Member(c, Null)] }

  lemma {:induction false} SameHead(a: string, fs: seq<Member>, ts: seq<Member>, cs: bool)
    ensures MemberEdits("", Single(a) + fs, Single(a) + ts, cs) == MemberEdits("", fs, ts, cs)
  {
    hide Before, Norm;
    KeyOrder(a, a, a, cs);
    assert (Single(a) + fs)[1..] == fs && (Single(a) + ts)[1..] == ts;
    assert CreateEdits(KeyPath("", a), Null, Null, cs) == [];
  }

  lemma {:induction false} OnlyNew(c: string, cs: bool)
    ensures MemberEdits("", [], Single(c), cs) == [Edit(ADD, KeyPath("", c), Some(Null))]
  {
    assert Single(c)[1..] == [] && MemberEdits("", [], [], cs) == [];
  }

  lemma {:induction false} WidenedEdits(a: string, b: string, c: string, cs: bool)
    requires Before(a, b, cs) && Before(b, c, cs)
    ensures CreateEdits("", Obj(Pair(b, a)), Obj(Widened(a, b, c)), cs) == [Edit(ADD, KeyPath("", c), Some(Null))]
  {
    hide Before, SameKey, MemberEdits, SortMembers;
    KeyOrder(a, b, c, cs);
    SortPairReversed(b, a, cs);
    WidenedSorted(a, b, c, cs);
    assert Pair(a, b) == Single(a) + (Single(b) + []) && Widened(a, b, c) == Single(a) + (Single(b) + Single(c));
    SameHead(a, Single(b) + [], Single(b) + Single(c), cs);
    SameHead(b, [], Single(c), cs);
    OnlyNew(c, cs);
  }

  lemma {:induction false} WidenedSorted(a: string, b: string, c: string, cs: bool)
    requires Before(a, b, cs) && Before(b, c, cs)
    ensures SortMembers(Widened(a, b, c), cs) == Widened(a, b, c)
  {
    hide Before;
    var s := Widened(a, b, c);
    assert s == [Member(a, Null), Member(b, Null), Member(c, Null)];
    assert Ascending(s, MemberKey, cs);
  }

  /** Patches applied to the very document that they were generated from: the new member is lost, the status 0. */
  lemma {:induction false} GenerationLosesMember(a: string, b: string, c: string, cs: bool)
    requires Before(a, b, cs) && Before(b, c, cs) && Safe(c)
    ensures var from, to := Obj(Pair(b, a)), Obj(Widened(a, b, c));
            var left := CreatedTree(Fresh(from), to, cs);
            && left.Dict? && !Has(PlainFields(left.fields), c, cs)
            && ApplyAllTree(left, GeneratePatches(from, to, cs).items, cs) == Done(0, left)
  {
    hide SortFields, SortOrder, SortMembers, Before, AfterSort, CreatedFields, FreshFields, Plain, PlainFields, ApplyOpTree,
         PatchObject, ApplyPatchTree, ApplyPatch, ApplyAllTree, ApplyAll, CreateEdits;
    var ms, ts := Pair(b, a), Widened(a, b, c);
    var fields := CreatedFields(SortFields(FreshFields(ms), cs), SortMembers(ts, cs), cs);
    NewKey(a, b, c, cs);
    AddLost(ms, fields, 1, c, Null, cs);
    CreatedDict(ms, ts, cs);
    WidenedEdits(a, b, c, cs);
    var e := Edit(ADD, KeyPath("", c), Some(Null));
    assert PatchObjects([e]) == [PatchObject(e)];
    OnePatch(Dict(fields, Nowhere), PatchObject(e), cs);
    ReadTree(Dict(fields, Nowhere), e, cs);
  }

  lemma {:induction false} NewKey(a: string, b: string, c: string, cs: bool)
    requires Before(a, b, cs) && Before(b, c, cs)
    ensures !Has(Pair(b, a), c, cs) && DistinctKeys(Pair(b, a), cs)
  {
    KeyOrder(a, b, c, cs);
    KeyOrder(a, c, c, cs);
    KeyOrder(b, c, c, cs);
  }

  lemma {:induction false} CreatedDict(ms: seq<Member>, ts: seq<Member>, cs: bool)
    ensures CreatedTree(Fresh(Obj(ms)), Obj(ts), cs) ==
            Dict(CreatedFields(SortFields(FreshFields(ms), cs), SortMembers(ts, cs), cs),
                 AfterSort(SortOrder(FreshFields(ms), cs), Last))
  {
    hide SortFields, SortOrder, SortMembers, AfterSort, CreatedFields, FreshFields;
    assert Fresh(Obj(ms)) == Dict(FreshFields(ms), Last);
  }
}
