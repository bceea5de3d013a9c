/** When generating and applying a merge patch gives the target back. */
module MergeTheorem {
  import opened Wrappers
  import opened Keys
  import opened Json
  import opened Compare
  import opened SortedObjects
  import opened PatchSteps
  import opened PatchSound
  import opened MergePatch

  /** On these keys the order of `strcmp` is also the order that ignores case. */
  predicate OrderCompatible(keys: set<string>) {
    forall a, b :: a in keys && b in keys && Before(a, b, true) ==> Before(a, b, false)
  }

  lemma CompatibleIsCaseDistinct(keys: set<string>)
    requires OrderCompatible(keys)
    ensures CaseDistinct(keys)
  {
    forall a, b | a in keys && b in keys && Lower(a) == Lower(b) ensures a == b {
      KeyOrder(a, b, a, true);
      KeyOrder(a, b, a, false);
      KeyOrder(b, a, b, false);
    }
  }

  // ----- meaning and lookups -----

  predicate SameLookup(a: seq<Member>, b: seq<Member>, n: string) {
    (Has(a, n, true) <==> Has(b, n, true)) &&
    (Has(a, n, true) ==> Meaning(Get(a, n, true).value, true) == Meaning(Get(b, n, true).value, true))
  }

  /** Objects mean the same exactly when every lookup does. */
  lemma MeaningByLookup(a: seq<Member>, b: seq<Member>)
    ensures MembersMeaning(a, true) == MembersMeaning(b, true) <==> forall n :: SameLookup(a, b, n)
  {
    if forall n :: SameLookup(a, b, n) {
      forall i | 0 <= i < |a| ensures Has(b, a[i].key, true) && SameAt(a, b, a[i].key, true) {
        HasMember(a, i, true);
        assert SameLookup(a, b, a[i].key);
      }
      forall i | 0 <= i < |b| ensures Has(a, b[i].key, true) {
        HasMember(b, i, true);
        assert SameLookup(a, b, b[i].key);
      }
      SameFields(a, b, true);
    }
    if MembersMeaning(a, true) == MembersMeaning(b, true) {
      forall n ensures SameLookup(a, b, n) {
        FieldIs(a, n, true);
        FieldIs(b, n, true);
      }
    }
  }

  /** Over keys that are told apart ignoring case, the two meanings identify the same trees. */
  lemma {:induction false} MeaningCase(a: Json, b: Json, keys: set<string>, cs: bool)
    requires CaseDistinct(keys) && Over(a, keys) && Over(b, keys)
    ensures Meaning(a, cs) == Meaning(b, cs) <==> Meaning(a, true) == Meaning(b, true)
    decreases Size(a) + Size(b)
  {
    if Kind(a) != Kind(b) {
    } else if a.Arr? {
      forall i | 0 <= i < |a.items| && i < |b.items|
        ensures ItemsMeaning(a.items, cs)[i] == ItemsMeaning(b.items, cs)[i] <==>
                ItemsMeaning(a.items, true)[i] == ItemsMeaning(b.items, true)[i]
      {
        MeaningCase(a.items[i], b.items[i], keys, cs);
      }
      if ItemsMeaning(a.items, cs) == ItemsMeaning(b.items, cs) {
        assert ItemsMeaning(a.items, true) == ItemsMeaning(b.items, true);
      }
      if ItemsMeaning(a.items, true) == ItemsMeaning(b.items, true) {
        assert ItemsMeaning(a.items, cs) == ItemsMeaning(b.items, cs);
      }
    } else if a.Obj? {
      MembersMeaningCase(a.members, b.members, keys, cs, true);
      MembersMeaningCase(a.members, b.members, keys, true, cs);
    }
  }

  lemma {:induction false} MembersMeaningCase(a: seq<Member>, b: seq<Member>, keys: set<string>, c1: bool, c2: bool)
    requires CaseDistinct(keys) && Over(Obj(a), keys) && Over(Obj(b), keys) && (c1 || c2)
    ensures MembersMeaning(a, c1) == MembersMeaning(b, c1) ==> MembersMeaning(a, c2) == MembersMeaning(b, c2)
    decreases MembersSize(a) + MembersSize(b) + 1
  {
    if MembersMeaning(a, c1) == MembersMeaning(b, c1) {
      forall i | 0 <= i < |a| ensures Has(b, a[i].key, c2) && SameAt(a, b, a[i].key, c2) {
        var k := a[i].key;
        HasMember(a, i, c1);
        FieldIs(a, k, c1);
        FieldIs(b, k, c1);
        LookupCase(a, k, keys, c1, c2);
        LookupCase(b, k, keys, c1, c2);
        var v, w := a[IndexOf(a, k, c1)].value, b[IndexOf(b, k, c1)].value;
        MeaningCase(v, w, keys, c1);
        MeaningCase(v, w, keys, c2);
      }
      forall i | 0 <= i < |b| ensures Has(a, b[i].key, c2) {
        HasMember(b, i, c1);
        FieldIs(a, b[i].key, c1);
        FieldIs(b, b[i].key, c1);
        LookupCase(a, b[i].key, keys, c1, c2);
      }
      SameFields(a, b, c2);
    }
  }

  lemma LookupCase(ms: seq<Member>, k: string, keys: set<string>, c1: bool, c2: bool)
    requires CaseDistinct(keys) && KeysIn(ms, keys) && k in keys
    ensures IndexOf(ms, k, c1) == IndexOf(ms, k, c2)
  {
    SameIndex(ms, k, keys, c1);
    SameIndex(ms, k, keys, c2);
  }

  lemma {:induction false} OverUnique(j: Json, keys: set<string>, cs: bool)
    requires CaseDistinct(keys) && Over(j, keys)
    ensures UniqueKeys(j, cs)
    decreases j
  {
    match j
    case Arr(items) =>
      forall i | 0 <= i < |items| ensures UniqueKeys(items[i], cs) { OverUnique(items[i], keys, cs); }
    case Obj(ms) =>
      forall i | 0 <= i < |ms| ensures UniqueKeys(ms[i].value, cs) { OverUnique(ms[i].value, keys, cs); }
    case _ =>
  }

  /** `compare_json` in either mode. */
  lemma CompareOver(a: Json, b: Json, keys: set<string>, cs: bool)
    requires CaseDistinct(keys) && Over(a, keys) && Over(b, keys)
    ensures CompareJson(a, b, cs) <==> Meaning(a, true) == Meaning(b, true)
  {
    OverUnique(a, keys, cs);
    OverUnique(b, keys, cs);
    CompareJsonExact(a, b, cs);
    MeaningCase(a, b, keys, cs);
  }

  // ----- what a merge does to each key -----

  /** RFC 7396, section 2: null removes, anything else is merged into what was there. */
  predicate MergedAt(ms: seq<Member>, ps: seq<Member>, r: seq<Member>, n: string, cs: bool) {
    Get(r, n, true) ==
      match Get(ps, n, true)
      case None => Get(ms, n, true)
      case Some(p) => if p.Null? then None else Some(Merge(Get(ms, n, true), p, cs))
  }

  lemma DropLookups(ms: seq<Member>, k: string, keys: set<string>, cs: bool)
    requires CaseDistinct(keys) && DistinctKeys(ms, true) && KeysIn(ms, keys) && k in keys
    ensures Get(ms, k, cs) == Get(ms, k, true) && Drop(ms, k, cs) == Without(ms, k)
  {
    SameIndex(ms, k, keys, cs);
  }

  lemma {:induction false} MergeEachKey(ms: seq<Member>, ps: seq<Member>, keys: set<string>, cs: bool)
    requires CaseDistinct(keys) && DistinctKeys(ms, true) && KeysIn(ms, keys)
    requires DistinctKeys(ps, true) && KeysIn(ps, keys)
    ensures var r := MergeMembers(ms, ps, cs);
            DistinctKeys(r, true) && KeysIn(r, keys) && forall n :: MergedAt(ms, ps, r, n, cs)
    decreases ps
  {
    if ps != [] {
      var k, p := ps[0].key, ps[0].value;
      DropLookups(ms, k, keys, cs);
      WithoutLookups(ms, k, keys);
      var others := Without(ms, k);
      var ms1 := if p.Null? then others else others + [Member(k, Merge(Get(ms, k, cs), p, cs))];
      if !p.Null? {
        AppendLookups(others, k, Merge(Get(ms, k, cs), p, cs), keys);
      }
      MergeEachKey(ms1, ps[1..], keys, cs);
      DistinctTail(ps);
      var r := MergeMembers(ms, ps, cs);
      forall n ensures MergedAt(ms, ps, r, n, cs) {
        assert MergedAt(ms1, ps[1..], r, n, cs);
      }
    }
  }

  lemma DistinctTail(ps: seq<Member>)
    requires ps != [] && DistinctKeys(ps, true)
    ensures DistinctKeys(ps[1..], true) && !Has(ps[1..], ps[0].key, true)
    ensures Get(ps, ps[0].key, true) == Some(ps[0].value)
    ensures forall n :: n != ps[0].key ==> Get(ps, n, true) == Get(ps[1..], n, true)
  {
    forall n | n != ps[0].key ensures Get(ps, n, true) == Get(ps[1..], n, true) {
      assert IndexOf(ps, n, true) == 1 + IndexOf(ps[1..], n, true);
    }
  }

  // ----- merging into nothing -----

  /** No member that the merge would take for a removal. */
  predicate NoNulls(j: Json)
    decreases j
  {
    j.Obj? ==> forall i :: 0 <= i < |j.members| ==> !j.members[i].value.Null? && NoNulls(j.members[i].value)
  }

  /** A tree merged into nothing is itself exactly when it has no null member. */
  lemma {:induction false} MergeFresh(target: Option<Json>, to: Json, keys: set<string>, cs: bool)
    requires CaseDistinct(keys) && Over(to, keys) && (target.None? || !target.value.Obj?)
    ensures Meaning(Merge(target, to, cs), true) == Meaning(to, true) <==> NoNulls(to)
    decreases Size(to)
  {
    if to.Obj? {
      var ps, r := to.members, MergeMembers([], to.members, cs);
      MergeEachKey([], ps, keys, cs);
      forall i | 0 <= i < |ps|
        ensures SameLookup(r, ps, ps[i].key) <==> !ps[i].value.Null? && NoNulls(ps[i].value)
      {
        IndexOfDistinct(ps, i, true);
        assert MergedAt([], ps, r, ps[i].key, cs);
        MergeFresh(None, ps[i].value, keys, cs);
      }
      MeaningByLookup(r, ps);
      LookupsOfMembers(r, ps, cs);
    }
  }

  lemma LookupsOfMembers(r: seq<Member>, ps: seq<Member>, cs: bool)
    requires forall n :: MergedAt([], ps, r, n, cs)
    ensures (forall n :: SameLookup(r, ps, n)) <==> forall i :: 0 <= i < |ps| ==> SameLookup(r, ps, ps[i].key)
  {
    if forall i :: 0 <= i < |ps| ==> SameLookup(r, ps, ps[i].key) {
      forall n ensures SameLookup(r, ps, n) {
        assert MergedAt([], ps, r, n, cs);
        if Has(ps, n, true) {
          assert SameLookup(r, ps, ps[IndexOf(ps, n, true)].key);
        }
      }
    }
  }
}
