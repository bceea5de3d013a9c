/** When there is nothing to patch: no operation is generated exactly for documents that mean the same. */
module PatchEmpty {
  import opened Keys
  import opened Json
  import opened Compare
  import opened SortedObjects
  import opened PatchCreate

  lemma {:induction false} NoEdits(path: string, from: Json, to: Json, cs: bool)
    ensures CreateEdits(path, from, to, cs) == [] <==> CompareJson(from, to, cs)
    decreases Size(from), 0
  {
    hide SortMembers, KeyPath, IndexPath;
    if Kind(from) == Kind(to) {
      match from
      case Arr(items) =>
        NoItemEdits(path, items, to.items, 0, cs);
      case Obj(ms) =>
        SizePermuted(ms, SortMembers(ms, cs));
        NoMemberEdits(path, SortMembers(ms, cs), SortMembers(to.members, cs), cs);
        SortedCompare(ms, to.members, cs);
      case _ =>
    }
  }

  predicate SameItems(fs: seq<Json>, ts: seq<Json>, cs: bool) {
    |fs| == |ts| && forall i :: 0 <= i < |fs| ==> CompareJson(fs[i], ts[i], cs)
  }

  lemma SameItemsFirst(fs: seq<Json>, ts: seq<Json>, cs: bool)
    requires fs != [] && ts != []
    ensures SameItems(fs, ts, cs) <==> CompareJson(fs[0], ts[0], cs) && SameItems(fs[1..], ts[1..], cs)
  {
    hide CompareJson;
    if CompareJson(fs[0], ts[0], cs) && SameItems(fs[1..], ts[1..], cs) {
      forall i | 0 <= i < |fs| ensures CompareJson(fs[i], ts[i], cs) {
        if i > 0 {
          assert fs[i] == fs[1..][i - 1] && ts[i] == ts[1..][i - 1];
        }
      }
    }
  }

  lemma {:induction false} NoItemEdits(path: string, fs: seq<Json>, ts: seq<Json>, index: nat, cs: bool)
    ensures ItemEdits(path, fs, ts, index, cs) == [] <==> SameItems(fs, ts, cs)
    decreases ItemsSize(fs), |fs| + |ts| + 1
  {
    hide CompareJson, CreateEdits, KeyPath, IndexPath, SameItems;
    if fs != [] && ts != [] {
      NoEdits(IndexPath(path, index), fs[0], ts[0], cs);
      NoItemEdits(path, fs[1..], ts[1..], index + 1, cs);
      SameItemsFirst(fs, ts, cs);
    } else {
      NoneSame(fs, ts, cs);
    }
  }

  lemma NoneSame(fs: seq<Json>, ts: seq<Json>, cs: bool)
    requires fs == [] || ts == []
    ensures SameItems(fs, ts, cs) <==> fs == [] && ts == []
  {
  }

  predicate SameMembers(fs: seq<Member>, ts: seq<Member>, cs: bool) {
    |fs| == |ts| &&
    forall i :: 0 <= i < |fs| ==> SameKey(fs[i].key, ts[i].key, cs) && CompareJson(fs[i].value, ts[i].value, cs)
  }

  lemma SortedCompare(fs: seq<Member>, ts: seq<Member>, cs: bool)
    ensures CompareJson(Obj(fs), Obj(ts), cs) <==> SameMembers(SortMembers(fs, cs), SortMembers(ts, cs), cs)
  {
    hide SortMembers;
  }

  lemma SameMembersFirst(fs: seq<Member>, ts: seq<Member>, cs: bool)
    requires fs != [] && ts != []
    ensures SameMembers(fs, ts, cs) <==>
            SameKey(fs[0].key, ts[0].key, cs) && CompareJson(fs[0].value, ts[0].value, cs) &&
            SameMembers(fs[1..], ts[1..], cs)
  {
    hide CompareJson, SameKey;
    if SameKey(fs[0].key, ts[0].key, cs) && CompareJson(fs[0].value, ts[0].value, cs) &&
       SameMembers(fs[1..], ts[1..], cs)
    {
      forall i | 0 <= i < |fs|
        ensures SameKey(fs[i].key, ts[i].key, cs) && CompareJson(fs[i].value, ts[i].value, cs)
      {
        if i > 0 {
          assert fs[i] == fs[1..][i - 1] && ts[i] == ts[1..][i - 1];
        }
      }
    }
  }

  lemma {:induction false} NoMemberEdits(path: string, fs: seq<Member>, ts: seq<Member>, cs: bool)
    ensures MemberEdits(path, fs, ts, cs) == [] <==> SameMembers(fs, ts, cs)
    decreases MembersSize(fs), |fs| + |ts| + 1
  {
    hide CompareJson, CreateEdits, KeyPath, SameMembers, SameKey, Before;
    if fs != [] && ts != [] {
      SameMembersFirst(fs, ts, cs);
      if SameKey(fs[0].key, ts[0].key, cs) {
        NoEdits(KeyPath(path, fs[0].key), fs[0].value, ts[0].value, cs);
        NoMemberEdits(path, fs[1..], ts[1..], cs);
      }
    } else {
      NoneSameMember(fs, ts, cs);
    }
  }

  lemma NoneSameMember(fs: seq<Member>, ts: seq<Member>, cs: bool)
    requires fs == [] || ts == []
    ensures SameMembers(fs, ts, cs) <==> fs == [] && ts == []
  {
  }

  /** The generated patch is empty exactly when the documents mean the same. */
  lemma EmptyPatchExact(from: Json, to: Json, cs: bool)
    requires UniqueKeys(from, cs) && UniqueKeys(to, cs)
    ensures GeneratePatches(from, to, cs) == Arr([]) <==> Meaning(from, cs) == Meaning(to, cs)
  {
    hide CreateEdits, CompareJson, Meaning;
    NoEdits("", from, to, cs);
    CompareJsonExact(from, to, cs);
  }
}
