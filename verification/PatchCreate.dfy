/** Generating JSON Patch documents, as cJSON_Utils.c does. */
module PatchCreate {
  import opened Wrappers
  import opened Keys
  import opened Json
  import opened Compare
  import opened Decimal
  import opened Pointer
  import opened SortedObjects
  import opened CreateEffect
  import opened PatchApply

  /** What `compose_patch` is asked for: an operation, a full path and possibly a value. */
  datatype Edit = Edit(op: Op, path: string, value: Option<Json>)

  /** The patch object that `compose_patch` appends. */
  function PatchObject(e: Edit): Json {
    Obj([Member("op", Str(OpName(e.op))), Member("path", Str(e.path))] +
        (if e.value.Some? then [Member("value", e.value.value)] else []))
  }

  function PatchObjects(es: seq<Edit>): (r: seq<Json>)
    ensures |r| == |es|
  {
    if es == [] then [] else [PatchObject(es[0])] + PatchObjects(es[1..])
  }

  function KeyPath(path: string, key: string): string { path + "/" + Encode(key) }

  function IndexPath(path: string, index: nat): string { path + "/" + Dec(index) }

  /** `create_patches`. */
  function CreateEdits(path: string, from: Json, to: Json, cs: bool): seq<Edit>
    decreases Size(from), 0
  {
    if Kind(from) != Kind(to) then [Edit(REPLACE, path, Some(to))]
    else match from
      case Num(n) => if n != to.n then [Edit(REPLACE, path, Some(to))] else []
      case Str(s) => if s != to.s then [Edit(REPLACE, path, Some(to))] else []
      case Arr(items) => ItemEdits(path, items, to.items, 0, cs)
      case Obj(ms) =>
        SizePermuted(ms, SortMembers(ms, cs));
        MemberEdits(path, SortMembers(ms, cs), SortMembers(to.members, cs), cs)
      case _ => []
  }

  /** The three loops over arrays: common elements, leftovers to remove, leftovers to add. */
  function ItemEdits(path: string, fs: seq<Json>, ts: seq<Json>, index: nat, cs: bool): seq<Edit>
    decreases ItemsSize(fs), |fs| + |ts| + 1
  {
    if fs != [] && ts != [] then
      CreateEdits(IndexPath(path, index), fs[0], ts[0], cs) + ItemEdits(path, fs[1..], ts[1..], index + 1, cs)
    else if fs != [] then
      [Edit(REMOVE, KeyPath(path, Dec(index)), None)] + ItemEdits(path, fs[1..], ts, index, cs)
    else if ts != [] then
      [Edit(ADD, KeyPath(path, "-"), Some(ts[0]))] + ItemEdits(path, fs, ts[1..], index + 1, cs)
    else []
  }

  /** The walk in step over two sorted objects. */
  function MemberEdits(path: string, fs: seq<Member>, ts: seq<Member>, cs: bool): seq<Edit>
    decreases MembersSize(fs), |fs| + |ts| + 1
  {
    if fs == [] && ts == [] then []
    else if fs != [] && ts != [] && SameKey(fs[0].key, ts[0].key, cs) then
      CreateEdits(KeyPath(path, fs[0].key), fs[0].value, ts[0].value, cs) + MemberEdits(path, fs[1..], ts[1..], cs)
    else if ts == [] || (fs != [] && Before(fs[0].key, ts[0].key, cs)) then
      [Edit(REMOVE, KeyPath(path, fs[0].key), None)] + MemberEdits(path, fs[1..], ts, cs)
    else
      [Edit(ADD, KeyPath(path, ts[0].key), Some(ts[0].value))] + MemberEdits(path, fs, ts[1..], cs)
  }

  /** `cJSONUtils_GeneratePatches` and its case-sensitive variant. */
  function GeneratePatches(from: Json, to: Json, cs: bool): Json {
    Arr(PatchObjects(CreateEdits("", from, to, cs)))
  }

  lemma {:induction false} PatchObjectsConcat(a: seq<Edit>, b: seq<Edit>)
    ensures PatchObjects(a + b) == PatchObjects(a) + PatchObjects(b)
  {
    if a == [] {
      assert a + b == b;
    } else {
      assert (a + b)[1..] == a[1..] + b;
      PatchObjectsConcat(a[1..], b);
    }
  }

  lemma OneMore(all: seq<Json>, items: seq<Json>, e: Edit, es: seq<Edit>)
    requires items + PatchObjects([e] + es) == all
    ensures (items + [PatchObject(e)]) + PatchObjects(es) == all
  {
    assert ([e] + es)[1..] == es;
    assert items + ([PatchObject(e)] + PatchObjects(es)) == (items + [PatchObject(e)]) + PatchObjects(es);
  }

  lemma SomeMore(all: seq<Json>, items: seq<Json>, first: seq<Edit>, es: seq<Edit>)
    requires items + PatchObjects(first + es) == all
    ensures (items + PatchObjects(first)) + PatchObjects(es) == all
  {
    PatchObjectsConcat(first, es);
    assert items + (PatchObjects(first) + PatchObjects(es)) == (items + PatchObjects(first)) + PatchObjects(es);
  }

  /** The array that patches are appended to. */
  class PatchList {
    var items: seq<Json>

    constructor ()
      ensures items == []
    {
      items := [];
    }

    /** `compose_patch`; a suffix is a key that still has to be escaped. */
    method Compose(op: Op, path: string, suffix: Option<string>, value: Option<Json>)
      modifies this
      ensures var full := if suffix.Some? then KeyPath(path, suffix.value) else path;
              items == old(items) + [PatchObject(Edit(op, full, value))]
    {
      var members := [Member("op", Str(OpName(op)))];
      if suffix.None? {
        members := members + [Member("path", Str(path))];
      } else {
        var length := EncodedLength(suffix.value);
        var buffer := new char[length + 1];
        EncodeInto(buffer, 0, suffix.value);
        members := members + [Member("path", Str(path + "/" + buffer[0..length]))];
        assert members[1].value.s == KeyPath(path, suffix.value);
      }
      if value.Some? {
        members := members + [Member("value", value.value)];
      }
      assert members == PatchObject(Edit(op, if suffix.Some? then KeyPath(path, suffix.value) else path, value)).members;
      items := items + [Obj(members)];
    }

    /** `create_patches`, appending as it goes; both trees are sorted on the way. */
    method Create(path: string, from: Json, to: Json, cs: bool) returns (from': Json, to': Json)
      modifies this
      ensures items == old(items) + PatchObjects(CreateEdits(path, from, to, cs))
      ensures from' == Created(from, to, cs) && to' == Created(to, from, cs)
      decreases Size(from), 0
    {
      from', to' := from, to;
      if Kind(from) != Kind(to) {
        Compose(REPLACE, path, None, Some(to));
        return;
      }
      match from
      case Num(n) =>
        if n != to.n {
          Compose(REPLACE, path, None, Some(to));
        }
      case Str(s) =>
        if s != to.s {
          Compose(REPLACE, path, None, Some(to));
        }
      case Arr(fs) =>
        var xs, ys := CreateForItems(path, fs, to.items, cs);
        from', to' := Arr(xs), Arr(ys);
      case Obj(fs) =>
        SizePermuted(fs, SortMembers(fs, cs));
        var xs, ys := CreateForMembers(path, SortMembers(fs, cs), SortMembers(to.members, cs), cs);
        from', to' := Obj(xs), Obj(ys);
      case _ =>
    }

    method CreateForItems(path: string, fs: seq<Json>, ts: seq<Json>, cs: bool) returns (fs': seq<Json>, ts': seq<Json>)
      modifies this
      ensures items == old(items) + PatchObjects(ItemEdits(path, fs, ts, 0, cs))
      ensures fs' == CreatedItems(fs, ts, cs) && ts' == CreatedItems(ts, fs, cs)
      decreases ItemsSize(fs), |fs| + |ts| + 1
    {
      hide CreateEdits, Created, PatchObjects, ItemEdits, CreatedItems;
      fs', ts' := [], [];
      var index, i, k := 0, 0, 0;
      assert fs[0..] == fs && ts[0..] == ts;
      ghost var all := old(items) + PatchObjects(ItemEdits(path, fs, ts, 0, cs));
      while i < |fs| && k < |ts|
        invariant 0 <= index == i == k <= |fs| && k <= |ts|
        invariant items + PatchObjects(ItemEdits(path, fs[i..], ts[k..], index, cs)) == all
        invariant fs' + CreatedItems(fs[i..], ts[k..], cs) == CreatedItems(fs, ts, cs)
        invariant ts' + CreatedItems(ts[k..], fs[i..], cs) == CreatedItems(ts, fs, cs)
      {
        NextItemEdits(path, fs, ts, i, cs);
        SomeMore(all, items, CreateEdits(IndexPath(path, index), fs[i], ts[k], cs),
                 ItemEdits(path, fs[i + 1..], ts[k + 1..], index + 1, cs));
        NextCreatedItem(fs, ts, i, cs);
        NextCreatedItem(ts, fs, i, cs);
        var x, y := Create(IndexPath(path, index), fs[i], ts[k], cs);
        Regroup(fs', x, CreatedItems(fs[i + 1..], ts[k + 1..], cs));
        Regroup(ts', y, CreatedItems(ts[k + 1..], fs[i + 1..], cs));
        fs', ts' := fs' + [x], ts' + [y];
        index, i, k := index + 1, i + 1, k + 1;
      }
      RemoveLeftovers(path, fs[i..], ts[k..], index, cs);
      NoCommonItems(fs[i..], ts[k..], cs);
      return fs' + fs[i..], ts' + ts[k..];
    }

    /** The elements of `from` behind the end of `to`; each removal moves the next one up to the same index. */
    method RemoveLeftovers(path: string, fs: seq<Json>, ts: seq<Json>, index: nat, cs: bool)
      requires fs == [] || ts == []
      modifies this
      ensures items == old(items) + PatchObjects(ItemEdits(path, fs, ts, index, cs))
    {
      var i := 0;
      ghost var all := old(items) + PatchObjects(ItemEdits(path, fs, ts, index, cs));
      while i < |fs|
        invariant 0 <= i <= |fs|
        invariant items + PatchObjects(ItemEdits(path, fs[i..], ts, index, cs)) == all
      {
        assert fs[i..][1..] == fs[i + 1..];
        OneMore(all, items, Edit(REMOVE, KeyPath(path, Dec(index)), None), ItemEdits(path, fs[i + 1..], ts, index, cs));
        Compose(REMOVE, path, Some(Dec(index)), None);
        i := i + 1;
      }
      AddLeftovers(path, ts, index, cs);
    }

    /** The elements of `to` behind the end of `from`. */
    method AddLeftovers(path: string, ts: seq<Json>, index: nat, cs: bool)
      modifies this
      ensures items == old(items) + PatchObjects(ItemEdits(path, [], ts, index, cs))
    {
      var k := 0;
      ghost var all := old(items) + PatchObjects(ItemEdits(path, [], ts, index, cs));
      while k < |ts|
        invariant 0 <= k <= |ts|
        invariant items + PatchObjects(ItemEdits(path, [], ts[k..], index + k, cs)) == all
      {
        assert ts[k..][1..] == ts[k + 1..];
        OneMore(all, items, Edit(ADD, KeyPath(path, "-"), Some(ts[k])), ItemEdits(path, [], ts[k + 1..], index + k + 1, cs));
        Compose(ADD, path, Some("-"), Some(ts[k]));
        k := k + 1;
      }
    }

    method CreateForMembers(path: string, fs: seq<Member>, ts: seq<Member>, cs: bool)
      returns (fs': seq<Member>, ts': seq<Member>)
      modifies this
      ensures items == old(items) + PatchObjects(MemberEdits(path, fs, ts, cs))
      ensures fs' == CreatedMembers(fs, ts, cs) && ts' == CreatedMembers(ts, fs, cs)
      decreases MembersSize(fs), |fs| + |ts| + 1
    {
      hide CreateEdits, PatchObject, PatchObjects, Encode, Norm, StrCmp, MembersSize, Created, CreatedMembers, MemberEdits,
           Before, SameKey;
      fs', ts' := [], [];
      var i, k := 0, 0;
      assert fs[0..] == fs && ts[0..] == ts;
      ghost var all := old(items) + PatchObjects(MemberEdits(path, fs, ts, cs));
      while i < |fs| || k < |ts|
        invariant 0 <= i <= |fs| && 0 <= k <= |ts|
        invariant items + PatchObjects(MemberEdits(path, fs[i..], ts[k..], cs)) == all
        invariant fs' + CreatedMembers(fs[i..], ts[k..], cs) == CreatedMembers(fs, ts, cs)
        invariant ts' + CreatedMembers(ts[k..], fs[i..], cs) == CreatedMembers(ts, fs, cs)
        decreases |fs| - i + |ts| - k
      {
        NextMemberEdits(path, fs, ts, i, k, cs);
        NextCreatedMember(fs, ts, i, k, cs);
        NextCreatedMember(ts, fs, k, i, cs);
        var diff := Difference(fs, ts, i, k, cs);
        if diff == 0 {
          SomeMore(all, items, CreateEdits(KeyPath(path, fs[i].key), fs[i].value, ts[k].value, cs),
                   MemberEdits(path, fs[i + 1..], ts[k + 1..], cs));
          var x, y := Create(KeyPath(path, fs[i].key), fs[i].value, ts[k].value, cs);
          Regroup(fs', Member(fs[i].key, x), CreatedMembers(fs[i + 1..], ts[k + 1..], cs));
          Regroup(ts', Member(ts[k].key, y), CreatedMembers(ts[k + 1..], fs[i + 1..], cs));
          fs', ts' := fs' + [Member(fs[i].key, x)], ts' + [Member(ts[k].key, y)];
          i, k := i + 1, k + 1;
        } else if diff < 0 {
          OneMore(all, items, Edit(REMOVE, KeyPath(path, fs[i].key), None), MemberEdits(path, fs[i + 1..], ts[k..], cs));
          Compose(REMOVE, path, Some(fs[i].key), None);
          Regroup(fs', fs[i], CreatedMembers(fs[i + 1..], ts[k..], cs));
          fs' := fs' + [fs[i]];
          i := i + 1;
        } else {
          OneMore(all, items, Edit(ADD, KeyPath(path, ts[k].key), Some(ts[k].value)), MemberEdits(path, fs[i..], ts[k + 1..], cs));
          Compose(ADD, path, Some(ts[k].key), Some(ts[k].value));
          Regroup(ts', ts[k], CreatedMembers(ts[k + 1..], fs[i..], cs));
          ts' := ts' + [ts[k]];
          k := k + 1;
        }
      }
      NoMembersLeft(path, fs[i..], ts[k..], cs);
      Unchanged(items);
    }
  }

  /** Which of the two sorted lists the walk goes on in; a list at its end counts as greater. */
  method Difference(fs: seq<Member>, ts: seq<Member>, i: nat, k: nat, cs: bool) returns (diff: int)
    requires i <= |fs| && k <= |ts| && (i < |fs| || k < |ts|)
    ensures diff == 0 <==> i < |fs| && k < |ts| && SameKey(fs[i].key, ts[k].key, cs)
    ensures diff < 0 <==> i < |fs| && (k == |ts| || Before(fs[i].key, ts[k].key, cs))
    ensures diff > 0 <==> k < |ts| && (i == |fs| || Before(ts[k].key, fs[i].key, cs))
    ensures diff == 0 ==> SameKey(ts[k].key, fs[i].key, cs)
    ensures diff != 0 && i < |fs| && k < |ts| ==> !SameKey(ts[k].key, fs[i].key, cs)
  {
    if i == |fs| {
      return 1;
    }
    if k == |ts| {
      return -1;
    }
    diff := CompareStrings(fs[i].key, ts[k].key, cs);
    KeyOrder(fs[i].key, ts[k].key, "", cs);
    KeyOrder(ts[k].key, fs[i].key, "", cs);
  }

  lemma NextItemEdits(path: string, fs: seq<Json>, ts: seq<Json>, i: nat, cs: bool)
    requires i < |fs| && i < |ts|
    ensures ItemEdits(path, fs[i..], ts[i..], i, cs) ==
            CreateEdits(IndexPath(path, i), fs[i], ts[i], cs) + ItemEdits(path, fs[i + 1..], ts[i + 1..], i + 1, cs)
  {
    hide CreateEdits;
    assert fs[i..][1..] == fs[i + 1..] && ts[i..][1..] == ts[i + 1..];
  }

  lemma NextMemberEdits(path: string, fs: seq<Member>, ts: seq<Member>, i: nat, k: nat, cs: bool)
    requires i <= |fs| && k <= |ts| && (i < |fs| || k < |ts|)
    ensures MemberEdits(path, fs[i..], ts[k..], cs) ==
            if i < |fs| && k < |ts| && SameKey(fs[i].key, ts[k].key, cs) then
              CreateEdits(KeyPath(path, fs[i].key), fs[i].value, ts[k].value, cs) +
              MemberEdits(path, fs[i + 1..], ts[k + 1..], cs)
            else if k == |ts| || (i < |fs| && Before(fs[i].key, ts[k].key, cs)) then
              [Edit(REMOVE, KeyPath(path, fs[i].key), None)] + MemberEdits(path, fs[i + 1..], ts[k..], cs)
            else
              [Edit(ADD, KeyPath(path, ts[k].key), Some(ts[k].value))] + MemberEdits(path, fs[i..], ts[k + 1..], cs)
  {
    hide CreateEdits, SameKey, Before;
    assert i < |fs| ==> fs[i..][0] == fs[i] && fs[i..][1..] == fs[i + 1..];
    assert k < |ts| ==> ts[k..][0] == ts[k] && ts[k..][1..] == ts[k + 1..];
  }

  lemma NoCommonItems(xs: seq<Json>, ys: seq<Json>, cs: bool)
    requires xs == [] || ys == []
    ensures CreatedItems(xs, ys, cs) == xs && CreatedItems(ys, xs, cs) == ys
  {
  }

  lemma NoMembersLeft(path: string, fs: seq<Member>, ts: seq<Member>, cs: bool)
    requires fs == [] && ts == []
    ensures PatchObjects(MemberEdits(path, fs, ts, cs)) == []
    ensures CreatedMembers(fs, ts, cs) == [] && CreatedMembers(ts, fs, cs) == []
  {
  }

  lemma Unchanged<T>(s: seq<T>)
    ensures s + [] == s
  {
  }
}
