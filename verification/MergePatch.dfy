/** JSON Merge Patch (RFC 7396) in cJSON_Utils.c: applying and generating. */
module MergePatch {
  import opened Wrappers
  import opened Keys
  import opened Json
  import opened Compare
  import opened SortedObjects
  import opened CompareEffect

  function Drop(ms: seq<Member>, k: string, cs: bool): seq<Member> {
    var i := IndexOf(ms, k, cs);
    if i < |ms| then RemoveAt(ms, i) else ms
  }

  /** `merge_patch`; the target may be missing. */
  function Merge(target: Option<Json>, patch: Json, cs: bool): Json
    decreases patch
  {
    if !patch.Obj? then patch
    else Obj(MergeMembers(if target.Some? && target.value.Obj? then target.value.members else [], patch.members, cs))
  }

  /** The loop over the members of the patch. */
  function MergeMembers(ms: seq<Member>, ps: seq<Member>, cs: bool): seq<Member>
    decreases ps
  {
    if ps == [] then ms
    else
      var k := ps[0].key;
      var others := Drop(ms, k, cs);
      MergeMembers(
        if ps[0].value.Null? then others else others + [Member(k, Merge(Get(ms, k, cs), ps[0].value, cs))],
        ps[1..], cs)
  }

  /** The loop as the code runs it. */
  method MergeLoop(target: Option<Json>, patch: Json, cs: bool) returns (r: Json)
    ensures r == Merge(target, patch, cs)
    decreases patch
  {
    if !patch.Obj? {
      return patch;
    }
    var ms := if target.Some? && target.value.Obj? then target.value.members else [];
    var ps := patch.members;
    ghost var all := MergeMembers(ms, ps, cs);
    var i := 0;
    while i < |ps|
      invariant 0 <= i <= |ps| && MergeMembers(ms, ps[i..], cs) == all
    {
      assert ps[i..][0] == ps[i] && ps[i..][1..] == ps[i + 1..];
      var at := GetObjectItem(ms, ps[i].key, cs);
      var others := if at < |ms| then RemoveAt(ms, at) else ms;
      if ps[i].value.Null? {
        ms := others;
      } else {
        var previous := if at < |ms| then Some(ms[at].value) else None;
        var replacement := MergeLoop(previous, ps[i].value, cs);
        ms := others + [Member(ps[i].key, replacement)];
      }
      i := i + 1;
    }
    return Obj(ms);
  }

  /** `generate_merge_patch` on two trees. No result stands for the NULL of equal objects. */
  function Generate(from: Json, to: Json, cs: bool): Option<Json>
    decreases Size(from), 0
  {
    if !to.Obj? || !from.Obj? then Some(to)
    else
      SizePermuted(from.members, SortMembers(from.members, cs));
      var es := MergeEdits(SortMembers(from.members, cs), SortMembers(to.members, cs), cs);
      if es == [] then None else Some(Obj(es))
  }

  /**
   The walk in step. The lists are sorted in the order of the call, but compared with
   `strcmp`, and members are generated with the case-insensitive variant.
   */
  function MergeEdits(fs: seq<Member>, ts: seq<Member>, cs: bool): seq<Member>
    decreases MembersSize(fs), |fs| + |ts| + 1
  {
    if fs == [] && ts == [] then []
    else if ts == [] || (fs != [] && StrCmp(fs[0].key, ts[0].key) < 0) then
      [Member(fs[0].key, Null)] + MergeEdits(fs[1..], ts, cs)
    else if fs == [] || StrCmp(fs[0].key, ts[0].key) > 0 then
      [ts[0]] + MergeEdits(fs, ts[1..], cs)
    else
      Common(fs[0], ts[0], cs) + MergeEdits(fs[1..], ts[1..], cs)
  }

  /**
   A key of both objects: nothing to do, or the patch from one value to the other, both as the
   comparison has left them.
   */
  function Common(f: Member, t: Member, cs: bool): seq<Member>
    decreases Size(f.value), 1
  {
    if CompareJson(f.value, t.value, cs) then []
    else match Generate(Compared(f.value, t.value, cs), Compared(t.value, f.value, cs), false)
      case None => []
      case Some(p) => [Member(t.key, p)]
  }

  method GenerateLoop(from: Json, to: Json, cs: bool) returns (r: Option<Json>)
    ensures r == Generate(from, to, cs)
    decreases Size(from), 0
  {
    if !to.Obj? || !from.Obj? {
      return Some(to);
    }
    SizePermuted(from.members, SortMembers(from.members, cs));
    var patch := WalkLoop(SortMembers(from.members, cs), SortMembers(to.members, cs), cs);
    if patch == [] {
      return None;
    }
    return Some(Obj(patch));
  }

  method WalkLoop(fs: seq<Member>, ts: seq<Member>, cs: bool) returns (patch: seq<Member>)
    ensures patch == MergeEdits(fs, ts, cs)
    decreases MembersSize(fs), |fs| + |ts| + 1
  {
    patch := [];
    var i, k := 0, 0;
    ghost var all := MergeEdits(fs, ts, cs);
    while i < |fs| || k < |ts|
      invariant 0 <= i <= |fs| && 0 <= k <= |ts|
      invariant patch + MergeEdits(fs[i..], ts[k..], cs) == all
      decreases |fs| - i + |ts| - k
    {
      assert i < |fs| ==> fs[i..][0] == fs[i] && fs[i..][1..] == fs[i + 1..];
      assert k < |ts| ==> ts[k..][0] == ts[k] && ts[k..][1..] == ts[k + 1..];
      var diff := 1;
      if i < |fs| {
        diff := -1;
        if k < |ts| {
          diff := CompareStrings(fs[i].key, ts[k].key, true);
          StrCmpFlip(fs[i].key, ts[k].key);
        }
      }
      if diff < 0 {
        Shift(patch, [Member(fs[i].key, Null)], MergeEdits(fs[i + 1..], ts[k..], cs));
        patch := patch + [Member(fs[i].key, Null)];
        i := i + 1;
      } else if diff > 0 {
        Shift(patch, [ts[k]], MergeEdits(fs[i..], ts[k + 1..], cs));
        patch := patch + [ts[k]];
        k := k + 1;
      } else {
        var more := CommonLoop(fs[i], ts[k], cs);
        Shift(patch, more, MergeEdits(fs[i + 1..], ts[k + 1..], cs));
        patch := patch + more;
        i, k := i + 1, k + 1;
      }
    }
    assert patch + [] == patch;
  }

  lemma Shift(a: seq<Member>, b: seq<Member>, c: seq<Member>)
    ensures a + (b + c) == (a + b) + c
  {
  }

  method CommonLoop(f: Member, t: Member, cs: bool) returns (r: seq<Member>)
    ensures r == Common(f, t, cs)
    decreases Size(f.value), 1
  {
    if CompareJson(f.value, t.value, cs) {
      return [];
    }
    var p := GenerateLoop(Compared(f.value, t.value, cs), Compared(t.value, f.value, cs), false);
    if p.None? {
      return [];
    }
    return [Member(t.key, p.value)];
  }
}
