/**
 Generating patches and applying them: the result means what the target means, exactly
 when the keys are ones the code can find its way on.
 */
module PatchSound {
  import opened Wrappers
  import opened Keys
  import opened Json
  import opened Compare
  import opened Decimal
  import opened Pointer
  import opened PointerLookup
  import opened SortedObjects
  import opened PatchApply
  import opened PatchCreate
  import opened PatchSteps

  /** A document over a set of keys: unique keys in every object, and arrays that fit the memory. */
  predicate Over(j: Json, keys: set<string>)
    decreases j
  {
    match j
    case Arr(items) => |items| < SIZE_MODULUS && forall i :: 0 <= i < |items| ==> Over(items[i], keys)
    case Obj(ms) =>
      DistinctKeys(ms, true) && KeysIn(ms, keys) && forall i :: 0 <= i < |ms| ==> Over(ms[i].value, keys)
    case _ => true
  }

  // ----- runs of edits -----

  function ApplyEdits(doc: Json, es: seq<Edit>, cs: bool): Outcome
    decreases |es|
  {
    if es == [] then Outcome(0, doc)
    else
      var r := ApplyEdit(doc, es[0], cs);
      if r.status != 0 then r else ApplyEdits(r.doc, es[1..], cs)
  }

  function LiftAll(prefix: string, es: seq<Edit>): (r: seq<Edit>)
    ensures |r| == |es|
    ensures forall i :: 0 <= i < |es| ==> r[i] == Lift(prefix, es[i])
  {
    if es == [] then [] else [Lift(prefix, es[0])] + LiftAll(prefix, es[1..])
  }

  predicate AllLocal(es: seq<Edit>) {
    forall i :: 0 <= i < |es| ==> Local(es[i])
  }

  lemma {:induction false} EditsConcat(doc: Json, a: seq<Edit>, b: seq<Edit>, cs: bool)
    ensures var r := ApplyEdits(doc, a, cs);
            ApplyEdits(doc, a + b, cs) == if r.status != 0 then r else ApplyEdits(r.doc, b, cs)
    decreases |a|
  {
    if a == [] {
      assert a + b == b;
    } else {
      assert (a + b)[1..] == a[1..] + b;
      EditsConcat(ApplyEdit(doc, a[0], cs).doc, a[1..], b, cs);
    }
  }

  lemma OneEdit(doc: Json, e: Edit, es: seq<Edit>, cs: bool)
    requires ApplyEdit(doc, e, cs).status == 0
    ensures ApplyEdits(doc, [e] + es, cs) == ApplyEdits(ApplyEdit(doc, e, cs).doc, es, cs)
  {
    assert ([e] + es)[1..] == es;
  }

  lemma FieldNames(cs: bool)
    ensures Norm("op", cs) == "op" && Norm("path", cs) == "path" && Norm("value", cs) == "value" && Norm("from", cs) == "from"
    ensures "op" != "path" && "value" != "op" && "value" != "path"
    ensures "from" != "op" && "from" != "path" && "from" != "value"
  {
    assert "path"[0] != "from"[0];
  }

  lemma PatchFields(e: Edit, cs: bool)
    requires Local(e)
    ensures Field(PatchObject(e), "op", cs) == Some(Str(OpName(e.op)))
    ensures Field(PatchObject(e), "path", cs) == Some(Str(e.path))
    ensures Field(PatchObject(e), "value", cs) == e.value
    ensures Field(PatchObject(e), "from", cs) == None
  {
    FieldOp(e, cs);
    FieldPath(e, cs);
    FieldValue(e, cs);
    FieldFrom(e, cs);
  }

  lemma FieldOp(e: Edit, cs: bool)
    ensures Field(PatchObject(e), "op", cs) == Some(Str(OpName(e.op)))
  {
    MemberNames(e);
    FieldPlace(PatchObject(e).members, "op", 0, cs);
  }

  lemma FieldPath(e: Edit, cs: bool)
    ensures Field(PatchObject(e), "path", cs) == Some(Str(e.path))
  {
    MemberNames(e);
    FieldNames(cs);
    FieldPlace(PatchObject(e).members, "path", 1, cs);
  }

  lemma FieldValue(e: Edit, cs: bool)
    ensures Field(PatchObject(e), "value", cs) == e.value
  {
    MemberNames(e);
    FieldNames(cs);
    if e.value.Some? {
      FieldPlace(PatchObject(e).members, "value", 2, cs);
    } else {
      FieldMissing(PatchObject(e).members, "value", cs);
    }
  }

  lemma FieldFrom(e: Edit, cs: bool)
    ensures Field(PatchObject(e), "from", cs) == None
  {
    MemberNames(e);
    FieldNames(cs);
    FieldMissing(PatchObject(e).members, "from", cs);
  }

  lemma FieldPlace(ms: seq<Member>, name: string, i: nat, cs: bool)
    requires i < |ms| && ms[i].key == name
    requires forall k :: 0 <= k < i ==> Norm(ms[k].key, cs) != Norm(name, cs)
    ensures IndexOf(ms, name, cs) == i
  {
  }

  lemma FieldMissing(ms: seq<Member>, name: string, cs: bool)
    requires forall k :: 0 <= k < |ms| ==> Norm(ms[k].key, cs) != Norm(name, cs)
    ensures IndexOf(ms, name, cs) == |ms|
  {
  }

  lemma MemberNames(e: Edit)
    ensures var ms := PatchObject(e).members;
            |ms| == (if e.value.Some? then 3 else 2) && ms[0] == Member("op", Str(OpName(e.op))) &&
            ms[1] == Member("path", Str(e.path)) && (e.value.Some? ==> ms[2] == Member("value", e.value.value))
  {
  }

  lemma OpBack(e: Edit, cs: bool)
    ensures DecodeOp(PatchObject(e), cs) == e.op
  {
    hide Field, PatchObject;
    FieldOp(e, cs);
  }

  /** Reading the patch object back gives the edit. */
  lemma ReadBack(doc: Json, e: Edit, cs: bool)
    requires Local(e)
    ensures ApplyPatch(doc, PatchObject(e), cs) == ApplyEdit(doc, e, cs)
  {
    hide Field, PatchObject, DecodeOp, ApplyOp;
    PatchFields(e, cs);
    OpBack(e, cs);
  }

  lemma {:induction false} ReadBackAll(doc: Json, es: seq<Edit>, cs: bool)
    requires AllLocal(es)
    ensures ApplyAll(doc, PatchObjects(es), cs) == ApplyEdits(doc, es, cs)
    decreases |es|
  {
    if es != [] {
      ReadBack(doc, es[0], cs);
      ReadBackAll(ApplyEdit(doc, es[0], cs).doc, es[1..], cs);
    }
  }

  // ----- edits of a subtree are lifted edits -----

  lemma LiftTwice(p: string, q: string, es: seq<Edit>)
    ensures LiftAll(p, LiftAll(q, es)) == LiftAll(p + q, es)
  {
    forall i | 0 <= i < |es| ensures LiftAll(p, LiftAll(q, es))[i] == LiftAll(p + q, es)[i] {
      assert p + (q + es[i].path) == (p + q) + es[i].path;
    }
  }

  lemma LiftConcat(p: string, a: seq<Edit>, b: seq<Edit>)
    ensures LiftAll(p, a + b) == LiftAll(p, a) + LiftAll(p, b)
  {
  }

  lemma {:induction false} EditsLift(p: string, from: Json, to: Json, cs: bool)
    ensures CreateEdits(p, from, to, cs) == LiftAll(p, CreateEdits("", from, to, cs))
    decreases Size(from), 0
  {
    assert p + "" == p;
    if Kind(from) == Kind(to) {
      if from.Arr? {
        ItemEditsLift(p, from.items, to.items, 0, cs);
      } else if from.Obj? {
        SizePermuted(from.members, SortMembers(from.members, cs));
        MemberEditsLift(p, SortMembers(from.members, cs), SortMembers(to.members, cs), cs);
      }
    }
  }

  lemma {:induction false} ItemEditsLift(p: string, fs: seq<Json>, ts: seq<Json>, index: nat, cs: bool)
    ensures ItemEdits(p, fs, ts, index, cs) == LiftAll(p, ItemEdits("", fs, ts, index, cs))
    decreases ItemsSize(fs), |fs| + |ts| + 1
  {
    if fs != [] && ts != [] {
      var q := IndexPath("", index);
      assert IndexPath(p, index) == p + q;
      var sub := CreateEdits("", fs[0], ts[0], cs);
      EditsLift(p + q, fs[0], ts[0], cs);
      EditsLift(q, fs[0], ts[0], cs);
      LiftTwice(p, q, sub);
      ItemEditsLift(p, fs[1..], ts[1..], index + 1, cs);
      LiftConcat(p, LiftAll(q, sub), ItemEdits("", fs[1..], ts[1..], index + 1, cs));
    } else if fs != [] {
      ItemEditsLift(p, fs[1..], ts, index, cs);
      var e := Edit(REMOVE, KeyPath("", Dec(index)), None);
      assert KeyPath(p, Dec(index)) == p + KeyPath("", Dec(index));
      LiftConcat(p, [e], ItemEdits("", fs[1..], ts, index, cs));
    } else if ts != [] {
      ItemEditsLift(p, fs, ts[1..], index + 1, cs);
      var e := Edit(ADD, KeyPath("", "-"), Some(ts[0]));
      assert KeyPath(p, "-") == p + KeyPath("", "-");
      LiftConcat(p, [e], ItemEdits("", fs, ts[1..], index + 1, cs));
    }
  }

  lemma {:induction false} MemberEditsLift(p: string, fs: seq<Member>, ts: seq<Member>, cs: bool)
    ensures MemberEdits(p, fs, ts, cs) == LiftAll(p, MemberEdits("", fs, ts, cs))
    decreases MembersSize(fs), |fs| + |ts| + 1
  {
    hide SameKey, Before, CreateEdits, LiftAll, Encode;
    if fs == [] && ts == [] {
    } else if fs != [] && ts != [] && SameKey(fs[0].key, ts[0].key, cs) {
      var q := KeyPath("", fs[0].key);
      assert KeyPath(p, fs[0].key) == p + q;
      var sub := CreateEdits("", fs[0].value, ts[0].value, cs);
      EditsLift(p + q, fs[0].value, ts[0].value, cs);
      EditsLift(q, fs[0].value, ts[0].value, cs);
      LiftTwice(p, q, sub);
      MemberEditsLift(p, fs[1..], ts[1..], cs);
      LiftConcat(p, LiftAll(q, sub), MemberEdits("", fs[1..], ts[1..], cs));
    } else if ts == [] || (fs != [] && Before(fs[0].key, ts[0].key, cs)) {
      MemberEditsLift(p, fs[1..], ts, cs);
      assert KeyPath(p, fs[0].key) == p + KeyPath("", fs[0].key);
      LiftConcat(p, [Edit(REMOVE, KeyPath("", fs[0].key), None)], MemberEdits("", fs[1..], ts, cs));
    } else {
      MemberEditsLift(p, fs, ts[1..], cs);
      assert KeyPath(p, ts[0].key) == p + KeyPath("", ts[0].key);
      LiftConcat(p, [Edit(ADD, KeyPath("", ts[0].key), Some(ts[0].value))], MemberEdits("", fs, ts[1..], cs));
    }
  }

  // ----- every generated edit is local -----

  lemma LiftLocal(q: string, es: seq<Edit>)
    requires AllLocal(es) && q != "" && q[0] == '/'
    ensures AllBelow(LiftAll(q, es))
  {
  }

  /** Local edits none of which is at the root. */
  predicate AllBelow(es: seq<Edit>) {
    forall i :: 0 <= i < |es| ==>
      (es[i].op == ADD || es[i].op == REMOVE || es[i].op == REPLACE) &&
      (es[i].op != REMOVE ==> es[i].value.Some?) && es[i].path != "" && es[i].path[0] == '/'
  }

  lemma {:induction false} EditsLocal(from: Json, to: Json, cs: bool)
    ensures AllLocal(CreateEdits("", from, to, cs))
    decreases Size(from), 0
  {
    if Kind(from) == Kind(to) {
      if from.Arr? {
        ItemEditsLocal(from.items, to.items, 0, cs);
      } else if from.Obj? {
        SizePermuted(from.members, SortMembers(from.members, cs));
        MemberEditsLocal(SortMembers(from.members, cs), SortMembers(to.members, cs), cs);
      }
    }
  }

  lemma {:induction false} ItemEditsLocal(fs: seq<Json>, ts: seq<Json>, index: nat, cs: bool)
    ensures AllBelow(ItemEdits("", fs, ts, index, cs))
    decreases ItemsSize(fs), |fs| + |ts| + 1
  {
    if fs != [] && ts != [] {
      EditsLocal(fs[0], ts[0], cs);
      EditsLift(IndexPath("", index), fs[0], ts[0], cs);
      LiftLocal(IndexPath("", index), CreateEdits("", fs[0], ts[0], cs));
      ItemEditsLocal(fs[1..], ts[1..], index + 1, cs);
    } else if fs != [] {
      ItemEditsLocal(fs[1..], ts, index, cs);
    } else if ts != [] {
      ItemEditsLocal(fs, ts[1..], index + 1, cs);
    }
  }

  lemma {:induction false} MemberEditsLocal(fs: seq<Member>, ts: seq<Member>, cs: bool)
    ensures AllBelow(MemberEdits("", fs, ts, cs))
    decreases MembersSize(fs), |fs| + |ts| + 1
  {
    if fs == [] && ts == [] {
    } else if fs != [] && ts != [] && SameKey(fs[0].key, ts[0].key, cs) {
      EditsLocal(fs[0].value, ts[0].value, cs);
      EditsLift(KeyPath("", fs[0].key), fs[0].value, ts[0].value, cs);
      LiftLocal(KeyPath("", fs[0].key), CreateEdits("", fs[0].value, ts[0].value, cs));
      MemberEditsLocal(fs[1..], ts[1..], cs);
    } else if ts == [] || (fs != [] && Before(fs[0].key, ts[0].key, cs)) {
      MemberEditsLocal(fs[1..], ts, cs);
    } else {
      MemberEditsLocal(fs, ts[1..], cs);
    }
  }

  // ----- a run of lifted edits -----

  lemma {:induction false} EditMemberAll(ms: seq<Member>, k: string, es: seq<Edit>, keys: set<string>, cs: bool)
    returns (ms': seq<Member>)
    requires GoodKeys(keys) && DistinctKeys(ms, true) && KeysIn(ms, keys) && k in keys && Has(ms, k, true)
    requires AllLocal(es) && ApplyEdits(ms[IndexOf(ms, k, true)].value, es, cs).status == 0
    ensures ApplyEdits(Obj(ms), LiftAll(KeyPath("", k), es), cs) == Outcome(0, Obj(ms'))
    ensures Updated(ms, ms', k, ApplyEdits(ms[IndexOf(ms, k, true)].value, es, cs).doc, keys)
    decreases |es|
  {
    if es == [] {
      ms' := ms;
    } else {
      var ms1 := EditMember(ms, k, es[0], keys, cs);
      ms' := EditMemberAll(ms1, k, es[1..], keys, cs);
      OneEdit(Obj(ms), Lift(KeyPath("", k), es[0]), LiftAll(KeyPath("", k), es[1..]), cs);
    }
  }

  lemma {:induction false} EditItemAll(items: seq<Json>, i: nat, es: seq<Edit>, cs: bool)
    requires i < |items| < SIZE_MODULUS && AllLocal(es) && ApplyEdits(items[i], es, cs).status == 0
    ensures ApplyEdits(Arr(items), LiftAll(IndexPath("", i), es), cs) ==
            Outcome(0, Arr(items[i := ApplyEdits(items[i], es, cs).doc]))
    decreases |es|
  {
    if es == [] {
      assert items[i := items[i]] == items;
    } else {
      EditItem(items, i, es[0], cs);
      var v := ApplyEdit(items[i], es[0], cs).doc;
      EditItemAll(items[i := v], i, es[1..], cs);
      OneEdit(Arr(items), Lift(IndexPath("", i), es[0]), LiftAll(IndexPath("", i), es[1..]), cs);
      var w := ApplyEdits(items[i], es, cs).doc;
      assert items[i := v][i := w] == items[i := w];
    }
  }
}
