/** Merging on documents with their links: right on a copy, not in the document that was sorted for the generation. */
module LinkedMerge {
  import opened Wrappers
  import opened Json
  import opened SortedObjects
  import opened PatchSound
  import opened MergeTheorem
  import opened MergeRoundTrip
  import opened TailLink
  import opened LinkedTree
  import opened LinkedTreeLaws
  import opened LinkOrder
  import opened LinkedAdds
  import MergePatch

  /** `merge_patch`; no tree where an append would go through a link to a node that is gone. */
  function MergeTree(target: Option<Tree>, patch: Json, cs: bool): Option<Tree>
    decreases patch
  {
    if !patch.Obj? then Some(Fresh(patch))
    else if target.Some? && target.value.Dict? then MergeFields(target.value.fields, target.value.tail, patch.members, cs)
    else MergeFields([], Last, patch.members, cs)
  }

  /** The loop over the members of the patch: each is taken out, merged and appended. */
  function MergeFields(fields: seq<Entry>, tail: Tail, ps: seq<Member>, cs: bool): Option<Tree>
    decreases ps
  {
    if ps == [] then Some(Dict(fields, tail))
    else
      var k := ps[0].key;
      var i := IndexOf(PlainFields(fields), k, cs);
      var rest := if i < |fields| then RemoveAt(fields, i) else fields;
      var link := if i < |fields| then AfterRemoval(tail, i, |fields|) else tail;
      if ps[0].value.Null? then MergeFields(rest, link, ps[1..], cs)
      else
        match MergeTree(if i < |fields| then Some(fields[i].value) else None, ps[0].value, cs)
        case None => None
        case Some(v) =>
          if rest != [] && link.Gone? then None
          else MergeFields(AfterAppend(rest, link, Entry(k, v)), TailAfterAppend(rest, link), ps[1..], cs)
  }

  function PlainOption(t: Option<Tree>): Option<Json> {
    if t.Some? then Some(Plain(t.value)) else None
  }

  /** The objects that merging can reach, through objects only, have their links right. */
  predicate Mergeable(t: Tree)
    decreases t
  {
    match t
    case Leaf(j) => !j.Obj?
    case List(_) => true
    case Dict(fields, tail) => tail.Last? && forall i :: 0 <= i < |fields| ==> Mergeable(fields[i].value)
  }

  lemma {:induction false} ProperMergeable(t: Tree)
    requires Proper(t)
    ensures Mergeable(t)
    decreases t
  {
    if t.Dict? {
      forall i | 0 <= i < |t.fields| ensures Mergeable(t.fields[i].value) {
        ProperMergeable(t.fields[i].value);
      }
    }
  }

  /** Whether merging a patch into the document does what it does without links. */
  predicate MergesAs(t: Tree, patch: Json, cs: bool) {
    var r := MergeTree(Some(t), patch, cs);
    r.Some? && Plain(r.value) == MergePatch.Merge(Some(Plain(t)), patch, cs)
  }

  /** Where the links are right, merging does what it does without links, and keeps them right. */
  lemma {:induction false} MergeRefines(target: Option<Tree>, patch: Json, cs: bool)
    requires target.Some? ==> Mergeable(target.value)
    ensures var r := MergeTree(target, patch, cs);
            && r.Some? && Mergeable(r.value) && Plain(r.value) == MergePatch.Merge(PlainOption(target), patch, cs)
            && ((target.Some? ==> Proper(target.value)) ==> Proper(r.value))
    decreases patch
  {
    hide PlainFields, MergeFields, MergePatch.MergeMembers, Fresh;
    if !patch.Obj? {
      FreshTree(patch);
      ProperMergeable(Fresh(patch));
    } else if target.Some? && target.value.Dict? {
      MergeFieldsRefines(target.value.fields, patch.members, cs);
    } else {
      if target.Some? {
        PlainNoObject(target.value);
      }
      NoFields();
      MergeFieldsRefines([], patch.members, cs);
    }
  }

  lemma {:induction false} PlainNoObject(t: Tree)
    requires !t.Dict? && Mergeable(t)
    ensures !Plain(t).Obj?
  {
  }

  lemma {:induction false} NoFields()
    ensures PlainFields([]) == [] && Proper(Dict([], Last)) && Mergeable(Dict([], Last))
  {
  }

  lemma {:induction false} MergeFieldsRefines(fields: seq<Entry>, ps: seq<Member>, cs: bool)
    requires Mergeable(Dict(fields, Last))
    ensures var r := MergeFields(fields, Last, ps, cs);
            && r.Some? && Mergeable(r.value)
            && Plain(r.value) == Obj(MergePatch.MergeMembers(PlainFields(fields), ps, cs))
            && (Proper(Dict(fields, Last)) ==> Proper(r.value))
    decreases ps
  {
    hide PlainFields, IndexOf, Plain, Proper, Mergeable, RemoveAt, MergePatch.Merge;
    PlainDict(fields, Last);
    if ps != [] {
      var k := ps[0].key;
      var i := IndexOf(PlainFields(fields), k, cs);
      var rest := WithoutKey(fields, k, cs);
      if ps[0].value.Null? {
        MergeFieldsRefines(rest, ps[1..], cs);
      } else {
        var previous := if i < |fields| then Some(fields[i].value) else None;
        if i < |fields| {
          ValueAt(fields, i);
        }
        MergeRefines(previous, ps[0].value, cs);
        var v := MergeTree(previous, ps[0].value, cs).value;
        Added(rest, k, v);
        MergeFieldsRefines(rest + [Entry(k, v)], ps[1..], cs);
      }
    }
  }

  lemma {:induction false} WithoutKey(fields: seq<Entry>, k: string, cs: bool) returns (rest: seq<Entry>)
    requires Mergeable(Dict(fields, Last))
    ensures var i := IndexOf(PlainFields(fields), k, cs);
            && rest == (if i < |fields| then RemoveAt(fields, i) else fields)
            && (i < |fields| ==> AfterRemoval(Last, i, |fields|) == Last)
    ensures Mergeable(Dict(rest, Last)) && (Proper(Dict(fields, Last)) ==> Proper(Dict(rest, Last)))
    ensures PlainFields(rest) == MergePatch.Drop(PlainFields(fields), k, cs)
  {
    hide PlainFields, IndexOf, Plain, Proper, RemoveAt, Mergeable;
    var i := IndexOf(PlainFields(fields), k, cs);
    rest := fields;
    if i < |fields| {
      rest := RemoveAt(fields, i);
      PlainFieldsWithout(fields, i);
      MergeableWithout(fields, i);
      if Proper(Dict(fields, Last)) {
        ProperWithout(fields, i);
      }
    }
  }

  lemma {:induction false} MergeableWithout(fields: seq<Entry>, i: nat)
    requires Mergeable(Dict(fields, Last)) && i < |fields|
    ensures Mergeable(Dict(RemoveAt(fields, i), Last))
  {
    hide RemoveAt;
    RemovedAt(fields, i);
  }

  lemma {:induction false} ValueAt(fields: seq<Entry>, i: nat)
    requires Mergeable(Dict(fields, Last)) && i < |fields|
    ensures Mergeable(fields[i].value) && Plain(fields[i].value) == PlainFields(fields)[i].value
    ensures Proper(Dict(fields, Last)) ==> Proper(fields[i].value)
  {
  }

  lemma {:induction false} Added(rest: seq<Entry>, k: string, v: Tree)
    requires Mergeable(Dict(rest, Last)) && Mergeable(v)
    ensures AfterAppend(rest, Last, Entry(k, v)) == rest + [Entry(k, v)] && TailAfterAppend(rest, Last) == Last
    ensures PlainFields(rest + [Entry(k, v)]) == PlainFields(rest) + [Member(k, Plain(v))]
    ensures Mergeable(Dict(rest + [Entry(k, v)], Last))
    ensures Proper(Dict(rest, Last)) && Proper(v) ==> Proper(Dict(rest + [Entry(k, v)], Last))
  {
    hide PlainFields;
    PlainAppend(rest, Entry(k, v));
  }

  /** The generated patch merged into a copy of a document that means what `from` means, links included. */
  lemma {:induction false} LinkedMergeExact(target: Json, from: Json, to: Json, keys: set<string>, gcs: bool, mcs: bool)
    requires OrderCompatible(keys) && Over(from, keys) && Over(to, keys)
    requires Over(target, keys) && Meaning(target, true) == Meaning(from, true)
    requires MergePatch.Generate(from, to, gcs).Some?
    ensures var r := MergeTree(Some(Fresh(target)), MergePatch.Generate(from, to, gcs).value, mcs);
            r.Some? && Proper(r.value) && (Meaning(Plain(r.value), true) == Meaning(to, true) <==> NullOk(from, to))
  {
    hide Over, OrderCompatible, NullOk, Fresh, Proper, Plain, Meaning, MergePatch.Generate, MergePatch.Merge, MergeTree;
    FreshTree(target);
    ProperMergeable(Fresh(target));
    MergeRefines(Some(Fresh(target)), MergePatch.Generate(from, to, gcs).value, mcs);
    MergeRoundTripExact(target, from, to, keys, gcs, mcs);
  }

  // ----- exactly when -----

  lemma {:induction false} NoPatch(fields: seq<Entry>, tail: Tail, ms: seq<Member>, cs: bool)
    ensures MergeFields(fields, tail, [], cs) == Some(Dict(fields, tail)) && MergePatch.MergeMembers(ms, [], cs) == ms
  {
  }

  /** Merging a patch of one member into an object. */
  lemma {:induction false} MergeOne(fields: seq<Entry>, tail: Tail, k: string, v: Json, cs: bool)
    requires !v.Null?
    ensures var i := IndexOf(PlainFields(fields), k, cs);
            var rest, link := if i < |fields| then RemoveAt(fields, i) else fields,
                              if i < |fields| then AfterRemoval(tail, i, |fields|) else tail;
            var w := MergeTree(if i < |fields| then Some(fields[i].value) else None, v, cs);
            MergeTree(Some(Dict(fields, tail)), Obj([Member(k, v)]), cs) ==
            if w.None? || (rest != [] && link.Gone?) then None
            else Some(Dict(AfterAppend(rest, link, Entry(k, w.value)), TailAfterAppend(rest, link)))
    ensures var ms := PlainFields(fields);
            MergePatch.Merge(Some(Obj(ms)), Obj([Member(k, v)]), cs) ==
            Obj(MergePatch.Drop(ms, k, cs) + [Member(k, MergePatch.Merge(Get(ms, k, cs), v, cs))])
  {
    hide PlainFields, IndexOf, AfterAppend, AfterRemoval, RemoveAt;
    var ps, ms := [Member(k, v)], PlainFields(fields);
    assert ps[1..] == [];
    var i := IndexOf(ms, k, cs);
    var rest := if i < |fields| then RemoveAt(fields, i) else fields;
    var link := if i < |fields| then AfterRemoval(tail, i, |fields|) else tail;
    var w := MergeTree(if i < |fields| then Some(fields[i].value) else None, v, cs);
    var others := MergePatch.Drop(ms, k, cs) + [Member(k, MergePatch.Merge(Get(ms, k, cs), v, cs))];
    if w.Some? && !(rest != [] && link.Gone?) {
      NoPatch(AfterAppend(rest, link, Entry(k, w.value)), TailAfterAppend(rest, link), others, cs);
    }
    NoPatch([], Last, others, cs);
    assert MergePatch.MergeMembers(ms, ps, cs) == MergePatch.MergeMembers(others, [], cs);
  }

  /** Where the link of the head is wrong a new member does not arrive. */
  lemma {:induction false} NewMemberLost(fields: seq<Entry>, tail: Tail, cs: bool) returns (patch: Json)
    requires Fits(fields, tail) && !tail.Last?
    ensures patch.Obj? && !MergesAs(Dict(fields, tail), patch, cs)
  {
    hide PlainFields, IndexOf, AfterAppend, Plain;
    var k := NewKey(PlainFields(fields), cs);
    var v := Bool(true);
    patch := Obj([Member(k, v)]);
    MergeOne(fields, tail, k, v, cs);
    MergeRefines(None, v, cs);
    var w := MergeTree(None, v, cs).value;
    PlainDict(fields, tail);
    PlainDict(AfterAppend(fields, tail, Entry(k, w)), TailAfterAppend(fields, tail));
    Shorter(fields, tail, Entry(k, w));
  }

  /** What is merged into a member is not what it is without links, if it is not for its value. */
  lemma {:induction false} ThroughMember(fields: seq<Entry>, i: nat, inner: Json, cs: bool)
    requires DistinctKeys(PlainFields(fields), cs) && i < |fields| && inner.Obj? && !MergesAs(fields[i].value, inner, cs)
    ensures !MergesAs(Dict(fields, Last), Obj([Member(fields[i].key, inner)]), cs)
  {
    hide PlainFields, IndexOf, Plain, MergeTree, MergePatch.Merge, RemoveAt;
    var ms, k := PlainFields(fields), fields[i].key;
    IndexOfDistinct(ms, i, cs);
    MergeOne(fields, Last, k, inner, cs);
    PlainDict(fields, Last);
    var w := MergeTree(Some(fields[i].value), inner, cs);
    if w.Some? {
      var rest, f := RemoveAt(fields, i), Entry(k, w.value);
      assert AfterRemoval(Last, i, |fields|) == Last;
      LastAppend(rest, f);
      PlainAppend(rest, f);
      PlainFieldsWithout(fields, i);
      PlainDict(rest + [f], TailAfterAppend(rest, Last));
      var x := PlainFields(rest) + [Member(k, Plain(w.value))];
      var y := MergePatch.Drop(ms, k, cs) + [Member(k, MergePatch.Merge(Get(ms, k, cs), inner, cs))];
      assert x[|x| - 1] != y[|x| - 1];
    }
  }

  /** Along the objects that merging can reach, no link leads to a node that is gone. */
  predicate Joined(t: Tree)
    decreases t
  {
    match t
    case Leaf(j) => !j.Obj?
    case List(_) => true
    case Dict(fields, tail) => Fits(fields, tail) && forall i :: 0 <= i < |fields| ==> Joined(fields[i].value)
  }

  lemma {:induction false} BadMerge(t: Tree, cs: bool) returns (patch: Json)
    requires Joined(t) && UniqueKeys(Plain(t), cs) && !Mergeable(t)
    ensures patch.Obj? && !MergesAs(t, patch, cs)
    decreases t
  {
    hide MergesAs;
    if !t.tail.Last? {
      patch := NewMemberLost(t.fields, t.tail, cs);
    } else {
      var i :| 0 <= i < |t.fields| && !Mergeable(t.fields[i].value);
      var inner := BadMerge(t.fields[i].value, cs);
      ThroughMember(t.fields, i, inner, cs);
      patch := Obj([Member(t.fields[i].key, inner)]);
    }
  }

  ghost predicate EveryMerge(t: Tree, cs: bool) {
    forall patch :: MergesAs(t, patch, cs)
  }

  /** Every patch is merged as it is without links exactly when all objects that merging can reach have their links right. */
  lemma {:induction false} EveryMergeExact(t: Tree, cs: bool)
    requires Joined(t) && UniqueKeys(Plain(t), cs)
    ensures EveryMerge(t, cs) <==> Mergeable(t)
  {
    hide Joined, UniqueKeys, Plain, Mergeable, MergeTree, MergePatch.Merge;
    if Mergeable(t) {
      forall patch ensures MergesAs(t, patch, cs) {
        MergeRefines(Some(t), patch, cs);
      }
    } else {
      var patch := BadMerge(t, cs);
    }
  }
}
