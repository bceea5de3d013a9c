/** The main result on JSON Merge Patch, with the exact conditions on documents and keys. */
module MergeRoundTrip {
  import opened Wrappers
  import opened Keys
  import opened Json
  import opened Compare
  import opened SortedObjects
  import opened CompareEffect
  import opened PatchSteps
  import opened PatchSound
  import opened PatchTheorem
  import opened MergePatch
  import opened MergeTheorem

  // ----- what is generated for each key -----

  predicate EditAt(fs: seq<Member>, ts: seq<Member>, es: seq<Member>, n: string, cs: bool) {
    Get(es, n, true) ==
      match (Get(fs, n, true), Get(ts, n, true))
      case (None, None) => None
      case (Some(_), None) => Some(Null)
      case (None, Some(t)) => Some(t)
      case (Some(f), Some(t)) => 
          if CompareJson(f, t, cs) then None else Generate(Compared(f, t, cs), Compared(t, f, cs), false)
  }

  lemma ConsDistinct(m: Member, es: seq<Member>, keys: set<string>)
    requires DistinctKeys(es, true) && KeysIn(es, keys) && m.key in keys && !Has(es, m.key, true)
    ensures DistinctKeys([m] + es, true) && KeysIn([m] + es, keys)
    ensures Get([m] + es, m.key, true) == Some(m.value)
    ensures forall n :: n != m.key ==> Get([m] + es, n, true) == Get(es, n, true)
  {
    NoneHas(es, m.key);
    assert ([m] + es)[1..] == es;
    forall n | n != m.key ensures Get([m] + es, n, true) == Get(es, n, true) {
      assert IndexOf([m] + es, n, true) == 1 + IndexOf(es, n, true);
    }
  }

  lemma {:induction false} EditsEachKey(fs: seq<Member>, ts: seq<Member>, keys: set<string>, cs: bool)
    requires StrictlyAscending(fs, true) && StrictlyAscending(ts, true) && KeysIn(fs, keys) && KeysIn(ts, keys)
    ensures var es := MergeEdits(fs, ts, cs);
            DistinctKeys(es, true) && KeysIn(es, keys) && forall n :: EditAt(fs, ts, es, n, cs)
    decreases |fs| + |ts|
  {
    if fs == [] && ts == [] {
    } else if ts == [] || (fs != [] && StrCmp(fs[0].key, ts[0].key) < 0) {
      RemovedKey(fs, ts, keys, cs);
    } else if fs == [] || StrCmp(fs[0].key, ts[0].key) > 0 {
      AddedKey(fs, ts, keys, cs);
    } else {
      CommonKey(fs, ts, keys, cs);
    }
  }

  lemma {:induction false} RemovedKey(fs: seq<Member>, ts: seq<Member>, keys: set<string>, cs: bool)
    requires StrictlyAscending(fs, true) && StrictlyAscending(ts, true) && KeysIn(fs, keys) && KeysIn(ts, keys)
    requires fs != [] && (ts != [] ==> StrCmp(fs[0].key, ts[0].key) < 0)
    ensures var es := MergeEdits(fs, ts, cs);
            DistinctKeys(es, true) && KeysIn(es, keys) && forall n :: EditAt(fs, ts, es, n, cs)
    decreases |fs| + |ts|, 0
  {
    var k, tail := fs[0].key, MergeEdits(fs[1..], ts, cs);
    TailLookups(fs, true);
    NotBelow(k, ts, true);
    EditsEachKey(fs[1..], ts, keys, cs);
    assert EditAt(fs[1..], ts, tail, k, cs);
    ConsDistinct(Member(k, Null), tail, keys);
    forall n ensures EditAt(fs, ts, MergeEdits(fs, ts, cs), n, cs) {
      assert EditAt(fs[1..], ts, tail, n, cs);
    }
  }

  lemma {:induction false} AddedKey(fs: seq<Member>, ts: seq<Member>, keys: set<string>, cs: bool)
    requires StrictlyAscending(fs, true) && StrictlyAscending(ts, true) && KeysIn(fs, keys) && KeysIn(ts, keys)
    requires ts != [] && (fs != [] ==> StrCmp(fs[0].key, ts[0].key) > 0)
    ensures var es := MergeEdits(fs, ts, cs);
            DistinctKeys(es, true) && KeysIn(es, keys) && forall n :: EditAt(fs, ts, es, n, cs)
    decreases |fs| + |ts|, 0
  {
    var k, tail := ts[0].key, MergeEdits(fs, ts[1..], cs);
    if fs != [] {
      StrCmpFlip(fs[0].key, k);
    }
    TailLookups(ts, true);
    NotBelow(k, fs, true);
    EditsEachKey(fs, ts[1..], keys, cs);
    assert EditAt(fs, ts[1..], tail, k, cs);
    ConsDistinct(ts[0], tail, keys);
    forall n ensures EditAt(fs, ts, MergeEdits(fs, ts, cs), n, cs) {
      assert EditAt(fs, ts[1..], tail, n, cs);
    }
  }

  lemma {:induction false} CommonKey(fs: seq<Member>, ts: seq<Member>, keys: set<string>, cs: bool)
    requires StrictlyAscending(fs, true) && StrictlyAscending(ts, true) && KeysIn(fs, keys) && KeysIn(ts, keys)
    requires fs != [] && ts != [] && StrCmp(fs[0].key, ts[0].key) == 0
    ensures var es := MergeEdits(fs, ts, cs);
            DistinctKeys(es, true) && KeysIn(es, keys) && forall n :: EditAt(fs, ts, es, n, cs)
    decreases |fs| + |ts|, 0
  {
    var k, tail := fs[0].key, MergeEdits(fs[1..], ts[1..], cs);
    StrCmpZero(k, ts[0].key);
    TailLookups(fs, true);
    TailLookups(ts, true);
    EditsEachKey(fs[1..], ts[1..], keys, cs);
    assert EditAt(fs[1..], ts[1..], tail, k, cs);
    var c := Common(fs[0], ts[0], cs);
    if c != [] {
      ConsDistinct(c[0], tail, keys);
      assert c == [c[0]];
    } else {
      assert c + tail == tail;
    }
    forall n ensures EditAt(fs, ts, MergeEdits(fs, ts, cs), n, cs) {
      assert EditAt(fs[1..], ts[1..], tail, n, cs);
    }
  }

  /** Sorted in either mode, compatible keys ascend in the order of `strcmp`. */
  lemma SortedCompatible(ms: seq<Member>, keys: set<string>, cs: bool)
    requires OrderCompatible(keys) && Over(Obj(ms), keys)
    ensures StrictlyAscending(SortMembers(ms, cs), true) && KeysIn(SortMembers(ms, cs), keys)
    ensures forall n :: Get(SortMembers(ms, cs), n, true) == Get(ms, n, true)
  {
    CompatibleIsCaseDistinct(keys);
    SortedListed(ms, keys, cs);
    var r := SortMembers(ms, cs);
    forall i, j | 0 <= i < j < |r| ensures Before(r[i].key, r[j].key, true) {
      var a, b := r[i].key, r[j].key;
      assert Before(a, b, cs);
      KeyOrder(a, b, a, true);
      KeyOrder(a, b, a, false);
    }
  }

  /** The generated patch, key by key. */
  lemma GeneratedEachKey(from: seq<Member>, to: seq<Member>, keys: set<string>, cs: bool) returns (es: seq<Member>)
    requires OrderCompatible(keys) && Over(Obj(from), keys) && Over(Obj(to), keys)
    ensures Generate(Obj(from), Obj(to), cs) == if es == [] then None else Some(Obj(es))
    ensures DistinctKeys(es, true) && KeysIn(es, keys) && forall n :: EditAt(from, to, es, n, cs)
  {
    var fs, ts := SortMembers(from, cs), SortMembers(to, cs);
    SortedCompatible(from, keys, cs);
    SortedCompatible(to, keys, cs);
    EditsEachKey(fs, ts, keys, cs);
    es := MergeEdits(fs, ts, cs);
    forall n ensures EditAt(from, to, es, n, cs) {
      assert EditAt(fs, ts, es, n, cs);
      assert Get(fs, n, true) == Get(from, n, true) && Get(ts, n, true) == Get(to, n, true);
    }
  }

  // ----- nulls in the target -----

  /** Every null member of `to` that the walk meets is null in `from` already. */
  predicate NullOk(from: Json, to: Json)
    decreases Size(to), 1
  {
    if !to.Obj? then true
    else if !from.Obj? then NoNulls(to)
    else forall i :: 0 <= i < |to.members| ==> MemberOk(from.members, to.members[i])
  }

  predicate MemberOk(fs: seq<Member>, t: Member)
    decreases Size(t.value), 2
  {
    match Get(fs, t.key, true)
    case None => !t.value.Null? && NoNulls(t.value)
    case Some(f) => (t.value.Null? ==> f.Null?) && NullOk(f, t.value)
  }

  lemma {:induction false} EqualIsNullOk(from: Json, to: Json, keys: set<string>)
    requires Over(from, keys) && Over(to, keys) && Meaning(from, true) == Meaning(to, true)
    ensures NullOk(from, to)
    decreases Size(to)
  {
    if to.Obj? {
      MeaningByLookup(from.members, to.members);
      forall i | 0 <= i < |to.members| ensures MemberOk(from.members, to.members[i]) {
        var k := to.members[i].key;
        IndexOfDistinct(to.members, i, true);
        assert SameLookup(from.members, to.members, k);
        EqualIsNullOk(Get(from.members, k, true).value, to.members[i].value, keys);
      }
    }
  }

  lemma {:induction false} NoNullsMeaning(a: Json, b: Json, keys: set<string>)
    requires Over(a, keys) && Over(b, keys) && Meaning(a, true) == Meaning(b, true) && NoNulls(a)
    ensures NoNulls(b)
    decreases Size(b)
  {
    if b.Obj? {
      MeaningByLookup(a.members, b.members);
      forall i | 0 <= i < |b.members| ensures !b.members[i].value.Null? && NoNulls(b.members[i].value) {
        var k := b.members[i].key;
        IndexOfDistinct(b.members, i, true);
        assert SameLookup(a.members, b.members, k);
        NoNullsMeaning(Get(a.members, k, true).value, b.members[i].value, keys);
      }
    }
  }

  /** Whether the nulls allow it depends on the meanings only. */
  lemma {:induction false} NullOkMeaning(f1: Json, t1: Json, f2: Json, t2: Json, keys: set<string>)
    requires Over(f1, keys) && Over(f2, keys) && Meaning(f1, true) == Meaning(f2, true)
    requires Over(t1, keys) && Over(t2, keys) && Meaning(t1, true) == Meaning(t2, true)
    requires NullOk(f1, t1)
    ensures NullOk(f2, t2)
    decreases Size(t2)
  {
    if !t2.Obj? {
    } else if !f2.Obj? {
      NoNullsMeaning(t1, t2, keys);
    } else {
      MeaningByLookup(f1.members, f2.members);
      MeaningByLookup(t1.members, t2.members);
      forall i | 0 <= i < |t2.members| ensures MemberOk(f2.members, t2.members[i]) {
        var k := t2.members[i].key;
        IndexOfDistinct(t2.members, i, true);
        assert SameLookup(f1.members, f2.members, k) && SameLookup(t1.members, t2.members, k);
        var m := t1.members[IndexOf(t1.members, k, true)];
        assert MemberOk(f1.members, m);
        if Has(f2.members, k, true) {
          NullOkMeaning(Get(f1.members, k, true).value, m.value, Get(f2.members, k, true).value, t2.members[i].value, keys);
        } else {
          NoNullsMeaning(m.value, t2.members[i].value, keys);
        }
      }
    }
  }

  // ----- what the comparison leaves -----

  lemma {:induction false} ComparedOver(a: Json, b: Json, keys: set<string>, cs: bool)
    requires CaseDistinct(keys) && Over(a, keys)
    ensures Over(Compared(a, b, cs), keys)
    decreases Size(a), 0
  {
    if Kind(a) == Kind(b) {
      match a
      case Arr(items) => ComparedItemsOver(items, b.items, keys, cs);
      case Obj(ms) => ComparedObjectOver(ms, b.members, keys, cs);
      case _ =>
    }
  }

  lemma {:induction false} ComparedObjectOver(ms: seq<Member>, bs: seq<Member>, keys: set<string>, cs: bool)
    requires CaseDistinct(keys) && Over(Obj(ms), keys)
    ensures Over(Compared(Obj(ms), Obj(bs), cs), keys)
    decreases MembersSize(ms), |ms| + 2
  {
    hide SortMembers, ComparedMembers;
    var xs := SortMembers(ms, cs);
    SortedListed(ms, keys, cs);
    SizePermuted(ms, xs);
    ComparedMembersOver(xs, SortMembers(bs, cs), keys, cs);
    var r := ComparedMembers(xs, SortMembers(bs, cs), cs);
    forall i, j | 0 <= i < j < |r| ensures r[i].key != r[j].key {
      KeyOrder(xs[i].key, xs[j].key, "", cs);
    }
    assert Compared(Obj(ms), Obj(bs), cs) == Obj(r);
  }

  lemma {:induction false} ComparedItemsOver(xs: seq<Json>, ys: seq<Json>, keys: set<string>, cs: bool)
    requires CaseDistinct(keys) && forall i :: 0 <= i < |xs| ==> Over(xs[i], keys)
    ensures forall i :: 0 <= i < |xs| ==> Over(ComparedItems(xs, ys, cs)[i], keys)
    decreases ItemsSize(xs), |xs| + 1
  {
    hide Over, Compared, CompareJson;
    if xs != [] && ys != [] {
      ComparedOver(xs[0], ys[0], keys, cs);
      ComparedItemsOver(xs[1..], ys[1..], keys, cs);
    }
  }

  lemma {:induction false} ComparedMembersOver(xs: seq<Member>, ys: seq<Member>, keys: set<string>, cs: bool)
    requires CaseDistinct(keys) && forall i :: 0 <= i < |xs| ==> Over(xs[i].value, keys)
    ensures forall i :: 0 <= i < |xs| ==> Over(ComparedMembers(xs, ys, cs)[i].value, keys)
    decreases MembersSize(xs), |xs| + 1
  {
    hide Over, Compared, CompareJson, SameKey;
    if xs != [] && ys != [] && SameKey(xs[0].key, ys[0].key, cs) {
      ComparedOver(xs[0].value, ys[0].value, keys, cs);
      ComparedMembersOver(xs[1..], ys[1..], keys, cs);
    }
  }

  lemma ComparedSame(a: Json, b: Json, keys: set<string>, cs: bool)
    requires CaseDistinct(keys) && Over(a, keys)
    ensures Over(Compared(a, b, cs), keys) && Meaning(Compared(a, b, cs), true) == Meaning(a, true)
  {
    OverUnique(a, keys, cs);
    ComparedOver(a, b, keys, cs);
    ComparedMeaning(a, b, cs);
    MeaningCase(Compared(a, b, cs), a, keys, cs);
  }

  // ----- the round trip -----

  /** The generated patch, if there is one, merged into `target` gives what `to` means. */
  ghost predicate MergeTrips(target: Json, from: Json, to: Json, gcs: bool, mcs: bool) {
    match Generate(from, to, gcs)
    case None => Meaning(target, true) == Meaning(to, true)
    case Some(p) => Meaning(Merge(Some(target), p, mcs), true) == Meaning(to, true)
  }

  /**
   On compatible keys, generating (in mode `gcs`) and merging (in mode `mcs`) into any document
   that means what `from` means makes the round trip exactly when the nulls of `to` are in `from`
   already; and there is no patch exactly when both are objects with the same meaning.
   */
  lemma {:induction false} MergeRoundTripExact(target: Json, from: Json, to: Json, keys: set<string>, gcs: bool, mcs: bool)
    requires OrderCompatible(keys) && Over(from, keys) && Over(to, keys)
    requires Over(target, keys) && Meaning(target, true) == Meaning(from, true)
    ensures Generate(from, to, gcs) == None <==> from.Obj? && to.Obj? && Meaning(from, true) == Meaning(to, true)
    ensures MergeTrips(target, from, to, gcs, mcs) <==> NullOk(from, to)
    decreases Size(from) + Size(to), 0
  {
    CompatibleIsCaseDistinct(keys);
    if !to.Obj? {
    } else if !from.Obj? {
      MergeFresh(Some(target), to, keys, mcs);
    } else {
      ObjectsTrip(target.members, from.members, to.members, keys, gcs, mcs);
    }
  }

  lemma {:induction false} ObjectsTrip(target: seq<Member>, from: seq<Member>, to: seq<Member>, keys: set<string>,
      gcs: bool, mcs: bool)
    requires OrderCompatible(keys) && Over(Obj(from), keys) && Over(Obj(to), keys)
    requires Over(Obj(target), keys) && MembersMeaning(target, true) == MembersMeaning(from, true)
    ensures Generate(Obj(from), Obj(to), gcs) == None <==> MembersMeaning(from, true) == MembersMeaning(to, true)
    ensures MergeTrips(Obj(target), Obj(from), Obj(to), gcs, mcs) <==> NullOk(Obj(from), Obj(to))
    decreases MembersSize(from) + MembersSize(to) + 1, 1
  {
    CompatibleIsCaseDistinct(keys);
    var es := GeneratedEachKey(from, to, keys, gcs);
    var r := MergeMembers(target, es, mcs);
    MergeEachKey(target, es, keys, mcs);
    MeaningByLookup(target, from);
    forall n ensures KeySame(from, to, es, n) && KeyOk(from, to, r, n) {
      assert EditAt(from, to, es, n, gcs) && MergedAt(target, es, r, n, mcs) && SameLookup(target, from, n);
      KeyTrip(target, from, to, es, r, n, keys, gcs, mcs);
    }
    NothingToDo(from, to, es);
    AllKeysOk(from, to, r);
  }

  predicate KeySame(from: seq<Member>, to: seq<Member>, es: seq<Member>, n: string) {
    SameLookup(from, to, n) <==> !Has(es, n, true)
  }

  predicate KeyOk(from: seq<Member>, to: seq<Member>, r: seq<Member>, n: string) {
    SameLookup(r, to, n) <==> !Has(to, n, true) || MemberOk(from, to[IndexOf(to, n, true)])
  }

  lemma NothingToDo(from: seq<Member>, to: seq<Member>, es: seq<Member>)
    requires forall n :: KeySame(from, to, es, n)
    ensures es == [] <==> MembersMeaning(from, true) == MembersMeaning(to, true)
  {
    MeaningByLookup(from, to);
    if es == [] {
      forall n ensures SameLookup(from, to, n) {
        assert KeySame(from, to, es, n);
      }
    } else {
      assert Has(es, es[0].key, true) && KeySame(from, to, es, es[0].key);
    }
  }

  lemma AllKeysOk(from: seq<Member>, to: seq<Member>, r: seq<Member>)
    requires DistinctKeys(to, true) && forall n :: KeyOk(from, to, r, n)
    ensures MembersMeaning(r, true) == MembersMeaning(to, true) <==> NullOk(Obj(from), Obj(to))
  {
    MeaningByLookup(r, to);
    if forall n :: SameLookup(r, to, n) {
      forall i | 0 <= i < |to| ensures MemberOk(from, to[i]) {
        IndexOfDistinct(to, i, true);
        assert SameLookup(r, to, to[i].key) && KeyOk(from, to, r, to[i].key);
      }
    }
    if NullOk(Obj(from), Obj(to)) {
      forall n ensures SameLookup(r, to, n) {
        assert KeyOk(from, to, r, n);
      }
    }
  }

  /** One key of two objects. */
  lemma {:induction false} KeyTrip(target: seq<Member>, from: seq<Member>, to: seq<Member>, es: seq<Member>, r: seq<Member>,
      n: string, keys: set<string>, gcs: bool, mcs: bool)
    requires OrderCompatible(keys) && Over(Obj(from), keys) && Over(Obj(to), keys) && Over(Obj(target), keys)
    requires EditAt(from, to, es, n, gcs) && MergedAt(target, es, r, n, mcs) && SameLookup(target, from, n)
    ensures KeySame(from, to, es, n) && KeyOk(from, to, r, n)
    decreases MembersSize(from) + MembersSize(to) + 1, 0
  {
    CompatibleIsCaseDistinct(keys);
    if Has(to, n, true) {
      var t := to[IndexOf(to, n, true)].value;
      if Has(from, n, true) {
        CommonTrip(Get(target, n, true).value, Get(from, n, true).value, t, keys, gcs, mcs);
      } else {
        MergeFresh(None, t, keys, mcs);
      }
    }
  }

  /** A key of both objects: the comparison sorts both values first. */
  lemma {:induction false} CommonTrip(g: Json, f: Json, t: Json, keys: set<string>, gcs: bool, mcs: bool)
    requires OrderCompatible(keys) && Over(f, keys) && Over(t, keys)
    requires Over(g, keys) && Meaning(g, true) == Meaning(f, true)
    ensures CompareJson(f, t, gcs) <==> Meaning(f, true) == Meaning(t, true)
    ensures Meaning(f, true) == Meaning(t, true) ==> NullOk(f, t)
    ensures var f', t' := Compared(f, t, gcs), Compared(t, f, gcs);
            && (Generate(f', t', false) == None <==> f.Obj? && t.Obj? && Meaning(f, true) == Meaning(t, true))
            && (MergeTrips(g, f', t', false, mcs) <==> NullOk(f, t)) && Meaning(t', true) == Meaning(t, true)
    decreases Size(f) + Size(t), 1
  {
    hide Over, OrderCompatible, Generate, NullOk, Compared, CompareJson, MergeTrips;
    CompatibleIsCaseDistinct(keys);
    CompareOver(f, t, keys, gcs);
    var f', t' := Compared(f, t, gcs), Compared(t, f, gcs);
    ComparedSame(f, t, keys, gcs);
    ComparedSame(t, f, keys, gcs);
    MergeRoundTripExact(g, f', t', keys, false, mcs);
    if NullOk(f, t) {
      NullOkMeaning(f, t, f', t', keys);
    }
    if NullOk(f', t') {
      NullOkMeaning(f', t', f, t, keys);
    }
    if Meaning(f, true) == Meaning(t, true) {
      EqualIsNullOk(f, t, keys);
    }
  }
}
