/** The round trip of JSON Patch: generate, apply, and compare with the target. */
module PatchTheorem {
  import opened Wrappers
  import opened Keys
  import opened Json
  import opened Compare
  import opened Decimal
  import opened PointerLookup
  import opened SortedObjects
  import opened PatchApply
  import opened PatchCreate
  import opened PatchSteps
  import opened PatchSound

  ghost predicate Reaches(doc: Json, es: seq<Edit>, to: Json, cs: bool) {
    var r := ApplyEdits(doc, es, cs);
    r.status == 0 && Meaning(r.doc, true) == Meaning(to, true)
  }

  // ----- arrays -----

  /** `pre` is done, `fs` is still as it was; what follows turns `fs` into `ts`. */
  lemma {:induction false} ItemsReach(pre: seq<Json>, fs: seq<Json>, ts: seq<Json>, keys: set<string>, cs: bool)
    returns (res: seq<Json>)
    requires GoodKeys(keys) && (fs != [] ==> |pre| + |fs| < SIZE_MODULUS)
    requires forall i :: 0 <= i < |fs| ==> Over(fs[i], keys)
    requires forall i :: 0 <= i < |ts| ==> Over(ts[i], keys)
    ensures ApplyEdits(Arr(pre + fs), ItemEdits("", fs, ts, |pre|, cs), cs) == Outcome(0, Arr(pre + res))
    ensures ItemsMeaning(res, true) == ItemsMeaning(ts, true)
    decreases ItemsSize(fs), |fs| + |ts| + 1
  {
    if fs != [] && ts != [] {
      res := ReachCommonItem(pre, fs, ts, keys, cs);
    } else if fs != [] {
      res := ReachRemovedItem(pre, fs, ts, keys, cs);
    } else if ts != [] {
      res := ReachAddedItem(pre, fs, ts, keys, cs);
    } else {
      res := [];
    }
  }

  lemma {:induction false} ReachRemovedItem(pre: seq<Json>, fs: seq<Json>, ts: seq<Json>, keys: set<string>, cs: bool)
    returns (res: seq<Json>)
    requires GoodKeys(keys) && fs != [] && ts == [] && |pre| + |fs| < SIZE_MODULUS
    requires forall i :: 0 <= i < |fs| ==> Over(fs[i], keys)
    ensures ApplyEdits(Arr(pre + fs), ItemEdits("", fs, ts, |pre|, cs), cs) == Outcome(0, Arr(pre + res))
    ensures ItemsMeaning(res, true) == ItemsMeaning(ts, true)
    decreases ItemsSize(fs), |fs| + |ts| + 1, 0
  {
    RemoveNext(pre, fs, cs);
    res := ItemsReach(pre, fs[1..], ts, keys, cs);
    OneEdit(Arr(pre + fs), Edit(REMOVE, KeyPath("", Dec(|pre|)), None), ItemEdits("", fs[1..], ts, |pre|, cs), cs);
  }

  lemma {:induction false} ReachAddedItem(pre: seq<Json>, fs: seq<Json>, ts: seq<Json>, keys: set<string>, cs: bool)
    returns (res: seq<Json>)
    requires GoodKeys(keys) && fs == [] && ts != []
    requires forall i :: 0 <= i < |ts| ==> Over(ts[i], keys)
    ensures ApplyEdits(Arr(pre + fs), ItemEdits("", fs, ts, |pre|, cs), cs) == Outcome(0, Arr(pre + res))
    ensures ItemsMeaning(res, true) == ItemsMeaning(ts, true)
    decreases ItemsSize(fs), |fs| + |ts| + 1, 0
  {
    AppendNext(pre, ts[0], cs);
    assert pre + fs == pre && (pre + [ts[0]]) + fs == pre + [ts[0]];
    var tail := ItemsReach(pre + [ts[0]], fs, ts[1..], keys, cs);
    OneEdit(Arr(pre), Edit(ADD, KeyPath("", "-"), Some(ts[0])), ItemEdits("", fs, ts[1..], |pre| + 1, cs), cs);
    res := [ts[0]] + tail;
    ShiftPre(pre, ts[0], tail);
    ConsMeaning(ts[0], tail, ts);
  }

  lemma {:induction false} ReachCommonItem(pre: seq<Json>, fs: seq<Json>, ts: seq<Json>, keys: set<string>, cs: bool)
    returns (res: seq<Json>)
    requires GoodKeys(keys) && |pre| + |fs| < SIZE_MODULUS && fs != [] && ts != []
    requires forall i :: 0 <= i < |fs| ==> Over(fs[i], keys)
    requires forall i :: 0 <= i < |ts| ==> Over(ts[i], keys)
    ensures ApplyEdits(Arr(pre + fs), ItemEdits("", fs, ts, |pre|, cs), cs) == Outcome(0, Arr(pre + res))
    ensures ItemsMeaning(res, true) == ItemsMeaning(ts, true)
    decreases ItemsSize(fs), |fs| + |ts| + 1, 0
  {
    var es := CreateEdits("", fs[0], ts[0], cs);
    EditsReach(fs[0], ts[0], keys, cs);
    var g := FirstItemReached(pre, fs, ts[0], keys, cs);
    var tail := ItemsReach(pre + [g], fs[1..], ts[1..], keys, cs);
    ItemEditsCommon(|pre|, fs, ts, cs);
    EditsConcat(Arr(pre + fs), CreateEdits(IndexPath("", |pre|), fs[0], ts[0], cs),
                ItemEdits("", fs[1..], ts[1..], |pre| + 1, cs), cs);
    res := [g] + tail;
    ShiftPre(pre, g, tail);
    ConsMeaning(g, tail, ts);
  }

  lemma RemoveNext(pre: seq<Json>, fs: seq<Json>, cs: bool)
    requires fs != [] && |pre| + |fs| < SIZE_MODULUS
    ensures ApplyEdit(Arr(pre + fs), Edit(REMOVE, KeyPath("", Dec(|pre|)), None), cs) == Outcome(0, Arr(pre + fs[1..]))
  {
    RemoveItem(pre + fs, |pre|, cs);
    assert RemoveAt(pre + fs, |pre|) == pre + fs[1..];
  }

  lemma AppendNext(pre: seq<Json>, v: Json, cs: bool)
    ensures ApplyEdit(Arr(pre), Edit(ADD, KeyPath("", "-"), Some(v)), cs) == Outcome(0, Arr(pre + [v]))
  {
    AppendItem(pre, v, cs);
  }

  lemma ShiftPre(pre: seq<Json>, g: Json, tail: seq<Json>)
    ensures (pre + [g]) + tail == pre + ([g] + tail)
  {
  }

  lemma ConsMeaning(g: Json, tail: seq<Json>, ts: seq<Json>)
    requires ts != [] && Meaning(g, true) == Meaning(ts[0], true)
    requires ItemsMeaning(tail, true) == ItemsMeaning(ts[1..], true)
    ensures ItemsMeaning([g] + tail, true) == ItemsMeaning(ts, true)
  {
    assert ([g] + tail)[1..] == tail;
  }

  lemma ItemEditsCommon(pre: nat, fs: seq<Json>, ts: seq<Json>, cs: bool)
    requires fs != [] && ts != []
    ensures ItemEdits("", fs, ts, pre, cs) ==
            CreateEdits(IndexPath("", pre), fs[0], ts[0], cs) + ItemEdits("", fs[1..], ts[1..], pre + 1, cs)
  {
  }

  lemma FirstItemReached(pre: seq<Json>, fs: seq<Json>, to: Json, keys: set<string>, cs: bool) returns (g: Json)
    requires |pre| + |fs| < SIZE_MODULUS && fs != [] && Reaches(fs[0], CreateEdits("", fs[0], to, cs), to, cs)
    ensures Meaning(g, true) == Meaning(to, true)
    ensures ApplyEdits(Arr(pre + fs), CreateEdits(IndexPath("", |pre|), fs[0], to, cs), cs) ==
            Outcome(0, Arr((pre + [g]) + fs[1..]))
  {
    var es := CreateEdits("", fs[0], to, cs);
    EditsLocal(fs[0], to, cs);
    EditsLift(IndexPath("", |pre|), fs[0], to, cs);
    g := ApplyEdits(fs[0], es, cs).doc;
    assert (pre + fs)[|pre|] == fs[0];
    EditItemAll(pre + fs, |pre|, es, cs);
    assert (pre + fs)[|pre| := g] == (pre + [g]) + fs[1..];
  }

  // ----- objects -----

  /** What key `n` holds at the end: the value of `to`, nothing, or what it held before. */
  ghost predicate FinalAt(cur: seq<Member>, fs: seq<Member>, ts: seq<Member>, res: seq<Member>, n: string) {
    if Has(ts, n, true) then
      Has(res, n, true) && Meaning(Get(res, n, true).value, true) == Meaning(Get(ts, n, true).value, true)
    else if Has(fs, n, true) then !Has(res, n, true)
    else Get(res, n, true) == Get(cur, n, true)
  }

  lemma TailLookups(ms: seq<Member>, cs: bool)
    requires ms != [] && StrictlyAscending(ms, cs)
    ensures StrictlyAscending(ms[1..], cs)
    ensures !Has(ms[1..], ms[0].key, true) && Get(ms, ms[0].key, true) == Some(ms[0].value)
    ensures forall n :: n != ms[0].key ==> Get(ms, n, true) == Get(ms[1..], n, true)
  {
    NotBelow(ms[0].key, ms[1..], cs);
    forall n | n != ms[0].key ensures Get(ms, n, true) == Get(ms[1..], n, true) {
      assert IndexOf(ms, n, true) == 1 + IndexOf(ms[1..], n, true);
    }
  }

  lemma NotBelow(k: string, ms: seq<Member>, cs: bool)
    requires StrictlyAscending(ms, cs) && (ms != [] ==> Before(k, ms[0].key, cs))
    ensures !Has(ms, k, true)
  {
    var i := IndexOf(ms, k, true);
    if i < |ms| {
      KeyOrder(k, ms[0].key, ms[i].key, cs);
      KeyOrder(k, k, k, cs);
      assert false;
    }
  }

  lemma SameKeySame(a: string, b: string, keys: set<string>, cs: bool)
    requires CaseDistinct(keys) && a in keys && b in keys && SameKey(a, b, cs)
    ensures a == b
  {
    KeyOrder(a, b, a, cs);
  }

  /** The part of the object that is not dealt with yet is still as in `from`. */
  ghost predicate Untouched(cur: seq<Member>, fs: seq<Member>, ts: seq<Member>) {
    && (forall i :: 0 <= i < |fs| ==> Get(cur, fs[i].key, true) == Some(fs[i].value))
    && (forall i :: 0 <= i < |ts| ==> !Has(fs, ts[i].key, true) ==> !Has(cur, ts[i].key, true))
  }

  ghost predicate Listed(ms: seq<Member>, keys: set<string>, cs: bool) {
    StrictlyAscending(ms, cs) && KeysIn(ms, keys) && forall i :: 0 <= i < |ms| ==> Over(ms[i].value, keys)
  }

  lemma {:induction false} MembersReach(cur: seq<Member>, fs: seq<Member>, ts: seq<Member>, keys: set<string>, cs: bool)
    returns (res: seq<Member>)
    requires GoodKeys(keys) && DistinctKeys(cur, true) && KeysIn(cur, keys)
    requires Listed(fs, keys, cs) && Listed(ts, keys, cs) && Untouched(cur, fs, ts)
    ensures ApplyEdits(Obj(cur), MemberEdits("", fs, ts, cs), cs) == Outcome(0, Obj(res))
    ensures forall n :: FinalAt(cur, fs, ts, res, n)
    decreases MembersSize(fs), |fs| + |ts| + 1
  {
    if fs == [] && ts == [] {
      res := cur;
    } else if fs != [] && ts != [] && SameKey(fs[0].key, ts[0].key, cs) {
      res := ReachCommon(cur, fs, ts, keys, cs);
    } else if ts == [] || (fs != [] && Before(fs[0].key, ts[0].key, cs)) {
      res := ReachRemoved(cur, fs, ts, keys, cs);
    } else {
      res := ReachAdded(cur, fs, ts, keys, cs);
    }
  }

  lemma {:induction false} ReachCommon(cur: seq<Member>, fs: seq<Member>, ts: seq<Member>, keys: set<string>, cs: bool)
    returns (res: seq<Member>)
    requires GoodKeys(keys) && DistinctKeys(cur, true) && KeysIn(cur, keys)
    requires Listed(fs, keys, cs) && Listed(ts, keys, cs) && Untouched(cur, fs, ts)
    requires fs != [] && ts != [] && SameKey(fs[0].key, ts[0].key, cs)
    ensures ApplyEdits(Obj(cur), MemberEdits("", fs, ts, cs), cs) == Outcome(0, Obj(res))
    ensures forall n :: FinalAt(cur, fs, ts, res, n)
    decreases MembersSize(fs), |fs| + |ts| + 1, 0
  {
    var k := fs[0].key;
    SameKeySame(k, ts[0].key, keys, cs);
    EditsReach(fs[0].value, ts[0].value, keys, cs);
    var cur' := FirstMemberReached(cur, k, fs[0].value, ts[0].value, keys, cs);
    TailsUntouched(cur, cur', fs, ts, keys, cs);
    res := MembersReach(cur', fs[1..], ts[1..], keys, cs);
    EditsConcat(Obj(cur), CreateEdits(KeyPath("", k), fs[0].value, ts[0].value, cs),
                MemberEdits("", fs[1..], ts[1..], cs), cs);
    FinalCommon(cur, cur', fs, ts, res, cs);
  }

  lemma FirstMemberReached(cur: seq<Member>, k: string, from: Json, to: Json, keys: set<string>, cs: bool)
    returns (cur': seq<Member>)
    requires GoodKeys(keys) && DistinctKeys(cur, true) && KeysIn(cur, keys) && k in keys
    requires Get(cur, k, true) == Some(from) && Reaches(from, CreateEdits("", from, to, cs), to, cs)
    ensures ApplyEdits(Obj(cur), CreateEdits(KeyPath("", k), from, to, cs), cs) == Outcome(0, Obj(cur'))
    ensures DistinctKeys(cur', true) && KeysIn(cur', keys)
    ensures Get(cur', k, true).Some? && Meaning(Get(cur', k, true).value, true) == Meaning(to, true)
    ensures forall n :: n != k ==> Get(cur', n, true) == Get(cur, n, true)
  {
    EditsLocal(from, to, cs);
    EditsLift(KeyPath("", k), from, to, cs);
    cur' := EditMemberAll(cur, k, CreateEdits("", from, to, cs), keys, cs);
  }

  lemma TailsUntouched(cur: seq<Member>, cur': seq<Member>, fs: seq<Member>, ts: seq<Member>, keys: set<string>, cs: bool)
    requires Listed(fs, keys, cs) && Listed(ts, keys, cs) && Untouched(cur, fs, ts)
    requires fs != [] && ts != [] && fs[0].key == ts[0].key
    requires forall n :: n != fs[0].key ==> Get(cur', n, true) == Get(cur, n, true)
    ensures Listed(fs[1..], keys, cs) && Listed(ts[1..], keys, cs) && Untouched(cur', fs[1..], ts[1..])
  {
    TailLookups(fs, cs);
    KeysApart(fs, cs);
    KeysApart(ts, cs);
    forall i | 0 <= i < |ts[1..]| && !Has(fs[1..], ts[1..][i].key, true) ensures !Has(cur', ts[1..][i].key, true) {
      var n := ts[1..][i].key;
      assert n == ts[i + 1].key && Get(fs, n, true) == Get(fs[1..], n, true);
      assert Get(cur', n, true) == Get(cur, n, true);
    }
  }

  lemma FinalCommon(cur: seq<Member>, cur': seq<Member>, fs: seq<Member>, ts: seq<Member>, res: seq<Member>, cs: bool)
    requires StrictlyAscending(fs, cs) && StrictlyAscending(ts, cs)
    requires fs != [] && ts != [] && fs[0].key == ts[0].key
    requires Get(cur', ts[0].key, true).Some?
    requires Meaning(Get(cur', ts[0].key, true).value, true) == Meaning(ts[0].value, true)
    requires forall n :: n != fs[0].key ==> Get(cur', n, true) == Get(cur, n, true)
    requires forall n :: FinalAt(cur', fs[1..], ts[1..], res, n)
    ensures forall n :: FinalAt(cur, fs, ts, res, n)
  {
    TailLookups(fs, cs);
    TailLookups(ts, cs);
    forall n ensures FinalAt(cur, fs, ts, res, n) {
      assert FinalAt(cur', fs[1..], ts[1..], res, n);
      if n != fs[0].key {
        assert Get(fs, n, true) == Get(fs[1..], n, true) && Get(ts, n, true) == Get(ts[1..], n, true);
      }
    }
  }

  lemma KeysApart(ms: seq<Member>, cs: bool)
    requires ms != [] && StrictlyAscending(ms, cs)
    ensures forall i :: 0 <= i < |ms[1..]| ==> ms[1..][i].key != ms[0].key
  {
    forall i | 0 <= i < |ms[1..]| ensures ms[1..][i].key != ms[0].key {
      KeyOrder(ms[0].key, ms[i + 1].key, ms[0].key, cs);
    }
  }

  lemma {:induction false} ReachRemoved(cur: seq<Member>, fs: seq<Member>, ts: seq<Member>, keys: set<string>, cs: bool)
    returns (res: seq<Member>)
    requires GoodKeys(keys) && DistinctKeys(cur, true) && KeysIn(cur, keys)
    requires Listed(fs, keys, cs) && Listed(ts, keys, cs) && Untouched(cur, fs, ts)
    requires fs != [] && (ts != [] ==> Before(fs[0].key, ts[0].key, cs))
    ensures ApplyEdits(Obj(cur), MemberEdits("", fs, ts, cs), cs) == Outcome(0, Obj(res))
    ensures forall n :: FinalAt(cur, fs, ts, res, n)
    decreases MembersSize(fs), |fs| + |ts| + 1, 0
  {
    var k := fs[0].key;
    NotBelow(k, ts, cs);
    NoneHas(ts, k);
    EditRemoves(cur, k, keys, cs);
    TailLookups(fs, cs);
    KeysApart(fs, cs);
    if ts != [] {
      KeyOrder(k, ts[0].key, k, cs);
    }
    RemovedUntouched(cur, fs, ts, keys);
    res := MembersReach(Without(cur, k), fs[1..], ts, keys, cs);
    OneEdit(Obj(cur), Edit(REMOVE, KeyPath("", k), None), MemberEdits("", fs[1..], ts, cs), cs);
    FinalRemoved(cur, fs, ts, res, cs);
  }

  lemma EditRemoves(cur: seq<Member>, k: string, keys: set<string>, cs: bool)
    requires GoodKeys(keys) && DistinctKeys(cur, true) && KeysIn(cur, keys) && k in keys && Has(cur, k, true)
    ensures var cur' := Without(cur, k);
            ApplyEdit(Obj(cur), Edit(REMOVE, KeyPath("", k), None), cs) == Outcome(0, Obj(cur')) &&
            DistinctKeys(cur', true) && KeysIn(cur', keys) && !Has(cur', k, true) &&
            forall n :: n != k ==> Get(cur', n, true) == Get(cur, n, true)
  {
    RemoveKey(cur, k, keys, cs);
    WithoutLookups(cur, k, keys);
  }

  lemma RemovedUntouched(cur: seq<Member>, fs: seq<Member>, ts: seq<Member>, keys: set<string>)
    requires fs != [] && Untouched(cur, fs, ts)
    requires forall i :: 0 <= i < |fs[1..]| ==> fs[1..][i].key != fs[0].key
    requires forall i :: 0 <= i < |ts| ==> ts[i].key != fs[0].key
    requires forall n :: n != fs[0].key ==> Get(Without(cur, fs[0].key), n, true) == Get(cur, n, true)
    requires forall n :: n != fs[0].key ==> Get(fs, n, true) == Get(fs[1..], n, true)
    ensures Untouched(Without(cur, fs[0].key), fs[1..], ts)
  {
    var cur' := Without(cur, fs[0].key);
    forall i | 0 <= i < |ts| && !Has(fs[1..], ts[i].key, true) ensures !Has(cur', ts[i].key, true) {
      assert Get(fs, ts[i].key, true) == Get(fs[1..], ts[i].key, true);
      assert Get(cur', ts[i].key, true) == Get(cur, ts[i].key, true);
    }
  }

  lemma FinalRemoved(cur: seq<Member>, fs: seq<Member>, ts: seq<Member>, res: seq<Member>, cs: bool)
    requires StrictlyAscending(fs, cs) && fs != [] && !Has(ts, fs[0].key, true)
    requires var cur' := Without(cur, fs[0].key);
             !Has(cur', fs[0].key, true) &&
             (forall n :: n != fs[0].key ==> Get(cur', n, true) == Get(cur, n, true)) &&
             forall n :: FinalAt(cur', fs[1..], ts, res, n)
    ensures forall n :: FinalAt(cur, fs, ts, res, n)
  {
    TailLookups(fs, cs);
    forall n ensures FinalAt(cur, fs, ts, res, n) {
      assert FinalAt(Without(cur, fs[0].key), fs[1..], ts, res, n);
      if n != fs[0].key {
        assert Get(fs, n, true) == Get(fs[1..], n, true);
      }
    }
  }

  lemma {:induction false} ReachAdded(cur: seq<Member>, fs: seq<Member>, ts: seq<Member>, keys: set<string>, cs: bool)
    returns (res: seq<Member>)
    requires GoodKeys(keys) && DistinctKeys(cur, true) && KeysIn(cur, keys)
    requires Listed(fs, keys, cs) && Listed(ts, keys, cs) && Untouched(cur, fs, ts)
    requires ts != [] && (fs != [] ==> !Before(fs[0].key, ts[0].key, cs) && !SameKey(fs[0].key, ts[0].key, cs))
    ensures ApplyEdits(Obj(cur), MemberEdits("", fs, ts, cs), cs) == Outcome(0, Obj(res))
    ensures forall n :: FinalAt(cur, fs, ts, res, n)
    decreases MembersSize(fs), |fs| + |ts| + 1, 0
  {
    var k, v := ts[0].key, ts[0].value;
    if fs != [] {
      KeyOrder(fs[0].key, k, k, cs);
    }
    NotBelow(k, fs, cs);
    EditAdds(cur, k, v, keys, cs);
    var cur' := cur + [Member(k, v)];
    TailLookups(ts, cs);
    KeysApart(ts, cs);
    NoneHas(fs, k);
    res := MembersReach(cur', fs, ts[1..], keys, cs);
    OneEdit(Obj(cur), Edit(ADD, KeyPath("", k), Some(v)), MemberEdits("", fs, ts[1..], cs), cs);
    FinalAdded(cur, fs, ts, res, cs);
  }

  lemma NoneHas(ms: seq<Member>, k: string)
    requires !Has(ms, k, true)
    ensures forall i :: 0 <= i < |ms| ==> ms[i].key != k
  {
    forall i | 0 <= i < |ms| ensures ms[i].key != k {
      HasMember(ms, i, true);
    }
  }

  lemma EditAdds(cur: seq<Member>, k: string, v: Json, keys: set<string>, cs: bool)
    requires GoodKeys(keys) && DistinctKeys(cur, true) && KeysIn(cur, keys) && k in keys && !Has(cur, k, true)
    ensures var cur' := cur + [Member(k, v)];
            ApplyEdit(Obj(cur), Edit(ADD, KeyPath("", k), Some(v)), cs) == Outcome(0, Obj(cur')) &&
            DistinctKeys(cur', true) && KeysIn(cur', keys) && Get(cur', k, true) == Some(v) &&
            forall n :: n != k ==> Get(cur', n, true) == Get(cur, n, true)
  {
    AddKey(cur, k, v, keys, cs);
    AppendLookups(cur, k, v, keys);
    assert Without(cur, k) == cur;
  }

  lemma FinalAdded(cur: seq<Member>, fs: seq<Member>, ts: seq<Member>, res: seq<Member>, cs: bool)
    requires StrictlyAscending(ts, cs) && ts != [] && !Has(fs, ts[0].key, true)
    requires var cur' := cur + [ts[0]];
             Get(cur', ts[0].key, true) == Some(ts[0].value) &&
             (forall n :: n != ts[0].key ==> Get(cur', n, true) == Get(cur, n, true)) &&
             forall n :: FinalAt(cur', fs, ts[1..], res, n)
    ensures forall n :: FinalAt(cur, fs, ts, res, n)
  {
    TailLookups(ts, cs);
    forall n ensures FinalAt(cur, fs, ts, res, n) {
      assert FinalAt(cur + [ts[0]], fs, ts[1..], res, n);
      if n != ts[0].key {
        assert Get(ts, n, true) == Get(ts[1..], n, true);
      }
    }
  }

  lemma SortedListed(ms: seq<Member>, keys: set<string>, cs: bool)
    requires CaseDistinct(keys) && Over(Obj(ms), keys)
    ensures Listed(SortMembers(ms, cs), keys, cs)
    ensures MembersMeaning(SortMembers(ms, cs), true) == MembersMeaning(ms, true)
    ensures forall n :: Get(SortMembers(ms, cs), n, true) == Get(ms, n, true)
  {
    var r := SortMembers(ms, cs);
    assert DistinctKeys(ms, cs);
    SortedObject(ms, cs);
    PermutedMeaning(ms, r, true);
    forall n ensures Get(r, n, true) == Get(ms, n, true) {
      PermutedLookup(ms, r, n, true);
    }
    forall i | 0 <= i < |r| ensures r[i].key in keys && Over(r[i].value, keys) {
      var k :| 0 <= k < |ms| && ms[k] == r[i];
    }
  }

  lemma ObjectReached(from: seq<Member>, to: seq<Member>, res: seq<Member>, fs: seq<Member>, ts: seq<Member>)
    requires forall n :: Get(fs, n, true) == Get(from, n, true) && Get(ts, n, true) == Get(to, n, true)
    requires forall n :: FinalAt(from, fs, ts, res, n)
    ensures MembersMeaning(res, true) == MembersMeaning(to, true)
  {
    forall i | 0 <= i < |res| ensures Has(to, res[i].key, true) && SameAt(res, to, res[i].key, true) {
      var n := res[i].key;
      HasMember(res, i, true);
      assert FinalAt(from, fs, ts, res, n) && Get(res, n, true).Some?;
      assert Get(fs, n, true) == Get(from, n, true) && Get(ts, n, true) == Get(to, n, true);
    }
    forall i | 0 <= i < |to| ensures Has(res, to[i].key, true) {
      var n := to[i].key;
      HasMember(to, i, true);
      assert FinalAt(from, fs, ts, res, n) && Get(to, n, true).Some?;
      assert Get(ts, n, true) == Get(to, n, true);
    }
    SameFields(res, to, true);
  }

  /** The edits generated from `from` to `to` turn `from` into a document that means what `to` means. */
  lemma {:induction false} EditsReach(from: Json, to: Json, keys: set<string>, cs: bool)
    requires GoodKeys(keys) && Over(from, keys) && Over(to, keys)
    ensures Reaches(from, CreateEdits("", from, to, cs), to, cs)
    decreases Size(from), 0
  {
    if Kind(from) != Kind(to) {
    } else if from.Arr? {
      var res := ItemsReach([], from.items, to.items, keys, cs);
      assert [] + from.items == from.items && [] + res == res;
    } else if from.Obj? {
      var a, b := from.members, to.members;
      SizePermuted(a, SortMembers(a, cs));
      SortedListed(a, keys, cs);
      SortedListed(b, keys, cs);
      forall i | 0 <= i < |SortMembers(a, cs)|
        ensures Get(a, SortMembers(a, cs)[i].key, true) == Some(SortMembers(a, cs)[i].value)
      {
        assert DistinctKeys(SortMembers(a, cs), true) by { PermutedKeys(a, SortMembers(a, cs), true); }
        IndexOfDistinct(SortMembers(a, cs), i, true);
        assert Get(SortMembers(a, cs), SortMembers(a, cs)[i].key, true) == Get(a, SortMembers(a, cs)[i].key, true);
      }
      forall i | 0 <= i < |SortMembers(b, cs)|
        ensures !Has(SortMembers(a, cs), SortMembers(b, cs)[i].key, true) ==> !Has(a, SortMembers(b, cs)[i].key, true)
      {
        assert Get(SortMembers(a, cs), SortMembers(b, cs)[i].key, true) == Get(a, SortMembers(b, cs)[i].key, true);
      }
      var res := MembersReach(a, SortMembers(a, cs), SortMembers(b, cs), keys, cs);
      ObjectReached(a, b, res, SortMembers(a, cs), SortMembers(b, cs));
    }
  }
}
