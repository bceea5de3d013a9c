/** What single patches do, at the root of a document and below one of its children. */
module PatchSteps {
  import opened Wrappers
  import opened Keys
  import opened Json
  import opened Decimal
  import opened Pointer
  import opened PointerLookup
  import opened PointerDecode
  import opened SortedObjects
  import opened PatchApply
  import opened PatchCreate

  // ----- the keys of a document -----

  predicate KeysIn(ms: seq<Member>, keys: set<string>) {
    forall i :: 0 <= i < |ms| ==> ms[i].key in keys
  }

  /** No two keys differ in case only. */
  predicate CaseDistinct(keys: set<string>) {
    forall a, b :: a in keys && b in keys && Lower(a) == Lower(b) ==> a == b
  }

  /** Keys on which the code can find its way: told apart ignoring case, and decoded back. */
  predicate GoodKeys(keys: set<string>) {
    CaseDistinct(keys) && forall k :: k in keys ==> Safe(k)
  }

  /** With such keys it does not matter whether a lookup is case sensitive. */
  lemma SameIndex(ms: seq<Member>, k: string, keys: set<string>, cs: bool)
    requires CaseDistinct(keys) && KeysIn(ms, keys) && k in keys
    ensures IndexOf(ms, k, cs) == IndexOf(ms, k, true)
  {
    IndexOfUnique(ms, k, cs, IndexOf(ms, k, true));
  }

  // ----- splitting paths -----

  lemma {:induction false} SplitLast(parent: string, token: string)
    requires NoSlash(token)
    ensures Split(parent + "/" + token) == Some((parent, token))
    decreases |token|
  {
    var p := parent + "/" + token;
    if token == "" {
      assert p[..|p| - 1] == parent;
    } else {
      var t := token[..|token| - 1];
      SplitLast(parent, t);
      assert p[..|p| - 1] == parent + "/" + t;
      assert t + [p[|p| - 1]] == token;
    }
  }

  lemma {:induction false} SplitBehind(prefix: string, q: string)
    requires Split(q).Some?
    ensures Split(prefix + q) == Some((prefix + Split(q).value.0, Split(q).value.1))
    decreases |q|
  {
    var p := prefix + q;
    if q[|q| - 1] == '/' {
      assert p[..|p| - 1] == prefix + q[..|q| - 1];
    } else {
      SplitBehind(prefix, q[..|q| - 1]);
      assert p[..|p| - 1] == prefix + q[..|q| - 1];
    }
  }

  lemma {:induction false} SplitRooted(q: string)
    requires q != "" && q[0] == '/'
    ensures Split(q).Some? && Terminates(Split(q).value.0)
    decreases |q|
  {
    if q[|q| - 1] != '/' {
      SplitRooted(q[..|q| - 1]);
    }
  }

  // ----- patches at the root of an object -----

  function Without(ms: seq<Member>, k: string): seq<Member> {
    var i := IndexOf(ms, k, true);
    if i < |ms| then RemoveAt(ms, i) else ms
  }

  lemma RootParent(k: string)
    requires Safe(k)
    ensures Split(KeyPath("", k)) == Some(("", Encode(k))) && Decode(Encode(k)) == k
    ensures KeyPath("", k) != ""
  {
    EncodeNoSlash(k);
    SplitLast("", Encode(k));
    DecodeExact(k);
  }

  lemma DetachKey(ms: seq<Member>, k: string, keys: set<string>, cs: bool)
    requires GoodKeys(keys) && KeysIn(ms, keys) && k in keys && Has(ms, k, true)
    ensures DetachPath(Obj(ms), KeyPath("", k), cs) ==
            Some(Detached(ms[IndexOf(ms, k, true)].value, Obj(Without(ms, k))))
  {
    RootParent(k);
    SameIndex(ms, k, keys, false);
    assert DetachChild(Obj(ms), Encode(k)) ==
           Some(Detached(ms[IndexOf(ms, k, true)].value, Obj(Without(ms, k))));
  }

  lemma RemoveKey(ms: seq<Member>, k: string, keys: set<string>, cs: bool)
    requires GoodKeys(keys) && KeysIn(ms, keys) && k in keys && Has(ms, k, true)
    ensures ApplyOp(Obj(ms), REMOVE, KeyPath("", k), None, None, cs) == Outcome(0, Obj(Without(ms, k)))
  {
    DetachKey(ms, k, keys, cs);
  }

  lemma AddKey(ms: seq<Member>, k: string, v: Json, keys: set<string>, cs: bool)
    requires GoodKeys(keys) && KeysIn(ms, keys) && k in keys
    ensures AddPath(Obj(ms), KeyPath("", k), v, cs) == Outcome(0, Obj(Without(ms, k) + [Member(k, v)]))
    ensures ApplyOp(Obj(ms), ADD, KeyPath("", k), Some(v), None, cs) == Outcome(0, Obj(Without(ms, k) + [Member(k, v)]))
  {
    RootParent(k);
    SameIndex(ms, k, keys, cs);
  }

  /** Lookups after the removal of a key. */
  lemma WithoutLookups(ms: seq<Member>, k: string, keys: set<string>)
    requires DistinctKeys(ms, true) && KeysIn(ms, keys)
    ensures DistinctKeys(Without(ms, k), true) && KeysIn(Without(ms, k), keys)
    ensures !Has(Without(ms, k), k, true)
    ensures forall n :: n != k ==> Get(Without(ms, k), n, true) == Get(ms, n, true)
  {
    var i, r := IndexOf(ms, k, true), Without(ms, k);
    if i < |ms| {
      forall n | n != k ensures Get(r, n, true) == Get(ms, n, true) {
        var x := IndexOf(ms, n, true);
        if x < i {
          IndexOfUnique(r, n, true, x);
        } else if x < |ms| {
          assert x != i;
          IndexOfUnique(r, n, true, x - 1);
        } else {
          IndexOfUnique(r, n, true, |r|);
        }
      }
      assert !Has(r, k, true) by {
        assert forall j :: 0 <= j < |r| ==> r[j].key != k;
      }
    }
  }

  lemma AppendLookups(ms: seq<Member>, k: string, v: Json, keys: set<string>)
    requires DistinctKeys(ms, true) && KeysIn(ms, keys) && !Has(ms, k, true) && k in keys
    ensures var r := ms + [Member(k, v)];
            DistinctKeys(r, true) && KeysIn(r, keys) && Get(r, k, true) == Some(v) &&
            forall n :: n != k ==> Get(r, n, true) == Get(ms, n, true)
  {
    var r := ms + [Member(k, v)];
    assert forall j :: 0 <= j < |ms| ==> r[j] == ms[j] && ms[j].key != k by {
      forall j | 0 <= j < |ms| ensures ms[j].key != k {
        HasMember(ms, j, true);
      }
    }
    IndexOfUnique(r, k, true, |ms|);
    forall n | n != k ensures Get(r, n, true) == Get(ms, n, true) {
      var x := IndexOf(ms, n, true);
      IndexOfUnique(r, n, true, if x < |ms| then x else |r|);
    }
  }

  // ----- patches below a member -----

  function Deep(ms: seq<Member>, i: nat, v: Json): seq<Member>
    requires i < |ms|
  {
    ms[i := ms[i].(value := v)]
  }

  /** The only kinds of edit that are ever generated. */
  predicate Local(e: Edit) {
    && (e.op == ADD || e.op == REMOVE || e.op == REPLACE)
    && (e.op != REMOVE ==> e.value.Some?)
    && (if e.path == "" then e.op == REPLACE else e.path[0] == '/')
  }

  function Lift(prefix: string, e: Edit): Edit {
    e.(path := prefix + e.path)
  }

  lemma ParentUnder(ms: seq<Member>, k: string, q: string, keys: set<string>, cs: bool)
    requires CaseDistinct(keys) && KeysIn(ms, keys) && k in keys && Has(ms, k, true) && q != "" && q[0] == '/'
    ensures Split(q).Some?
    ensures var (q1, q2) := Split(q).value; var i := IndexOf(ms, k, true); var p := KeyPath("", k);
            Split(p + q) == Some((p + q1, q2)) &&
            Resolve(Obj(ms), p + q1, cs) == Under(i, Resolve(ms[i].value, q1, cs))
  {
    SplitRooted(q);
    SplitBehind(KeyPath("", k), q);
    SameIndex(ms, k, keys, cs);
    ResolveMember(ms, k, Split(q).value.0, cs);
    assert KeyPath("", k) == "/" + Encode(k);
  }

  lemma PutUnder(ms: seq<Member>, i: nat, pos: Position, v: Json)
    requires i < |ms| && ValidPosition(ms[i].value, pos)
    ensures ValidPosition(Obj(ms), [i] + pos)
    ensures At(Obj(ms), [i] + pos) == At(ms[i].value, pos)
    ensures Put(Obj(ms), [i] + pos, v) == Obj(Deep(ms, i, Put(ms[i].value, pos, v)))
  {
    assert ([i] + pos)[1..] == pos;
  }

  lemma DetachUnder(ms: seq<Member>, k: string, q: string, keys: set<string>, cs: bool)
    requires CaseDistinct(keys) && KeysIn(ms, keys) && k in keys && Has(ms, k, true) && q != "" && q[0] == '/'
    ensures var i := IndexOf(ms, k, true);
            DetachPath(Obj(ms), KeyPath("", k) + q, cs) ==
            match DetachPath(ms[i].value, q, cs)
            case None => None
            case Some(d) => Some(Detached(d.item, Obj(Deep(ms, i, d.rest))))
  {
    var i := IndexOf(ms, k, true);
    ParentUnder(ms, k, q, keys, cs);
    var r := Resolve(ms[i].value, Split(q).value.0, cs);
    if r.Some? {
      var d := DetachChild(At(ms[i].value, r.value), Split(q).value.1);
      PutUnder(ms, i, r.value, if d.Some? then d.value.rest else Null);
    }
  }

  lemma AddUnder(ms: seq<Member>, k: string, q: string, v: Json, keys: set<string>, cs: bool)
    requires CaseDistinct(keys) && KeysIn(ms, keys) && k in keys && Has(ms, k, true) && q != "" && q[0] == '/'
    ensures var i := IndexOf(ms, k, true); var r := AddPath(ms[i].value, q, v, cs);
            AddPath(Obj(ms), KeyPath("", k) + q, v, cs) == Outcome(r.status, Obj(Deep(ms, i, r.doc)))
  {
    var i := IndexOf(ms, k, true);
    ParentUnder(ms, k, q, keys, cs);
    var r := Resolve(ms[i].value, Split(q).value.0, cs);
    if r.Some? {
      PutUnder(ms, i, r.value, AddChild(At(ms[i].value, r.value), Split(q).value.1, v, cs).doc);
    } else {
      assert Deep(ms, i, ms[i].value) == ms;
    }
  }

  lemma DeepKeys(ms: seq<Member>, i: nat, v: Json, keys: set<string>)
    requires i < |ms| && KeysIn(ms, keys)
    ensures KeysIn(Deep(ms, i, v), keys)
    ensures forall n, cs :: IndexOf(Deep(ms, i, v), n, cs) == IndexOf(ms, n, cs)
  {
    forall n, cs ensures IndexOf(Deep(ms, i, v), n, cs) == IndexOf(ms, n, cs) {
      IndexOfUnique(Deep(ms, i, v), n, cs, IndexOf(ms, n, cs));
    }
  }

  /** A patch below a member patches that member in place. */
  lemma ApplyUnder(ms: seq<Member>, k: string, e: Edit, keys: set<string>, cs: bool)
    requires CaseDistinct(keys) && KeysIn(ms, keys) && k in keys && Has(ms, k, true)
    requires Local(e) && e.path != ""
    requires ApplyEdit(ms[IndexOf(ms, k, true)].value, e, cs).status == 0
    ensures var i := IndexOf(ms, k, true);
            ApplyEdit(Obj(ms), Lift(KeyPath("", k), e), cs) ==
            Outcome(0, Obj(Deep(ms, i, ApplyEdit(ms[i].value, e, cs).doc)))
  {
    var i := IndexOf(ms, k, true);
    var v := ms[i].value;
    if e.op == ADD {
      AddUnder(ms, k, e.path, e.value.value, keys, cs);
    } else {
      DetachUnder(ms, k, e.path, keys, cs);
      if e.op == REPLACE {
        var rest := DetachPath(v, e.path, cs).value.rest;
        var ms' := Deep(ms, i, rest);
        DeepKeys(ms, i, rest, keys);
        AddUnder(ms', k, e.path, e.value.value, keys, cs);
        var w := AddPath(rest, e.path, e.value.value, cs).doc;
        assert Deep(ms', i, w) == Deep(ms, i, w);
      }
    }
  }

  function ApplyEdit(doc: Json, e: Edit, cs: bool): Outcome {
    ApplyOp(doc, e.op, e.path, e.value, None, cs)
  }

  /** `k` now holds `v`, and every other key what it held before. */
  ghost predicate Updated(ms: seq<Member>, ms': seq<Member>, k: string, v: Json, keys: set<string>) {
    && DistinctKeys(ms', true) && KeysIn(ms', keys)
    && Get(ms', k, true) == Some(v)
    && forall n :: n != k ==> Get(ms', n, true) == Get(ms, n, true)
  }

  lemma DeepUpdates(ms: seq<Member>, k: string, v: Json, keys: set<string>)
    requires DistinctKeys(ms, true) && KeysIn(ms, keys) && Has(ms, k, true)
    ensures Updated(ms, Deep(ms, IndexOf(ms, k, true), v), k, v, keys)
  {
    DeepKeys(ms, IndexOf(ms, k, true), v, keys);
  }

  /** Any generated edit, lifted below a member, updates that member and nothing else. */
  lemma EditMember(ms: seq<Member>, k: string, e: Edit, keys: set<string>, cs: bool) returns (ms': seq<Member>)
    requires GoodKeys(keys) && DistinctKeys(ms, true) && KeysIn(ms, keys) && k in keys && Has(ms, k, true)
    requires Local(e) && ApplyEdit(ms[IndexOf(ms, k, true)].value, e, cs).status == 0
    ensures ApplyEdit(Obj(ms), Lift(KeyPath("", k), e), cs) == Outcome(0, Obj(ms'))
    ensures Updated(ms, ms', k, ApplyEdit(ms[IndexOf(ms, k, true)].value, e, cs).doc, keys)
  {
    var i := IndexOf(ms, k, true);
    if e.path == "" {
      assert KeyPath("", k) + e.path == KeyPath("", k);
      DetachKey(ms, k, keys, cs);
      WithoutLookups(ms, k, keys);
      var others := Without(ms, k);
      AddKey(others, k, e.value.value, keys, cs);
      RootParent(k);
      AppendLookups(others, k, e.value.value, keys);
      ms' := others + [Member(k, e.value.value)];
      assert Without(others, k) == others;
    } else {
      ApplyUnder(ms, k, e, keys, cs);
      ms' := Deep(ms, i, ApplyEdit(ms[i].value, e, cs).doc);
      DeepUpdates(ms, k, ApplyEdit(ms[i].value, e, cs).doc, keys);
    }
  }

  // ----- patches in and below an array -----

  lemma IndexToken(i: nat)
    requires i < SIZE_MODULUS
    ensures Encode(Dec(i)) == Dec(i) && Decode(Dec(i)) == Dec(i) && Dec(i) != "-"
    ensures DecodeIndex(Dec(i)) == Some(i)
    ensures NoSlash(Dec(i))
  {
    PlainIsSafe(Dec(i));
    DecodeExact(Dec(i));
    DecodesIndex(i, "");
    assert Dec(i) + "" == Dec(i);
    assert IsDigit(Dec(i)[0]);
  }

  lemma DashToken()
    ensures Encode("-") == "-" && Decode("-") == "-"
  {
    PlainIsSafe("-");
    DecodeExact("-");
  }

  lemma RemoveItem(items: seq<Json>, i: nat, cs: bool)
    requires i < |items| < SIZE_MODULUS
    ensures ApplyOp(Arr(items), REMOVE, KeyPath("", Dec(i)), None, None, cs) == Outcome(0, Arr(RemoveAt(items, i)))
    ensures DetachPath(Arr(items), IndexPath("", i), cs) == Some(Detached(items[i], Arr(RemoveAt(items, i))))
  {
    hide Decode, Encode, CompareJson, DecodeIndex, Dec, RemoveAt, Split;
    IndexToken(i);
    SplitLast("", Dec(i));
    assert KeyPath("", Dec(i)) == IndexPath("", i) == "" + "/" + Dec(i);
  }

  lemma InsertItem(items: seq<Json>, i: nat, v: Json, cs: bool)
    requires i <= |items| < SIZE_MODULUS
    ensures AddPath(Arr(items), IndexPath("", i), v, cs) == Outcome(0, Arr(items[..i] + [v] + items[i..]))
  {
    IndexToken(i);
    SplitLast("", Dec(i));
    assert IndexPath("", i) == "" + "/" + Dec(i);
  }

  lemma AppendItem(items: seq<Json>, v: Json, cs: bool)
    ensures ApplyOp(Arr(items), ADD, KeyPath("", "-"), Some(v), None, cs) == Outcome(0, Arr(items + [v]))
  {
    hide Decode, Encode, CompareJson;
    DashToken();
    SplitLast("", "-");
  }

  lemma ItemParentUnder(items: seq<Json>, i: nat, q: string, cs: bool)
    requires i < |items| < SIZE_MODULUS && q != "" && q[0] == '/'
    ensures Split(q).Some?
    ensures var (q1, q2) := Split(q).value; var p := IndexPath("", i);
            Split(p + q) == Some((p + q1, q2)) &&
            Resolve(Arr(items), p + q1, cs) == Under(i, Resolve(items[i], q1, cs))
  {
    SplitRooted(q);
    SplitBehind(IndexPath("", i), q);
    ResolveItem(items, i, Split(q).value.0, cs);
    assert IndexPath("", i) == "/" + Dec(i);
  }

  lemma PutItem(items: seq<Json>, i: nat, pos: Position, v: Json)
    requires i < |items| && ValidPosition(items[i], pos)
    ensures ValidPosition(Arr(items), [i] + pos)
    ensures At(Arr(items), [i] + pos) == At(items[i], pos)
    ensures Put(Arr(items), [i] + pos, v) == Arr(items[i := Put(items[i], pos, v)])
  {
    assert ([i] + pos)[1..] == pos;
  }

  lemma DetachUnderItem(items: seq<Json>, i: nat, q: string, cs: bool)
    requires i < |items| < SIZE_MODULUS && q != "" && q[0] == '/'
    ensures DetachPath(Arr(items), IndexPath("", i) + q, cs) ==
            match DetachPath(items[i], q, cs)
            case None => None
            case Some(d) => Some(Detached(d.item, Arr(items[i := d.rest])))
  {
    ItemParentUnder(items, i, q, cs);
    var r := Resolve(items[i], Split(q).value.0, cs);
    if r.Some? {
      var d := DetachChild(At(items[i], r.value), Split(q).value.1);
      PutItem(items, i, r.value, if d.Some? then d.value.rest else Null);
    }
  }

  lemma AddUnderItem(items: seq<Json>, i: nat, q: string, v: Json, cs: bool)
    requires i < |items| < SIZE_MODULUS && q != "" && q[0] == '/'
    ensures var r := AddPath(items[i], q, v, cs);
            AddPath(Arr(items), IndexPath("", i) + q, v, cs) == Outcome(r.status, Arr(items[i := r.doc]))
  {
    ItemParentUnder(items, i, q, cs);
    var r := Resolve(items[i], Split(q).value.0, cs);
    if r.Some? {
      PutItem(items, i, r.value, AddChild(At(items[i], r.value), Split(q).value.1, v, cs).doc);
    } else {
      assert items[i := items[i]] == items;
    }
  }

  /** Any generated edit, lifted below an element, updates that element and nothing else. */
  lemma EditItem(items: seq<Json>, i: nat, e: Edit, cs: bool)
    requires i < |items| < SIZE_MODULUS && Local(e) && ApplyEdit(items[i], e, cs).status == 0
    ensures ApplyEdit(Arr(items), Lift(IndexPath("", i), e), cs) ==
            Outcome(0, Arr(items[i := ApplyEdit(items[i], e, cs).doc]))
  {
    var v := items[i];
    if e.path == "" {
      assert IndexPath("", i) + e.path == IndexPath("", i);
      RemoveItem(items, i, cs);
      InsertItem(RemoveAt(items, i), i, e.value.value, cs);
      var r := RemoveAt(items, i);
      assert r[..i] + [e.value.value] + r[i..] == items[i := e.value.value];
    } else if e.op == ADD {
      AddUnderItem(items, i, e.path, e.value.value, cs);
    } else {
      DetachUnderItem(items, i, e.path, cs);
      if e.op == REPLACE {
        var rest := DetachPath(v, e.path, cs).value.rest;
        AddUnderItem(items[i := rest], i, e.path, e.value.value, cs);
        var w := AddPath(rest, e.path, e.value.value, cs).doc;
        assert items[i := rest][i := w] == items[i := w];
      }
    }
  }
}
