/**
 JSON trees as cJSON holds them, and what they mean.

 `Json` keeps the order of object members; `Val` forgets it. Two trees are "equal up to
 member order" when they have the same `Meaning`.
 */
module Json {
  import opened Wrappers
  import opened Keys

  const INT_MIN: int := -0x8000_0000
  const INT_MAX: nat := 0x7FFF_FFFF

  /** The numbers that `valueint` holds; on these `valuedouble` is the same integer. */
  type Int = n: int | INT_MIN <= n <= INT_MAX

  /** `Invalid` is what a patch leaves behind when it removes the root. */
  datatype Json =
    | Invalid
    | Null
    | Bool(b: bool)
    | Num(n: Int)
    | Str(s: string)
    | Arr(items: seq<Json>)
    | Obj(members: seq<Member>)

  datatype Member = Member(key: string, value: Json)

  datatype Val =
    | VInvalid
    | VNull
    | VBool(b: bool)
    | VNum(n: Int)
    | VStr(s: string)
    | VArr(items: seq<Val>)
    | VObj(fields: map<string, Val>)

  /** The type tag: `false` and `true` are different types. */
  function Kind(j: Json): nat {
    match j
    case Invalid => 0
    case Bool(b) => if b then 2 else 1
    case Null => 4
    case Num(_) => 8
    case Str(_) => 16
    case Arr(_) => 32
    case Obj(_) => 64
  }

  // ----- member lookup -----

  /** The position of the first member whose key matches, or the number of members. */
  function IndexOf(ms: seq<Member>, name: string, cs: bool): (i: nat)
    ensures i <= |ms|
    ensures i < |ms| ==> Norm(ms[i].key, cs) == Norm(name, cs)
    ensures forall k :: 0 <= k < i ==> Norm(ms[k].key, cs) != Norm(name, cs)
  {
    if ms == [] || Norm(ms[0].key, cs) == Norm(name, cs) then 0
    else 1 + IndexOf(ms[1..], name, cs)
  }

  predicate Has(ms: seq<Member>, name: string, cs: bool) {
    IndexOf(ms, name, cs) < |ms|
  }

  function Get(ms: seq<Member>, name: string, cs: bool): Option<Json> {
    var i := IndexOf(ms, name, cs);
    if i < |ms| then Some(ms[i].value) else None
  }

  /** The list walk of `get_object_item`. */
  method GetObjectItem(ms: seq<Member>, name: string, cs: bool) returns (i: nat)
    ensures i == IndexOf(ms, name, cs)
  {
    i := 0;
    while i < |ms|
      invariant i <= |ms|
      invariant forall k :: 0 <= k < i ==> Norm(ms[k].key, cs) != Norm(name, cs)
    {
      var diff := CompareStrings(name, ms[i].key, cs);
      KeyOrder(name, ms[i].key, name, cs);
      if diff == 0 {
        break;
      }
      i := i + 1;
    }
    IndexOfUnique(ms, name, cs, i);
  }

  lemma IndexOfUnique(ms: seq<Member>, name: string, cs: bool, i: nat)
    requires i <= |ms| && (i < |ms| ==> Norm(ms[i].key, cs) == Norm(name, cs))
    requires forall k :: 0 <= k < i ==> Norm(ms[k].key, cs) != Norm(name, cs)
    ensures i == IndexOf(ms, name, cs)
  {
  }

  // ----- meaning -----

  function Meaning(j: Json, cs: bool): Val
    decreases j
  {
    match j
    case Invalid => VInvalid
    case Null => VNull
    case Bool(b) => VBool(b)
    case Num(n) => VNum(n)
    case Str(s) => VStr(s)
    case Arr(items) => VArr(ItemsMeaning(items, cs))
    case Obj(ms) => VObj(MembersMeaning(ms, cs))
  }

  function ItemsMeaning(items: seq<Json>, cs: bool): (r: seq<Val>)
    ensures |r| == |items|
    ensures forall i :: 0 <= i < |items| ==> r[i] == Meaning(items[i], cs)
    decreases items
  {
    if items == [] then [] else [Meaning(items[0], cs)] + ItemsMeaning(items[1..], cs)
  }

  /** As for a lookup, the first member of a given key counts. */
  function MembersMeaning(ms: seq<Member>, cs: bool): map<string, Val>
    decreases ms
  {
    if ms == [] then map[]
    else MembersMeaning(ms[1..], cs)[Norm(ms[0].key, cs) := Meaning(ms[0].value, cs)]
  }

  /** The meaning of an object is decided by its lookups. */
  lemma {:induction false} FieldIs(ms: seq<Member>, name: string, cs: bool)
    ensures Has(ms, name, cs) <==> Norm(name, cs) in MembersMeaning(ms, cs)
    ensures Has(ms, name, cs) ==>
              MembersMeaning(ms, cs)[Norm(name, cs)] == Meaning(ms[IndexOf(ms, name, cs)].value, cs)
  {
    if ms != [] {
      FieldIs(ms[1..], name, cs);
    }
  }

  lemma {:induction false} FieldFrom(ms: seq<Member>, cs: bool, n: string) returns (i: nat)
    requires n in MembersMeaning(ms, cs)
    ensures i < |ms| && Norm(ms[i].key, cs) == n
  {
    if Norm(ms[0].key, cs) == n {
      i := 0;
    } else {
      i := FieldFrom(ms[1..], cs, n);
      i := i + 1;
    }
  }

  /** Two member lists mean the same when every lookup finds the same meaning. */
  lemma SameFields(a: seq<Member>, b: seq<Member>, cs: bool)
    requires forall i :: 0 <= i < |a| ==> Has(b, a[i].key, cs) && SameAt(a, b, a[i].key, cs)
    requires forall i :: 0 <= i < |b| ==> Has(a, b[i].key, cs)
    ensures MembersMeaning(a, cs) == MembersMeaning(b, cs)
  {
    hide MembersMeaning, Meaning, IndexOf, Norm;
    var x, y := MembersMeaning(a, cs), MembersMeaning(b, cs);
    forall n | n in x ensures n in y && x[n] == y[n] {
      var i := FieldFrom(a, cs, n);
      FieldIs(a, a[i].key, cs);
      FieldIs(b, a[i].key, cs);
      IndexOfNorm(a, a[i].key, a[IndexOf(a, a[i].key, cs)].key, cs);
      assert SameAt(a, b, a[i].key, cs);
    }
    forall n | n in y ensures n in x {
      var i := FieldFrom(b, cs, n);
      FieldIs(a, b[i].key, cs);
    }
  }

  predicate SameAt(a: seq<Member>, b: seq<Member>, name: string, cs: bool) {
    Has(a, name, cs) && Has(b, name, cs) ==>
      Meaning(a[IndexOf(a, name, cs)].value, cs) == Meaning(b[IndexOf(b, name, cs)].value, cs)
  }

  lemma IndexOfNorm(ms: seq<Member>, n1: string, n2: string, cs: bool)
    requires Norm(n1, cs) == Norm(n2, cs)
    ensures IndexOf(ms, n1, cs) == IndexOf(ms, n2, cs)
  {
    IndexOfUnique(ms, n1, cs, IndexOf(ms, n2, cs));
  }

  lemma {:induction false} HasMember(ms: seq<Member>, i: nat, cs: bool)
    requires i < |ms|
    ensures Has(ms, ms[i].key, cs) && IndexOf(ms, ms[i].key, cs) <= i
  {
  }

  // ----- keys -----

  predicate DistinctKeys(ms: seq<Member>, cs: bool) {
    forall i, j :: 0 <= i < j < |ms| ==> Norm(ms[i].key, cs) != Norm(ms[j].key, cs)
  }

  predicate UniqueKeys(j: Json, cs: bool)
    decreases j
  {
    match j
    case Arr(items) => forall i :: 0 <= i < |items| ==> UniqueKeys(items[i], cs)
    case Obj(ms) => DistinctKeys(ms, cs) && forall i :: 0 <= i < |ms| ==> UniqueKeys(ms[i].value, cs)
    case _ => true
  }

  lemma IndexOfDistinct(ms: seq<Member>, i: nat, cs: bool)
    requires DistinctKeys(ms, cs) && i < |ms|
    ensures IndexOf(ms, ms[i].key, cs) == i
  {
    HasMember(ms, i, cs);
  }
}
