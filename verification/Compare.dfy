/**
 `cJSON_Compare`, with the exact set of inputs on which it answers true.
 */
module Compare {
  import opened Json

  function Size(j: Json): nat
    decreases j
  {
    match j
    case Arr(items) => 1 + ItemsSize(items)
    case Obj(ms) => 1 + MembersSize(ms)
    case _ => 1
  }

  function ItemsSize(items: seq<Json>): (n: nat)
    ensures forall i :: 0 <= i < |items| ==> Size(items[i]) <= n
    decreases items
  {
    if items == [] then 0 else Size(items[0]) + ItemsSize(items[1..])
  }

  function MembersSize(ms: seq<Member>): (n: nat)
    ensures forall i :: 0 <= i < |ms| ==> Size(ms[i].value) <= n
    decreases ms
  {
    if ms == [] then 0 else Size(ms[0].value) + MembersSize(ms[1..])
  }

  /** `cJSON_Compare` on two different nodes. */
  predicate Compare(a: Json, b: Json, cs: bool)
    decreases Size(a) + Size(b), 1
  {
    if Kind(a) != Kind(b) then false
    else match a
      case Invalid => false
      case Null => true
      case Bool(_) => true
      case Num(n) => n == b.n
      case Str(s) => s == b.s
      case Arr(items) =>
        |items| == |b.items| &&
        forall i :: 0 <= i < |items| ==> Compare(items[i], b.items[i], cs)
      case Obj(ms) => Covers(ms, b.members, cs) && Covers(b.members, ms, cs)
  }

  /** Every member of `a` compares equal to the member that a lookup finds in `b`. */
  predicate Covers(a: seq<Member>, b: seq<Member>, cs: bool)
    decreases MembersSize(a) + MembersSize(b) + 2, 0
  {
    forall i :: 0 <= i < |a| ==> CoversAt(a, b, i, cs)
  }

  predicate CoversAt(a: seq<Member>, b: seq<Member>, i: nat, cs: bool)
    requires i < |a|
    decreases MembersSize(a) + MembersSize(b) + 1, 2
  {
    var k := IndexOf(b, a[i].key, cs);
    k < |b| && Compare(a[i].value, b[k].value, cs)
  }

  /** The loops of `cJSON_Compare`, down to one level. */
  method CompareLoops(a: Json, b: Json, cs: bool) returns (r: bool)
    ensures r == Compare(a, b, cs)
    decreases Size(a) + Size(b)
  {
    if Kind(a) != Kind(b) || a.Invalid? {
      return false;
    }
    match a
    case Num(n) => return n == b.n;
    case Str(s) => return s == b.s;
    case Arr(items) =>
      var i := 0;
      while i < |items| && i < |b.items|
        invariant 0 <= i <= |items| && i <= |b.items|
        invariant forall k :: 0 <= k < i ==> Compare(items[k], b.items[k], cs)
      {
        var same := CompareLoops(items[i], b.items[i], cs);
        if !same {
          return false;
        }
        i := i + 1;
      }
      return i == |items| && i == |b.items|;
    case Obj(ms) =>
      r := CoversLoop(ms, b.members, cs);
      if !r {
        return;
      }
      r := CoversLoop(b.members, ms, cs);
    case _ => return true;
  }

  method CoversLoop(a: seq<Member>, b: seq<Member>, cs: bool) returns (r: bool)
    ensures r == Covers(a, b, cs)
    decreases MembersSize(a) + MembersSize(b) + 1
  {
    for i := 0 to |a|
      invariant forall k :: 0 <= k < i ==> CoversAt(a, b, k, cs)
    {
      var k := GetObjectItem(b, a[i].key, cs);
      if k == |b| {
        assert !CoversAt(a, b, i, cs);
        return false;
      }
      var same := CompareLoops(a[i].value, b[k].value, cs);
      if !same {
        assert !CoversAt(a, b, i, cs);
        return false;
      }
    }
    return true;
  }

  /**
   The trees that compare equal to themselves: no invalid node, and members that share a
   key mean the same as the first of them.
   */
  predicate Coherent(j: Json, cs: bool)
    decreases j
  {
    match j
    case Invalid => false
    case Arr(items) => forall i :: 0 <= i < |items| ==> Coherent(items[i], cs)
    case Obj(ms) => forall i :: 0 <= i < |ms| ==> Coherent(ms[i].value, cs) && FirstLike(ms, i, cs)
    case _ => true
  }

  predicate FirstLike(ms: seq<Member>, i: nat, cs: bool)
    requires i < |ms|
  {
    Has(ms, ms[i].key, cs) &&
    Meaning(ms[i].value, cs) == Meaning(ms[IndexOf(ms, ms[i].key, cs)].value, cs)
  }

  /** `cJSON_Compare` is equality of meaning on coherent trees, and false on all others. */
  lemma {:induction false} CompareExact(a: Json, b: Json, cs: bool)
    ensures Compare(a, b, cs) <==>
            Coherent(a, cs) && Coherent(b, cs) && Meaning(a, cs) == Meaning(b, cs)
    decreases Size(a) + Size(b)
  {
    if Kind(a) != Kind(b) {
    } else if a.Arr? {
      forall i | 0 <= i < |a.items| && i < |b.items|
        ensures Compare(a.items[i], b.items[i], cs) <==>
                Coherent(a.items[i], cs) && Coherent(b.items[i], cs) &&
                ItemsMeaning(a.items, cs)[i] == ItemsMeaning(b.items, cs)[i]
      {
        CompareExact(a.items[i], b.items[i], cs);
      }
      if |a.items| == |b.items| && Compare(a, b, cs) {
        assert ItemsMeaning(a.items, cs) == ItemsMeaning(b.items, cs);
      }
    } else if a.Obj? {
      CompareObjects(a.members, b.members, cs);
    }
  }

  lemma {:induction false} CompareMembers(a: seq<Member>, b: seq<Member>, cs: bool)
    ensures forall i, k :: 0 <= i < |a| && 0 <= k < |b| ==>
              (Compare(a[i].value, b[k].value, cs) <==>
               Coherent(a[i].value, cs) && Coherent(b[k].value, cs) &&
               Meaning(a[i].value, cs) == Meaning(b[k].value, cs))
    decreases MembersSize(a) + MembersSize(b) + 1, 0
  {
    forall i, k | 0 <= i < |a| && 0 <= k < |b|
      ensures Compare(a[i].value, b[k].value, cs) <==>
              Coherent(a[i].value, cs) && Coherent(b[k].value, cs) &&
              Meaning(a[i].value, cs) == Meaning(b[k].value, cs)
    {
      CompareExact(a[i].value, b[k].value, cs);
    }
  }

  lemma {:induction false} CompareObjects(a: seq<Member>, b: seq<Member>, cs: bool)
    ensures Covers(a, b, cs) && Covers(b, a, cs) <==>
            Coherent(Obj(a), cs) && Coherent(Obj(b), cs) && MembersMeaning(a, cs) == MembersMeaning(b, cs)
    decreases MembersSize(a) + MembersSize(b) + 1, 1
  {
    CompareMembers(a, b, cs);
    CompareMembers(b, a, cs);
    if Covers(a, b, cs) && Covers(b, a, cs) {
      CoverCoherent(a, b, cs);
      CoverCoherent(b, a, cs);
      forall i | 0 <= i < |a| ensures Has(b, a[i].key, cs) && SameAt(a, b, a[i].key, cs) {
        HasMember(a, i, cs);
        var f := IndexOf(a, a[i].key, cs);
        assert CoversAt(a, b, i, cs) && CoversAt(a, b, f, cs);
        IndexOfNorm(b, a[i].key, a[f].key, cs);
      }
      forall i | 0 <= i < |b| ensures Has(a, b[i].key, cs) {
        assert CoversAt(b, a, i, cs);
      }
      SameFields(a, b, cs);
    }
    if Coherent(Obj(a), cs) && Coherent(Obj(b), cs) && MembersMeaning(a, cs) == MembersMeaning(b, cs) {
      MeaningCovers(a, b, cs);
      MeaningCovers(b, a, cs);
    }
  }

  lemma CoverCoherent(a: seq<Member>, b: seq<Member>, cs: bool)
    requires Covers(a, b, cs)
    requires forall i, k :: 0 <= i < |a| && 0 <= k < |b| ==>
               (Compare(a[i].value, b[k].value, cs) ==>
                Coherent(a[i].value, cs) && Meaning(a[i].value, cs) == Meaning(b[k].value, cs))
    ensures Coherent(Obj(a), cs)
  {
    forall i | 0 <= i < |a| ensures Coherent(a[i].value, cs) && FirstLike(a, i, cs) {
      HasMember(a, i, cs);
      var f := IndexOf(a, a[i].key, cs);
      IndexOfNorm(b, a[i].key, a[f].key, cs);
      assert CoversAt(a, b, i, cs) && CoversAt(a, b, f, cs);
    }
  }

  lemma MeaningCovers(a: seq<Member>, b: seq<Member>, cs: bool)
    requires Coherent(Obj(a), cs) && Coherent(Obj(b), cs) && MembersMeaning(a, cs) == MembersMeaning(b, cs)
    requires forall i, k :: 0 <= i < |a| && 0 <= k < |b| ==>
               ((Coherent(a[i].value, cs) && Coherent(b[k].value, cs) &&
                 Meaning(a[i].value, cs) == Meaning(b[k].value, cs))
                ==> Compare(a[i].value, b[k].value, cs))
    ensures Covers(a, b, cs)
  {
    forall i | 0 <= i < |a| ensures CoversAt(a, b, i, cs) {
      HasMember(a, i, cs);
      assert FirstLike(a, i, cs);
      FieldIs(a, a[i].key, cs);
      FieldIs(b, a[i].key, cs);
    }
  }

  /** Trees with unique keys and no invalid node are coherent. */
  lemma {:induction false} UniqueIsCoherent(j: Json, cs: bool)
    requires UniqueKeys(j, cs) && AllValid(j)
    ensures Coherent(j, cs)
    decreases j
  {
    match j
    case Arr(items) =>
      forall i | 0 <= i < |items| ensures Coherent(items[i], cs) {
        UniqueIsCoherent(items[i], cs);
      }
    case Obj(ms) =>
      forall i | 0 <= i < |ms| ensures Coherent(ms[i].value, cs) && FirstLike(ms, i, cs) {
        UniqueIsCoherent(ms[i].value, cs);
        IndexOfDistinct(ms, i, cs);
      }
    case _ =>
  }

  predicate AllValid(j: Json)
    decreases j
  {
    match j
    case Invalid => false
    case Arr(items) => forall i :: 0 <= i < |items| ==> AllValid(items[i])
    case Obj(ms) => forall i :: 0 <= i < |ms| ==> AllValid(ms[i].value)
    case _ => true
  }

  /** A node without its children. */
  function Shallow(item: Json): Json {
    match item
    case Arr(_) => Arr([])
    case Obj(_) => Obj([])
    case _ => item
  }

  /** `cJSON_Duplicate`: the loop appends the copies of the children one by one. */
  method Duplicate(item: Json, recurse: bool) returns (copy: Json)
    ensures copy == if recurse then item else Shallow(item)
    decreases item
  {
    copy := Shallow(item);
    if !recurse {
      return;
    }
    match item
    case Arr(items) =>
      var copies := [];
      for i := 0 to |items|
        invariant copies == items[..i]
      {
        var child := Duplicate(items[i], true);
        copies := copies + [child];
      }
      copy := Arr(copies);
    case Obj(ms) =>
      var copies := [];
      for i := 0 to |ms|
        invariant copies == ms[..i]
      {
        var child := Duplicate(ms[i].value, true);
        copies := copies + [Member(ms[i].key, child)];
      }
      copy := Obj(copies);
    case _ =>
  }

  /** A copy, being the same tree, compares equal to its original exactly when the original is coherent. */
  lemma CopyCompares(j: Json, cs: bool)
    ensures Compare(j, j, cs) <==> Coherent(j, cs)
  {
    CompareExact(j, j, cs);
  }

  /** On trees with unique keys `cJSON_Compare` is an equivalence relation. */
  lemma CompareEquivalence(a: Json, b: Json, c: Json, cs: bool)
    requires AllValid(a) && UniqueKeys(a, cs)
    ensures Compare(a, a, cs)
    ensures Compare(a, b, cs) ==> Compare(b, a, cs)
    ensures Compare(a, b, cs) && Compare(b, c, cs) ==> Compare(a, c, cs)
  {
    UniqueIsCoherent(a, cs);
    CompareExact(a, a, cs);
    CompareExact(a, b, cs);
    CompareExact(b, a, cs);
    CompareExact(b, c, cs);
    CompareExact(a, c, cs);
  }

  /** A copy of a tree with a repeated key compares equal to it only if the repeats agree. */
  lemma RepeatedKeyCopy(k: string, v: Json, w: Json, cs: bool)
    requires AllValid(v) && AllValid(w) && UniqueKeys(v, cs) && UniqueKeys(w, cs)
    ensures var j := Obj([Member(k, v), Member(k, w)]);
            Compare(j, j, cs) <==> Meaning(v, cs) == Meaning(w, cs)
  {
    hide Meaning, Compare;
    var ms := [Member(k, v), Member(k, w)];
    CompareExact(Obj(ms), Obj(ms), cs);
    UniqueIsCoherent(v, cs);
    UniqueIsCoherent(w, cs);
    IndexOfUnique(ms, k, cs, 0);
    assert ms[0].value == v && ms[1].value == w && ms[1].key == k;
    assert FirstLike(ms, 1, cs) <==> Meaning(v, cs) == Meaning(w, cs);
  }
}
