/**
 What `generate_merge_patch` does to the links of its first document: it sorts the objects that both
 documents have in a place, those that its comparisons reach more than once.
 */
module LinkedGeneration {
  import opened Keys
  import opened Json
  import opened SortList
  import opened Compare
  import opened SortedObjects
  import opened CompareEffect
  import opened PatchSteps
  import opened PatchSound
  import opened PatchTheorem
  import opened MergeTheorem
  import opened MergeRoundTrip
  import opened TailLink
  import opened LinkedTree
  import opened LinkOrder
  import opened LinkedTreeLaws
  import opened LinkedMerge

  // ----- the first document afterwards -----

  function GeneratedTree(a: Tree, b: Json, cs: bool): Tree
    requires Formed(a)
    decreases Size(Plain(a)), 0, 0
  {
    if !a.Dict? || !b.Obj? then a
    else
      SortedSize(a.fields, cs);
      FormedSorted(a.fields, cs);
      Dict(WalkedFields(SortFields(a.fields, cs), SortMembers(b.members, cs), cs), AfterSort(SortOrder(a.fields, cs), a.tail))
  }

  /** The walk with `strcmp` over two sorted lists. */
  function WalkedFields(xs: seq<Entry>, ys: seq<Member>, cs: bool): (r: seq<Entry>)
    requires forall i :: 0 <= i < |xs| ==> Formed(xs[i].value)
    ensures |r| == |xs| && forall i :: 0 <= i < |xs| ==> r[i].key == xs[i].key
    decreases MembersSize(PlainFields(xs)), |xs| + 1, |ys|
  {
    if xs == [] || ys == [] then xs
    else
      var diff := StrCmp(xs[0].key, ys[0].key);
      if diff < 0 then [xs[0]] + WalkedFields(xs[1..], ys, cs)
      else if diff > 0 then WalkedFields(xs, ys[1..], cs)
      else [Entry(xs[0].key, CommonTree(xs[0].value, ys[0].value, cs))] + WalkedFields(xs[1..], ys[1..], cs)
  }

  /** A value with a partner under the same key: compared, and generated from if it differs. */
  function CommonTree(v: Tree, y: Json, cs: bool): Tree
    requires Formed(v)
    decreases Size(Plain(v)), 1, 0
  {
    var c := ComparedTree(v, y, cs);
    if CompareJson(Plain(v), y, cs) then c
    else
      PlainCompared(v, y, cs);
      GeneratedTree(c, Compared(y, Plain(v), cs), false)
  }

  // ----- what decides -----

  /** What the other document has under a key; `Null` where it has nothing to go on with. */
  function Partner(b: Json, key: string): Json {
    if b.Obj? && Has(b.members, key, true) then Get(b.members, key, true).value else Null
  }

  /** Every object that both documents have in a place, found through objects only, has its ends in place. */
  predicate MergingKeeps(f: Json, t: Json)
    decreases f
  {
    f.Obj? && t.Obj? ==>
      InPlace(f.members, true) &&
      forall i :: 0 <= i < |f.members| ==> MergingKeeps(f.members[i].value, Partner(t, f.members[i].key))
  }

  /** The same for a document some of whose links may be out of order: those must be right besides. */
  predicate Whole(a: Tree, b: Json)
    decreases a
  {
    match a
    case Leaf(j) => !j.Obj?
    case List(_) => true
    case Dict(fields, tail) =>
      tail.Last? && (b.Obj? ==> InPlace(PlainFields(fields), true)) &&
      forall i :: 0 <= i < |fields| ==> Whole(fields[i].value, Partner(b, fields[i].key))
  }

  lemma {:induction false} WholeAlone(a: Tree, b: Json)
    requires !b.Obj?
    ensures Whole(a, b) <==> Mergeable(a)
    decreases a
  {
    if a.Dict? {
      forall i | 0 <= i < |a.fields|
        ensures Whole(a.fields[i].value, Partner(b, a.fields[i].key)) <==> Mergeable(a.fields[i].value)
      {
        WholeAlone(a.fields[i].value, Partner(b, a.fields[i].key));
      }
    }
  }

  lemma {:induction false} WholeKeeps(a: Tree, b: Json)
    requires Mergeable(a)
    ensures Whole(a, b) <==> MergingKeeps(Plain(a), b)
    decreases a
  {
    if a.Dict? {
      var fields := a.fields;
      forall i | 0 <= i < |fields|
        ensures Whole(fields[i].value, Partner(b, fields[i].key)) <==>
                MergingKeeps(Plain(fields[i].value), Partner(b, fields[i].key))
      {
        WholeKeeps(fields[i].value, Partner(b, fields[i].key));
      }
      if !b.Obj? {
        WholeAlone(a, b);
      }
    }
  }

  /** Only the meaning of the other document matters. */
  lemma {:induction false} WholeSame(a: Tree, b: Json, b': Json, keys: set<string>)
    requires Over(b, keys) && Over(b', keys) && Meaning(b, true) == Meaning(b', true) && Whole(a, b)
    ensures Whole(a, b')
    decreases a
  {
    if a.Dict? {
      forall i | 0 <= i < |a.fields| ensures Whole(a.fields[i].value, Partner(b', a.fields[i].key)) {
        PartnerSame(b, b', a.fields[i].key, keys);
        WholeSame(a.fields[i].value, Partner(b, a.fields[i].key), Partner(b', a.fields[i].key), keys);
      }
    }
  }

  lemma {:induction false} PartnerSame(b: Json, b': Json, key: string, keys: set<string>)
    requires Over(b, keys) && Over(b', keys) && Meaning(b, true) == Meaning(b', true)
    ensures Over(Partner(b, key), keys) && Over(Partner(b', key), keys)
    ensures Meaning(Partner(b, key), true) == Meaning(Partner(b', key), true)
  {
    if b.Obj? {
      MeaningByLookup(b.members, b'.members);
      assert SameLookup(b.members, b'.members, key);
    }
  }

  // ----- sorting what may be sorted already -----

  /** Every object points to its last member or has been sorted before. */
  predicate Tidy(a: Tree)
    decreases a
  {
    match a
    case Leaf(j) => !j.Obj?
    case List(_) => true
    case Dict(fields, tail) =>
      Fits(fields, tail) && (tail.Last? || StrictlyAscending(PlainFields(fields), true)) &&
      forall i :: 0 <= i < |fields| ==> Tidy(fields[i].value)
  }

  lemma {:induction false} MergeableTidy(a: Tree)
    requires Mergeable(a)
    ensures Tidy(a)
    decreases a
  {
    if a.Dict? {
      forall i | 0 <= i < |a.fields| ensures Tidy(a.fields[i].value) {
        MergeableTidy(a.fields[i].value);
      }
    }
  }

  lemma {:induction false} TidyJoined(a: Tree)
    requires Tidy(a)
    ensures Joined(a)
    decreases a
  {
    if a.Dict? {
      forall i | 0 <= i < |a.fields| ensures Joined(a.fields[i].value) {
        TidyJoined(a.fields[i].value);
      }
    }
  }

  lemma {:induction false} BeforeModes(a: string, b: string, keys: set<string>, cs: bool)
    requires OrderCompatible(keys) && a in keys && b in keys
    ensures Before(a, b, cs) <==> Before(a, b, true)
  {
    CompatibleIsCaseDistinct(keys);
    KeyOrder(a, b, "", true);
    KeyOrder(a, b, "", false);
    KeyOrder(b, a, "", true);
    KeyOrder(b, a, "", false);
  }

  lemma {:induction false} InPlaceModes(ms: seq<Member>, keys: set<string>, cs: bool)
    requires OrderCompatible(keys) && KeysIn(ms, keys)
    ensures InPlace(ms, cs) <==> InPlace(ms, true)
  {
    hide Before;
    forall i, j | 0 <= i < |ms| && 0 <= j < |ms| ensures Before(ms[i].key, ms[j].key, cs) <==> Before(ms[i].key, ms[j].key, true) {
      BeforeModes(ms[i].key, ms[j].key, keys, cs);
    }
  }

  /** Sorting what is sorted leaves every place and every link. */
  lemma {:induction false} SortAgain(fields: seq<Entry>, tail: Tail, keys: set<string>, cs: bool)
    requires OrderCompatible(keys) && KeysIn(PlainFields(fields), keys) && StrictlyAscending(PlainFields(fields), true)
    requires Fits(fields, tail)
    ensures AfterSort(SortOrder(fields, cs), tail) == tail
  {
    hide Before, PlainFields;
    var s, ms := Indexed(fields), PlainFields(fields);
    forall i | 0 < i < |s| ensures Before(IndexedKey(s[i - 1]), IndexedKey(s[i]), cs) {
      BeforeModes(ms[i - 1].key, ms[i].key, keys, cs);
    }
    assert Ascending(s, IndexedKey, cs);
    SortUnfold(s, IndexedKey, cs);
    var order := SortOrder(fields, cs);
    assert forall i :: 0 <= i < |order| ==> order[i] == i;
    IdentitySort(order, tail);
  }

  lemma {:induction false} IdentitySort(order: seq<nat>, tail: Tail)
    requires forall i :: 0 <= i < |order| ==> order[i] == i
    requires tail.Inner? ==> tail.k + 1 < |order|
    ensures AfterSort(order, tail) == tail
  {
    if order != [] {
      FindDistinct(order, |order| - 1);
      if tail.Inner? {
        FindDistinct(order, tail.k);
      }
    }
  }

  lemma {:induction false} SortTidy(fields: seq<Entry>, tail: Tail, keys: set<string>, cs: bool)
    requires OrderCompatible(keys) && Over(Obj(PlainFields(fields)), keys)
    requires Fits(fields, tail) && (tail.Last? || StrictlyAscending(PlainFields(fields), true))
    ensures var link := AfterSort(SortOrder(fields, cs), tail);
            Fits(SortFields(fields, cs), link) && (link.Last? <==> tail.Last? && InPlace(PlainFields(fields), true))
    ensures StrictlyAscending(PlainFields(SortFields(fields, cs)), true)
  {
    hide SortOrder, SortFields, AfterSort, PlainFields, Before, InPlace;
    SortedFields(fields, cs);
    SortedCompatible(PlainFields(fields), keys, cs);
    if StrictlyAscending(PlainFields(fields), true) {
      SortAgain(fields, tail, keys, cs);
      AscendingInPlace(PlainFields(fields));
      OnlyLength(fields, SortFields(fields, cs), tail);
    } else {
      SortKeeps(fields, SortFields(fields, cs), cs);
      InPlaceModes(PlainFields(fields), keys, cs);
    }
  }

  lemma {:induction false} OnlyLength(fields: seq<Entry>, others: seq<Entry>, tail: Tail)
    requires Fits(fields, tail) && |fields| == |others|
    ensures Fits(others, tail)
  {
  }

  lemma {:induction false} AscendingInPlace(ms: seq<Member>)
    requires StrictlyAscending(ms, true)
    ensures InPlace(ms, true)
  {
  }

  // ----- what the walks do with each value -----

  /** The fields before and after a sort are the same. */
  lemma {:induction false} SortedValues(fields: seq<Entry>, cs: bool)
    ensures forall i :: 0 <= i < |fields| ==> SortFields(fields, cs)[i] in fields
    ensures forall i :: 0 <= i < |fields| ==> fields[i] in SortFields(fields, cs)
  {
    hide SortOrder, SortFields, Ordered, PlainFields;
    SortedPlaces(fields, cs);
    var order, xs := SortOrder(fields, cs), SortFields(fields, cs);
    forall i | 0 <= i < |fields| ensures xs[i] in fields {
      assert xs[i] == fields[order[i]];
    }
    forall i | 0 <= i < |fields| ensures fields[i] in xs {
      var p := PlaceOf(order, i);
      assert xs[p] == fields[i];
    }
  }

  /** A comparison that stops at the first difference: a value is compared with its partner or left alone. */
  lemma {:induction false} ComparedFieldAt(xs: seq<Entry>, ys: seq<Member>, i: nat, keys: set<string>, cs: bool)
    requires CaseDistinct(keys) && i < |xs|
    requires StrictlyAscending(PlainFields(xs), true) && KeysIn(PlainFields(xs), keys)
    requires StrictlyAscending(ys, true) && KeysIn(ys, keys)
    ensures var v, p := xs[i].value, Partner(Obj(ys), xs[i].key);
            var r := ComparedFields(xs, ys, cs)[i].value;
            r == v || r == ComparedTree(v, p, cs)
    ensures SamePairs(PlainFields(xs), ys, cs) ==>
              var v, p := xs[i].value, Partner(Obj(ys), xs[i].key);
              ComparedFields(xs, ys, cs)[i].value == ComparedTree(v, p, cs) && CompareJson(Plain(v), p, cs)
    decreases |xs|
  {
    hide ComparedTree, CompareJson, Before, Plain, Norm;
    if ys != [] && SameKey(xs[0].key, ys[0].key, cs) {
      SameKeyEqual(xs[0].key, ys[0].key, keys, cs);
      if i == 0 {
        FirstPartner(ys);
      } else {
        var ms := PlainFields(xs);
        assert PlainFields(xs[1..]) == ms[1..];
        NextPartner(ys, ms[0].key, ms[i].key);
        assert xs[1..][i - 1] == xs[i] && ms[1..][i - 1] == ms[i];
        ComparedFieldAt(xs[1..], ys[1..], i - 1, keys, cs);
        PairsTail(ms, ys, cs);
        assert CompareJson(Plain(xs[0].value), ys[0].value, cs) ==>
               ComparedFields(xs, ys, cs)[i] == ComparedFields(xs[1..], ys[1..], cs)[i - 1];
      }
    } else {
      NoPairs(PlainFields(xs), ys, cs);
    }
  }

  lemma {:induction false} PairsTail(ms: seq<Member>, ys: seq<Member>, cs: bool)
    requires ms != [] && ys != []
    ensures SamePairs(ms, ys, cs) ==> SamePairs(ms[1..], ys[1..], cs) && CompareJson(ms[0].value, ys[0].value, cs)
  {
    hide SamePair;
    assert SamePairs(ms, ys, cs) ==> SamePair(ms[0], ys[0], cs);
    PairIs(ms[0], ys[0], cs);
  }

  lemma {:induction false} PairIs(x: Member, y: Member, cs: bool)
    ensures SamePair(x, y, cs) ==> CompareJson(x.value, y.value, cs)
  {
  }

  lemma {:induction false} NoPairs(ms: seq<Member>, ys: seq<Member>, cs: bool)
    requires ms != [] && (ys == [] || !SameKey(ms[0].key, ys[0].key, cs))
    ensures !SamePairs(ms, ys, cs)
  {
    hide CompareJson, SameKey;
    assert |ms| == |ys| ==> !SamePair(ms[0], ys[0], cs);
  }

  lemma {:induction false} SameKeyEqual(a: string, b: string, keys: set<string>, cs: bool)
    requires CaseDistinct(keys) && a in keys && b in keys && SameKey(a, b, cs)
    ensures a == b
  {
    KeyOrder(a, b, "", cs);
  }

  lemma {:induction false} FirstPartner(ys: seq<Member>)
    requires ys != []
    ensures Partner(Obj(ys), ys[0].key) == ys[0].value
  {
  }

  lemma {:induction false} NextPartner(ys: seq<Member>, first: string, key: string)
    requires ys != [] && ys[0].key == first && Before(first, key, true)
    ensures Partner(Obj(ys[1..]), key) == Partner(Obj(ys), key)
  {
    KeyOrder(first, key, "", true);
  }

  /** Without a partner nothing happens. */
  lemma {:induction false} CommonAlone(v: Tree, cs: bool)
    requires Formed(v)
    ensures CommonTree(v, Null, cs) == v && ComparedTree(v, Null, cs) == v
  {
  }

  lemma {:induction false} NoPartner(ys: seq<Member>, key: string)
    requires forall i :: 0 <= i < |ys| ==> Before(key, ys[i].key, true)
    ensures Partner(Obj(ys), key) == Null
  {
    forall i | 0 <= i < |ys| ensures Norm(ys[i].key, true) != Norm(key, true) {
      KeyOrder(key, ys[i].key, "", true);
    }
  }

  lemma {:induction false} LaterPartner(ys: seq<Member>, key: string)
    requires ys != [] && Before(ys[0].key, key, true)
    ensures Partner(Obj(ys[1..]), key) == Partner(Obj(ys), key)
  {
    NextPartner(ys, ys[0].key, key);
  }

  /** The walk treats every value with its partner. */
  lemma {:induction false} WalkedFieldAt(xs: seq<Entry>, ys: seq<Member>, i: nat, cs: bool)
    requires i < |xs| && forall i :: 0 <= i < |xs| ==> Formed(xs[i].value)
    requires StrictlyAscending(PlainFields(xs), true) && StrictlyAscending(ys, true)
    ensures WalkedFields(xs, ys, cs)[i].value == CommonTree(xs[i].value, Partner(Obj(ys), xs[i].key), cs)
    decreases |xs| + |ys|
  {
    hide CommonTree, Before, Plain, Norm;
    CommonAlone(xs[i].value, cs);
    if ys == [] {
      NoPartner(ys, xs[i].key);
    } else {
      var ms, diff := PlainFields(xs), StrCmp(xs[0].key, ys[0].key);
      assert PlainFields(xs[1..]) == ms[1..];
      CompareIs(xs[0].key, ys[0].key);
      if diff < 0 {
        if i == 0 {
          BeforeAll(xs[0].key, ys);
          NoPartner(ys, xs[0].key);
        } else {
          assert xs[1..][i - 1] == xs[i];
          WalkedFieldAt(xs[1..], ys, i - 1, cs);
        }
      } else if diff > 0 {
        assert ms[0].key == xs[0].key && ms[i].key == xs[i].key;
        KeyOrder(ys[0].key, ms[0].key, ms[i].key, true);
        LaterPartner(ys, xs[i].key);
        WalkedFieldAt(xs, ys[1..], i, cs);
      } else if i == 0 {
        FirstPartner(ys);
      } else {
        assert xs[1..][i - 1] == xs[i] && Before(ms[0].key, ms[i].key, true);
        LaterPartner(ys, xs[i].key);
        WalkedFieldAt(xs[1..], ys[1..], i - 1, cs);
      }
    }
  }

  lemma {:induction false} CompareIs(a: string, b: string)
    ensures StrCmp(a, b) < 0 <==> Before(a, b, true)
    ensures StrCmp(a, b) > 0 <==> Before(b, a, true)
    ensures StrCmp(a, b) == 0 <==> a == b
  {
    StrCmpZero(a, b);
    StrCmpFlip(a, b);
  }

  lemma {:induction false} BeforeAll(key: string, ys: seq<Member>)
    requires ys != [] && Before(key, ys[0].key, true) && StrictlyAscending(ys, true)
    ensures forall i :: 0 <= i < |ys| ==> Before(key, ys[i].key, true)
  {
    forall i | 0 <= i < |ys| ensures Before(key, ys[i].key, true) {
      KeyOrder(key, ys[0].key, ys[i].key, true);
    }
  }

  // ----- from the parts to the whole -----

  /** The values of an object, each with its partner. */
  predicate WholeValues(fields: seq<Entry>, b: Json) {
    forall i :: 0 <= i < |fields| ==> Whole(fields[i].value, Partner(b, fields[i].key))
  }

  predicate TidyValues(fields: seq<Entry>) {
    forall i :: 0 <= i < |fields| ==> Tidy(fields[i].value)
  }

  predicate MergeableValues(fields: seq<Entry>) {
    forall i :: 0 <= i < |fields| ==> Mergeable(fields[i].value)
  }

  lemma {:induction false} SortedWhole(fields: seq<Entry>, b: Json, cs: bool)
    ensures WholeValues(SortFields(fields, cs), b) <==> WholeValues(fields, b)
    ensures TidyValues(fields) ==> TidyValues(SortFields(fields, cs))
  {
    hide Whole, Tidy, SortFields, Partner;
    SortedValues(fields, cs);
  }

  /** What the other sorted list has under a key is what the other object has. */
  lemma {:induction false} SortedPartner(bs: seq<Member>, key: string, keys: set<string>, cs: bool)
    requires OrderCompatible(keys) && Over(Obj(bs), keys)
    ensures Partner(Obj(SortMembers(bs, cs)), key) == Partner(Obj(bs), key)
  {
    hide SortMembers;
    SortedCompatible(bs, keys, cs);
    assert Get(SortMembers(bs, cs), key, true) == Get(bs, key, true);
  }

  lemma {:induction false} DictOver(fields: seq<Entry>, i: nat, keys: set<string>)
    requires Over(Obj(PlainFields(fields)), keys) && i < |fields|
    ensures Over(Plain(fields[i].value), keys) && Size(Plain(fields[i].value)) < Size(Obj(PlainFields(fields)))
  {
    assert PlainFields(fields)[i].value == Plain(fields[i].value);
  }

  lemma {:induction false} PartnerOver(b: Json, key: string, keys: set<string>)
    requires Over(b, keys)
    ensures Over(Partner(b, key), keys)
  {
  }

  /** The sorted fields are over the same keys, and as large. */
  lemma {:induction false} SortedOver(fields: seq<Entry>, keys: set<string>, cs: bool)
    requires OrderCompatible(keys) && Over(Obj(PlainFields(fields)), keys)
    ensures Over(Obj(PlainFields(SortFields(fields, cs))), keys)
    ensures Size(Obj(PlainFields(SortFields(fields, cs)))) == Size(Obj(PlainFields(fields)))
  {
    hide SortFields, SortMembers, PlainFields;
    CompatibleIsCaseDistinct(keys);
    SortedFields(fields, cs);
    SortedSize(fields, cs);
    SortedListed(PlainFields(fields), keys, cs);
    SortedCompatible(PlainFields(fields), keys, cs);
    AscendingDistinct(SortMembers(PlainFields(fields), cs));
  }

  lemma {:induction false} AscendingDistinct(ms: seq<Member>)
    requires StrictlyAscending(ms, true)
    ensures DistinctKeys(ms, true)
  {
    hide Before, Norm;
    forall i, j | 0 <= i < j < |ms| ensures Norm(ms[i].key, true) != Norm(ms[j].key, true) {
      KeyOrder(ms[i].key, ms[j].key, "", true);
    }
  }

  /** Comparing breaks no link that was whole, and mends none. */
  lemma {:induction false} WholeCompared(a: Tree, b: Json, keys: set<string>, cs: bool)
    requires OrderCompatible(keys) && Formed(a) && Tidy(a) && Over(Plain(a), keys) && Over(b, keys)
    ensures var c := ComparedTree(a, b, cs); Tidy(c) && (Whole(c, b) <==> Whole(a, b))
    decreases Size(Plain(a)), 1
  {
    if a.Dict? && b.Obj? {
      WholeComparedDict(a.fields, a.tail, b.members, keys, cs);
    }
  }

  lemma {:induction false} WholeComparedDict(fields: seq<Entry>, tail: Tail, bs: seq<Member>, keys: set<string>, cs: bool)
    requires var a := Dict(fields, tail); Formed(a) && Tidy(a)
    requires OrderCompatible(keys) && Over(Obj(PlainFields(fields)), keys) && Over(Obj(bs), keys)
    ensures var a, b := Dict(fields, tail), Obj(bs);
            var c := ComparedTree(a, b, cs); Tidy(c) && (Whole(c, b) <==> Whole(a, b))
    decreases Size(Obj(PlainFields(fields))), 0
  {
    hide SortFields, SortMembers, SortOrder, PlainFields, ComparedFields, AfterSort, InPlace, Fits, Whole, Tidy, Formed, Over,
         OrderCompatible, StrictlyAscending, Partner;
    var b, xs, ys := Obj(bs), SortFields(fields, cs), SortMembers(bs, cs);
    var r := ComparedFields(xs, ys, cs);
    SortedFields(fields, cs);
    SortedSize(fields, cs);
    TidyParts(fields, tail);
    FormedParts(fields, tail);
    FormedSorted(fields, cs);
    SortTidy(fields, tail, keys, cs);
    SortedOver(fields, keys, cs);
    SortedWhole(fields, b, cs);
    forall i | 0 <= i < |xs|
      ensures Tidy(r[i].value) && (Whole(r[i].value, Partner(b, r[i].key)) <==> Whole(xs[i].value, Partner(b, xs[i].key)))
    {
      ComparedValue(xs, bs, i, keys, cs);
      DictOver(xs, i, keys);
      PartnerOver(b, xs[i].key, keys);
      WholeCompared(xs[i].value, Partner(b, xs[i].key), keys, cs);
    }
    OnlyLength(xs, r, AfterSort(SortOrder(fields, cs), tail));
    SameKeysAscend(xs, r);
    WholeParts(fields, tail, b);
    WholeParts(r, AfterSort(SortOrder(fields, cs), tail), b);
    AscendingInPlace(PlainFields(r));
    TidyWhole(r, AfterSort(SortOrder(fields, cs), tail));
    assert ComparedTree(Dict(fields, tail), b, cs) == Dict(r, AfterSort(SortOrder(fields, cs), tail));
  }

  lemma {:induction false} ComparedValue(xs: seq<Entry>, bs: seq<Member>, i: nat, keys: set<string>, cs: bool)
    requires OrderCompatible(keys) && Over(Obj(bs), keys) && Over(Obj(PlainFields(xs)), keys) && i < |xs|
    requires StrictlyAscending(PlainFields(xs), true)
    ensures var v, p, ys := xs[i].value, Partner(Obj(bs), xs[i].key), SortMembers(bs, cs);
            var r := ComparedFields(xs, ys, cs)[i].value;
            && (r == v || r == ComparedTree(v, p, cs))
            && (SamePairs(PlainFields(xs), ys, cs) ==> r == ComparedTree(v, p, cs) && CompareJson(Plain(v), p, cs))
  {
    hide SortMembers, ComparedFields, ComparedTree, CompareJson, StrictlyAscending, Partner, PlainFields, SamePairs, Plain;
    CompatibleIsCaseDistinct(keys);
    SortedCompatible(bs, keys, cs);
    SortedPartner(bs, xs[i].key, keys, cs);
    OverKeys(PlainFields(xs), keys);
    ComparedFieldAt(xs, SortMembers(bs, cs), i, keys, cs);
  }

  lemma {:induction false} OverKeys(ms: seq<Member>, keys: set<string>)
    requires Over(Obj(ms), keys)
    ensures KeysIn(ms, keys)
  {
  }

  lemma {:induction false} TidyParts(fields: seq<Entry>, tail: Tail)
    requires Tidy(Dict(fields, tail))
    ensures Fits(fields, tail) && (tail.Last? || StrictlyAscending(PlainFields(fields), true)) && TidyValues(fields)
  {
  }

  lemma {:induction false} TidyWhole(fields: seq<Entry>, tail: Tail)
    requires Fits(fields, tail) && StrictlyAscending(PlainFields(fields), true) && TidyValues(fields)
    ensures Tidy(Dict(fields, tail))
  {
  }

  lemma {:induction false} FormedParts(fields: seq<Entry>, tail: Tail)
    requires Formed(Dict(fields, tail))
    ensures forall i :: 0 <= i < |fields| ==> Formed(fields[i].value)
  {
  }

  lemma {:induction false} WholeParts(fields: seq<Entry>, tail: Tail, b: Json)
    requires b.Obj?
    ensures Whole(Dict(fields, tail), b) <==> tail.Last? && InPlace(PlainFields(fields), true) && WholeValues(fields, b)
  {
  }

  lemma {:induction false} MergeableParts(fields: seq<Entry>, tail: Tail)
    ensures Mergeable(Dict(fields, tail)) <==> tail.Last? && MergeableValues(fields)
  {
  }

  lemma {:induction false} SameKeysAscend(xs: seq<Entry>, r: seq<Entry>)
    requires |r| == |xs| && forall i :: 0 <= i < |xs| ==> r[i].key == xs[i].key
    requires StrictlyAscending(PlainFields(xs), true)
    ensures StrictlyAscending(PlainFields(r), true)
  {
    hide Before, Plain;
    var x, y := PlainFields(xs), PlainFields(r);
    assert forall i :: 0 <= i < |xs| ==> y[i].key == x[i].key;
  }

  /** A comparison that finds no difference has sorted every object. */
  lemma {:induction false} SameWhole(a: Tree, b: Json, keys: set<string>, cs: bool)
    requires OrderCompatible(keys) && Formed(a) && Over(Plain(a), keys) && Over(b, keys) && CompareJson(Plain(a), b, cs)
    ensures var c := ComparedTree(a, b, cs); Mergeable(c) <==> Whole(c, b)
    decreases Size(Plain(a)), 1
  {
    if a.Dict? {
      SameWholeDict(a.fields, a.tail, b.members, keys, cs);
    }
  }

  lemma {:induction false} SameWholeDict(fields: seq<Entry>, tail: Tail, bs: seq<Member>, keys: set<string>, cs: bool)
    requires Formed(Dict(fields, tail)) && CompareJson(Obj(PlainFields(fields)), Obj(bs), cs)
    requires OrderCompatible(keys) && Over(Obj(PlainFields(fields)), keys) && Over(Obj(bs), keys)
    ensures var c := ComparedTree(Dict(fields, tail), Obj(bs), cs); Mergeable(c) <==> Whole(c, Obj(bs))
    decreases Size(Obj(PlainFields(fields))), 0
  {
    hide SortFields, SortMembers, SortOrder, PlainFields, ComparedFields, AfterSort, InPlace, Fits, Whole, Mergeable, Formed,
         Over, OrderCompatible, StrictlyAscending, Partner, CompareJson, SamePairs;
    var b, xs, ys := Obj(bs), SortFields(fields, cs), SortMembers(bs, cs);
    var r := ComparedFields(xs, ys, cs);
    SortedFields(fields, cs);
    SortedSize(fields, cs);
    FormedParts(fields, tail);
    FormedSorted(fields, cs);
    SortedCompatible(PlainFields(fields), keys, cs);
    SortedOver(fields, keys, cs);
    ObjectsSame(PlainFields(fields), bs, cs);
    forall i | 0 <= i < |xs| ensures Mergeable(r[i].value) <==> Whole(r[i].value, Partner(b, r[i].key)) {
      ComparedValue(xs, bs, i, keys, cs);
      DictOver(xs, i, keys);
      PartnerOver(b, xs[i].key, keys);
      SameWhole(xs[i].value, Partner(b, xs[i].key), keys, cs);
    }
    SameKeysAscend(xs, r);
    AscendingInPlace(PlainFields(r));
    WholeParts(r, AfterSort(SortOrder(fields, cs), tail), b);
    MergeableParts(r, AfterSort(SortOrder(fields, cs), tail));
    assert ComparedTree(Dict(fields, tail), b, cs) == Dict(r, AfterSort(SortOrder(fields, cs), tail));
  }

  /** What a step leaves: over the same keys, sorted where a link is not right, and right where all was whole. */
  ghost predicate Leaves(r: Tree, a: Tree, b: Json, keys: set<string>) {
    Tidy(r) && Over(Plain(r), keys) && (Mergeable(r) <==> Whole(a, b))
  }

  lemma {:induction false} CommonWhole(v: Tree, y: Json, keys: set<string>, cs: bool)
    requires OrderCompatible(keys) && Formed(v) && Tidy(v) && Over(Plain(v), keys) && Over(y, keys)
    ensures Leaves(CommonTree(v, y, cs), v, y, keys)
    decreases Size(Plain(v)), 1, 0
  {
    hide Formed, Tidy, Over, OrderCompatible, Whole, Mergeable, ComparedTree, Compared, CompareJson, GeneratedTree, Plain;
    var c := ComparedTree(v, y, cs);
    CompatibleIsCaseDistinct(keys);
    PlainCompared(v, y, cs);
    WholeCompared(v, y, keys, cs);
    ComparedSame(Plain(v), y, keys, cs);
    if CompareJson(Plain(v), y, cs) {
      SameWhole(v, y, keys, cs);
    } else {
      var y' := Compared(y, Plain(v), cs);
      ComparedSame(y, Plain(v), keys, cs);
      GeneratedWhole(c, y', keys, false);
      if Whole(c, y) {
        WholeSame(c, y, y', keys);
      }
      if Whole(c, y') {
        WholeSame(c, y', y, keys);
      }
    }
  }

  lemma {:induction false} GeneratedWhole(a: Tree, b: Json, keys: set<string>, cs: bool)
    requires OrderCompatible(keys) && Formed(a) && Tidy(a) && Over(Plain(a), keys) && Over(b, keys)
    ensures Leaves(GeneratedTree(a, b, cs), a, b, keys)
    decreases Size(Plain(a)), 0, 1
  {
    if a.Dict? && b.Obj? {
      GeneratedWholeDict(a.fields, a.tail, b.members, keys, cs);
    } else if a.Dict? {
      WholeAlone(a, b);
    }
  }

  lemma {:induction false} GeneratedWholeDict(fields: seq<Entry>, tail: Tail, bs: seq<Member>, keys: set<string>, cs: bool)
    requires var a := Dict(fields, tail); Formed(a) && Tidy(a)
    requires OrderCompatible(keys) && Over(Obj(PlainFields(fields)), keys) && Over(Obj(bs), keys)
    ensures Leaves(GeneratedTree(Dict(fields, tail), Obj(bs), cs), Dict(fields, tail), Obj(bs), keys)
    decreases Size(Obj(PlainFields(fields))), 0, 0
  {
    hide SortFields, SortMembers, SortOrder, PlainFields, WalkedFields, AfterSort, InPlace, Fits, Whole, Mergeable, Formed,
         Over, OrderCompatible, StrictlyAscending, Partner, Tidy, CommonTree;
    var b, xs, ys := Obj(bs), SortFields(fields, cs), SortMembers(bs, cs);
    SortedFields(fields, cs);
    SortedSize(fields, cs);
    TidyParts(fields, tail);
    FormedParts(fields, tail);
    FormedSorted(fields, cs);
    SortTidy(fields, tail, keys, cs);
    SortedOver(fields, keys, cs);
    SortedCompatible(bs, keys, cs);
    SortedWhole(fields, b, cs);
    var r, link := WalkedFields(xs, ys, cs), AfterSort(SortOrder(fields, cs), tail);
    forall i | 0 <= i < |xs| ensures Leaves(r[i].value, xs[i].value, Partner(b, xs[i].key), keys) {
      WalkedFieldAt(xs, ys, i, cs);
      SortedPartner(bs, xs[i].key, keys, cs);
      DictOver(xs, i, keys);
      PartnerOver(b, xs[i].key, keys);
      CommonWhole(xs[i].value, Partner(b, xs[i].key), keys, cs);
    }
    OnlyLength(xs, r, link);
    SameKeysAscend(xs, r);
    WholeParts(fields, tail, b);
    MergeableParts(r, link);
    TidyWhole(r, link);
    SameKeysOver(xs, r, keys);
    PlainDict(r, link);
    ValuesAgree(xs, r, b, keys);
  }

  lemma {:induction false} ValuesAgree(xs: seq<Entry>, r: seq<Entry>, b: Json, keys: set<string>)
    requires |r| == |xs| && forall i :: 0 <= i < |xs| ==> Leaves(r[i].value, xs[i].value, Partner(b, xs[i].key), keys)
    ensures MergeableValues(r) <==> WholeValues(xs, b)
  {
    hide Mergeable, Whole, Partner, Tidy, Over, Plain;
    if MergeableValues(r) {
      forall i | 0 <= i < |xs| ensures Whole(xs[i].value, Partner(b, xs[i].key)) {
        assert Leaves(r[i].value, xs[i].value, Partner(b, xs[i].key), keys);
        assert Mergeable(r[i].value);
      }
    }
  }

  lemma {:induction false} SameKeysOver(xs: seq<Entry>, r: seq<Entry>, keys: set<string>)
    requires |r| == |xs| && forall i :: 0 <= i < |xs| ==> r[i].key == xs[i].key
    requires Over(Obj(PlainFields(xs)), keys) && forall i :: 0 <= i < |r| ==> Over(Plain(r[i].value), keys)
    ensures Over(Obj(PlainFields(r)), keys)
  {
    hide Plain, Norm;
    var x, y := PlainFields(xs), PlainFields(r);
    assert forall i :: 0 <= i < |xs| ==> y[i].key == x[i].key;
  }

  /**
   In the document that a merge patch has been generated from, every patch is merged as it is without
   links exactly when every object that both documents have in a place has its ends in place.
   */
  lemma {:induction false} MergesAfterGenerationExact(from: Tree, to: Json, keys: set<string>, gcs: bool, mcs: bool)
    requires Proper(from) && OrderCompatible(keys) && Over(Plain(from), keys) && Over(to, keys)
    ensures Formed(from)
    ensures EveryMerge(GeneratedTree(from, to, gcs), mcs) <==> MergingKeeps(Plain(from), to)
  {
    hide Formed, Tidy, Over, OrderCompatible, Whole, Mergeable, GeneratedTree, Plain, EveryMerge, MergingKeeps, Proper, Joined,
         UniqueKeys;
    ProperFormed(from);
    ProperMergeable(from);
    MergeableTidy(from);
    GeneratedWhole(from, to, keys, gcs);
    WholeKeeps(from, to);
    var r := GeneratedTree(from, to, gcs);
    TidyJoined(r);
    CompatibleIsCaseDistinct(keys);
    OverUnique(Plain(r), keys, mcs);
    EveryMergeExact(r, mcs);
  }
}
