/** Where the links are right, `apply_patch` does what it does on documents without links, and keeps them right. */
module LinkedTreeLaws {
  import opened Wrappers
  import opened Keys
  import opened Json
  import opened SortList
  import opened Compare
  import opened Pointer
  import opened PointerLookup
  import opened PointerDecode
  import opened SortedObjects
  import opened CompareEffect
  import opened CreateEffect
  import opened PatchApply
  import opened TailLink
  import opened LinkedTree
  import opened LinkOrder

  // ----- copies -----

  /** A copy is the same document, with all its links right. */
  lemma {:induction false} FreshTree(j: Json)
    ensures Plain(Fresh(j)) == j && Proper(Fresh(j))
    decreases j
  {
    match j
    case Arr(items) =>
      forall i | 0 <= i < |items| ensures Plain(Fresh(items[i])) == items[i] && Proper(Fresh(items[i])) {
        FreshTree(items[i]);
      }
      assert PlainItems(FreshItems(items)) == items;
    case Obj(ms) =>
      forall i | 0 <= i < |ms| ensures Plain(Fresh(ms[i].value)) == ms[i].value && Proper(Fresh(ms[i].value)) {
        FreshTree(ms[i].value);
      }
      assert PlainFields(FreshFields(ms)) == ms;
    case _ =>
  }

  lemma {:induction false} ProperFormed(t: Tree)
    requires Proper(t)
    ensures Formed(t)
    decreases t
  {
    match t
    case List(items) =>
      forall i | 0 <= i < |items| ensures Formed(items[i]) { ProperFormed(items[i]); }
    case Dict(fields, _) =>
      forall i | 0 <= i < |fields| ensures Formed(fields[i].value) { ProperFormed(fields[i].value); }
    case Leaf(_) =>
  }

  // ----- places -----

  lemma {:induction false} PlainAt(t: Tree, pos: Position)
    requires Formed(t) && ValidPosition(Plain(t), pos)
    ensures Plain(NodeAt(t, pos)) == At(Plain(t), pos) && Formed(NodeAt(t, pos))
    ensures Proper(t) ==> Proper(NodeAt(t, pos))
    decreases pos
  {
    if pos != [] {
      match t
      case List(items) => PlainAt(items[pos[0]], pos[1..]);
      case Dict(fields, _) => PlainAt(fields[pos[0]].value, pos[1..]);
      case Leaf(_) =>
    }
  }

  lemma {:induction false} PlainPut(t: Tree, pos: Position, v: Tree)
    requires Formed(t) && ValidPosition(Plain(t), pos)
    ensures Plain(PutNode(t, pos, v)) == Put(Plain(t), pos, Plain(v))
    ensures Formed(v) ==> Formed(PutNode(t, pos, v))
    ensures Proper(t) && Proper(v) ==> Proper(PutNode(t, pos, v))
    decreases pos
  {
    if pos != [] {
      match t
      case List(items) =>
        PlainPut(items[pos[0]], pos[1..], v);
        PlainItemsUpdate(items, pos[0], PutNode(items[pos[0]], pos[1..], v));
      case Dict(fields, _) =>
        PlainPut(fields[pos[0]].value, pos[1..], v);
        PlainFieldsUpdate(fields, pos[0], PutNode(fields[pos[0]].value, pos[1..], v));
      case Leaf(_) =>
    }
  }

  lemma PlainItemsUpdate(items: seq<Tree>, i: nat, v: Tree)
    requires i < |items|
    ensures PlainItems(items[i := v]) == PlainItems(items)[i := Plain(v)]
  {
    hide Plain;
  }

  lemma PlainFieldsUpdate(fields: seq<Entry>, i: nat, v: Tree)
    requires i < |fields|
    ensures PlainFields(fields[i := Entry(fields[i].key, v)]) ==
            PlainFields(fields)[i := PlainFields(fields)[i].(value := Plain(v))]
  {
    hide Plain;
  }

  // ----- taking out -----

  lemma RemovedAt<T>(s: seq<T>, i: nat)
    requires i < |s|
    ensures |RemoveAt(s, i)| == |s| - 1
    ensures forall j :: 0 <= j < |s| - 1 ==> RemoveAt(s, i)[j] == s[if j < i then j else j + 1]
  {
  }

  lemma PlainItemsWithout(items: seq<Tree>, i: nat)
    requires i < |items|
    ensures PlainItems(RemoveAt(items, i)) == RemoveAt(PlainItems(items), i)
  {
    hide Plain, PlainItems, RemoveAt;
    RemovedAt(items, i);
    RemovedAt(PlainItems(items), i);
  }

  lemma PlainFieldsWithout(fields: seq<Entry>, i: nat)
    requires i < |fields|
    ensures PlainFields(RemoveAt(fields, i)) == RemoveAt(PlainFields(fields), i)
  {
    hide Plain, PlainFields, RemoveAt;
    RemovedAt(fields, i);
    RemovedAt(PlainFields(fields), i);
  }

  /** The child that is taken out and the parent without it, without their links. */
  ghost predicate TakeRefines(parent: Tree, a: Option<Taken>, b: Option<Detached>) {
    && (a.Some? <==> b.Some?)
    && (a.Some? ==>
         && b.value == Detached(Plain(a.value.item), Plain(a.value.rest))
         && Formed(a.value.item) && Formed(a.value.rest)
         && (Proper(parent) ==> Proper(a.value.item) && Proper(a.value.rest)))
  }

  lemma PlainList(items: seq<Tree>)
    ensures Plain(List(items)) == Arr(PlainItems(items))
  {
  }

  lemma PlainDict(fields: seq<Entry>, tail: Tail)
    ensures Plain(Dict(fields, tail)) == Obj(PlainFields(fields))
  {
  }

  lemma TakeItem(items: seq<Tree>, i: nat)
    requires Formed(List(items)) && i < |items|
    ensures TakeRefines(List(items), Some(Taken(items[i], List(RemoveAt(items, i)))),
                        Some(Detached(PlainItems(items)[i], Arr(RemoveAt(PlainItems(items), i)))))
  {
    hide Plain, PlainItems, RemoveAt;
    RemovedAt(items, i);
    PlainItemsWithout(items, i);
    PlainList(RemoveAt(items, i));
  }

  lemma TakeField(fields: seq<Entry>, tail: Tail, i: nat)
    requires Formed(Dict(fields, tail)) && i < |fields|
    ensures TakeRefines(Dict(fields, tail),
                        Some(Taken(fields[i].value, Dict(RemoveAt(fields, i), AfterRemoval(tail, i, |fields|)))),
                        Some(Detached(PlainFields(fields)[i].value, Obj(RemoveAt(PlainFields(fields), i)))))
  {
    hide Plain, PlainFields, RemoveAt;
    RemovedAt(fields, i);
    PlainFieldsWithout(fields, i);
    PlainDict(RemoveAt(fields, i), AfterRemoval(tail, i, |fields|));
  }

  lemma PlainTakeChild(parent: Tree, token: string)
    requires Formed(parent)
    ensures TakeRefines(parent, TakeChild(parent, token), DetachChild(Plain(parent), token))
  {
    hide Decode, DecodeIndex, IndexOf, PlainItems, PlainFields, Formed, Proper, RemoveAt, TakeRefines;
    match parent
    case List(items) =>
      var i := DecodeIndex(Decode(token));
      if i.Some? && i.value < |items| {
        TakeItem(items, i.value);
      } else {
        NothingTaken(parent);
      }
    case Dict(fields, tail) =>
      var i := IndexOf(PlainFields(fields), Decode(token), false);
      if i < |fields| {
        TakeField(fields, tail, i);
      } else {
        NothingTaken(parent);
      }
    case Leaf(_) =>
      LeafPlain(parent);
      NothingTaken(parent);
  }

  lemma NothingTaken(parent: Tree)
    ensures TakeRefines(parent, None, None)
  {
  }

  lemma LeafPlain(t: Tree)
    requires Formed(t) && t.Leaf?
    ensures !t.j.Arr? && !t.j.Obj?
  {
  }

  lemma PlainTakePath(doc: Tree, path: string, cs: bool)
    requires Formed(doc)
    ensures TakeRefines(doc, TakePath(doc, path, cs), DetachPath(Plain(doc), path, cs))
  {
    hide Resolve, TakeChild, DetachChild, Put, PutNode, Plain, Formed, Proper, Split, At, NodeAt;
    var split := Split(path);
    if split.Some? {
      var pos := Resolve(Plain(doc), split.value.0, cs);
      if pos.Some? {
        PlainAt(doc, pos.value);
        var parent := NodeAt(doc, pos.value);
        PlainTakeChild(parent, split.value.1);
        var d := TakeChild(parent, split.value.1);
        if d.Some? {
          PlainPut(doc, pos.value, d.value.rest);
        }
      }
    }
  }

  // ----- adding -----

  lemma PlainAppend(fields: seq<Entry>, f: Entry)
    ensures PlainFields(fields + [f]) == PlainFields(fields) + [Member(f.key, Plain(f.value))]
  {
    hide Plain;
  }

  lemma PlainInsert(items: seq<Tree>, i: nat, v: Tree)
    requires i <= |items|
    ensures PlainItems(items[..i] + [v] + items[i..]) == PlainItems(items)[..i] + [Plain(v)] + PlainItems(items)[i..]
    ensures PlainItems(items + [v]) == PlainItems(items) + [Plain(v)]
  {
    hide Plain;
  }

  /** The outcome of an addition with its links right. */
  ghost predicate Kept(a: Applied, b: Outcome) {
    a.Done? && b == Outcome(a.status, Plain(a.tree)) && Proper(a.tree)
  }

  lemma GiveItem(items: seq<Tree>, i: nat, v: Tree)
    requires Proper(List(items)) && Proper(v) && i <= |items|
    ensures Kept(Done(0, List(items[..i] + [v] + items[i..])),
                 Outcome(0, Arr(PlainItems(items)[..i] + [Plain(v)] + PlainItems(items)[i..])))
    ensures Kept(Done(0, List(items + [v])), Outcome(0, Arr(PlainItems(items) + [Plain(v)])))
  {
    hide PlainItems;
    PlainInsert(items, i, v);
  }

  lemma GiveField(fields: seq<Entry>, f: Entry)
    requires Proper(Dict(fields, Last)) && Proper(f.value)
    ensures Kept(AppendField(fields, Last, f), Outcome(0, Obj(PlainFields(fields) + [Member(f.key, Plain(f.value))])))
  {
    hide PlainFields;
    PlainAppend(fields, f);
    assert AfterAppend(fields, Last, f) == fields + [f];
  }

  lemma NothingGiven(parent: Tree, status: nat)
    requires Proper(parent)
    ensures Kept(Done(status, parent), Outcome(status, Plain(parent)))
  {
  }

  lemma ProperWithout(fields: seq<Entry>, i: nat)
    requires Proper(Dict(fields, Last)) && i < |fields|
    ensures Proper(Dict(RemoveAt(fields, i), Last))
  {
    hide RemoveAt;
    RemovedAt(fields, i);
  }

  lemma ProperTail(t: Tree)
    requires Proper(t)
    ensures t.Dict? ==> t.tail == Last
    ensures t.Leaf? ==> !t.j.Arr? && !t.j.Obj?
  {
  }

  lemma PlainGiveChild(parent: Tree, token: string, v: Tree, cs: bool)
    requires Proper(parent) && Proper(v)
    ensures Kept(GiveChild(parent, token, v, cs), AddChild(Plain(parent), token, Plain(v), cs))
  {
    hide Decode, DecodeIndex, IndexOf, PlainItems, PlainFields, Proper, RemoveAt, Kept, AppendField;
    var child := Decode(token);
    ProperTail(parent);
    NothingGiven(parent, 9);
    NothingGiven(parent, 10);
    NothingGiven(parent, 11);
    match parent
    case List(items) =>
      var i := DecodeIndex(child);
      GiveItem(items, if i.Some? && i.value <= |items| then i.value else 0, v);
    case Dict(fields, tail) =>
      GiveMember(fields, child, v, cs);
    case Leaf(_) =>
  }

  lemma GiveMember(fields: seq<Entry>, key: string, v: Tree, cs: bool)
    requires Proper(Dict(fields, Last)) && Proper(v)
    ensures var i := IndexOf(PlainFields(fields), key, cs);
            var others := if i < |fields| then RemoveAt(fields, i) else fields;
            var plain := if i < |fields| then RemoveAt(PlainFields(fields), i) else PlainFields(fields);
            Kept(AppendField(others, Last, Entry(key, v)), Outcome(0, Obj(plain + [Member(key, Plain(v))])))
  {
    hide IndexOf, Plain, PlainFields, Proper, RemoveAt, Kept, AppendField;
    var i := IndexOf(PlainFields(fields), key, cs);
    if i < |fields| {
      PlainFieldsWithout(fields, i);
      ProperWithout(fields, i);
      GiveField(RemoveAt(fields, i), Entry(key, v));
    } else {
      GiveField(fields, Entry(key, v));
    }
  }

  lemma PlainGivePath(doc: Tree, path: string, v: Tree, cs: bool)
    requires Proper(doc) && Proper(v)
    ensures Kept(GivePath(doc, path, v, cs), AddPath(Plain(doc), path, Plain(v), cs))
  {
    hide Resolve, GiveChild, AddChild, Put, PutNode, Plain, Formed, Proper, Split, At, NodeAt;
    ProperFormed(doc);
    var split := Split(path);
    if split.Some? {
      var pos := Resolve(Plain(doc), split.value.0, cs);
      if pos.Some? {
        PlainAt(doc, pos.value);
        var parent := NodeAt(doc, pos.value);
        PlainGiveChild(parent, split.value.1, v, cs);
        var a := GiveChild(parent, split.value.1, v, cs);
        ProperFormed(a.tree);
        PlainPut(doc, pos.value, a.tree);
      }
    }
  }

  // ----- comparing -----

  lemma FormedSorted(fields: seq<Entry>, cs: bool)
    requires forall i :: 0 <= i < |fields| ==> Formed(fields[i].value)
    ensures forall i :: 0 <= i < |SortFields(fields, cs)| ==> Formed(SortFields(fields, cs)[i].value)
  {
    hide Formed, Sort;
    var s, r := Indexed(fields), Sort(Indexed(fields), IndexedKey, cs);
    SortPermutes(s, IndexedKey, cs);
    forall i | 0 <= i < |r| ensures Formed(r[i].1.value) {
      assert r[i] in multiset(r) && r[i] in multiset(s);
    }
  }

  lemma {:induction false} PlainCompared(a: Tree, b: Json, cs: bool)
    requires Formed(a)
    ensures Plain(ComparedTree(a, b, cs)) == Compared(Plain(a), b, cs) && Formed(ComparedTree(a, b, cs))
    decreases Size(Plain(a)), 1
  {
    if Kind(Plain(a)) == Kind(b) {
      match a
      case Leaf(_) =>
      case List(items) => PlainComparedList(items, b.items, cs);
      case Dict(fields, tail) => PlainComparedDict(fields, tail, b, cs);
    }
  }

  lemma {:induction false} PlainComparedDict(fields: seq<Entry>, tail: Tail, b: Json, cs: bool)
    requires Formed(Dict(fields, tail)) && b.Obj?
    ensures var r := ComparedTree(Dict(fields, tail), b, cs);
            Plain(r) == Compared(Obj(PlainFields(fields)), b, cs) && Formed(r)
    decreases Size(Obj(PlainFields(fields))), 0
  {
    hide SortFields, SortMembers, SortOrder, PlainFields, ComparedFields, ComparedMembers, AfterSort;
    SortedFields(fields, cs);
    SortedSize(fields, cs);
    FormedSorted(fields, cs);
    PlainComparedFields(SortFields(fields, cs), SortMembers(b.members, cs), cs);
  }

  lemma {:induction false} PlainComparedList(xs: seq<Tree>, ys: seq<Json>, cs: bool)
    requires forall i :: 0 <= i < |xs| ==> Formed(xs[i])
    ensures var r := ComparedList(xs, ys, cs);
            PlainItems(r) == ComparedItems(PlainItems(xs), ys, cs) && forall i :: 0 <= i < |r| ==> Formed(r[i])
    decreases ItemsSize(PlainItems(xs)), |xs| + 1
  {
    hide Plain, Formed, ComparedTree, Compared, CompareJson;
    if xs != [] && ys != [] {
      PlainCompared(xs[0], ys[0], cs);
      PlainComparedList(xs[1..], ys[1..], cs);
      assert PlainItems(xs)[1..] == PlainItems(xs[1..]);
    }
  }

  lemma {:induction false} PlainComparedFields(xs: seq<Entry>, ys: seq<Member>, cs: bool)
    requires forall i :: 0 <= i < |xs| ==> Formed(xs[i].value)
    ensures var r := ComparedFields(xs, ys, cs);
            PlainFields(r) == ComparedMembers(PlainFields(xs), ys, cs) && forall i :: 0 <= i < |r| ==> Formed(r[i].value)
    decreases MembersSize(PlainFields(xs)), |xs| + 1
  {
    hide Plain, Formed, ComparedTree, Compared, CompareJson, SameKey;
    if xs != [] && ys != [] && SameKey(xs[0].key, ys[0].key, cs) {
      PlainCompared(xs[0].value, ys[0].value, cs);
      PlainComparedFields(xs[1..], ys[1..], cs);
      assert PlainFields(xs)[1..] == PlainFields(xs[1..]);
    }
  }

  // ----- which comparisons keep the links -----

  /** A comparison keeps all links right exactly when every object that it reaches has its ends in place. */
  lemma {:induction false} ComparisonLinks(a: Tree, b: Json, cs: bool)
    requires Proper(a)
    ensures Proper(ComparedTree(a, b, cs)) <==> ComparisonKeeps(Plain(a), b, cs)
    decreases Size(Plain(a)), 1
  {
    if Kind(Plain(a)) == Kind(b) {
      match a
      case Leaf(_) =>
      case List(items) =>
        ProperList(items);
        ListLinks(items, b.items, cs);
        ProperList(ComparedList(items, b.items, cs));
      case Dict(fields, _) => ProperTail(a); DictLinks(fields, b, cs);
    }
  }

  lemma {:induction false} DictLinks(fields: seq<Entry>, b: Json, cs: bool)
    requires Proper(Dict(fields, Last)) && b.Obj?
    ensures Proper(ComparedTree(Dict(fields, Last), b, cs)) <==> ComparisonKeeps(Obj(PlainFields(fields)), b, cs)
    decreases Size(Obj(PlainFields(fields))), 0
  {
    hide SortFields, SortMembers, SortOrder, PlainFields, ComparedFields, MembersKeep, AfterSort, InPlace, Fits, CompareJson;
    var xs, ys := SortFields(fields, cs), SortMembers(b.members, cs);
    SortedFields(fields, cs);
    SortedSize(fields, cs);
    SizePermuted(PlainFields(fields), SortMembers(PlainFields(fields), cs));
    ProperSorted(fields, cs);
    FieldsLinks(xs, ys, cs);
    SortKeeps(fields, xs, cs);
    assert ComparedTree(Dict(fields, Last), b, cs) ==
           Dict(ComparedFields(xs, ys, cs), AfterSort(SortOrder(fields, cs), Last));
  }

  lemma {:induction false} ListLinks(xs: seq<Tree>, ys: seq<Json>, cs: bool)
    requires ProperItems(xs)
    ensures ProperItems(ComparedList(xs, ys, cs)) <==> ItemsKeep(PlainItems(xs), ys, cs)
    decreases ItemsSize(PlainItems(xs)), |xs| + 1
  {
    hide Plain, Proper, ComparedTree, ComparisonKeeps, CompareJson;
    if xs != [] && ys != [] {
      ComparisonLinks(xs[0], ys[0], cs);
      ListLinks(xs[1..], ys[1..], cs);
      assert PlainItems(xs)[1..] == PlainItems(xs[1..]);
      var r := ComparedList(xs, ys, cs);
      var rest := if CompareJson(Plain(xs[0]), ys[0], cs) then ComparedList(xs[1..], ys[1..], cs) else xs[1..];
      assert r == [ComparedTree(xs[0], ys[0], cs)] + rest;
      HeadAndRest(r);
    }
  }

  predicate ProperItems(items: seq<Tree>) {
    forall i :: 0 <= i < |items| ==> Proper(items[i])
  }

  lemma ProperList(items: seq<Tree>)
    ensures Proper(List(items)) <==> ProperItems(items)
  {
  }

  lemma HeadAndRest(r: seq<Tree>)
    requires r != []
    ensures ProperItems(r) <==> Proper(r[0]) && ProperItems(r[1..])
  {
    hide Proper;
    if Proper(r[0]) && ProperItems(r[1..]) {
      forall i | 0 <= i < |r| ensures Proper(r[i]) {
        assert i > 0 ==> r[i] == r[1..][i - 1];
      }
    }
  }

  /** The links inside the values of an object. */
  predicate ProperValues(fields: seq<Entry>) {
    forall i :: 0 <= i < |fields| ==> Proper(fields[i].value)
  }

  lemma HeadAndValues(r: seq<Entry>)
    requires r != []
    ensures ProperValues(r) <==> Proper(r[0].value) && ProperValues(r[1..])
  {
    hide Proper;
    if Proper(r[0].value) && ProperValues(r[1..]) {
      forall i | 0 <= i < |r| ensures Proper(r[i].value) {
        assert i > 0 ==> r[i] == r[1..][i - 1];
      }
    }
  }

  lemma ProperSorted(fields: seq<Entry>, cs: bool)
    requires ProperValues(fields)
    ensures ProperValues(SortFields(fields, cs))
  {
    hide Proper, SortOrder, SortFields, Ordered, Permutation;
    SortedPlaces(fields, cs);
  }

  lemma {:induction false} FieldsLinks(xs: seq<Entry>, ys: seq<Member>, cs: bool)
    requires ProperValues(xs)
    ensures ProperValues(ComparedFields(xs, ys, cs)) <==> MembersKeep(PlainFields(xs), ys, cs)
    decreases MembersSize(PlainFields(xs)), |xs| + 1
  {
    hide Plain, Proper, ComparedTree, ComparisonKeeps, CompareJson, SameKey;
    if xs != [] && ys != [] && SameKey(xs[0].key, ys[0].key, cs) {
      ComparisonLinks(xs[0].value, ys[0].value, cs);
      FieldsLinks(xs[1..], ys[1..], cs);
      assert PlainFields(xs)[1..] == PlainFields(xs[1..]);
      var r := ComparedFields(xs, ys, cs);
      var rest := if CompareJson(Plain(xs[0].value), ys[0].value, cs) then ComparedFields(xs[1..], ys[1..], cs) else xs[1..];
      assert r == [Entry(xs[0].key, ComparedTree(xs[0].value, ys[0].value, cs))] + rest;
      HeadAndValues(r);
    }
  }

  // ----- generating -----

  /** The tree that `create_patches` leaves is the document that it leaves. */
  lemma {:induction false} PlainCreated(a: Tree, b: Json, cs: bool)
    requires Formed(a)
    ensures Plain(CreatedTree(a, b, cs)) == Created(Plain(a), b, cs)
    decreases Size(Plain(a)), 1, 0
  {
    hide PlainItems, PlainFields, CreatedList, CreatedFields, CreatedItems, CreatedMembers, SortMembers, SortFields, SortOrder;
    if Kind(Plain(a)) == Kind(b) {
      match a
      case Leaf(_) =>
      case List(items) =>
        FormedItems(items);
        PlainCreatedList(items, b.items, cs);
        PlainList(items);
        PlainList(CreatedList(items, b.items, cs));
      case Dict(fields, tail) =>
        PlainDict(fields, tail);
        PlainCreatedDict(fields, tail, b, cs);
    }
  }

  lemma {:induction false} FormedItems(items: seq<Tree>)
    requires Formed(List(items))
    ensures forall i :: 0 <= i < |items| ==> Formed(items[i])
  {
  }

  lemma {:induction false} PlainCreatedDict(fields: seq<Entry>, tail: Tail, b: Json, cs: bool)
    requires Formed(Dict(fields, tail)) && b.Obj?
    ensures Plain(CreatedTree(Dict(fields, tail), b, cs)) == Created(Obj(PlainFields(fields)), b, cs)
    decreases Size(Obj(PlainFields(fields))), 0, 0
  {
    hide SortFields, SortMembers, SortOrder, PlainFields, CreatedFields, CreatedMembers, AfterSort;
    SortedFields(fields, cs);
    SortedSize(fields, cs);
    FormedSorted(fields, cs);
    PlainCreatedFields(SortFields(fields, cs), SortMembers(b.members, cs), cs);
  }

  lemma {:induction false} PlainCreatedList(xs: seq<Tree>, ys: seq<Json>, cs: bool)
    requires forall i :: 0 <= i < |xs| ==> Formed(xs[i])
    ensures PlainItems(CreatedList(xs, ys, cs)) == CreatedItems(PlainItems(xs), ys, cs)
    decreases ItemsSize(PlainItems(xs)), |xs| + 1, 0
  {
    hide Plain, Formed, CreatedTree, Created;
    if xs != [] && ys != [] {
      PlainCreated(xs[0], ys[0], cs);
      PlainCreatedList(xs[1..], ys[1..], cs);
      assert PlainItems(xs)[1..] == PlainItems(xs[1..]);
    }
  }

  lemma {:induction false} PlainCreatedFields(xs: seq<Entry>, ys: seq<Member>, cs: bool)
    requires forall i :: 0 <= i < |xs| ==> Formed(xs[i].value)
    ensures PlainFields(CreatedFields(xs, ys, cs)) == CreatedMembers(PlainFields(xs), ys, cs)
    decreases MembersSize(PlainFields(xs)), |xs| + 1, |ys|
  {
    hide Plain, Formed, CreatedTree, Created, SameKey, Before;
    if xs != [] && ys != [] {
      assert PlainFields(xs)[1..] == PlainFields(xs[1..]);
      if SameKey(xs[0].key, ys[0].key, cs) {
        PlainCreated(xs[0].value, ys[0].value, cs);
        PlainCreatedFields(xs[1..], ys[1..], cs);
      } else if Before(xs[0].key, ys[0].key, cs) {
        PlainCreatedFields(xs[1..], ys, cs);
      } else {
        PlainCreatedFields(xs, ys[1..], cs);
      }
    }
  }

  /** Generating keeps all links right exactly when every object that both documents have in a place has its ends in place. */
  lemma {:induction false} CreationLinks(a: Tree, b: Json, cs: bool)
    requires Proper(a)
    ensures Proper(CreatedTree(a, b, cs)) <==> CreationKeeps(Plain(a), b, cs)
    decreases Size(Plain(a)), 1, 0
  {
    if Kind(Plain(a)) == Kind(b) {
      match a
      case Leaf(_) =>
      case List(items) =>
        ProperList(items);
        CreatedListLinks(items, b.items, cs);
        ProperList(CreatedList(items, b.items, cs));
      case Dict(fields, _) => ProperTail(a); CreatedDictLinks(fields, b, cs);
    }
  }

  lemma {:induction false} CreatedDictLinks(fields: seq<Entry>, b: Json, cs: bool)
    requires Proper(Dict(fields, Last)) && b.Obj?
    ensures Proper(CreatedTree(Dict(fields, Last), b, cs)) <==> CreationKeeps(Obj(PlainFields(fields)), b, cs)
    decreases Size(Obj(PlainFields(fields))), 0, 0
  {
    hide SortFields, SortMembers, SortOrder, PlainFields, CreatedFields, CreationKeepsMembers, AfterSort, InPlace, Fits;
    var xs, ys := SortFields(fields, cs), SortMembers(b.members, cs);
    SortedFields(fields, cs);
    SortedSize(fields, cs);
    SizePermuted(PlainFields(fields), SortMembers(PlainFields(fields), cs));
    ProperSorted(fields, cs);
    CreatedFieldsLinks(xs, ys, cs);
    SortKeeps(fields, xs, cs);
    assert CreatedTree(Dict(fields, Last), b, cs) == Dict(CreatedFields(xs, ys, cs), AfterSort(SortOrder(fields, cs), Last));
  }

  lemma {:induction false} CreatedListLinks(xs: seq<Tree>, ys: seq<Json>, cs: bool)
    requires ProperItems(xs)
    ensures ProperItems(CreatedList(xs, ys, cs)) <==> CreationKeepsItems(PlainItems(xs), ys, cs)
    decreases ItemsSize(PlainItems(xs)), |xs| + 1, 0
  {
    hide Plain, Proper, CreatedTree, CreationKeeps;
    if xs != [] && ys != [] {
      CreationLinks(xs[0], ys[0], cs);
      CreatedListLinks(xs[1..], ys[1..], cs);
      assert PlainItems(xs)[1..] == PlainItems(xs[1..]);
      var r := CreatedList(xs, ys, cs);
      assert r == [CreatedTree(xs[0], ys[0], cs)] + CreatedList(xs[1..], ys[1..], cs);
      HeadAndRest(r);
    }
  }

  lemma {:induction false} CreatedFieldsLinks(xs: seq<Entry>, ys: seq<Member>, cs: bool)
    requires ProperValues(xs)
    ensures ProperValues(CreatedFields(xs, ys, cs)) <==> CreationKeepsMembers(PlainFields(xs), ys, cs)
    decreases MembersSize(PlainFields(xs)), |xs| + 1, |ys|
  {
    hide Plain, Proper, CreatedTree, CreationKeeps, SameKey, Before;
    if xs != [] && ys != [] {
      assert PlainFields(xs)[1..] == PlainFields(xs[1..]);
      var r := CreatedFields(xs, ys, cs);
      if SameKey(xs[0].key, ys[0].key, cs) {
        CreationLinks(xs[0].value, ys[0].value, cs);
        CreatedFieldsLinks(xs[1..], ys[1..], cs);
        assert r == [Entry(xs[0].key, CreatedTree(xs[0].value, ys[0].value, cs))] + CreatedFields(xs[1..], ys[1..], cs);
        HeadAndValues(r);
      } else if Before(xs[0].key, ys[0].key, cs) {
        CreatedFieldsLinks(xs[1..], ys, cs);
        assert r == [xs[0]] + CreatedFields(xs[1..], ys, cs);
        HeadAndValues(r);
      } else {
        CreatedFieldsLinks(xs, ys[1..], cs);
      }
    }
  }

  // ----- operations -----

  /** The outcome on the linked document is that on the document without links. */
  predicate Refines(a: Applied, b: Outcome) {
    a.Done? && b == Outcome(a.status, Plain(a.tree)) && Formed(a.tree)
  }

  /** One operation on a document whose links are right; unless it is a test, they stay right. */
  lemma OpRefines(doc: Tree, op: Op, path: string, value: Option<Json>, from: Option<Json>, cs: bool)
    requires Proper(doc)
    ensures var a := ApplyOpTree(doc, op, path, value, from, cs);
            Refines(a, ApplyOp(Plain(doc), op, path, value, from, cs)) && (!op.TEST? ==> Proper(a.tree))
  {
    hide TakePath, DetachPath, GivePath, AddPath, Resolve, Plain, Proper, Formed, ComparedTree, Compared, CompareJson,
         Fresh, Put, PutNode, At, NodeAt;
    ProperFormed(doc);
    match op
    case INVALID =>
    case TEST => TestRefines(doc, path, value, from, cs);
    case REMOVE => PlainTakePath(doc, path, cs); LeafProper();
    case REPLACE => ReplaceRefines(doc, path, value, cs);
    case ADD =>
      if value.Some? {
        FreshTree(value.value);
        PlainGivePath(doc, path, Fresh(value.value), cs);
        FormedToo(Fresh(value.value));
        FormedToo(GivePath(doc, path, Fresh(value.value), cs).tree);
      }
    case MOVE => MoveRefines(doc, path, from, cs);
    case COPY => CopyRefines(doc, path, from, cs);
  }

  lemma LeafProper()
    ensures Proper(Leaf(Invalid)) && Formed(Leaf(Invalid)) && Plain(Leaf(Invalid)) == Invalid
  {
  }

  lemma FormedToo(t: Tree)
    ensures Proper(t) ==> Formed(t)
  {
    if Proper(t) {
      ProperFormed(t);
    }
  }

  lemma TestRefines(doc: Tree, path: string, value: Option<Json>, from: Option<Json>, cs: bool)
    requires Formed(doc)
    ensures Refines(ApplyOpTree(doc, TEST, path, value, from, cs), ApplyOp(Plain(doc), TEST, path, value, from, cs))
  {
    hide Resolve, Plain, Formed, ComparedTree, Compared, CompareJson, Put, PutNode, At, NodeAt;
    var pos := Resolve(Plain(doc), path, cs);
    if pos.Some? && value.Some? {
      PlainAt(doc, pos.value);
      PlainCompared(NodeAt(doc, pos.value), value.value, cs);
      PlainPut(doc, pos.value, ComparedTree(NodeAt(doc, pos.value), value.value, cs));
    }
  }

  lemma ReplaceRefines(doc: Tree, path: string, value: Option<Json>, cs: bool)
    requires Proper(doc)
    ensures var a := ApplyOpTree(doc, REPLACE, path, value, None, cs);
            Refines(a, ApplyOp(Plain(doc), REPLACE, path, value, None, cs)) && Proper(a.tree)
  {
    hide TakePath, DetachPath, GivePath, AddPath, Plain, Proper, Formed, Fresh;
    ProperFormed(doc);
    PlainTakePath(doc, path, cs);
    if value.Some? {
      FreshTree(value.value);
      FormedToo(Fresh(value.value));
      var d := TakePath(doc, path, cs);
      if d.Some? {
        PlainGivePath(d.value.rest, path, Fresh(value.value), cs);
        FormedToo(GivePath(d.value.rest, path, Fresh(value.value), cs).tree);
      }
    }
  }

  lemma MoveRefines(doc: Tree, path: string, from: Option<Json>, cs: bool)
    requires Proper(doc)
    ensures var a := ApplyOpTree(doc, MOVE, path, None, from, cs);
            Refines(a, ApplyOp(Plain(doc), MOVE, path, None, from, cs)) && Proper(a.tree)
  {
    hide TakePath, DetachPath, GivePath, AddPath, Plain, Proper, Formed;
    ProperFormed(doc);
    if from.Some? && from.value.Str? {
      PlainTakePath(doc, from.value.s, cs);
      var d := TakePath(doc, from.value.s, cs);
      if d.Some? {
        PlainGivePath(d.value.rest, path, d.value.item, cs);
        FormedToo(GivePath(d.value.rest, path, d.value.item, cs).tree);
      }
    }
  }

  lemma CopyRefines(doc: Tree, path: string, from: Option<Json>, cs: bool)
    requires Proper(doc)
    ensures var a := ApplyOpTree(doc, COPY, path, None, from, cs);
            Refines(a, ApplyOp(Plain(doc), COPY, path, None, from, cs)) && Proper(a.tree)
  {
    hide GivePath, AddPath, Resolve, Plain, Proper, Formed, Fresh, At, NodeAt;
    ProperFormed(doc);
    if from.Some? && from.value.Str? {
      var pos := Resolve(Plain(doc), from.value.s, cs);
      if pos.Some? {
        PlainAt(doc, pos.value);
        var copy := Fresh(Plain(NodeAt(doc, pos.value)));
        FreshTree(Plain(NodeAt(doc, pos.value)));
        PlainGivePath(doc, path, copy, cs);
        FormedToo(GivePath(doc, path, copy, cs).tree);
      }
    }
  }

  // ----- tests -----

  /** What is put somewhere is found there. */
  lemma {:induction false} NodePut(t: Tree, pos: Position, v: Tree)
    requires Formed(t) && ValidPosition(Plain(t), pos)
    ensures ValidPosition(Plain(PutNode(t, pos, v)), pos) && NodeAt(PutNode(t, pos, v), pos) == v
    decreases pos
  {
    if pos != [] {
      match t
      case List(items) => NodePut(items[pos[0]], pos[1..], v);
      case Dict(fields, _) => NodePut(fields[pos[0]].value, pos[1..], v);
      case Leaf(_) =>
    }
  }

  /** Putting a tree into a document with its links right keeps them right exactly when those of the tree are. */
  lemma {:induction false} ProperPut(t: Tree, pos: Position, v: Tree)
    requires Proper(t) && ValidPosition(Plain(t), pos)
    ensures Proper(PutNode(t, pos, v)) <==> Proper(v)
  {
    hide Plain, Proper, PutNode, NodeAt;
    ProperFormed(t);
    PlainPut(t, pos, v);
    NodePut(t, pos, v);
    if Proper(PutNode(t, pos, v)) {
      ProperFormed(PutNode(t, pos, v));
      PlainAt(PutNode(t, pos, v), pos);
    }
  }

  /** A test that finds the ends in place in every object that it compares. */
  predicate TestKeeps(doc: Json, path: string, value: Option<Json>, cs: bool) {
    match Resolve(doc, path, cs)
    case None => true
    case Some(pos) => value.None? || ComparisonKeeps(At(doc, pos), value.value, cs)
  }

  /** Exactly these leave all links right. */
  lemma TestLinks(doc: Tree, path: string, value: Option<Json>, from: Option<Json>, cs: bool)
    requires Proper(doc)
    ensures var a := ApplyOpTree(doc, TEST, path, value, from, cs);
            a.Done? && (Proper(a.tree) <==> TestKeeps(Plain(doc), path, value, cs))
  {
    hide Resolve, Plain, Proper, Formed, ComparedTree, ComparisonKeeps, CompareJson, PutNode, At, NodeAt;
    ProperFormed(doc);
    var pos := Resolve(Plain(doc), path, cs);
    if pos.Some? && value.Some? {
      PlainAt(doc, pos.value);
      ComparisonLinks(NodeAt(doc, pos.value), value.value, cs);
      ProperPut(doc, pos.value, ComparedTree(NodeAt(doc, pos.value), value.value, cs));
    }
  }

  // ----- runs -----

  /** The links are right whenever an operation starts. */
  predicate Steady(doc: Tree, patches: seq<Json>, cs: bool)
    decreases |patches|
  {
    patches == [] ||
    (Proper(doc) &&
     match ApplyPatchTree(doc, patches[0], cs)
     case Undefined => false
     case Done(status, tree) => status != 0 || Steady(tree, patches[1..], cs))
  }

  lemma PatchRefines(doc: Tree, patch: Json, cs: bool)
    requires Proper(doc)
    ensures var a := ApplyPatchTree(doc, patch, cs);
            Refines(a, ApplyPatch(Plain(doc), patch, cs)) && (DecodeOp(patch, cs) != TEST ==> Proper(a.tree))
  {
    hide ApplyOpTree, ApplyOp, Plain, Proper, Formed, DecodeOp;
    FormedToo(doc);
    match PatchApply.Field(patch, "path", cs)
    case Some(Str(path)) =>
      OpRefines(doc, DecodeOp(patch, cs), path, PatchApply.Field(patch, "value", cs), PatchApply.Field(patch, "from", cs), cs);
    case _ =>
  }

  predicate PatchKeeps(doc: Json, patch: Json, cs: bool) {
    DecodeOp(patch, cs) == TEST ==>
      match PatchApply.Field(patch, "path", cs)
      case Some(Str(path)) => TestKeeps(doc, path, PatchApply.Field(patch, "value", cs), cs)
      case _ => true
  }

  /** Every test on the way, but for one that ends the run, meets the objects that it compares with their ends in place. */
  predicate TestsKeep(doc: Json, patches: seq<Json>, cs: bool)
    decreases |patches|
  {
    |patches| <= 1 ||
    var r := ApplyPatch(doc, patches[0], cs);
    r.status == 0 ==> PatchKeeps(doc, patches[0], cs) && TestsKeep(r.doc, patches[1..], cs)
  }

  lemma PatchLinks(doc: Tree, patch: Json, cs: bool)
    requires Proper(doc)
    ensures var a := ApplyPatchTree(doc, patch, cs);
            a.Done? && (Proper(a.tree) <==> PatchKeeps(Plain(doc), patch, cs))
  {
    hide ApplyOpTree, ApplyOp, Plain, Proper, Formed, DecodeOp, TestKeeps;
    PatchRefines(doc, patch, cs);
    match PatchApply.Field(patch, "path", cs)
    case Some(Str(path)) =>
      if DecodeOp(patch, cs) == TEST {
        TestLinks(doc, path, PatchApply.Field(patch, "value", cs), PatchApply.Field(patch, "from", cs), cs);
      }
    case _ =>
  }

  /** That is exactly when the links are right whenever an operation starts. */
  lemma {:induction false} SteadyExact(doc: Tree, patches: seq<Json>, cs: bool)
    requires Proper(doc)
    ensures Steady(doc, patches, cs) <==> TestsKeep(Plain(doc), patches, cs)
    decreases |patches|
  {
    hide ApplyPatchTree, ApplyPatch, Plain, Proper, Formed, PatchKeeps;
    if patches != [] {
      PatchRefines(doc, patches[0], cs);
      PatchLinks(doc, patches[0], cs);
      var a := ApplyPatchTree(doc, patches[0], cs);
      if a.status == 0 && |patches| > 1 && Proper(a.tree) {
        SteadyExact(a.tree, patches[1..], cs);
      }
    }
  }

  /** Then the code does on the linked document what `ApplyAll` does. */
  lemma {:induction false} AllRefines(doc: Tree, patches: seq<Json>, cs: bool)
    requires Proper(doc) && TestsKeep(Plain(doc), patches, cs)
    ensures Refines(ApplyAllTree(doc, patches, cs), ApplyAll(Plain(doc), patches, cs))
    decreases |patches|
  {
    hide ApplyPatchTree, ApplyPatch, Plain, Proper, Formed, PatchKeeps;
    ProperFormed(doc);
    if patches != [] {
      PatchRefines(doc, patches[0], cs);
      PatchLinks(doc, patches[0], cs);
      var a := ApplyPatchTree(doc, patches[0], cs);
      if a.status == 0 {
        if |patches| > 1 {
          AllRefines(a.tree, patches[1..], cs);
        } else {
          NoMore(a.tree, patches[1..], cs);
        }
      }
    }
  }

  lemma NoMore(doc: Tree, patches: seq<Json>, cs: bool)
    requires patches == []
    ensures ApplyAllTree(doc, patches, cs) == Done(0, doc) && ApplyAll(Plain(doc), patches, cs) == Outcome(0, Plain(doc))
  {
  }

  /** The same for whole patch documents, as `Document.Apply` runs them. */
  lemma DocumentRefines(doc: Tree, patches: Json, cs: bool)
    requires Proper(doc) && (patches.Arr? ==> TestsKeep(Plain(doc), patches.items, cs))
    ensures Refines(ApplyPatchesTree(doc, patches, cs), ApplyPatches(Plain(doc), patches, cs))
  {
    hide ApplyAllTree, ApplyAll, Plain, Formed, Proper, TestsKeep;
    FormedToo(doc);
    if patches.Arr? {
      AllRefines(doc, patches.items, cs);
    }
  }

  predicate NoTests(patches: seq<Json>, cs: bool) {
    forall i :: 0 <= i < |patches| ==> DecodeOp(patches[i], cs) != TEST
  }

  /** Without tests it holds from a copy on, and the links are right in the end. */
  lemma {:induction false} NoTestsKeep(doc: Tree, patches: seq<Json>, cs: bool)
    requires Proper(doc) && NoTests(patches, cs)
    ensures TestsKeep(Plain(doc), patches, cs)
    ensures ApplyAllTree(doc, patches, cs).Done? && Proper(ApplyAllTree(doc, patches, cs).tree)
    decreases |patches|
  {
    hide ApplyPatchTree, ApplyPatch, Plain, Proper, Formed, DecodeOp;
    if patches != [] {
      PatchRefines(doc, patches[0], cs);
      var a := ApplyPatchTree(doc, patches[0], cs);
      if a.status == 0 {
        NoTestsKeep(a.tree, patches[1..], cs);
      }
    }
  }
}
