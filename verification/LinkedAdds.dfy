/**
 Which additions a document takes whose links a test or a generation has put out of order: each one
 at its place, and all of them together.
 */
module LinkedAdds {
  import opened Wrappers
  import opened Keys
  import opened Json
  import opened Compare
  import opened Pointer
  import opened PointerLookup
  import opened PointerDecode
  import opened SortedObjects
  import opened CompareEffect
  import opened CreateEffect
  import opened PatchApply
  import opened PatchSteps
  import opened TailLink
  import opened LinkedTree
  import opened LinkOrder
  import opened LinkedTreeLaws

  // ----- links that an append can follow -----

  /** No link leads to a node that is gone, and an empty object has none to get wrong. */
  predicate Sound(t: Tree)
    decreases t
  {
    match t
    case Leaf(j) => !j.Arr? && !j.Obj?
    case List(items) => forall i :: 0 <= i < |items| ==> Sound(items[i])
    case Dict(fields, tail) => Fits(fields, tail) && forall i :: 0 <= i < |fields| ==> Sound(fields[i].value)
  }

  lemma {:induction false} ProperSound(t: Tree)
    requires Proper(t)
    ensures Sound(t)
    decreases t
  {
    match t
    case List(items) =>
      forall i | 0 <= i < |items| ensures Sound(items[i]) { ProperSound(items[i]); }
    case Dict(fields, _) =>
      forall i | 0 <= i < |fields| ensures Sound(fields[i].value) { ProperSound(fields[i].value); }
    case Leaf(_) =>
  }

  lemma {:induction false} SoundFormed(t: Tree)
    requires Sound(t)
    ensures Formed(t)
    decreases t
  {
    match t
    case List(items) =>
      forall i | 0 <= i < |items| ensures Formed(items[i]) { SoundFormed(items[i]); }
    case Dict(fields, _) =>
      forall i | 0 <= i < |fields| ensures Formed(fields[i].value) { SoundFormed(fields[i].value); }
    case Leaf(_) =>
  }

  lemma {:induction false} SoundAt(t: Tree, pos: Position)
    requires Sound(t) && ValidPosition(Plain(t), pos)
    ensures Sound(NodeAt(t, pos))
    decreases pos
  {
    if pos != [] {
      match t
      case List(items) => SoundAt(items[pos[0]], pos[1..]);
      case Dict(fields, _) => SoundAt(fields[pos[0]].value, pos[1..]);
      case Leaf(_) =>
    }
  }

  lemma {:induction false} SoundPut(t: Tree, pos: Position, v: Tree)
    requires Sound(t) && Sound(v) && ValidPosition(Plain(t), pos)
    ensures Sound(PutNode(t, pos, v))
    decreases pos
  {
    if pos != [] {
      match t
      case List(items) => SoundPut(items[pos[0]], pos[1..], v);
      case Dict(fields, _) => SoundPut(fields[pos[0]].value, pos[1..], v);
      case Leaf(_) =>
    }
  }

  predicate SoundItems(items: seq<Tree>) {
    forall i :: 0 <= i < |items| ==> Sound(items[i])
  }

  predicate SoundValues(fields: seq<Entry>) {
    forall i :: 0 <= i < |fields| ==> Sound(fields[i].value)
  }

  lemma ValuesSound(fields: seq<Entry>)
    requires ProperValues(fields)
    ensures SoundValues(fields)
  {
    hide Proper, Sound;
    forall i | 0 <= i < |fields| ensures Sound(fields[i].value) {
      ProperSound(fields[i].value);
    }
  }

  lemma ItemsSound(items: seq<Tree>)
    requires ProperItems(items)
    ensures SoundItems(items)
  {
    hide Proper, Sound;
    forall i | 0 <= i < |items| ensures Sound(items[i]) {
      ProperSound(items[i]);
    }
  }

  lemma {:induction false} HeadSound(r: seq<Entry>)
    requires r != [] && Sound(r[0].value) && SoundValues(r[1..])
    ensures SoundValues(r)
  {
    hide Sound;
    forall i | 0 <= i < |r| ensures Sound(r[i].value) {
      assert i > 0 ==> r[i] == r[1..][i - 1];
    }
  }

  lemma {:induction false} HeadItemSound(r: seq<Tree>)
    requires r != [] && Sound(r[0]) && SoundItems(r[1..])
    ensures SoundItems(r)
  {
    hide Sound;
    forall i | 0 <= i < |r| ensures Sound(r[i]) {
      assert i > 0 ==> r[i] == r[1..][i - 1];
    }
  }

  lemma {:induction false} ComparedSound(a: Tree, b: Json, cs: bool)
    requires Proper(a)
    ensures Sound(ComparedTree(a, b, cs))
    decreases Size(Plain(a)), 1
  {
    ProperSound(a);
    if Kind(Plain(a)) == Kind(b) {
      match a
      case Leaf(_) =>
      case List(items) =>
        ProperList(items);
        ComparedListSound(items, b.items, cs);
      case Dict(fields, _) =>
        ProperTail(a);
        ComparedDictSound(fields, b, cs);
    }
  }

  lemma {:induction false} ComparedDictSound(fields: seq<Entry>, b: Json, cs: bool)
    requires Proper(Dict(fields, Last)) && b.Obj?
    ensures Sound(ComparedTree(Dict(fields, Last), b, cs))
    decreases Size(Obj(PlainFields(fields))), 0
  {
    hide SortFields, SortMembers, SortOrder, PlainFields, ComparedFields, AfterSort, InPlace, Fits, CompareJson;
    var xs, ys := SortFields(fields, cs), SortMembers(b.members, cs);
    SortedFields(fields, cs);
    SortedSize(fields, cs);
    ProperSorted(fields, cs);
    ComparedFieldsSound(xs, ys, cs);
    SortKeeps(fields, ComparedFields(xs, ys, cs), cs);
    assert ComparedTree(Dict(fields, Last), b, cs) ==
           Dict(ComparedFields(xs, ys, cs), AfterSort(SortOrder(fields, cs), Last));
  }

  lemma {:induction false} ComparedListSound(xs: seq<Tree>, ys: seq<Json>, cs: bool)
    requires ProperItems(xs)
    ensures SoundItems(ComparedList(xs, ys, cs))
    decreases ItemsSize(PlainItems(xs)), |xs| + 1
  {
    hide Plain, Proper, Sound, ComparedTree, CompareJson;
    ItemsSound(xs);
    if xs != [] && ys != [] {
      ComparedSound(xs[0], ys[0], cs);
      ComparedListSound(xs[1..], ys[1..], cs);
      assert PlainItems(xs)[1..] == PlainItems(xs[1..]);
      var r := ComparedList(xs, ys, cs);
      var rest := if CompareJson(Plain(xs[0]), ys[0], cs) then ComparedList(xs[1..], ys[1..], cs) else xs[1..];
      assert r == [ComparedTree(xs[0], ys[0], cs)] + rest;
      HeadItemSound(r);
    }
  }

  lemma {:induction false} ComparedFieldsSound(xs: seq<Entry>, ys: seq<Member>, cs: bool)
    requires ProperValues(xs)
    ensures SoundValues(ComparedFields(xs, ys, cs))
    decreases MembersSize(PlainFields(xs)), |xs| + 1
  {
    hide Plain, Proper, Sound, ComparedTree, CompareJson, SameKey;
    ValuesSound(xs);
    if xs != [] && ys != [] && SameKey(xs[0].key, ys[0].key, cs) {
      ComparedSound(xs[0].value, ys[0].value, cs);
      ComparedFieldsSound(xs[1..], ys[1..], cs);
      assert PlainFields(xs)[1..] == PlainFields(xs[1..]);
      var r := ComparedFields(xs, ys, cs);
      var rest := if CompareJson(Plain(xs[0].value), ys[0].value, cs) then ComparedFields(xs[1..], ys[1..], cs) else xs[1..];
      assert r == [Entry(xs[0].key, ComparedTree(xs[0].value, ys[0].value, cs))] + rest;
      HeadSound(r);
    }
  }

  lemma {:induction false} CreatedSound(a: Tree, b: Json, cs: bool)
    requires Proper(a)
    ensures Sound(CreatedTree(a, b, cs))
    decreases Size(Plain(a)), 1, 0
  {
    ProperSound(a);
    if Kind(Plain(a)) == Kind(b) {
      match a
      case Leaf(_) =>
      case List(items) =>
        ProperList(items);
        CreatedListSound(items, b.items, cs);
      case Dict(fields, _) =>
        ProperTail(a);
        CreatedDictSound(fields, b, cs);
    }
  }

  lemma {:induction false} CreatedDictSound(fields: seq<Entry>, b: Json, cs: bool)
    requires Proper(Dict(fields, Last)) && b.Obj?
    ensures Sound(CreatedTree(Dict(fields, Last), b, cs))
    decreases Size(Obj(PlainFields(fields))), 0, 0
  {
    hide SortFields, SortMembers, SortOrder, PlainFields, CreatedFields, AfterSort, InPlace, Fits;
    var xs, ys := SortFields(fields, cs), SortMembers(b.members, cs);
    SortedFields(fields, cs);
    SortedSize(fields, cs);
    ProperSorted(fields, cs);
    CreatedFieldsSound(xs, ys, cs);
    SortKeeps(fields, CreatedFields(xs, ys, cs), cs);
    assert CreatedTree(Dict(fields, Last), b, cs) == Dict(CreatedFields(xs, ys, cs), AfterSort(SortOrder(fields, cs), Last));
  }

  lemma {:induction false} CreatedListSound(xs: seq<Tree>, ys: seq<Json>, cs: bool)
    requires ProperItems(xs)
    ensures SoundItems(CreatedList(xs, ys, cs))
    decreases ItemsSize(PlainItems(xs)), |xs| + 1, 0
  {
    hide Plain, Proper, Sound, CreatedTree;
    ItemsSound(xs);
    if xs != [] && ys != [] {
      CreatedSound(xs[0], ys[0], cs);
      CreatedListSound(xs[1..], ys[1..], cs);
      assert PlainItems(xs)[1..] == PlainItems(xs[1..]);
      var r := CreatedList(xs, ys, cs);
      assert r == [CreatedTree(xs[0], ys[0], cs)] + CreatedList(xs[1..], ys[1..], cs);
      HeadItemSound(r);
    }
  }

  lemma {:induction false} CreatedFieldsSound(xs: seq<Entry>, ys: seq<Member>, cs: bool)
    requires ProperValues(xs)
    ensures SoundValues(CreatedFields(xs, ys, cs))
    decreases MembersSize(PlainFields(xs)), |xs| + 1, |ys|
  {
    hide Plain, Proper, Sound, CreatedTree, SameKey, Before;
    ValuesSound(xs);
    if xs != [] && ys != [] {
      assert PlainFields(xs)[1..] == PlainFields(xs[1..]);
      if SameKey(xs[0].key, ys[0].key, cs) {
        CreatedSound(xs[0].value, ys[0].value, cs);
        CreatedFieldsSound(xs[1..], ys[1..], cs);
        var r := CreatedFields(xs, ys, cs);
        assert r == [Entry(xs[0].key, CreatedTree(xs[0].value, ys[0].value, cs))] + CreatedFields(xs[1..], ys[1..], cs);
        HeadSound(r);
      } else if Before(xs[0].key, ys[0].key, cs) {
        CreatedFieldsSound(xs[1..], ys, cs);
        var r := CreatedFields(xs, ys, cs);
        assert r == [xs[0]] + CreatedFields(xs[1..], ys, cs);
        HeadSound(r);
      } else {
        CreatedFieldsSound(xs, ys[1..], cs);
      }
    }
  }

  // ----- one addition -----

  /** The outcome, but for the links, is that on the document without links. */
  predicate Agrees(a: Applied, b: Outcome) {
    a.Done? && Outcome(a.status, Plain(a.tree)) == b
  }

  /** The first member of the object, once a member under the key is out of the way, points to the last one. */
  predicate Serves(parent: Tree, key: string, cs: bool) {
    parent.Dict? ==>
      var i := IndexOf(PlainFields(parent.fields), key, cs);
      if i < |parent.fields| then AfterRemoval(parent.tail, i, |parent.fields|).Last? else parent.tail.Last?
  }

  lemma {:induction false} RemovalFits(fields: seq<Entry>, tail: Tail, i: nat)
    requires Fits(fields, tail) && i < |fields|
    ensures var rest, link := RemoveAt(fields, i), AfterRemoval(tail, i, |fields|);
            (rest == [] ==> link.Last?) && (link.Inner? ==> link.k + 1 < |rest|)
  {
  }

  lemma {:induction false} Shorter<T>(s: seq<T>, tail: Tail, x: T)
    requires s != [] && (tail.Inner? ==> tail.k + 1 < |s|)
    ensures |AfterAppend(s, tail, x)| == |s| + 1 <==> tail.Last?
  {
  }

  lemma {:induction false} AppendAgrees(rest: seq<Entry>, link: Tail, f: Entry)
    requires (rest == [] ==> link.Last?) && (link.Inner? ==> link.k + 1 < |rest|)
    ensures Agrees(AppendField(rest, link, f), Outcome(0, Obj(PlainFields(rest) + [Member(f.key, Plain(f.value))]))) <==> link.Last?
  {
    hide PlainFields, AfterAppend, Plain;
    PlainAppend(rest, f);
    PlainDict(AfterAppend(rest, link, f), TailAfterAppend(rest, link));
    if rest != [] {
      Shorter(rest, link, f);
    }
    LastAppend(rest, f);
  }

  lemma {:induction false} LastAppend(rest: seq<Entry>, f: Entry)
    ensures AfterAppend(rest, Last, f) == rest + [f]
  {
  }

  lemma {:induction false} GiveMemberExact(fields: seq<Entry>, tail: Tail, key: string, v: Tree, cs: bool)
    requires Fits(fields, tail)
    ensures var i := IndexOf(PlainFields(fields), key, cs);
            var rest, link := if i < |fields| then RemoveAt(fields, i) else fields,
                              if i < |fields| then AfterRemoval(tail, i, |fields|) else tail;
            var plain := if i < |fields| then RemoveAt(PlainFields(fields), i) else PlainFields(fields);
            Agrees(AppendField(rest, link, Entry(key, v)), Outcome(0, Obj(plain + [Member(key, Plain(v))]))) <==>
            Serves(Dict(fields, tail), key, cs)
  {
    hide PlainFields, IndexOf, RemoveAt, AfterRemoval, AppendField, Agrees, Plain;
    var i := IndexOf(PlainFields(fields), key, cs);
    if i < |fields| {
      RemovalFits(fields, tail, i);
      PlainFieldsWithout(fields, i);
      AppendAgrees(RemoveAt(fields, i), AfterRemoval(tail, i, |fields|), Entry(key, v));
    } else {
      AppendAgrees(fields, tail, Entry(key, v));
    }
  }

  lemma {:induction false} GiveListExact(items: seq<Tree>, i: nat, v: Tree)
    requires i <= |items|
    ensures Agrees(Done(0, List(items[..i] + [v] + items[i..])),
                   Outcome(0, Arr(PlainItems(items)[..i] + [Plain(v)] + PlainItems(items)[i..])))
    ensures Agrees(Done(0, List(items + [v])), Outcome(0, Arr(PlainItems(items) + [Plain(v)])))
  {
    hide PlainItems;
    PlainInsert(items, i, v);
  }

  /** Adding a child does what it does without links exactly when the link of the parent serves. */
  lemma {:induction false} GiveChildExact(parent: Tree, token: string, v: Tree, cs: bool)
    requires Sound(parent)
    ensures Agrees(GiveChild(parent, token, v, cs), AddChild(Plain(parent), token, Plain(v), cs)) <==>
            Serves(parent, Decode(token), cs)
  {
    hide Decode, DecodeIndex, IndexOf, PlainItems, PlainFields, RemoveAt, AppendField, AfterRemoval, Serves;
    var child := Decode(token);
    match parent
    case List(items) =>
      var i := DecodeIndex(child);
      GiveListExact(items, if i.Some? && i.value <= |items| then i.value else 0, v);
      NoObject(parent, child, cs);
    case Dict(fields, tail) =>
      GiveMemberExact(fields, tail, child, v, cs);
    case Leaf(_) =>
      NoObject(parent, child, cs);
  }

  lemma {:induction false} NoObject(parent: Tree, key: string, cs: bool)
    requires !parent.Dict?
    ensures Serves(parent, key, cs)
  {
  }

  lemma {:induction false} AtPut(j: Json, pos: Position, v: Json)
    requires ValidPosition(j, pos)
    ensures ValidPosition(Put(j, pos, v), pos) && At(Put(j, pos, v), pos) == v
    decreases pos
  {
    if pos != [] {
      match j
      case Arr(items) => AtPut(items[pos[0]], pos[1..], v);
      case Obj(ms) => AtPut(ms[pos[0]].value, pos[1..], v);
    }
  }

  /** The object that the path names as the parent, if there is one, serves. */
  predicate PathServes(doc: Tree, path: string, cs: bool) {
    match Split(path)
    case None => true
    case Some((parentPath, token)) =>
      match Resolve(Plain(doc), parentPath, cs)
      case None => true
      case Some(pos) => Serves(NodeAt(doc, pos), Decode(token), cs)
  }

  lemma {:induction false} GivePathExact(doc: Tree, path: string, v: Tree, cs: bool)
    requires Sound(doc)
    ensures Agrees(GivePath(doc, path, v, cs), AddPath(Plain(doc), path, Plain(v), cs)) <==> PathServes(doc, path, cs)
  {
    hide Resolve, GiveChild, AddChild, Put, PutNode, Plain, Formed, Sound, Split, At, NodeAt, Serves, Decode;
    SoundFormed(doc);
    var split := Split(path);
    if split.Some? {
      var pos := Resolve(Plain(doc), split.value.0, cs);
      if pos.Some? {
        var p, parent := pos.value, NodeAt(doc, pos.value);
        PlainAt(doc, p);
        SoundAt(doc, p);
        GiveChildExact(parent, split.value.1, v, cs);
        var a, b := GiveChild(parent, split.value.1, v, cs), AddChild(Plain(parent), split.value.1, Plain(v), cs);
        if a.Done? {
          PlainPut(doc, p, a.tree);
          AtPut(Plain(doc), p, Plain(a.tree));
          AtPut(Plain(doc), p, b.doc);
        }
      }
    }
  }

  /** Adding a value at a path does what it does on the document without links. */
  predicate AddsAt(doc: Tree, path: string, v: Json, cs: bool) {
    Agrees(ApplyOpTree(doc, ADD, path, Some(v), None, cs), ApplyOp(Plain(doc), ADD, path, Some(v), None, cs))
  }

  /** One addition at any path: exactly when it replaces the document, or the link of its parent serves. */
  lemma {:induction false} AddExact(doc: Tree, path: string, v: Json, cs: bool)
    requires Sound(doc)
    ensures AddsAt(doc, path, v, cs) <==> path == "" || PathServes(doc, path, cs)
  {
    hide GivePath, AddPath, PathServes, Plain, Sound, Fresh;
    FreshTree(v);
    GivePathExact(doc, path, Fresh(v), cs);
  }

  // ----- all additions -----

  /** An object whose first member does not point to the last one. */
  lemma {:induction false} BadPlace(t: Tree) returns (pos: Position)
    requires Sound(t) && !Proper(t)
    ensures ValidPosition(Plain(t), pos) && NodeAt(t, pos).Dict? && !NodeAt(t, pos).tail.Last?
    decreases t
  {
    match t
    case List(items) =>
      var i :| 0 <= i < |items| && !Proper(items[i]);
      var rest := BadPlace(items[i]);
      pos := [i] + rest;
      assert pos[1..] == rest;
    case Dict(fields, tail) =>
      if !tail.Last? {
        pos := [];
      } else {
        var i :| 0 <= i < |fields| && !Proper(fields[i].value);
        var rest := BadPlace(fields[i].value);
        pos := [i] + rest;
        assert pos[1..] == rest;
      }
    case Leaf(_) => pos := [];
  }

  /** A key that is longer than all others. */
  lemma {:induction false} NewKey(ms: seq<Member>, cs: bool) returns (k: string)
    ensures Safe(k) && !Has(ms, k, cs)
  {
    k := LongKey(ms);
    NormLengths(cs);
    LongSafe(k);
    forall i | 0 <= i < |ms| ensures Norm(ms[i].key, cs) != Norm(k, cs) {
      assert |Norm(ms[i].key, cs)| == |ms[i].key|;
    }
  }

  function LongKey(ms: seq<Member>): (k: string)
    ensures forall i :: 0 <= i < |ms| ==> |ms[i].key| < |k|
    ensures forall i :: 0 <= i < |k| ==> k[i] == 'a'
  {
    if ms == [] then "a"
    else
      var k := LongKey(ms[1..]);
      if |ms[0].key| < |k| then k else seq(|ms[0].key| + 1, _ => 'a')
  }

  lemma {:induction false} NormLengths(cs: bool)
    ensures forall s: string :: |Norm(s, cs)| == |s|
  {
  }

  lemma {:induction false} LongSafe(k: string)
    requires forall i :: 0 <= i < |k| ==> k[i] == 'a'
    ensures Safe(k)
  {
    PlainIsSafe(k);
  }

  lemma {:induction false} BadAddition(doc: Tree, pos: Position, v: Json, cs: bool) returns (path: string)
    requires Sound(doc) && UniqueKeys(Plain(doc), cs) && SmallArrays(Plain(doc))
    requires ValidPosition(Plain(doc), pos) && NodeAt(doc, pos).Dict? && !NodeAt(doc, pos).tail.Last?
    ensures !AddsAt(doc, path, v, cs)
  {
    hide Plain, Sound, Resolve, UniqueKeys, SmallArrays, AddsAt, Encode, NodeAt, IndexOf, Split;
    var parent := NodeAt(doc, pos);
    var k := NewKey(PlainFields(parent.fields), cs);
    path := PathText(Plain(doc), pos) + "/" + Encode(k);
    PathResolves(Plain(doc), pos, cs);
    EncodeNoSlash(k);
    SplitLast(PathText(Plain(doc), pos), Encode(k));
    DecodeExact(k);
    AddExact(doc, path, v, cs);
  }

  ghost predicate EveryAdd(doc: Tree, cs: bool) {
    forall path, v :: AddsAt(doc, path, v, cs)
  }

  /** Every addition, at every path, does what it does without links exactly when all links are right. */
  lemma {:induction false} EveryAddExact(doc: Tree, cs: bool)
    requires Sound(doc) && UniqueKeys(Plain(doc), cs) && SmallArrays(Plain(doc))
    ensures EveryAdd(doc, cs) <==> Proper(doc)
  {
    hide Plain, Sound, Proper, UniqueKeys, SmallArrays, AddsAt;
    if Proper(doc) {
      forall path, v ensures AddsAt(doc, path, v, cs) {
        ProperAdds(doc, path, v, cs);
      }
    } else {
      var pos := BadPlace(doc);
      var path := BadAddition(doc, pos, Null, cs);
    }
  }

  lemma {:induction false} ProperAdds(doc: Tree, path: string, v: Json, cs: bool)
    requires Proper(doc)
    ensures AddsAt(doc, path, v, cs)
  {
    hide Plain, Proper, Formed, ApplyOpTree, ApplyOp;
    OpRefines(doc, ADD, path, Some(v), None, cs);
  }

  // ----- after a test and after a generation -----

  /** Documents in which every node has a path: keys told apart, arrays within the range of `size_t`. */
  predicate Addressable(j: Json, cs: bool) {
    UniqueKeys(j, cs) && SmallArrays(j)
  }

  lemma {:induction false} SortedAddressable(ms: seq<Member>, cs: bool)
    requires Addressable(Obj(ms), cs)
    ensures DistinctKeys(SortMembers(ms, cs), cs)
    ensures forall i :: 0 <= i < |ms| ==> Addressable(SortMembers(ms, cs)[i].value, cs)
  {
    SortedObject(ms, cs);
    SortPermuted(ms, cs);
    var r := SortMembers(ms, cs);
    forall i | 0 <= i < |ms| ensures Addressable(r[i].value, cs) {
      assert r[i] in multiset(r) && r[i] in multiset(ms);
    }
  }

  lemma {:induction false} SortPermuted(ms: seq<Member>, cs: bool)
    ensures multiset(SortMembers(ms, cs)) == multiset(ms)
  {
  }

  lemma {:induction false} ObjectAddressable(xs: seq<Member>, r: seq<Member>, cs: bool)
    requires |r| == |xs| && DistinctKeys(xs, cs) && forall i :: 0 <= i < |xs| ==> r[i].key == xs[i].key
    requires forall i :: 0 <= i < |r| ==> Addressable(r[i].value, cs)
    ensures Addressable(Obj(r), cs)
  {
  }

  lemma {:induction false} ComparedAddressable(a: Json, b: Json, cs: bool)
    requires Addressable(a, cs)
    ensures Addressable(Compared(a, b, cs), cs)
    decreases Size(a), 1
  {
    if Kind(a) == Kind(b) {
      match a
      case Arr(items) => ComparedItemsAddressable(items, b.items, cs);
      case Obj(ms) => ComparedObjectAddressable(ms, b.members, cs);
      case _ =>
    }
  }

  lemma {:induction false} ComparedObjectAddressable(ms: seq<Member>, bs: seq<Member>, cs: bool)
    requires Addressable(Obj(ms), cs)
    ensures Addressable(Compared(Obj(ms), Obj(bs), cs), cs)
    decreases Size(Obj(ms)), 0
  {
    hide SortMembers, ComparedMembers;
    var xs, ys := SortMembers(ms, cs), SortMembers(bs, cs);
    SizePermuted(ms, xs);
    SortedAddressable(ms, cs);
    ComparedMembersAddressable(xs, ys, cs);
    ObjectAddressable(xs, ComparedMembers(xs, ys, cs), cs);
  }

  lemma {:induction false} ComparedItemsAddressable(xs: seq<Json>, ys: seq<Json>, cs: bool)
    requires forall i :: 0 <= i < |xs| ==> Addressable(xs[i], cs)
    ensures forall i :: 0 <= i < |xs| ==> Addressable(ComparedItems(xs, ys, cs)[i], cs)
    decreases ItemsSize(xs), |xs| + 1
  {
    hide Addressable, Compared, CompareJson;
    if xs != [] && ys != [] {
      ComparedAddressable(xs[0], ys[0], cs);
      ComparedItemsAddressable(xs[1..], ys[1..], cs);
    }
  }

  lemma {:induction false} ComparedMembersAddressable(xs: seq<Member>, ys: seq<Member>, cs: bool)
    requires forall i :: 0 <= i < |xs| ==> Addressable(xs[i].value, cs)
    ensures forall i :: 0 <= i < |xs| ==> Addressable(ComparedMembers(xs, ys, cs)[i].value, cs)
    decreases MembersSize(xs), |xs| + 1
  {
    hide Addressable, Compared, CompareJson, SameKey;
    if xs != [] && ys != [] && SameKey(xs[0].key, ys[0].key, cs) {
      ComparedAddressable(xs[0].value, ys[0].value, cs);
      ComparedMembersAddressable(xs[1..], ys[1..], cs);
    }
  }

  lemma {:induction false} CreatedAddressable(a: Json, b: Json, cs: bool)
    requires Addressable(a, cs)
    ensures Addressable(Created(a, b, cs), cs)
    decreases Size(a), 1, 0
  {
    if Kind(a) == Kind(b) {
      match a
      case Arr(items) => CreatedItemsAddressable(items, b.items, cs);
      case Obj(ms) => CreatedObjectAddressable(ms, b.members, cs);
      case _ =>
    }
  }

  lemma {:induction false} CreatedObjectAddressable(ms: seq<Member>, bs: seq<Member>, cs: bool)
    requires Addressable(Obj(ms), cs)
    ensures Addressable(Created(Obj(ms), Obj(bs), cs), cs)
    decreases Size(Obj(ms)), 0, 0
  {
    hide SortMembers, CreatedMembers;
    var xs, ys := SortMembers(ms, cs), SortMembers(bs, cs);
    SizePermuted(ms, xs);
    SortedAddressable(ms, cs);
    CreatedMembersAddressable(xs, ys, cs);
    ObjectAddressable(xs, CreatedMembers(xs, ys, cs), cs);
  }

  lemma {:induction false} CreatedItemsAddressable(xs: seq<Json>, ys: seq<Json>, cs: bool)
    requires forall i :: 0 <= i < |xs| ==> Addressable(xs[i], cs)
    ensures forall i :: 0 <= i < |xs| ==> Addressable(CreatedItems(xs, ys, cs)[i], cs)
    decreases ItemsSize(xs), |xs| + 1, 0
  {
    hide Addressable, Created;
    if xs != [] && ys != [] {
      CreatedAddressable(xs[0], ys[0], cs);
      CreatedItemsAddressable(xs[1..], ys[1..], cs);
    }
  }

  lemma {:induction false} CreatedMembersAddressable(xs: seq<Member>, ys: seq<Member>, cs: bool)
    requires forall i :: 0 <= i < |xs| ==> Addressable(xs[i].value, cs)
    ensures forall i :: 0 <= i < |xs| ==> Addressable(CreatedMembers(xs, ys, cs)[i].value, cs)
    decreases MembersSize(xs), |xs| + 1, |ys|
  {
    hide Addressable, Created, SameKey, Before;
    if xs != [] && ys != [] {
      if SameKey(xs[0].key, ys[0].key, cs) {
        CreatedAddressable(xs[0].value, ys[0].value, cs);
        CreatedMembersAddressable(xs[1..], ys[1..], cs);
      } else if Before(xs[0].key, ys[0].key, cs) {
        CreatedMembersAddressable(xs[1..], ys, cs);
      } else {
        CreatedMembersAddressable(xs, ys[1..], cs);
      }
    }
  }

  lemma {:induction false} PutAddressable(j: Json, pos: Position, v: Json, cs: bool)
    requires Addressable(j, cs) && Addressable(v, cs) && ValidPosition(j, pos)
    ensures Addressable(Put(j, pos, v), cs)
    decreases pos
  {
    if pos != [] {
      match j
      case Arr(items) => PutAddressable(items[pos[0]], pos[1..], v, cs);
      case Obj(ms) => PutAddressable(ms[pos[0]].value, pos[1..], v, cs);
    }
  }

  lemma {:induction false} AtAddressable(j: Json, pos: Position, cs: bool)
    requires Addressable(j, cs) && ValidPosition(j, pos)
    ensures Addressable(At(j, pos), cs)
    decreases pos
  {
    if pos != [] {
      match j
      case Arr(items) => AtAddressable(items[pos[0]], pos[1..], cs);
      case Obj(ms) => AtAddressable(ms[pos[0]].value, pos[1..], cs);
    }
  }

  /** What a test leaves, passed or failed, at any path. */
  lemma {:induction false} TestedSound(doc: Tree, path: string, value: Option<Json>, from: Option<Json>, cs: bool)
    requires Proper(doc) && Addressable(Plain(doc), cs)
    ensures var a := ApplyOpTree(doc, TEST, path, value, from, cs);
            a.Done? && Sound(a.tree) && Addressable(Plain(a.tree), cs)
  {
    hide Resolve, Plain, Proper, Formed, Sound, Addressable, ComparedTree, Compared, CompareJson, PutNode, Put, At, NodeAt;
    ProperSound(doc);
    ProperFormed(doc);
    var pos := Resolve(Plain(doc), path, cs);
    if pos.Some? && value.Some? {
      var at := NodeAt(doc, pos.value);
      var left := ComparedTree(at, value.value, cs);
      PlainAt(doc, pos.value);
      ComparedSound(at, value.value, cs);
      SoundPut(doc, pos.value, left);
      PlainCompared(at, value.value, cs);
      PlainPut(doc, pos.value, left);
      AtAddressable(Plain(doc), pos.value, cs);
      ComparedAddressable(Plain(at), value.value, cs);
      PutAddressable(Plain(doc), pos.value, Plain(left), cs);
    }
  }

  /**
   After a test at any path, passed or failed, every addition at every path does what it does without
   links exactly when the test finds the ends in place in every object that it compares.
   */
  lemma {:induction false} AddsAfterTestExact(doc: Tree, path: string, value: Option<Json>, from: Option<Json>, cs: bool)
    requires Proper(doc) && Addressable(Plain(doc), cs)
    ensures var a := ApplyOpTree(doc, TEST, path, value, from, cs);
            a.Done? && (EveryAdd(a.tree, cs) <==> TestKeeps(Plain(doc), path, value, cs))
  {
    hide Plain, Proper, Sound, ApplyOpTree, TestKeeps, UniqueKeys, SmallArrays, EveryAdd;
    TestedSound(doc, path, value, from, cs);
    TestLinks(doc, path, value, from, cs);
    EveryAddExact(ApplyOpTree(doc, TEST, path, value, from, cs).tree, cs);
  }

  /**
   In the document that patches have been generated from, every addition does what it does without
   links exactly when every object that both documents have in a place has its ends in place.
   */
  lemma {:induction false} AddsAfterGenerationExact(from: Tree, to: Json, cs: bool)
    requires Proper(from) && Addressable(Plain(from), cs)
    ensures EveryAdd(CreatedTree(from, to, cs), cs) <==> CreationKeeps(Plain(from), to, cs)
  {
    hide Plain, Proper, Sound, Created, CreationKeeps, UniqueKeys, SmallArrays, EveryAdd;
    ProperFormed(from);
    CreatedSound(from, to, cs);
    PlainCreated(from, to, cs);
    CreatedAddressable(Plain(from), to, cs);
    CreationLinks(from, to, cs);
    EveryAddExact(CreatedTree(from, to, cs), cs);
  }
}
