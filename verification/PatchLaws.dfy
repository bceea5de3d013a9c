/** What RFC 6902 says of each operation, and where `apply_patch` departs from it. */
module PatchLaws {
  import opened Wrappers
  import opened Keys
  import opened Json
  import opened Compare
  import opened Pointer
  import opened PointerLookup
  import opened PointerDecode
  import opened SortedObjects
  import opened CompareEffect
  import opened PatchApply

  // ----- tests -----

  /** Putting a value of the same meaning somewhere keeps the meaning of the document. */
  lemma {:induction false} PutMeaning(j: Json, pos: Position, v: Json, cs: bool)
    requires ValidPosition(j, pos) && Meaning(v, cs) == Meaning(At(j, pos), cs)
    ensures Meaning(Put(j, pos, v), cs) == Meaning(j, cs)
    decreases pos
  {
    if pos != [] {
      match j
      case Arr(items) =>
        PutMeaning(items[pos[0]], pos[1..], v, cs);
        ItemsMeaningUpdate(items, pos[0], Put(items[pos[0]], pos[1..], v), cs);
      case Obj(ms) =>
        PutMeaning(ms[pos[0]].value, pos[1..], v, cs);
        MembersMeaningUpdate(ms, pos[0], Put(ms[pos[0]].value, pos[1..], v), cs);
    }
  }

  lemma ItemsMeaningUpdate(items: seq<Json>, i: nat, v: Json, cs: bool)
    requires i < |items| && Meaning(v, cs) == Meaning(items[i], cs)
    ensures ItemsMeaning(items[i := v], cs) == ItemsMeaning(items, cs)
  {
    hide Meaning;
  }

  lemma {:induction false} MembersMeaningUpdate(ms: seq<Member>, i: nat, v: Json, cs: bool)
    requires i < |ms| && Meaning(v, cs) == Meaning(ms[i].value, cs)
    ensures MembersMeaning(ms[i := ms[i].(value := v)], cs) == MembersMeaning(ms, cs)
    decreases i
  {
    hide Meaning, Norm;
    var r := ms[i := ms[i].(value := v)];
    if i > 0 {
      MembersMeaningUpdate(ms[1..], i - 1, v, cs);
      assert r[1..] == ms[1..][i - 1 := ms[1..][i - 1].(value := v)];
    } else {
      assert r[1..] == ms[1..];
    }
  }

  /**
   Section 4.6: a test succeeds exactly when the value at the path is there and means the same. It
   keeps the meaning of the document, but not the order of the members that it compares.
   */
  lemma TestExact(doc: Json, path: string, value: Json, from: Option<Json>, cs: bool)
    requires UniqueKeys(value, cs)
    requires Resolve(doc, path, cs).Some? ==> UniqueKeys(At(doc, Resolve(doc, path, cs).value), cs)
    ensures var r, found := ApplyOp(doc, TEST, path, Some(value), from, cs), Resolve(doc, path, cs);
            && Meaning(r.doc, cs) == Meaning(doc, cs)
            && (r.status == 0 <==> found.Some? && Meaning(At(doc, found.value), cs) == Meaning(value, cs))
  {
    hide Resolve, CompareJson, Meaning, Compared, Put;
    var found := Resolve(doc, path, cs);
    if found.Some? {
      var at := At(doc, found.value);
      CompareJsonExact(at, value, cs);
      ComparedMeaning(at, value, cs);
      PutMeaning(doc, found.value, Compared(at, value, cs), cs);
    }
  }

  /** Testing an object against an object leaves its keys sorted, whether the test succeeds or not. */
  lemma TestSorts(ms: seq<Member>, vs: seq<Member>, from: Option<Json>, cs: bool)
    ensures var r := ApplyOp(Obj(ms), TEST, "", Some(Obj(vs)), from, cs).doc;
            && r.Obj? && |r.members| == |ms|
            && forall i :: 0 <= i < |ms| ==> r.members[i].key == SortMembers(ms, cs)[i].key
  {
    hide SortMembers, CompareJson, ComparedMembers;
    assert Resolve(Obj(ms), "", cs) == Some([]);
  }

  // ----- the other operations -----

  /** Section 4.5: copying is adding the value found at the source, unless the target is the root, where it fails. */
  lemma CopyIsAdd(doc: Json, path: string, source: string, cs: bool)
    requires Resolve(doc, source, cs).Some?
    ensures var copied := ApplyOp(doc, COPY, path, None, Some(Str(source)), cs);
            var added := ApplyOp(doc, ADD, path, Some(At(doc, Resolve(doc, source, cs).value)), None, cs);
            copied == added <==> path != ""
  {
    hide Resolve, AddChild;
  }

  /** Section 4.3: replacing is removing and then adding, also at the root. */
  lemma ReplaceIsRemoveAndAdd(doc: Json, path: string, value: Json, cs: bool)
    requires ApplyOp(doc, REMOVE, path, None, None, cs).status == 0
    ensures var removed := ApplyOp(doc, REMOVE, path, None, None, cs).doc;
            ApplyOp(doc, REPLACE, path, Some(value), None, cs) == ApplyOp(removed, ADD, path, Some(value), None, cs)
  {
    hide DetachPath, AddPath;
  }

  /** Section 4.4: moving is removing at the source and adding what was there, unless the target is the root, where it fails. */
  lemma MoveIsRemoveAndAdd(doc: Json, path: string, source: string, cs: bool)
    requires DetachPath(doc, source, cs).Some?
    ensures var d := DetachPath(doc, source, cs).value;
            var moved := ApplyOp(doc, MOVE, path, None, Some(Str(source)), cs);
            && source != "" && ApplyOp(doc, REMOVE, source, None, None, cs) == Outcome(0, d.rest)
            && (moved == ApplyOp(d.rest, ADD, path, Some(d.item), None, cs) <==> path != "")
  {
    hide AddChild, Resolve, DetachChild;
  }

  // ----- failing patches -----

  lemma {:induction false} PutBack(j: Json, pos: Position)
    requires ValidPosition(j, pos)
    ensures Put(j, pos, At(j, pos)) == j
    decreases pos
  {
    if pos != [] {
      match j
      case Arr(items) => PutBack(items[pos[0]], pos[1..]);
      case Obj(ms) => PutBack(ms[pos[0]].value, pos[1..]);
    }
  }

  /** The document when an operation has taken out what it replaces or moves, if it does so. */
  function Emptied(doc: Json, op: Op, path: string, from: Option<Json>, cs: bool): Option<Json> {
    var taken :=
      if op.REPLACE? && path != "" then DetachPath(doc, path, cs)
      else if op.MOVE? && from.Some? && from.value.Str? then DetachPath(doc, from.value.s, cs)
      else None;
    if taken.Some? then Some(taken.value.rest) else None
  }

  lemma FailedAdd(doc: Json, path: string, v: Json, cs: bool)
    ensures AddPath(doc, path, v, cs).status != 0 ==> AddPath(doc, path, v, cs).doc == doc
  {
    hide Resolve, Put, DecodeIndex, Decode;
    var split := Split(path);
    if split.Some? {
      var found := Resolve(doc, split.value.0, cs);
      if found.Some? {
        PutBack(doc, found.value);
        FailedChild(At(doc, found.value), split.value.1, v, cs);
      }
    }
  }

  lemma FailedChild(parent: Json, token: string, v: Json, cs: bool)
    ensures AddChild(parent, token, v, cs).status != 0 ==> AddChild(parent, token, v, cs).doc == parent
  {
    hide DecodeIndex, Decode, IndexOf;
  }

  lemma {:induction false} PutSize(j: Json, pos: Position, v: Json)
    requires ValidPosition(j, pos)
    ensures Size(Put(j, pos, v)) + Size(At(j, pos)) == Size(j) + Size(v)
    decreases pos
  {
    if pos != [] {
      match j
      case Arr(items) =>
        PutSize(items[pos[0]], pos[1..], v);
        ItemsSizeUpdate(items, pos[0], Put(items[pos[0]], pos[1..], v));
      case Obj(ms) =>
        PutSize(ms[pos[0]].value, pos[1..], v);
        MembersSizeUpdate(ms, pos[0], Put(ms[pos[0]].value, pos[1..], v));
    }
  }

  lemma {:induction false} ItemsSizeUpdate(items: seq<Json>, i: nat, v: Json)
    requires i < |items|
    ensures ItemsSize(items[i := v]) + Size(items[i]) == ItemsSize(items) + Size(v)
    decreases i
  {
    hide Size;
    if i > 0 {
      ItemsSizeUpdate(items[1..], i - 1, v);
      assert items[i := v][1..] == items[1..][i - 1 := v];
    } else {
      assert items[i := v][1..] == items[1..];
    }
  }

  lemma {:induction false} MembersSizeUpdate(ms: seq<Member>, i: nat, v: Json)
    requires i < |ms|
    ensures MembersSize(ms[i := ms[i].(value := v)]) + Size(ms[i].value) == MembersSize(ms) + Size(v)
    decreases i
  {
    hide Size;
    var r := ms[i := ms[i].(value := v)];
    if i > 0 {
      MembersSizeUpdate(ms[1..], i - 1, v);
      assert r[1..] == ms[1..][i - 1 := ms[1..][i - 1].(value := v)];
    } else {
      assert r[1..] == ms[1..];
    }
  }

  lemma {:induction false} ItemsSizeWithout(items: seq<Json>, i: nat)
    requires i < |items|
    ensures ItemsSize(items) == Size(items[i]) + ItemsSize(RemoveAt(items, i))
    decreases i
  {
    hide Size;
    if i > 0 {
      ItemsSizeWithout(items[1..], i - 1);
      assert RemoveAt(items, i)[1..] == RemoveAt(items[1..], i - 1);
    } else {
      assert RemoveAt(items, i) == items[1..];
    }
  }

  lemma ChildSmaller(parent: Json, token: string)
    ensures DetachChild(parent, token).Some? ==> Size(DetachChild(parent, token).value.rest) < Size(parent)
  {
    hide Decode, DecodeIndex, IndexOf;
    var child := Decode(token);
    match parent
    case Arr(items) =>
      var i := DecodeIndex(child);
      if i.Some? && i.value < |items| {
        ItemsSizeWithout(items, i.value);
      }
    case Obj(ms) =>
      var i := IndexOf(ms, child, false);
      if i < |ms| {
        SizeWithout(ms, i);
      }
    case _ =>
  }

  /** Taking something out of a document makes it smaller. */
  lemma DetachSmaller(doc: Json, path: string, cs: bool)
    ensures DetachPath(doc, path, cs).Some? ==> Size(DetachPath(doc, path, cs).value.rest) < Size(doc)
  {
    hide Resolve, DetachChild, Size, Put, Split;
    var split := Split(path);
    if split.Some? {
      var pos := Resolve(doc, split.value.0, cs);
      if pos.Some? {
        var parent := At(doc, pos.value);
        ChildSmaller(parent, split.value.1);
        var d := DetachChild(parent, split.value.1);
        if d.Some? {
          PutSize(doc, pos.value, d.value.rest);
        }
      }
    }
  }

  lemma {:induction false} PutThere(j: Json, pos: Position, v: Json)
    requires ValidPosition(j, pos)
    ensures Put(j, pos, v) == j <==> v == At(j, pos)
    decreases pos
  {
    if pos != [] {
      match j
      case Arr(items) =>
        PutThere(items[pos[0]], pos[1..], v);
        assert items[pos[0] := Put(items[pos[0]], pos[1..], v)][pos[0]] == Put(items[pos[0]], pos[1..], v);
      case Obj(ms) =>
        PutThere(ms[pos[0]].value, pos[1..], v);
        assert ms[pos[0] := ms[pos[0]].(value := Put(ms[pos[0]].value, pos[1..], v))][pos[0]].value ==
               Put(ms[pos[0]].value, pos[1..], v);
    }
  }

  /** A test that moves nothing. */
  predicate Unmoved(doc: Json, path: string, value: Option<Json>, cs: bool) {
    match Resolve(doc, path, cs)
    case None => true
    case Some(pos) => value.None? || Compared(At(doc, pos), value.value, cs) == At(doc, pos)
  }

  /** A test whose objects, where it compares them, are sorted beforehand. */
  predicate Settled(doc: Json, path: string, value: Option<Json>, cs: bool) {
    match Resolve(doc, path, cs)
    case None => true
    case Some(pos) => value.None? || SortedWalk(At(doc, pos), value.value, cs)
  }

  predicate UniqueThere(doc: Json, path: string, cs: bool) {
    match Resolve(doc, path, cs)
    case None => true
    case Some(pos) => UniqueKeys(At(doc, pos), cs)
  }

  /** On unique keys a test moves nothing exactly when it finds the objects sorted. */
  lemma UnmovedExact(doc: Json, path: string, value: Option<Json>, cs: bool)
    requires UniqueThere(doc, path, cs)
    ensures Unmoved(doc, path, value, cs) <==> Settled(doc, path, value, cs)
  {
    hide Resolve, Compared, SortedWalk, UniqueKeys;
    if Resolve(doc, path, cs).Some? && value.Some? {
      ComparedUnchanged(At(doc, Resolve(doc, path, cs).value), value.value, cs);
    }
  }

  /**
   A failing operation leaves the document as it was exactly when it has taken nothing out (a
   replacement or a move that got that far does not put it back) and moved nothing (as a test does
   that meets an object out of order). RFC 5789 section 2 wants all or nothing.
   */
  lemma FailureLeaves(doc: Json, op: Op, path: string, value: Option<Json>, from: Option<Json>, cs: bool)
    ensures var r, emptied := ApplyOp(doc, op, path, value, from, cs), Emptied(doc, op, path, from, cs);
            r.status != 0 ==>
              && (r.doc == doc <==> emptied.None? && (op.TEST? ==> Unmoved(doc, path, value, cs)))
              && (op.TEST? && UniqueThere(doc, path, cs) ==> (r.doc == doc <==> Settled(doc, path, value, cs)))
              && (emptied.Some? ==> r.doc == emptied.value)
  {
    hide DetachPath, AddPath, Resolve, CompareJson, Compared, Put, Size, SortedWalk, UniqueKeys;
    FailureDoc(doc, op, path, value, from, cs);
    if op.REPLACE? {
      DetachSmaller(doc, path, cs);
    }
    if op.MOVE? && from.Some? && from.value.Str? {
      DetachSmaller(doc, from.value.s, cs);
    }
    if op.TEST? && UniqueThere(doc, path, cs) {
      UnmovedExact(doc, path, value, cs);
    }
    if op.TEST? && value.Some? && Resolve(doc, path, cs).Some? {
      var pos := Resolve(doc, path, cs).value;
      PutThere(doc, pos, Compared(At(doc, pos), value.value, cs));
    }
  }

  lemma FailureDoc(doc: Json, op: Op, path: string, value: Option<Json>, from: Option<Json>, cs: bool)
    ensures var r, emptied := ApplyOp(doc, op, path, value, from, cs), Emptied(doc, op, path, from, cs);
            r.status != 0 && !op.TEST? ==> r.doc == if emptied.Some? then emptied.value else doc
  {
    hide DetachPath, AddPath, Resolve, CompareJson, Compared, Put;
    if value.Some? {
      FailedAdd(doc, path, value.value, cs);
      if op.REPLACE? && DetachPath(doc, path, cs).Some? {
        FailedAdd(DetachPath(doc, path, cs).value.rest, path, value.value, cs);
      }
    }
    if from.Some? && from.value.Str? {
      var d, found := DetachPath(doc, from.value.s, cs), Resolve(doc, from.value.s, cs);
      if op.MOVE? && d.Some? {
        FailedAdd(d.value.rest, path, d.value.item, cs);
      }
      if op.COPY? && found.Some? {
        FailedAdd(doc, path, At(doc, found.value), cs);
      }
    }
  }

  lemma SplitTwo(c: char)
    requires c != '/'
    ensures Split(['/', c]) == Some(("", [c]))
  {
    var p := ['/', c];
    assert p[..1] == ['/'];
    assert Split(['/']) == Some(("", ""));
    assert "" + [c] == [c];
  }

  /** Moving a member to the root fails with status 9, and the member is gone. */
  lemma FailedMoveLoses(v: Json, cs: bool)
    ensures var doc := Obj([Member("a", v)]);
            ApplyOp(doc, MOVE, "", None, Some(Str("/a")), cs) == Outcome(9, Obj([]))
  {
    var doc := Obj([Member("a", v)]);
    SplitTwo('a');
    assert Resolve(doc, "", cs) == Some([]);
    assert Encode("a") == "a";
    PlainIsSafe("a");
    DecodeExact("a");
    assert IndexOf(doc.members, "a", false) == 0;
    assert RemoveAt(doc.members, 0) == [];
  }
}
