/** What every patch operation does at its place, what it leaves alone, and the status of every failure. */
module PatchOperations {
  import opened Wrappers
  import opened Keys
  import opened Json
  import opened Decimal
  import opened Pointer
  import opened PointerLookup
  import opened PointerDecode
  import opened PointerSteps
  import opened SortedObjects
  import opened PatchApply
  import opened PatchSteps
  import opened PatchLaws

  // ----- the place of an operation -----

  /** A path splits at its last slash. */
  lemma {:induction false} SplitExact(path: string, parent: string, token: string)
    ensures Split(path) == Some((parent, token)) <==> NoSlash(token) && path == parent + "/" + token
    ensures Split(path).None? <==> NoSlash(path)
    decreases |path|
  {
    if NoSlash(token) && path == parent + "/" + token {
      SplitLast(parent, token);
      assert path[|parent|] == '/';
    }
    if path != "" {
      var n := |path| - 1;
      if path[n] == '/' {
        assert path == path[..n] + "/" + "";
      } else {
        var t := if token == "" then "" else token[..|token| - 1];
        SplitExact(path[..n], parent, t);
        assert path == path[..n] + [path[n]];
        if Split(path) == Some((parent, token)) {
          assert token == t + [path[n]];
          assert path == (parent + "/" + t) + [path[n]] == parent + "/" + token;
        }
      }
    }
  }

  /** What is put at a place is there afterwards. */
  lemma {:induction false} PutHere(j: Json, pos: Position, v: Json)
    requires ValidPosition(j, pos)
    ensures ValidPosition(Put(j, pos, v), pos) && At(Put(j, pos, v), pos) == v
    decreases pos
  {
    if pos != [] {
      match j
      case Arr(items) => PutHere(items[pos[0]], pos[1..], v);
      case Obj(ms) => PutHere(ms[pos[0]].value, pos[1..], v);
    }
  }

  /** Neither of two places lies at or below the other. */
  predicate Aside(p: Position, q: Position)
    decreases p
  {
    p != [] && q != [] && (p[0] != q[0] || Aside(p[1..], q[1..]))
  }

  /** Everything beside the place stays as it is, where it is. */
  lemma {:induction false} PutAside(j: Json, pos: Position, v: Json, q: Position)
    requires ValidPosition(j, pos) && ValidPosition(j, q) && Aside(pos, q)
    ensures ValidPosition(Put(j, pos, v), q) && At(Put(j, pos, v), q) == At(j, q)
    decreases pos
  {
    if pos[0] == q[0] {
      match j
      case Arr(items) => PutAside(items[pos[0]], pos[1..], v, q[1..]);
      case Obj(ms) => PutAside(ms[pos[0]].value, pos[1..], v, q[1..]);
    }
  }

  // ----- arrays -----

  /** The value stands at position `n`; earlier elements stay, later ones have moved up by one. */
  predicate Inserted(before: seq<Json>, after: seq<Json>, n: nat, v: Json) {
    && n <= |before| && |after| == |before| + 1 && after[n] == v
    && (forall i :: 0 <= i < n ==> after[i] == before[i])
    && (forall i :: n < i < |after| ==> after[i] == before[i - 1])
  }

  /** Position `n` has been taken out; earlier elements stay, later ones have moved down by one. */
  predicate Dropped<T(==)>(before: seq<T>, after: seq<T>, n: nat) {
    && n < |before| && |after| == |before| - 1
    && (forall i :: 0 <= i < n ==> after[i] == before[i])
    && (forall i :: n <= i < |after| ==> after[i] == before[i + 1])
  }

  /** The operation at a path is the addition to the parent, when that is there. */
  lemma AddThere(doc: Json, parent: string, token: string, v: Json, from: Option<Json>, cs: bool)
    requires NoSlash(token) && Resolve(doc, parent, cs).Some?
    ensures var pos := Resolve(doc, parent, cs).value;
            var r := AddChild(At(doc, pos), token, v, cs);
            ApplyOp(doc, ADD, parent + "/" + token, Some(v), from, cs) == Outcome(r.status, Put(doc, pos, r.doc))
  {
    hide Resolve, AddChild, Split, Put;
    SplitLast(parent, token);
  }

  /**
   Section 4.1 of RFC 6902 for an array: `-` appends; an index of at most the length inserts, a greater
   one fails with status 10; what is no index fails with status 11. A failure changes nothing. An index
   that `size_t` cannot hold counts modulo its range. Only what `decode_array_index_from_pointer`
   wrongly takes for an index is read as some index.
   */
  lemma AddToArray(doc: Json, parent: string, token: string, t: string, rest: string, v: Json, from: Option<Json>, cs: bool)
    requires NoSlash(token) && Resolve(doc, parent, cs).Some? && At(doc, Resolve(doc, parent, cs).value).Arr?
    requires Decode(token) == t + rest && NoSlash(t) && Terminates(rest)
    ensures var r, pos := ApplyOp(doc, ADD, parent + "/" + token, Some(v), from, cs), Resolve(doc, parent, cs).value;
            var items, n := At(doc, pos).items, ValueOf(t) % SIZE_MODULUS;
            && (t == "-" && rest == "" ==> r == Outcome(0, Put(doc, pos, Arr(items + [v]))))
            && (IsIndex(t) ==> (r.status == 0 <==> n <= |items|))
            && (IsIndex(t) && n <= |items| ==> exists after :: Inserted(items, after, n, v) && r.doc == Put(doc, pos, Arr(after)))
            && (IsIndex(t) && n > |items| ==> r == Outcome(10, doc))
            && (!IsIndex(t) && !WronglyAccepted(t) && t + rest != "-" ==> r == Outcome(11, doc))
            && (WronglyAccepted(t) && r.status != 0 ==> r == Outcome(10, doc))
  {
    hide Resolve, ApplyOp, DecodeIndex, Decode, Put, PatchApply.Split, WronglyAccepted;
    var pos := Resolve(doc, parent, cs).value;
    var items, n := At(doc, pos).items, ValueOf(t) % SIZE_MODULUS;
    AddThere(doc, parent, token, v, from, cs);
    PutBack(doc, pos);
    IndexLocal(t, rest);
    DecodesModulo(t);
    DashIsNone(t, rest);
    if IsIndex(t) && n <= |items| {
      assert Inserted(items, items[..n] + [v] + items[n..], n, v);
    }
  }

  function ValueOf(t: string): nat { if PointerLookup.AllDigits(t) then Value(t) else 0 }

  lemma DashIsNone(t: string, rest: string)
    ensures t + rest == "-" ==> !IsIndex(t)
  {
    if t + rest == "-" && t != "" {
      assert (t + rest)[0] == t[0];
    }
  }

  /** Section 4.2 for an array: the element at the index is taken out; with no such element it fails with status 13. */
  lemma RemoveFromArray(doc: Json, parent: string, token: string, t: string, rest: string, cs: bool)
    requires NoSlash(token) && Resolve(doc, parent, cs).Some? && At(doc, Resolve(doc, parent, cs).value).Arr?
    requires Decode(token) == t + rest && NoSlash(t) && Terminates(rest)
    ensures var r, pos := ApplyOp(doc, REMOVE, parent + "/" + token, None, None, cs), Resolve(doc, parent, cs).value;
            var items, n := At(doc, pos).items, ValueOf(t) % SIZE_MODULUS;
            && (IsIndex(t) && n < |items| ==>
                 r.status == 0 && exists after :: Dropped(items, after, n) && r.doc == Put(doc, pos, Arr(after)))
            && (IsIndex(t) && n >= |items| ==> r == Outcome(13, doc))
            && (!IsIndex(t) && !WronglyAccepted(t) ==> r == Outcome(13, doc))
            && (WronglyAccepted(t) && r.status != 0 ==> r == Outcome(13, doc))
  {
    hide Resolve, DecodeIndex, Decode, Put, PatchApply.Split, WronglyAccepted, AddPath;
    var pos := Resolve(doc, parent, cs).value;
    var items, n := At(doc, pos).items, ValueOf(t) % SIZE_MODULUS;
    SplitLast(parent, token);
    IndexLocal(t, rest);
    DecodesModulo(t);
    if IsIndex(t) && n < |items| {
      assert Dropped(items, RemoveAt(items, n), n);
    }
  }

  // ----- objects -----

  /** The first member with a key. */
  predicate FirstOf(ms: seq<Member>, key: string, i: nat, cs: bool) {
    && i < |ms| && Norm(ms[i].key, cs) == Norm(key, cs)
    && forall k :: 0 <= k < i ==> Norm(ms[k].key, cs) != Norm(key, cs)
  }

  predicate Absent(ms: seq<Member>, key: string, cs: bool) {
    forall k :: 0 <= k < |ms| ==> Norm(ms[k].key, cs) != Norm(key, cs)
  }

  /** The new member stands at the end; the first one of that key is gone, all others are as they were. */
  ghost predicate Given(before: seq<Member>, after: seq<Member>, key: string, v: Json, cs: bool) {
    exists others ::
      && after == others + [Member(key, v)]
      && if Absent(before, key, cs) then others == before
         else exists i: nat :: FirstOf(before, key, i, cs) && Dropped(before, others, i)
  }

  /** Section 4.1 for an object: the member is there afterwards, in place of the first one of that key. */
  lemma AddToObject(doc: Json, parent: string, token: string, v: Json, from: Option<Json>, cs: bool)
    requires NoSlash(token) && Resolve(doc, parent, cs).Some? && At(doc, Resolve(doc, parent, cs).value).Obj?
    ensures var r, pos := ApplyOp(doc, ADD, parent + "/" + token, Some(v), from, cs), Resolve(doc, parent, cs).value;
            && r.status == 0
            && exists after :: Given(At(doc, pos).members, after, Decode(token), v, cs) && r.doc == Put(doc, pos, Obj(after))
  {
    hide Resolve, ApplyOp, Decode, Put, PatchApply.Split, Norm;
    var pos := Resolve(doc, parent, cs).value;
    var ms, key := At(doc, pos).members, Decode(token);
    AddThere(doc, parent, token, v, from, cs);
    var i := IndexOf(ms, key, cs);
    var others := if i < |ms| then RemoveAt(ms, i) else ms;
    var after := others + [Member(key, v)];
    if i < |ms| {
      assert FirstOf(ms, key, i, cs) && Dropped(ms, others, i);
    }
    assert Given(ms, after, key, v, cs);
    assert AddChild(At(doc, pos), token, v, cs) == Outcome(0, Obj(after));
  }

  /**
   Section 4.2 for an object: the first member with the key, matched ignoring case, is taken out; with
   none it fails with status 13.
   */
  lemma RemoveFromObject(doc: Json, parent: string, token: string, cs: bool)
    requires NoSlash(token) && Resolve(doc, parent, cs).Some? && At(doc, Resolve(doc, parent, cs).value).Obj?
    ensures var r, pos := ApplyOp(doc, REMOVE, parent + "/" + token, None, None, cs), Resolve(doc, parent, cs).value;
            var ms := At(doc, pos).members;
            if Absent(ms, Decode(token), false) then r == Outcome(13, doc)
            else
              && r.status == 0
              && exists after, i: nat ::
                   FirstOf(ms, Decode(token), i, false) && Dropped(ms, after, i) && r.doc == Put(doc, pos, Obj(after))
  {
    hide Resolve, Decode, Put, PatchApply.Split, Norm, AddPath;
    var pos := Resolve(doc, parent, cs).value;
    var ms, key := At(doc, pos).members, Decode(token);
    SplitLast(parent, token);
    var i := IndexOf(ms, key, false);
    if i < |ms| {
      assert FirstOf(ms, key, i, false) && Dropped(ms, RemoveAt(ms, i), i);
    }
  }

  // ----- failures -----

  /** The path names no child of a container that is there. */
  predicate Nowhere(doc: Json, path: string, cs: bool) {
    match Split(path)
    case None => true
    case Some((parent, _)) =>
      match Resolve(doc, parent, cs)
      case None => true
      case Some(pos) => !At(doc, pos).Arr? && !At(doc, pos).Obj?
  }

  /** Without a container to add to or to remove from, status 9 or 13, and nothing changes. */
  lemma NoContainer(doc: Json, path: string, v: Json, from: Option<Json>, cs: bool)
    requires path != "" && Nowhere(doc, path, cs)
    ensures ApplyOp(doc, ADD, path, Some(v), from, cs) == Outcome(9, doc)
    ensures ApplyOp(doc, REMOVE, path, None, None, cs) == Outcome(13, doc)
    ensures ApplyOp(doc, REPLACE, path, Some(v), from, cs) == Outcome(13, doc)
  {
    hide Resolve, Decode, Put, PatchApply.Split;
    var split := Split(path);
    if split.Some? {
      var found := Resolve(doc, split.value.0, cs);
      if found.Some? {
        PutBack(doc, found.value);
      }
    }
  }

  /** The root is emptied by REMOVE, and replaced by ADD and REPLACE. */
  lemma AtTheRoot(doc: Json, v: Json, from: Option<Json>, cs: bool)
    ensures ApplyOp(doc, REMOVE, "", None, None, cs) == Outcome(0, Invalid)
    ensures ApplyOp(doc, ADD, "", Some(v), from, cs) == Outcome(0, v)
    ensures ApplyOp(doc, REPLACE, "", Some(v), from, cs) == Outcome(0, v)
  {
  }

  /** Nothing can be taken out at a path: it is the root, or a removal fails. */
  predicate NoneTaken(doc: Json, path: string, cs: bool) {
    path == "" || ApplyOp(doc, REMOVE, path, None, None, cs).status != 0
  }

  /** The fields that an operation needs, and the status when one of them is missing, or names nothing; the document stays. */
  lemma Refused(doc: Json, op: Op, path: string, value: Option<Json>, from: Option<Json>, cs: bool)
    ensures var r := ApplyOp(doc, op, path, value, from, cs);
            && (op.INVALID? ==> r == Outcome(3, doc))
            && (op.TEST? && (value.None? || Resolve(doc, path, cs).None?) ==> r == Outcome(1, doc))
            && (op.ADD? && value.None? ==> r == Outcome(7, doc))
            && (op.REPLACE? && value.None? && path == "" ==> r == Outcome(7, doc))
            && ((op.MOVE? || op.COPY?) && from.None? ==> r == Outcome(4, doc))
            && ((op.MOVE? || op.COPY?) && from.Some? && !from.value.Str? ==> r == Outcome(5, doc))
            && (op.COPY? && from.Some? && from.value.Str? && Resolve(doc, from.value.s, cs).None? ==> r == Outcome(5, doc))
            && (op.MOVE? && from.Some? && from.value.Str? && NoneTaken(doc, from.value.s, cs) ==> r == Outcome(5, doc))
            && (op.REPLACE? && path != "" && NoneTaken(doc, path, cs) ==> r == Outcome(13, doc))
  {
    hide Resolve, DetachChild, AddPath, Put, CompareJson;
  }

  /**
   What a patch object says: without a path that is a string it is malformed, with an operation that
   RFC 6902 does not name it is refused, and else its operation, path, value and source are those of
   the members of these names, in whatever order.
   */
  lemma PatchRead(doc: Json, patch: Json, cs: bool)
    ensures var path, value, from := Field(patch, "path", cs), Field(patch, "value", cs), Field(patch, "from", cs);
            var op, r := Field(patch, "op", cs), ApplyPatch(doc, patch, cs);
            if path.None? || !path.value.Str? then r == Outcome(2, doc)
            else
              && (op == Some(Str("add")) ==> r == ApplyOp(doc, ADD, path.value.s, value, from, cs))
              && (op == Some(Str("remove")) ==> r == ApplyOp(doc, REMOVE, path.value.s, value, from, cs))
              && (op == Some(Str("replace")) ==> r == ApplyOp(doc, REPLACE, path.value.s, value, from, cs))
              && (op == Some(Str("move")) ==> r == ApplyOp(doc, MOVE, path.value.s, value, from, cs))
              && (op == Some(Str("copy")) ==> r == ApplyOp(doc, COPY, path.value.s, value, from, cs))
              && (op == Some(Str("test")) ==> r == ApplyOp(doc, TEST, path.value.s, value, from, cs))
              && (op.None? || !op.value.Str? || op.value.s !in NAMES ==> r == Outcome(3, doc))
  {
    hide ApplyOp, Field, DecodeOp;
    OperationNames(patch, cs);
    InvalidOp(doc, cs);
  }

  const NAMES := ["add", "remove", "replace", "move", "copy", "test"]

  lemma OperationNames(patch: Json, cs: bool)
    ensures var op, r := Field(patch, "op", cs), DecodeOp(patch, cs);
            && (op == Some(Str("add")) ==> r == ADD) && (op == Some(Str("remove")) ==> r == REMOVE)
            && (op == Some(Str("replace")) ==> r == REPLACE) && (op == Some(Str("move")) ==> r == MOVE)
            && (op == Some(Str("copy")) ==> r == COPY) && (op == Some(Str("test")) ==> r == TEST)
            && (op.None? || !op.value.Str? || op.value.s !in NAMES ==> r == INVALID)
  {
    hide Field;
    NameApart();
    InNames();
  }

  lemma InNames()
    ensures "add" in NAMES && "remove" in NAMES && "replace" in NAMES && "move" in NAMES && "copy" in NAMES && "test" in NAMES
  {
    assert NAMES[0] == "add" && NAMES[1] == "remove" && NAMES[2] == "replace";
    assert NAMES[3] == "move" && NAMES[4] == "copy" && NAMES[5] == "test";
  }

  lemma NameApart()
    ensures "add" != "remove" && "add" != "replace" && "add" != "move" && "add" != "copy" && "add" != "test"
    ensures "remove" != "replace" && "remove" != "move" && "remove" != "copy" && "remove" != "test"
    ensures "replace" != "move" && "replace" != "copy" && "replace" != "test"
    ensures "move" != "copy" && "move" != "test" && "copy" != "test"
  {
    assert "move"[0] == 'm' && "copy"[0] == 'c' && "test"[0] == 't';
  }

  lemma InvalidOp(doc: Json, cs: bool)
    ensures forall path, value, from :: ApplyOp(doc, INVALID, path, value, from, cs) == Outcome(3, doc)
  {
  }

  /** A run goes on behind a patch exactly when that has succeeded, from the document that it has left. */
  lemma {:induction false} RunStops(doc: Json, a: seq<Json>, b: seq<Json>, cs: bool)
    ensures var r := ApplyAll(doc, a, cs);
            ApplyAll(doc, a + b, cs) == if r.status == 0 then ApplyAll(r.doc, b, cs) else r
    decreases |a|
  {
    hide ApplyPatch;
    if a == [] {
      assert a + b == b;
    } else {
      assert (a + b)[1..] == a[1..] + b;
      RunStops(ApplyPatch(doc, a[0], cs).doc, a[1..], b, cs);
    }
  }
}
