/** Applying JSON Patch (RFC 6902) documents, as cJSON_Utils.c does. */
module PatchApply {
  import opened Wrappers
  import opened Json
  import opened Pointer
  import opened PointerLookup
  import opened PointerDecode
  import opened SortedObjects
  import opened CompareEffect

  datatype Op = INVALID | ADD | REMOVE | REPLACE | MOVE | COPY | TEST

  /** The status code of `apply_patch` (0 is success) and the document as the call leaves it. */
  datatype Outcome = Outcome(status: nat, doc: Json)

  datatype Detached = Detached(item: Json, rest: Json)

  /** Overwrites the node at a position. */
  function Put(j: Json, pos: Position, v: Json): Json
    requires ValidPosition(j, pos)
    decreases pos
  {
    if pos == [] then v
    else match j
      case Arr(items) => Arr(items[pos[0] := Put(items[pos[0]], pos[1..], v)])
      case Obj(ms) => Obj(ms[pos[0] := ms[pos[0]].(value := Put(ms[pos[0]].value, pos[1..], v))])
  }

  /** `strrchr(path, '/')`: what stands before and after the last slash. */
  function Split(path: string): Option<(string, string)> {
    if path == "" then None
    else if path[|path| - 1] == '/' then Some((path[..|path| - 1], ""))
    else match Split(path[..|path| - 1])
      case None => None
      case Some((parent, child)) => Some((parent, child + [path[|path| - 1]]))
  }

  /** The child of `parent` named by a token, taken out. Member keys are matched ignoring case in both modes. */
  function DetachChild(parent: Json, token: string): Option<Detached> {
    var child := Decode(token);
    match parent
    case Arr(items) =>
      (match DecodeIndex(child)
       case Some(i) => if i < |items| then Some(Detached(items[i], Arr(RemoveAt(items, i)))) else None
       case None => None)
    case Obj(ms) =>
      var i := IndexOf(ms, child, false);
      if i < |ms| then Some(Detached(ms[i].value, Obj(RemoveAt(ms, i)))) else None
    case _ => None
  }

  /** `detach_path`. */
  function DetachPath(doc: Json, path: string, cs: bool): Option<Detached> {
    match Split(path)
    case None => None
    case Some((parentPath, token)) =>
      match Resolve(doc, parentPath, cs)
      case None => None
      case Some(pos) =>
        match DetachChild(At(doc, pos), token)
        case None => None
        case Some(d) => Some(Detached(d.item, Put(doc, pos, d.rest)))
  }

  /** Adds a value under `parent`; the status tells why it could not. */
  function AddChild(parent: Json, token: string, v: Json, cs: bool): Outcome {
    var child := Decode(token);
    match parent
    case Arr(items) =>
      if child == "-" then Outcome(0, Arr(items + [v]))
      else (match DecodeIndex(child)
        case None => Outcome(11, parent)
        case Some(i) =>
          if i > |items| then Outcome(10, parent) else Outcome(0, Arr(items[..i] + [v] + items[i..])))
    case Obj(ms) =>
      var i := IndexOf(ms, child, cs);
      var others := if i < |ms| then RemoveAt(ms, i) else ms;
      Outcome(0, Obj(others + [Member(child, v)]))
    case _ => Outcome(9, parent)
  }

  /** The last part of `apply_patch`: add `v` at `path`. */
  function AddPath(doc: Json, path: string, v: Json, cs: bool): Outcome {
    match Split(path)
    case None => Outcome(9, doc)
    case Some((parentPath, token)) =>
      match Resolve(doc, parentPath, cs)
      case None => Outcome(9, doc)
      case Some(pos) =>
        var r := AddChild(At(doc, pos), token, v, cs);
        Outcome(r.status, Put(doc, pos, r.doc))
  }

  /** `apply_patch` once operation, path, value and source path have been read from the patch. */
  function ApplyOp(doc: Json, op: Op, path: string, value: Option<Json>, from: Option<Json>, cs: bool): Outcome {
    match op
    case INVALID => Outcome(3, doc)
    case TEST =>
      (match Resolve(doc, path, cs)
        case None => Outcome(1, doc)
        case Some(pos) =>
          if value.None? then Outcome(1, doc)
          else
            var same := CompareJson(At(doc, pos), value.value, cs);
            Outcome(if same then 0 else 1, Put(doc, pos, Compared(At(doc, pos), value.value, cs))))
    case REMOVE =>
      if path == "" then Outcome(0, Invalid)
      else (match DetachPath(doc, path, cs)
        case None => Outcome(13, doc)
        case Some(d) => Outcome(0, d.rest))
    case REPLACE =>
      if path == "" then
        (if value.None? then Outcome(7, doc) else Outcome(0, value.value))
      else (match DetachPath(doc, path, cs)
        case None => Outcome(13, doc)
        case Some(d) => if value.None? then Outcome(7, d.rest) else AddPath(d.rest, path, value.value, cs))
    case ADD =>
      if value.None? then Outcome(7, doc)
      else if path == "" then Outcome(0, value.value)
      else AddPath(doc, path, value.value, cs)
    case MOVE =>
      if from.None? then Outcome(4, doc)
      else if !from.value.Str? then Outcome(5, doc)
      else (match DetachPath(doc, from.value.s, cs)
        case None => Outcome(5, doc)
        case Some(d) => AddPath(d.rest, path, d.item, cs))
    case COPY =>
      if from.None? then Outcome(4, doc)
      else if !from.value.Str? then Outcome(5, doc)
      else (match Resolve(doc, from.value.s, cs)
        case None => Outcome(5, doc)
        case Some(pos) => AddPath(doc, path, At(doc, pos), cs))
  }

  // ----- reading a patch object -----

  function OpName(op: Op): string {
    match op
    case INVALID => ""
    case ADD => "add"
    case REMOVE => "remove"
    case REPLACE => "replace"
    case MOVE => "move"
    case COPY => "copy"
    case TEST => "test"
  }

  function Field(patch: Json, name: string, cs: bool): Option<Json> {
    if patch.Obj? then Get(patch.members, name, cs) else None
  }

  /** `decode_patch_operation`. */
  function DecodeOp(patch: Json, cs: bool): Op {
    match Field(patch, "op", cs)
    case Some(Str(s)) =>
      if s == "add" then ADD
      else if s == "remove" then REMOVE
      else if s == "replace" then REPLACE
      else if s == "move" then MOVE
      else if s == "copy" then COPY
      else if s == "test" then TEST
      else INVALID
    case _ => INVALID
  }

  /** `apply_patch`. */
  function ApplyPatch(doc: Json, patch: Json, cs: bool): Outcome {
    match Field(patch, "path", cs)
    case Some(Str(path)) =>
      ApplyOp(doc, DecodeOp(patch, cs), path, Field(patch, "value", cs), Field(patch, "from", cs), cs)
    case _ => Outcome(2, doc)
  }

  function ApplyAll(doc: Json, patches: seq<Json>, cs: bool): Outcome
    decreases |patches|
  {
    if patches == [] then Outcome(0, doc)
    else
      var r := ApplyPatch(doc, patches[0], cs);
      if r.status != 0 then r else ApplyAll(r.doc, patches[1..], cs)
  }

  /** `cJSONUtils_ApplyPatches` and its case-sensitive variant. */
  function ApplyPatches(doc: Json, patches: Json, cs: bool): Outcome {
    if patches.Arr? then ApplyAll(doc, patches.items, cs) else Outcome(1, doc)
  }
}
