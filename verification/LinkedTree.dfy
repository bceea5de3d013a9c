/**
 Documents with the links that appending relies on. `Json` forgets them; here every object also
 carries what the `prev` of its first member points to, and `apply_patch` is followed on that.
 Arrays are never sorted, so theirs always points to the last element.
 */
module LinkedTree {
  import opened Wrappers
  import opened Keys
  import opened Json
  import opened SortList
  import opened Compare
  import opened Pointer
  import opened PointerLookup
  import opened PointerDecode
  import opened SortedObjects
  import opened PatchApply
  import opened TailLink

  datatype Tree = Leaf(j: Json) | List(items: seq<Tree>) | Dict(fields: seq<Entry>, tail: Tail)

  datatype Entry = Entry(key: string, value: Tree)

  // ----- the tree without its links -----

  function Plain(t: Tree): Json
    decreases t
  {
    match t
    case Leaf(j) => j
    case List(items) => Arr(PlainItems(items))
    case Dict(fields, _) => Obj(PlainFields(fields))
  }

  function PlainItems(items: seq<Tree>): (r: seq<Json>)
    ensures |r| == |items| && forall i :: 0 <= i < |items| ==> r[i] == Plain(items[i])
    decreases items
  {
    if items == [] then [] else [Plain(items[0])] + PlainItems(items[1..])
  }

  function PlainFields(fields: seq<Entry>): (r: seq<Member>)
    ensures |r| == |fields|
    ensures forall i :: 0 <= i < |fields| ==> r[i] == Member(fields[i].key, Plain(fields[i].value))
    decreases fields
  {
    if fields == [] then [] else [Member(fields[0].key, Plain(fields[0].value))] + PlainFields(fields[1..])
  }

  /** Containers are nodes with children, not leaves. */
  predicate Formed(t: Tree)
    decreases t
  {
    match t
    case Leaf(j) => !j.Arr? && !j.Obj?
    case List(items) => forall i :: 0 <= i < |items| ==> Formed(items[i])
    case Dict(fields, _) => forall i :: 0 <= i < |fields| ==> Formed(fields[i].value)
  }

  /** Every object's first member points to its last one. */
  predicate Proper(t: Tree)
    decreases t
  {
    match t
    case Leaf(j) => !j.Arr? && !j.Obj?
    case List(items) => forall i :: 0 <= i < |items| ==> Proper(items[i])
    case Dict(fields, tail) => tail.Last? && forall i :: 0 <= i < |fields| ==> Proper(fields[i].value)
  }

  /** The tree that `cJSON_Duplicate` or the parser builds. */
  function Fresh(j: Json): Tree
    decreases j
  {
    match j
    case Arr(items) => List(FreshItems(items))
    case Obj(ms) => Dict(FreshFields(ms), Last)
    case _ => Leaf(j)
  }

  function FreshItems(items: seq<Json>): (r: seq<Tree>)
    ensures |r| == |items| && forall i :: 0 <= i < |items| ==> r[i] == Fresh(items[i])
    decreases items
  {
    if items == [] then [] else [Fresh(items[0])] + FreshItems(items[1..])
  }

  function FreshFields(ms: seq<Member>): (r: seq<Entry>)
    ensures |r| == |ms| && forall i :: 0 <= i < |ms| ==> r[i] == Entry(ms[i].key, Fresh(ms[i].value))
    decreases ms
  {
    if ms == [] then [] else [Entry(ms[0].key, Fresh(ms[0].value))] + FreshFields(ms[1..])
  }

  // ----- places in the tree -----

  function NodeAt(t: Tree, pos: Position): Tree
    decreases pos
  {
    if pos == [] then t
    else match t
      case List(items) => if pos[0] < |items| then NodeAt(items[pos[0]], pos[1..]) else t
      case Dict(fields, _) => if pos[0] < |fields| then NodeAt(fields[pos[0]].value, pos[1..]) else t
      case Leaf(_) => t
  }

  function PutNode(t: Tree, pos: Position, v: Tree): Tree
    decreases pos
  {
    if pos == [] then v
    else match t
      case List(items) =>
        if pos[0] < |items| then List(items[pos[0] := PutNode(items[pos[0]], pos[1..], v)]) else t
      case Dict(fields, tail) =>
        if pos[0] < |fields| then
          Dict(fields[pos[0] := Entry(fields[pos[0]].key, PutNode(fields[pos[0]].value, pos[1..], v))], tail)
        else t
      case Leaf(_) => t
  }

  // ----- sorting -----

  function IndexedKey(p: (nat, Entry)): string { p.1.key }

  function Indexed(fields: seq<Entry>): (r: seq<(nat, Entry)>)
    ensures |r| == |fields| && forall i :: 0 <= i < |r| ==> r[i] == (i, fields[i])
  {
    seq(|fields|, i requires 0 <= i < |fields| => (i, fields[i]))
  }

  function First(p: (nat, Entry)): nat { p.0 }

  function Second(p: (nat, Entry)): Entry { p.1 }

  /** The old positions of the sorted fields. */
  function SortOrder(fields: seq<Entry>, cs: bool): (r: seq<nat>)
    ensures |r| == |fields|
  {
    MapSeq(First, Sort(Indexed(fields), IndexedKey, cs))
  }

  function SortFields(fields: seq<Entry>, cs: bool): (r: seq<Entry>)
    ensures |r| == |fields|
  {
    MapSeq(Second, Sort(Indexed(fields), IndexedKey, cs))
  }

  function FieldKey(f: Entry): string { f.key }

  function PlainField(f: Entry): Member { Member(f.key, Plain(f.value)) }

  /** Sorting the linked members sorts the members. */
  lemma SortedFields(fields: seq<Entry>, cs: bool)
    ensures PlainFields(SortFields(fields, cs)) == SortMembers(PlainFields(fields), cs)
  {
    hide Sort;
    SortMap(Indexed(fields), Second, IndexedKey, FieldKey, cs);
    assert MapSeq(Second, Indexed(fields)) == fields;
    SortMap(fields, PlainField, FieldKey, MemberKey, cs);
    assert MapSeq(PlainField, fields) == PlainFields(fields);
    var r := SortFields(fields, cs);
    assert MapSeq(PlainField, r) == PlainFields(r);
  }

  lemma SortedSize(fields: seq<Entry>, cs: bool)
    ensures MembersSize(PlainFields(SortFields(fields, cs))) == MembersSize(PlainFields(fields))
  {
    SortedFields(fields, cs);
    SizePermuted(PlainFields(fields), SortMembers(PlainFields(fields), cs));
  }

  // ----- compare_json and create_patches as changes of their argument -----

  /** What `compare_json` makes of the first tree: the objects it compares are sorted, up to the first difference. */
  function ComparedTree(a: Tree, b: Json, cs: bool): Tree
    decreases Size(Plain(a)), 0
  {
    if Kind(Plain(a)) != Kind(b) then a
    else match a
      case Leaf(_) => a
      case List(items) => List(ComparedList(items, b.items, cs))
      case Dict(fields, tail) =>
        SortedSize(fields, cs);
        Dict(ComparedFields(SortFields(fields, cs), SortMembers(b.members, cs), cs), AfterSort(SortOrder(fields, cs), tail))
  }

  function ComparedList(xs: seq<Tree>, ys: seq<Json>, cs: bool): (r: seq<Tree>)
    ensures |r| == |xs|
    decreases ItemsSize(PlainItems(xs)), |xs| + 1
  {
    if xs == [] || ys == [] then xs
    else
      [ComparedTree(xs[0], ys[0], cs)] +
      if CompareJson(Plain(xs[0]), ys[0], cs) then ComparedList(xs[1..], ys[1..], cs) else xs[1..]
  }

  function ComparedFields(xs: seq<Entry>, ys: seq<Member>, cs: bool): (r: seq<Entry>)
    ensures |r| == |xs| && forall i :: 0 <= i < |xs| ==> r[i].key == xs[i].key
    decreases MembersSize(PlainFields(xs)), |xs| + 1
  {
    if xs == [] || ys == [] || !SameKey(xs[0].key, ys[0].key, cs) then xs
    else
      [Entry(xs[0].key, ComparedTree(xs[0].value, ys[0].value, cs))] +
      if CompareJson(Plain(xs[0].value), ys[0].value, cs) then ComparedFields(xs[1..], ys[1..], cs) else xs[1..]
  }

  /** What `create_patches` makes of `from`: the objects that both documents have in a place are sorted. */
  function CreatedTree(a: Tree, b: Json, cs: bool): Tree
    decreases Size(Plain(a)), 0, 0
  {
    if Kind(Plain(a)) != Kind(b) then a
    else match a
      case Leaf(_) => a
      case List(items) => List(CreatedList(items, b.items, cs))
      case Dict(fields, tail) =>
        SortedSize(fields, cs);
        Dict(CreatedFields(SortFields(fields, cs), SortMembers(b.members, cs), cs), AfterSort(SortOrder(fields, cs), tail))
  }

  function CreatedList(xs: seq<Tree>, ys: seq<Json>, cs: bool): (r: seq<Tree>)
    ensures |r| == |xs|
    decreases ItemsSize(PlainItems(xs)), |xs| + 1, 0
  {
    if xs == [] || ys == [] then xs
    else [CreatedTree(xs[0], ys[0], cs)] + CreatedList(xs[1..], ys[1..], cs)
  }

  function CreatedFields(xs: seq<Entry>, ys: seq<Member>, cs: bool): (r: seq<Entry>)
    ensures |r| == |xs| && forall i :: 0 <= i < |xs| ==> r[i].key == xs[i].key
    decreases MembersSize(PlainFields(xs)), |xs| + 1, |ys|
  {
    if xs == [] || ys == [] then xs
    else if SameKey(xs[0].key, ys[0].key, cs) then
      [Entry(xs[0].key, CreatedTree(xs[0].value, ys[0].value, cs))] + CreatedFields(xs[1..], ys[1..], cs)
    else if Before(xs[0].key, ys[0].key, cs) then [xs[0]] + CreatedFields(xs[1..], ys, cs)
    else CreatedFields(xs, ys[1..], cs)
  }

  // ----- apply_patch -----

  /** Status and document; or an append through a link to a node that is gone, which C leaves undefined. */
  datatype Applied = Done(status: nat, tree: Tree) | Undefined

  datatype Taken = Taken(item: Tree, rest: Tree)

  function TakeChild(parent: Tree, token: string): Option<Taken> {
    var child := Decode(token);
    match parent
    case List(items) =>
      (match DecodeIndex(child)
       case Some(i) => if i < |items| then Some(Taken(items[i], List(RemoveAt(items, i)))) else None
       case None => None)
    case Dict(fields, tail) =>
      var i := IndexOf(PlainFields(fields), child, false);
      if i < |fields| then
        Some(Taken(fields[i].value, Dict(RemoveAt(fields, i), AfterRemoval(tail, i, |fields|))))
      else None
    case Leaf(_) => None
  }

  function TakePath(doc: Tree, path: string, cs: bool): Option<Taken> {
    match Split(path)
    case None => None
    case Some((parentPath, token)) =>
      match Resolve(Plain(doc), parentPath, cs)
      case None => None
      case Some(pos) =>
        match TakeChild(NodeAt(doc, pos), token)
        case None => None
        case Some(d) => Some(Taken(d.item, PutNode(doc, pos, d.rest)))
  }

  function AppendField(fields: seq<Entry>, tail: Tail, f: Entry): Applied {
    if fields != [] && tail.Gone? then Undefined
    else Done(0, Dict(AfterAppend(fields, tail, f), TailAfterAppend(fields, tail)))
  }

  function GiveChild(parent: Tree, token: string, v: Tree, cs: bool): Applied {
    var child := Decode(token);
    match parent
    case List(items) =>
      if child == "-" then Done(0, List(items + [v]))
      else (match DecodeIndex(child)
        case None => Done(11, parent)
        case Some(i) =>
          if i > |items| then Done(10, parent) else Done(0, List(items[..i] + [v] + items[i..])))
    case Dict(fields, tail) =>
      var i := IndexOf(PlainFields(fields), child, cs);
      if i < |fields| then AppendField(RemoveAt(fields, i), AfterRemoval(tail, i, |fields|), Entry(child, v))
      else AppendField(fields, tail, Entry(child, v))
    case Leaf(_) => Done(9, parent)
  }

  function GivePath(doc: Tree, path: string, v: Tree, cs: bool): Applied {
    match Split(path)
    case None => Done(9, doc)
    case Some((parentPath, token)) =>
      match Resolve(Plain(doc), parentPath, cs)
      case None => Done(9, doc)
      case Some(pos) =>
        match GiveChild(NodeAt(doc, pos), token, v, cs)
        case Undefined => Undefined
        case Done(status, parent) => Done(status, PutNode(doc, pos, parent))
  }

  function ApplyOpTree(doc: Tree, op: Op, path: string, value: Option<Json>, from: Option<Json>, cs: bool): Applied {
    match op
    case INVALID => Done(3, doc)
    case TEST =>
      (match Resolve(Plain(doc), path, cs)
        case None => Done(1, doc)
        case Some(pos) =>
          if value.None? then Done(1, doc)
          else
            var at := NodeAt(doc, pos);
            Done(if CompareJson(Plain(at), value.value, cs) then 0 else 1,
                 PutNode(doc, pos, ComparedTree(at, value.value, cs))))
    case REMOVE =>
      if path == "" then Done(0, Leaf(Invalid))
      else (match TakePath(doc, path, cs)
        case None => Done(13, doc)
        case Some(d) => Done(0, d.rest))
    case REPLACE =>
      if path == "" then
        (if value.None? then Done(7, doc) else Done(0, Fresh(value.value)))
      else (match TakePath(doc, path, cs)
        case None => Done(13, doc)
        case Some(d) => if value.None? then Done(7, d.rest) else GivePath(d.rest, path, Fresh(value.value), cs))
    case ADD =>
      if value.None? then Done(7, doc)
      else if path == "" then Done(0, Fresh(value.value))
      else GivePath(doc, path, Fresh(value.value), cs)
    case MOVE =>
      if from.None? then Done(4, doc)
      else if !from.value.Str? then Done(5, doc)
      else (match TakePath(doc, from.value.s, cs)
        case None => Done(5, doc)
        case Some(d) => GivePath(d.rest, path, d.item, cs))
    case COPY =>
      if from.None? then Done(4, doc)
      else if !from.value.Str? then Done(5, doc)
      else (match Resolve(Plain(doc), from.value.s, cs)
        case None => Done(5, doc)
        case Some(pos) => GivePath(doc, path, Fresh(Plain(NodeAt(doc, pos))), cs))
  }

  function ApplyPatchTree(doc: Tree, patch: Json, cs: bool): Applied {
    match Field(patch, "path", cs)
    case Some(Str(path)) =>
      ApplyOpTree(doc, DecodeOp(patch, cs), path, Field(patch, "value", cs), Field(patch, "from", cs), cs)
    case _ => Done(2, doc)
  }

  function ApplyAllTree(doc: Tree, patches: seq<Json>, cs: bool): Applied
    decreases |patches|
  {
    if patches == [] then Done(0, doc)
    else match ApplyPatchTree(doc, patches[0], cs)
      case Undefined => Undefined
      case Done(status, tree) => if status != 0 then Done(status, tree) else ApplyAllTree(tree, patches[1..], cs)
  }

  /** `cJSONUtils_ApplyPatches` and its case-sensitive variant. */
  function ApplyPatchesTree(doc: Tree, patches: Json, cs: bool): Applied {
    if patches.Arr? then ApplyAllTree(doc, patches.items, cs) else Done(1, doc)
  }

  /** The document that patches are applied to in place. */
  class Document {
    var root: Tree

    constructor (root: Tree)
      ensures this.root == root
    {
      this.root := root;
    }

    /** The loop of `cJSONUtils_ApplyPatches`: stops at the first patch that fails; no status where C leaves it undefined. */
    method Apply(patches: Json, cs: bool) returns (status: Option<nat>)
      modifies this
      ensures match ApplyPatchesTree(old(root), patches, cs)
              case Done(s, tree) => status == Some(s) && root == tree
              case Undefined => status == None
    {
      if !patches.Arr? {
        return Some(1);
      }
      var i := 0;
      while i < |patches.items|
        invariant i <= |patches.items|
        invariant ApplyAllTree(old(root), patches.items, cs) == ApplyAllTree(root, patches.items[i..], cs)
      {
        var r := ApplyPatchTree(root, patches.items[i], cs);
        assert patches.items[i..][1..] == patches.items[i + 1..];
        if r.Undefined? {
          return None;
        }
        root := r.tree;
        if r.status != 0 {
          return Some(r.status);
        }
        i := i + 1;
      }
      return Some(0);
    }
  }
}
