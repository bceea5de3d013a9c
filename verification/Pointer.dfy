/**
 JSON Pointer (RFC 6901) in cJSON_Utils.c: building the path of a node and walking a path.

 A node is named by its position, the child indices that lead to it from the root, so
 that a walk is known to reach one particular node and not merely an equal value.
 */
module Pointer {
  import opened Wrappers
  import opened Json
  import opened Decimal

  type Position = seq<nat>

  predicate ValidPosition(j: Json, pos: Position)
    decreases pos
  {
    pos == [] ||
    match j
    case Arr(items) => pos[0] < |items| && ValidPosition(items[pos[0]], pos[1..])
    case Obj(ms) => pos[0] < |ms| && ValidPosition(ms[pos[0]].value, pos[1..])
    case _ => false
  }

  function At(j: Json, pos: Position): Json
    requires ValidPosition(j, pos)
    decreases pos
  {
    if pos == [] then j
    else match j
      case Arr(items) => At(items[pos[0]], pos[1..])
      case Obj(ms) => At(ms[pos[0]].value, pos[1..])
  }

  // ----- writing tokens -----

  function EncodeChar(c: char): string {
    if c == '/' then "~1" else if c == '~' then "~0" else [c]
  }

  /** What `encode_string_as_pointer` writes for a key. */
  function Encode(key: string): (s: string)
    ensures |s| >= |key|
  {
    if key == "" then "" else EncodeChar(key[0]) + Encode(key[1..])
  }

  /** `pointer_encoded_length`. */
  method EncodedLength(key: string) returns (length: nat)
    ensures length == |Encode(key)|
  {
    length := 0;
    for i := 0 to |key|
      invariant length + |Encode(key[i..])| == |Encode(key)|
    {
      assert key[i..][1..] == key[i + 1..];
      if key[i] == '~' || key[i] == '/' {
        length := length + 1;
      }
      length := length + 1;
    }
  }

  /** `encode_string_as_pointer`, writing into a buffer of the computed length and one byte for NUL. */
  method EncodeInto(destination: array<char>, offset: nat, source: string)
    requires offset + |Encode(source)| < destination.Length
    modifies destination
    ensures destination[..offset] == old(destination[..offset])
    ensures destination[offset..offset + |Encode(source)|] == Encode(source)
    ensures destination[offset + |Encode(source)|] == '\0'
  {
    var d := offset;
    for i := 0 to |source|
      invariant d == offset + |Encode(source[..i])| <= offset + |Encode(source)|
      invariant destination[..offset] == old(destination[..offset])
      invariant destination[offset..d] == Encode(source[..i])
    {
      EncodePrefix(source, i);
      d := PutEscaped(destination, offset, d, source[i]);
    }
    assert source[..|source|] == source;
    destination[d] := '\0';
  }

  /** One turn of the encoding loop. */
  method PutEscaped(destination: array<char>, ghost offset: nat, d: nat, c: char) returns (d': nat)
    requires offset <= d && d + |EncodeChar(c)| < destination.Length
    modifies destination
    ensures d' == d + |EncodeChar(c)|
    ensures destination[..offset] == old(destination[..offset])
    ensures destination[offset..d'] == old(destination[offset..d]) + EncodeChar(c)
  {
    if c == '/' {
      destination[d] := '~';
      destination[d + 1] := '1';
      d' := d + 2;
    } else if c == '~' {
      destination[d] := '~';
      destination[d + 1] := '0';
      d' := d + 2;
    } else {
      destination[d] := c;
      d' := d + 1;
    }
  }

  lemma Reassociate(a: string, b: string, c: string)
    ensures a + (b + c) == (a + b) + c
  {
  }

  lemma {:induction false} EncodeConcat(a: string, b: string)
    ensures Encode(a + b) == Encode(a) + Encode(b)
  {
    hide EncodeChar;
    if a == "" {
      assert a + b == b;
    } else {
      EncodeConcat(a[1..], b);
      assert (a + b)[0] == a[0] && (a + b)[1..] == a[1..] + b;
      Reassociate(EncodeChar(a[0]), Encode(a[1..]), Encode(b));
    }
  }

  lemma {:induction false} EncodeNoSlash(key: string)
    ensures forall i :: 0 <= i < |Encode(key)| ==> Encode(key)[i] != '/'
  {
    if key != "" {
      EncodeNoSlash(key[1..]);
    }
  }

  lemma EncodeOne(c: char)
    ensures Encode([c]) == EncodeChar(c)
  {
    assert [c][1..] == "";
    assert EncodeChar(c) + "" == EncodeChar(c);
  }

  lemma EncodeSplit(a: string, c: char, b: string)
    ensures Encode(a + [c]) == Encode(a) + EncodeChar(c)
    ensures Encode((a + [c]) + b) == Encode(a + [c]) + Encode(b)
  {
    EncodeOne(c);
    EncodeConcat(a, [c]);
    EncodeConcat(a + [c], b);
  }

  lemma SplitString(s: string, i: nat)
    requires i < |s|
    ensures s[..i + 1] == s[..i] + [s[i]]
    ensures s == (s[..i] + [s[i]]) + s[i + 1..]
  {
  }

  lemma EncodePrefix(s: string, i: nat)
    requires i < |s|
    ensures Encode(s[..i + 1]) == Encode(s[..i]) + EncodeChar(s[i])
    ensures Encode(s) == Encode(s[..i + 1]) + Encode(s[i + 1..])
  {
    SplitString(s, i);
    EncodeSplit(s[..i], s[i], s[i + 1..]);
  }

  /** The path of a node: one token per step, an escaped key or a decimal index. */
  function PathText(j: Json, pos: Position): string
    requires ValidPosition(j, pos)
    decreases pos
  {
    if pos == [] then ""
    else match j
      case Arr(items) => "/" + Dec(pos[0]) + PathText(items[pos[0]], pos[1..])
      case Obj(ms) => "/" + Encode(ms[pos[0]].key) + PathText(ms[pos[0]].value, pos[1..])
  }

  // ----- searching for a node -----

  /** `cJSONUtils_FindPointerFromObjectTo`; `here` is the position of `j`. */
  function FindPointer(j: Json, here: Position, target: Position): Option<string>
    decreases j
  {
    if here == target then Some("")
    else match j
      case Arr(items) => FindInItems(items, 0, here, target)
      case Obj(ms) => FindInMembers(ms, 0, here, target)
      case _ => None
  }

  function FindInItems(items: seq<Json>, i: nat, here: Position, target: Position): Option<string>
    requires i <= |items|
    decreases items, |items| - i
  {
    if i == |items| then None
    else match FindPointer(items[i], here + [i], target)
      case Some(p) => Some("/" + Dec(i) + p)
      case None => FindInItems(items, i + 1, here, target)
  }

  function FindInMembers(ms: seq<Member>, i: nat, here: Position, target: Position): Option<string>
    requires i <= |ms|
    decreases ms, |ms| - i
  {
    if i == |ms| then None
    else match FindPointer(ms[i].value, here + [i], target)
      case Some(p) => Some("/" + Encode(ms[i].key) + p)
      case None => FindInMembers(ms, i + 1, here, target)
  }

  /** The search as the code runs it. */
  method FindPointerLoop(j: Json, here: Position, target: Position) returns (r: Option<string>)
    ensures r == FindPointer(j, here, target)
    decreases j
  {
    if here == target {
      return Some("");
    }
    match j
    case Arr(items) =>
      var i := 0;
      while i < |items|
        invariant i <= |items|
        invariant FindInItems(items, 0, here, target) == FindInItems(items, i, here, target)
      {
        var p := FindPointerLoop(items[i], here + [i], target);
        if p.Some? {
          return Some("/" + Dec(i) + p.value);
        }
        i := i + 1;
      }
      return None;
    case Obj(ms) =>
      var i := 0;
      while i < |ms|
        invariant i <= |ms|
        invariant FindInMembers(ms, 0, here, target) == FindInMembers(ms, i, here, target)
      {
        var p := FindPointerLoop(ms[i].value, here + [i], target);
        if p.Some? {
          return Some("/" + Encode(ms[i].key) + p.value);
        }
        i := i + 1;
      }
      return None;
    case _ => return None;
  }

  /** The search finds nothing in a subtree that the target is not in. */
  lemma {:induction false} NotInSubtree(j: Json, here: Position, target: Position)
    requires !(here <= target)
    ensures FindPointer(j, here, target) == None
    decreases j
  {
    match j
    case Arr(items) => NotInItems(items, 0, here, target);
    case Obj(ms) => NotInMembers(ms, 0, here, target);
    case _ =>
  }

  lemma {:induction false} NotInItems(items: seq<Json>, i: nat, here: Position, target: Position)
    requires i <= |items| && forall k :: i <= k < |items| ==> !(here + [k] <= target)
    ensures FindInItems(items, i, here, target) == None
    decreases items, |items| - i
  {
    if i < |items| {
      NotInSubtree(items[i], here + [i], target);
      NotInItems(items, i + 1, here, target);
    }
  }

  lemma {:induction false} NotInMembers(ms: seq<Member>, i: nat, here: Position, target: Position)
    requires i <= |ms| && forall k :: i <= k < |ms| ==> !(here + [k] <= target)
    ensures FindInMembers(ms, i, here, target) == None
    decreases ms, |ms| - i
  {
    if i < |ms| {
      NotInSubtree(ms[i].value, here + [i], target);
      NotInMembers(ms, i + 1, here, target);
    }
  }

  /** The search finds every node of the tree, and what it returns is the path of that node. */
  lemma {:induction false} FindPointerFinds(j: Json, here: Position, pos: Position)
    requires ValidPosition(j, pos)
    ensures FindPointer(j, here, here + pos) == Some(PathText(j, pos))
    decreases j
  {
    if pos == [] {
      assert here + pos == here;
    } else {
      assert |here + pos| != |here|;
      assert here + pos == here + [pos[0]] + pos[1..];
      match j
      case Arr(items) =>
        FindPointerFinds(items[pos[0]], here + [pos[0]], pos[1..]);
        SkipItems(items, 0, here, pos);
      case Obj(ms) =>
        FindPointerFinds(ms[pos[0]].value, here + [pos[0]], pos[1..]);
        SkipMembers(ms, 0, here, pos);
    }
  }

  lemma {:induction false} SkipItems(items: seq<Json>, i: nat, here: Position, pos: Position)
    requires pos != [] && i <= pos[0] < |items|
    ensures FindInItems(items, i, here, here + pos) == FindInItems(items, pos[0], here, here + pos)
    decreases pos[0] - i
  {
    if i < pos[0] {
      assert (here + pos)[|here|] != (here + [i])[|here|];
      NotInSubtree(items[i], here + [i], here + pos);
      SkipItems(items, i + 1, here, pos);
    }
  }

  lemma {:induction false} SkipMembers(ms: seq<Member>, i: nat, here: Position, pos: Position)
    requires pos != [] && i <= pos[0] < |ms|
    ensures FindInMembers(ms, i, here, here + pos) == FindInMembers(ms, pos[0], here, here + pos)
    decreases pos[0] - i
  {
    if i < pos[0] {
      assert (here + pos)[|here|] != (here + [i])[|here|];
      NotInSubtree(ms[i].value, here + [i], here + pos);
      SkipMembers(ms, i + 1, here, pos);
    }
  }
}
