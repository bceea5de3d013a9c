/** Following a JSON Pointer, and the round trip with the paths that `Pointer` builds. */
module PointerLookup {
  import opened Wrappers
  import opened Keys
  import opened Json
  import opened Decimal
  import opened Pointer

  // ----- array indices -----

  /** `size_t` is 32 bits wide on this target. */
  const SIZE_MODULUS: nat := 0x1_0000_0000

  /** The digit loop. The upper bound is tested on the first byte, as in the code. */
  function ScanIndex(p: string, i: nat, acc: nat): (nat, nat)
    requires i <= |p|
    decreases |p| - i
  {
    if i < |p| && p[i] >= '0' && p[0] <= '9' then
      ScanIndex(p, i + 1, (10 * acc + ((p[i] as int) - 48)) % SIZE_MODULUS)
    else (i, acc)
  }

  /** `decode_array_index_from_pointer`. */
  function DecodeIndex(p: string): Option<nat> {
    if |p| >= 2 && p[0] == '0' && p[1] != '/' then None
    else
      var (i, acc) := ScanIndex(p, 0, 0);
      if i < |p| && p[i] != '/' then None else Some(acc)
  }

  method DecodeArrayIndex(p: string) returns (index: Option<nat>)
    ensures index == DecodeIndex(p)
  {
    if |p| >= 2 && p[0] == '0' && p[1] != '/' {
      return None;
    }
    var i, acc := 0, 0;
    while i < |p| && p[i] >= '0' && p[0] <= '9'
      invariant 0 <= i <= |p| && 0 <= acc
      invariant ScanIndex(p, 0, 0) == ScanIndex(p, i, acc)
    {
      acc := (10 * acc + ((p[i] as int) - 48)) % SIZE_MODULUS;
      i := i + 1;
    }
    if i < |p| && p[i] != '/' {
      return None;
    }
    return Some(acc);
  }

  /** The array indices of RFC 6901, section 4. */
  predicate IsIndex(t: string) {
    t == "0" || (t != "" && t[0] != '0' && AllDigits(t))
  }

  predicate AllDigits(t: string) {
    forall i :: 0 <= i < |t| ==> IsDigit(t[i])
  }

  predicate Terminates(rest: string) {
    rest == "" || rest[0] == '/'
  }

  predicate NoSlash(t: string) {
    forall i :: 0 <= i < |t| ==> t[i] != '/'
  }

  lemma {:induction false} ScanDigits(t: string, rest: string, i: nat, acc: nat)
    requires AllDigits(t) && Terminates(rest) && i <= |t|
    requires acc == Value(t[..i]) % SIZE_MODULUS
    ensures ScanIndex(t + rest, i, acc) == (|t|, Value(t) % SIZE_MODULUS)
    decreases |t| - i
  {
    if i == |t| {
      assert t[..i] == t;
    } else {
      var d := DigitValue(t[i]);
      assert (t + rest)[i] == t[i] && (t + rest)[0] == t[0];
      assert t[..i + 1][..i] == t[..i];
      var v := Value(t[..i]);
      assert Value(t[..i + 1]) == 10 * v + d;
      assert (10 * (v % SIZE_MODULUS) + d) % SIZE_MODULUS == (10 * v + d) % SIZE_MODULUS by {
        ModStep(v, d);
      }
      ScanDigits(t, rest, i + 1, (10 * acc + d) % SIZE_MODULUS);
    }
  }

  lemma ModStep(v: nat, d: nat)
    ensures (10 * (v % SIZE_MODULUS) + d) % SIZE_MODULUS == (10 * v + d) % SIZE_MODULUS
  {
    var q, m := v / SIZE_MODULUS, SIZE_MODULUS;
    assert 10 * v + d == (10 * (v % m) + d) + (10 * q) * m;
  }

  lemma {:induction false} ScanStopsAt(t: string, i: nat, acc: nat)
    requires i <= |t|
    ensures var (j, _) := ScanIndex(t, i, acc);
            i <= j <= |t| && (j < |t| ==> t[j] < '0' || t[0] > '9') &&
            (forall k :: i <= k < j ==> t[k] >= '0' && t[0] <= '9')
    decreases |t| - i
  {
    if i < |t| && t[i] >= '0' && t[0] <= '9' {
      ScanStopsAt(t, i + 1, (10 * acc + ((t[i] as int) - 48)) % SIZE_MODULUS);
    }
  }

  /** A token that the decoder accepts although RFC 6901 does not. */
  predicate WronglyAccepted(t: string) {
    t == "" ||
    ('1' <= t[0] <= '9' && (forall i :: 0 <= i < |t| ==> t[i] >= '0') && !AllDigits(t))
  }

  /** The decoder agrees with RFC 6901 exactly on the tokens that are none of those and that `size_t` can hold. */
  lemma DecodeIndexExact(t: string)
    requires NoSlash(t)
    ensures DecodeIndex(t) == (if IsIndex(t) then Some(Value(t)) else None) <==>
            !WronglyAccepted(t) && (IsIndex(t) ==> Value(t) < SIZE_MODULUS)
  {
    DecodesModulo(t);
    if IsIndex(t) {
      assert Value(t) < SIZE_MODULUS <==> Value(t) % SIZE_MODULUS == Value(t);
    }
  }

  /** Apart from those, the decoder gives the index modulo the range of `size_t`. */
  lemma DecodesModulo(t: string)
    requires NoSlash(t)
    ensures WronglyAccepted(t) <==> DecodeIndex(t) != if IsIndex(t) then Some(Value(t) % SIZE_MODULUS) else None
    ensures WronglyAccepted(t) ==> !IsIndex(t) && DecodeIndex(t).Some?
  {
    if t == "" {
    } else {
      ScanStopsAt(t, 0, 0);
      if AllDigits(t) {
        ScanDigits(t, "", 0, 0);
        assert t + "" == t;
      }
    }
  }

  /** `1a` is taken for index 59. */
  lemma LetterInIndex()
    ensures DecodeIndex("1a") == Some(59) && !IsIndex("1a")
  {
  }

  /** An index beyond the range of `size_t` wraps around, and so leads to another element. */
  lemma IndexWraps(n: nat)
    requires n >= SIZE_MODULUS
    ensures IsIndex(Dec(n)) && !WronglyAccepted(Dec(n))
    ensures DecodeIndex(Dec(n)) == Some(n % SIZE_MODULUS) && n % SIZE_MODULUS != n
  {
    hide Dec;
    var t := Dec(n);
    ValueDec(n);
    assert AllDigits(t) && t[0] != '0';
    ScanDigits(t, "", 0, 0);
    assert t + "" == t;
  }

  // ----- comparing a token with a key -----

  /** `compare_pointers`. */
  predicate ComparePointers(name: string, p: string, cs: bool)
    decreases |p|
  {
    if name == "" || p == "" || p[0] == '/' then
      (name == "") == (p == "" || p[0] == '/')
    else if p[0] == '~' then
      |p| >= 2 && ((p[1] == '0' && name[0] == '~') || (p[1] == '1' && name[0] == '/')) &&
      ComparePointers(name[1..], p[2..], cs)
    else
      (if cs then name[0] == p[0] else ToLower(name[0]) == ToLower(p[0])) &&
      ComparePointers(name[1..], p[1..], cs)
  }

  method ComparePointersLoop(name: string, p: string, cs: bool) returns (r: bool)
    ensures r == ComparePointers(name, p, cs)
  {
    var n, i := 0, 0;
    while n < |name| && i < |p| && p[i] != '/'
      invariant 0 <= n <= |name| && 0 <= i <= |p|
      invariant ComparePointers(name, p, cs) == ComparePointers(name[n..], p[i..], cs)
      decreases |p| - i
    {
      assert name[n..][1..] == name[n + 1..] && p[i..][1..] == p[i + 1..];
      if p[i] == '~' {
        if (i + 1 >= |p| || p[i + 1] != '0' || name[n] != '~') && (i + 1 >= |p| || p[i + 1] != '1' || name[n] != '/') {
          return false;
        }
        assert p[i..][2..] == p[i + 2..];
        i := i + 1;
      } else if (!cs && ToLower(name[n]) != ToLower(p[i])) || (cs && name[n] != p[i]) {
        return false;
      }
      n, i := n + 1, i + 1;
    }
    if (i < |p| && p[i] != '/') != (n < |name|) {
      return false;
    }
    return true;
  }

  lemma NormParts(a: string, b: string, cs: bool)
    requires a != "" && b != ""
    ensures Norm(a, cs) == Norm(b, cs) <==>
            Norm(a[..1], cs) == Norm(b[..1], cs) && Norm(a[1..], cs) == Norm(b[1..], cs)
    ensures Norm(a[..1], cs) == Norm(b[..1], cs) <==>
            (if cs then a[0] == b[0] else ToLower(a[0]) == ToLower(b[0]))
  {
    assert a == a[..1] + a[1..] && b == b[..1] + b[1..];
    assert |Lower(a)| == |a| && Lower(a)[0] == ToLower(a[0]) && Lower(a)[1..] == Lower(a[1..]);
    assert |Lower(b)| == |b| && Lower(b)[0] == ToLower(b[0]) && Lower(b)[1..] == Lower(b[1..]);
    assert Lower(a[..1])[0] == ToLower(a[0]) && Lower(b[..1])[0] == ToLower(b[0]);
    assert Lower(a) == Lower(a[..1]) + Lower(a[1..]) && Lower(b) == Lower(b[..1]) + Lower(b[1..]);
    assert a[..1][0] == a[0] && b[..1][0] == b[0];
    if Norm(a[..1], cs) == Norm(b[..1], cs) {
      assert Norm(a[..1], cs)[0] == Norm(b[..1], cs)[0];
    }
  }

  /** A token matches a key exactly when it is the encoding of a spelling of that key. */
  lemma {:induction false} TokenMatches(name: string, key: string, rest: string, cs: bool)
    requires Terminates(rest)
    ensures ComparePointers(name, Encode(key) + rest, cs) <==> Norm(name, cs) == Norm(key, cs)
    decreases |key|
  {
    var p := Encode(key) + rest;
    if key == "" {
      assert p == rest;
    } else {
      var c := EncodeChar(key[0]);
      assert p == c + (Encode(key[1..]) + rest);
      assert p[|c|..] == Encode(key[1..]) + rest;
      if name != "" {
        NormParts(name, key, cs);
        TokenMatches(name[1..], key[1..], rest, cs);
      }
    }
  }

  // ----- walking a path -----

  function FindMember(ms: seq<Member>, p: string, cs: bool): (i: nat)
    ensures i <= |ms|
  {
    if ms == [] || ComparePointers(ms[0].key, p, cs) then 0 else 1 + FindMember(ms[1..], p, cs)
  }

  function SkipToken(p: string): (r: string)
    ensures |r| <= |p| && Terminates(r)
  {
    if p == "" || p[0] == '/' then p else SkipToken(p[1..])
  }

  /** `get_item_from_pointer`: the position of the node that the pointer leads to. */
  function Resolve(j: Json, p: string, cs: bool): (r: Option<Position>)
    ensures r.Some? ==> ValidPosition(j, r.value)
    decreases |p|
  {
    if p == "" || p[0] != '/' then Some([])
    else
      var t := p[1..];
      match j
      case Arr(items) =>
        (match DecodeIndex(t)
         case None => None
         case Some(i) => if i < |items| then Under(i, Resolve(items[i], SkipToken(t), cs)) else None)
      case Obj(ms) =>
        var i := FindMember(ms, t, cs);
        if i < |ms| then Under(i, Resolve(ms[i].value, SkipToken(t), cs)) else None
      case _ => None
  }

  /** A pointer leads to the root of every document exactly when it does not start with a slash. */
  lemma NoLeadingSlash(p: string, cs: bool)
    ensures (forall j :: Resolve(j, p, cs) == Some([])) <==> p == "" || p[0] != '/'
  {
    assert p != "" && p[0] == '/' ==> Resolve(Null, p, cs) == None;
  }

  function Under(i: nat, r: Option<Position>): Option<Position> {
    match r
    case None => None
    case Some(pos) => Some([i] + pos)
  }

  /** The walk as the code runs it, with the current element in a variable. */
  method GetItemFromPointer(root: Json, pointer: string, cs: bool) returns (r: Option<Position>)
    ensures r == Resolve(root, pointer, cs)
  {
    var current, p, pos := root, pointer, [];
    BeneathNothing(Resolve(root, pointer, cs));
    while p != "" && p[0] == '/'
      invariant Resolve(root, pointer, cs) == Beneath(pos, Resolve(current, p, cs))
      decreases |p|
    {
      ghost var whole := Resolve(current, p, cs);
      p := p[1..];
      var i: nat;
      match current {
        case Arr(items) =>
          var index := DecodeArrayIndex(p);
          if index.None? || index.value >= |items| {
            return None;
          }
          i := index.value;
          current := items[i];
        case Obj(ms) =>
          i := 0;
          while i < |ms|
            invariant i <= |ms| && FindMember(ms, p, cs) == i + FindMember(ms[i..], p, cs)
          {
            assert ms[i..][0] == ms[i] && ms[i..][1..] == ms[i + 1..];
            var same := ComparePointersLoop(ms[i].key, p, cs);
            if same {
              break;
            }
            i := i + 1;
          }
          if i == |ms| {
            return None;
          }
          current := ms[i].value;
        case _ => return None;
      }
      assert whole == Under(i, Resolve(current, SkipToken(p), cs));
      BeneathStep(pos, i, Resolve(current, SkipToken(p), cs));
      pos := pos + [i];
      p := SkipTokenLoop(p);
    }
    assert pos + [] == pos;
    return Some(pos);
  }

  method SkipTokenLoop(p: string) returns (r: string)
    ensures r == SkipToken(p)
  {
    r := p;
    while r != "" && r[0] != '/'
      invariant SkipToken(p) == SkipToken(r)
      decreases |r|
    {
      r := r[1..];
    }
  }

  function Beneath(pos: Position, r: Option<Position>): Option<Position> {
    match r
    case None => None
    case Some(q) => Some(pos + q)
  }

  lemma BeneathNothing(r: Option<Position>)
    ensures Beneath([], r) == r
  {
    if r.Some? {
      assert [] + r.value == r.value;
    }
  }

  lemma BeneathStep(pos: Position, i: nat, r: Option<Position>)
    ensures Beneath(pos, Under(i, r)) == Beneath(pos + [i], r)
  {
    if r.Some? {
      assert pos + ([i] + r.value) == pos + [i] + r.value;
    }
  }

  // ----- the round trip -----

  /** Arrays fit the memory of the target. */
  predicate SmallArrays(j: Json)
    decreases j
  {
    match j
    case Arr(items) => |items| <= SIZE_MODULUS && forall i :: 0 <= i < |items| ==> SmallArrays(items[i])
    case Obj(ms) => forall i :: 0 <= i < |ms| ==> SmallArrays(ms[i].value)
    case _ => true
  }

  lemma {:induction false} SkipsToken(t: string, rest: string)
    requires NoSlash(t) && Terminates(rest)
    ensures SkipToken(t + rest) == rest
  {
    if t == "" {
      assert t + rest == rest;
    } else {
      assert (t + rest)[1..] == t[1..] + rest;
      SkipsToken(t[1..], rest);
    }
  }

  lemma {:induction false} FindsMember(ms: seq<Member>, key: string, rest: string, cs: bool)
    requires Terminates(rest)
    ensures FindMember(ms, Encode(key) + rest, cs) == IndexOf(ms, key, cs)
  {
    if ms != [] {
      TokenMatches(ms[0].key, key, rest, cs);
      FindsMember(ms[1..], key, rest, cs);
    }
  }

  lemma DecodesIndex(i: nat, rest: string)
    requires Terminates(rest) && i < SIZE_MODULUS
    ensures DecodeIndex(Dec(i) + rest) == Some(i)
  {
    ValueDec(i);
    DecodesDigits(Dec(i), rest);
  }

  lemma DecodesDigits(t: string, rest: string)
    requires Terminates(rest) && t != "" && AllDigits(t) && (t[0] == '0' ==> |t| == 1)
    ensures DecodeIndex(t + rest) == Some(Value(t) % SIZE_MODULUS)
  {
    ScanDigits(t, rest, 0, 0);
    var p := t + rest;
    assert p[0] == t[0];
    assert |t| < |p| ==> p[|t|] == rest[0];
    assert |t| >= 2 ==> p[1] == t[1];
  }

  /** One step of a path leads to one child. */
  lemma ResolveItem(items: seq<Json>, i: nat, rest: string, cs: bool)
    requires i < |items| && i < SIZE_MODULUS && Terminates(rest)
    ensures Resolve(Arr(items), "/" + Dec(i) + rest, cs) == Under(i, Resolve(items[i], rest, cs))
  {
    var p := "/" + Dec(i) + rest;
    assert p[1..] == Dec(i) + rest;
    DecodesIndex(i, rest);
    SkipsToken(Dec(i), rest);
  }

  lemma ResolveMember(ms: seq<Member>, key: string, rest: string, cs: bool)
    requires Terminates(rest)
    ensures var i := IndexOf(ms, key, cs);
            Resolve(Obj(ms), "/" + Encode(key) + rest, cs) ==
            if i < |ms| then Under(i, Resolve(ms[i].value, rest, cs)) else None
  {
    var p := "/" + Encode(key) + rest;
    assert p[1..] == Encode(key) + rest;
    FindsMember(ms, key, rest, cs);
    EncodeNoSlash(key);
    SkipsToken(Encode(key), rest);
  }

  /** With unique keys, the path of a node leads back to that very node. */
  lemma {:induction false} PathResolves(j: Json, pos: Position, cs: bool)
    requires UniqueKeys(j, cs) && SmallArrays(j) && ValidPosition(j, pos)
    ensures Resolve(j, PathText(j, pos), cs) == Some(pos)
    ensures Terminates(PathText(j, pos))
    decreases pos
  {
    if pos == [] {
    } else {
      assert [pos[0]] + pos[1..] == pos;
      match j
      case Arr(items) =>
        PathResolves(items[pos[0]], pos[1..], cs);
        ResolveItem(items, pos[0], PathText(items[pos[0]], pos[1..]), cs);
      case Obj(ms) =>
        PathResolves(ms[pos[0]].value, pos[1..], cs);
        IndexOfDistinct(ms, pos[0], cs);
        ResolveMember(ms, ms[pos[0]].key, PathText(ms[pos[0]].value, pos[1..]), cs);
    }
  }

  /** Search and lookup undo each other: for every node of the tree the search finds a path, and the path finds the node. */
  lemma PointerRoundTrip(root: Json, target: Position, cs: bool)
    requires UniqueKeys(root, cs) && SmallArrays(root) && ValidPosition(root, target)
    ensures FindPointer(root, [], target).Some?
    ensures Resolve(root, FindPointer(root, [], target).value, cs) == Some(target)
  {
    FindPointerFinds(root, [], target);
    assert [] + target == target;
    PathResolves(root, target, cs);
  }
}
