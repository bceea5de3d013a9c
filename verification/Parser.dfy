/** The recursive-descent parser of cJSON.c, as functions of the text and the offset. */
module Parser {
  import opened Json
  import opened Decimal
  import opened StringLiteral

  /** `CJSON_NESTING_LIMIT`. */
  const NESTING_LIMIT: nat := 1000

  /**
   A value and the offset behind it, or the offset of the error. `Foreign` is the outcome for
   a numeral that is not an integer of the `int` range: what `strtod` makes of it is not modelled.
   */
  datatype Parse = Ok(value: Json, next: nat) | Err(at: nat) | Foreign(at: nat)

  datatype Items = ItemsOk(items: seq<Json>, next: nat) | ItemsErr(at: nat) | ItemsForeign(at: nat)

  datatype Members = MembersOk(members: seq<Member>, next: nat) | MembersErr(at: nat) | MembersForeign(at: nat)

  datatype One = OneOk(member: Member, next: nat) | OneErr(at: nat) | OneForeign(at: nat)

  // ----- white space -----

  function SpaceEnd(s: string, i: nat): (r: nat)
    requires i <= |s|
    ensures i <= r <= |s| && (r < |s| ==> s[r] > ' ') && forall k :: i <= k < r ==> s[k] <= ' '
    decreases |s| - i
  {
    if i < |s| && s[i] <= ' ' then SpaceEnd(s, i + 1) else i
  }

  /** `buffer_skip_whitespace`: at the end of the text it steps back onto the last byte. */
  function SkipSpace(s: string, i: nat): (r: nat)
    requires i <= |s|
    ensures i <= r <= |s| && (i < |s| ==> r < |s|)
  {
    if i >= |s| then i
    else
      var r := SpaceEnd(s, i);
      if r == |s| then r - 1 else r
  }

  // ----- numbers -----

  predicate IsNumeral(c: char) {
    IsDigit(c) || c == '+' || c == '-' || c == 'e' || c == 'E' || c == '.'
  }

  /** The run of numeral bytes that is copied for `strtod`, at most 63 of them. */
  function NumeralEnd(s: string, i: nat, room: nat): (r: nat)
    requires i <= |s|
    ensures i <= r <= |s| && r <= i + room && forall k :: i <= k < r ==> IsNumeral(s[k])
    decreases |s| - i
  {
    if i < |s| && room > 0 && IsNumeral(s[i]) then NumeralEnd(s, i + 1, room - 1) else i
  }

  function DigitsEnd(s: string, i: nat, end: nat): (r: nat)
    requires i <= end <= |s|
    ensures i <= r <= end && (forall k :: i <= k < r ==> IsDigit(s[k])) && (r < end ==> !IsDigit(s[r]))
    decreases end - i
  {
    if i < end && IsDigit(s[i]) then DigitsEnd(s, i + 1, end) else i
  }

  /** `parse_number`, with `strtod` on integer numerals. */
  function ParseNumber(s: string, i: nat): (r: Parse)
    requires i <= |s|
    ensures r.Ok? ==> i < r.next <= |s|
  {
    var end := NumeralEnd(s, i, 63);
    var start := if i < end && s[i] == '-' then i + 1 else i;
    var stop := DigitsEnd(s, start, end);
    if stop == start then (if stop < end && s[stop] == '.' then Foreign(i) else Err(i))
    else if stop < end && (s[stop] == '.' || s[stop] == 'e' || s[stop] == 'E') then Foreign(i)
    else
      var v: int := Value(s[start..stop]);
      var n := if start == i then v else -v;
      if INT_MIN <= n <= INT_MAX then Ok(Num(n), stop) else Foreign(i)
  }

  // ----- values -----

  predicate TextAt(s: string, i: nat, t: string) {
    i + |t| <= |s| && s[i..i + |t|] == t
  }

  /** `parse_value`. */
  function ParseValue(s: string, i: nat, depth: nat): (r: Parse)
    requires i <= |s|
    ensures r.Ok? ==> i < r.next <= |s|
    decreases |s| - i, 1
  {
    if TextAt(s, i, "null") then Ok(Null, i + 4)
    else if TextAt(s, i, "false") then Ok(Bool(false), i + 5)
    else if TextAt(s, i, "true") then Ok(Bool(true), i + 4)
    else if i < |s| && s[i] == '\"' then
      (match ParseString(s, i)
       case Parsed(t, n) => Ok(Str(t), n)
       case Failed(at) => Err(at))
    else if i < |s| && (s[i] == '-' || IsDigit(s[i])) then ParseNumber(s, i)
    else if i < |s| && s[i] == '[' then ParseArray(s, i, depth)
    else if i < |s| && s[i] == '{' then ParseObject(s, i, depth)
    else Err(i)
  }

  /** `parse_array`. */
  function ParseArray(s: string, i: nat, depth: nat): (r: Parse)
    requires i < |s| && s[i] == '['
    ensures r.Ok? ==> i < r.next <= |s|
    decreases |s| - i, 0
  {
    if depth >= NESTING_LIMIT then Err(i)
    else
      var first := SkipSpace(s, i + 1);
      if first < |s| && s[first] == ']' then Ok(Arr([]), first + 1)
      else if first >= |s| then Err(first - 1)
      else match ParseItems(s, first, depth + 1)
        case ItemsOk(items, n) => Ok(Arr(items), n)
        case ItemsErr(at) => Err(at)
        case ItemsForeign(at) => Foreign(at)
  }

  /** The loop over the elements, from the byte behind the bracket or comma. */
  function ParseItems(s: string, i: nat, depth: nat): (r: Items)
    requires i <= |s|
    ensures r.ItemsOk? ==> i < r.next <= |s|
    decreases |s| - i, 2
  {
    match ParseValue(s, SkipSpace(s, i), depth)
    case Err(at) => ItemsErr(at)
    case Foreign(at) => ItemsForeign(at)
    case Ok(v, n) =>
      var m := SkipSpace(s, n);
      if m < |s| && s[m] == ',' then
        match ParseItems(s, m + 1, depth)
        case ItemsOk(rest, next) => ItemsOk([v] + rest, next)
        case e => e
      else if m < |s| && s[m] == ']' then ItemsOk([v], m + 1)
      else ItemsErr(m)
  }

  /** `parse_object`. */
  function ParseObject(s: string, i: nat, depth: nat): (r: Parse)
    requires i < |s| && s[i] == '{'
    ensures r.Ok? ==> i < r.next <= |s|
    decreases |s| - i, 0
  {
    if depth >= NESTING_LIMIT then Err(i)
    else
      var first := SkipSpace(s, i + 1);
      if first < |s| && s[first] == '}' then Ok(Obj([]), first + 1)
      else if first >= |s| then Err(first - 1)
      else match ParseMembers(s, first, depth + 1)
        case MembersOk(ms, n) => Ok(Obj(ms), n)
        case MembersErr(at) => Err(at)
        case MembersForeign(at) => Foreign(at)
  }

  /** A key and its colon: the key, and the offset behind the colon. */
  function ParseKey(s: string, i: nat): (r: Literal)
    requires i <= |s|
    ensures r.Parsed? ==> i < r.next <= |s|
  {
    var j := SkipSpace(s, i);
    if j >= |s| then Failed(j)
    else match ParseString(s, j)
      case Failed(at) => Failed(at)
      case Parsed(key, n) =>
        var colon := SkipSpace(s, n);
        if colon >= |s| || s[colon] != ':' then Failed(colon) else Parsed(key, colon + 1)
  }

  /** A member: key, colon and value. */
  function ParseMember(s: string, i: nat, depth: nat): (r: One)
    requires i <= |s|
    ensures r.OneOk? ==> i < r.next <= |s|
    decreases |s| - i, 2
  {
    match ParseKey(s, i)
    case Failed(at) => OneErr(at)
    case Parsed(key, k) =>
      match ParseValue(s, SkipSpace(s, k), depth)
      case Err(at) => OneErr(at)
      case Foreign(at) => OneForeign(at)
      case Ok(v, n) => OneOk(Member(key, v), n)
  }

  /** The loop over the members. */
  function ParseMembers(s: string, i: nat, depth: nat): (r: Members)
    requires i <= |s|
    ensures r.MembersOk? ==> i < r.next <= |s|
    decreases |s| - i, 3
  {
    match ParseMember(s, i, depth)
    case OneErr(at) => MembersErr(at)
    case OneForeign(at) => MembersForeign(at)
    case OneOk(v, n) =>
      var m := SkipSpace(s, n);
      if m < |s| && s[m] == ',' then
        match ParseMembers(s, m + 1, depth)
        case MembersOk(rest, next) => MembersOk([v] + rest, next)
        case e => e
      else if m < |s| && s[m] == '}' then MembersOk([v], m + 1)
      else MembersErr(m)
  }

  // ----- entry points -----

  /** `skip_utf8_bom`. */
  function SkipBom(s: string): (i: nat)
    ensures i <= |s|
  {
    if |s| > 4 && s[0] as int == 0xEF && s[1] as int == 0xBB && s[2] as int == 0xBF then 3 else 0
  }

  /** `cJSON_ParseWithLengthOpts`: the tree and the end of the parse, or the position of the error. */
  function ParseWithLength(s: string, requireNul: bool): Parse {
    if s == "" then Err(0)
    else match ParseValue(s, SkipSpace(s, SkipBom(s)), 0)
      case Ok(v, n) =>
        if requireNul then
          var end := SkipSpace(s, n);
          if end >= |s| || s[end] != '\0' then Err(if end < |s| then end else |s| - 1) else Ok(v, end)
        else Ok(v, n)
      case Err(at) => Err(if at < |s| then at else |s| - 1)
      case Foreign(at) => Foreign(at)
  }

  /** `cJSON_ParseWithOpts`: the C string with its NUL. */
  function ParseCString(value: string, requireNul: bool): Parse {
    ParseWithLength(value + "\0", requireNul)
  }
}
