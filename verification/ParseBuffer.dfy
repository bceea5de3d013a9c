/** The parser on its buffer, moving `offset` and `depth` in place, proved to follow `Parser`. */
module ParseBuffer {
  import opened Json
  import opened Decimal
  import opened StringLiteral
  import opened Parser

  class Buffer {
    const content: string
    var offset: nat
    var depth: nat

    constructor (content: string)
      ensures this.content == content && offset == 0 && depth == 0
    {
      this.content := content;
      offset, depth := 0, 0;
    }

    ghost predicate Valid()
      reads this
    {
      offset <= |content| && depth <= NESTING_LIMIT
    }

    /** The call did what the specification says: value, offset and depth. */
    ghost predicate Follows(r: Parse, spec: Parse, before: nat)
      reads this
    {
      && r == spec
      && (r.Ok? ==> Valid() && offset == r.next && depth == before)
      && (r.Err? ==> offset == r.at)
    }

    method SkipWhitespace()
      requires Valid()
      modifies this`offset
      ensures Valid() && offset == SkipSpace(content, old(offset))
    {
      if offset >= |content| {
        return;
      }
      while offset < |content| && content[offset] <= ' '
        invariant offset <= |content|
        invariant SpaceEnd(content, old(offset)) == SpaceEnd(content, offset)
        decreases |content| - offset
      {
        offset := offset + 1;
      }
      if offset == |content| {
        offset := offset - 1;
      }
    }

    predicate CanReadWord(word: string)
      reads this
    {
      TextAt(content, offset, word)
    }

    /** The loop that copies the numeral, at most 63 bytes of it. */
    method CopyNumeral() returns (end: nat)
      requires Valid()
      ensures end == NumeralEnd(content, offset, 63)
    {
      var i := 0;
      while i < 63 && offset + i < |content| && IsNumeral(content[offset + i])
        invariant 0 <= i <= 63 && offset + i <= |content|
        invariant NumeralEnd(content, offset, 63) == NumeralEnd(content, offset + i, 63 - i)
      {
        i := i + 1;
      }
      end := offset + i;
    }

    /** How far `strtod` reads digits. */
    method ReadDigits(start: nat, end: nat) returns (stop: nat)
      requires start <= end <= |content|
      ensures stop == DigitsEnd(content, start, end)
    {
      stop := start;
      while stop < end && IsDigit(content[stop])
        invariant start <= stop <= end
        invariant DigitsEnd(content, start, end) == DigitsEnd(content, stop, end)
      {
        stop := stop + 1;
      }
    }

    method Number() returns (r: Parse)
      requires Valid()
      modifies this`offset
      ensures Follows(r, ParseNumber(content, old(offset)), depth)
    {
      hide Decimal.Value, NumeralEnd, DigitsEnd;
      var end := CopyNumeral();
      var start := if offset < end && content[offset] == '-' then offset + 1 else offset;
      var stop := ReadDigits(start, end);
      if stop == start {
        return if stop < end && content[stop] == '.' then Foreign(offset) else Err(offset);
      }
      if stop < end && (content[stop] == '.' || content[stop] == 'e' || content[stop] == 'E') {
        return Foreign(offset);
      }
      DigitsBetween(content, start, end);
      var v: int := Decimal.Value(content[start..stop]);
      var n := if start == offset then v else -v;
      if INT_MIN <= n <= INT_MAX {
        offset := stop;
        return Ok(Num(n), stop);
      }
      return Foreign(offset);
    }

    /** `parse_value`. */
    method Value() returns (r: Parse)
      requires Valid()
      modifies this
      ensures Follows(r, ParseValue(content, old(offset), old(depth)), old(depth))
      decreases |content| - offset, 1
    {
      if CanReadWord("null") {
        offset := offset + 4;
        return Ok(Null, offset);
      }
      if CanReadWord("false") {
        offset := offset + 5;
        return Ok(Bool(false), offset);
      }
      if CanReadWord("true") {
        offset := offset + 4;
        return Ok(Bool(true), offset);
      }
      if offset < |content| && content[offset] == '\"' {
        var literal := ParseStringLoop(content, offset);
        match literal {
          case Parsed(t, n) =>
            offset := n;
            return Ok(Str(t), n);
          case Failed(at) =>
            offset := at;
            return Err(at);
        }
      }
      if offset < |content| && (content[offset] == '-' || IsDigit(content[offset])) {
        r := Number();
        return;
      }
      if offset < |content| && content[offset] == '[' {
        r := Array();
        return;
      }
      if offset < |content| && content[offset] == '{' {
        r := Object();
        return;
      }
      return Err(offset);
    }

    /** `parse_array`: the step back in front of the first element is undone by the loop. */
    method Array() returns (r: Parse)
      requires Valid() && offset < |content| && content[offset] == '['
      modifies this
      ensures Follows(r, ParseArray(content, old(offset), old(depth)), old(depth))
      decreases |content| - offset, 0
    {
      hide ParseItems, ParseMembers, SkipSpace;
      if depth >= NESTING_LIMIT {
        return Err(offset);
      }
      depth := depth + 1;
      offset := offset + 1;
      SkipWhitespace();
      if offset < |content| && content[offset] == ']' {
        depth := depth - 1;
        offset := offset + 1;
        return Ok(Arr([]), offset);
      }
      if offset >= |content| {
        offset := offset - 1;
        return Err(offset);
      }
      offset := offset - 1;
      r := ItemsLoop();
      if r.Ok? {
        depth := depth - 1;
        offset := offset + 1;
        r := Ok(r.value, offset);
      }
    }

    /** The elements up to the closing bracket, on which the offset is left. */
    method ItemsLoop() returns (r: Parse)
      requires offset + 1 <= |content| && depth <= NESTING_LIMIT
      modifies this
      ensures match ParseItems(content, old(offset) + 1, old(depth))
              case ItemsOk(items, n) =>
                r == Ok(Arr(items), n) && depth == old(depth) && offset == n - 1
              case ItemsErr(at) => r == Err(at) && offset == at
              case ItemsForeign(at) => r == Foreign(at)
      decreases |content| - offset - 1, 4
    {
      hide ParseItems, ParseValue, SkipSpace;
      ghost var depthBefore := depth;
      var items: seq<Json> := [];
      var more := true;
      ghost var whole := ParseItems(content, offset + 1, depth);
      assert whole == Behind([], whole) by { BehindNothing(whole); }
      while more
        invariant depth == old(depth) && offset >= old(offset)
        invariant more ==> offset + 1 <= |content| && whole == Behind(items, ParseItems(content, offset + 1, depth))
        invariant !more ==> offset <= |content| && whole == AtEnd(items, content, offset)
        decreases more, |content| - offset
      {
        ghost var at := offset + 1;
        r := Element();
        if !r.Ok? {
          ItemsStop(content, at, depthBefore);
          return;
        }
        more := offset < |content| && content[offset] == ',';
        BehindStep(items, r.value, content, at, offset, depth);
        items := items + [r.value];
      }
      if offset >= |content| || content[offset] != ']' {
        return Err(offset);
      }
      return Ok(Arr(items), offset + 1);
    }

    /** One element and the white space around it. */
    method Element() returns (r: Parse)
      requires offset + 1 <= |content| && depth <= NESTING_LIMIT
      modifies this
      ensures r == ParseValue(content, SkipSpace(content, old(offset) + 1), old(depth))
      ensures r.Ok? ==> depth == old(depth) && offset == SkipSpace(content, r.next) && offset > old(offset)
      ensures r.Err? ==> offset == r.at
      decreases |content| - offset - 1, 3
    {
      offset := offset + 1;
      SkipWhitespace();
      r := Value();
      if r.Ok? {
        SkipWhitespace();
      }
    }

    /** `parse_object`: the step back in front of the first element is undone by the loop. */
    method Object() returns (r: Parse)
      requires Valid() && offset < |content| && content[offset] == '{'
      modifies this
      ensures Follows(r, ParseObject(content, old(offset), old(depth)), old(depth))
      decreases |content| - offset, 0
    {
      hide ParseItems, ParseMembers, SkipSpace;
      if depth >= NESTING_LIMIT {
        return Err(offset);
      }
      depth := depth + 1;
      offset := offset + 1;
      SkipWhitespace();
      if offset < |content| && content[offset] == '}' {
        depth := depth - 1;
        offset := offset + 1;
        return Ok(Obj([]), offset);
      }
      if offset >= |content| {
        offset := offset - 1;
        return Err(offset);
      }
      offset := offset - 1;
      r := MembersLoop();
      if r.Ok? {
        depth := depth - 1;
        offset := offset + 1;
        r := Ok(r.value, offset);
      }
    }

    /** The members up to the closing brace, on which the offset is left. */
    method MembersLoop() returns (r: Parse)
      requires offset + 1 <= |content| && depth <= NESTING_LIMIT
      modifies this
      ensures match ParseMembers(content, old(offset) + 1, old(depth))
              case MembersOk(ms, n) =>
                r == Ok(Obj(ms), n) && depth == old(depth) && offset == n - 1
              case MembersErr(at) => r == Err(at) && offset == at
              case MembersForeign(at) => r == Foreign(at)
      decreases |content| - offset - 1, 4
    {
      hide ParseMembers, ParseMember, SkipSpace;
      ghost var depthBefore := depth;
      var ms: seq<Member> := [];
      var more := true;
      ghost var whole := ParseMembers(content, offset + 1, depth);
      assert whole == BehindMembers([], whole) by { BehindNoMembers(whole); }
      while more
        invariant depth == old(depth) && offset >= old(offset)
        invariant more ==> offset + 1 <= |content| && whole == BehindMembers(ms, ParseMembers(content, offset + 1, depth))
        invariant !more ==> offset <= |content| && whole == AtMembersEnd(ms, content, offset)
        decreases more, |content| - offset
      {
        ghost var at := offset + 1;
        var one := Pair();
        match one {
          case OneErr(p) =>
            MembersStop(content, at, depthBefore);
            return Err(p);
          case OneForeign(p) =>
            MembersStop(content, at, depthBefore);
            return Foreign(p);
          case OneOk(m, n) =>
            more := offset < |content| && content[offset] == ',';
            BehindMembersStep(ms, content, at, offset, depth);
            ms := ms + [m];
        }
      }
      if offset >= |content| || content[offset] != '}' {
        return Err(offset);
      }
      return Ok(Obj(ms), offset + 1);
    }

    /** One member and the white space around it. */
    method Pair() returns (r: One)
      requires offset + 1 <= |content| && depth <= NESTING_LIMIT
      modifies this
      ensures r == ParseMember(content, old(offset) + 1, old(depth))
      ensures r.OneOk? ==> depth == old(depth) && offset == SkipSpace(content, r.next) && offset > old(offset)
      ensures r.OneErr? ==> offset == r.at
      decreases |content| - offset - 1, 3
    {
      offset := offset + 1;
      var key := Key();
      if key.Failed? {
        return OneErr(key.at);
      }
      SkipWhitespace();
      var v := Value();
      match v
      case Err(at) => return OneErr(at);
      case Foreign(at) => return OneForeign(at);
      case Ok(value, n) =>
        SkipWhitespace();
        return OneOk(Member(key.s, value), n);
    }

    /** The name of a member and the colon behind it. */
    method Key() returns (r: Literal)
      requires Valid()
      modifies this`offset
      ensures r == ParseKey(content, old(offset))
      ensures offset == if r.Parsed? then r.next else r.at
    {
      SkipWhitespace();
      if offset >= |content| {
        return Failed(offset);
      }
      r := ParseStringLoop(content, offset);
      if r.Failed? {
        offset := r.at;
        return;
      }
      offset := r.next;
      SkipWhitespace();
      if offset >= |content| || content[offset] != ':' {
        return Failed(offset);
      }
      offset := offset + 1;
      return Parsed(r.s, offset);
    }
  }

  // ----- what the loops have read and what is left to read -----

  ghost function Behind(items: seq<Json>, r: Items): Items {
    match r
    case ItemsOk(rest, next) => ItemsOk(items + rest, next)
    case _ => r
  }

  /** The outcome once the last element has been read. */
  ghost function AtEnd(items: seq<Json>, s: string, m: nat): Items {
    if m < |s| && s[m] == ']' then ItemsOk(items, m + 1) else ItemsErr(m)
  }

  lemma DigitsBetween(s: string, start: nat, end: nat)
    requires start <= end <= |s|
    ensures var t := s[start..DigitsEnd(s, start, end)]; forall i :: 0 <= i < |t| ==> IsDigit(t[i])
  {
    hide DigitsEnd;
    var stop := DigitsEnd(s, start, end);
    forall i | 0 <= i < stop - start ensures IsDigit(s[start..stop][i]) {
      assert s[start..stop][i] == s[start + i];
    }
  }

  lemma BehindStep(items: seq<Json>, v: Json, s: string, i: nat, m: nat, depth: nat)
    requires i <= |s| && m <= |s|
    requires ParseValue(s, SkipSpace(s, i), depth).Ok? && ParseValue(s, SkipSpace(s, i), depth).value == v
    requires m == SkipSpace(s, ParseValue(s, SkipSpace(s, i), depth).next)
    ensures Behind(items, ParseItems(s, i, depth)) ==
            if m < |s| && s[m] == ',' then Behind(items + [v], ParseItems(s, m + 1, depth))
            else AtEnd(items + [v], s, m)
  {
    hide ParseValue, SkipSpace;
    if m < |s| && s[m] == ',' {
      var rest := ParseItems(s, m + 1, depth);
      if rest.ItemsOk? {
        assert items + ([v] + rest.items) == (items + [v]) + rest.items;
      }
    }
  }

  ghost function BehindMembers(ms: seq<Member>, r: Members): Members {
    match r
    case MembersOk(rest, next) => MembersOk(ms + rest, next)
    case _ => r
  }

  ghost function AtMembersEnd(ms: seq<Member>, s: string, m: nat): Members {
    if m < |s| && s[m] == '}' then MembersOk(ms, m + 1) else MembersErr(m)
  }

  lemma BehindMembersStep(ms: seq<Member>, s: string, i: nat, m: nat, depth: nat)
    requires i <= |s| && m <= |s| && ParseMember(s, i, depth).OneOk?
    requires m == SkipSpace(s, ParseMember(s, i, depth).next)
    ensures var v := ParseMember(s, i, depth).member;
            BehindMembers(ms, ParseMembers(s, i, depth)) ==
            if m < |s| && s[m] == ',' then BehindMembers(ms + [v], ParseMembers(s, m + 1, depth))
            else AtMembersEnd(ms + [v], s, m)
  {
    hide ParseMember, SkipSpace;
    var v := ParseMember(s, i, depth).member;
    if m < |s| && s[m] == ',' {
      var rest := ParseMembers(s, m + 1, depth);
      if rest.MembersOk? {
        assert ms + ([v] + rest.members) == (ms + [v]) + rest.members;
      }
    }
  }

  lemma ItemsStop(s: string, i: nat, depth: nat)
    requires i <= |s|
    ensures match ParseValue(s, SkipSpace(s, i), depth)
            case Err(at) => ParseItems(s, i, depth) == ItemsErr(at)
            case Foreign(at) => ParseItems(s, i, depth) == ItemsForeign(at)
            case Ok(_, _) => true
  {
    hide ParseValue, SkipSpace;
  }

  lemma MembersStop(s: string, i: nat, depth: nat)
    requires i <= |s|
    ensures match ParseMember(s, i, depth)
            case OneErr(at) => ParseMembers(s, i, depth) == MembersErr(at)
            case OneForeign(at) => ParseMembers(s, i, depth) == MembersForeign(at)
            case OneOk(_, _) => true
  {
    hide ParseMember, SkipSpace;
  }

  lemma BehindNothing(r: Items)
    ensures Behind([], r) == r
  {
    if r.ItemsOk? {
      assert [] + r.items == r.items;
    }
  }

  lemma BehindNoMembers(r: Members)
    ensures BehindMembers([], r) == r
  {
    if r.MembersOk? {
      assert [] + r.members == r.members;
    }
  }
}
