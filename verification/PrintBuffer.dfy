/**
 The printer of cJSON.c on its growing buffer.

 Most parts of the printer leave their text uncounted behind `offset`, ended by a NUL that
 `update_offset` looks for. What is proved is that this protocol works: the buffer ends up
 holding the text of `PrintText`, every write is inside the buffer, and printing succeeds
 exactly when the text, its NUL and one spare byte fit.
 */
module PrintBuffer {
  import opened Wrappers
  import opened Json
  import opened Decimal
  import opened Compare
  import opened PrintText

  class Buffer {
    var buffer: array<char>
    var offset: nat
    var depth: nat
    const noalloc: bool
    const format: bool
    /** Whether the allocator offers `realloc`; otherwise the buffer is copied by hand. */
    const canRealloc: bool

    ghost predicate Valid()
      reads this
    {
      && buffer.Length <= INT_MAX
      && (offset < buffer.Length || (buffer.Length == 0 && offset == 0 && (noalloc || canRealloc)))
    }

    /** How long the buffer can become. */
    function Limit(): nat
      reads this
    {
      if noalloc then buffer.Length else INT_MAX
    }

    constructor (buffer: array<char>, noalloc: bool, format: bool, canRealloc: bool)
      requires buffer.Length <= INT_MAX && (buffer.Length > 0 || noalloc || canRealloc)
      ensures Valid() && this.buffer == buffer && offset == 0 && depth == 0
      ensures this.noalloc == noalloc && this.format == format && this.canRealloc == canRealloc
    {
      this.buffer := buffer;
      offset, depth := 0, 0;
      this.noalloc, this.format, this.canRealloc := noalloc, format, canRealloc;
    }

    /** `ensure`: room for `needed` more bytes and a NUL. What stands before `offset` survives. */
    method Ensure(needed: nat) returns (ok: bool)
      requires Valid()
      modifies this`buffer
      ensures Valid() && Limit() == old(Limit()) && (buffer == old(buffer) || (fresh(buffer) && !noalloc))
      ensures ok <==> offset + needed + 1 <= Limit()
      ensures ok ==> offset + needed + 1 <= buffer.Length
      ensures offset <= buffer.Length && buffer[..offset] == old(buffer[..offset])
    {
      if buffer.Length > 0 && offset >= buffer.Length {
        return false;
      }
      if needed > INT_MAX {
        return false;
      }
      var total := needed + offset + 1;
      if total <= buffer.Length {
        return true;
      }
      if noalloc {
        return false;
      }
      var newSize: nat;
      if total > INT_MAX / 2 {
        if total <= INT_MAX {
          newSize := INT_MAX;
        } else {
          return false;
        }
      } else {
        newSize := total * 2;
      }
      var newBuffer := new char[newSize];
      var kept := if canRealloc then buffer.Length else offset + 1;
      var i := 0;
      while i < kept
        invariant buffer == old(buffer) && 0 <= i <= kept <= buffer.Length && kept <= newSize
        invariant forall k :: 0 <= k < i ==> newBuffer[k] == buffer[k]
      {
        newBuffer[i] := buffer[i];
        i := i + 1;
      }
      assert i == kept && offset <= kept;
      assert newBuffer[..offset] == buffer[..offset];
      buffer := newBuffer;
      return true;
    }

    /** `update_offset`: counts the bytes up to the NUL at `end`. */
    method UpdateOffset(ghost end: nat)
      requires Valid() && offset <= end < buffer.Length && buffer[end] == '\0'
      requires forall i :: offset <= i < end ==> buffer[i] != '\0'
      modifies this`offset
      ensures Valid() && offset == end
    {
      var length := 0;
      while buffer[offset + length] != '\0'
        invariant 0 <= length <= end - offset
        decreases end - length
      {
        length := length + 1;
      }
      offset := offset + length;
    }

    /** Copies bytes to a place in the buffer. */
    method Write(at: nat, s: string)
      requires at + |s| <= buffer.Length
      modifies buffer
      ensures buffer[..at + |s|] == old(buffer[..at]) + s
    {
      var i := 0;
      while i < |s|
        invariant 0 <= i <= |s|
        invariant buffer[..at] == old(buffer[..at])
        invariant buffer[at..at + i] == s[..i]
      {
        buffer[at + i] := s[i];
        i := i + 1;
      }
      assert s[..|s|] == s;
      assert buffer[..at + |s|] == buffer[..at] + buffer[at..at + |s|];
    }

    /** The text is in the buffer behind what was there at `start`, and ended by a NUL. */
    ghost predicate Printed(before: string, text: string)
      reads this, buffer
    {
      && |before| + |text| < buffer.Length
      && |before| <= offset <= |before| + |text|
      && buffer[..|before| + |text|] == before + text
      && buffer[|before| + |text|] == '\0'
    }

    /** `null`, `true` and `false`. */
    method PrintWord(word: string) returns (ok: bool)
      requires Valid()
      modifies this, buffer
      ensures Valid() && Limit() == old(Limit()) && (buffer == old(buffer) || (fresh(buffer) && !noalloc))
      ensures offset == old(offset) && depth == old(depth)
      ensures ok <==> old(offset) + |word| + 2 <= Limit()
      ensures ok ==> Printed(old(buffer[..offset]), word)
    {
      ok := Ensure(|word| + 1);
      if !ok {
        return;
      }
      ghost var before := buffer[..offset];
      Write(offset, word + "\0");
      Terminated(buffer[..offset + |word| + 1], before, word);
    }

    /** `print_number`, which counts its own text. */
    method PrintNumber(n: int) returns (ok: bool)
      requires Valid()
      modifies this, buffer
      ensures Valid() && Limit() == old(Limit()) && (buffer == old(buffer) || (fresh(buffer) && !noalloc))
      ensures depth == old(depth)
      ensures ok <==> old(offset) + |SignedDec(n)| + 2 <= Limit()
      ensures ok ==> Printed(old(buffer[..offset]), SignedDec(n))
    {
      ok := PrintWord(SignedDec(n));
      if ok {
        offset := offset + |SignedDec(n)|;
      }
    }

    /** `print_string_ptr`: measures the escapes, reserves the room, then copies and escapes. */
    method PrintString(input: string) returns (ok: bool)
      requires Valid()
      modifies this, buffer
      ensures Valid() && Limit() == old(Limit()) && (buffer == old(buffer) || (fresh(buffer) && !noalloc))
      ensures offset == old(offset) && depth == old(depth)
      ensures ok <==> old(offset) + |Quote(input)| + 2 <= Limit()
      ensures ok ==> Printed(old(buffer[..offset]), Quote(input))
    {
      var escapes := CountEscapes(input);
      ok := Ensure(|input| + escapes + 3);
      if ok {
        ghost var before := buffer[..offset];
        CopyString(input, escapes);
        Terminated(buffer[..offset + |Quote(input)| + 1], before, Quote(input));
      }
    }

    /** The copy: plain if nothing has to be escaped, else byte by byte. */
    method CopyString(input: string, escapes: nat)
      requires |EscapeAll(input)| == |input| + escapes && offset + |Quote(input)| < buffer.Length
      modifies buffer
      ensures buffer[..offset + |Quote(input)| + 1] == old(buffer[..offset]) + (Quote(input) + "\0")
    {
      hide Escape, EscapeAll;
      ghost var before := buffer[..offset];
      Write(offset, "\"");
      if escapes == 0 {
        NoEscapes(input);
        Write(offset + 1, input);
      } else {
        EscapeInto(offset + 1, input);
      }
      Write(offset + 1 + |input| + escapes, "\"\0");
      QuoteParts(before, EscapeAll(input));
    }

    /** The first loop: how many bytes the escapes add. */
    static method CountEscapes(input: string) returns (escapes: nat)
      ensures |EscapeAll(input)| == |input| + escapes
    {
      escapes := 0;
      for i := 0 to |input|
        invariant |EscapeAll(input)| == i + escapes + |EscapeAll(input[i..])|
      {
        assert input[i..][0] == input[i] && input[i..][1..] == input[i + 1..];
        var c := input[i];
        if c == '\"' || c == '\\' || c == '\U{8}' || c == '\U{C}' || c == '\n' || c == '\r' || c == '\t' {
          escapes := escapes + 1;
        } else if c < ' ' {
          escapes := escapes + 5;
        }
      }
    }

    /** One turn of the second loop. */
    method PutEscape(p: nat, c: char)
      requires p + |Escape(c)| < buffer.Length
      modifies buffer
      ensures buffer[..p + |Escape(c)|] == old(buffer[..p]) + Escape(c)
    {
      if c < ' ' && |Escape(c)| == 6 {
        Write(p, Escape(c) + "\0");
        assert buffer[..p + 6] == buffer[..p + 7][..p + 6];
      } else {
        Write(p, Escape(c));
      }
    }

    /** The second loop; formatting a control byte also writes a NUL behind it. */
    method EscapeInto(at: nat, input: string)
      requires at + |EscapeAll(input)| + 2 <= buffer.Length
      modifies buffer
      ensures buffer[..at + |EscapeAll(input)|] == old(buffer[..at]) + EscapeAll(input)
    {
      var p := at;
      ghost var before := buffer[..at];
      assert input[..0] == "" && before + "" == before;
      for i := 0 to |input|
        invariant at <= p == at + |EscapeAll(input[..i])|
        invariant p + |EscapeAll(input[i..])| == at + |EscapeAll(input)|
        invariant buffer[..p] == before + EscapeAll(input[..i])
      {
        var c := input[i];
        EscapeStep(input, i);
        PutEscape(p, c);
        Associate(before, EscapeAll(input[..i]), Escape(c));
        p := p + |Escape(c)|;
      }
      assert input[..|input|] == input;
    }

    /** Counts what was printed last. */
    method Count(ghost before: string, ghost text: string)
      requires Valid() && Printed(before, text) && NoNul(text)
      modifies this`offset
      ensures Valid() && offset == |before| + |text| && buffer[..offset] == before + text
    {
      ghost var end := |before| + |text|;
      forall i | offset <= i < end ensures buffer[i] != '\0' {
        assert buffer[..end][i] == text[i - |before|];
      }
      UpdateOffset(end);
    }

    /** Reserves `slack` more bytes than the piece has, writes it and counts it. */
    method Put(piece: string, slack: nat) returns (ok: bool)
      requires Valid() && slack <= 1
      modifies this, buffer
      ensures Valid() && Limit() == old(Limit()) && (buffer == old(buffer) || (fresh(buffer) && !noalloc))
      ensures depth == old(depth)
      ensures ok <==> old(offset) + |piece| + slack + 1 <= Limit()
      ensures ok ==> offset == old(offset) + |piece| && buffer[..offset] == old(buffer[..offset]) + piece
    {
      ok := Ensure(|piece| + slack);
      if ok {
        ghost var before := buffer[..offset];
        if slack == 1 {
          Write(offset, piece + "\0");
          Terminated(buffer[..offset + |piece| + 1], before, piece);
        } else {
          Write(offset, piece);
        }
        offset := offset + |piece|;
      }
    }

    /** `print_value`. */
    method PrintValue(j: Json) returns (ok: bool)
      requires Valid() && CStrings(j)
      modifies this, buffer
      ensures Valid() && Limit() == old(Limit()) && (buffer == old(buffer) || (fresh(buffer) && !noalloc))
      ensures ok <==> AllValid(j) && old(offset) + |Text(j, format, old(depth))| + 2 <= Limit()
      ensures ok ==> depth == old(depth) && Printed(old(buffer[..offset]), Text(j, format, old(depth)))
      decreases Size(j), 0
    {
      match j
      case Invalid => return false;
      case Null => ok := PrintWord("null");
      case Bool(b) => ok := PrintWord(if b then "true" else "false");
      case Num(n) => ok := PrintNumber(n);
      case Str(s) => ok := PrintString(s);
      case Arr(items) => ok := PrintArray(items);
      case Obj(ms) => ok := PrintObject(ms);
    }

    /** `print_array`. */
    method PrintArray(items: seq<Json>) returns (ok: bool)
      requires Valid() && CStrings(Arr(items))
      modifies this, buffer
      ensures Valid() && Limit() == old(Limit()) && (buffer == old(buffer) || (fresh(buffer) && !noalloc))
      ensures ok <==> AllValid(Arr(items)) && old(offset) + |Text(Arr(items), format, old(depth))| + 2 <= Limit()
      ensures ok ==> depth == old(depth) && Printed(old(buffer[..offset]), Text(Arr(items), format, old(depth)))
      decreases ItemsSize(items), 3
    {
      ghost var before, all := buffer[..offset], ItemsText(items, format, depth + 1);
      ok := Put("[", 0);
      if !ok {
        return;
      }
      depth := depth + 1;
      ok := PrintItems(items);
      if !ok {
        return;
      }
      Associate(before, "[", all);
      ok := Close(before, "[" + all, "]");
    }

    /** The closing bracket, which is left uncounted. */
    method Close(ghost before: string, ghost front: string, close: string) returns (ok: bool)
      requires Valid() && depth > 0 && buffer[..offset] == before + front
      modifies this, buffer
      ensures Valid() && Limit() == old(Limit()) && (buffer == old(buffer) || (fresh(buffer) && !noalloc))
      ensures ok <==> old(offset) + |close| + 2 <= Limit()
      ensures ok ==> depth == old(depth) - 1 && Printed(before, front + close)
    {
      ok := PrintWord(close);
      if ok {
        Associate(before, front, close);
        depth := depth - 1;
      }
    }

    /** The loop over the elements. */
    method PrintItems(items: seq<Json>) returns (ok: bool)
      requires Valid() && CStrings(Arr(items))
      modifies this, buffer
      ensures Valid() && Limit() == old(Limit()) && (buffer == old(buffer) || (fresh(buffer) && !noalloc))
      ensures var all := ItemsText(items, format, old(depth));
              && (ok <==> items == [] || (AllValid(Arr(items)) && old(offset) + |all| + 2 <= Limit()))
              && (ok ==> depth == old(depth) && offset == old(offset) + |all| &&
                         buffer[..offset] == old(buffer[..offset]) + all)
      decreases ItemsSize(items), 2
    {
      ghost var whole := buffer[..offset] + ItemsText(items, format, depth);
      var i := 0;
      ok := true;
      while i < |items|
        invariant 0 <= i <= |items| && depth == old(depth) && ok
        invariant Valid() && Limit() == old(Limit()) && (buffer == old(buffer) || (fresh(buffer) && !noalloc))
        invariant forall k :: 0 <= k < i ==> AllValid(items[k])
        invariant buffer[..offset] + ItemsText(items[i..], format, depth) == whole
        invariant i > 0 ==> offset + 2 <= Limit()
      {
        assert items[i..][0] == items[i] && items[i..][1..] == items[i + 1..];
        ghost var at := buffer[..offset];
        ok := PrintItem(items[i], i + 1 == |items|);
        if !ok {
          return;
        }
        NextItem(at, Text(items[i], format, depth), ItemSeparator(i + 1 == |items|, format),
                 ItemsText(items[i + 1..], format, depth));
        i := i + 1;
      }
      assert buffer[..offset] + "" == buffer[..offset];
    }

    /** An element and the separator behind it. */
    method PrintItem(item: Json, last: bool) returns (ok: bool)
      requires Valid() && CStrings(item)
      modifies this, buffer
      ensures Valid() && Limit() == old(Limit()) && (buffer == old(buffer) || (fresh(buffer) && !noalloc))
      ensures var piece := Text(item, format, old(depth)) + ItemSeparator(last, format);
              && (ok <==> AllValid(item) && old(offset) + |piece| + 2 <= Limit())
              && (ok ==> depth == old(depth) && offset == old(offset) + |piece| &&
                         buffer[..offset] == old(buffer[..offset]) + piece)
      decreases Size(item), 1
    {
      ghost var before, text := buffer[..offset], Text(item, format, depth);
      ok := PrintValue(item);
      if !ok {
        return;
      }
      TextNoNul(item, format, depth);
      Count(before, text);
      if !last {
        ok := Put(ItemSeparator(false, format), 1);
        Associate(before, text, ItemSeparator(last, format));
      } else {
        assert text + "" == text;
      }
    }

    /** `print_object`. */
    method PrintObject(ms: seq<Member>) returns (ok: bool)
      requires Valid() && CStrings(Obj(ms))
      modifies this, buffer
      ensures Valid() && Limit() == old(Limit()) && (buffer == old(buffer) || (fresh(buffer) && !noalloc))
      ensures ok <==> AllValid(Obj(ms)) && old(offset) + |Text(Obj(ms), format, old(depth))| + 2 <= Limit()
      ensures ok ==> depth == old(depth) && Printed(old(buffer[..offset]), Text(Obj(ms), format, old(depth)))
      decreases MembersSize(ms), 3
    {
      hide Text, MembersText, CStrings, AllValid, Tabs;
      ghost var before, all := buffer[..offset], MembersText(ms, format, depth + 1);
      var open := if format then "{\n" else "{";
      var close := (if format then Tabs(depth) else "") + "}";
      ObjectText(ms, format, depth);
      ok := Put(open, 1);
      if !ok {
        return;
      }
      depth := depth + 1;
      ok := PrintMembers(ms);
      if !ok {
        return;
      }
      Associate(before, open, all);
      ok := Close(before, open + all, close);
    }

    /** The loop over the members. */
    method PrintMembers(ms: seq<Member>) returns (ok: bool)
      requires Valid() && CStrings(Obj(ms))
      modifies this, buffer
      ensures Valid() && Limit() == old(Limit()) && (buffer == old(buffer) || (fresh(buffer) && !noalloc))
      ensures var all := MembersText(ms, format, old(depth));
              && (ok <==> ms == [] || (AllValid(Obj(ms)) && old(offset) + |all| + 2 <= Limit()))
              && (ok ==> depth == old(depth) && offset == old(offset) + |all| &&
                         buffer[..offset] == old(buffer[..offset]) + all)
      decreases MembersSize(ms), 2
    {
      ghost var whole := buffer[..offset] + MembersText(ms, format, depth);
      var i := 0;
      ok := true;
      while i < |ms|
        invariant 0 <= i <= |ms| && depth == old(depth) && ok
        invariant Valid() && Limit() == old(Limit()) && (buffer == old(buffer) || (fresh(buffer) && !noalloc))
        invariant forall k :: 0 <= k < i ==> AllValid(ms[k].value)
        invariant buffer[..offset] + MembersText(ms[i..], format, depth) == whole
        invariant i > 0 ==> offset + 2 <= Limit()
      {
        assert ms[i..][0] == ms[i] && ms[i..][1..] == ms[i + 1..];
        ghost var at := buffer[..offset];
        ok := PrintMember(ms[i], i + 1 == |ms|);
        if !ok {
          return;
        }
        NextMember(at, KeyText(ms[i].key, format, depth), Text(ms[i].value, format, depth),
                   MemberSeparator(i + 1 == |ms|, format), MembersText(ms[i + 1..], format, depth));
        i := i + 1;
      }
      assert buffer[..offset] + "" == buffer[..offset];
    }

    /** A key, its value, and what separates them from the next member. */
    method PrintMember(m: Member, last: bool) returns (ok: bool)
      requires Valid() && CStrings(m.value) && NoNul(m.key)
      modifies this, buffer
      ensures Valid() && Limit() == old(Limit()) && (buffer == old(buffer) || (fresh(buffer) && !noalloc))
      ensures var piece := KeyText(m.key, format, old(depth)) +
                           (Text(m.value, format, old(depth)) + MemberSeparator(last, format));
              && (ok <==> AllValid(m.value) && old(offset) + |piece| + 2 <= Limit())
              && (ok ==> depth == old(depth) && offset == old(offset) + |piece| &&
                         buffer[..offset] == old(buffer[..offset]) + piece)
      decreases Size(m.value), 1
    {
      ghost var before, key, text := buffer[..offset], KeyText(m.key, format, depth), Text(m.value, format, depth);
      ok := PrintKey(m.key);
      if !ok {
        return;
      }
      ok := PrintValue(m.value);
      if !ok {
        return;
      }
      TextNoNul(m.value, format, depth);
      Count(before + key, text);
      ok := Put(MemberSeparator(last, format), 1);
      Associate(before + key, text, MemberSeparator(last, format));
      Associate(before, key, text + MemberSeparator(last, format));
    }

    /** The indentation, the key and the colon. */
    method PrintKey(key: string) returns (ok: bool)
      requires Valid() && NoNul(key)
      modifies this, buffer
      ensures Valid() && Limit() == old(Limit()) && (buffer == old(buffer) || (fresh(buffer) && !noalloc))
      ensures var piece := KeyText(key, format, old(depth));
              && (old(offset) + |piece| + 2 <= Limit() ==> ok)
              && (ok ==> old(offset) + |piece| + 1 <= Limit())
              && (ok ==> depth == old(depth) && offset == old(offset) + |piece| &&
                         buffer[..offset] == old(buffer[..offset]) + piece)
    {
      ghost var before := buffer[..offset];
      var tabs := if format then Tabs(depth) else "";
      if format {
        ok := Put(tabs, 0);
        if !ok {
          return;
        }
      }
      assert buffer[..offset] == before + tabs;
      ok := PrintString(key);
      if !ok {
        return;
      }
      EscapeNoNul(key);
      Count(before + tabs, Quote(key));
      var colon := if format then ":\t" else ":";
      ok := Put(colon, 0);
      Associate(before + tabs, Quote(key), colon);
      Associate(before, tabs, Quote(key) + colon);
    }
  }

  // ----- entry points -----

  /** The room that a text takes: itself, its NUL, and one byte that `ensure` always keeps in reserve. */
  function Needed(j: Json, format: bool): nat { |Text(j, format, 0)| + 2 }

  /** `cJSON_Print` and `cJSON_PrintUnformatted`: a buffer of 256 bytes that grows. */
  method Print(j: Json, format: bool, canRealloc: bool) returns (r: Option<string>)
    requires CStrings(j)
    ensures r == if AllValid(j) && Needed(j, format) <= INT_MAX then Some(Text(j, format, 0)) else None
  {
    r := PrintBuffered(j, 256, format, canRealloc);
  }

  /** `cJSON_PrintBuffered`: the caller chooses the first size. */
  method PrintBuffered(j: Json, prebuffer: int, format: bool, canRealloc: bool) returns (r: Option<string>)
    requires CStrings(j) && prebuffer <= INT_MAX && (canRealloc || prebuffer != 0)
    ensures r == if prebuffer >= 0 && AllValid(j) && Needed(j, format) <= INT_MAX then Some(Text(j, format, 0)) else None
  {
    if prebuffer < 0 {
      return None;
    }
    var buffer := new char[prebuffer];
    var p := new Buffer(buffer, false, format, canRealloc);
    var ok := p.PrintValue(j);
    if !ok {
      return None;
    }
    ghost var text := Text(j, format, 0);
    TextNoNul(j, format, 0);
    assert p.buffer[..|text|] == text;
    p.Count("", text);
    return Some(p.buffer[..p.offset]);
  }

  /** `cJSON_PrintPreallocated`: the caller's buffer, which never grows. */
  method PrintPreallocated(j: Json, buffer: array<char>, format: bool) returns (ok: bool)
    requires CStrings(j) && buffer.Length <= INT_MAX
    modifies buffer
    ensures ok <==> AllValid(j) && Needed(j, format) <= buffer.Length
    ensures ok ==> buffer[..|Text(j, format, 0)|] == Text(j, format, 0) && buffer[|Text(j, format, 0)|] == '\0'
  {
    var p := new Buffer(buffer, true, format, true);
    ok := p.PrintValue(j);
    if ok {
      assert "" + Text(j, format, 0) == Text(j, format, 0);
    }
  }

  lemma NextItem(at: string, text: string, separator: string, rest: string)
    ensures at + (text + (separator + rest)) == (at + (text + separator)) + rest
  {
  }

  lemma NextMember(at: string, key: string, text: string, separator: string, rest: string)
    ensures at + (key + (text + (separator + rest))) == (at + (key + (text + separator))) + rest
  {
  }

  /** A buffer that ends in a text and its NUL. */
  lemma Terminated(full: string, before: string, text: string)
    requires full == before + (text + "\0")
    ensures full[..|before| + |text|] == before + text && full[|before| + |text|] == '\0'
  {
  }

  lemma QuoteParts(before: string, e: string)
    ensures ((before + "\"") + e) + "\"\0" == before + (("\"" + e + "\"") + "\0")
  {
  }

  lemma Associate(a: string, b: string, c: string)
    ensures (a + b) + c == a + (b + c)
  {
  }

  lemma {:induction false} EscapeConcat(a: string, b: string)
    ensures EscapeAll(a + b) == EscapeAll(a) + EscapeAll(b)
  {
    if a == "" {
      assert a + b == b;
    } else {
      assert (a + b)[1..] == a[1..] + b;
      EscapeConcat(a[1..], b);
    }
  }

  lemma EscapeStep(s: string, i: nat)
    requires i < |s|
    ensures EscapeAll(s[..i + 1]) == EscapeAll(s[..i]) + Escape(s[i])
    ensures |EscapeAll(s[i..])| == |Escape(s[i])| + |EscapeAll(s[i + 1..])|
  {
    assert s[..i + 1] == s[..i] + [s[i]];
    EscapeConcat(s[..i], [s[i]]);
    assert [s[i]][1..] == "" && EscapeAll([s[i]]) == Escape(s[i]) + "";
    assert s[i..][0] == s[i] && s[i..][1..] == s[i + 1..];
  }

  lemma {:induction false} NoEscapes(s: string)
    requires |EscapeAll(s)| == |s|
    ensures EscapeAll(s) == s
  {
    if s != "" {
      NoEscapes(s[1..]);
    }
  }

  lemma ObjectText(ms: seq<Member>, format: bool, depth: nat)
    ensures var open, all := if format then "{\n" else "{", MembersText(ms, format, depth + 1);
            var close := (if format then Tabs(depth) else "") + "}";
            var text := Text(Obj(ms), format, depth);
            text == (open + all) + close && |text| == |open| + |all| + |close|
    ensures ms == [] ==> AllValid(Obj(ms)) && MembersText(ms, format, depth + 1) == ""
  {
  }
}
