/**
 `parse_string`: a first scan finds the closing quote and bounds the output, a second one
 decodes. The two may group backslashes differently behind a `\u`, and still the output
 stays within the bound.
 */
module StringLiteral {
  import opened Wrappers
  import opened Utf16

  /** The first scan: the index of the closing quote. */
  function ScanEnd(s: string, i: nat): (r: Option<nat>)
    requires i <= |s|
    ensures r.Some? ==> i <= r.value < |s| && s[r.value] == '\"'
    decreases |s| - i
  {
    if i >= |s| then None
    else if s[i] == '\"' then Some(i)
    else if s[i] == '\\' then (if i + 1 >= |s| then None else ScanEnd(s, i + 2))
    else ScanEnd(s, i + 1)
  }

  /** How many escapes the first scan, standing at `i`, starts before `p`. */
  function Escapes(s: string, i: nat, p: nat): (n: nat)
    requires p <= |s|
    ensures i <= p ==> n <= p - i
    decreases |s| - i
  {
    if i >= p then 0
    else if s[i] == '\\' then 1 + Escapes(s, i + 2, p)
    else Escapes(s, i + 1, p)
  }

  lemma {:induction false} EscapesGrow(s: string, i: nat, p: nat, q: nat)
    requires p <= q <= |s|
    ensures Escapes(s, i, p) <= Escapes(s, i, q)
    ensures q == p + 1 && s[p] != '\\' ==> Escapes(s, i, q) == Escapes(s, i, p)
    ensures q <= p + 2 ==> Escapes(s, i, q) <= Escapes(s, i, p) + 1
    decreases |s| - i
  {
    if i < q {
      EscapesGrow(s, if s[i] == '\\' then i + 2 else i + 1, p, q);
    }
  }

  /** Six bytes start at most three escapes, twelve at most six. */
  lemma EscapesIn(s: string, i: nat, p: nat, n: nat)
    requires n == 6 || n == 12
    requires p + n <= |s|
    ensures Escapes(s, i, p + n) <= Escapes(s, i, p) + n / 2
  {
    EscapesGrow(s, i, p, p + 2);
    EscapesGrow(s, i, p + 2, p + 4);
    EscapesGrow(s, i, p + 4, p + 6);
    if n == 12 {
      EscapesGrow(s, i, p + 6, p + 8);
      EscapesGrow(s, i, p + 8, p + 10);
      EscapesGrow(s, i, p + 10, p + 12);
    }
  }

  /** The byte that a two-byte escape stands for. */
  function Unescaped(c: char): Option<char> {
    if c == 'b' then Some('\U{8}')
    else if c == 'f' then Some('\U{C}')
    else if c == 'n' then Some('\n')
    else if c == 'r' then Some('\r')
    else if c == 't' then Some('\t')
    else if c == '\"' || c == '\\' || c == '/' then Some(c)
    else None
  }

  /** The decoded bytes, or where the decoding stopped. */
  datatype Decoded = Bytes(bytes: string) | Stopped(at: nat)

  function Prepend(b: string, d: Decoded): Decoded {
    match d
    case Bytes(r) => Bytes(b + r)
    case Stopped(_) => d
  }

  /** The second scan, from `i` up to the closing quote at `end`. */
  function Decode(s: string, i: nat, end: nat): (r: Decoded)
    requires i <= end + 1 && end < |s|
    decreases end + 1 - i
  {
    if i >= end then Bytes("")
    else if s[i] != '\\' then Prepend([s[i]], Decode(s, i + 1, end))
    else if s[i + 1] == 'u' then
      match Transcode(s, i, end)
      case None => Stopped(i)
      case Some((b, n)) => Prepend(b, Decode(s, i + n, end))
    else
      match Unescaped(s[i + 1])
      case None => Stopped(i)
      case Some(c) => Prepend([c], Decode(s, i + 2, end))
  }

  /** How many bytes the first scan reserves for the output, not counting its NUL. */
  function Reserved(s: string, start: nat, end: nat): nat
    requires start <= end < |s|
  {
    1 + (end - start) - Escapes(s, start, end)
  }

  /** The decoded bytes always fit the reservation. */
  lemma {:induction false} DecodeFits(s: string, start: nat, i: nat, end: nat)
    requires start <= i <= end + 1 && start <= end < |s|
    ensures Decode(s, i, end).Bytes? ==>
              |Decode(s, i, end).bytes| + (i - start) - Escapes(s, start, i) <= Reserved(s, start, end)
    decreases end + 1 - i
  {
    if i >= end {
      EscapesGrow(s, start, end, i);
    } else if s[i] != '\\' {
      EscapesGrow(s, start, i, i + 1);
      DecodeFits(s, start, i + 1, end);
    } else if s[i + 1] == 'u' {
      var t := Transcode(s, i, end);
      if t.Some? {
        EscapesIn(s, start, i, t.value.1);
        DecodeFits(s, start, i + t.value.1, end);
      }
    } else if Unescaped(s[i + 1]).Some? {
      EscapesGrow(s, start, i, i + 2);
      DecodeFits(s, start, i + 2, end);
    }
  }

  /** The C string in a buffer: what stands before the first NUL. */
  function CString(s: string): (r: string)
    ensures |r| <= |s|
  {
    if s == "" || s[0] == '\0' then "" else [s[0]] + CString(s[1..])
  }

  /** The outcome of `parse_string`: the string and the offset behind it, or the offset of the error. */
  datatype Literal = Parsed(s: string, next: nat) | Failed(at: nat)

  /** `parse_string` at `offset`. */
  function ParseString(s: string, offset: nat): (r: Literal)
    requires offset < |s|
    ensures r.Parsed? ==> offset < r.next <= |s|
  {
    if s[offset] != '\"' then Failed(offset + 1)
    else match ScanEnd(s, offset + 1)
      case None => Failed(offset + 1)
      case Some(end) =>
        match Decode(s, offset + 1, end)
        case Stopped(at) => Failed(at)
        case Bytes(b) => Parsed(CString(b), end + 1)
  }

  /** The first scan as a loop. Finding no closing quote is told by `end` being the length. */
  method Measure(s: string, start: nat) returns (end: nat, skipped: nat)
    requires start <= |s|
    ensures end <= |s|
    ensures match ScanEnd(s, start)
            case None => end == |s|
            case Some(e) => end == e && skipped == Escapes(s, start, e)
  {
    end, skipped := start, 0;
    while end < |s| && s[end] != '\"'
      invariant start <= end <= |s|
      invariant ScanEnd(s, start) == ScanEnd(s, end)
      invariant ScanEnd(s, end).Some? ==>
                  skipped + Escapes(s, end, ScanEnd(s, end).value) == Escapes(s, start, ScanEnd(s, end).value)
      decreases |s| - end
    {
      if s[end] == '\\' {
        if end + 1 >= |s| {
          return |s|, skipped;
        }
        skipped := skipped + 1;
        end := end + 1;
      }
      end := end + 1;
    }
  }

  /** The output buffer that the first scan sizes, and the loop that fills it. */
  method ParseStringLoop(s: string, offset: nat) returns (r: Literal)
    requires offset < |s|
    ensures r == ParseString(s, offset)
  {
    if s[offset] != '\"' {
      return Failed(offset + 1);
    }
    var start := offset + 1;
    var end, skipped := Measure(s, start);
    if end == |s| {
      return Failed(start);
    }
    var reserved := end - offset - skipped;
    assert reserved == Reserved(s, start, end);
    var output := new char[reserved + 1];
    var i, out, stopped := Fill(s, start, end, output);
    if stopped {
      return Failed(i);
    }
    output[out] := '\0';
    return Parsed(CString(output[..out]), end + 1);
  }

  /** The second scan as a loop, writing into the reserved buffer. */
  method Fill(s: string, start: nat, end: nat, output: array<char>) returns (i: nat, out: nat, stopped: bool)
    requires start <= end < |s| && output.Length == Reserved(s, start, end) + 1
    modifies output
    ensures stopped ==> Decode(s, start, end) == Stopped(i)
    ensures !stopped ==> out < output.Length && Decode(s, start, end) == Bytes(output[..out])
  {
    i, out, stopped := start, 0, false;
    assert output[..0] == "" && Prepend("", Decode(s, start, end)) == Decode(s, start, end) by {
      Prepended("", "", Decode(s, start, end));
      PrependNothing(Decode(s, start, end));
    }
    while i < end
      invariant start <= i <= end + 1 && out < output.Length
      invariant out + Escapes(s, start, i) <= i - start
      invariant Decode(s, start, end) == Prepend(output[..out], Decode(s, i, end))
      decreases end + 1 - i
    {
      Fits(s, start, i, end);
      ghost var before := output[..out];
      if s[i] != '\\' {
        Prepended(before, [s[i]], Decode(s, i + 1, end));
        output[out] := s[i];
        assert output[..out + 1] == before + [s[i]];
        i, out := i + 1, out + 1;
      } else if s[i + 1] == 'u' {
        var n;
        i, out, n := UnicodeEscape(s, start, i, end, output, out);
        if n == 0 {
          stopped := true;
          return;
        }
        Prepended(before, Transcode(s, i - n, end).value.0, Decode(s, i, end));
      } else {
        var c := Unescaped(s[i + 1]);
        if c.None? {
          stopped := true;
          return;
        }
        Prepended(before, [c.value], Decode(s, i + 2, end));
        output[out] := c.value;
        assert output[..out + 1] == before + [c.value];
        i, out := i + 2, out + 1;
      }
    }
    assert output[..out] + "" == output[..out];
  }

  lemma PrependNothing(d: Decoded)
    ensures Prepend("", d) == d
  {
    if d.Bytes? {
      assert "" + d.bytes == d.bytes;
    }
  }

  /** Room for the next step: one byte for a plain byte or a short escape, half its length for a long one. */
  lemma Fits(s: string, start: nat, i: nat, end: nat)
    requires start <= i < end < |s|
    ensures s[i] != '\\' ==> Escapes(s, start, i + 1) == Escapes(s, start, i)
    ensures Escapes(s, start, i + 2) <= Escapes(s, start, i) + 1
    ensures i + 1 - start - Escapes(s, start, i + 1) <= Reserved(s, start, end)
    ensures i + 2 - start - Escapes(s, start, i + 2) <= Reserved(s, start, end)
  {
    EscapesGrow(s, start, i, i + 1);
    EscapesGrow(s, start, i, i + 2);
    Slack(s, start, i + 1, end);
    Slack(s, start, i + 2, end);
  }

  /** The room used never shrinks as the scan goes on. */
  lemma {:induction false} Slack(s: string, start: nat, p: nat, end: nat)
    requires start <= p <= end + 1 && start <= end < |s|
    ensures p - start - Escapes(s, start, p) <= Reserved(s, start, end)
    decreases end + 1 - p
  {
    if p < end {
      EscapesGrow(s, start, p, p + 1);
      Slack(s, start, p + 1, end);
    } else {
      EscapesGrow(s, start, end, p);
    }
  }

  lemma Prepended(a: string, b: string, d: Decoded)
    ensures Prepend(a, Prepend(b, d)) == Prepend(a + b, d)
  {
    if d.Bytes? {
      assert a + (b + d.bytes) == a + b + d.bytes;
    }
  }

  /** The checks of `utf16_literal_to_utf8`: the code point and how much input it takes, or nothing. */
  method DecodeUnits(s: string, i: nat, end: nat) returns (codepoint: nat, taken: nat)
    requires i <= end <= |s|
    ensures taken == 0 <==> Transcode(s, i, end).None?
    ensures taken != 0 ==> codepoint < 0x11_0000 && Transcode(s, i, end) == Some((Utf8Encode(codepoint), taken))
  {
    codepoint, taken := 0, 0;
    if end - i < 6 {
      return;
    }
    var first := ParseHex4(s, i + 2);
    Hex4Bound(s, i + 2);
    if 0xDC00 <= first <= 0xDFFF {
      return;
    }
    if 0xD800 <= first <= 0xDBFF {
      if end - (i + 6) < 6 || s[i + 6] != '\\' || s[i + 7] != 'u' {
        return;
      }
      var second := ParseHex4(s, i + 8);
      if second < 0xDC00 || second > 0xDFFF {
        return;
      }
      return 0x1_0000 + first % 0x400 * 0x400 + second % 0x400, 12;
    }
    return first, 6;
  }

  /** `utf16_literal_to_utf8` writing at `out`. */
  method UnicodeEscape(s: string, ghost start: nat, i: nat, end: nat, output: array<char>, out: nat)
    returns (i': nat, out': nat, n: nat)
    requires start <= i < end < |s|
    requires out + Escapes(s, start, i) <= i - start && output.Length == Reserved(s, start, end) + 1
    modifies output
    ensures n == 0 <==> Transcode(s, i, end).None?
    ensures n == 0 ==> i' == i
    ensures n != 0 ==>
              var (b, k) := Transcode(s, i, end).value;
              n == k && i' == i + k && out' == out + |b| < output.Length && output[..out'] == old(output[..out]) + b &&
              out' + Escapes(s, start, i') <= i' - start
  {
    i', out', n := i, out, 0;
    var codepoint, taken := DecodeUnits(s, i, end);
    if taken != 0 {
      EscapesIn(s, start, i, taken);
      Slack(s, start, i + taken, end);
      var length := EncodeInto(codepoint, output, out);
      i', out', n := i + taken, out + length, taken;
    }
  }
}
