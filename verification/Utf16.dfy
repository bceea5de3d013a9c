/**
 The `\uXXXX` escapes of JSON strings: UTF-16 code units (RFC 2781) written in hexadecimal,
 turned into UTF-8 (RFC 3629).

 Bytes are characters below 256. The masks and shifts of the code act on disjoint bit
 ranges and are written as sums, quotients and remainders.
 */
module Utf16 {
  import opened Wrappers

  // ----- hexadecimal -----

  function HexValue(c: char): Option<nat> {
    if '0' <= c <= '9' then Some((c as int) - 48)
    else if 'A' <= c <= 'F' then Some((c as int) - 55)
    else if 'a' <= c <= 'f' then Some((c as int) - 87)
    else None
  }

  predicate IsHex4(s: string, at: nat)
    requires at + 4 <= |s|
  {
    HexValue(s[at]).Some? && HexValue(s[at + 1]).Some? && HexValue(s[at + 2]).Some? && HexValue(s[at + 3]).Some?
  }

  /** `parse_hex4`: anything that is not four hexadecimal digits counts as zero. */
  function Hex4(s: string, at: nat): (h: nat)
    requires at + 4 <= |s|
  {
    if IsHex4(s, at) then
      ((HexValue(s[at]).value * 16 + HexValue(s[at + 1]).value) * 16 + HexValue(s[at + 2]).value) * 16 +
      HexValue(s[at + 3]).value
    else 0
  }

  const LOWER := "0123456789abcdef"
  const UPPER := "0123456789ABCDEF"

  /** Four digits of either case that write a code unit, the most significant one first. */
  predicate Written4(s: string, at: nat, unit: nat)
    requires at + 4 <= |s| && unit < 0x1_0000
  {
    && WrittenDigit(s[at], unit / 0x1000)
    && WrittenDigit(s[at + 1], unit / 0x100 % 0x10)
    && WrittenDigit(s[at + 2], unit / 0x10 % 0x10)
    && WrittenDigit(s[at + 3], unit % 0x10)
  }

  predicate WrittenDigit(c: char, d: nat)
    requires d < 0x10
  {
    c == LOWER[d] || c == UPPER[d]
  }

  lemma DigitExact(c: char, d: nat)
    requires d < 0x10
    ensures HexValue(c) == Some(d) <==> WrittenDigit(c, d)
  {
    var lower := "0123456789abcdef";
    assert d < 10 ==> lower[d] as int == d + 48;
    assert d >= 10 ==> lower[d] as int == d + 87;
    var upper := "0123456789ABCDEF";
    assert d < 10 ==> upper[d] as int == d + 48;
    assert d >= 10 ==> upper[d] as int == d + 55;
  }

  lemma Places(a: nat, b: nat, c: nat, d: nat)
    requires a < 0x10 && b < 0x10 && c < 0x10 && d < 0x10
    ensures var u := ((a * 16 + b) * 16 + c) * 16 + d;
            && u < 0x1_0000 && u / 0x1000 == a && u / 0x100 % 0x10 == b && u / 0x10 % 0x10 == c && u % 0x10 == d
  {
    var u := ((a * 16 + b) * 16 + c) * 16 + d;
    assert u / 0x10 == (a * 16 + b) * 16 + c;
    assert u / 0x100 == a * 16 + b;
  }

  lemma PlacesBack(u: nat)
    requires u < 0x1_0000
    ensures ((u / 0x1000 * 16 + u / 0x100 % 0x10) * 16 + u / 0x10 % 0x10) * 16 + u % 0x10 == u
  {
    assert u / 0x100 / 0x10 == u / 0x1000 && u / 0x10 / 0x10 == u / 0x100;
  }

  lemma HexValueBound(c: char)
    ensures HexValue(c).Some? ==> HexValue(c).value < 0x10
  {
  }

  /** Four digits are read as a code unit exactly when they write it, in lower or upper case or a mix of both. */
  lemma Hex4Exact(s: string, at: nat, unit: nat)
    requires at + 4 <= |s| && unit < 0x1_0000
    ensures IsHex4(s, at) && Hex4(s, at) == unit <==> Written4(s, at, unit)
  {
    hide HexValue, WrittenDigit;
    DigitExact(s[at], unit / 0x1000);
    DigitExact(s[at + 1], unit / 0x100 % 0x10);
    DigitExact(s[at + 2], unit / 0x10 % 0x10);
    DigitExact(s[at + 3], unit % 0x10);
    PlacesBack(unit);
    if IsHex4(s, at) && Hex4(s, at) == unit {
      HexValueBound(s[at]);
      HexValueBound(s[at + 1]);
      HexValueBound(s[at + 2]);
      HexValueBound(s[at + 3]);
      Places(HexValue(s[at]).value, HexValue(s[at + 1]).value, HexValue(s[at + 2]).value, HexValue(s[at + 3]).value);
    }
  }

  method ParseHex4(s: string, at: nat) returns (h: nat)
    requires at + 4 <= |s|
    ensures h == Hex4(s, at)
  {
    h := 0;
    var i := 0;
    while i < 4
      invariant 0 <= i <= 4
      invariant (i > 0 ==> HexValue(s[at]).Some?) && (i > 1 ==> HexValue(s[at + 1]).Some?)
      invariant (i > 2 ==> HexValue(s[at + 2]).Some?) && (i > 3 ==> HexValue(s[at + 3]).Some?)
      invariant i == 1 ==> h == HexValue(s[at]).value * 16
      invariant i == 2 ==> h == (HexValue(s[at]).value * 16 + HexValue(s[at + 1]).value) * 16
      invariant i == 3 ==>
                  h == ((HexValue(s[at]).value * 16 + HexValue(s[at + 1]).value) * 16 + HexValue(s[at + 2]).value) * 16
      invariant i == 4 ==> h == Hex4(s, at)
      invariant i == 0 ==> h == 0
    {
      var c := s[at + i];
      if '0' <= c <= '9' {
        h := h + ((c as int) - 48);
      } else if 'A' <= c <= 'F' {
        h := h + 10 + ((c as int) - 65);
      } else if 'a' <= c <= 'f' {
        h := h + 10 + ((c as int) - 97);
      } else {
        assert HexValue(s[at + i]).None?;
        return 0;
      }
      if i < 3 {
        h := h * 16;
      }
      i := i + 1;
    }
  }

  // ----- UTF-8 -----

  /** The Unicode scalar values. */
  predicate IsScalar(cp: nat) {
    cp < 0xD800 || 0xE000 <= cp < 0x11_0000
  }

  function Byte(n: nat): char
    requires n < 256
  {
    n as char
  }

  function Utf8Length(cp: nat): (n: nat)
    requires cp < 0x11_0000
  {
    if cp < 0x80 then 1 else if cp < 0x800 then 2 else if cp < 0x1_0000 then 3 else 4
  }

  /** The bytes that the code emits for a code point. */
  function Utf8Encode(cp: nat): (s: string)
    requires cp < 0x11_0000
    ensures |s| == Utf8Length(cp)
  {
    if cp < 0x80 then [Byte(cp)]
    else if cp < 0x800 then [Byte(0xC0 + cp / 0x40), Byte(0x80 + cp % 0x40)]
    else if cp < 0x1_0000 then
      [Byte(0xE0 + cp / 0x1000), Byte(0x80 + cp / 0x40 % 0x40), Byte(0x80 + cp % 0x40)]
    else
      [Byte(0xF0 + cp / 0x4_0000), Byte(0x80 + cp / 0x1000 % 0x40), Byte(0x80 + cp / 0x40 % 0x40), Byte(0x80 + cp % 0x40)]
  }

  /** The encoding loop: continuation bytes from the last one backwards, then the first byte. */
  method EncodeInto(codepoint: nat, output: array<char>, at: nat) returns (length: nat)
    requires codepoint < 0x11_0000 && at + Utf8Length(codepoint) <= output.Length
    modifies output
    ensures length == Utf8Length(codepoint)
    ensures output[..at + length] == old(output[..at]) + Utf8Encode(codepoint)
  {
    var mark := 0;
    if codepoint < 0x80 {
      length := 1;
    } else if codepoint < 0x800 {
      length, mark := 2, 0xC0;
    } else if codepoint < 0x1_0000 {
      length, mark := 3, 0xE0;
    } else {
      length, mark := 4, 0xF0;
    }
    var rest := codepoint;
    var position := length - 1;
    while position > 0
      invariant 0 <= position <= length - 1
      invariant position == length - 1 ==> rest == codepoint
      invariant position == length - 2 ==> rest == codepoint / 0x40
      invariant position == length - 3 ==> rest == codepoint / 0x1000
      invariant position == length - 4 ==> rest == codepoint / 0x4_0000
      invariant output[..at] == old(output[..at])
      invariant forall k :: position < k < length ==> output[at + k] == Utf8Encode(codepoint)[k]
    {
      output[at + position] := Byte(0x80 + rest % 0x40);
      rest := rest / 0x40;
      position := position - 1;
    }
    if length > 1 {
      output[at] := Byte(mark + rest);
    } else {
      output[at] := Byte(rest);
    }
  }

  predicate IsContinuation(c: char) {
    0x80 <= c as int < 0xC0
  }

  function Low6(c: char): nat
    requires IsContinuation(c)
  {
    (c as int) - 0x80
  }

  /** A reference decoder for one code point: shortest form only, no surrogates (RFC 3629, section 3). */
  function Utf8Decode(s: string): Option<nat> {
    if |s| == 1 && s[0] as int < 0x80 then Some(s[0] as int)
    else if |s| == 2 && 0xC0 <= s[0] as int < 0xE0 && IsContinuation(s[1]) then
      var cp := ((s[0] as int) - 0xC0) * 0x40 + Low6(s[1]);
      if cp >= 0x80 then Some(cp) else None
    else if |s| == 3 && 0xE0 <= s[0] as int < 0xF0 && IsContinuation(s[1]) && IsContinuation(s[2]) then
      var cp := ((s[0] as int) - 0xE0) * 0x1000 + Low6(s[1]) * 0x40 + Low6(s[2]);
      if cp >= 0x800 && IsScalar(cp) then Some(cp) else None
    else if |s| == 4 && 0xF0 <= s[0] as int < 0xF8 &&
            IsContinuation(s[1]) && IsContinuation(s[2]) && IsContinuation(s[3]) then
      var cp := ((s[0] as int) - 0xF0) * 0x4_0000 + Low6(s[1]) * 0x1000 + Low6(s[2]) * 0x40 + Low6(s[3]);
      if 0x1_0000 <= cp < 0x11_0000 then Some(cp) else None
    else None
  }

  /** The emitted bytes are the one and only UTF-8 encoding of the code point. */
  lemma Utf8Exact(cp: nat, s: string)
    requires IsScalar(cp)
    ensures Utf8Decode(s) == Some(cp) <==> s == Utf8Encode(cp)
  {
    Utf8Forth(cp);
    if Utf8Decode(s) == Some(cp) {
      Utf8Back(s);
    }
  }

  lemma Utf8Forth(cp: nat)
    requires IsScalar(cp)
    ensures Utf8Decode(Utf8Encode(cp)) == Some(cp)
  {
    if cp >= 0x1_0000 {
      FourBytes(cp);
    } else if cp >= 0x800 {
      ThreeBytes(cp);
    } else if cp >= 0x80 {
      Digits(cp);
    }
  }

  lemma ThreeBytes(cp: nat)
    requires 0x800 <= cp < 0x1_0000 && IsScalar(cp)
    ensures Utf8Decode(Utf8Encode(cp)) == Some(cp)
  {
    var a, b, c := cp / 0x1000, cp / 0x40 % 0x40, cp % 0x40;
    Digits(cp);
    assert a < 0x10 && a * 0x1000 + b * 0x40 + c == cp;
    var s := [Byte(0xE0 + a), Byte(0x80 + b), Byte(0x80 + c)];
    assert Utf8Encode(cp) == s;
  }

  lemma FourBytes(cp: nat)
    requires 0x1_0000 <= cp < 0x11_0000
    ensures Utf8Decode(Utf8Encode(cp)) == Some(cp)
  {
    var a, b, c, d := cp / 0x4_0000, cp / 0x1000 % 0x40, cp / 0x40 % 0x40, cp % 0x40;
    Digits(cp);
    assert a < 5 && a * 0x4_0000 + b * 0x1000 + c * 0x40 + d == cp;
    var s := [Byte(0xF0 + a), Byte(0x80 + b), Byte(0x80 + c), Byte(0x80 + d)];
    assert Utf8Encode(cp) == s;
  }

  /** A code point is made of its six-bit groups. */
  lemma Digits(cp: nat)
    requires cp < 0x11_0000
    ensures cp == cp / 0x40 * 0x40 + cp % 0x40
    ensures cp / 0x40 == cp / 0x1000 * 0x40 + cp / 0x40 % 0x40
    ensures cp / 0x1000 == cp / 0x4_0000 * 0x40 + cp / 0x1000 % 0x40
  {
    assert cp / 0x40 / 0x40 == cp / 0x1000;
    assert cp / 0x1000 / 0x40 == cp / 0x4_0000;
  }

  lemma Utf8Back(s: string)
    requires Utf8Decode(s).Some?
    ensures Utf8Decode(s).value < 0x11_0000 && s == Utf8Encode(Utf8Decode(s).value)
  {
    var cp := Utf8Decode(s).value;
    Digits(cp);
    if |s| == 3 {
      Groups((s[0] as int) - 0xE0, Low6(s[1]), Low6(s[2]));
    } else if |s| == 4 {
      Groups(((s[0] as int) - 0xF0) * 0x40 + Low6(s[1]), Low6(s[2]), Low6(s[3]));
    }
  }

  lemma Groups(a: nat, b: nat, c: nat)
    requires b < 0x40 && c < 0x40
    ensures (a * 0x1000 + b * 0x40 + c) % 0x40 == c
    ensures (a * 0x1000 + b * 0x40 + c) / 0x40 == a * 0x40 + b
    ensures (a * 0x1000 + b * 0x40 + c) / 0x1000 == a
  {
  }

  // ----- UTF-16 -----

  /** The code units of a scalar value (RFC 2781, section 2.1). */
  function Units(cp: nat): (r: seq<nat>)
    requires IsScalar(cp)
    ensures forall i :: 0 <= i < |r| ==> r[i] < 0x1_0000
  {
    if cp < 0x1_0000 then [cp]
    else [0xD800 + (cp - 0x1_0000) / 0x400, 0xDC00 + (cp - 0x1_0000) % 0x400]
  }

  /** What `utf16_literal_to_utf8` makes of the escape at `at`: the bytes and how much input they took. */
  function Transcode(s: string, at: nat, end: nat): (r: Option<(string, nat)>)
    requires at <= end <= |s|
    ensures r.Some? ==> (r.value.1 == 6 || r.value.1 == 12) && at + r.value.1 <= end
    ensures r.Some? ==> 1 <= |r.value.0| <= 4 && (r.value.1 == 6 ==> |r.value.0| <= 3)
  {
    if end - at < 6 then None
    else
      var first := Hex4(s, at + 2);
      if 0xDC00 <= first <= 0xDFFF then None
      else if 0xD800 <= first <= 0xDBFF then
        if end - (at + 6) < 6 || s[at + 6] != '\\' || s[at + 7] != 'u' then None
        else
          var second := Hex4(s, at + 8);
          if second < 0xDC00 || second > 0xDFFF then None
          else Some((Utf8Encode(0x1_0000 + first % 0x400 * 0x400 + second % 0x400), 12))
      else if first < 0x1_0000 then Some((Utf8Encode(first), 6))
      else None
  }

  lemma Hex4Bound(s: string, at: nat)
    requires at + 4 <= |s|
    ensures Hex4(s, at) < 0x1_0000
  {
  }

  /** What is read as a number other than zero are digits. */
  lemma DigitsThere(s: string, at: nat)
    requires at + 4 <= |s| && Hex4(s, at) > 0
    ensures IsHex4(s, at)
  {
  }

  /** One escape that writes a code unit. */
  predicate Spells1(s: string, at: nat, unit: nat)
    requires at + 6 <= |s| && unit < 0x1_0000
  {
    s[at] == '\\' && s[at + 1] == 'u' && Written4(s, at + 2, unit)
  }

  /** The escapes at `at` spell the code units of a scalar value. */
  predicate Spells(s: string, at: nat, end: nat, cp: nat)
    requires at <= end <= |s| && IsScalar(cp)
  {
    if cp < 0x1_0000 then at + 6 <= end && Spells1(s, at, cp)
    else at + 12 <= end && Spells1(s, at, Units(cp)[0]) && Spells1(s, at + 6, Units(cp)[1])
  }

  lemma Surrogates(cp: nat)
    requires 0x1_0000 <= cp < 0x11_0000
    ensures var (hi, lo) := (Units(cp)[0], Units(cp)[1]);
            0xD800 <= hi <= 0xDBFF && 0xDC00 <= lo <= 0xDFFF &&
            0x1_0000 + hi % 0x400 * 0x400 + lo % 0x400 == cp
  {
    var v := cp - 0x1_0000;
    assert v / 0x400 < 0x400;
    assert v == v / 0x400 * 0x400 + v % 0x400;
  }

  lemma PairOf(hi: nat, lo: nat)
    requires 0xD800 <= hi <= 0xDBFF && 0xDC00 <= lo <= 0xDFFF
    ensures var cp := 0x1_0000 + hi % 0x400 * 0x400 + lo % 0x400;
            0x1_0000 <= cp < 0x11_0000 && Units(cp) == [hi, lo]
  {
    var cp := 0x1_0000 + hi % 0x400 * 0x400 + lo % 0x400;
    assert (cp - 0x1_0000) / 0x400 == hi % 0x400 && (cp - 0x1_0000) % 0x400 == lo % 0x400;
  }

  /** An escape that spells a scalar value is turned into its UTF-8 encoding. */
  lemma TranscodeForth(s: string, at: nat, end: nat, cp: nat)
    requires at <= end <= |s| && IsScalar(cp) && Spells(s, at, end, cp)
    ensures Transcode(s, at, end) == Some((Utf8Encode(cp), 6 * |Units(cp)|))
  {
    hide Written4;
    Hex4Exact(s, at + 2, Units(cp)[0]);
    if cp >= 0x1_0000 {
      Surrogates(cp);
      Hex4Exact(s, at + 8, Units(cp)[1]);
    }
  }

  /** Whatever is accepted, if its digits are digits, spells a scalar value: surrogates only count in pairs. */
  lemma TranscodeBack(s: string, at: nat, end: nat) returns (cp: nat)
    requires at + 6 <= end <= |s| && s[at] == '\\' && s[at + 1] == 'u' && IsHex4(s, at + 2)
    requires Transcode(s, at, end).Some?
    ensures IsScalar(cp) && Spells(s, at, end, cp)
    ensures Transcode(s, at, end).value.0 == Utf8Encode(cp)
    ensures Utf8Decode(Transcode(s, at, end).value.0) == Some(cp)
  {
    hide Written4, Hex4, Utf8Encode, Utf8Decode;
    var first := Hex4(s, at + 2);
    Hex4Bound(s, at + 2);
    Hex4Exact(s, at + 2, first);
    if 0xD800 <= first <= 0xDBFF {
      var second := Hex4(s, at + 8);
      Hex4Bound(s, at + 8);
      Hex4Exact(s, at + 8, second);
      DigitsThere(s, at + 8);
      cp := 0x1_0000 + first % 0x400 * 0x400 + second % 0x400;
      PairOf(first, second);
    } else {
      cp := first;
    }
    Utf8Forth(cp);
  }

  /** Digits that are none are not refused: they count as code point zero. */
  lemma NonDigits(s: string, at: nat, end: nat)
    requires at + 6 <= end <= |s| && !IsHex4(s, at + 2)
    ensures Transcode(s, at, end) == Some(("\0", 6))
  {
  }

  /** The escapes at `at` spell some scalar value. */
  ghost predicate SpellsSome(s: string, at: nat, end: nat)
    requires at <= end <= |s|
  {
    exists cp :: IsScalar(cp) && Spells(s, at, end, cp)
  }

  /** An escape is accepted exactly when it spells a scalar value, or when its digits are none. */
  lemma AcceptedExact(s: string, at: nat, end: nat)
    requires at + 6 <= end <= |s| && s[at] == '\\' && s[at + 1] == 'u'
    ensures Transcode(s, at, end).Some? <==> SpellsSome(s, at, end) || !IsHex4(s, at + 2)
    ensures Transcode(s, at, end).Some? ==> (SpellsSome(s, at, end) <==> IsHex4(s, at + 2))
  {
    hide Transcode;
    if SpellsSome(s, at, end) {
      var cp :| IsScalar(cp) && Spells(s, at, end, cp);
      TranscodeForth(s, at, end, cp);
    }
    if !IsHex4(s, at + 2) {
      NonDigits(s, at, end);
    } else if Transcode(s, at, end).Some? {
      var cp := TranscodeBack(s, at, end);
    }
  }
}
