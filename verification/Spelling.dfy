/**
 The spellings of a string: which byte sequences between two quotes `parse_string` reads, and as
 which bytes. The spellings of RFC 8259 section 7 are among them, and some that it does not allow.
 */
module Spelling {
  import opened Wrappers
  import opened Utf16
  import opened StringLiteral
  import opened Parser
  import opened Texts

  /** The two-byte escapes, and what each of them stands for. */
  const SHORT := "\"\\/bfnrt"
  const MEANT := "\"\\/\U{8}\U{C}\n\r\t"

  /**
   A byte for itself; a two-byte escape; the escapes of a scalar value, two of them for one outside
   the basic plane; a `\u` with four bytes that are not all digits, which is read as code point zero.
   */
  datatype Piece = Raw(c: char) | Short(c: char, meant: char) | Unicode(text: string, cp: nat) | Odd(text: string)

  predicate IsShort(c: char, meant: char) {
    exists k :: 0 <= k < |SHORT| && SHORT[k] == c && MEANT[k] == meant
  }

  predicate ProperPiece(p: Piece) {
    match p
    case Raw(c) => c != '\\'
    case Short(c, meant) => IsShort(c, meant)
    case Unicode(t, cp) => IsScalar(cp) && |t| == 6 * |Units(cp)| && Spells(t, 0, |t|, cp)
    case Odd(t) => |t| == 6 && t[0] == '\\' && t[1] == 'u' && !IsHex4(t, 2)
  }

  function PieceText(p: Piece): string {
    match p
    case Raw(c) => [c]
    case Short(c, _) => ['\\', c]
    case Unicode(t, _) => t
    case Odd(t) => t
  }

  function PieceBytes(p: Piece): string {
    match p
    case Raw(c) => [c]
    case Short(_, meant) => [meant]
    case Unicode(_, cp) => if cp < 0x11_0000 then Utf8Encode(cp) else ""
    case Odd(_) => "\0"
  }

  function PiecesText(ps: seq<Piece>): string {
    if ps == [] then "" else PieceText(ps[0]) + PiecesText(ps[1..])
  }

  function PiecesBytes(ps: seq<Piece>): string {
    if ps == [] then "" else PieceBytes(ps[0]) + PiecesBytes(ps[1..])
  }

  /** Each backslash takes the byte behind it: no quote stands free, and no backslash is left at the end. */
  predicate Closed(t: string) {
    t == "" || (t[0] != '\"' && if t[0] == '\\' then |t| >= 2 && Closed(t[2..]) else Closed(t[1..]))
  }

  /**
   The text between the quotes is closed and made of the pieces; or the last piece is an escape that
   takes the closing quote as its second byte, when a `\u` without digits has shifted the pairs.
   */
  predicate ProperString(body: string, ps: seq<Piece>) {
    && Closed(body)
    && (forall i :: 0 <= i < |ps| ==> ProperPiece(ps[i]))
    && (PiecesText(ps) == body || (PiecesText(ps) == body + "\"" && ps != [] && ps[|ps| - 1].Short?))
  }

  /** The pieces of RFC 8259. */
  predicate Ordinary(ps: seq<Piece>) {
    forall i :: 0 <= i < |ps| ==> ProperPiece(ps[i]) && !ps[i].Odd? && ps[i] != Raw('\"')
  }

  function InQuotes(body: string): string { "\"" + (body + "\"") }

  // ----- the first scan -----

  lemma {:induction false} ClosedScan(s: string, i: nat, t: string)
    requires Closed(t) && TextAt(s, i, t + "\"")
    ensures ScanEnd(s, i) == Some(i + |t|)
    decreases |t|
  {
    SplitText(s, i, t, "\"");
    CharAt(s, i + |t|, "\"", 0);
    if t != "" {
      CharAt(s, i, t, 0);
      var n := if t[0] == '\\' then 2 else 1;
      assert t + "\"" == t[..n] + (t[n..] + "\"");
      SplitText(s, i, t[..n], t[n..] + "\"");
      ClosedScan(s, i + n, t[n..]);
    }
  }

  lemma {:induction false} ScanClosed(s: string, i: nat, end: nat)
    requires i <= |s| && ScanEnd(s, i) == Some(end)
    ensures i <= end < |s| && s[end] == '\"' && Closed(s[i..end])
    decreases |s| - i
  {
    if i < end {
      var n := if s[i] == '\\' then 2 else 1;
      ScanClosed(s, i + n, end);
      assert s[i..end][n..] == s[i + n..end];
    }
  }

  // ----- one piece -----

  lemma ShortExact(c: char, meant: char)
    ensures Unescaped(c) == Some(meant) <==> IsShort(c, meant)
  {
    var short, means := SHORT, MEANT;
    assert short[0] == '\"' == means[0] && short[1] == '\\' == means[1] && short[2] == '/' == means[2];
    assert short[3] == 'b' && short[4] == 'f' && short[5] == 'n' && short[6] == 'r' && short[7] == 't';
    assert means[3] == '\U{8}' && means[4] == '\U{C}' && means[5] == '\n' && means[6] == '\r' && means[7] == '\t';
  }

  /** Where an escape stands does not matter. */
  lemma SpellsThere(s: string, i: nat, t: string, end: nat, cp: nat)
    requires TextAt(s, i, t) && IsScalar(cp) && |t| == 6 * |Units(cp)| && i + |t| <= end <= |s|
    ensures Spells(t, 0, |t|, cp) <==> Spells(s, i, end, cp)
  {
    hide Written4;
    assert forall k :: 0 <= k < |t| ==> s[i + k] == t[k] by {
      forall k | 0 <= k < |t| ensures s[i + k] == t[k] { CharAt(s, i, t, k); }
    }
    assert s[i + 2..i + 6] == t[2..6] && (cp >= 0x1_0000 ==> s[i + 8..i + 12] == t[8..12]);
    WrittenThere(s, i + 2, t, 2, Units(cp)[0]);
    if cp >= 0x1_0000 {
      WrittenThere(s, i + 8, t, 8, Units(cp)[1]);
    }
  }

  lemma WrittenThere(s: string, i: nat, t: string, k: nat, unit: nat)
    requires i + 4 <= |s| && k + 4 <= |t| && unit < 0x1_0000
    requires s[i..i + 4] == t[k..k + 4]
    ensures Written4(s, i, unit) <==> Written4(t, k, unit)
    ensures IsHex4(s, i) <==> IsHex4(t, k)
  {
    hide WrittenDigit, HexValue;
    var a, b := s[i..i + 4], t[k..k + 4];
    assert s[i] == a[0] && s[i + 1] == a[1] && s[i + 2] == a[2] && s[i + 3] == a[3];
    assert t[k] == b[0] && t[k + 1] == b[1] && t[k + 2] == b[2] && t[k + 3] == b[3];
  }

  /** What the second scan makes of a piece that stands in front of the closing quote. */
  lemma PieceDecodes(s: string, i: nat, p: Piece, end: nat)
    requires ProperPiece(p) && TextAt(s, i, PieceText(p)) && end < |s|
    requires i + |PieceText(p)| <= end || (p.Short? && i + 1 == end)
    ensures |PieceText(p)| >= 1
    ensures StringLiteral.Decode(s, i, end) == Prepend(PieceBytes(p), StringLiteral.Decode(s, i + |PieceText(p)|, end))
  {
    hide Transcode, Spells, Utf8Encode, Unescaped, IsShort;
    CharAt(s, i, PieceText(p), 0) by { PieceStart(p); }
    match p
    case Raw(c) =>
    case Short(c, meant) =>
      CharAt(s, i, PieceText(p), 1);
      ShortIsNoU(c, meant);
      ShortExact(c, meant);
    case Unicode(t, cp) =>
      PieceStart(p);
      CharAt(s, i, t, 1);
      SpellsThere(s, i, t, end, cp);
      TranscodeForth(s, i, end, cp);
    case Odd(t) =>
      CharAt(s, i, t, 1);
      OddThere(s, i, t);
      NonDigits(s, i, end);
  }

  lemma PieceStart(p: Piece)
    requires ProperPiece(p)
    ensures PieceText(p) != ""
    ensures !p.Raw? ==> |PieceText(p)| >= 2 && PieceText(p)[0] == '\\'
    ensures p.Unicode? || p.Odd? ==> PieceText(p)[1] == 'u'
  {
    hide Written4;
  }

  lemma ShortIsNoU(c: char, meant: char)
    requires IsShort(c, meant)
    ensures c != 'u'
  {
    ShortExact(c, meant);
  }

  lemma OddThere(s: string, i: nat, t: string)
    requires TextAt(s, i, t) && |t| == 6
    ensures IsHex4(s, i + 2) <==> IsHex4(t, 2)
  {
    hide IsHex4;
    assert s[i + 2..i + 6] == s[i..i + 6][2..6] == t[2..6];
    WrittenThere(s, i + 2, t, 2, 0);
  }

  // ----- the second scan -----

  lemma {:induction false} LastPiece(ps: seq<Piece>)
    requires ps != []
    ensures |PiecesText(ps)| >= |PieceText(ps[|ps| - 1])|
  {
    if |ps| > 1 {
      assert ps[1..][|ps| - 2] == ps[|ps| - 1];
      LastPiece(ps[1..]);
    }
  }

  lemma {:induction false} PiecesDecode(s: string, i: nat, ps: seq<Piece>, end: nat)
    requires forall k :: 0 <= k < |ps| ==> ProperPiece(ps[k])
    requires TextAt(s, i, PiecesText(ps)) && end < |s|
    requires i + |PiecesText(ps)| == end || (i + |PiecesText(ps)| == end + 1 && (ps == [] || ps[|ps| - 1].Short?))
    ensures StringLiteral.Decode(s, i, end) == Bytes(PiecesBytes(ps))
    decreases |ps|
  {
    hide ProperPiece, PieceText, PieceBytes, StringLiteral.Decode;
    if ps == [] {
      NothingLeft(s, i, end);
    } else {
      var p := ps[0];
      SplitText(s, i, PieceText(p), PiecesText(ps[1..]));
      if |ps| > 1 {
        assert ps[1..][|ps| - 2] == ps[|ps| - 1];
        LastPiece(ps[1..]);
      }
      ShortLength(ps[|ps| - 1]);
      PieceDecodes(s, i, p, end);
      PiecesDecode(s, i + |PieceText(p)|, ps[1..], end);
    }
  }

  lemma NothingLeft(s: string, i: nat, end: nat)
    requires i == end < |s| || i == end + 1 <= |s|
    ensures StringLiteral.Decode(s, i, end) == Bytes("")
  {
  }

  lemma ShortLength(p: Piece)
    ensures p.Short? ==> |PieceText(p)| == 2
  {
  }

  /** Whatever the second scan decodes is made of pieces. */
  lemma {:induction false} DecodedPieces(s: string, i: nat, end: nat) returns (ps: seq<Piece>)
    requires i <= end + 1 && end < |s| && s[end] == '\"' && StringLiteral.Decode(s, i, end).Bytes?
    ensures forall k :: 0 <= k < |ps| ==> ProperPiece(ps[k])
    ensures TextAt(s, i, PiecesText(ps)) && PiecesBytes(ps) == StringLiteral.Decode(s, i, end).bytes
    ensures i + |PiecesText(ps)| == end || (i + |PiecesText(ps)| == end + 1 && (ps == [] || ps[|ps| - 1].Short?))
    decreases end + 1 - i
  {
    hide ProperPiece, PieceBytes, PieceText;
    if i >= end {
      ps := [];
    } else {
      var p := FirstPiece(s, i, end);
      var rest := DecodedPieces(s, i + |PieceText(p)|, end);
      ps := [p] + rest;
      assert ps[1..] == rest;
      JoinText(s, i, PieceText(p), PiecesText(rest));
    }
  }

  lemma FirstPiece(s: string, i: nat, end: nat) returns (p: Piece)
    requires i < end < |s| && s[end] == '\"' && StringLiteral.Decode(s, i, end).Bytes?
    ensures ProperPiece(p) && TextAt(s, i, PieceText(p))
    ensures 1 <= |PieceText(p)| && (i + |PieceText(p)| <= end || (p.Short? && i + |PieceText(p)| == end + 1))
    ensures StringLiteral.Decode(s, i, end) == Prepend(PieceBytes(p), StringLiteral.Decode(s, i + |PieceText(p)|, end))
  {
    hide IsShort, Utf8Encode, Unescaped;
    if s[i] != '\\' {
      p := Raw(s[i]);
    } else if s[i + 1] == 'u' {
      p := FirstUnicode(s, i, end);
      hide Transcode;
    } else {
      p := Short(s[i + 1], Unescaped(s[i + 1]).value);
      ShortExact(s[i + 1], p.meant);
    }
  }

  lemma FirstUnicode(s: string, i: nat, end: nat) returns (p: Piece)
    requires i + 1 < end + 1 < |s| + 1 && s[i] == '\\' && s[i + 1] == 'u' && Transcode(s, i, end).Some?
    ensures ProperPiece(p) && TextAt(s, i, PieceText(p)) && |PieceText(p)| >= 1 && i + |PieceText(p)| <= end
    ensures Transcode(s, i, end) == Some((PieceBytes(p), |PieceText(p)|))
  {
    hide Utf8Encode, IsHex4, Transcode, Spells;
    SixLeft(s, i, end);
    if IsHex4(s, i + 2) {
      var cp := TranscodeBack(s, i, end);
      TranscodeForth(s, i, end, cp);
      var t := s[i..i + 6 * |Units(cp)|];
      Slice(s, i, i + |t|);
      SpellsThere(s, i, t, end, cp);
      p := Unicode(t, cp);
    } else {
      NonDigits(s, i, end);
      var t := s[i..i + 6];
      Slice(s, i, i + 6);
      OddThere(s, i, t);
      p := Odd(t);
    }
  }

  lemma SixLeft(s: string, i: nat, end: nat)
    requires i <= end <= |s| && Transcode(s, i, end).Some?
    ensures i + Transcode(s, i, end).value.1 <= end && Transcode(s, i, end).value.1 >= 6
  {
  }

  // ----- whole strings -----

  /** Every spelling is read as the bytes that its pieces stand for, up to the first NUL. */
  lemma SpelledParses(s: string, i: nat, body: string, ps: seq<Piece>)
    requires ProperString(body, ps) && TextAt(s, i, InQuotes(body))
    ensures ParseString(s, i) == Parsed(CString(PiecesBytes(ps)), i + |body| + 2)
  {
    hide StringLiteral.Decode, ScanEnd, Closed, PiecesText, PiecesBytes, ProperPiece, TextAt;
    SplitText(s, i, "\"", body + "\"");
    CharAt(s, i, "\"", 0);
    ClosedScan(s, i + 1, body);
    SplitText(s, i + 1, body, "\"");
    PiecesDecode(s, i + 1, ps, i + 1 + |body|);
  }

  /** Whatever `parse_string` reads is a spelling. */
  lemma ParsedSpelling(s: string, i: nat) returns (body: string, ps: seq<Piece>)
    requires i < |s| && ParseString(s, i).Parsed?
    ensures ProperString(body, ps) && TextAt(s, i, InQuotes(body))
    ensures ParseString(s, i) == Parsed(CString(PiecesBytes(ps)), i + |body| + 2)
  {
    hide StringLiteral.Decode, ScanEnd, Closed, PiecesText, PiecesBytes, ProperPiece, TextAt;
    var end := ScanEnd(s, i + 1).value;
    ScanClosed(s, i + 1, end);
    body := s[i + 1..end];
    ps := DecodedPieces(s, i + 1, end);
    Slice(s, i + 1, end);
    OneChar(s, end);
    OneChar(s, i);
    assert [s[end]] == "\"" == [s[i]];
    NoPieces();
    JoinText(s, i + 1, body, "\"");
    SameText(s, i + 1, PiecesText(ps), if i + 1 + |PiecesText(ps)| == end then body else body + "\"");
    JoinText(s, i, "\"", body + "\"");
  }

  lemma NoPieces()
    ensures PiecesText([]) == ""
  {
  }

  lemma SameText(s: string, i: nat, a: string, b: string)
    requires TextAt(s, i, a) && TextAt(s, i, b) && |a| == |b|
    ensures a == b
  {
  }

  /** All spellings that RFC 8259 allows are such spellings. */
  lemma {:induction false} OrdinarySpelling(ps: seq<Piece>)
    requires Ordinary(ps)
    ensures ProperString(PiecesText(ps), ps)
    decreases |ps|
  {
    hide ProperPiece, PieceText;
    if ps != [] {
      OrdinarySpelling(ps[1..]);
      PieceCloses(ps[0], PiecesText(ps[1..]));
    }
  }

  lemma PieceCloses(p: Piece, t: string)
    requires ProperPiece(p) && !p.Odd? && p != Raw('\"') && Closed(t)
    ensures Closed(PieceText(p) + t)
  {
    hide Closed, IsShort;
    match p
    case Raw(c) => CloseOne([c], t);
    case Short(c, _) => CloseTwo(['\\', c], t);
    case Unicode(u, cp) =>
      if cp < 0x1_0000 {
        assert u[6..] + t == t && u[0..] + t == u + t;
        UnitCloses(u, 0, cp, t);
      } else {
        assert u[12..] + t == t && u[0..] + t == u + t;
        UnitCloses(u, 6, Units(cp)[1], t);
        UnitCloses(u, 0, Units(cp)[0], t);
      }
  }

  lemma CloseOne(a: string, t: string)
    requires |a| == 1 && a[0] != '\"' && a[0] != '\\' && Closed(t)
    ensures Closed(a + t)
  {
    assert (a + t)[1..] == t;
  }

  lemma CloseTwo(a: string, t: string)
    requires |a| == 2 && a[0] == '\\' && Closed(t)
    ensures Closed(a + t)
  {
    assert (a + t)[2..] == t;
  }

  lemma DigitIsPlain(c: char, d: nat)
    requires d < 0x10 && WrittenDigit(c, d)
    ensures c != '\"' && c != '\\'
  {
    DigitExact(c, d);
  }

  /** One escape in front of a closed text. */
  lemma UnitCloses(u: string, k: nat, unit: nat, t: string)
    requires k + 6 <= |u| && unit < 0x1_0000 && Spells1(u, k, unit) && Closed(u[k + 6..] + t)
    ensures Closed(u[k..] + t)
  {
    hide Closed, WrittenDigit;
    var rest := u[k + 6..] + t;
    DigitIsPlain(u[k + 5], unit % 0x10);
    DigitIsPlain(u[k + 4], unit / 0x10 % 0x10);
    DigitIsPlain(u[k + 3], unit / 0x100 % 0x10);
    DigitIsPlain(u[k + 2], unit / 0x1000);
    CloseOne(u[k + 5..k + 6], rest);
    CloseOne(u[k + 4..k + 5], u[k + 5..k + 6] + rest);
    CloseOne(u[k + 3..k + 4], u[k + 4..k + 5] + (u[k + 5..k + 6] + rest));
    CloseOne(u[k + 2..k + 3], u[k + 3..k + 4] + (u[k + 4..k + 5] + (u[k + 5..k + 6] + rest)));
    var four := u[k + 2..k + 3] + (u[k + 3..k + 4] + (u[k + 4..k + 5] + (u[k + 5..k + 6] + rest)));
    CloseTwo(u[k..k + 2], four);
    assert u[k..] + t == u[k..k + 2] + four;
  }
}
