/** Printed strings and numbers are among the spellings, and parse back to themselves. */
module LiteralRoundTrip {
  import opened Json
  import opened Decimal
  import opened PrintText
  import opened Utf16
  import opened StringLiteral
  import opened Parser
  import opened Spelling
  import opened Layouts
  import opened LayoutParses

  // ----- strings -----

  /** How a byte is printed. */
  function PieceOf(c: char): Piece {
    if c == '\"' || c == '\\' then Short(c, c)
    else if c == '\U{8}' then Short('b', c)
    else if c == '\U{C}' then Short('f', c)
    else if c == '\n' then Short('n', c)
    else if c == '\r' then Short('r', c)
    else if c == '\t' then Short('t', c)
    else if c < ' ' then Unicode(Escape(c), c as int)
    else Raw(c)
  }

  function PiecesOf(t: string): (r: seq<Piece>)
    ensures |r| == |t|
  {
    if t == "" then [] else [PieceOf(t[0])] + PiecesOf(t[1..])
  }

  lemma ShortPiece(c: char)
    requires PieceOf(c).Short?
    ensures ProperPiece(PieceOf(c))
  {
    ShortExact(PieceOf(c).c, c);
  }

  /** A control byte is written with two zeros and its two digits. */
  lemma ControlPiece(c: char)
    requires PieceOf(c).Unicode?
    ensures ProperPiece(PieceOf(c)) && PieceBytes(PieceOf(c)) == [c]
  {
    var e, n := Escape(c), c as int;
    assert e == ['\\', 'u', '0', '0', HexDigit(n / 16), HexDigit(n % 16)];
    DigitExact('0', 0);
    DigitExact(HexDigit(n / 16), n / 16);
    DigitExact(HexDigit(n % 16), n % 16);
    hide WrittenDigit;
    assert Written4(e, 2, n);
  }

  /**
   The bytes that have a two-byte escape are printed with it, except the slash; other control bytes
   with two zeros and two digits in lower case.
   */
  lemma PrintedForm(c: char, k: nat)
    requires k < |SHORT| && SHORT[k] != '/'
    ensures c == MEANT[k] ==> Escape(c) == ['\\', SHORT[k]]
    ensures c < ' ' && c !in MEANT ==> Escape(c) == "\\u00" + [LOWER[(c as int) / 0x10], LOWER[(c as int) % 0x10]]
    ensures c >= ' ' && c !in MEANT ==> Escape(c) == [c]
    ensures Escape('/') == "/"
  {
    var short, means := SHORT, MEANT;
    assert means[0] == '\"' && means[1] == '\\' && means[2] == '/' && means[3] == '\U{8}';
    assert means[4] == '\U{C}' && means[5] == '\n' && means[6] == '\r' && means[7] == '\t';
    assert short[0] == '\"' && short[1] == '\\' && short[2] == '/' && short[3] == 'b';
    assert short[4] == 'f' && short[5] == 'n' && short[6] == 'r' && short[7] == 't';
    if c < ' ' {
      LowerDigit((c as int) / 0x10);
      LowerDigit((c as int) % 0x10);
    }
  }

  lemma LowerDigit(d: nat)
    requires d < 0x10
    ensures HexDigit(d) == LOWER[d]
  {
    DigitExact(HexDigit(d), d);
    assert d >= 10 ==> UPPER[d] < 'a' by { DigitExact(UPPER[d], d); }
  }

  /** A printed byte is one of the pieces of RFC 8259, and stands for itself. */
  lemma PrintedPiece(c: char)
    ensures var p := PieceOf(c);
            ProperPiece(p) && !p.Odd? && p != Raw('\"') && PieceText(p) == Escape(c) && PieceBytes(p) == [c]
  {
    if PieceOf(c).Short? {
      ShortPiece(c);
    } else if PieceOf(c).Unicode? {
      ControlPiece(c);
    }
    hide ProperPiece;
  }

  lemma {:induction false} PrintedPieces(t: string)
    ensures Ordinary(PiecesOf(t)) && PiecesText(PiecesOf(t)) == EscapeAll(t) && PiecesBytes(PiecesOf(t)) == t
  {
    hide Escape, PieceOf, PieceText, PieceBytes, ProperPiece;
    if t != "" {
      PrintedPiece(t[0]);
      PrintedPieces(t[1..]);
      assert [t[0]] + t[1..] == t;
    }
  }

  lemma {:induction false} NoNulCString(t: string)
    requires NoNul(t)
    ensures CString(t) == t
  {
    if t != "" {
      NoNulCString(t[1..]);
    }
  }

  /** What `print_string_ptr` prints is a proper spelling of the string. */
  lemma PrintedSpelling(t: string)
    requires NoNul(t)
    ensures ProperString(EscapeAll(t), PiecesOf(t)) && CString(PiecesBytes(PiecesOf(t))) == t
    ensures InQuotes(EscapeAll(t)) == Quote(t)
  {
    hide ProperString, PiecesOf, PiecesText, PiecesBytes, EscapeAll, CString;
    PrintedPieces(t);
    OrdinarySpelling(PiecesOf(t));
    NoNulCString(t);
  }

  /** `parse_string` inverts `print_string_ptr` on every C string. */
  lemma QuotedParses(s: string, i: nat, t: string)
    requires TextAt(s, i, Quote(t)) && NoNul(t)
    ensures ParseString(s, i) == Parsed(t, i + |Quote(t)|)
  {
    hide ProperString, PiecesOf, PiecesText, PiecesBytes, EscapeAll, CString, ParseString;
    PrintedSpelling(t);
    SpelledParses(s, i, EscapeAll(t), PiecesOf(t));
  }

  // ----- numbers -----

  lemma IntLength(n: int)
    requires INT_MIN <= n <= INT_MAX
    ensures 1 <= |SignedDec(n)| <= 11
    ensures forall k :: 0 <= k < |SignedDec(n)| ==> IsNumeral(SignedDec(n)[k])
  {
    var m := if n < 0 then -n else n;
    assert Pow10(10) == 10 * Pow10(9) && Pow10(9) == 10 * Pow10(8) && Pow10(8) == 10 * Pow10(7);
    assert Pow10(7) == 10 * Pow10(6) && Pow10(6) == 10 * Pow10(5) && Pow10(5) == 10 * Pow10(4);
    assert Pow10(4) == 10 * Pow10(3) && Pow10(3) == 10 * Pow10(2) && Pow10(2) == 100;
    DecBound(m, 10);
  }

  function Magnitude(n: int): nat { if n < 0 then -n else n }

  /** What `print_number` prints of an `int` is a proper numeral of it. */
  lemma PrintedNumeral(n: Int)
    ensures ProperNumeral(n < 0, Dec(Magnitude(n))) && Signed(n < 0, Dec(Magnitude(n))) == n
    ensures Sign(n < 0) + Dec(Magnitude(n)) == SignedDec(n)
  {
    hide Dec, Value;
    IntLength(n);
    ValueDec(Magnitude(n));
  }

  /** `parse_number` inverts `print_number` on every `int`. */
  lemma IntParses(s: string, i: nat, n: Int)
    requires TextAt(s, i, SignedDec(n)) && Stops(s, i + |SignedDec(n)|)
    ensures ParseNumber(s, i) == Ok(Num(n), i + |SignedDec(n)|)
  {
    hide ParseNumber, Dec, Value;
    PrintedNumeral(n);
    NumeralParses(s, i, n < 0, Dec(Magnitude(n)));
  }
}
