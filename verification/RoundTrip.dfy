/** The printed text of a tree is one of its layouts; printed trees parse back to themselves. */
module RoundTrip {
  import opened Json
  import opened Decimal
  import opened PrintText
  import opened StringLiteral
  import opened Parser
  import opened Spelling
  import opened Layouts
  import opened LayoutParses
  import opened LiteralRoundTrip
  import opened NestingLimit

  /** Trees that can be printed without loss: valid nodes and C strings. */
  predicate Plain(j: Json)
    decreases j
  {
    match j
    case Invalid => false
    case Str(s) => NoNul(s)
    case Arr(items) => forall i :: 0 <= i < |items| ==> Plain(items[i])
    case Obj(ms) => forall i :: 0 <= i < |ms| ==> NoNul(ms[i].key) && Plain(ms[i].value)
    case _ => true
  }

  predicate PlainItems(items: seq<Json>) {
    forall i :: 0 <= i < |items| ==> Plain(items[i])
  }

  predicate PlainMembers(ms: seq<Member>) {
    forall i :: 0 <= i < |ms| ==> NoNul(ms[i].key) && Plain(ms[i].value)
  }

  // ----- the printed layout -----

  /** A new line with its indentation, when there is formatting. */
  function Line(format: bool, d: nat): string { if format then "\n" + Tabs(d) else "" }

  function Gap(format: bool, gap: string): string { if format then gap else "" }

  /**
   How a tree at nesting depth `d` is printed. Without formatting there is no blank at all. With it, a
   space stands behind each comma of an array and a tab behind each colon, and every member and every
   closing brace begins a line, with as many tabs in front as containers are open there.
   */
  function Printed(j: Json, format: bool, d: nat): Layout
    decreases j
  {
    match j
    case Num(n) => Numeral(n < 0, Dec(Magnitude(n)))
    case Str(t) => Literal(EscapeAll(t), PiecesOf(t))
    case Arr(items) => Brackets("", PrintedItems(items, format, d + 1, ""))
    case Obj(ms) => Braces(Line(format, d), PrintedMembers(ms, format, d + 1))
    case _ => Word(j)
  }

  function PrintedItems(items: seq<Json>, format: bool, d: nat, before: string): (r: seq<Item>)
    ensures |r| == |items| && (items != [] ==> r[0].before == before)
    decreases items
  {
    if items == [] then []
    else [Item(before, Printed(items[0], format, d), "")] + PrintedItems(items[1..], format, d, Gap(format, " "))
  }

  function PrintedMembers(ms: seq<Member>, format: bool, d: nat): (r: seq<Entry>)
    requires d > 0
    ensures |r| == |ms| && (ms != [] ==> r[0].before == Line(format, d))
    decreases ms
  {
    if ms == [] then []
    else
      var key, value := ms[0].key, Printed(ms[0].value, format, d);
      var after := if |ms| == 1 then Line(format, d - 1) else "";
      [Entry(Line(format, d), EscapeAll(key), PiecesOf(key), "", Gap(format, "\t"), value, after)] +
      PrintedMembers(ms[1..], format, d)
  }

  lemma Blanks(format: bool, d: nat)
    ensures Blank("") && Blank(Line(format, d)) && Blank(Gap(format, "\t")) && Blank(Gap(format, " "))
  {
  }

  /** The layout is proper, and writes the tree. */
  lemma {:induction false} PrintedProper(j: Json, format: bool, d: nat)
    requires Plain(j)
    ensures Proper(Printed(j, format, d)) && Tree(Printed(j, format, d)) == j
    decreases j
  {
    hide ProperString, ProperNumeral, EscapeAll, PiecesBytes, PiecesOf, Dec, ProperItem, ProperEntry, CString;
    match j
    case Num(n) => PrintedNumeral(n);
    case Str(t) => PrintedSpelling(t);
    case Arr(items) => ItemsProper(items, format, d + 1, ""); Blanks(format, d);
    case Obj(ms) => MembersProper(ms, format, d + 1); Blanks(format, d);
    case _ =>
  }

  lemma {:induction false} ItemsProper(items: seq<Json>, format: bool, d: nat, before: string)
    requires PlainItems(items) && Blank(before)
    ensures var r := PrintedItems(items, format, d, before);
            (forall k :: 0 <= k < |r| ==> ProperItem(r[k])) && ItemsOf(r) == items
    decreases items
  {
    hide Proper, Tree, Printed, Blank, Gap;
    if items != [] {
      Blanks(format, d);
      PrintedProper(items[0], format, d);
      ItemsProper(items[1..], format, d, Gap(format, " "));
      var rest := PrintedItems(items[1..], format, d, Gap(format, " "));
      assert PrintedItems(items, format, d, before)[1..] == rest;
      assert items == [items[0]] + items[1..];
    }
  }

  lemma {:induction false} MembersProper(ms: seq<Member>, format: bool, d: nat)
    requires PlainMembers(ms) && d > 0
    ensures var r := PrintedMembers(ms, format, d);
            (forall k :: 0 <= k < |r| ==> ProperEntry(r[k])) && MembersOf(r) == ms
    decreases ms
  {
    hide Proper, ProperString, Tree, Printed, Blank, Gap, Line, EscapeAll, PiecesOf, PiecesBytes, CString;
    if ms != [] {
      Blanks(format, d);
      Blanks(format, d - 1);
      PrintedSpelling(ms[0].key);
      PrintedProper(ms[0].value, format, d);
      MembersProper(ms[1..], format, d);
      assert PrintedMembers(ms, format, d)[1..] == PrintedMembers(ms[1..], format, d);
      assert ms == [ms[0]] + ms[1..];
    }
  }

  /** The printed text is that of the layout. */
  lemma {:induction false} PrintedText(j: Json, format: bool, d: nat)
    requires Plain(j)
    ensures Written(Printed(j, format, d)) == Text(j, format, d)
    decreases j, 0
  {
    hide EscapeAll, Dec, PrintedItems, PrintedMembers, ItemsText, MembersText, Line, ItemsFrom, EntriesFrom;
    match j
    case Num(n) => PrintedNumeral(n);
    case Str(t) =>
    case Arr(items) =>
      if items == [] { NoItems(format, d); } else { ItemsPrinted(items, format, d + 1, ""); }
    case Obj(ms) =>
      if ms == [] { NoMembers(format, d); } else { MembersPrinted(ms, format, d + 1); OpenBrace(ms, format, d); }
    case _ =>
  }

  lemma NoItems(format: bool, d: nat)
    ensures Printed(Arr([]), format, d) == Brackets("", []) && Text(Arr([]), format, d) == "[]"
  {
  }

  lemma NoMembers(format: bool, d: nat)
    ensures Written(Printed(Obj([]), format, d)) == Text(Obj([]), format, d)
  {
    hide Tabs;
  }

  function Closing(format: bool, d: nat): string { Gap(format, Tabs(d)) + "}" }

  lemma OpenBrace(ms: seq<Member>, format: bool, d: nat)
    ensures Text(Obj(ms), format, d) == "{" + (Gap(format, "\n") + (MembersText(ms, format, d + 1) + Closing(format, d)))
  {
    hide Tabs, MembersText;
    var inner, close := MembersText(ms, format, d + 1), Closing(format, d);
    assert Text(Obj(ms), format, d) == ("{" + Gap(format, "\n")) + inner + close;
    assert ("{" + Gap(format, "\n")) + inner + close == "{" + (Gap(format, "\n") + (inner + close));
  }

  lemma {:induction false} ItemsPrinted(items: seq<Json>, format: bool, d: nat, before: string)
    requires items != [] && PlainItems(items)
    ensures ItemsFrom(PrintedItems(items, format, d, before)) == ItemsText(items, format, d) + "]"
    decreases items, 1
  {
    hide Text, Written, Printed;
    PrintedText(items[0], format, d);
    var r := PrintedItems(items, format, d, before);
    assert r[0].value == Printed(items[0], format, d) && r[0].after == "";
    if |items| > 1 {
      ItemsPrinted(items[1..], format, d, Gap(format, " "));
      assert r[1..] == PrintedItems(items[1..], format, d, Gap(format, " "));
      assert "," + Gap(format, " ") == ItemSeparator(false, format);
      Regroup(Text(items[0], format, d), ",", Gap(format, " "), ItemsText(items[1..], format, d), "]");
    } else {
      assert ItemsText(items[1..], format, d) == "";
    }
  }

  lemma Regroup(a: string, b: string, c: string, e: string, f: string)
    ensures (a + ((b + c) + e)) + f == a + ("" + (b + (c + (e + f))))
  {
  }

  lemma {:induction false} MembersPrinted(ms: seq<Member>, format: bool, d: nat)
    requires ms != [] && PlainMembers(ms) && d > 0
    ensures Line(format, d) + EntriesFrom(PrintedMembers(ms, format, d)) ==
            Gap(format, "\n") + (MembersText(ms, format, d) + Closing(format, d - 1))
    decreases ms, 1
  {
    hide Text, Written, Printed, EscapeAll, PiecesOf, Tabs, Line, Closing, InQuotes, KeyText, MemberSeparator;
    PrintedText(ms[0].value, format, d);
    var r, t := PrintedMembers(ms, format, d), Text(ms[0].value, format, d);
    assert r[0].value == Printed(ms[0].value, format, d) && r[0].after == if |ms| == 1 then Line(format, d - 1) else "";
    if |ms| > 1 {
      MembersPrinted(ms[1..], format, d);
      assert r[1..] == PrintedMembers(ms[1..], format, d);
    } else {
      assert MembersText(ms[1..], format, d) == "";
    }
    Between(|ms| == 1, format, d);
    OneMember(ms[0].key, t, MemberSeparator(|ms| == 1, format), MembersText(ms[1..], format, d), Closing(format, d - 1),
              r[0].after + EntriesRest(r), format, d);
  }

  /** What stands behind a member: a comma and the next line, or the line of the closing brace. */
  lemma Between(last: bool, format: bool, d: nat)
    requires d > 0
    ensures MemberSeparator(last, format) == (if last then "" else ",") + Gap(format, "\n")
    ensures Line(format, d - 1) + "}" == Gap(format, "\n") + Closing(format, d - 1)
  {
    hide Tabs;
  }

  lemma OneMember(key: string, t: string, separator: string, more: string, close: string, behind: string, format: bool, d: nat)
    requires separator + (more + close) == behind
    ensures Line(format, d) + (InQuotes(EscapeAll(key)) + ("" + (":" + (Gap(format, "\t") + (t + behind))))) ==
            Gap(format, "\n") + ((KeyText(key, format, d) + (t + (separator + more))) + close)
  {
    hide EscapeAll, Tabs;
    assert KeyText(key, format, d) == Gap(format, Tabs(d)) + (InQuotes(EscapeAll(key)) + (":" + Gap(format, "\t")));
    var q, tab := InQuotes(EscapeAll(key)), Gap(format, "\t");
    hide InQuotes, KeyText, Gap;
    assert (separator + more) + close == behind;
    assert (KeyText(key, format, d) + (t + (separator + more))) + close == KeyText(key, format, d) + (t + behind);
    assert (q + (":" + tab)) + (t + behind) == q + ("" + (":" + (tab + (t + behind))));
  }

  // ----- what formatting adds -----

  /** No blank at all outside the strings. */
  predicate Bare(l: Layout)
    decreases l
  {
    match l
    case Brackets(blank, items) => blank == "" && forall k :: 0 <= k < |items| ==> BareItem(items[k])
    case Braces(blank, entries) => blank == "" && forall k :: 0 <= k < |entries| ==> BareEntry(entries[k])
    case _ => true
  }

  predicate BareItem(x: Item)
    decreases x
  {
    x.before == "" && x.after == "" && Bare(x.value)
  }

  predicate BareEntry(e: Entry)
    decreases e
  {
    e.before == "" && e.gap == "" && e.ahead == "" && e.after == "" && Bare(e.value)
  }

  /**
   A space behind each comma of an array, a tab behind each colon, and a new line in front of every
   member and every closing brace, with a tab for each container that is open there.
   */
  predicate Indented(l: Layout, d: nat)
    decreases l
  {
    match l
    case Brackets(blank, items) =>
      blank == "" && forall k :: 0 <= k < |items| ==> IndentedItem(items[k], k == 0, d + 1)
    case Braces(blank, entries) =>
      blank == "\n" + Tabs(d) && forall k :: 0 <= k < |entries| ==> IndentedEntry(entries[k], k == |entries| - 1, d + 1)
    case _ => true
  }

  predicate IndentedItem(x: Item, first: bool, d: nat)
    decreases x
  {
    x.before == (if first then "" else " ") && x.after == "" && Indented(x.value, d)
  }

  predicate IndentedEntry(e: Entry, last: bool, d: nat)
    requires d > 0
    decreases e
  {
    && e.before == "\n" + Tabs(d) && e.gap == "" && e.ahead == "\t" && Indented(e.value, d)
    && e.after == if last then "\n" + Tabs(d - 1) else ""
  }

  lemma {:induction false} PrintedBlanks(j: Json, format: bool, d: nat)
    ensures if format then Indented(Printed(j, format, d), d) else Bare(Printed(j, format, d))
    decreases j
  {
    hide PrintedItems, PrintedMembers, Tabs, EscapeAll, PiecesOf, Dec;
    match j
    case Arr(items) =>
      var r := PrintedItems(items, format, d + 1, "");
      ItemsBlanks(items, format, d + 1, true, r);
      assert Printed(j, format, d) == Brackets("", r);
    case Obj(ms) =>
      var r := PrintedMembers(ms, format, d + 1);
      MembersBlanks(ms, format, d + 1, r);
      assert Printed(j, format, d) == Braces(Line(format, d), r);
    case _ =>
  }

  lemma {:induction false} ItemsBlanks(items: seq<Json>, format: bool, d: nat, first: bool, r: seq<Item>)
    requires r == PrintedItems(items, format, d, if first then "" else Gap(format, " "))
    ensures format ==> forall k :: 0 <= k < |r| ==> IndentedItem(r[k], first && k == 0, d)
    ensures !format ==> forall k :: 0 <= k < |r| ==> BareItem(r[k])
    decreases items
  {
    hide Printed, Bare, Indented, Gap;
    if items != [] {
      var before := if first then "" else Gap(format, " ");
      var x := Item(before, Printed(items[0], format, d), "");
      var rest := PrintedItems(items[1..], format, d, Gap(format, " "));
      PrintedBlanks(items[0], format, d);
      OneItem(x, format, d, first);
      ItemsBlanks(items[1..], format, d, false, rest);
      assert r == [x] + rest;
      forall k | 0 <= k < |r|
        ensures (format ==> IndentedItem(r[k], first && k == 0, d)) && (!format ==> BareItem(r[k]))
      {
        assert k > 0 ==> r[k] == rest[k - 1];
      }
    }
  }

  lemma OneItem(x: Item, format: bool, d: nat, first: bool)
    requires x.before == (if first then "" else Gap(format, " ")) && x.after == ""
    requires if format then Indented(x.value, d) else Bare(x.value)
    ensures if format then IndentedItem(x, first, d) else BareItem(x)
  {
  }

  lemma {:induction false} MembersBlanks(ms: seq<Member>, format: bool, d: nat, r: seq<Entry>)
    requires d > 0 && r == PrintedMembers(ms, format, d)
    ensures format ==> forall k :: 0 <= k < |r| ==> IndentedEntry(r[k], k == |r| - 1, d)
    ensures !format ==> forall k :: 0 <= k < |r| ==> BareEntry(r[k])
    decreases ms
  {
    hide Printed, Bare, Indented, Gap, Line, EscapeAll, PiecesOf;
    if ms != [] {
      var rest := PrintedMembers(ms[1..], format, d);
      PrintedBlanks(ms[0].value, format, d);
      OneEntry(r[0], format, d, |ms| == 1);
      MembersBlanks(ms[1..], format, d, rest);
      assert r == [r[0]] + rest;
      forall k | 0 <= k < |r|
        ensures (format ==> IndentedEntry(r[k], k == |r| - 1, d)) && (!format ==> BareEntry(r[k]))
      {
        assert k > 0 ==> r[k] == rest[k - 1];
      }
    }
  }

  lemma OneEntry(e: Entry, format: bool, d: nat, last: bool)
    requires d > 0 && e.before == Line(format, d) && e.gap == "" && e.ahead == Gap(format, "\t")
    requires e.after == if last then Line(format, d - 1) else ""
    requires if format then Indented(e.value, d) else Bare(e.value)
    ensures if format then IndentedEntry(e, last, d) else BareEntry(e)
  {
  }

  /**
   The printed text is a layout of the tree: without formatting one that has no blank outside the
   strings, with formatting the one with the line breaks and tabs described above.
   */
  lemma PrintLayout(j: Json, format: bool)
    requires Plain(j)
    ensures exists l ::
              Proper(l) && Tree(l) == j && Written(l) == Text(j, format, 0) && if format then Indented(l, 0) else Bare(l)
  {
    hide Proper, Tree, Written, Text, Printed, Indented, Bare;
    PrintedProper(j, format, 0);
    PrintedText(j, format, 0);
    PrintedBlanks(j, format, 0);
  }

  // ----- the round trip -----

  /** Wherever the text of a tree stands, with nothing behind it that continues a numeral, it parses to the tree. */
  lemma ValueParses(s: string, i: nat, j: Json, format: bool, d: nat, depth: nat)
    requires Plain(j) && Nesting(j) + depth <= NESTING_LIMIT
    requires TextAt(s, i, Text(j, format, d)) && Stops(s, i + |Text(j, format, d)|)
    ensures ParseValue(s, i, depth) == Ok(j, i + |Text(j, format, d)|)
  {
    hide ParseValue, Text, Printed, Written, Proper, Tree, TextAt, Stops, Ends;
    PrintedProper(j, format, d);
    PrintedText(j, format, d);
    NumeralEnds(Printed(j, format, d), s, i + |Text(j, format, d)|);
    Accepted(s, i, Printed(j, format, d), depth);
  }

  /** Every text starts with a visible byte, and none of the BOM. */
  lemma TextStart(j: Json, format: bool, d: nat)
    requires Plain(j)
    ensures Text(j, format, d) != "" && ' ' < Text(j, format, d)[0] != '\U{EF}'
  {
    hide Text, Printed, Written, Proper;
    PrintedProper(j, format, d);
    PrintedText(j, format, d);
    WrittenStart(Printed(j, format, d));
  }

  /** A token is not skipped. */
  lemma TokenAt(s: string, n: nat, t: string)
    requires TextAt(s, n, t) && t != "" && t[0] > ' '
    ensures n < |s| && SkipSpace(s, n) == n
  {
    hide SkipSpace;
    NoBlank(s, n, t);
    SkipBlank(s, n, "", t);
  }

  /**
   Printing and parsing: a plain tree, printed with or without formatting, parses back to
   itself, to the end of the text, exactly when at most `CJSON_NESTING_LIMIT` containers are
   nested. The parser may be given the bare text or the C string, and may insist on the NUL.
   */
  lemma PrintThenParse(j: Json, format: bool, requireNul: bool)
    requires Plain(j)
    ensures ParseWithLength(Text(j, format, 0), false) == Ok(j, |Text(j, format, 0)|) <==> Nesting(j) <= NESTING_LIMIT
    ensures ParseCString(Text(j, format, 0), requireNul) == Ok(j, |Text(j, format, 0)|) <==> Nesting(j) <= NESTING_LIMIT
  {
    hide ParseValue, Text, ParseWithLength;
    var t := Text(j, format, 0);
    ParseNesting(t, false);
    ParseNesting(t + "\0", requireNul);
    if Nesting(j) <= NESTING_LIMIT {
      BareTextParses(j, format);
      CStringParses(j, format, requireNul);
    }
  }

  lemma BareTextParses(j: Json, format: bool)
    requires Plain(j) && Nesting(j) <= NESTING_LIMIT
    ensures ParseWithLength(Text(j, format, 0), false) == Ok(j, |Text(j, format, 0)|)
  {
    hide ParseValue, Text, SkipSpace;
    var t := Text(j, format, 0);
    TextStart(j, format, 0);
    assert TextAt(t, 0, t) by { assert t[0..|t|] == t; }
    ValueParses(t, 0, j, format, 0, 0);
    TokenAt(t, 0, t);
  }

  lemma CStringParses(j: Json, format: bool, requireNul: bool)
    requires Plain(j) && Nesting(j) <= NESTING_LIMIT
    ensures ParseCString(Text(j, format, 0), requireNul) == Ok(j, |Text(j, format, 0)|)
  {
    hide ParseValue, Text, SkipSpace;
    var t := Text(j, format, 0);
    var c := t + "\0";
    TextStart(j, format, 0);
    assert TextAt(c, 0, t) by { assert c[0..|t|] == t; }
    ValueParses(c, 0, j, format, 0, 0);
    TokenAt(c, 0, t);
    LastByteStays(c, |t|);
  }

  /** In front of the last byte, skipping white space goes no further. */
  lemma LastByteStays(s: string, i: nat)
    requires i + 1 == |s|
    ensures SkipSpace(s, i) == i
  {
  }
}
