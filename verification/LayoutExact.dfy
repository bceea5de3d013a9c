/** The parser accepts the layouts, and nothing else. */
module LayoutExact {
  import opened Json
  import opened Decimal
  import opened PrintText
  import opened StringLiteral
  import opened Parser
  import opened Texts
  import opened Spelling
  import opened Layouts
  import opened LayoutParses
  import opened NestingLimit

  // ----- white space -----

  /** What is skipped in front of a token is blank. */
  lemma SkippedBlank(s: string, i: nat)
    requires i <= |s| && SkipSpace(s, i) < |s| && s[SkipSpace(s, i)] > ' '
    ensures Blank(s[i..SkipSpace(s, i)]) && TextAt(s, i, s[i..SkipSpace(s, i)])
  {
    var r := SkipSpace(s, i);
    var blank := s[i..r];
    assert forall k :: i <= k < SpaceEnd(s, i) ==> s[k] <= ' ';
    forall k | 0 <= k < |blank| ensures blank[k] <= ' ' {
      assert blank[k] == s[i + k];
    }
    Slice(s, i, r);
  }

  // ----- numerals -----

  lemma {:induction false} NumeralStops(s: string, i: nat, room: nat)
    requires i <= |s|
    ensures var n := NumeralEnd(s, i, room); n < |s| && n < i + room ==> !IsNumeral(s[n])
    decreases |s| - i
  {
    if i < |s| && room > 0 && IsNumeral(s[i]) {
      NumeralStops(s, i + 1, room - 1);
    }
  }

  lemma ParsedNumeral(s: string, i: nat) returns (l: Layout)
    requires i < |s| && (s[i] == '-' || IsDigit(s[i])) && ParseNumber(s, i).Ok?
    ensures Proper(l) && l.Numeral? && TextAt(s, i, Written(l)) && Ends(l, s, i + |Written(l)|)
    ensures ParseNumber(s, i) == Ok(Tree(l), i + |Written(l)|)
  {
    hide NumeralEnd, DigitsEnd, Value;
    var end := NumeralEnd(s, i, 63);
    var start := if i < end && s[i] == '-' then i + 1 else i;
    var stop := DigitsEnd(s, start, end);
    NumeralStops(s, i, 63);
    var digits := s[start..stop];
    l := Numeral(start != i, digits);
    Slice(s, start, stop);
    if start != i {
      assert TextAt(s, i, "-") by { OneChar(s, i); }
    }
    JoinText(s, i, Sign(start != i), digits) by { assert TextAt(s, i, Sign(start != i)); }
    assert ParseNumber(s, i).value == Num(Signed(start != i, digits));
  }

  // ----- values -----

  lemma ParsedWord(s: string, i: nat, depth: nat) returns (l: Layout)
    requires i <= |s| && ParseValue(s, i, depth).Ok?
    requires TextAt(s, i, "null") || TextAt(s, i, "false") || TextAt(s, i, "true")
    ensures Proper(l) && l.Word? && TextAt(s, i, Written(l)) && ParseValue(s, i, depth) == Ok(Tree(l), i + |Written(l)|)
  {
    hide ParseString, ParseNumber, ParseArray, ParseObject;
    l := Word(if TextAt(s, i, "null") then Null else Bool(!TextAt(s, i, "false")));
  }

  lemma ParsedString(s: string, i: nat, depth: nat) returns (l: Layout)
    requires i < |s| && s[i] == '\"' && ParseValue(s, i, depth).Ok?
    ensures Proper(l) && l.Literal? && TextAt(s, i, Written(l)) && ParseValue(s, i, depth) == Ok(Tree(l), i + |Written(l)|)
  {
    hide ParseString, ParseNumber, ParseArray, ParseObject, ProperString, PiecesBytes;
    NoWord(s, i, '\"');
    var body, ps := ParsedSpelling(s, i);
    l := Literal(body, ps);
  }

  /** The layout of what has been parsed. */
  ghost predicate LaidAt(l: Layout, s: string, i: nat, n: nat) {
    Proper(l) && TextAt(s, i, Written(l)) && n == i + |Written(l)| && Ends(l, s, n)
  }

  /** Whatever is parsed is written there in some layout. */
  lemma {:induction false} Parsed(s: string, i: nat, depth: nat) returns (l: Layout)
    requires i <= |s| && ParseValue(s, i, depth).Ok?
    ensures LaidAt(l, s, i, ParseValue(s, i, depth).next) && Tree(l) == ParseValue(s, i, depth).value
    decreases |s| - i, 1
  {
    hide ParseString, ParseNumber, ParseArray, ParseObject, TextAt, Proper, Tree, Written;
    if TextAt(s, i, "null") || TextAt(s, i, "false") || TextAt(s, i, "true") {
      l := ParsedWord(s, i, depth);
    } else if i < |s| && s[i] == '\"' {
      l := ParsedString(s, i, depth);
    } else if i < |s| && (s[i] == '-' || IsDigit(s[i])) {
      l := ParsedNumeral(s, i);
    } else if i < |s| && s[i] == '[' {
      l := ParsedArray(s, i, depth);
    } else {
      l := ParsedObject(s, i, depth);
    }
  }

  lemma {:induction false} ParsedArray(s: string, i: nat, depth: nat) returns (l: Layout)
    requires i < |s| && s[i] == '[' && ParseArray(s, i, depth).Ok?
    ensures LaidAt(l, s, i, ParseArray(s, i, depth).next) && Tree(l) == ParseArray(s, i, depth).value && l.Brackets?
    decreases |s| - i, 0
  {
    hide ParseItems, SkipSpace, TextAt, ItemsFrom, ItemsOf, ProperItem, Blank;
    var first := SkipSpace(s, i + 1);
    assert TextAt(s, i, "[") by { OneChar(s, i); assert [s[i]] == "["; }
    var blank := s[i + 1..first];
    if s[first] == ']' {
      SkippedBlank(s, i + 1);
      assert TextAt(s, first, "]") by { OneChar(s, first); assert [s[first]] == "]"; }
      l := Brackets(blank, []);
      JoinText(s, i + 1, blank, "]");
      JoinText(s, i, "[", blank + "]");
    } else {
      NextVisible(s, first, depth + 1);
      SkippedTwice(s, i + 1);
      SkippedBlank(s, i + 1);
      var items := ParsedItems(s, first, blank, depth + 1);
      l := Brackets("", items);
      NothingBlank();
      JoinText(s, i + 1, blank, ItemsFrom(items));
      JoinText(s, i, "[", blank + ItemsFrom(items));
    }
  }

  lemma NothingBlank()
    ensures Blank("")
  {
  }

  /** Where a value is parsed, a visible byte stands. */
  lemma Visible(s: string, i: nat, depth: nat)
    requires i <= |s| && ParseValue(s, i, depth).Ok?
    ensures i < |s| && s[i] > ' '
  {
    hide ParseArray, ParseObject, ParseString, ParseNumber;
    if TextAt(s, i, "null") { CharAt(s, i, "null", 0); }
    if TextAt(s, i, "false") { CharAt(s, i, "false", 0); }
    if TextAt(s, i, "true") { CharAt(s, i, "true", 0); }
  }

  /** One element, up to the comma or bracket. */
  lemma {:induction false} ParsedItem(s: string, i: nat, before: string, depth: nat) returns (x: Item)
    requires i <= |s| && ParseValue(s, SkipSpace(s, i), depth).Ok? && Blank(before)
    requires var m := SkipSpace(s, ParseValue(s, SkipSpace(s, i), depth).next); m < |s| && s[m] > ' '
    ensures x.before == before && ProperItem(x) && ParseValue(s, SkipSpace(s, i), depth).value == Tree(x.value)
    ensures TextAt(s, SkipSpace(s, i), Written(x.value) + x.after)
    ensures SkipSpace(s, i) + |Written(x.value) + x.after| == SkipSpace(s, ParseValue(s, SkipSpace(s, i), depth).next)
    decreases |s| - i, 2
  {
    hide ParseValue, SkipSpace, TextAt, Proper, Tree, Written, Blank, Ends;
    var p := SkipSpace(s, i);
    var l := Parsed(s, p, depth);
    var n := ParseValue(s, p, depth).next;
    SkippedBlank(s, n);
    var after := s[n..SkipSpace(s, n)];
    x := Item(before, l, after);
    JoinText(s, p, Written(l), after);
  }

  lemma {:induction false} ParsedItems(s: string, i: nat, before: string, depth: nat) returns (items: seq<Item>)
    requires i <= |s| && ParseItems(s, i, depth).ItemsOk? && Blank(before)
    ensures items != [] && items[0].before == before && forall k :: 0 <= k < |items| ==> ProperItem(items[k])
    ensures TextAt(s, SkipSpace(s, i), ItemsFrom(items))
    ensures ParseItems(s, i, depth) == ItemsOk(ItemsOf(items), SkipSpace(s, i) + |ItemsFrom(items)|)
    decreases |s| - i, 3
  {
    hide ParseValue, SkipSpace, TextAt, Proper, ProperItem, Tree, Written, Blank, ItemsFrom, ItemsRest, ItemsOf, ItemsNesting;
    var p := SkipSpace(s, i);
    var x := ParsedItem(s, i, before, depth);
    var m := SkipSpace(s, ParseValue(s, p, depth).next);
    if s[m] == ',' {
      var gap := s[m + 1..SkipSpace(s, m + 1)];
      NextVisible(s, m + 1, depth);
      SkippedBlank(s, m + 1);
      var rest := ParsedItems(s, m + 1, gap, depth);
      items := [x] + rest;
      assert items[1..] == rest;
      assert TextAt(s, m, ",") by { OneChar(s, m); assert [s[m]] == ","; }
      JoinText(s, m + 1, gap, ItemsFrom(rest));
      JoinText(s, m, ",", gap + ItemsFrom(rest));
    } else {
      items := [x];
      assert TextAt(s, m, "]") by { OneChar(s, m); assert [s[m]] == "]"; }
    }
    FirstItem(items);
    JoinText(s, p, Written(x.value) + x.after, ItemsRest(items));
    Append3(Written(x.value), x.after, ItemsRest(items));
  }

  lemma Append3(a: string, b: string, c: string)
    ensures (a + b) + c == a + (b + c)
  {
  }

  lemma NextVisible(s: string, i: nat, depth: nat)
    requires i <= |s| && ParseItems(s, i, depth).ItemsOk?
    ensures var p := SkipSpace(s, i); p < |s| && s[p] > ' '
  {
    hide ParseValue, SkipSpace;
    Visible(s, SkipSpace(s, i), depth);
  }

  // ----- objects -----

  lemma {:induction false} ParsedObject(s: string, i: nat, depth: nat) returns (l: Layout)
    requires i < |s| && s[i] == '{' && ParseObject(s, i, depth).Ok?
    ensures LaidAt(l, s, i, ParseObject(s, i, depth).next) && Tree(l) == ParseObject(s, i, depth).value && l.Braces?
    decreases |s| - i, 0
  {
    hide ParseMembers, SkipSpace, TextAt, EntriesFrom, MembersOf, ProperEntry, Blank;
    var first := SkipSpace(s, i + 1);
    assert TextAt(s, i, "{") by { OneChar(s, i); assert [s[i]] == "{"; }
    var blank := s[i + 1..first];
    if s[first] == '}' {
      SkippedBlank(s, i + 1);
      assert TextAt(s, first, "}") by { OneChar(s, first); assert [s[first]] == "}"; }
      l := Braces(blank, []);
      JoinText(s, i + 1, blank, "}");
      JoinText(s, i, "{", blank + "}");
    } else {
      NameVisible(s, first, depth + 1);
      SkippedTwice(s, i + 1);
      SkippedBlank(s, i + 1);
      var entries := ParsedEntries(s, first, blank, depth + 1);
      l := Braces("", entries);
      NothingBlank();
      JoinText(s, i + 1, blank, EntriesFrom(entries));
      JoinText(s, i, "{", blank + EntriesFrom(entries));
    }
  }

  lemma SkippedTwice(s: string, i: nat)
    requires i <= |s|
    ensures SkipSpace(s, SkipSpace(s, i)) == SkipSpace(s, i)
  {
  }

  lemma NameVisible(s: string, i: nat, depth: nat)
    requires i <= |s| && ParseMembers(s, i, depth).MembersOk?
    ensures var p := SkipSpace(s, i); p < |s| && s[p] > ' '
  {
    hide ParseValue, SkipSpace, ScanEnd, StringLiteral.Decode;
  }

  /** The name of a member, and the blanks around its colon. */
  lemma ParsedKey(s: string, i: nat) returns (body: string, name: seq<Piece>, gap: string)
    requires i <= |s| && ParseKey(s, i).Parsed?
    ensures ProperString(body, name) && Blank(gap) && ParseKey(s, i).s == CString(PiecesBytes(name))
    ensures SkipSpace(s, i) < |s| && TextAt(s, SkipSpace(s, i), InQuotes(body) + (gap + ":"))
    ensures ParseKey(s, i).next == SkipSpace(s, i) + |InQuotes(body)| + |gap| + 1
  {
    hide ParseString, SkipSpace, TextAt, ProperString, PiecesBytes, Blank;
    var p := SkipSpace(s, i);
    body, name := ParsedSpelling(s, p);
    var n := ParseString(s, p).next;
    var colon := SkipSpace(s, n);
    SkippedBlank(s, n);
    gap := s[n..colon];
    assert TextAt(s, colon, ":") by { OneChar(s, colon); assert [s[colon]] == ":"; }
    JoinText(s, n, gap, ":");
    JoinText(s, p, InQuotes(body), gap + ":");
  }

  lemma Append4(a: string, b: string, c: string, e: string)
    ensures (a + (b + c)) + e == a + (b + (c + e))
  {
  }

  lemma {:induction false} ParsedEntries(s: string, i: nat, before: string, depth: nat) returns (entries: seq<Entry>)
    requires i <= |s| && ParseMembers(s, i, depth).MembersOk? && Blank(before)
    ensures entries != [] && entries[0].before == before && forall k :: 0 <= k < |entries| ==> ProperEntry(entries[k])
    ensures TextAt(s, SkipSpace(s, i), EntriesFrom(entries))
    ensures ParseMembers(s, i, depth) == MembersOk(MembersOf(entries), SkipSpace(s, i) + |EntriesFrom(entries)|)
    decreases |s| - i, 3
  {
    hide ParseValue, ParseKey, SkipSpace, TextAt, Proper, ProperString, PiecesBytes, InQuotes, Tree, Written, Blank, Ends;
    hide EntriesFrom, EntriesRest, MembersOf;
    var p := SkipSpace(s, i);
    var e := ParsedEntry(s, i, before, depth);
    var m := SkipSpace(s, ParseMember(s, i, depth).next);
    if s[m] == ',' {
      var gap := s[m + 1..SkipSpace(s, m + 1)];
      NameVisible(s, m + 1, depth);
      SkippedBlank(s, m + 1);
      var rest := ParsedEntries(s, m + 1, gap, depth);
      entries := [e] + rest;
      assert entries[1..] == rest;
      assert TextAt(s, m, ",") by { OneChar(s, m); assert [s[m]] == ","; }
      JoinText(s, m + 1, gap, EntriesFrom(rest));
      JoinText(s, m, ",", gap + EntriesFrom(rest));
    } else {
      entries := [e];
      assert TextAt(s, m, "}") by { OneChar(s, m); assert [s[m]] == "}"; }
    }
    FirstEntry(entries);
    var t := EntriesRest(entries);
    JoinText(s, p, InQuotes(e.body) + (e.gap + (":" + (e.ahead + (Written(e.value) + e.after)))), t);
    AppendTail(e, t);
  }

  lemma AppendTail(e: Entry, t: string)
    ensures (InQuotes(e.body) + (e.gap + (":" + (e.ahead + (Written(e.value) + e.after))))) + t ==
            InQuotes(e.body) + (e.gap + (":" + (e.ahead + (Written(e.value) + (e.after + t)))))
  {
    hide InQuotes, Written;
    var v := Written(e.value);
    assert (v + e.after) + t == v + (e.after + t);
    Append4(":", e.ahead, v + e.after, t);
    Append4(InQuotes(e.body), e.gap, ":" + (e.ahead + (v + e.after)), t);
  }

  /** One member, up to the comma or brace. */
  lemma {:induction false} ParsedEntry(s: string, i: nat, before: string, depth: nat) returns (e: Entry)
    requires i <= |s| && ParseMember(s, i, depth).OneOk? && Blank(before)
    requires var m := SkipSpace(s, ParseMember(s, i, depth).next); m < |s| && s[m] > ' '
    ensures e.before == before && ProperEntry(e)
    ensures ParseMember(s, i, depth).member == Member(CString(PiecesBytes(e.name)), Tree(e.value))
    ensures var t := InQuotes(e.body) + (e.gap + (":" + (e.ahead + (Written(e.value) + e.after))));
            && TextAt(s, SkipSpace(s, i), t)
            && SkipSpace(s, i) + |t| == SkipSpace(s, ParseMember(s, i, depth).next)
    decreases |s| - i, 2
  {
    hide ParseValue, ParseKey, SkipSpace, TextAt, Proper, ProperString, PiecesBytes, InQuotes, Tree, Written, Blank, Ends;
    var p, colon := SkipSpace(s, i), ParseKey(s, i).next;
    var body, name, gap := ParsedKey(s, i);
    var v := SkipSpace(s, colon);
    Visible(s, v, depth);
    SkippedBlank(s, colon);
    var l := Parsed(s, v, depth);
    var n := ParseValue(s, v, depth).next;
    SkippedBlank(s, n);
    var ahead, after := s[colon..v], s[n..SkipSpace(s, n)];
    e := Entry(before, body, name, gap, ahead, l, after);
    JoinText(s, v, Written(l), after);
    JoinText(s, colon, ahead, Written(l) + after);
    JoinText(s, p, InQuotes(body) + (gap + ":"), ahead + (Written(l) + after));
    Append4(InQuotes(body), gap, ":", ahead + (Written(l) + after));
  }

  // ----- the exact language -----

  ghost predicate WrittenAt(s: string, i: nat, j: Json, n: nat) {
    exists l :: LaidAt(l, s, i, n) && Tree(l) == j
  }

  /**
   The parser reads a tree at a place exactly when some layout of the tree stands there, blanks and
   spellings as they may be, ended by what does not continue its numeral, and at most
   `CJSON_NESTING_LIMIT` containers are nested.
   */
  lemma ParseExact(s: string, i: nat, depth: nat, j: Json, n: nat)
    requires i <= |s| && depth <= NESTING_LIMIT
    ensures ParseValue(s, i, depth) == Ok(j, n) <==> WrittenAt(s, i, j, n) && Nesting(j) + depth <= NESTING_LIMIT
  {
    hide ParseValue, TextAt, Written, Tree, Proper, Ends;
    if ParseValue(s, i, depth) == Ok(j, n) {
      ValueNesting(s, i, depth);
      var l := Parsed(s, i, depth);
      assert LaidAt(l, s, i, n) && Tree(l) == j;
    } else if WrittenAt(s, i, j, n) && Nesting(j) + depth <= NESTING_LIMIT {
      var l :| LaidAt(l, s, i, n) && Tree(l) == j;
      Accepted(s, i, l, depth);
    }
  }

  /** The byte order mark in UTF-8. */
  const BOM := "\U{EF}\U{BB}\U{BF}"

  ghost predicate Arranged(t: string, bom: string, lead: string, l: Layout, trail: string) {
    && (bom == "" || bom == BOM) && Blank(lead) && Blank(trail) && Proper(l)
    && t == bom + (lead + (Written(l) + trail))
  }

  /** A text that is a layout of the tree between blanks, a byte order mark in front or not. */
  ghost predicate IsDocument(t: string, j: Json) {
    exists bom, lead, l, trail :: Arranged(t, bom, lead, l, trail) && Tree(l) == j
  }

  lemma {:induction false} SpaceToEnd(s: string, i: nat)
    requires i <= |s| && forall k :: i <= k < |s| ==> s[k] <= ' '
    ensures SpaceEnd(s, i) == |s|
    decreases |s| - i
  {
    if i < |s| {
      SpaceToEnd(s, i + 1);
    }
  }

  /** Only blanks are left in front of the NUL. */
  lemma AtNul(s: string, n: nat)
    requires n < |s| && s[|s| - 1] == '\0'
    ensures SkipSpace(s, n) == |s| - 1 <==> Blank(s[n..|s| - 1])
  {
    var rest := s[n..|s| - 1];
    if Blank(rest) {
      forall k | n <= k < |s| ensures s[k] <= ' ' {
        if k < |s| - 1 {
          assert s[k] == rest[k - n];
        }
      }
      SpaceToEnd(s, n);
    } else {
      var k :| 0 <= k < |rest| && rest[k] > ' ';
      assert s[n + k] > ' ';
    }
  }

  lemma BomIs(t: string, bom: string, lead: string, l: Layout, trail: string)
    requires Arranged(t, bom, lead, l, trail)
    ensures SkipBom(t + "\0") == |bom|
  {
    hide Written, Proper;
    WrittenStart(l);
    if bom == "" {
      assert t[0] == (lead + (Written(l) + trail))[0];
      assert lead != "" ==> t[0] == lead[0];
      assert lead == "" ==> t[0] == Written(l)[0];
    } else {
      assert t[0] == BOM[0] && t[1] == BOM[1] && t[2] == BOM[2];
      BomBytes();
    }
  }

  lemma BomBytes()
    ensures |BOM| == 3 && BOM[0] as int == 0xEF && BOM[1] as int == 0xBB && BOM[2] as int == 0xBF
  {
  }

  lemma PartsAt(t: string, bom: string, lead: string, w: string, trail: string)
    requires t == bom + (lead + (w + trail))
    ensures var s, n := t + "\0", |bom| + |lead| + |w|;
            && TextAt(s, |bom|, lead) && TextAt(s, |bom| + |lead|, w)
            && n + |trail| + 1 == |s| && s[n..|s| - 1] == trail && s[|s| - 1] == '\0'
  {
    var s := t + "\0";
    assert s[|bom|..|bom| + |lead|] == lead;
    assert s[|bom| + |lead|..|bom| + |lead| + |w|] == w;
    assert s[|bom| + |lead| + |w|..|s| - 1] == trail;
  }

  lemma DocumentForth(t: string, bom: string, lead: string, l: Layout, trail: string)
    requires Arranged(t, bom, lead, l, trail) && Nesting(Tree(l)) <= NESTING_LIMIT
    ensures ParseCString(t, true) == Ok(Tree(l), |t|)
  {
    hide ParseValue, SkipSpace, SkipBom, TextAt, Written, Proper, Tree, Ends, Blank, Stops;
    var s, w := t + "\0", Written(l);
    var p, n := |bom| + |lead|, |bom| + |lead| + |w|;
    BomIs(t, bom, lead, l, trail);
    WrittenStart(l);
    PartsAt(t, bom, lead, w, trail);
    SkipBlank(s, |bom|, lead, w);
    AtNul(s, n);
    BlankNext(s, n, trail);
    NumeralEnds(l, s, n);
    Accepted(s, p, l, 0);
  }

  lemma BlankNext(s: string, n: nat, trail: string)
    requires n + |trail| + 1 == |s| && s[n..|s| - 1] == trail && s[|s| - 1] == '\0' && Blank(trail)
    ensures Stops(s, n)
  {
    if trail != "" {
      assert s[n] == trail[0];
    }
  }

  lemma DocumentBack(t: string)
    requires NoNul(t) && ParseCString(t, true).Ok?
    ensures ParseCString(t, true).next == |t| && IsDocument(t, ParseCString(t, true).value)
  {
    hide ParseValue, SkipSpace, SkipBom, TextAt, Written, Proper, Tree, Ends, Blank;
    var s := t + "\0";
    var b := SkipBom(s);
    var p := SkipSpace(s, b);
    var l := Parsed(s, p, 0);
    var n := ParseValue(s, p, 0).next;
    Visible(s, p, 0);
    SkippedBlank(s, b);
    var end := SkipSpace(s, n);
    assert forall k :: 0 <= k < |t| ==> s[k] == t[k];
    AtNul(s, n);
    BomText(s);
    var bom, lead, trail := s[..b], s[b..p], s[n..|t|];
    assert s[p..n] == Written(l) by { WrittenThere(s, p, n, l); }
    assert t == s[..b] + (s[b..p] + (s[p..n] + s[n..|t|]));
    assert Arranged(t, bom, lead, l, trail);
  }

  lemma WrittenThere(s: string, p: nat, n: nat, l: Layout)
    requires LaidAt(l, s, p, n)
    ensures n <= |s| && s[p..n] == Written(l)
  {
  }

  lemma BomText(s: string)
    ensures s[..SkipBom(s)] == "" || s[..SkipBom(s)] == BOM
  {
    BomBytes();
  }

  /**
   `cJSON_ParseWithOpts` insisting on the NUL accepts a C string exactly when it is a layout of a tree
   between blanks, with a byte order mark in front or without, within the nesting limit; it returns
   that tree.
   */
  lemma DocumentExact(t: string, j: Json)
    requires NoNul(t)
    ensures ParseCString(t, true) == Ok(j, |t|) <==> IsDocument(t, j) && Nesting(j) <= NESTING_LIMIT
    ensures ParseCString(t, true).Ok? ==> ParseCString(t, true).next == |t|
  {
    hide ParseCString, Arranged, Tree;
    ParseNesting(t + "\0", true);
    assert ParseCString(t, true) == ParseWithLength(t + "\0", true) by { AsCString(t); }
    if ParseCString(t, true).Ok? {
      DocumentBack(t);
    }
    if IsDocument(t, j) && Nesting(j) <= NESTING_LIMIT {
      var bom, lead, l, trail :| Arranged(t, bom, lead, l, trail) && Tree(l) == j;
      DocumentForth(t, bom, lead, l, trail);
    }
  }

  lemma AsCString(t: string)
    ensures ParseCString(t, true) == ParseWithLength(t + "\0", true)
  {
    hide ParseWithLength;
  }
}
