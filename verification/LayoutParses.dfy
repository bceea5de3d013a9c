/** Every layout of a tree, within the nesting limit, is parsed to the tree. */
module LayoutParses {
  import opened Json
  import opened Decimal
  import opened StringLiteral
  import opened Parser
  import opened Texts
  import opened Spelling
  import opened Layouts
  import opened NestingLimit

  // ----- white space between tokens -----

  lemma {:induction false} SpaceRun(s: string, i: nat, k: nat)
    requires i <= k < |s| && s[k] > ' ' && forall x :: i <= x < k ==> s[x] <= ' '
    ensures SkipSpace(s, i) == k
    decreases k - i
  {
    if i < k {
      SpaceRun(s, i + 1, k);
    }
  }

  /** Behind blank text stands a token. */
  lemma SkipBlank(s: string, i: nat, blank: string, t: string)
    requires TextAt(s, i, blank) && TextAt(s, i + |blank|, t) && t != "" && t[0] > ' ' && Blank(blank)
    ensures SkipSpace(s, i) == i + |blank| < |s| && s[i + |blank|] == t[0]
    ensures !IsNumeral(t[0]) ==> Stops(s, i)
  {
    CharAt(s, i + |blank|, t, 0);
    forall x | i <= x < i + |blank| ensures s[x] <= ' ' {
      CharAt(s, i, blank, x - i);
    }
    SpaceRun(s, i, i + |blank|);
  }

  /** What stands behind a numeral does not continue it. */
  predicate Stops(s: string, i: nat) {
    i <= |s| && (i < |s| ==> !IsNumeral(s[i]))
  }

  /** A numeral ends where its digits do, if it is shorter than the 63 bytes that are copied. */
  predicate Ends(l: Layout, s: string, n: nat) {
    l.Numeral? && |Written(l)| < 63 && n < |s| ==> !IsDigit(s[n]) && s[n] != '.' && s[n] != 'e' && s[n] != 'E'
  }

  // ----- numerals -----

  lemma {:induction false} NumeralReach(s: string, i: nat, n: nat, room: nat)
    requires i <= n <= |s| && n - i <= room && forall k :: i <= k < n ==> IsNumeral(s[k])
    ensures n <= NumeralEnd(s, i, room)
    decreases n - i
  {
    if i < n {
      NumeralReach(s, i + 1, n, room - 1);
    }
  }

  lemma {:induction false} DigitRun(s: string, i: nat, n: nat, end: nat)
    requires i <= n <= end <= |s| && forall k :: i <= k < n ==> IsDigit(s[k])
    requires n < end ==> !IsDigit(s[n])
    ensures DigitsEnd(s, i, end) == n
    decreases n - i
  {
    if i < n {
      DigitRun(s, i + 1, n, end);
    }
  }

  lemma NumeralParses(s: string, i: nat, negative: bool, digits: string)
    requires ProperNumeral(negative, digits) && TextAt(s, i, Sign(negative) + digits)
    requires Ends(Numeral(negative, digits), s, i + |Sign(negative) + digits|)
    ensures ParseNumber(s, i) == Ok(Num(Signed(negative, digits)), i + |Sign(negative) + digits|)
    ensures i < |s| && (s[i] == '-' || IsDigit(s[i]))
  {
    hide NumeralEnd, DigitsEnd, Value;
    var sign := Sign(negative);
    var start, n := i + |sign|, i + |sign + digits|;
    SplitText(s, i, sign, digits);
    forall k | start <= k < n ensures IsDigit(s[k]) { CharAt(s, start, digits, k - start); }
    if negative {
      CharAt(s, i, sign, 0);
    }
    NumeralReach(s, i, n, 63);
    DigitRun(s, start, n, NumeralEnd(s, i, 63));
    assert s[start..n] == digits;
  }

  // ----- one step of the parser -----

  lemma ItemsStep(s: string, i: nat, depth: nat, v: Json, n: nat, m: nat)
    requires i <= |s| && n <= |s| && ParseValue(s, SkipSpace(s, i), depth) == Ok(v, n) && m == SkipSpace(s, n) < |s|
    ensures s[m] == ']' ==> ParseItems(s, i, depth) == ItemsOk([v], m + 1)
    ensures s[m] == ',' && ParseItems(s, m + 1, depth).ItemsOk? ==>
              ParseItems(s, i, depth) ==
              ItemsOk([v] + ParseItems(s, m + 1, depth).items, ParseItems(s, m + 1, depth).next)
  {
    hide ParseValue, SkipSpace;
  }

  lemma MembersStep(s: string, i: nat, depth: nat, v: Member, n: nat, m: nat)
    requires i <= |s| && n <= |s| && ParseMember(s, i, depth) == OneOk(v, n) && m == SkipSpace(s, n) < |s|
    ensures s[m] == '}' ==> ParseMembers(s, i, depth) == MembersOk([v], m + 1)
    ensures s[m] == ',' && ParseMembers(s, m + 1, depth).MembersOk? ==>
              ParseMembers(s, i, depth) ==
              MembersOk([v] + ParseMembers(s, m + 1, depth).members, ParseMembers(s, m + 1, depth).next)
  {
    hide ParseMember, SkipSpace;
  }

  lemma ArrayStep(s: string, i: nat, depth: nat, first: nat)
    requires i < |s| && s[i] == '[' && depth < NESTING_LIMIT && first == SkipSpace(s, i + 1) < |s|
    ensures s[first] == ']' ==> ParseValue(s, i, depth) == Ok(Arr([]), first + 1)
    ensures s[first] != ']' && ParseItems(s, first, depth + 1).ItemsOk? ==>
              ParseValue(s, i, depth) ==
              Ok(Arr(ParseItems(s, first, depth + 1).items), ParseItems(s, first, depth + 1).next)
  {
    hide ParseItems, ParseMembers, SkipSpace;
    NoWord(s, i, '[');
  }

  lemma ObjectStep(s: string, i: nat, depth: nat, first: nat)
    requires i < |s| && s[i] == '{' && depth < NESTING_LIMIT && first == SkipSpace(s, i + 1) < |s|
    ensures s[first] == '}' ==> ParseValue(s, i, depth) == Ok(Obj([]), first + 1)
    ensures s[first] != '}' && ParseMembers(s, first, depth + 1).MembersOk? ==>
              ParseValue(s, i, depth) ==
              Ok(Obj(ParseMembers(s, first, depth + 1).members), ParseMembers(s, first, depth + 1).next)
  {
    hide ParseItems, ParseMembers, SkipSpace;
    NoWord(s, i, '{');
  }

  /** The three words are told apart from everything else by their first letter. */
  lemma NoWord(s: string, i: nat, c: char)
    requires i < |s| && s[i] == c && c != 'n' && c != 'f' && c != 't'
    ensures !TextAt(s, i, "null") && !TextAt(s, i, "false") && !TextAt(s, i, "true")
  {
    if TextAt(s, i, "null") { CharAt(s, i, "null", 0); }
    if TextAt(s, i, "false") { CharAt(s, i, "false", 0); }
    if TextAt(s, i, "true") { CharAt(s, i, "true", 0); }
  }

  lemma WordParses(s: string, i: nat, j: Json, depth: nat)
    requires (j.Null? || j.Bool?) && TextAt(s, i, WordText(j))
    ensures ParseValue(s, i, depth) == Ok(j, i + |WordText(j)|)
  {
    hide ParseArray, ParseObject, ParseNumber;
    CharAt(s, i, WordText(j), 0);
    if TextAt(s, i, "null") { CharAt(s, i, "null", 0); }
    if TextAt(s, i, "false") { CharAt(s, i, "false", 0); }
    if TextAt(s, i, "true") { CharAt(s, i, "true", 0); }
  }

  lemma StringParses(s: string, i: nat, body: string, ps: seq<Piece>, depth: nat)
    requires ProperString(body, ps) && TextAt(s, i, InQuotes(body))
    ensures ParseValue(s, i, depth) == Ok(Str(CString(PiecesBytes(ps))), i + |InQuotes(body)|)
  {
    hide ParseArray, ParseObject, ParseNumber, ParseString, ProperString, PiecesBytes;
    CharAt(s, i, InQuotes(body), 0);
    NoWord(s, i, '\"');
    SpelledParses(s, i, body, ps);
  }

  lemma NumberParses(s: string, i: nat, l: Layout, depth: nat)
    requires l.Numeral? && Proper(l) && TextAt(s, i, Written(l)) && Ends(l, s, i + |Written(l)|)
    ensures ParseValue(s, i, depth) == Ok(Tree(l), i + |Written(l)|)
  {
    hide ParseArray, ParseObject, ParseNumber, ParseString, Ends, Signed;
    NumeralParses(s, i, l.negative, l.digits);
    NoWord(s, i, s[i]);
  }

  // ----- layouts -----

  lemma WrittenStart(l: Layout)
    requires Proper(l)
    ensures Written(l) != "" && Written(l)[0] > ' ' && Written(l)[0] != ']' && Written(l)[0] != '\U{EF}'
  {
    hide ItemsFrom, EntriesFrom, Value;
  }

  lemma ItemsStart(items: seq<Item>)
    requires items != [] && ProperItem(items[0])
    ensures var t := ItemsFrom(items); t != "" && t[0] > ' ' && t[0] != ']'
  {
    hide Written, ItemsRest, Proper;
    WrittenStart(items[0].value);
  }

  lemma EntriesStart(entries: seq<Entry>)
    requires entries != []
    ensures var t := EntriesFrom(entries); t != "" && t[0] == '\"'
  {
    hide Written, EntriesRest;
  }

  lemma NumeralEnds(l: Layout, s: string, n: nat)
    requires Stops(s, n)
    ensures Ends(l, s, n)
  {
  }

  /**
   Wherever the text of a layout stands, blanks around its tokens and its strings spelled in whatever
   way, with nothing behind it that continues a numeral, it is parsed to the tree that it writes.
   */
  lemma {:induction false} Accepted(s: string, i: nat, l: Layout, depth: nat)
    requires Proper(l) && Nesting(Tree(l)) + depth <= NESTING_LIMIT
    requires TextAt(s, i, Written(l)) && Ends(l, s, i + |Written(l)|)
    ensures ParseValue(s, i, depth) == Ok(Tree(l), i + |Written(l)|)
    decreases l, 1
  {
    hide ParseValue, ParseItems, ParseMembers, SkipSpace, ItemsFrom, EntriesFrom, TextAt;
    hide ProperString, Ends, ProperItem, ProperEntry;
    match l
    case Word(j) => WordParses(s, i, j, depth);
    case Numeral(negative, digits) => NumberParses(s, i, l, depth);
    case Literal(body, ps) => StringParses(s, i, body, ps, depth);
    case Brackets(blank, items) =>
      if items == [] { EmptyArray(s, i, blank, depth); } else { ArrayLaid(s, i, items, depth); }
    case Braces(blank, entries) =>
      if entries == [] { EmptyObject(s, i, blank, depth); } else { ObjectLaid(s, i, entries, depth); }
  }

  lemma EmptyArray(s: string, i: nat, blank: string, depth: nat)
    requires Blank(blank) && depth < NESTING_LIMIT && TextAt(s, i, "[" + (blank + "]"))
    ensures ParseValue(s, i, depth) == Ok(Arr([]), i + |blank| + 2)
  {
    hide ParseValue, SkipSpace, TextAt, Blank;
    SplitText(s, i, "[", blank + "]");
    SplitText(s, i + 1, blank, "]");
    NoBlank(s, i, "[");
    SkipBlank(s, i, "", "[");
    SkipBlank(s, i + 1, blank, "]");
    ArrayStep(s, i, depth, i + 1 + |blank|);
  }

  lemma EmptyObject(s: string, i: nat, blank: string, depth: nat)
    requires Blank(blank) && depth < NESTING_LIMIT && TextAt(s, i, "{" + (blank + "}"))
    ensures ParseValue(s, i, depth) == Ok(Obj([]), i + |blank| + 2)
  {
    hide ParseValue, SkipSpace, TextAt, Blank;
    SplitText(s, i, "{", blank + "}");
    SplitText(s, i + 1, blank, "}");
    NoBlank(s, i, "{");
    SkipBlank(s, i, "", "{");
    SkipBlank(s, i + 1, blank, "}");
    ObjectStep(s, i, depth, i + 1 + |blank|);
  }

  lemma {:induction false} ArrayLaid(s: string, i: nat, items: seq<Item>, depth: nat)
    requires items != [] && (forall k :: 0 <= k < |items| ==> ProperItem(items[k]))
    requires 1 + ItemsNesting(ItemsOf(items)) + depth <= NESTING_LIMIT
    requires TextAt(s, i, "[" + (items[0].before + ItemsFrom(items)))
    ensures ParseValue(s, i, depth) == Ok(Arr(ItemsOf(items)), i + 1 + |items[0].before| + |ItemsFrom(items)|)
    decreases items, 3
  {
    hide ParseValue, ParseItems, SkipSpace, ItemsFrom, TextAt, ItemsOf, Proper;
    var before := items[0].before;
    SplitText(s, i, "[", before + ItemsFrom(items));
    SplitText(s, i + 1, before, ItemsFrom(items));
    ItemsStart(items);
    SkipBlank(s, i, "", "[") by { NoBlank(s, i, "["); }
    SkipBlank(s, i + 1, before, ItemsFrom(items));
    var p := i + 1 + |before|;
    NoBlank(s, p, ItemsFrom(items));
    SkipBlank(s, p, "", ItemsFrom(items));
    ItemsLaid(s, p, p, items, depth + 1);
    ArrayStep(s, i, depth, p);
  }

  lemma NoBlank(s: string, i: nat, t: string)
    requires TextAt(s, i, t)
    ensures TextAt(s, i, "") && Blank("") && TextAt(s, i + |""|, t)
  {
  }

  /** The first element, and what there is behind it. */
  lemma FirstItem(items: seq<Item>)
    requires items != [] && forall k :: 0 <= k < |items| ==> ProperItem(items[k])
    ensures var x, rest := items[0], items[1..];
            && Proper(x.value) && Blank(x.after)
            && ItemsFrom(items) == Written(x.value) + (x.after + ItemsRest(items))
            && ItemsOf(items) == [Tree(x.value)] + ItemsOf(rest) && (rest == [] ==> ItemsOf(rest) == [])
            && ItemsNesting(ItemsOf(items)) >= Nesting(Tree(x.value))
            && ItemsNesting(ItemsOf(items)) >= ItemsNesting(ItemsOf(rest))
            && (rest == [] ==> ItemsRest(items) == "]")
            && (rest != [] ==> Blank(rest[0].before) && ItemsRest(items) == "," + (rest[0].before + ItemsFrom(rest)))
            && (forall k :: 0 <= k < |rest| ==> ProperItem(rest[k]))
  {
    hide Proper, Tree, Written;
    assert ProperItem(items[0]);
    assert ItemsOf(items)[1..] == ItemsOf(items[1..]);
    if |items| > 1 {
      assert items[1..][0] == items[1] && ProperItem(items[1]);
    }
  }

  lemma ItemsRestStart(items: seq<Item>)
    requires items != []
    ensures var t := ItemsRest(items); t != "" && (t[0] == ']' || t[0] == ',')
  {
    hide ItemsFrom;
  }

  /** The elements from the first value on, which the parser reaches from `i`. */
  lemma {:induction false} ItemsLaid(s: string, i: nat, p: nat, items: seq<Item>, depth: nat)
    requires items != [] && (forall k :: 0 <= k < |items| ==> ProperItem(items[k]))
    requires ItemsNesting(ItemsOf(items)) + depth <= NESTING_LIMIT
    requires i <= |s| && SkipSpace(s, i) == p && TextAt(s, p, ItemsFrom(items))
    ensures ParseItems(s, i, depth) == ItemsOk(ItemsOf(items), p + |ItemsFrom(items)|)
    decreases items, 2
  {
    hide ParseValue, ParseItems, SkipSpace, TextAt, Proper, ProperItem, Tree, Written, Stops, Ends;
    hide ItemsFrom, ItemsRest, ItemsOf, ItemsNesting, Blank;
    var x, rest := items[0], items[1..];
    FirstItem(items);
    ItemsRestStart(items);
    var n, m := p + |Written(x.value)|, p + |Written(x.value)| + |x.after|;
    SplitText(s, p, Written(x.value), x.after + ItemsRest(items));
    SplitText(s, n, x.after, ItemsRest(items));
    SkipBlank(s, n, x.after, ItemsRest(items));
    NumeralEnds(x.value, s, n);
    Accepted(s, p, x.value, depth);
    ItemsStep(s, i, depth, Tree(x.value), n, m);
    if rest != [] {
      SplitText(s, m, ",", rest[0].before + ItemsFrom(rest));
      SplitText(s, m + 1, rest[0].before, ItemsFrom(rest));
      ItemsStart(rest);
      SkipBlank(s, m + 1, rest[0].before, ItemsFrom(rest));
      ItemsLaid(s, m + 1, m + 1 + |rest[0].before|, rest, depth);
    }
  }

  lemma {:induction false} ObjectLaid(s: string, i: nat, entries: seq<Entry>, depth: nat)
    requires entries != [] && (forall k :: 0 <= k < |entries| ==> ProperEntry(entries[k]))
    requires 1 + MembersNesting(MembersOf(entries)) + depth <= NESTING_LIMIT
    requires TextAt(s, i, "{" + (entries[0].before + EntriesFrom(entries)))
    ensures ParseValue(s, i, depth) == Ok(Obj(MembersOf(entries)), i + 1 + |entries[0].before| + |EntriesFrom(entries)|)
    decreases entries, 3
  {
    hide ParseValue, ParseMembers, SkipSpace, EntriesFrom, TextAt, MembersOf, Proper, ProperString;
    var before := entries[0].before;
    SplitText(s, i, "{", before + EntriesFrom(entries));
    SplitText(s, i + 1, before, EntriesFrom(entries));
    EntriesStart(entries);
    NoBlank(s, i, "{");
    SkipBlank(s, i, "", "{");
    SkipBlank(s, i + 1, before, EntriesFrom(entries));
    var p := i + 1 + |before|;
    NoBlank(s, p, EntriesFrom(entries));
    SkipBlank(s, p, "", EntriesFrom(entries));
    EntriesLaid(s, p, p, entries, depth + 1);
    ObjectStep(s, i, depth, p);
  }

  /** A name, spelled in whatever way, with blanks around its colon. */
  lemma KeyLaid(s: string, i: nat, p: nat, e: Entry, t: string)
    requires ProperString(e.body, e.name) && Blank(e.gap) && Blank(e.ahead) && t != "" && t[0] > ' '
    requires i <= |s| && SkipSpace(s, i) == p && TextAt(s, p, InQuotes(e.body) + (e.gap + (":" + (e.ahead + t))))
    ensures var n := p + |InQuotes(e.body)| + |e.gap| + 1;
            && ParseKey(s, i) == Parsed(CString(PiecesBytes(e.name)), n)
            && SkipSpace(s, n) == n + |e.ahead| && TextAt(s, n + |e.ahead|, t)
  {
    hide ParseString, SkipSpace, TextAt, ProperString, PiecesBytes;
    var quoted := InQuotes(e.body);
    var colon := p + |quoted| + |e.gap|;
    SplitText(s, p, quoted, e.gap + (":" + (e.ahead + t)));
    SplitText(s, p + |quoted|, e.gap, ":" + (e.ahead + t));
    SplitText(s, colon, ":", e.ahead + t);
    SplitText(s, colon + 1, e.ahead, t);
    SkipBlank(s, p + |quoted|, e.gap, ":");
    SkipBlank(s, colon + 1, e.ahead, t);
    CharAt(s, p, quoted, 0);
    SpelledParses(s, p, e.body, e.name);
  }

  /** The first member, and what there is behind it. */
  lemma FirstEntry(entries: seq<Entry>)
    requires entries != [] && forall k :: 0 <= k < |entries| ==> ProperEntry(entries[k])
    ensures var e, rest := entries[0], entries[1..];
            && Proper(e.value) && Blank(e.after) && ProperString(e.body, e.name) && Blank(e.gap) && Blank(e.ahead)
            && EntriesFrom(entries) ==
               InQuotes(e.body) + (e.gap + (":" + (e.ahead + (Written(e.value) + (e.after + EntriesRest(entries))))))
            && MembersOf(entries) == [Member(CString(PiecesBytes(e.name)), Tree(e.value))] + MembersOf(rest)
            && (rest == [] ==> MembersOf(rest) == [])
            && MembersNesting(MembersOf(entries)) >= Nesting(Tree(e.value))
            && MembersNesting(MembersOf(entries)) >= MembersNesting(MembersOf(rest))
            && (rest == [] ==> EntriesRest(entries) == "}")
            && (rest != [] ==> Blank(rest[0].before) && EntriesRest(entries) == "," + (rest[0].before + EntriesFrom(rest)))
            && (forall k :: 0 <= k < |rest| ==> ProperEntry(rest[k]))
  {
    hide Proper, ProperString, Tree, Written, InQuotes, PiecesBytes;
    assert ProperEntry(entries[0]);
    assert MembersOf(entries)[1..] == MembersOf(entries[1..]);
    if |entries| > 1 {
      assert entries[1..][0] == entries[1] && ProperEntry(entries[1]);
    }
  }

  lemma EntriesRestStart(entries: seq<Entry>)
    requires entries != []
    ensures var t := EntriesRest(entries); t != "" && (t[0] == '}' || t[0] == ',')
  {
    hide EntriesFrom;
  }

  lemma {:induction false} EntryLaid(s: string, i: nat, p: nat, e: Entry, t: string, depth: nat)
    requires Proper(e.value) && Blank(e.after) && ProperString(e.body, e.name) && Blank(e.gap) && Blank(e.ahead)
    requires Nesting(Tree(e.value)) + depth <= NESTING_LIMIT && t != "" && t[0] > ' ' && !IsNumeral(t[0])
    requires i <= |s| && SkipSpace(s, i) == p
    requires TextAt(s, p, InQuotes(e.body) + (e.gap + (":" + (e.ahead + (Written(e.value) + (e.after + t))))))
    ensures var n := p + |InQuotes(e.body)| + |e.gap| + 1 + |e.ahead| + |Written(e.value)|;
            && ParseMember(s, i, depth) == OneOk(Member(CString(PiecesBytes(e.name)), Tree(e.value)), n)
            && SkipSpace(s, n) == n + |e.after| && TextAt(s, n + |e.after|, t)
    decreases e, 2
  {
    hide ParseValue, ParseKey, SkipSpace, TextAt, Proper, ProperString, Tree, Written, Stops, Ends, Blank, PiecesBytes, InQuotes;
    WrittenStart(e.value);
    KeyLaid(s, i, p, e, Written(e.value) + (e.after + t));
    var v := p + |InQuotes(e.body)| + |e.gap| + 1 + |e.ahead|;
    var n := v + |Written(e.value)|;
    SplitText(s, v, Written(e.value), e.after + t);
    SplitText(s, n, e.after, t);
    SkipBlank(s, n, e.after, t);
    NumeralEnds(e.value, s, n);
    Accepted(s, v, e.value, depth);
  }

  lemma {:induction false} EntriesLaid(s: string, i: nat, p: nat, entries: seq<Entry>, depth: nat)
    requires entries != [] && (forall k :: 0 <= k < |entries| ==> ProperEntry(entries[k]))
    requires MembersNesting(MembersOf(entries)) + depth <= NESTING_LIMIT
    requires i <= |s| && SkipSpace(s, i) == p && TextAt(s, p, EntriesFrom(entries))
    ensures ParseMembers(s, i, depth) == MembersOk(MembersOf(entries), p + |EntriesFrom(entries)|)
    decreases entries, 2
  {
    hide ParseValue, ParseMember, ParseMembers, SkipSpace, TextAt, Proper, ProperEntry, ProperString, Tree, Written;
    hide EntriesFrom, EntriesRest, MembersOf, MembersNesting, Blank, PiecesBytes, InQuotes;
    var e, rest := entries[0], entries[1..];
    FirstEntry(entries);
    EntriesRestStart(entries);
    EntryLaid(s, i, p, e, EntriesRest(entries), depth);
    var n := p + |InQuotes(e.body)| + |e.gap| + 1 + |e.ahead| + |Written(e.value)|;
    var m := n + |e.after|;
    CharAt(s, m, EntriesRest(entries), 0);
    Reaches(s, m, EntriesRest(entries));
    MembersStep(s, i, depth, Member(CString(PiecesBytes(e.name)), Tree(e.value)), n, m);
    if rest != [] {
      SplitText(s, m, ",", rest[0].before + EntriesFrom(rest));
      SplitText(s, m + 1, rest[0].before, EntriesFrom(rest));
      EntriesStart(rest);
      SkipBlank(s, m + 1, rest[0].before, EntriesFrom(rest));
      EntriesLaid(s, m + 1, m + 1 + |rest[0].before|, rest, depth);
    }
  }

  lemma Reaches(s: string, m: nat, t: string)
    requires TextAt(s, m, t)
    ensures m + |t| <= |s|
  {
  }
}
