/**
 The texts of a tree: blanks around every token, strings in any spelling, numerals with leading
 zeros. The texts of RFC 8259 are among them.
 */
module Layouts {
  import opened Json
  import opened Decimal
  import opened StringLiteral
  import opened Spelling

  /** A tree together with how it is written. */
  datatype Layout =
    | Word(value: Json)
    | Numeral(negative: bool, digits: string)
    | Literal(body: string, pieces: seq<Piece>)
    | Brackets(blank: string, items: seq<Item>)       // the blank stands in empty brackets
    | Braces(blank: string, entries: seq<Entry>)

  datatype Item = Item(before: string, value: Layout, after: string)

  /** Blanks in front of the name, the colon, the value, and the comma or brace. */
  datatype Entry = Entry(before: string, body: string, name: seq<Piece>, gap: string, ahead: string, value: Layout, after: string)

  /** The white space of RFC 8259 section 2, and all other bytes up to the space, as the code has it. */
  predicate Blank(s: string) {
    forall i :: 0 <= i < |s| ==> s[i] <= ' '
  }

  predicate AllDigits(s: string) {
    forall i :: 0 <= i < |s| ==> IsDigit(s[i])
  }

  function Sign(negative: bool): string { if negative then "-" else "" }

  function Signed(negative: bool, digits: string): int
    requires AllDigits(digits)
  {
    var v: int := Value(digits);
    if negative then -v else v
  }

  /** At most 63 bytes are copied for `strtod`; the model knows integers of the `int` range only. */
  predicate ProperNumeral(negative: bool, digits: string) {
    && digits != "" && AllDigits(digits) && |Sign(negative) + digits| <= 63
    && INT_MIN <= Signed(negative, digits) <= INT_MAX
  }

  predicate Proper(l: Layout)
    decreases l
  {
    match l
    case Word(j) => j.Null? || j.Bool?
    case Numeral(negative, digits) => ProperNumeral(negative, digits)
    case Literal(body, ps) => ProperString(body, ps)
    case Brackets(blank, items) => Blank(blank) && forall i :: 0 <= i < |items| ==> ProperItem(items[i])
    case Braces(blank, entries) => Blank(blank) && forall i :: 0 <= i < |entries| ==> ProperEntry(entries[i])
  }

  predicate ProperItem(x: Item)
    decreases x
  {
    Blank(x.before) && Proper(x.value) && Blank(x.after)
  }

  predicate ProperEntry(x: Entry)
    decreases x
  {
    && Blank(x.before) && ProperString(x.body, x.name) && Blank(x.gap) && Blank(x.ahead)
    && Proper(x.value) && Blank(x.after)
  }

  // ----- the tree -----

  /** The tree that is written; it means something for proper layouts. */
  function Tree(l: Layout): Json
    decreases l
  {
    match l
    case Word(j) => j
    case Numeral(negative, digits) => if ProperNumeral(negative, digits) then Num(Signed(negative, digits)) else Invalid
    case Literal(_, ps) => Str(CString(PiecesBytes(ps)))
    case Brackets(_, items) => Arr(ItemsOf(items))
    case Braces(_, entries) => Obj(MembersOf(entries))
  }

  function ItemsOf(items: seq<Item>): (r: seq<Json>)
    ensures |r| == |items|
    decreases items
  {
    if items == [] then [] else [Tree(items[0].value)] + ItemsOf(items[1..])
  }

  function MembersOf(entries: seq<Entry>): (r: seq<Member>)
    ensures |r| == |entries|
    decreases entries
  {
    if entries == [] then []
    else [Member(CString(PiecesBytes(entries[0].name)), Tree(entries[0].value))] + MembersOf(entries[1..])
  }

  // ----- the text -----

  function WordText(j: Json): string {
    match j
    case Null => "null"
    case Bool(b) => if b then "true" else "false"
    case _ => ""
  }

  function Written(l: Layout): string
    decreases l
  {
    match l
    case Word(j) => WordText(j)
    case Numeral(negative, digits) => Sign(negative) + digits
    case Literal(body, _) => InQuotes(body)
    case Brackets(blank, items) => "[" + (if items == [] then blank + "]" else items[0].before + ItemsFrom(items))
    case Braces(blank, entries) => "{" + (if entries == [] then blank + "}" else entries[0].before + EntriesFrom(entries))
  }

  /** From the first element up to and including the bracket. */
  function ItemsFrom(items: seq<Item>): string
    decreases items
  {
    if items == [] then ""
    else Written(items[0].value) + (items[0].after + ItemsRest(items))
  }

  /** From behind the first element. */
  function ItemsRest(items: seq<Item>): string
    requires items != []
    decreases items, 0
  {
    if |items| == 1 then "]" else "," + (items[1].before + ItemsFrom(items[1..]))
  }

  /** From the first name up to and including the brace. */
  function EntriesFrom(entries: seq<Entry>): string
    decreases entries
  {
    if entries == [] then ""
    else
      var e := entries[0];
      InQuotes(e.body) + (e.gap + (":" + (e.ahead + (Written(e.value) + (e.after + EntriesRest(entries))))))
  }

  function EntriesRest(entries: seq<Entry>): string
    requires entries != []
    decreases entries, 0
  {
    if |entries| == 1 then "}" else "," + (entries[1].before + EntriesFrom(entries[1..]))
  }
}
