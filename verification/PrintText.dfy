/** The text that `cJSON_Print` and `cJSON_PrintUnformatted` produce, as a function. */
module PrintText {
  import opened Json
  import opened Decimal

  function HexDigit(d: nat): char
    requires d < 16
  {
    if d < 10 then ((d + 48) as char) else ((d + 87) as char)
  }

  /** One byte of a string literal. */
  function Escape(c: char): string {
    if c == '\"' then "\\\""
    else if c == '\\' then "\\\\"
    else if c == '\U{8}' then "\\b"
    else if c == '\U{C}' then "\\f"
    else if c == '\n' then "\\n"
    else if c == '\r' then "\\r"
    else if c == '\t' then "\\t"
    else if c < ' ' then ['\\', 'u', '0', '0', HexDigit((c as int) / 16), HexDigit((c as int) % 16)]
    else [c]
  }

  function EscapeAll(s: string): (r: string)
    ensures |r| >= |s|
  {
    if s == "" then "" else Escape(s[0]) + EscapeAll(s[1..])
  }

  function Quote(s: string): string { "\"" + EscapeAll(s) + "\"" }

  function Tabs(n: nat): (r: string)
    ensures |r| == n && forall i :: 0 <= i < n ==> r[i] == '\t'
  {
    if n == 0 then "" else "\t" + Tabs(n - 1)
  }

  /** `print_value` at a nesting depth; formatting adds line breaks, tabs and spaces. */
  function Text(j: Json, format: bool, depth: nat): string
    decreases j
  {
    match j
    case Invalid => ""
    case Null => "null"
    case Bool(b) => if b then "true" else "false"
    case Num(n) => SignedDec(n)
    case Str(s) => Quote(s)
    case Arr(items) => "[" + ItemsText(items, format, depth + 1) + "]"
    case Obj(ms) =>
      (if format then "{\n" else "{") + MembersText(ms, format, depth + 1) +
      ((if format then Tabs(depth) else "") + "}")
  }

  function ItemSeparator(last: bool, format: bool): string {
    if last then "" else if format then ", " else ","
  }

  function ItemsText(items: seq<Json>, format: bool, depth: nat): string
    decreases items
  {
    if items == [] then ""
    else Text(items[0], format, depth) + (ItemSeparator(|items| == 1, format) + ItemsText(items[1..], format, depth))
  }

  function MemberSeparator(last: bool, format: bool): string {
    (if last then "" else ",") + (if format then "\n" else "")
  }

  function KeyText(key: string, format: bool, depth: nat): string {
    (if format then Tabs(depth) else "") + (Quote(key) + (if format then ":\t" else ":"))
  }

  function MembersText(ms: seq<Member>, format: bool, depth: nat): string
    decreases ms
  {
    if ms == [] then ""
    else
      KeyText(ms[0].key, format, depth) +
      (Text(ms[0].value, format, depth) + (MemberSeparator(|ms| == 1, format) + MembersText(ms[1..], format, depth)))
  }

  // ----- texts are C strings -----

  predicate NoNul(s: string) {
    forall i :: 0 <= i < |s| ==> s[i] != '\0'
  }

  /** The strings and keys of a tree are C strings. */
  predicate CStrings(j: Json)
    decreases j
  {
    match j
    case Str(s) => NoNul(s)
    case Arr(items) => forall i :: 0 <= i < |items| ==> CStrings(items[i])
    case Obj(ms) => forall i :: 0 <= i < |ms| ==> NoNul(ms[i].key) && CStrings(ms[i].value)
    case _ => true
  }

  lemma {:induction false} EscapeNoNul(s: string)
    requires NoNul(s)
    ensures NoNul(EscapeAll(s))
  {
    if s != "" {
      EscapeNoNul(s[1..]);
    }
  }

  lemma {:induction false} TextNoNul(j: Json, format: bool, depth: nat)
    requires CStrings(j)
    ensures NoNul(Text(j, format, depth))
    decreases j
  {
    match j
    case Str(s) => EscapeNoNul(s);
    case Arr(items) => ItemsNoNul(items, format, depth + 1);
    case Obj(ms) => MembersNoNul(ms, format, depth + 1);
    case _ =>
  }

  lemma {:induction false} ItemsNoNul(items: seq<Json>, format: bool, depth: nat)
    requires forall i :: 0 <= i < |items| ==> CStrings(items[i])
    ensures NoNul(ItemsText(items, format, depth))
    decreases items
  {
    if items != [] {
      TextNoNul(items[0], format, depth);
      ItemsNoNul(items[1..], format, depth);
    }
  }

  lemma {:induction false} MembersNoNul(ms: seq<Member>, format: bool, depth: nat)
    requires forall i :: 0 <= i < |ms| ==> NoNul(ms[i].key) && CStrings(ms[i].value)
    ensures NoNul(MembersText(ms, format, depth))
    decreases ms
  {
    if ms != [] {
      EscapeNoNul(ms[0].key);
      TextNoNul(ms[0].value, format, depth);
      MembersNoNul(ms[1..], format, depth);
    }
  }
}
