/** The parser's depth counter bounds the nesting of what it builds. */
module NestingLimit {
  import opened Json
  import opened StringLiteral
  import opened Parser

  /** How deeply containers are nested. */
  function Nesting(j: Json): nat
    decreases j
  {
    match j
    case Arr(items) => 1 + ItemsNesting(items)
    case Obj(ms) => 1 + MembersNesting(ms)
    case _ => 0
  }

  function ItemsNesting(items: seq<Json>): nat
    decreases items
  {
    if items == [] then 0
    else var a, b := Nesting(items[0]), ItemsNesting(items[1..]); if a > b then a else b
  }

  function MembersNesting(ms: seq<Member>): nat
    decreases ms
  {
    if ms == [] then 0
    else var a, b := Nesting(ms[0].value), MembersNesting(ms[1..]); if a > b then a else b
  }

  /** No tree parsed at a depth within the limit exceeds the limit from there. */
  lemma {:induction false} ValueNesting(s: string, i: nat, depth: nat)
    requires i <= |s| && depth <= NESTING_LIMIT
    ensures var r := ParseValue(s, i, depth); r.Ok? ==> Nesting(r.value) + depth <= NESTING_LIMIT
    decreases |s| - i, 1
  {
    hide ParseString, ParseArray, ParseObject, TextAt;
    if i < |s| && s[i] == '[' {
      ArrayNesting(s, i, depth);
    } else if i < |s| && s[i] == '{' {
      ObjectNesting(s, i, depth);
    }
  }

  lemma {:induction false} ArrayNesting(s: string, i: nat, depth: nat)
    requires i < |s| && s[i] == '[' && depth <= NESTING_LIMIT
    ensures var r := ParseArray(s, i, depth); r.Ok? ==> Nesting(r.value) + depth <= NESTING_LIMIT
    decreases |s| - i, 0
  {
    hide ParseItems, SkipSpace;
    if depth < NESTING_LIMIT && SkipSpace(s, i + 1) < |s| {
      ItemsNest(s, SkipSpace(s, i + 1), depth + 1);
    }
  }

  lemma {:induction false} ItemsNest(s: string, i: nat, depth: nat)
    requires i <= |s| && depth <= NESTING_LIMIT
    ensures var r := ParseItems(s, i, depth); r.ItemsOk? ==> ItemsNesting(r.items) + depth <= NESTING_LIMIT
    decreases |s| - i, 2
  {
    hide ParseValue, SkipSpace;
    ValueNesting(s, SkipSpace(s, i), depth);
    var r := ParseValue(s, SkipSpace(s, i), depth);
    if r.Ok? {
      var m := SkipSpace(s, r.next);
      if m < |s| && s[m] == ',' {
        ItemsNest(s, m + 1, depth);
      }
    }
  }

  lemma {:induction false} ObjectNesting(s: string, i: nat, depth: nat)
    requires i < |s| && s[i] == '{' && depth <= NESTING_LIMIT
    ensures var r := ParseObject(s, i, depth); r.Ok? ==> Nesting(r.value) + depth <= NESTING_LIMIT
    decreases |s| - i, 0
  {
    hide ParseMembers, SkipSpace;
    if depth < NESTING_LIMIT && SkipSpace(s, i + 1) < |s| {
      MembersNest(s, SkipSpace(s, i + 1), depth + 1);
    }
  }

  lemma {:induction false} MembersNest(s: string, i: nat, depth: nat)
    requires i <= |s| && depth <= NESTING_LIMIT
    ensures var r := ParseMembers(s, i, depth); r.MembersOk? ==> MembersNesting(r.members) + depth <= NESTING_LIMIT
    decreases |s| - i, 3
  {
    hide ParseValue, ParseKey, SkipSpace;
    var key := ParseKey(s, i);
    if key.Parsed? {
      ValueNesting(s, SkipSpace(s, key.next), depth);
    }
    var r := ParseMember(s, i, depth);
    if r.OneOk? {
      var m := SkipSpace(s, r.next);
      if m < |s| && s[m] == ',' {
        MembersNest(s, m + 1, depth);
      }
    }
  }

  /** Whatever the text, no parsed tree is nested deeper than `CJSON_NESTING_LIMIT`. */
  lemma ParseNesting(s: string, requireNul: bool)
    ensures var r := ParseWithLength(s, requireNul); r.Ok? ==> Nesting(r.value) <= NESTING_LIMIT
  {
    hide ParseValue, SkipSpace;
    if s != "" {
      ValueNesting(s, SkipSpace(s, SkipBom(s)), 0);
    }
  }
}
