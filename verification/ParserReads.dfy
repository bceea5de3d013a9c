/**
 The one read of the parser that no test of the length guards: `parse_object` goes on to the next key
 behind a comma, and `parse_string` looks at its first byte. Behind the end of the text there is none.
 */
module ParserReads {
  import opened Json
  import opened StringLiteral
  import opened Parser
  import opened PrintText
  import opened LiteralRoundTrip

  /** Whether `parse_value` comes to ask for a key at the end of the text. */
  predicate PastValue(s: string, i: nat, depth: nat)
    requires i <= |s|
    decreases |s| - i, 1
  {
    if i < |s| && s[i] == '[' then PastArray(s, i, depth)
    else if i < |s| && s[i] == '{' then PastObject(s, i, depth)
    else false
  }

  predicate PastArray(s: string, i: nat, depth: nat)
    requires i < |s| && s[i] == '['
    decreases |s| - i, 0
  {
    depth < NESTING_LIMIT &&
    var first := SkipSpace(s, i + 1);
    first < |s| && s[first] != ']' && PastItems(s, first, depth + 1)
  }

  predicate PastItems(s: string, i: nat, depth: nat)
    requires i <= |s|
    decreases |s| - i, 2
  {
    PastValue(s, SkipSpace(s, i), depth) ||
    match ParseValue(s, SkipSpace(s, i), depth)
    case Ok(_, n) =>
      var m := SkipSpace(s, n);
      m < |s| && s[m] == ',' && PastItems(s, m + 1, depth)
    case _ => false
  }

  predicate PastObject(s: string, i: nat, depth: nat)
    requires i < |s| && s[i] == '{'
    decreases |s| - i, 0
  {
    depth < NESTING_LIMIT &&
    var first := SkipSpace(s, i + 1);
    first < |s| && s[first] != '}' && PastMembers(s, first, depth + 1)
  }

  predicate PastMembers(s: string, i: nat, depth: nat)
    requires i <= |s|
    decreases |s| - i, 3
  {
    i == |s| ||
    match ParseKey(s, i)
    case Failed(_) => false
    case Parsed(_, k) =>
      PastValue(s, SkipSpace(s, k), depth) ||
      match ParseValue(s, SkipSpace(s, k), depth)
      case Ok(_, n) =>
        var m := SkipSpace(s, n);
        m < |s| && s[m] == ',' && PastMembers(s, m + 1, depth)
      case _ => false
  }

  /** `cJSON_ParseWithLength` reads the byte behind the text. */
  predicate ReadsPast(s: string) {
    s != "" && PastValue(s, SkipSpace(s, SkipBom(s)), 0)
  }

  /** It happens behind a comma that ends the text, and the tree is not complete then. */
  lemma {:induction false} ValuePast(s: string, i: nat, depth: nat)
    requires i <= |s| && PastValue(s, i, depth)
    ensures s[|s| - 1] == ',' && ParseValue(s, i, depth) == Err(|s|)
    decreases |s| - i, 1
  {
    hide ParseArray, ParseObject, ParseString, ParseNumber, SkipSpace;
    NoWordAt(s, i);
    if s[i] == '[' {
      ArrayPast(s, i, depth);
    } else {
      ObjectPast(s, i, depth);
    }
  }

  lemma {:induction false} NoWordAt(s: string, i: nat)
    requires i < |s| && (s[i] == '[' || s[i] == '{')
    ensures !TextAt(s, i, "null") && !TextAt(s, i, "false") && !TextAt(s, i, "true")
  {
    forall t: string | t != "" && TextAt(s, i, t) ensures t[0] == s[i] {
      assert s[i..i + |t|][0] == s[i];
    }
    assert "null"[0] == 'n' && "false"[0] == 'f' && "true"[0] == 't';
  }

  lemma {:induction false} ArrayPast(s: string, i: nat, depth: nat)
    requires i < |s| && s[i] == '[' && PastArray(s, i, depth)
    ensures s[|s| - 1] == ',' && ParseArray(s, i, depth) == Err(|s|)
    decreases |s| - i, 0
  {
    hide ParseItems, PastItems, SkipSpace;
    ItemsPast(s, SkipSpace(s, i + 1), depth + 1);
  }

  lemma {:induction false} ItemsPast(s: string, i: nat, depth: nat)
    requires i < |s| && PastItems(s, i, depth)
    ensures s[|s| - 1] == ',' && ParseItems(s, i, depth) == ItemsErr(|s|)
    decreases |s| - i, 2
  {
    hide ParseValue, PastValue, SkipSpace;
    var j := SkipSpace(s, i);
    if PastValue(s, j, depth) {
      ValuePast(s, j, depth);
    } else {
      var m := SkipSpace(s, ParseValue(s, j, depth).next);
      if m + 1 < |s| {
        ItemsPast(s, m + 1, depth);
      } else {
        NothingPast(s, depth);
      }
    }
  }

  /** In an array the end is noticed. */
  lemma {:induction false} NothingPast(s: string, depth: nat)
    ensures !PastItems(s, |s|, depth)
  {
    assert ParseValue(s, |s|, depth).Err?;
  }

  lemma {:induction false} ObjectPast(s: string, i: nat, depth: nat)
    requires i < |s| && s[i] == '{' && PastObject(s, i, depth)
    ensures s[|s| - 1] == ',' && ParseObject(s, i, depth) == Err(|s|)
    decreases |s| - i, 0
  {
    hide ParseMembers, PastMembers, SkipSpace;
    MembersPast(s, SkipSpace(s, i + 1), depth + 1);
  }

  lemma {:induction false} MembersPast(s: string, i: nat, depth: nat)
    requires i < |s| && PastMembers(s, i, depth)
    ensures s[|s| - 1] == ',' && ParseMembers(s, i, depth) == MembersErr(|s|)
    decreases |s| - i, 3
  {
    hide ParseValue, PastValue, SkipSpace, ParseKey;
    var j := SkipSpace(s, ParseKey(s, i).next);
    if PastValue(s, j, depth) {
      ValuePast(s, j, depth);
    } else {
      var m := SkipSpace(s, ParseValue(s, j, depth).next);
      if m + 1 < |s| {
        MembersPast(s, m + 1, depth);
      } else {
        KeyPast(s, depth);
      }
    }
  }

  lemma {:induction false} KeyPast(s: string, depth: nat)
    ensures ParseMembers(s, |s|, depth) == MembersErr(|s|)
  {
  }

  /** A text that does not end in a comma is read inside its length only; so is every C string. */
  lemma {:induction false} ReadsInside(s: string, requireNul: bool)
    ensures ReadsPast(s) ==> s[|s| - 1] == ',' && ParseWithLength(s, requireNul) == Err(|s| - 1)
    ensures !ReadsPast(s + "\0")
  {
    hide ParseValue, PastValue, SkipSpace, SkipBom;
    if ReadsPast(s) {
      ValuePast(s, SkipSpace(s, SkipBom(s)), 0);
    }
    var c := s + "\0";
    if ReadsPast(c) {
      ValuePast(c, SkipSpace(c, SkipBom(c)), 0);
    }
  }

  lemma {:induction false} SkipHere(s: string, i: nat)
    requires i < |s| && s[i] > ' '
    ensures SkipSpace(s, i) == i
  {
  }

  /** An object that stops behind the comma after its first member; `{"a":null,` is such a text. */
  function Unfinished(k: string): string { "{" + Quote(k) + ":null," }

  lemma {:induction false} UnfinishedParts(k: string)
    ensures var s, c := Unfinished(k), 1 + |Quote(k)|;
            && |s| == c + 6 && s[0] == '{' && s[1] == '\"' && s[c] == ':' && s[c + 1] == 'n' && s[c + 5] == ','
            && TextAt(s, 1, Quote(k)) && TextAt(s, c + 1, "null")
  {
    var s, c := Unfinished(k), 1 + |Quote(k)|;
    assert s[1..c] == Quote(k) && s[c + 1..c + 5] == "null";
    assert s[1] == s[1..c][0] && Quote(k)[0] == '\"';
  }

  lemma {:induction false} UnfinishedMember(k: string)
    requires NoNul(k)
    ensures var s, c := Unfinished(k), 1 + |Quote(k)|;
            ParseKey(s, 1) == Parsed(k, c + 1) && ParseValue(s, c + 1, 1) == Ok(Null, c + 5)
  {
    hide ParseString, Quote, SkipSpace;
    var s, c := Unfinished(k), 1 + |Quote(k)|;
    UnfinishedParts(k);
    QuotedParses(s, 1, k);
    SkipHere(s, 1);
    SkipHere(s, c);
  }

  /** Such a text, given with its length, is read past its end. */
  lemma {:induction false} CommaAtEnd(k: string)
    requires NoNul(k)
    ensures ReadsPast(Unfinished(k))
  {
    hide ParseKey, ParseValue, Quote, SkipSpace, PastMembers;
    var s, c := Unfinished(k), 1 + |Quote(k)|;
    UnfinishedParts(k);
    UnfinishedMember(k);
    SkipHere(s, 0);
    SkipHere(s, 1);
    UnfinishedWalk(s, k, c);
    assert '{' as int == 123;
    assert SkipBom(s) == 0;
    assert PastObject(s, 0, 0);
  }

  lemma {:induction false} UnfinishedWalk(s: string, k: string, c: nat)
    requires c + 6 == |s| && s[c + 1] > ' ' && s[c + 5] == ','
    requires ParseKey(s, 1) == Parsed(k, c + 1) && ParseValue(s, c + 1, 1) == Ok(Null, c + 5)
    ensures PastMembers(s, 1, 1)
  {
    hide ParseKey, ParseValue, SkipSpace, PastValue;
    SkipHere(s, c + 1);
    SkipHere(s, c + 5);
    assert PastMembers(s, c + 6, 1);
  }
}
