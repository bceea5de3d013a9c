/**
 C strings and the two key orders of cJSON.

 A C string is modelled as the `string` of its bytes before the terminating NUL, so that
 "the byte at the end" is the end of the sequence.
 */
module Keys {

  /** `tolower` in the C locale. */
  function ToLower(c: char): char {
    if 'A' <= c <= 'Z' then ((c as int) + 32) as char else c
  }

  function Lower(s: string): (r: string)
    ensures |r| == |s|
    ensures forall i :: 0 <= i < |s| ==> r[i] == ToLower(s[i])
  {
    if s == "" then "" else [ToLower(s[0])] + Lower(s[1..])
  }

  /** The spelling under which a key is compared: itself, or its lower-case image. */
  function Norm(s: string, cs: bool): string {
    if cs then s else Lower(s)
  }

  /** `strcmp`: the difference of the first pair of bytes that differ, NUL included. */
  function StrCmp(a: string, b: string): int {
    if a == "" && b == "" then 0
    else if a == "" then -(b[0] as int) - 1
    else if b == "" then (a[0] as int) + 1
    else if a[0] == b[0] then StrCmp(a[1..], b[1..])
    else (a[0] as int) - (b[0] as int)
  }

  /** Whether `compare_strings` (or `case_insensitive_strcmp`) puts `a` before `b`. */
  predicate Before(a: string, b: string, cs: bool) {
    StrCmp(Norm(a, cs), Norm(b, cs)) < 0
  }

  predicate SameKey(a: string, b: string, cs: bool) {
    StrCmp(Norm(a, cs), Norm(b, cs)) == 0
  }

  /** The byte loop of `compare_strings`; only its sign is used by any caller. */
  method CompareStrings(a: string, b: string, cs: bool) returns (diff: int)
    ensures diff < 0 <==> Before(a, b, cs)
    ensures diff == 0 <==> SameKey(a, b, cs)
  {
    var i := 0;
    var x, y := Norm(a, cs), Norm(b, cs);
    while i < |a| && i < |b| && (if cs then a[i] == b[i] else ToLower(a[i]) == ToLower(b[i]))
      invariant 0 <= i <= |a| && i <= |b|
      invariant StrCmp(x, y) == StrCmp(x[i..], y[i..])
    {
      assert x[i..][1..] == x[i + 1..] && y[i..][1..] == y[i + 1..];
      i := i + 1;
    }
    if i == |a| && i == |b| {
      return 0;
    } else if i == |a| {
      return -1;
    } else if i == |b| {
      return 1;
    } else if cs {
      return (a[i] as int) - (b[i] as int);
    } else {
      return (ToLower(a[i]) as int) - (ToLower(b[i]) as int);
    }
  }

  // ----- the order laws -----

  lemma {:induction false} StrCmpZero(a: string, b: string)
    ensures StrCmp(a, b) == 0 <==> a == b
  {
    if a != "" && b != "" && a[0] == b[0] {
      StrCmpZero(a[1..], b[1..]);
      assert a == [a[0]] + a[1..] && b == [b[0]] + b[1..];
    }
  }

  lemma {:induction false} StrCmpFlip(a: string, b: string)
    ensures StrCmp(a, b) == -StrCmp(b, a)
  {
    if a != "" && b != "" && a[0] == b[0] {
      StrCmpFlip(a[1..], b[1..]);
    }
  }

  lemma {:induction false} StrCmpTrans(a: string, b: string, c: string)
    requires StrCmp(a, b) < 0 && StrCmp(b, c) < 0
    ensures StrCmp(a, c) < 0
  {
    if a != "" && b != "" && c != "" && a[0] == b[0] == c[0] {
      StrCmpTrans(a[1..], b[1..], c[1..]);
    }
  }

  /** Both key orders are strict total orders on the spellings they compare. */
  lemma KeyOrder(a: string, b: string, c: string, cs: bool)
    ensures SameKey(a, b, cs) <==> Norm(a, cs) == Norm(b, cs)
    ensures Before(a, b, cs) ==> !Before(b, a, cs) && !SameKey(a, b, cs)
    ensures Before(a, b, cs) || Before(b, a, cs) || SameKey(a, b, cs)
    ensures Before(a, b, cs) && Before(b, c, cs) ==> Before(a, c, cs)
  {
    var x, y, z := Norm(a, cs), Norm(b, cs), Norm(c, cs);
    StrCmpZero(x, y);
    StrCmpFlip(x, y);
    if Before(a, b, cs) && Before(b, c, cs) {
      StrCmpTrans(x, y, z);
    }
  }
}
