/** One token of a pointer after the other: when it leads on, and when it leads nowhere. */
module PointerSteps {
  import opened Wrappers
  import opened Keys
  import opened Json
  import opened Decimal
  import opened Pointer
  import opened PointerLookup

  // ----- indices in front of the rest of a path -----

  lemma {:induction false} ScanLocal(t: string, rest: string, i: nat, acc: nat)
    requires Terminates(rest) && i <= |t|
    ensures ScanIndex(t + rest, i, acc) == ScanIndex(t, i, acc)
    decreases |t| - i
  {
    var p := t + rest;
    if i < |t| {
      assert p[i] == t[i] && p[0] == t[0];
      if t[i] >= '0' && t[0] <= '9' {
        ScanLocal(t, rest, i + 1, (10 * acc + ((t[i] as int) - 48)) % SIZE_MODULUS);
      }
    } else if i < |p| {
      assert p[i] == rest[0];
    }
  }

  /** What follows a token does not change its index. */
  lemma IndexLocal(t: string, rest: string)
    requires NoSlash(t) && Terminates(rest)
    ensures DecodeIndex(t + rest) == DecodeIndex(t)
  {
    var p := t + rest;
    ScanLocal(t, rest, 0, 0);
    ScanStopsAt(t, 0, 0);
    assert forall k :: 0 <= k < |t| ==> p[k] == t[k];
    assert |t| < |p| ==> p[|t|] == rest[0];
  }

  /** A token of digits leads to the element of that number, if there is one; a token that is no index leads nowhere. */
  lemma ArrayStep(items: seq<Json>, t: string, rest: string, cs: bool)
    requires NoSlash(t) && Terminates(rest) && !WronglyAccepted(t) && (IsIndex(t) ==> Value(t) < SIZE_MODULUS)
    ensures Resolve(Arr(items), "/" + t + rest, cs) ==
            if IsIndex(t) && Value(t) < |items| then Under(Value(t), Resolve(items[Value(t)], rest, cs)) else None
  {
    hide DecodeIndex, WronglyAccepted;
    var p := "/" + t + rest;
    assert p[1..] == t + rest;
    IndexLocal(t, rest);
    DecodeIndexExact(t);
    SkipsToken(t, rest);
  }

  // ----- keys -----

  /** A tilde at the end of a token starts no escape. */
  lemma LastTilde(name: string, rest: string, cs: bool)
    requires Terminates(rest)
    ensures !ComparePointers(name, "~" + rest, cs)
  {
  }

  /** A token that matches a key is well escaped: it is the escaped form of some spelling of the key. */
  lemma {:induction false} MatchedToken(name: string, t: string, rest: string, cs: bool) returns (key: string)
    requires NoSlash(t) && Terminates(rest) && ComparePointers(name, t + rest, cs)
    ensures t == Encode(key) && Norm(key, cs) == Norm(name, cs)
    decreases |t|
  {
    var p := t + rest;
    if t == "" {
      assert p == rest;
      key := "";
    } else {
      assert p[0] == t[0];
      LastTilde(name, rest, cs);
      if t[0] == '~' {
        assert |t| > 1 by { assert t == "~" || |t| > 1; }
        assert p[2..] == t[2..] + rest;
        var more := MatchedToken(name[1..], t[2..], rest, cs);
        key := [name[0]] + more;
        assert key[1..] == more && t == EncodeChar(name[0]) + t[2..];
      } else {
        assert p[1..] == t[1..] + rest;
        var more := MatchedToken(name[1..], t[1..], rest, cs);
        key := [t[0]] + more;
        assert key[1..] == more && t == [t[0]] + t[1..];
      }
      NormParts(key, name, cs);
    }
  }

  /** The spellings that a token may stand for. */
  ghost predicate WellEscaped(t: string) { exists key :: t == Encode(key) }

  /**
   A well escaped token leads to the first member with that key, if there is one; any other leads
   nowhere.
   */
  lemma ObjectStep(ms: seq<Member>, t: string, rest: string, cs: bool)
    requires NoSlash(t) && Terminates(rest)
    ensures forall key :: t == Encode(key) ==>
              Resolve(Obj(ms), "/" + t + rest, cs) ==
              if Has(ms, key, cs) then Under(IndexOf(ms, key, cs), Resolve(ms[IndexOf(ms, key, cs)].value, rest, cs)) else None
    ensures !WellEscaped(t) ==> Resolve(Obj(ms), "/" + t + rest, cs) == None
  {
    forall key | t == Encode(key)
      ensures Resolve(Obj(ms), "/" + t + rest, cs) ==
              if Has(ms, key, cs) then Under(IndexOf(ms, key, cs), Resolve(ms[IndexOf(ms, key, cs)].value, rest, cs)) else None
    {
      hide Resolve;
      ResolveMember(ms, key, rest, cs);
    }
    if !WellEscaped(t) {
      NoneFound(ms, t, rest, cs);
      var p := "/" + t + rest;
      assert p[1..] == t + rest;
    }
  }

  lemma {:induction false} NoneFound(ms: seq<Member>, t: string, rest: string, cs: bool)
    requires NoSlash(t) && Terminates(rest) && !WellEscaped(t)
    ensures FindMember(ms, t + rest, cs) == |ms|
  {
    if ms != [] {
      if ComparePointers(ms[0].key, t + rest, cs) {
        var key := MatchedToken(ms[0].key, t, rest, cs);
        assert WellEscaped(t);
      }
      NoneFound(ms[1..], t, rest, cs);
    }
  }

  /** Below a node without children there is nothing. */
  lemma ScalarStep(j: Json, t: string, rest: string, cs: bool)
    requires !j.Arr? && !j.Obj?
    ensures Resolve(j, "/" + t + rest, cs) == None
  {
  }
}
