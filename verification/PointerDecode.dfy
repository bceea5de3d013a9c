/**
 `decode_pointer_inplace`: undoing the escapes of a token inside its own buffer.

 The code moves its write position over ordinary bytes without copying them, so it undoes
 `Encode` on some keys only. `DecodeExact` says on which.
 */
module PointerDecode {
  import opened Pointer

  /**
   The loop, on the bytes before the NUL: `d` is the write position, `s` the read position.
   The result is the C string left in the buffer.
   */
  function DecodeFrom(buf: string, d: nat, s: nat): (r: string)
    requires d <= s <= |buf|
    ensures |r| <= |buf|
    decreases |buf| - s
  {
    if s == |buf| then buf[..d]
    else if buf[s] == '~' then
      if s + 1 < |buf| && buf[s + 1] == '0' then DecodeFrom(buf[d := '~'], d + 1, s + 2)
      else if s + 1 < |buf| && buf[s + 1] == '1' then DecodeFrom(buf[d + 1 := '/'], d + 1, s + 2)
      else buf
    else DecodeFrom(buf, d + 1, s + 1)
  }

  function Decode(token: string): string {
    DecodeFrom(token, 0, 0)
  }

  /** The code on a buffer that holds a NUL-terminated token. */
  method DecodeInPlace(buf: array<char>)
    requires buf.Length > 0 && buf[buf.Length - 1] == '\0'
    requires forall i :: 0 <= i < buf.Length - 1 ==> buf[i] != '\0'
    modifies buf
    ensures var r := Decode(old(buf[..buf.Length - 1]));
            |r| < buf.Length && buf[..|r|] == r && buf[|r|] == '\0'
  {
    var d, s := 0, 0;
    ghost var n := buf.Length - 1;
    ghost var token := buf[..n];
    while buf[s] != '\0'
      invariant 0 <= d <= s <= n && buf[n] == '\0'
      invariant forall i :: s <= i < n ==> buf[i] != '\0'
      invariant Decode(token) == DecodeFrom(buf[..n], d, s)
      decreases n - s
    {
      ghost var before := buf[..n];
      if buf[s] == '~' {
        if buf[s + 1] == '0' {
          buf[d] := '~';
          assert buf[..n] == before[d := '~'];
        } else if buf[s + 1] == '1' {
          buf[d + 1] := '/';
          assert buf[..n] == before[d + 1 := '/'];
        } else {
          return;
        }
        s := s + 1;
      }
      d, s := d + 1, s + 1;
    }
    assert buf[..n][..d] == buf[..d];
    buf[d] := '\0';
  }

  /** The buffer after the first `i` bytes of the key have been decoded. */
  function Mixed(key: string, i: nat): (r: string)
    requires i <= |key|
    ensures |r| == |Encode(key)|
  {
    seq(|Encode(key)|, j requires 0 <= j < |Encode(key)| =>
      if j < i && key[j] == '~' then '~'
      else if 0 < j <= i && key[j - 1] == '/' then '/'
      else Encode(key)[j])
  }

  lemma {:induction false} EncodeGrows(key: string, i: nat)
    requires i <= |key|
    ensures |Encode(key[..i])| >= i
    ensures 0 < i && key[i - 1] == '/' ==> |Encode(key[..i])| > i
    ensures Encode(key[..i]) <= Encode(key)
  {
    EncodeConcat(key[..i], key[i..]);
    assert key == key[..i] + key[i..];
    if i > 0 {
      EncodePrefix(key, i - 1);
    }
  }

  /** The bytes at the read position are those of the encoding, not yet overwritten. */
  lemma ReadAhead(key: string, i: nat)
    requires i < |key|
    ensures var s, e := |Encode(key[..i])|, EncodeChar(key[i]);
            i <= s && s + |e| == |Encode(key[..i + 1])| <= |Encode(key)| &&
            Mixed(key, i)[s..s + |e|] == e
  {
    EncodeGrows(key, i);
    EncodeGrows(key, i + 1);
    EncodePrefix(key, i);
    var s, e := |Encode(key[..i])|, EncodeChar(key[i]);
    forall k | 0 <= k < |e| ensures Mixed(key, i)[s + k] == e[k] {
      assert Encode(key)[s + k] == Encode(key[..i + 1])[s + k];
    }
  }

  lemma MixedStep(key: string, i: nat)
    requires i < |key| && i < |Encode(key)| && (key[i] == '/' ==> i + 1 < |Encode(key)|)
    ensures Mixed(key, i + 1) ==
            if key[i] == '~' then Mixed(key, i)[i := '~']
            else if key[i] == '/' then Mixed(key, i)[i + 1 := '/']
            else Mixed(key, i)
  {
  }

  /** One turn of the loop. */
  lemma DecodeTurn(key: string, i: nat)
    requires i < |key|
    ensures var s, t := |Encode(key[..i])|, |Encode(key[..i + 1])|;
            i <= s && i + 1 <= t <= |Encode(key)| && s <= |Encode(key)| &&
            DecodeFrom(Mixed(key, i), i, s) == DecodeFrom(Mixed(key, i + 1), i + 1, t)
  {
    hide Mixed, Encode;
    var buf, s, e := Mixed(key, i), |Encode(key[..i])|, EncodeChar(key[i]);
    EncodeGrows(key, i + 1);
    ReadAhead(key, i);
    MixedStep(key, i);
    assert buf[s] == buf[s..s + |e|][0];
    if |e| == 2 {
      assert buf[s + 1] == buf[s..s + |e|][1];
    }
  }

  lemma {:induction false} DecodeRun(key: string, i: nat)
    requires i <= |key| && i <= |Encode(key[..i])| <= |Encode(key)|
    ensures DecodeFrom(Mixed(key, i), i, |Encode(key[..i])|) == Mixed(key, |key|)[..|key|]
    decreases |key| - i
  {
    if i == |key| {
      assert key[..i] == key;
    } else {
      DecodeTurn(key, i);
      DecodeRun(key, i + 1);
    }
  }

  /** The keys whose encoding is decoded back: no slash, and ordinary bytes that need not move. */
  predicate Safe(key: string) {
    forall i :: 0 <= i < |key| ==> key[i] != '/' && (key[i] != '~' ==> Encode(key)[i] == key[i])
  }

  /** Decoding inverts encoding on a key exactly when the key is safe. */
  lemma DecodeExact(key: string)
    ensures Decode(Encode(key)) == key <==> Safe(key)
  {
    assert key[..0] == "";
    assert Mixed(key, 0) == Encode(key);
    DecodeRun(key, 0);
    var r := Mixed(key, |key|)[..|key|];
    if Safe(key) {
      assert r == key;
    } else {
      var i := FirstUnsafe(key);
      EncodeNoSlash(key);
      assert r[i] != key[i];
    }
  }

  lemma FirstUnsafe(key: string) returns (i: nat)
    requires !Safe(key)
    ensures i < |key| && (key[i] == '/' || (key[i] != '~' && Encode(key)[i] != key[i]))
    ensures forall k :: 0 <= k < i ==> key[k] != '/'
  {
    i := 0;
    while key[i] != '/' && (key[i] == '~' || Encode(key)[i] == key[i])
      invariant i < |key|
      invariant forall k :: 0 <= k < i ==> key[k] != '/' && (key[k] != '~' ==> Encode(key)[k] == key[k])
      decreases |key| - i
    {
      i := i + 1;
    }
  }

  /** Keys without `~` and `/` are safe. */
  lemma {:induction false} PlainIsSafe(key: string)
    requires forall i :: 0 <= i < |key| ==> key[i] != '~' && key[i] != '/'
    ensures Encode(key) == key && Safe(key)
  {
    if key != "" {
      PlainIsSafe(key[1..]);
    }
  }

  /** `a~b` is not: its escape moves the `b`, which the code does not copy back. */
  lemma TildeInside()
    ensures Encode("a~b") == "a~0b" && Decode("a~0b") == "a~0" && !Safe("a~b")
  {
    assert Encode("a~b") == "a" + ("~0" + Encode("b")) by {
      assert "a~b"[1..] == "~b" && "~b"[1..] == "b";
    }
    EncodeOne('b');
    assert "a~0b"[1 := '~'] == "a~0b";
    assert "a~0b"[..3] == "a~0";
    DecodeExact("a~b");
  }
}
