/** Texts that stand inside other texts. */
module Texts {
  import opened Parser

  lemma SplitText(s: string, i: nat, a: string, b: string)
    requires TextAt(s, i, a + b)
    ensures TextAt(s, i, a) && TextAt(s, i + |a|, b)
  {
    assert s[i..i + |a|] == s[i..i + |a + b|][..|a|];
    assert s[i + |a|..i + |a| + |b|] == s[i..i + |a + b|][|a|..];
  }

  lemma JoinText(s: string, i: nat, a: string, b: string)
    requires TextAt(s, i, a) && TextAt(s, i + |a|, b)
    ensures TextAt(s, i, a + b)
  {
    assert s[i..i + |a + b|] == s[i..i + |a|] + s[i + |a|..i + |a| + |b|];
  }

  lemma CharAt(s: string, i: nat, t: string, k: nat)
    requires TextAt(s, i, t) && k < |t|
    ensures s[i + k] == t[k]
  {
    assert s[i..i + |t|][k] == s[i + k];
  }

  lemma OneChar(s: string, i: nat)
    requires i < |s|
    ensures TextAt(s, i, [s[i]])
  {
  }

  lemma Slice(s: string, i: nat, n: nat)
    requires i <= n <= |s|
    ensures TextAt(s, i, s[i..n])
  {
  }
}
