/**
 The sibling list of a cJSON container: nodes linked by `next` and `prev`.

 A list is described by the sequence of its nodes. `Chain` is what `sort_list` needs and
 gives: a NULL-terminated `next` chain in which every node but the head has its
 predecessor in `prev`. The head's `prev` is left open.
 */
module Siblings {
  class Node {
    const key: string
    var next: Node?
    var prev: Node?

    constructor (key: string)
      ensures this.key == key && next == null && prev == null
    {
      this.key := key;
      next, prev := null, null;
    }
  }

  function KeyOf(n: Node): string { n.key }

  ghost predicate Distinct(s: seq<Node>) {
    forall i, j :: 0 <= i < j < |s| ==> s[i] != s[j]
  }

  ghost predicate Disjoint(a: seq<Node>, b: seq<Node>) {
    forall i, j :: 0 <= i < |a| && 0 <= j < |b| ==> a[i] != b[j]
  }

  ghost predicate Within(a: seq<Node>, b: set<Node>) {
    forall i :: 0 <= i < |a| ==> a[i] in b
  }

  ghost function Elements(s: seq<Node>): (r: set<Node>)
    ensures Within(s, r)
  {
    set n | n in s
  }

  /** The link after position `i` of a list. */
  ghost function At(s: seq<Node>, i: nat): Node? {
    if i < |s| then s[i] else null
  }

  ghost predicate Chain(head: Node?, s: seq<Node>)
    reads s
  {
    && Distinct(s)
    && head == At(s, 0)
    && (forall i {:trigger s[i].next} :: 0 <= i < |s| ==> s[i].next == At(s, i + 1))
    && (forall i {:trigger s[i].prev} :: 0 < i < |s| ==> s[i].prev == s[i - 1])
  }
}
