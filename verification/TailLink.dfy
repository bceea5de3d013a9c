/**
 The `prev` of the head of a sibling list. It should point to the last node, which is how an append
 finds the end; sorting does not see to that. What it points to, and what that does to the list.
 */
module TailLink {
  /** To the last node; to NULL; to a node in front of the last; to a node that has left the list. */
  datatype Tail = Last | Nowhere | Inner(k: nat) | Gone

  /** A link to the node at position `k` of `n`. */
  function To(k: nat, n: nat): Tail {
    if k + 1 == n then Last else Inner(k)
  }

  /** Once the node at position `i` of `n` is detached. The head hands its link on; taking out the last node repairs it. */
  function AfterRemoval(tail: Tail, i: nat, n: nat): Tail {
    if n <= 1 || i + 1 == n then Last
    else match tail
      case Inner(k) => if k == i then Gone else if k > i then Inner(k - 1) else tail
      case _ => tail
  }

  /** What an append makes of the list: what stands behind the node that the link points to is cut off. */
  function AfterAppend<T>(s: seq<T>, tail: Tail, x: T): seq<T> {
    if s == [] then [x]
    else match tail
      case Last => s + [x]
      case Nowhere => s
      case Inner(k) => if k < |s| then s[..k + 1] + [x] else s
      case Gone => s
  }

  function TailAfterAppend<T>(s: seq<T>, tail: Tail): Tail {
    if s == [] || tail.Inner? then Last else tail
  }

  /** The position of `x`, or the length. */
  function Find(order: seq<nat>, x: nat): (i: nat)
    ensures i <= |order| && (i < |order| ==> order[i] == x) && forall j :: 0 <= j < i ==> order[j] != x
  {
    if order == [] || order[0] == x then 0 else 1 + Find(order[1..], x)
  }

  /** Once the list is sorted; `order` gives for every new position the old one. A new head points to NULL. */
  function AfterSort(order: seq<nat>, tail: Tail): Tail {
    if order == [] then tail
    else if order[0] != 0 then Nowhere
    else match tail
      case Last => To(Find(order, |order| - 1), |order|)
      case Inner(k) => To(Find(order, k), |order|)
      case _ => tail
  }

  predicate Permutation(order: seq<nat>) {
    && (forall i :: 0 <= i < |order| ==> order[i] < |order|)
    && (forall i, j :: 0 <= i < j < |order| ==> order[i] != order[j])
    && (forall x: nat :: x < |order| ==> x in order)
  }

  /** An append adds the item and keeps the rest exactly when the list is empty or its head points to its last node. */
  lemma AppendExact<T>(s: seq<T>, tail: Tail, x: T)
    requires tail.Inner? ==> tail.k + 1 < |s|
    ensures AfterAppend(s, tail, x) == s + [x] <==> s == [] || tail.Last?
  {
    if s != [] && !tail.Last? {
      assert |AfterAppend(s, tail, x)| < |s + [x]|;
    }
  }

  /** After sorting, an append works exactly when the first and the last node have stayed in place. */
  lemma AppendAfterSortExact<T>(order: seq<nat>, sorted: seq<T>, x: T)
    requires Permutation(order) && order != [] && |sorted| == |order|
    ensures AfterAppend(sorted, AfterSort(order, Last), x) == sorted + [x] <==>
            order[0] == 0 && order[|order| - 1] == |order| - 1
  {
    SortExact(order);
    InnerFits(order);
    AppendExact(sorted, AfterSort(order, Last), x);
  }

  lemma InnerFits(order: seq<nat>)
    requires Permutation(order) && order != []
    ensures AfterSort(order, Last).Inner? ==> AfterSort(order, Last).k + 1 < |order|
  {
    assert order[|order| - 1] in order && (|order| - 1) in order;
  }

  lemma FindDistinct(order: seq<nat>, i: nat)
    requires i < |order| && forall j :: 0 <= j < i ==> order[j] != order[i]
    ensures Find(order, order[i]) == i
  {
  }

  /** Sorting keeps the head pointing to the last node exactly when it keeps the first and the last node in place. */
  lemma SortExact(order: seq<nat>)
    requires Permutation(order) && order != []
    ensures AfterSort(order, Last) == Last <==> order[0] == 0 && order[|order| - 1] == |order| - 1
  {
    FindDistinct(order, |order| - 1);
  }
}
