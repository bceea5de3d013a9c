/** `sort_list` on linked nodes, proved to follow `SortList.Sort` node for node. */
module NodeSort {
  import opened Keys
  import opened Siblings
  import opened SortList

  /** The part of the merged list built so far; the `next` of its last node is not set yet. */
  ghost predicate Merged(head: Node?, tail: Node?, s: seq<Node>)
    reads s
  {
    && head == At(s, 0)
    && tail == (if s == [] then null else s[|s| - 1])
    && (forall i {:trigger s[i].next} :: 0 <= i < |s| - 1 ==> s[i].next == s[i + 1])
    && (forall i {:trigger s[i].prev} :: 0 < i < |s| ==> s[i].prev == s[i - 1])
  }

  lemma SortKeepsNodes(s: seq<Node>, cs: bool)
    requires Distinct(s)
    ensures Distinct(Sort(s, KeyOf, cs))
    ensures Within(Sort(s, KeyOf, cs), Elements(s))
  {
    var r := Sort(s, KeyOf, cs);
    SortPermutes(s, KeyOf, cs);
    forall i | 0 <= i < |r| ensures r[i] in s {
      assert r[i] in multiset(r) && r[i] in multiset(s);
    }
    DistinctCounts(s);
    CountsDistinct(r);
  }

  lemma {:induction false} DistinctCounts(s: seq<Node>)
    requires Distinct(s)
    ensures forall n :: multiset(s)[n] <= 1
  {
    if s != [] {
      DistinctCounts(s[1..]);
      MultisetSplit(s, 1);
      assert s[0] !in s[1..];
      assert multiset(s[1..])[s[0]] == 0;
    }
  }

  lemma {:induction false} CountsDistinct(s: seq<Node>)
    requires forall n :: multiset(s)[n] <= 1
    ensures Distinct(s)
  {
    forall i, j | 0 <= i < j < |s| ensures s[i] != s[j] {
      MultisetSplit(s, j);
      assert s[i] == s[..j][i] && s[j] == s[j..][0];
      assert s[i] in multiset(s[..j]) && s[j] in multiset(s[j..]);
      assert multiset(s)[s[i]] <= 1;
    }
  }

  lemma HalvesApart(s: seq<Node>, mid: nat, cs: bool)
    requires Distinct(s) && mid <= |s|
    ensures var a, b := s[..mid], s[mid..];
            && Elements(a) !! Elements(b) && Elements(a) <= Elements(s) && Elements(b) <= Elements(s)
            && Disjoint(Sort(a, KeyOf, cs), Sort(b, KeyOf, cs))
            && Within(Sort(a, KeyOf, cs), Elements(a)) && Within(Sort(b, KeyOf, cs), Elements(b))
  {
    SortKeepsNodes(s[..mid], cs);
    SortKeepsNodes(s[mid..], cs);
    assert forall i, j :: 0 <= i < mid && mid <= j < |s| ==> s[i] != s[j];
  }

  lemma DistinctConcat(a: seq<Node>, b: seq<Node>)
    requires Distinct(a) && Distinct(b) && Disjoint(a, b)
    ensures Distinct(a + b)
  {
  }

  /** The test for a list that is sorted already. */
  method IsAscending(list: Node?, cs: bool, ghost nodes: seq<Node>) returns (r: bool)
    requires Chain(list, nodes)
    ensures r <==> Ascending(nodes, KeyOf, cs)
  {
    var current := list;
    ghost var i := 0;
    while current != null && current.next != null
      invariant 0 <= i <= |nodes| && current == At(nodes, i)
      invariant forall k :: 0 < k <= i && k < |nodes| ==> Before(nodes[k - 1].key, nodes[k].key, cs)
      decreases |nodes| - i
    {
      var diff := CompareStrings(current.key, current.next.key, cs);
      if diff >= 0 {
        assert !Before(KeyOf(nodes[i]), KeyOf(nodes[i + 1]), cs);
        return false;
      }
      current := current.next;
      i := i + 1;
    }
    return true;
  }

  /** Walks two pointers until the faster one falls off the end. */
  method FindMiddle(list: Node?, ghost nodes: seq<Node>) returns (second: Node?)
    requires Chain(list, nodes) && |nodes| >= 2
    ensures second == nodes[(|nodes| + 1) / 2]
  {
    second := list;
    var current := list;
    ghost var i, k := 0, 0;
    while current != null
      invariant 0 <= i <= |nodes| && current == At(nodes, k) && second == At(nodes, i)
      invariant k == 2 * i || (k == 2 * i - 1 == |nodes|)
      invariant 0 <= k <= |nodes|
      decreases |nodes| - k
    {
      second := second.next;
      current := current.next;
      i, k := i + 1, k + 1;
      if current != null {
        current := current.next;
        k := k + 1;
      }
    }
  }

  /** Cuts the list in front of `second`. */
  method Cut(list: Node?, second: Node?, ghost nodes: seq<Node>, ghost mid: nat)
    requires Chain(list, nodes) && 0 < mid < |nodes| && second == nodes[mid]
    modifies nodes
    ensures Chain(list, nodes[..mid]) && Chain(second, nodes[mid..])
    ensures second.prev == null && list.prev == old(list.prev)
  {
    assert second.prev == nodes[mid - 1];
    if second != null && second.prev != null {
      second.prev.next := null;
      second.prev := null;
    }
  }

  method SortNodes(list: Node?, cs: bool, ghost nodes: seq<Node>) returns (result: Node?)
    requires Chain(list, nodes)
    modifies Elements(nodes)
    ensures Chain(result, Sort(nodes, KeyOf, cs))
    ensures result != null && list != null ==> result.prev == if result == list then old(list.prev) else null
    decreases |nodes|
  {
    hide Sort, Ascending;
    if list == null || list.next == null {
      SortUnfold(nodes, KeyOf, cs);
      return list;
    }
    var ascending := IsAscending(list, cs, nodes);
    if ascending {
      SortUnfold(nodes, KeyOf, cs);
      return list;
    }
    var second := FindMiddle(list, nodes);
    ghost var mid := (|nodes| + 1) / 2;
    Cut(list, second, nodes, mid);
    ghost var left, right := nodes[..mid], nodes[mid..];
    ghost var a, b := Sort(left, KeyOf, cs), Sort(right, KeyOf, cs);
    HalvesApart(nodes, mid, cs);
    var first := SortNodes(list, cs, left);
    second := SortNodes(second, cs, right);
    SortUnfold(nodes, KeyOf, cs);
    result := MergeNodes(first, second, cs, a, b, Elements(nodes));
  }

  /** Links `item`, the head of `rest`, behind the merged part. */
  method LinkBehind(tail: Node, item: Node, ghost head: Node, ghost m: seq<Node>, ghost rest: seq<Node>)
    requires m != [] && Merged(head, tail, m) && Chain(item, rest) && Distinct(m + rest)
    modifies tail, item
    ensures Merged(head, item, m + [item]) && Chain(item, rest)
    ensures item.next == old(item.next)
    ensures head.prev == old(head.prev)
  {
    assert (m + rest)[0] == head && (m + rest)[|m|] == item;
    assert forall i :: 0 <= i < |m| ==> (m + rest)[i] == m[i];
    assert forall i :: 0 <= i < |rest| ==> (m + rest)[|m| + i] == rest[i];
    tail.next := item;
    item.prev := tail;
  }

  /** A merged part that ends in the head of a chain is a chain when joined with it. */
  lemma MergedJoins(head: Node, m: seq<Node>, item: Node, rest: seq<Node>)
    requires m != [] && Merged(head, item, m + [item]) && Chain(item, rest) && Distinct(m + rest)
    ensures Chain(head, m + rest)
  {
    var s, t := m + rest, m + [item];
    forall i | 0 <= i < |s| ensures s[i].next == At(s, i + 1) && (0 < i ==> s[i].prev == s[i - 1]) {
      if i < |m| {
        assert s[i] == t[i] && t[i].next == t[i + 1] && (0 < i ==> t[i].prev == t[i - 1]);
      } else {
        assert s[i] == rest[i - |m|] && rest[i - |m|].next == At(rest, i - |m| + 1);
        if i == |m| {
          assert t[i].prev == t[i - 1];
        } else {
          assert rest[i - |m|].prev == rest[i - |m| - 1];
        }
      }
    }
  }

  /** The three lists of the merge loop: pairwise apart and inside the footprint. */
  ghost predicate Apart(m: seq<Node>, a: seq<Node>, b: seq<Node>, repr: set<Node>) {
    && Distinct(m) && Distinct(a) && Distinct(b)
    && Disjoint(m, a) && Disjoint(m, b) && Disjoint(a, b)
    && Within(m, repr) && Within(a, repr) && Within(b, repr)
  }

  lemma ApartStep(m: seq<Node>, a: seq<Node>, b: seq<Node>, repr: set<Node>)
    requires Apart(m, a, b, repr)
    ensures a != [] ==> Apart(m + [a[0]], a[1..], b, repr)
    ensures b != [] ==> Apart(m + [b[0]], a, b[1..], repr)
  {
  }

  lemma MergeStep(m: seq<Node>, a: seq<Node>, b: seq<Node>, cs: bool)
    requires a != [] && b != []
    ensures m + Merge(a, b, KeyOf, cs) ==
            if Before(a[0].key, b[0].key, cs) then (m + [a[0]]) + Merge(a[1..], b, KeyOf, cs)
            else (m + [b[0]]) + Merge(a, b[1..], KeyOf, cs)
  {
    var x := if Before(a[0].key, b[0].key, cs) then a[0] else b[0];
    var rest := if Before(a[0].key, b[0].key, cs) then Merge(a[1..], b, KeyOf, cs) else Merge(a, b[1..], KeyOf, cs);
    Associate(m, x, rest);
  }

  lemma Associate<T>(m: seq<T>, x: T, s: seq<T>)
    ensures m + ([x] + s) == (m + [x]) + s
  {
  }

  /**
   One turn of the merge loop: the smaller head goes behind the merged part.
   `rest` is the list it heads, `other` the list that is left alone.
   */
  method Append(result: Node?, tail: Node?, smaller: Node,
      ghost m: seq<Node>, ghost rest: seq<Node>, ghost otherHead: Node?, ghost other: seq<Node>)
    returns (head: Node)
    requires Merged(result, tail, m) && Chain(smaller, rest) && Distinct(m) && Disjoint(m, rest)
    requires Chain(otherHead, other) && Disjoint(m, other) && Disjoint(rest, other)
    modifies smaller, if tail == null then {} else {tail}
    ensures Merged(head, smaller, m + [smaller])
    ensures Chain(smaller.next, rest[1..]) && smaller.next == old(smaller.next)
    ensures Chain(otherHead, other)
    ensures head.prev == old(head.prev)
  {
    if result == null {
      head := smaller;
    } else {
      head := result;
      DistinctConcat(m, rest);
      LinkBehind(tail, smaller, result, m, rest);
    }
    ChainTail(smaller, rest);
  }

  lemma ChainTail(head: Node, s: seq<Node>)
    requires s != [] && Chain(head, s)
    ensures Chain(head.next, s[1..])
  {
    assert forall i {:trigger s[1..][i].next} :: 0 <= i < |s| - 1 ==> s[1..][i].next == s[i + 1].next;
    assert forall i {:trigger s[1..][i].prev} :: 0 <= i < |s| - 1 ==> s[1..][i].prev == s[i + 1].prev;
  }

  /** The merged list starts with one of the two heads. */
  ghost predicate HeadKept(result: Node?, m: seq<Node>, a: seq<Node>, b: seq<Node>, nodes1: seq<Node>, nodes2: seq<Node>) {
    && (m == [] ==> a == nodes1 && b == nodes2)
    && (m != [] ==> result != null && (result == Siblings.At(nodes1, 0) || result == Siblings.At(nodes2, 0)))
  }

  /** The loop of the merge: takes the smaller head until one list is used up. */
  method MergeHeads(list1: Node?, list2: Node?, cs: bool, ghost nodes1: seq<Node>, ghost nodes2: seq<Node>, ghost repr: set<Node>)
    returns (result: Node?, tail: Node?, first: Node?, second: Node?,
      ghost m: seq<Node>, ghost a: seq<Node>, ghost b: seq<Node>)
    requires Chain(list1, nodes1) && Chain(list2, nodes2)
    requires Apart([], nodes1, nodes2, repr)
    modifies repr
    ensures Chain(first, a) && Chain(second, b) && Merged(result, tail, m)
    ensures Apart(m, a, b, repr) && (a == [] || b == []) && (m == [] || a != [] || b != [])
    ensures m + Merge(a, b, KeyOf, cs) == Merge(nodes1, nodes2, KeyOf, cs)
    ensures HeadKept(result, m, a, b, nodes1, nodes2)
    ensures result != null ==> result.prev == old(result.prev)
    ensures m == [] ==> unchanged(repr)
  {
    first, second, tail, result := list1, list2, null, null;
    m, a, b := [], nodes1, nodes2;
    ghost var all := Merge(nodes1, nodes2, KeyOf, cs);
    while first != null && second != null
      invariant Chain(first, a) && Chain(second, b) && Merged(result, tail, m)
      invariant Apart(m, a, b, repr)
      invariant m == [] || a != [] || b != []
      invariant m + Merge(a, b, KeyOf, cs) == all
      invariant HeadKept(result, m, a, b, nodes1, nodes2)
      invariant result != null ==> result.prev == old(result.prev)
      invariant m == [] ==> unchanged(repr)
      decreases |a| + |b|
    {
      MergeStep(m, a, b, cs);
      ApartStep(m, a, b, repr);
      var diff := CompareStrings(first.key, second.key, cs);
      var smaller: Node := if diff < 0 then first else second;
      result := Append(result, tail, smaller, m, if diff < 0 then a else b,
                       if diff < 0 then second else first, if diff < 0 then b else a);
      tail := smaller;
      m := m + [smaller];
      if first == smaller {
        first := first.next;
        a := a[1..];
      } else {
        second := second.next;
        b := b[1..];
      }
    }
  }

  method MergeNodes(list1: Node?, list2: Node?, cs: bool, ghost nodes1: seq<Node>, ghost nodes2: seq<Node>, ghost repr: set<Node>)
    returns (list: Node?)
    requires Chain(list1, nodes1) && Chain(list2, nodes2)
    requires Apart([], nodes1, nodes2, repr)
    modifies repr
    ensures Chain(list, Merge(nodes1, nodes2, KeyOf, cs))
    ensures list != null ==> (list == list1 || list == list2) && list.prev == old(list.prev)
  {
    var result, tail, first, second;
    ghost var m, a, b;
    result, tail, first, second, m, a, b := MergeHeads(list1, list2, cs, nodes1, nodes2, repr);
    ghost var rest := if a == [] then b else a;
    assert Merge(a, b, KeyOf, cs) == rest;
    DistinctConcat(m, rest);
    if first != null {
      if result == null {
        return first;
      }
      LinkBehind(tail, first, result, m, rest);
      MergedJoins(result, m, first, rest);
    }
    if second != null {
      if result == null {
        return second;
      }
      LinkBehind(tail, second, result, m, rest);
      MergedJoins(result, m, second, rest);
    }
    return result;
  }
}
