/**
 The list operations of cJSON on the children of a container, in place on linked nodes.
 Each one is proved to act on the sequence of children as its name says, and to keep the
 shape that all of them rely on: the head's `prev` is the tail, which is how an append
 finds the end of the list. Sorting does not keep that shape; appending and detaching are
 also described for the lists it leaves.
 */
module SiblingList {
  import opened Siblings
  import opened NodeSort
  import opened SortList
  import opened TailLink

  /** A link of the given kind, for the head of a list. */
  ghost predicate Points(nodes: seq<Node>, tail: Tail, p: Node?) {
    match tail
    case Last => nodes != [] && p == nodes[|nodes| - 1]
    case Nowhere => p == null
    case Inner(k) => k + 1 < |nodes| && p == nodes[k]
    case Gone => p != null && forall i :: 0 <= i < |nodes| ==> nodes[i] != p
  }

  /** What the `prev` of the head points to. */
  ghost predicate TailIs(nodes: seq<Node>, tail: Tail)
    reads nodes
  {
    nodes != [] ==> Points(nodes, tail, nodes[0].prev)
  }

  class Container {
    var child: Node?
    ghost var nodes: seq<Node>
    ghost var tail: Tail

    ghost predicate Linked()
      reads this, nodes
    {
      Chain(child, nodes) && TailIs(nodes, tail)
    }

    /** The shape of every list that has not been sorted. */
    ghost predicate Valid()
      reads this, nodes
    {
      Linked() && tail.Last?
    }

    constructor ()
      ensures Valid() && nodes == []
    {
      child := null;
      nodes := [];
      tail := Last;
    }

    /** `sort_object`: the link of the head is what the sort makes of it. */
    method SortObject(cs: bool)
      requires Linked()
      modifies this, nodes
      ensures Linked() && nodes == Sort(old(nodes), KeyOf, cs)
      ensures tail == AfterSort(Order(old(nodes), nodes), old(tail))
    {
      hide Sort, Order, AfterSort, Points;
      ghost var before, link := nodes, tail;
      ghost var head := if nodes == [] then null else nodes[0].prev;
      SortKeepsNodes(nodes, cs);
      SortPermutes(nodes, KeyOf, cs);
      child := SortNodes(child, cs, nodes);
      nodes := Sort(nodes, KeyOf, cs);
      tail := AfterSort(Order(before, nodes), link);
      if nodes != [] {
        SortedTail(before, nodes, link, head);
      }
    }

    /** The loop of `cJSON_Duplicate`: new nodes with the same keys, and a proper link of the head whatever the original has. */
    method Duplicate() returns (copy: Container)
      requires Chain(child, nodes)
      ensures fresh(copy) && copy.Valid() && |copy.nodes| == |nodes|
      ensures forall i :: 0 <= i < |nodes| ==> fresh(copy.nodes[i]) && copy.nodes[i].key == nodes[i].key
    {
      copy := new Container();
      var item := child;
      var head: Node?, next: Node? := null, null;
      ghost var done: seq<Node> := [];
      while item != null
        invariant |done| <= |nodes| && item == At(nodes, |done|) && Chain(child, nodes) && copy.tail == Last
        invariant Chain(head, done) && next == if done == [] then null else done[|done| - 1]
        invariant forall i :: 0 <= i < |done| ==> fresh(done[i]) && done[i].key == nodes[i].key
        decreases |nodes| - |done|
      {
        var newchild := new Node(item.key);
        if next != null {
          next.next := newchild;
          newchild.prev := next;
          Appended(done, |done|, newchild);
          assert done[..|done|] == done;
        } else {
          head := newchild;
        }
        next := newchild;
        done := done + [newchild];
        item := item.next;
      }
      if head != null {
        head.prev := next;
      }
      copy.child := head;
      copy.nodes := done;
    }

    /** `get_array_item`. */
    method GetArrayItem(index: nat) returns (item: Node?)
      requires Valid()
      ensures item == At(nodes, index)
    {
      item := child;
      var left := index;
      ghost var i := 0;
      while item != null && left > 0
        invariant 0 <= left && i <= |nodes| && item == At(nodes, i) && left + i == index
        decreases |nodes| - i
      {
        left := left - 1;
        item := item.next;
        i := i + 1;
      }
    }

    /**
     `cJSON_AddItemToArray`, which finds the end through the link of the head. The old `next` of
     the new item is not reset by the code.
     */
    method AddItem(item: Node)
      requires Linked() && item !in nodes && item.next == null && (nodes != [] ==> !tail.Gone?)
      modifies this, item, nodes
      ensures Linked() && nodes == AfterAppend(old(nodes), old(tail), item)
      ensures tail == TailAfterAppend(old(nodes), old(tail))
      ensures old(Valid()) ==> Valid() && nodes == old(nodes) + [item]
    {
      ghost var before, link := nodes, tail;
      if child == null {
        child := item;
        item.prev := item;
        item.next := null;
        nodes := [item];
      } else {
        if child.prev != null {
          ghost var m := if link.Last? then |nodes| else link.k + 1;
          SuffixObject(child.prev, item);
          Appended(before, m, item);
          child.prev := item;
          assert nodes[..m][0] == nodes[0];
          nodes := nodes[..m] + [item];
        }
      }
      tail := TailAfterAppend(before, link);
      assert before[..|before|] == before;
    }

    /** `suffix_object`. */
    static method SuffixObject(prev: Node, item: Node)
      modifies prev, item
      ensures prev.next == item && item.prev == prev
      ensures prev != item ==> prev.prev == old(prev.prev) && item.next == old(item.next)
    {
      prev.next := item;
      item.prev := prev;
    }

    /** `cJSON_DetachItemViaPointer`. */
    method Detach(item: Node, ghost k: nat)
      requires Linked() && k < |nodes| && item == nodes[k]
      modifies this, nodes
      ensures Linked() && nodes == old(nodes[..k] + nodes[k + 1..])
      ensures tail == AfterRemoval(old(tail), k, |old(nodes)|)
      ensures item.next == null && item.prev == null && item !in nodes
      ensures old(Valid()) ==> Valid()
    {
      ghost var head := nodes[0].prev;
      if item != child {
        item.prev.next := item.next;
      }
      if item.next != null {
        item.next.prev := item.prev;
      }
      if item == child {
        child := item.next;
      } else if item.next == null {
        child.prev := item.prev;
      }
      item.prev := null;
      item.next := null;
      WithoutChain(nodes, k);
      WithoutTail(nodes, k, tail, head);
      tail := AfterRemoval(tail, k, |nodes|);
      nodes := nodes[..k] + nodes[k + 1..];
    }

    /** `cJSON_DetachItemFromArray` on a non-negative index. */
    method DetachItemFromArray(which: nat) returns (item: Node?)
      requires Valid()
      modifies this, nodes
      ensures Valid()
      ensures item == old(At(nodes, which))
      ensures nodes == if which < old(|nodes|) then old(nodes[..which] + nodes[which + 1..]) else old(nodes)
    {
      item := GetArrayItem(which);
      if item != null {
        Detach(item, which);
      }
    }

    /** Links `item` in front of the child at `k`. */
    method InsertBefore(after: Node, item: Node, ghost k: nat)
      requires Valid() && k < |nodes| && after == nodes[k] && item !in nodes
      modifies this, item, nodes
      ensures Valid() && nodes == old(nodes[..k] + [item] + nodes[k..])
    {
      item.next := after;
      item.prev := after.prev;
      after.prev := item;
      if after == child {
        child := item;
      } else {
        item.prev.next := item;
      }
      InsertedChain(nodes, k, item);
      nodes := nodes[..k] + [item] + nodes[k..];
    }

    /** `cJSON_InsertItemInArray`: an index past the end appends. */
    method InsertItem(which: nat, item: Node)
      requires Valid() && item !in nodes && item.next == null
      modifies this, item, nodes
      ensures Valid()
      ensures nodes == if which < old(|nodes|) then old(nodes[..which] + [item] + nodes[which..])
                       else old(nodes) + [item]
    {
      var after := GetArrayItem(which);
      if after == null {
        AddItem(item);
      } else {
        InsertBefore(after, item, which);
      }
    }

    /** `insert_item_in_array` of cJSON_Utils.c: an index past the end is refused. */
    method InsertItemStrict(which: nat, item: Node) returns (ok: bool)
      requires Valid() && item !in nodes && item.next == null
      modifies this, item, nodes
      ensures Valid() && (ok <==> which <= old(|nodes|))
      ensures nodes == if ok then old(nodes[..which] + [item] + nodes[which..]) else old(nodes)
    {
      var after := child;
      var left := which;
      ghost var i := 0;
      while after != null && left > 0
        invariant 0 <= left && i <= |nodes| && after == At(nodes, i) && left + i == which
        invariant Valid() && nodes == old(nodes) && item !in nodes && item.next == null
        decreases |nodes| - i
      {
        left := left - 1;
        after := after.next;
        i := i + 1;
      }
      if left > 0 {
        return false;
      }
      if after == null {
        AddItem(item);
        return true;
      }
      InsertBefore(after, item, which);
      return true;
    }

    /** `cJSON_ReplaceItemViaPointer`. */
    method Replace(item: Node, replacement: Node, ghost k: nat)
      requires Valid() && k < |nodes| && item == nodes[k] && (replacement == item || replacement !in nodes)
      modifies this, replacement, nodes
      ensures Valid() && nodes == old(nodes)[k := replacement]
      ensures replacement != item ==> item.next == null && item.prev == null
    {
      if replacement == item {
        return;
      }
      replacement.next := item.next;
      replacement.prev := item.prev;
      if replacement.next != null {
        replacement.next.prev := replacement;
      }
      if child == item {
        if child.prev == child {
          replacement.prev := replacement;
        }
        child := replacement;
      } else {
        if replacement.prev != null {
          replacement.prev.next := replacement;
        }
        if replacement.next == null {
          child.prev := replacement;
        }
      }
      item.next := null;
      item.prev := null;
      nodes := nodes[k := replacement];
    }
  }

  /** The first `m` nodes of a list with a new one linked behind them. */
  lemma Appended(s: seq<Node>, m: nat, item: Node)
    requires Distinct(s) && 0 < m <= |s| && (forall i :: 0 <= i < |s| ==> s[i] != item)
    requires forall i {:trigger s[i].next} :: 0 <= i < m - 1 ==> s[i].next == s[i + 1]
    requires s[m - 1].next == item && item.prev == s[m - 1] && item.next == null
    requires forall i {:trigger s[i].prev} :: 0 < i < m ==> s[i].prev == s[i - 1]
    ensures Chain(s[0], s[..m] + [item])
  {
  }

  /** A list with the neighbours of a node linked to each other. */
  lemma WithoutChain(s: seq<Node>, k: nat)
    requires Distinct(s) && k < |s|
    requires forall i {:trigger s[i].next} :: 0 <= i < |s| && i != k ==> s[i].next == At(s, if i + 1 == k then k + 1 else i + 1)
    requires forall i {:trigger s[i].prev} :: 0 < i < |s| && i != k && (k > 0 || i > 1) ==>
               s[i].prev == s[if i == k + 1 then k - 1 else i - 1]
    ensures var r := s[..k] + s[k + 1..]; Chain(At(r, 0), r)
  {
    var r := s[..k] + s[k + 1..];
    assert forall i :: 0 <= i < k ==> r[i] == s[i];
    assert forall i :: k <= i < |r| ==> r[i] == s[i + 1];
  }

  /** The link of the head when a node has been taken out, `head` being what it pointed to before. */
  lemma WithoutTail(s: seq<Node>, k: nat, tail: Tail, head: Node?)
    requires Distinct(s) && k < |s| && Points(s, tail, head)
    requires |s| > 1 ==> s[if k == 0 then 1 else 0].prev == if k + 1 == |s| then s[k - 1] else head
    ensures TailIs(s[..k] + s[k + 1..], AfterRemoval(tail, k, |s|))
  {
    var r := s[..k] + s[k + 1..];
    assert forall i :: 0 <= i < k ==> r[i] == s[i];
    assert forall i :: k <= i < |r| ==> r[i] == s[i + 1];
  }

  /** A list with a node linked in between two neighbours. */
  lemma InsertedChain(s: seq<Node>, k: nat, item: Node)
    requires Distinct(s) && k < |s| && (forall i :: 0 <= i < |s| ==> s[i] != item)
    requires forall i {:trigger s[i].next} :: 0 <= i < |s| ==> s[i].next == if i + 1 == k then item else At(s, i + 1)
    requires forall i {:trigger s[i].prev} :: 0 < i < |s| ==> s[i].prev == if i == k then item else s[i - 1]
    requires k == 0 ==> s[0].prev == item
    requires item.next == s[k] && (k > 0 ==> item.prev == s[k - 1])
    ensures var r := s[..k] + [item] + s[k..]; Chain(r[0], r)
  {
    var r := s[..k] + [item] + s[k..];
    assert forall i :: 0 <= i < k ==> r[i] == s[i];
    assert forall i :: k < i < |r| ==> r[i] == s[i - 1];
  }

  /** The old positions of the nodes of a sorted list. */
  ghost function Order(before: seq<Node>, after: seq<Node>): seq<nat> {
    seq(|after|, i requires 0 <= i < |after| => Position(before, after[i]))
  }

  ghost function Position(s: seq<Node>, n: Node): (i: nat)
    ensures i <= |s| && (i < |s| ==> s[i] == n) && forall j :: 0 <= j < i ==> s[j] != n
  {
    if s == [] || s[0] == n then 0 else 1 + Position(s[1..], n)
  }

  lemma PositionOf(s: seq<Node>, i: nat)
    requires Distinct(s) && i < |s|
    ensures Position(s, s[i]) == i
  {
  }

  /** The link of the head after sorting, `head` being what it pointed to before. */
  lemma SortedTail(before: seq<Node>, after: seq<Node>, tail: Tail, head: Node?)
    requires before != [] && |after| == |before| && Distinct(before) && Distinct(after) && multiset(before) == multiset(after)
    requires Points(before, tail, head)
    requires after[0].prev == if after[0] == before[0] then head else null
    ensures TailIs(after, AfterSort(Order(before, after), tail))
  {
    hide Position;
    var order := Order(before, after);
    forall i | 0 <= i < |after| ensures after[i] in before {
      assert after[i] in multiset(after) && after[i] in multiset(before);
    }
    PositionOf(before, 0);
    if after[0] == before[0] {
      match tail
      case Last => FoundAgain(before, after, |before| - 1);
      case Inner(k) => FoundAgain(before, after, k);
      case _ =>
    }
  }

  lemma FoundAgain(before: seq<Node>, after: seq<Node>, k: nat)
    requires k < |before| == |after| && Distinct(before) && Distinct(after) && multiset(before) == multiset(after)
    ensures var p := Find(Order(before, after), k); p < |after| && after[p] == before[k]
  {
    hide Position;
    assert before[k] in multiset(before) && before[k] in multiset(after);
    var p :| 0 <= p < |after| && after[p] == before[k];
    PositionOf(before, k);
    assert Order(before, after)[p] == k;
    var q := Find(Order(before, after), k);
    assert Order(before, after)[q] == Position(before, after[q]) == k;
  }
}
