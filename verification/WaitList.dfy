/** The circular doubly linked list of rtservice.h that carries every wait queue. */
module WaitList {
  import opened WaitQueue

  class Node {
    var next: Node
    var prev: Node
    var priority: nat

    /** `rt_list_init`: linked to itself. */
    constructor (priority: nat)
      ensures next == this && prev == this && this.priority == priority
    {
      next, prev := this, this;
      this.priority := priority;
    }
  }

  /** The node at a position of the list; the list head is before the first and behind the last. */
  ghost function At(head: Node, s: seq<Node>, i: int): Node {
    if 0 <= i < |s| then s[i] else head
  }

  /** The list headed by `head` carries exactly the nodes `s`, linked both ways in a ring. */
  ghost predicate Ring(head: Node, s: seq<Node>)
    reads head, s
  {
    && (forall i, j :: 0 <= i < j < |s| ==> s[i] != s[j])
    && (forall i :: 0 <= i < |s| ==> s[i] != head)
    && head.next == At(head, s, 0) && head.prev == At(head, s, |s| - 1)
    && (forall i {:trigger s[i].next} :: 0 <= i < |s| ==> s[i].next == At(head, s, i + 1))
    && (forall i {:trigger s[i].prev} :: 0 <= i < |s| ==> s[i].prev == At(head, s, i - 1))
  }

  ghost predicate Outside(head: Node, s: seq<Node>, n: Node) {
    n != head && forall i :: 0 <= i < |s| ==> s[i] != n
  }

  /** With a node linked in between two neighbours, and no other link changed, the ring holds it. */
  lemma Inserted(head: Node, s: seq<Node>, k: nat, n: Node)
    requires k <= |s| && Outside(head, s, n)
    requires forall i, j :: 0 <= i < j < |s| ==> s[i] != s[j]
    requires forall i :: 0 <= i < |s| ==> s[i] != head
    requires head.next == (if k == 0 then n else At(head, s, 0))
    requires head.prev == (if k == |s| then n else At(head, s, |s| - 1))
    requires forall i {:trigger s[i].next} :: 0 <= i < |s| ==> s[i].next == if i == k - 1 then n else At(head, s, i + 1)
    requires forall i {:trigger s[i].prev} :: 0 <= i < |s| ==> s[i].prev == if i == k then n else At(head, s, i - 1)
    requires n.prev == At(head, s, k - 1) && n.next == At(head, s, k)
    ensures Ring(head, Insert(s, k, n))
  {
    hide Insert;
    InsertIndex(s, k, n);
  }

  /** `rt_list_insert_before`, before position `k`. */
  method InsertBefore(ghost head: Node, l: Node, n: Node, ghost s: seq<Node>, ghost k: nat)
    requires Ring(head, s) && k <= |s| && l == At(head, s, k) && Outside(head, s, n)
    modifies head, s, n
    ensures Ring(head, Insert(s, k, n))
    ensures forall x :: x in s ==> x.priority == old(x.priority)
    ensures n.priority == old(n.priority) && head.priority == old(head.priority)
  {
    var p := l.prev;
    assert p == At(head, s, k - 1);
    p.next := n;
    n.prev := p;
    l.prev := n;
    n.next := l;
    hide Ring, Insert;
    Inserted(head, s, k, n);
  }

  /** With the neighbours of a node linked to each other, and no other link changed, the ring goes on without it. */
  lemma Removed(head: Node, s: seq<Node>, k: nat)
    requires k < |s|
    requires forall i, j :: 0 <= i < j < |s| ==> s[i] != s[j]
    requires forall i :: 0 <= i < |s| ==> s[i] != head
    requires head.next == (if k == 0 then At(head, s, 1) else At(head, s, 0))
    requires head.prev == (if k == |s| - 1 then At(head, s, |s| - 2) else At(head, s, |s| - 1))
    requires forall i {:trigger s[i].next} ::
               0 <= i < |s| && i != k ==> s[i].next == At(head, s, if i == k - 1 then i + 2 else i + 1)
    requires forall i {:trigger s[i].prev} ::
               0 <= i < |s| && i != k ==> s[i].prev == At(head, s, if i == k + 1 then i - 2 else i - 1)
    ensures Ring(head, s[..k] + s[k + 1..])
  {
    var r := s[..k] + s[k + 1..];
    assert forall i :: 0 <= i < k ==> r[i] == s[i];
    assert forall i :: k <= i < |r| ==> r[i] == s[i + 1];
  }

  /** `rt_list_remove`, at position `k`; the node is left linked to itself. */
  method Remove(ghost head: Node, n: Node, ghost s: seq<Node>, ghost k: nat)
    requires Ring(head, s) && k < |s| && n == s[k]
    modifies head, s
    ensures Ring(head, s[..k] + s[k + 1..])
    ensures n.next == n && n.prev == n
    ensures forall x :: x in s ==> x.priority == old(x.priority)
    ensures head.priority == old(head.priority)
  {
    n.next.prev := n.prev;
    n.prev.next := n.next;
    n.next, n.prev := n, n;
    Removed(head, s, k);
  }

  /** `rt_list_isempty`. */
  method IsEmpty(head: Node, ghost s: seq<Node>) returns (r: bool)
    requires Ring(head, s)
    ensures r <==> s == []
  {
    r := head.next == head;
  }

  /** `rt_list_len`. */
  method Length(head: Node, ghost s: seq<Node>) returns (n: nat)
    requires Ring(head, s)
    ensures n == |s|
  {
    n := 0;
    var p := head;
    while p.next != head
      invariant n <= |s| && p == At(head, s, n - 1)
      decreases |s| - n
    {
      p := p.next;
      n := n + 1;
    }
  }

  ghost function Priorities(s: seq<Node>): seq<nat>
    reads s
  {
    seq(|s|, i requires 0 <= i < |s| reads s => s[i].priority)
  }

  /** The loop of `rt_ipc_list_suspend` that looks for the place of a thread in a priority queue. */
  method FindPlace(head: Node, thread: Node, ghost s: seq<Node>) returns (n: Node, ghost k: nat)
    requires Ring(head, s)
    ensures k == Place(Priorities(s), thread.priority, Prio) && n == At(head, s, k)
  {
    n, k := head.next, 0;
    while n != head
      invariant k <= |s| && n == At(head, s, k)
      invariant forall i {:trigger s[i]} :: 0 <= i < k ==> s[i].priority <= thread.priority
      decreases |s| - k
    {
      if thread.priority < n.priority {
        PlaceIs(Priorities(s), thread.priority, k);
        return;
      }
      n, k := n.next, k + 1;
    }
    PlaceIs(Priorities(s), thread.priority, k);
  }

  /** `rt_ipc_list_suspend`: the thread enters the queue at its place. */
  method Suspend(head: Node, thread: Node, flag: Flag, ghost s: seq<Node>) returns (ghost k: nat)
    requires Ring(head, s) && Outside(head, s, thread)
    modifies head, s, thread
    ensures k == Place(old(Priorities(s)), old(thread.priority), flag) && Ring(head, Insert(s, k, thread))
    ensures forall x :: x in s ==> x.priority == old(x.priority)
    ensures thread.priority == old(thread.priority)
  {
    if flag.Fifo? {
      k := |s|;
      FifoPlace(Priorities(s), thread.priority);
      InsertBefore(head, head, thread, s, k);
    } else {
      var n;
      n, k := FindPlace(head, thread, s);
      InsertBefore(head, n, thread, s, k);
    }
  }

  /** `rt_ipc_list_resume`: the first thread leaves the queue. */
  method Resume(head: Node, ghost s: seq<Node>) returns (thread: Node)
    requires Ring(head, s) && s != []
    modifies head, s
    ensures thread == s[0] && Ring(head, s[1..]) && thread.next == thread && thread.prev == thread
  {
    thread := head.next;
    Remove(head, thread, s, 0);
    assert s[..0] + s[1..] == s[1..];
  }

  /** `rt_ipc_list_resume_all`: every thread leaves the queue. */
  method ResumeAll(head: Node, ghost s: seq<Node>)
    requires Ring(head, s)
    modifies head, s
    ensures Ring(head, []) && forall i :: 0 <= i < |s| ==> s[i].next == s[i] && s[i].prev == s[i]
  {
    ghost var k := 0;
    assert s[k..] == s;
    var empty := IsEmpty(head, s);
    while !empty
      invariant k <= |s| && Ring(head, s[k..]) && (empty <==> s[k..] == [])
      invariant forall i :: 0 <= i < k ==> s[i].next == s[i] && s[i].prev == s[i]
      decreases |s| - k
    {
      var thread := Resume(head, s[k..]);
      assert s[k..][1..] == s[k + 1..];
      k := k + 1;
      empty := IsEmpty(head, s[k..]);
    }
  }

  // ----- the queue as a sequence of thread numbers -----

  /** The list carries the threads that the queue names. */
  ghost predicate Carries(s: seq<Node>, queue: seq<nat>, threads: seq<Node>) {
    |s| == |queue| && forall i :: 0 <= i < |queue| ==> queue[i] < |threads| && s[i] == threads[queue[i]]
  }

  /** What `Suspend` does on the list is what `Join` does on the queue, and the same for `Resume` and the first thread. */
  lemma SuspendIsJoin(s: seq<Node>, queue: seq<nat>, threads: seq<Node>, t: nat, priority: seq<nat>, flag: Flag)
    requires Carries(s, queue, threads) && t < |threads| == |priority|
    requires forall u :: 0 <= u < |threads| ==> threads[u].priority == priority[u]
    ensures var k := Place(Priorities(s), threads[t].priority, flag);
            Carries(Insert(s, k, threads[t]), Join(queue, t, priority, flag), threads)
    ensures s != [] ==> Carries(s[1..], queue[1..], threads)
  {
    assert Priorities(s) == PrioritiesOf(queue, priority);
    var k := Place(Priorities(s), priority[t], flag);
    InsertIndex(s, k, threads[t]);
    InsertIndex(queue, k, t);
    hide Insert;
  }
}
