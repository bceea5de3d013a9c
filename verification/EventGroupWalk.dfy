/** The walk of `rt_event_send` on the wait list itself: threads are unlinked while a pointer moves over it. */
module EventGroupWalk {
  import opened WaitList
  import opened EventGroup
  import opened EventGroupObject

  /** The nodes belong to the threads of the queue; `rt_list_entry` finds the thread that a node belongs to. */
  ghost predicate Belong(s: seq<Node>, queue: seq<Waiter>, threads: map<Node, Waiter>) {
    |s| == |queue| && forall i :: 0 <= i < |s| ==> s[i] in threads && threads[s[i]] == queue[i]
  }

  /** Nodes that have been taken out are linked to themselves. */
  ghost predicate Released(all: seq<Node>, rest: seq<Node>)
    reads all
  {
    forall n :: n in all && n !in rest ==> n.next == n && n.prev == n
  }

  function Without<T>(s: seq<T>, k: nat): seq<T>
    requires k < |s|
  {
    s[..k] + s[k + 1..]
  }

  lemma Shorter(s: seq<Node>, queue: seq<Waiter>, threads: map<Node, Waiter>, k: nat)
    requires Belong(s, queue, threads) && k < |s|
    ensures Belong(Without(s, k), Without(queue, k), threads)
    ensures forall n :: n in s && n !in Without(s, k) ==> n == s[k]
  {
    assert s == s[..k] + [s[k]] + s[k + 1..];
  }

  /** `rt_thread_resume`, as far as the list goes. */
  method Unlink(ghost head: Node, n: Node, ghost all: seq<Node>, ghost rest: seq<Node>, ghost k: nat,
                ghost queue: seq<Waiter>, ghost threads: map<Node, Waiter>)
    requires Ring(head, rest) && k < |rest| && n == rest[k] && Belong(rest, queue, threads)
    requires (forall i :: 0 <= i < |rest| ==> rest[i] in all) && Released(all, rest)
    modifies head, rest
    ensures Ring(head, Without(rest, k)) && Belong(Without(rest, k), Without(queue, k), threads)
    ensures Released(all, Without(rest, k))
  {
    Shorter(rest, queue, threads, k);
    Remove(head, n, rest, k);
  }

  method Next(ghost head: Node, n: Node, ghost rest: seq<Node>, ghost k: nat) returns (next: Node)
    requires Ring(head, rest) && k < |rest| && n == rest[k]
    ensures next == At(head, rest, k + 1)
  {
    next := n.next;
  }

  lemma Subset(s: seq<Node>, rest: seq<Node>, k: nat)
    requires k < |rest| && forall i :: 0 <= i < |rest| ==> rest[i] in s
    ensures forall i :: 0 <= i < |rest| - 1 ==> Without(rest, k)[i] in s
  {
  }

  lemma Shifted(head: Node, rest: seq<Node>, k: nat)
    requires k < |rest|
    ensures At(head, rest, k + 1) == At(head, Without(rest, k), k)
  {
  }

  lemma Inside(head: Node, n: Node, rest: seq<Node>, k: nat)
    requires Ring(head, rest) && k <= |rest| && n == At(head, rest, k)
    ensures n != head <==> k < |rest|
  {
  }

  /** Every waiting thread asks for all or for any of its bits. */
  ghost predicate Asking(queue: seq<Waiter>) {
    forall i :: 0 <= i < |queue| ==> All(queue[i]) || Any(queue[i])
  }

  method First(head: Node, ghost s: seq<Node>) returns (n: Node)
    requires Ring(head, s)
    ensures n == At(head, s, 0)
  {
    n := head.next;
  }

  lemma Here(head: Node, n: Node, rest: seq<Node>, k: nat)
    requires k < |rest| && n == At(head, rest, k)
    ensures n == rest[k]
  {
  }

  lemma Taken(queue: seq<Waiter>, k: nat)
    requires k < |queue| && Asking(queue)
    ensures |Without(queue, k)| == |queue| - 1 && Asking(Without(queue, k))
    ensures Without(queue, k)[..k] == queue[..k] && Without(queue, k)[k..] == queue[k + 1..]
  {
  }

  lemma Whole(whole: Walk, passed: seq<Waiter>, granted: seq<Grant>, bits: bv32)
    requires Joined(whole, passed, granted, Walk(bits, [], []))
    ensures whole == Walk(bits, passed, granted)
  {
    assert passed + [] == passed && granted + [] == granted;
  }

  /** What is left on the list and who goes on is what the walk over the queue says. */
  method WalkList(head: Node, bits: bv32, threads: map<Node, Waiter>, ghost s: seq<Node>, ghost queue: seq<Waiter>)
    returns (left: bv32, resumed: seq<Grant>, ghost rest: seq<Node>)
    requires Ring(head, s) && Belong(s, queue, threads) && Asking(queue)
    modifies head, s
    ensures var w := WalkFrom(bits, queue);
            left == w.bits && resumed == w.grants && Ring(head, rest) && Belong(rest, w.rest, threads)
    ensures Released(s, rest)
  {
    hide Met, Left, Got, WalkFrom, Without, At, Joined;
    left, resumed, rest := bits, [], s;
    ghost var now, k, whole := queue, 0, WalkFrom(bits, queue);
    NoWalk(bits, queue);
    var n := First(head, s);
    Inside(head, n, rest, k);
    while n != head
      invariant k <= |rest| && Ring(head, rest) && n == At(head, rest, k) && Belong(rest, now, threads)
      invariant (forall i :: 0 <= i < |rest| ==> rest[i] in s) && Released(s, rest)
      invariant Asking(now) && (n != head <==> k < |rest|)
      invariant Joined(whole, now[..k], resumed, WalkFrom(left, now[k..]))
      decreases |rest| - k
    {
      Here(head, n, rest, k);
      var w := threads[n];
      Slices(now, k);
      var met, got, after := Check(w, left);
      var next := Next(head, n, rest, k);
      if met {
        JoinGrant(whole, now[..k], resumed, left, now[k..]);
        resumed, left := resumed + [Grant(w, left, got)], after;
        Unlink(head, n, s, rest, k, now, threads);
        Subset(s, rest, k);
        Shifted(head, rest, k);
        Taken(now, k);
        rest, now := Without(rest, k), Without(now, k);
      } else {
        JoinPass(whole, now[..k], resumed, left, now[k..]);
        k := k + 1;
      }
      n := next;
      Inside(head, n, rest, k);
    }
    assert now[..k] == now && now[k..] == [];
    NoMore(left);
    Whole(whole, now, resumed, left);
  }
}
