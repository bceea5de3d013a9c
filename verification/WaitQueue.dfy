/**
 The queue of threads waiting for an IPC object: where a thread is put, and how the threads
 in the queue stay exactly the suspended ones.
 */
module WaitQueue {
  /** `RT_IPC_FLAG_FIFO` and `RT_IPC_FLAG_PRIO`. */
  datatype Flag = Fifo | Prio

  /** The position a thread of the given priority gets; a lower number is more urgent. */
  function Place(queue: seq<nat>, priority: nat, flag: Flag): (k: nat)
    ensures k <= |queue|
    ensures flag.Fifo? ==> k == |queue|
    ensures flag.Prio? ==> forall i :: 0 <= i < k ==> queue[i] <= priority
    ensures flag.Prio? && k < |queue| ==> priority < queue[k]
  {
    if queue == [] then 0
    else if flag.Prio? && priority < queue[0] then 0
    else 1 + Place(queue[1..], priority, flag)
  }

  function Insert<T>(s: seq<T>, k: nat, x: T): (r: seq<T>)
    requires k <= |s|
  {
    s[..k] + [x] + s[k..]
  }

  predicate Sorted(s: seq<nat>) {
    forall i, j :: 0 <= i < j < |s| ==> s[i] <= s[j]
  }

  /** A priority queue stays sorted, and a newcomer waits behind those as urgent as itself. */
  lemma PlaceSorts(queue: seq<nat>, priority: nat)
    requires Sorted(queue)
    ensures var k := Place(queue, priority, Prio);
            Sorted(Insert(queue, k, priority)) && forall i :: k <= i < |queue| ==> priority < queue[i]
  {
    var k := Place(queue, priority, Prio);
    forall i | k <= i < |queue| ensures priority < queue[i] {
      assert queue[k] <= queue[i];
    }
  }

  lemma {:induction false} PlaceIs(queue: seq<nat>, priority: nat, k: nat)
    requires k <= |queue| && (forall i :: 0 <= i < k ==> queue[i] <= priority)
    requires k < |queue| ==> priority < queue[k]
    ensures Place(queue, priority, Prio) == k
  {
    if k > 0 {
      PlaceIs(queue[1..], priority, k - 1);
    }
  }

  lemma FifoPlace(queue: seq<nat>, priority: nat)
    ensures Place(queue, priority, Fifo) == |queue|
  {
  }

  lemma InsertIndex<T>(s: seq<T>, k: nat, x: T)
    requires k <= |s|
    ensures var r := Insert(s, k, x);
            && |r| == |s| + 1 && r[k] == x
            && (forall i :: 0 <= i < k ==> r[i] == s[i])
            && (forall i :: k < i < |r| ==> r[i] == s[i - 1])
  {
  }

  // ----- queues of threads -----

  function PrioritiesOf(queue: seq<nat>, priority: seq<nat>): (r: seq<nat>)
    ensures |r| == |queue|
  {
    seq(|queue|, i requires 0 <= i < |queue| => if queue[i] < |priority| then priority[queue[i]] else 0)
  }

  /** `rt_ipc_list_suspend`. */
  function Join(queue: seq<nat>, t: nat, priority: seq<nat>, flag: Flag): seq<nat>
    requires t < |priority|
  {
    Insert(queue, Place(PrioritiesOf(queue, priority), priority[t], flag), t)
  }

  /** Thread `t` has joined a queue at position `k`: at the end, or behind those that are as urgent as itself. */
  predicate Stands(before: seq<nat>, after: seq<nat>, t: nat, k: nat, priority: seq<nat>, flag: Flag)
    requires t < |priority|
  {
    && k <= |before| && after == before[..k] + [t] + before[k..]
    && (flag.Fifo? ==> k == |before|)
    && (flag.Prio? ==> forall i :: 0 <= i < k ==> PrioritiesOf(before, priority)[i] <= priority[t])
    && (flag.Prio? && k < |before| ==> priority[t] < PrioritiesOf(before, priority)[k])
  }

  lemma JoinStands(queue: seq<nat>, t: nat, priority: seq<nat>, flag: Flag)
    requires t < |priority|
    ensures exists k: nat :: Stands(queue, Join(queue, t, priority, flag), t, k, priority, flag)
  {
    hide PrioritiesOf;
    var k := Place(PrioritiesOf(queue, priority), priority[t], flag);
    assert Stands(queue, Join(queue, t, priority, flag), t, k, priority, flag);
  }

  /** The timer takes a thread out of the queue, wherever it is. */
  function Without(queue: seq<nat>, t: nat): (r: seq<nat>)
    ensures |r| <= |queue|
  {
    if queue == [] then [] else if queue[0] == t then queue[1..] else [queue[0]] + Without(queue[1..], t)
  }

  /** Thread `t` has left a queue, in which it stood at position `k`; the others keep their order. */
  predicate Leaves(before: seq<nat>, after: seq<nat>, t: nat, k: nat) {
    && k < |before| && before[k] == t && |after| == |before| - 1
    && forall i :: 0 <= i < |after| ==> after[i] == before[if i < k then i else i + 1]
  }

  lemma {:induction false} WithoutLeaves(queue: seq<nat>, t: nat) returns (k: nat)
    requires exists i :: 0 <= i < |queue| && queue[i] == t
    ensures Leaves(queue, Without(queue, t), t, k)
  {
    if queue[0] == t {
      k := 0;
    } else {
      var i :| 0 <= i < |queue| && queue[i] == t;
      assert queue[1..][i - 1] == t;
      var j := WithoutLeaves(queue[1..], t);
      k := j + 1;
    }
  }

  lemma {:induction false} WithoutStranger(queue: seq<nat>, t: nat)
    requires forall i :: 0 <= i < |queue| ==> queue[i] != t
    ensures Without(queue, t) == queue
  {
    if queue != [] {
      WithoutStranger(queue[1..], t);
    }
  }

  ghost predicate Distinct(s: seq<nat>) {
    forall i, j :: 0 <= i < j < |s| ==> s[i] != s[j]
  }

  /** The queue holds exactly the threads of a set, each once. */
  ghost predicate Holds(queue: seq<nat>, waiting: set<nat>) {
    && Distinct(queue)
    && (forall i :: 0 <= i < |queue| ==> queue[i] in waiting)
    && (forall t :: t in waiting ==> t in queue)
  }

  lemma HoldsInsert(queue: seq<nat>, waiting: set<nat>, t: nat, k: nat)
    requires Holds(queue, waiting) && t !in waiting && k <= |queue|
    ensures Holds(Insert(queue, k, t), waiting + {t})
  {
    InsertIndex(queue, k, t);
    var r := Insert(queue, k, t);
    hide Insert;
    forall u | u in waiting + {t} ensures u in r {
      if u == t {
        assert r[k] == t;
      } else {
        var i :| 0 <= i < |queue| && queue[i] == u;
        assert r[if i < k then i else i + 1] == u;
      }
    }
  }

  lemma HoldsJoin(queue: seq<nat>, waiting: set<nat>, t: nat, priority: seq<nat>, flag: Flag)
    requires Holds(queue, waiting) && t !in waiting && t < |priority|
    ensures Holds(Join(queue, t, priority, flag), waiting + {t})
  {
    HoldsInsert(queue, waiting, t, Place(PrioritiesOf(queue, priority), priority[t], flag));
  }

  lemma HoldsFirst(queue: seq<nat>, waiting: set<nat>)
    requires Holds(queue, waiting) && queue != []
    ensures queue[0] in waiting && Holds(queue[1..], waiting - {queue[0]})
  {
    forall u | u in waiting - {queue[0]} ensures u in queue[1..] {
      var i :| 0 <= i < |queue| && queue[i] == u;
      assert queue[1..][i - 1] == u;
    }
  }

  lemma {:induction false} HoldsWithout(queue: seq<nat>, waiting: set<nat>, t: nat)
    requires Holds(queue, waiting)
    ensures Holds(Without(queue, t), waiting - {t})
  {
    hide Holds, Insert;
    if queue == [] {
      EmptyHolds(waiting, t);
    } else if queue[0] == t {
      HoldsFirst(queue, waiting);
    } else {
      var h, rest := queue[0], Without(queue[1..], t);
      HoldsFirst(queue, waiting);
      HoldsWithout(queue[1..], waiting - {h}, t);
      HoldsInsert(rest, waiting - {h} - {t}, h, 0);
      assert Insert(rest, 0, h) == [h] + rest by { InsertFront(rest, h); }
      assert waiting - {h} - {t} + {h} == waiting - {t};
    }
  }

  lemma InsertFront<T>(s: seq<T>, x: T)
    ensures Insert(s, 0, x) == [x] + s
  {
  }

  lemma EmptyHolds(waiting: set<nat>, t: nat)
    requires Holds([], waiting)
    ensures Holds([], waiting - {t})
  {
  }

  lemma Toggle(a: set<nat>, t: nat)
    ensures |a + {t}| == |a| + if t in a then 0 else 1
    ensures |a - {t}| == |a| - if t in a then 1 else 0
  {
    if t in a {
      assert a + {t} == a;
    } else {
      assert a - {t} == a;
    }
  }
}
