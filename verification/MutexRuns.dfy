/** Every event keeps the mutex sound; when priority inheritance works. */
module MutexRuns {
  import opened Wrappers
  import opened WaitQueue
  import opened Mutex

  // ----- ownership -----

  lemma JoinFacts(s: State, t: nat, priority: seq<nat>)
    requires Owned(s) && t < |s.priority| == |priority| && !Waits(s, t) && t != s.owner
    ensures var q := Join(s.queue, t, priority, s.flag);
            && Distinct(q) && |q| == |s.queue| + 1
            && (forall i :: 0 <= i < |q| ==> q[i] < |priority| && q[i] != s.owner)
            && (forall i :: 0 <= i < |q| ==> q[i] == t || Waits(s, q[i]))
  {
    var k := Place(PrioritiesOf(s.queue, priority), priority[t], s.flag);
    var q := Insert(s.queue, k, t);
    InsertIndex(s.queue, k, t);
    hide Insert;
    assert forall i :: 0 <= i < |s.queue| ==> s.queue[i] != t;
    forall i, j | 0 <= i < j < |q| ensures q[i] != q[j] {
    }
    forall i | 0 <= i < |q| ensures q[i] == t || Waits(s, q[i]) {
      if i != k {
        assert s.queue[if i < k then i else i - 1] == q[i];
      }
    }
  }

  lemma TakeKeeps(s: State, t: nat, wait: bool, base: seq<nat>)
    requires Inv(s, base) && t < |s.priority| && !Waits(s, t)
    ensures Inv(DoTake(s, t, wait), base)
  {
    hide Join, Distinct;
    if s.owner != t && s.value == 0 && wait {
      var r := DoTake(s, t, wait);
      JoinFacts(s, t, r.priority);
    } else if s.owner != t && s.value > 0 {
      assert s.queue == [];
    }
  }

  lemma FirstLeaves(queue: seq<nat>)
    requires Distinct(queue) && queue != []
    ensures Distinct(queue[1..]) && forall i :: 0 <= i < |queue[1..]| ==> queue[1..][i] == queue[i + 1] != queue[0]
  {
  }

  lemma ReleaseKeeps(s: State, t: nat, base: seq<nat>)
    requires Inv(s, base) && t < |s.priority|
    ensures Inv(DoRelease(s, t), base)
  {
    if s.owner == t && s.hold == 1 && s.queue != [] {
      FirstLeaves(s.queue);
    }
    hide Distinct;
  }

  lemma ExpireKeeps(s: State, t: nat, base: seq<nat>)
    requires Inv(s, base) && Waits(s, t)
    ensures Inv(Expire(s, t), base)
  {
    hide Without;
    var k := WithoutLeaves(s.queue, t);
  }

  lemma StepKeeps(s: State, e: Event, base: seq<nat>)
    requires Inv(s, base) && Enabled(s, e)
    ensures Inv(Step(s, e), base)
  {
    hide Inv, DoTake, DoRelease, Expire;
    match e
    case Take(t, wait) => TakeKeeps(s, t, wait, base);
    case Release(t) => ReleaseKeeps(s, t, base);
    case Timeout(t) => ExpireKeeps(s, t, base);
  }

  // ----- runs -----

  /** `rt_mutex_init`, with the threads at their own priorities. */
  function Start(flag: Flag, base: seq<nat>): State {
    State(flag, 1, NOBODY, NO_PRIORITY, 0, [], base, seq(|base|, _ => 0), seq(|base|, _ => 0))
  }

  ghost function Run(s: State, es: seq<Event>, base: seq<nat>): Option<State>
    requires Inv(s, base)
    decreases |es|
  {
    if es == [] then Some(s)
    else if !Enabled(s, es[0]) then None
    else StepKeeps(s, es[0], base); Run(Step(s, es[0]), es[1..], base)
  }

  lemma {:induction false} RunKeeps(s: State, es: seq<Event>, base: seq<nat>)
    requires Inv(s, base)
    ensures var r := Run(s, es, base); r.Some? ==> Inv(r.value, base)
    decreases |es|
  {
    hide Owned, Restorable, Step;
    if es != [] && Enabled(s, es[0]) {
      StepKeeps(s, es[0], base);
      RunKeeps(Step(s, es[0]), es[1..], base);
    }
  }

  /**
   After any run: the value is one, there is no owner, and nothing is held, together or not at
   all; the owner does not wait; a thread's successful takes exceed its releases by the hold
   count if it is the owner, and else by nothing; and every thread that is not the owner has
   its own priority back.
   */
  lemma MutexSafe(flag: Flag, base: seq<nat>, es: seq<Event>)
    ensures Inv(Start(flag, base), base)
    ensures var r := Run(Start(flag, base), es, base);
            r.Some? ==>
              var s := r.value;
              && (s.value == 1 <==> s.owner == NOBODY) && (s.hold == 0 <==> s.owner == NOBODY)
              && (s.value == 0 || s.value == 1)
              && (s.owner >= 0 ==> !Waits(s, s.owner))
              && |s.takes| == |s.releases| == |s.priority| == |base|
              && (forall t: nat :: t < |base| ==> s.takes[t] == s.releases[t] + if t == s.owner then s.hold else 0)
              && (forall t: nat :: t < |base| && t != s.owner ==> s.priority[t] == base[t])
  {
    hide Run, Distinct;
    var s := Start(flag, base);
    assert Inv(s, base) by { NoneDistinct(); }
    RunKeeps(s, es, base);
  }

  lemma NoneDistinct()
    ensures Distinct([])
  {
  }

  // ----- priority inheritance -----

  predicate AllEqual(base: seq<nat>) {
    forall i, j :: 0 <= i < |base| && 0 <= j < |base| ==> base[i] == base[j]
  }

  /** When inheritance can be relied on. */
  predicate Reliable(flag: Flag, base: seq<nat>) {
    flag.Prio? || |base| <= 2 || AllEqual(base)
  }

  /** The first in the queue is at least as urgent as the others. */
  ghost predicate FirstUrgent(queue: seq<nat>, base: seq<nat>) {
    && (forall i :: 0 <= i < |queue| ==> queue[i] < |base|)
    && forall i :: 0 <= i < |queue| ==> base[queue[0]] <= base[queue[i]]
  }

  ghost predicate Ordered(s: State, base: seq<nat>) {
    && |base| == |s.priority|
    && (forall i :: 0 <= i < |s.queue| ==> s.queue[i] < |base|)
    && (s.flag.Prio? ==> forall i, j :: 0 <= i < j < |s.queue| ==> base[s.queue[i]] <= base[s.queue[j]])
  }

  ghost predicate Good(s: State, base: seq<nat>) {
    Inherits(s) && Ordered(s, base)
  }

  lemma Firsts(s: State, base: seq<nat>)
    requires Inv(s, base) && Ordered(s, base) && Reliable(s.flag, base) && s.owner >= 0
    ensures FirstUrgent(s.queue, base)
  {
    if s.flag.Fifo? && |base| <= 2 {
      AtMostOne(s);
    }
  }

  /** Of two threads one owns the mutex, so at most one waits. */
  lemma AtMostOne(s: State)
    requires Owned(s) && s.owner >= 0 && |s.priority| <= 2
    ensures |s.queue| <= 1
  {
    OnlyOther(s.queue, s.owner);
  }

  lemma OnlyOther(queue: seq<nat>, owner: int)
    requires 0 <= owner < 2 && forall i :: 0 <= i < |queue| ==> queue[i] < 2 && queue[i] != owner
    ensures |queue| >= 2 ==> queue[0] == queue[1]
  {
  }

  lemma JoinOrdered(s: State, t: nat, priority: seq<nat>, base: seq<nat>)
    requires Inv(s, base) && Ordered(s, base) && t < |base| == |priority| && t != s.owner && !Waits(s, t)
    requires forall u :: 0 <= u < |base| && u != s.owner ==> priority[u] == base[u]
    ensures Ordered(s.(priority := priority, queue := Join(s.queue, t, priority, s.flag)), base)
  {
    hide Join, Distinct;
    JoinFacts(s, t, priority);
    if s.flag.Prio? {
      JoinSorted(s.queue, t, priority, base);
    }
  }

  lemma JoinSorted(queue: seq<nat>, t: nat, priority: seq<nat>, base: seq<nat>)
    requires t < |base| == |priority| && priority[t] == base[t]
    requires forall i :: 0 <= i < |queue| ==> queue[i] < |base| && priority[queue[i]] == base[queue[i]]
    requires forall i, j :: 0 <= i < j < |queue| ==> base[queue[i]] <= base[queue[j]]
    ensures var q := Join(queue, t, priority, Prio);
            && (forall i :: 0 <= i < |q| ==> q[i] < |base|)
            && forall i, j :: 0 <= i < j < |q| ==> base[q[i]] <= base[q[j]]
  {
    var ranks := PrioritiesOf(queue, priority);
    var k := Place(ranks, priority[t], Prio);
    var q := Insert(queue, k, t);
    InsertIndex(queue, k, t);
    InsertIndex(ranks, k, priority[t]);
    RanksAre(queue, priority, base);
    PlaceSorts(ranks, priority[t]);
    hide Insert, PrioritiesOf, Place;
    assert forall i :: 0 <= i < |q| ==> base[q[i]] == Insert(ranks, k, priority[t])[i];
  }

  lemma RanksAre(queue: seq<nat>, priority: seq<nat>, base: seq<nat>)
    requires |base| == |priority|
    requires forall i :: 0 <= i < |queue| ==> queue[i] < |base| && priority[queue[i]] == base[queue[i]]
    ensures forall i :: 0 <= i < |queue| ==> PrioritiesOf(queue, priority)[i] == base[queue[i]]
  {
  }

  lemma TakeGood(s: State, t: nat, wait: bool, base: seq<nat>)
    requires Inv(s, base) && Good(s, base) && t < |s.priority| && !Waits(s, t)
    ensures Good(DoTake(s, t, wait), base)
  {
    hide Join, Distinct;
    if s.owner != t && s.value == 0 && wait {
      var r := DoTake(s, t, wait);
      JoinFacts(s, t, r.priority);
      JoinOrdered(s, t, r.priority, base);
      forall i | 0 <= i < |r.queue| ensures r.priority[r.owner] <= r.priority[r.queue[i]] {
        if r.queue[i] != t {
          var j :| 0 <= j < |s.queue| && s.queue[j] == r.queue[i];
        }
      }
    }
  }

  lemma ReleaseGood(s: State, t: nat, base: seq<nat>)
    requires Inv(s, base) && Good(s, base) && Reliable(s.flag, base) && t < |s.priority|
    ensures Good(DoRelease(s, t), base)
  {
    if s.owner == t && s.hold == 1 && s.queue != [] {
      Firsts(s, base);
      FirstLeaves(s.queue);
    }
    hide Distinct;
  }

  lemma ExpireGood(s: State, t: nat, base: seq<nat>)
    requires Inv(s, base) && Good(s, base) && Waits(s, t)
    ensures Good(Expire(s, t), base)
  {
    hide Without, Distinct;
    var k := WithoutLeaves(s.queue, t);
  }

  lemma StepGood(s: State, e: Event, base: seq<nat>)
    requires Inv(s, base) && Good(s, base) && Reliable(s.flag, base) && Enabled(s, e)
    ensures Good(Step(s, e), base) && Step(s, e).flag == s.flag
  {
    hide Good, Join, Without, Owned, Restorable;
    match e
    case Take(t, wait) => TakeGood(s, t, wait, base);
    case Release(t) => ReleaseGood(s, t, base);
    case Timeout(t) => ExpireGood(s, t, base);
  }

  lemma {:induction false} RunGood(s: State, es: seq<Event>, base: seq<nat>)
    requires Inv(s, base) && Good(s, base) && Reliable(s.flag, base)
    ensures var r := Run(s, es, base); r.Some? ==> Good(r.value, base)
    decreases |es|
  {
    hide Owned, Restorable, Good, Step, Reliable;
    if es != [] && Enabled(s, es[0]) {
      StepKeeps(s, es[0], base);
      StepGood(s, es[0], base);
      assert Reliable(Step(s, es[0]).flag, base);
      RunGood(Step(s, es[0]), es[1..], base);
    }
  }

  /** In every reachable state the owner is at least as urgent as every waiter. */
  ghost predicate AlwaysInherits(flag: Flag, base: seq<nat>)
    requires Inv(Start(flag, base), base)
  {
    forall es :: var r := Run(Start(flag, base), es, base); r.Some? ==> Inherits(r.value)
  }

  lemma StartInv(flag: Flag, base: seq<nat>)
    ensures Inv(Start(flag, base), base)
  {
  }

  lemma RunMore(s: State, e: Event, es: seq<Event>, base: seq<nat>)
    requires Inv(s, base) && Enabled(s, e)
    ensures Inv(Step(s, e), base) && Run(s, [e] + es, base) == Run(Step(s, e), es, base)
  {
    hide Owned, Restorable, Step;
    StepKeeps(s, e, base);
    assert ([e] + es)[1..] == es;
  }

  /** The owner `a` of a FIFO mutex with the waiters `b` and then `c` has handed the mutex to `b`. */
  ghost predicate Inverted(s: State, b: nat, c: nat) {
    s.owner == b < |s.priority| && s.queue == [c] && c < |s.priority| && s.priority[c] < s.priority[b]
  }

  /** FIFO and different priorities: `a` takes, `b` and `c` wait, `a` releases, and `b` runs less urgently than `c`. */
  lemma Inversion(base: seq<nat>, a: nat, b: nat, c: nat) returns (es: seq<Event>)
    requires a < |base| && b < |base| && c < |base| && a != b && a != c && base[c] < base[b]
    ensures Inv(Start(Fifo, base), base)
    ensures var r := Run(Start(Fifo, base), es, base); r.Some? && Inverted(r.value, b, c)
  {
    hide Run, Owned, Restorable, Step;
    var s0 := Start(Fifo, base);
    StartInv(Fifo, base);
    var e1, e2, e3, e4 := Take(a, false), Take(b, true), Take(c, true), Release(a);
    RunMore(s0, e1, [e2, e3, e4], base);
    var s1 := Step(s0, e1);
    AfterTake(base, a);
    RunMore(s1, e2, [e3, e4], base);
    var s2 := Step(s1, e2);
    AfterWait(s1, base, a, b, []);
    RunMore(s2, e3, [e4], base);
    var s3 := Step(s2, e3);
    AfterWait(s2, base, a, c, [b]);
    RunMore(s3, e4, [], base);
    AfterRelease(s3, base, a, b, c);
    es := [e1, e2, e3, e4];
    assert [e1] + [e2, e3, e4] == es && [e2] + [e3, e4] == [e2, e3, e4] && [e3] + [e4] == [e3, e4] && [e4] + [] == [e4];
    NoMore(Step(s3, e4), base);
  }

  lemma NoMore(s: State, base: seq<nat>)
    requires Inv(s, base)
    ensures Run(s, [], base) == Some(s)
  {
  }

  /** Owned once by `a`, with the given threads waiting in a FIFO queue. */
  ghost predicate Held(s: State, base: seq<nat>, a: nat, queue: seq<nat>) {
    s.flag.Fifo? && s.owner == a && s.value == 0 && s.hold == 1 && s.queue == queue && |s.priority| == |base|
  }

  lemma AfterTake(base: seq<nat>, a: nat)
    requires a < |base| && Inv(Start(Fifo, base), base)
    ensures Enabled(Start(Fifo, base), Take(a, false)) && Held(Step(Start(Fifo, base), Take(a, false)), base, a, [])
  {
  }

  lemma AfterWait(s: State, base: seq<nat>, a: nat, t: nat, queue: seq<nat>)
    requires Inv(s, base) && Held(s, base, a, queue) && a != t && t < |base| && !Waits(s, t)
    ensures Held(Step(s, Take(t, true)), base, a, queue + [t])
  {
    hide Place, PrioritiesOf;
    var priority := DoTake(s, t, true).priority;
    FifoPlace(PrioritiesOf(queue, priority), priority[t]);
    assert queue[..|queue|] == queue;
  }

  lemma AfterRelease(s: State, base: seq<nat>, a: nat, b: nat, c: nat)
    requires Inv(s, base) && Held(s, base, a, [b, c]) && b < |base| && c < |base| && base[c] < base[b]
    ensures Enabled(s, Release(a)) && Inverted(Step(s, Release(a)), b, c)
  {
    assert s.queue[0] == b && s.queue[1] == c;
    assert [b, c][1..] == [c];
  }

  /**
   Priority inheritance, exactly: the owner of the mutex is in every reachable state at least as
   urgent as every waiter if and only if the mutex is a PRIO mutex, or there are at most two
   threads, or all have the same priority.
   */
  lemma InheritanceExact(flag: Flag, base: seq<nat>)
    ensures Inv(Start(flag, base), base)
    ensures AlwaysInherits(flag, base) <==> Reliable(flag, base)
  {
    hide Owned, Restorable, Run;
    StartInv(flag, base);
    var s := Start(flag, base);
    if Reliable(flag, base) {
      forall es | Run(s, es, base).Some? ensures Inherits(Run(s, es, base).value) {
        assert Good(s, base);
        RunGood(s, es, base);
      }
    } else {
      var a, b, c := Three(base);
      var es := Inversion(base, a, b, c);
      var r := Run(s, es, base).value;
      assert r.queue[0] == c;
      assert !Inherits(r);
    }
  }

  lemma Three(base: seq<nat>) returns (a: nat, b: nat, c: nat)
    requires |base| > 2 && !AllEqual(base)
    ensures a < |base| && b < |base| && c < |base| && a != b && a != c && base[c] < base[b]
  {
    var i, j :| 0 <= i < |base| && 0 <= j < |base| && base[i] != base[j];
    b, c := if base[i] > base[j] then i else j, if base[i] > base[j] then j else i;
    a := if b != 0 && c != 0 then 0 else if b != 1 && c != 1 then 1 else 2;
  }

  // ----- what a call comes to -----

  /**
   A thread takes a mutex that is free or its own. If another one has it, it waits, all others
   waiting as before, and the owner runs at the more urgent of both priorities; or it gives up
   and leaves everything as it was.
   */
  lemma TakeOutcome(s: State, t: nat, wait: bool, base: seq<nat>)
    requires Inv(s, base) && Enabled(s, Take(t, wait))
    ensures var r := Step(s, Take(t, wait));
            && r.releases == s.releases
            && if s.owner == NOBODY || (s.owner == t && s.hold < HOLD_MAX) then
                 && r.owner == t && r.value == 0 && r.hold == s.hold + 1 && r.takes == s.takes[t := s.takes[t] + 1]
                 && r.queue == s.queue && r.priority == s.priority
               else if s.owner != t && wait then
                 && r.owner == s.owner && r.value == s.value && r.hold == s.hold && r.takes == s.takes
                 && Waits(r, t) && (forall u :: Waits(s, u) ==> Waits(r, u))
                 && r.priority ==
                    s.priority[s.owner := if s.priority[t] < s.priority[s.owner] then s.priority[t] else s.priority[s.owner]]
                 && exists k: nat :: Stands(s.queue, r.queue, t, k, r.priority, s.flag)
               else r == s
  {
    hide Join, Distinct;
    if s.owner >= 0 && s.owner != t && wait {
      var priority := DoTake(s, t, wait).priority;
      JoinWaits(s, t, priority);
      JoinStands(s.queue, t, priority, s.flag);
    }
  }

  lemma JoinWaits(s: State, t: nat, priority: seq<nat>)
    requires t < |priority|
    ensures var q := Join(s.queue, t, priority, s.flag); Among(q, t) && forall u :: Waits(s, u) ==> Among(q, u)
  {
    var k := Place(PrioritiesOf(s.queue, priority), priority[t], s.flag);
    InsertAmong(s.queue, k, t);
  }

  lemma InsertAmong(queue: seq<nat>, k: nat, t: nat)
    requires k <= |queue|
    ensures Among(Insert(queue, k, t), t) && forall u :: Among(queue, u) ==> Among(Insert(queue, k, t), u)
  {
    var q := Insert(queue, k, t);
    InsertIndex(queue, k, t);
    hide Insert;
    assert q[k] == t;
    forall u | Among(queue, u) ensures Among(q, u) {
      var i :| 0 <= i < |queue| && queue[i] == u;
      assert q[if i < k then i else i + 1] == u;
    }
  }

  /** Whoever does not own the mutex cannot release it; an inner release only takes back one hold. */
  lemma ReleaseOutcome(s: State, t: nat, base: seq<nat>)
    requires Inv(s, base) && Enabled(s, Release(t))
    ensures var r := Step(s, Release(t));
            && (s.owner != t ==> r == s)
            && (s.owner == t && s.hold > 1 ==> r == s.(hold := s.hold - 1, releases := s.releases[t := s.releases[t] + 1]))
  {
    hide Distinct;
  }

  /**
   The last release gives the thread its own priority back and hands the mutex to the first waiter,
   which holds it once and waits no longer, while the others wait on; on a PRIO mutex no other waiter
   is more urgent. With nobody waiting the mutex is free.
   */
  lemma HandOver(s: State, t: nat, base: seq<nat>)
    requires Inv(s, base) && Ordered(s, base) && s.owner == t && Enabled(s, Release(t)) && s.hold == 1
    ensures var r := Step(s, Release(t));
            && r.priority == s.priority[t := base[t]] && r.releases == s.releases[t := s.releases[t] + 1]
            && if s.queue == [] then r.owner == NOBODY && r.value == 1 && r.hold == 0 && r.takes == s.takes
               else
                 var w := s.queue[0];
                 && r.owner == w && r.value == 0 && r.hold == 1 && !Waits(r, w) && r.queue == s.queue[1..]
                 && r.takes == s.takes[w := s.takes[w] + 1]
                 && (forall u :: Waits(s, u) && u != w ==> Waits(r, u))
                 && (s.flag.Prio? ==> forall u: nat :: u < |base| && Waits(r, u) ==> base[w] <= base[u])
  {
    hide Distinct;
    if s.queue != [] {
      DistinctQueue(s);
      FirstLeaves(s.queue);
      var r, w := Step(s, Release(t)), s.queue[0];
      forall u | Waits(s, u) && u != w ensures Waits(r, u) {
        var i :| 0 <= i < |s.queue| && s.queue[i] == u;
        assert s.queue[1..][i - 1] == u;
      }
    }
  }

  /** A thread whose time is up leaves the queue, the others keeping their order; nothing else happens. */
  lemma TimeoutOutcome(s: State, t: nat, base: seq<nat>)
    requires Inv(s, base) && Enabled(s, Timeout(t))
    ensures var r := Step(s, Timeout(t));
            r == s.(queue := r.queue) && !Waits(r, t) && exists k: nat :: Leaves(s.queue, r.queue, t, k)
  {
    hide Without;
    var k := WithoutLeaves(s.queue, t);
  }

  lemma DistinctQueue(s: State)
    requires Owned(s)
    ensures Distinct(s.queue)
  {
  }
}
