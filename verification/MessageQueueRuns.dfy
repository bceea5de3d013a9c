/** What holds of a message queue after any run, with any number of threads interleaving freely. */
module MessageQueueRuns {
  import opened Wrappers
  import opened WaitQueue
  import opened MessageQueue
  import opened MessageQueueSafety

  /** The queue as `rt_mq_init` leaves it: the free chain runs from the last slot to the first. */
  function Start(max: nat, size: nat, flag: Flag, pool: seq<string>, priority: seq<nat>): State {
    State(max, size, flag, Countdown(max), [], [], 0, pool, [], [], seq(|priority|, _ => Idle), priority)
  }

  function Countdown(n: nat): (r: seq<nat>)
    ensures |r| == n && forall i :: 0 <= i < n ==> r[i] == n - 1 - i
  {
    if n == 0 then [] else [n - 1] + Countdown(n - 1)
  }

  /** The slots and sizes that the 16-bit fields of the object can describe. */
  predicate Fresh(max: nat, size: nat, pool: seq<string>) {
    max <= ENTRY_MAX && |pool| == max && forall k :: 0 <= k < max ==> |pool[k]| == size
  }

  lemma StartInv(max: nat, size: nat, flag: Flag, pool: seq<string>, priority: seq<nat>)
    requires Fresh(max, size, pool)
    ensures Inv(Start(max, size, flag, pool, priority))
  {
    var s := Start(max, size, flag, pool, priority);
    assert Holders(s.pc) == {} && Receiving(s.pc) == {} && Sending(s.pc) == {};
  }

  /** A run: events in the order in which they happen, each possible where its thread stands. */
  ghost function Run(s: State, es: seq<Event>): Option<State>
    requires Inv(s)
    decreases |es|
  {
    if es == [] then Some(s)
    else if !Enabled(s, es[0]) then None
    else StepKeeps(s, es[0]); Run(Step(s, es[0]), es[1..])
  }

  lemma {:induction false} RunKeeps(s: State, es: seq<Event>)
    requires Inv(s)
    ensures var r := Run(s, es); r.Some? ==> Inv(r.value)
    decreases |es|
  {
    hide Inv, Step;
    if es != [] && Enabled(s, es[0]) {
      StepKeeps(s, es[0]);
      RunKeeps(Step(s, es[0]), es[1..]);
    }
  }

  // ----- every slot has exactly one place -----

  predicate InChain(c: seq<nat>, k: nat) { exists i :: 0 <= i < |c| && c[i] == k }

  predicate InHands(pc: seq<Pc>, k: nat) { exists t :: 0 <= t < |pc| && Hand(pc[t]) == k }

  ghost function Elements(c: seq<nat>): set<nat> { set i | 0 <= i < |c| :: c[i] }

  ghost function HandSlots(pc: seq<Pc>, holders: set<nat>): set<nat>
    requires forall t :: t in holders ==> t < |pc| && Hand(pc[t]) >= 0
  {
    set t | t in holders :: Hand(pc[t]) as nat
  }

  lemma {:induction false} ElementsSize(c: seq<nat>)
    requires Distinct(c)
    ensures |Elements(c)| == |c|
  {
    if c == [] {
      assert Elements(c) == {};
    } else {
      var rest := c[1..];
      assert forall i :: 0 <= i < |rest| ==> rest[i] == c[i + 1];
      ElementsSize(rest);
      forall k ensures k in Elements(c) <==> k in Elements(rest) + {c[0]} {
        if k in Elements(c) {
          var i :| 0 <= i < |c| && c[i] == k;
          assert i > 0 ==> rest[i - 1] == k;
        }
      }
      assert Elements(c) == Elements(rest) + {c[0]};
      assert c[0] !in Elements(rest);
    }
  }

  lemma {:induction false} HandSlotsSize(pc: seq<Pc>, holders: set<nat>)
    requires forall t :: t in holders ==> t < |pc| && Hand(pc[t]) >= 0
    requires forall t, u :: 0 <= t < u < |pc| && Hand(pc[t]) >= 0 ==> Hand(pc[t]) != Hand(pc[u])
    ensures |HandSlots(pc, holders)| == |holders|
    decreases |holders|
  {
    if holders == {} {
      assert HandSlots(pc, holders) == {};
    } else {
      var t :| t in holders;
      HandSlotsSize(pc, holders - {t});
      assert HandSlots(pc, holders) == HandSlots(pc, holders - {t}) + {Hand(pc[t])};
      assert Hand(pc[t]) !in HandSlots(pc, holders - {t});
    }
  }

  lemma Full(a: set<nat>, b: set<nat>, c: set<nat>, max: nat, k: nat)
    requires a !! b && a !! c && b !! c && |a| + |b| + |c| == max && k < max
    requires forall x :: x in a || x in b || x in c ==> x < max
    ensures k in a || k in b || k in c
  {
    var all, taken := Elements(Countdown(max)), a + b + c;
    ElementsSize(Countdown(max));
    forall x: nat | x < max ensures x in all {
      assert Countdown(max)[max - 1 - x] == x;
    }
    if k !in taken {
      Smaller(taken + {k}, all);
    }
  }

  lemma {:induction false} Smaller(a: set<nat>, b: set<nat>)
    requires a <= b
    ensures |a| <= |b|
    decreases |a|
  {
    if a != {} {
      var x :| x in a;
      Smaller(a - {x}, b - {x});
    }
  }

  /** Each of the `max_msgs` slots is in exactly one of the free chain, the queue, and the hands of one thread. */
  lemma SlotPartition(s: State, k: nat)
    requires Inv(s) && k < s.max
    ensures InChain(s.free, k) || InChain(s.queue, k) || InHands(s.pc, k)
    ensures !(InChain(s.free, k) && InChain(s.queue, k))
    ensures !(InChain(s.free, k) && InHands(s.pc, k)) && !(InChain(s.queue, k) && InHands(s.pc, k))
    ensures forall t, u :: 0 <= t < |s.pc| && 0 <= u < |s.pc| && Hand(s.pc[t]) == k == Hand(s.pc[u]) ==> t == u
    ensures forall i, j :: 0 <= i < |s.free| && 0 <= j < |s.free| && s.free[i] == k == s.free[j] ==> i == j
    ensures forall i, j :: 0 <= i < |s.queue| && 0 <= j < |s.queue| && s.queue[i] == k == s.queue[j] ==> i == j
  {
    hide Waits, Wakes, Blocks;
    SomewhereIs(s.max, s.free, s.queue, s.pc, k);
  }

  lemma SomewhereIs(max: nat, free: seq<nat>, queue: seq<nat>, pc: seq<Pc>, k: nat)
    requires Slots(max, free, queue, pc) && k < max
    ensures InChain(free, k) || InChain(queue, k) || InHands(pc, k)
  {
    var a, b, c := Elements(free), Elements(queue), HandSlots(pc, Holders(pc));
    ElementsSize(free);
    ElementsSize(queue);
    HandSlotsSize(pc, Holders(pc));
    Full(a, b, c, max, k);
  }

  lemma Same(s: State)
    requires Inv(s)
    ensures |s.messages| == |s.queue| == s.entry
  {
    hide Slots, Waits, Wakes;
  }

  lemma Bounded(s: State)
    requires Inv(s)
    ensures |s.queue| <= s.max
  {
    hide Waits, Wakes, Blocks;
  }

  // ----- no lost wake-up -----

  /** When every resumed thread has run, receivers wait only on an empty queue, senders only without a free slot. */
  lemma NobodyForgotten(s: State)
    requires Inv(s)
    requires forall t :: 0 <= t < |s.pc| ==> !s.pc[t].WokenRecv? && !s.pc[t].WokenSend?
    ensures s.entry > 0 ==> forall t :: 0 <= t < |s.pc| ==> !s.pc[t].WaitRecv?
    ensures s.free != [] ==> forall t :: 0 <= t < |s.pc| ==> !s.pc[t].WaitSend?
  {
    hide Slots, Blocks, Distinct;
    assert WokenReceivers(s.pc) == {} && WokenSenders(s.pc) == {};
    forall t: nat | t < |s.pc| ensures t in Receiving(s.pc) <==> s.pc[t].WaitRecv? {}
    forall t: nat | t < |s.pc| ensures t in Sending(s.pc) <==> s.pc[t].WaitSend? {}
  }

  // ----- the pool in bytes -----

  /** `RT_ALIGN` to 4 bytes, in a 16-bit field. */
  function AlignedSize(size: nat): nat { ((size + 3) / 4 * 4) % 0x1_0000 }

  function SlotBytes(size: nat): nat { AlignedSize(size) + 4 }

  /** `max_msgs` as computed by `rt_mq_init`, in a 16-bit field. */
  function MaxMessages(size: nat, poolSize: nat): nat { poolSize / SlotBytes(size) % 0x1_0000 }

  /** The slots, each a link and a message, lie in the pool one behind the other. */
  lemma SlotsInPool(size: nat, poolSize: nat, i: nat, j: nat)
    requires i < j < MaxMessages(size, poolSize)
    ensures MaxMessages(size, poolSize) <= ENTRY_MAX
    ensures i * SlotBytes(size) + 4 + AlignedSize(size) <= j * SlotBytes(size)
    ensures j * SlotBytes(size) + 4 + AlignedSize(size) <= poolSize
  {
    var w := SlotBytes(size);
    var n := poolSize / w;
    assert (i + 1) * w <= j * w by { Monotone(i + 1, j, w); }
    assert (j + 1) * w <= n * w by { Monotone(j + 1, n, w); }
    assert n * w <= poolSize;
  }

  lemma Monotone(a: nat, b: nat, w: nat)
    requires a <= b
    ensures a * w <= b * w
  {
  }
}
