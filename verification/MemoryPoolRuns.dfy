/** Every event of the pool keeps the invariants. */
module MemoryPoolRuns {
  import opened Wrappers
  import opened WaitQueue
  import opened MemoryPool

  // ----- threads -----

  lemma SetsUpdate(pc: seq<Pc>, t: nat, p: Pc)
    requires t < |pc|
    ensures WaitingSet(pc[t := p]) == if p.Waiting? then WaitingSet(pc) + {t} else WaitingSet(pc) - {t}
    ensures WokenSet(pc[t := p]) == if p.Woken? then WokenSet(pc) + {t} else WokenSet(pc) - {t}
    ensures t in WaitingSet(pc) <==> pc[t].Waiting?
    ensures t in WokenSet(pc) <==> pc[t].Woken?
  {
  }

  lemma WokenCount(pc: seq<Pc>, t: nat, p: Pc)
    requires t < |pc|
    ensures |WokenSet(pc[t := p])| == |WokenSet(pc)| + (if p.Woken? then 1 else 0) - (if pc[t].Woken? then 1 else 0)
  {
    hide WokenSet, WaitingSet;
    SetsUpdate(pc, t, p);
    Toggle(WokenSet(pc), t);
  }

  lemma WaitsStay(waiters: seq<nat>, pc: seq<Pc>, t: nat, p: Pc)
    requires Holds(waiters, WaitingSet(pc)) && t < |pc| && !pc[t].Waiting? && !p.Waiting?
    ensures Holds(waiters, WaitingSet(pc[t := p]))
  {
    hide Holds, WaitingSet;
    SetsUpdate(pc, t, p);
    assert WaitingSet(pc) - {t} == WaitingSet(pc);
  }

  lemma WaitsPush(waiters: seq<nat>, pc: seq<Pc>, t: nat)
    requires Holds(waiters, WaitingSet(pc)) && t < |pc| && !pc[t].Waiting?
    ensures Holds([t] + waiters, WaitingSet(pc[t := Waiting]))
  {
    hide Holds, WaitingSet;
    SetsUpdate(pc, t, Waiting);
    HoldsInsert(waiters, WaitingSet(pc), t, 0);
    InsertFront(waiters, t);
  }

  lemma WaitsPop(waiters: seq<nat>, pc: seq<Pc>)
    requires Holds(waiters, WaitingSet(pc)) && waiters != []
    ensures var t := waiters[0]; t < |pc| && pc[t].Waiting? && Holds(waiters[1..], WaitingSet(pc[t := Woken]))
  {
    hide Holds, WaitingSet;
    HoldsFirst(waiters, WaitingSet(pc));
    IsWaiting(pc, waiters[0]);
    SetsUpdate(pc, waiters[0], Woken);
  }

  lemma IsWaiting(pc: seq<Pc>, t: nat)
    ensures t in WaitingSet(pc) ==> t < |pc| && pc[t].Waiting?
  {
  }

  // ----- blocks -----

  /** A write outside the headers of the free chain does not touch the chain. */
  lemma ChainOther(mem: seq<int>, list: int, free: seq<nat>, width: nat, a: int, v: int)
    requires Chain(mem, list, free, width) && 0 <= a < |mem|
    requires forall i :: 0 <= i < |free| ==> At(free[i], width) != a
    ensures Chain(mem[a := v], list, free, width)
  {
    hide At;
  }

  lemma ChainFirst(mem: seq<int>, list: int, free: seq<nat>, width: nat)
    requires Chain(mem, list, free, width) && free != []
    ensures list == At(free[0], width) && 0 <= list < |mem| && Chain(mem, mem[list], free[1..], width)
  {
    hide At;
  }

  lemma ChainFront(mem: seq<int>, list: int, free: seq<nat>, width: nat, k: nat)
    requires Chain(mem, list, free, width) && 0 <= At(k, width) < |mem|
    requires forall i :: 0 <= i < |free| ==> At(free[i], width) != At(k, width)
    ensures Chain(mem[At(k, width) := list], At(k, width), [k] + free, width)
  {
    hide At;
  }

  /** Distinct blocks have distinct headers, and no header lies inside another block. */
  lemma OtherHeaders(k: nat, i: nat, width: nat)
    requires i < width
    ensures forall j: nat {:trigger At(j, width)} :: j != k ==> At(j, width) != At(k, width) + i
  {
    hide At;
    forall j: nat | j != k ensures At(j, width) != At(k, width) + i {
      BlocksApart(j, k, width);
      BlocksApart(k, j, width);
    }
  }

  lemma HeadersOther(mem: seq<int>, out: set<nat>, width: nat, a: int, v: int)
    requires Headers(mem, out, width) && 0 <= a < |mem| && forall k :: k in out ==> At(k, width) != a
    ensures Headers(mem[a := v], out, width)
  {
    hide At;
  }

  lemma HeadersMore(mem: seq<int>, out: set<nat>, width: nat, k: nat)
    requires Headers(mem, out, width) && 0 <= At(k, width) < |mem|
    requires forall j: nat {:trigger At(j, width)} :: j != k ==> At(j, width) != At(k, width)
    ensures Headers(mem[At(k, width) := POOL], out + {k}, width)
  {
    hide At;
  }

  lemma PartitionOut(total: nat, free: seq<nat>, out: set<nat>)
    requires Partition(total, free, out) && free != []
    ensures free[0] < total && free[0] !in out && Partition(total, free[1..], out + {free[0]})
    ensures forall i :: 0 <= i < |free[1..]| ==> free[1..][i] != free[0]
  {
    var k, rest := free[0], free[1..];
    assert forall i :: 0 <= i < |rest| ==> rest[i] == free[i + 1] && rest[i] != k;
    assert free == [k] + rest;
  }

  lemma PartitionIn(total: nat, free: seq<nat>, out: set<nat>, k: nat)
    requires Partition(total, free, out) && k in out
    ensures k < total && Partition(total, [k] + free, out - {k})
    ensures forall i :: 0 <= i < |free| ==> free[i] != k
  {
  }

  lemma AllocBlocks(s: State)
    requires Blocks(s) && s.freeCount > 0
    ensures 0 <= s.list < |s.mem|
    ensures Blocks(s.(freeCount := s.freeCount - 1, list := s.mem[s.list], mem := s.mem[s.list := POOL],
                      free := s.free[1..], out := s.out + {s.free[0]}))
    ensures s.free[0] !in s.out && s.free[0] < s.total && s.list == At(s.free[0], s.width)
  {
    hide At, Chain, Partition, Headers;
    var k, rest := s.free[0], s.free[1..];
    ChainFirst(s.mem, s.list, s.free, s.width);
    OtherHeaders(k, 0, s.width);
    PartitionOut(s.total, s.free, s.out);
    ChainOther(s.mem, s.mem[s.list], rest, s.width, s.list, POOL);
    HeadersMore(s.mem, s.out, s.width, k);
  }

  lemma FreeBlocks(s: State, k: nat)
    requires Blocks(s) && k in s.out
    ensures 0 <= At(k, s.width) < |s.mem|
    ensures Blocks(s.(freeCount := s.freeCount + 1, mem := s.mem[At(k, s.width) := s.list], list := At(k, s.width),
                      free := [k] + s.free, out := s.out - {k}))
  {
    hide At, Chain, Partition, Headers;
    OtherHeaders(k, 0, s.width);
    PartitionIn(s.total, s.free, s.out, k);
    BlockInside(k, s.total, s.width, |s.mem|);
    ChainFront(s.mem, s.list, s.free, s.width, k);
    HeadersFewer(s.mem, s.out, s.width, k);
    HeadersOther(s.mem, s.out - {k}, s.width, At(k, s.width), s.list);
  }

  lemma HeadersFewer(mem: seq<int>, out: set<nat>, width: nat, k: nat)
    requires Headers(mem, out, width)
    ensures Headers(mem, out - {k}, width)
  {
    hide At;
  }

  lemma WriteBlocks(s: State, k: nat, i: nat, v: int)
    requires Blocks(s) && k in s.out && 0 < i < s.width
    ensures 0 <= At(k, s.width) + i < |s.mem|
    ensures Blocks(DoWrite(s, k, i, v))
  {
    hide At, Chain, Partition, Headers;
    PartitionIn(s.total, s.free, s.out, k);
    BlockInside(k, s.total, s.width, |s.mem|);
    OtherHeaders(k, i, s.width);
    ChainOther(s.mem, s.list, s.free, s.width, At(k, s.width) + i, v);
    HeadersOther(s.mem, s.out, s.width, At(k, s.width) + i, v);
  }

  // ----- the events -----

  lemma AllocKeeps(s: State, t: nat, wait: bool)
    requires Inv(s) && t < |s.pc| && (s.pc[t].Idle? || s.pc[t].Woken?)
    requires s.freeCount > 0 ==> s.free != [] && 0 <= s.list < |s.mem|
    ensures Inv(DoAlloc(s, t, wait))
  {
    hide Holds, WaitingSet, WokenSet, At;
    WokenCount(s.pc, t, DoAlloc(s, t, wait).pc[t]);
    if s.freeCount > 0 {
      AllocBlocks(s);
      WaitsStay(s.waiters, s.pc, t, Idle);
    } else if wait {
      WaitsPush(s.waiters, s.pc, t);
    } else {
      WaitsStay(s.waiters, s.pc, t, Idle);
    }
    hide Blocks;
    var r := DoAlloc(s, t, wait);
    if s.freeCount > 0 {
      SameBlocks(s.(freeCount := s.freeCount - 1, list := s.mem[s.list], mem := s.mem[s.list := POOL],
                    free := s.free[1..], out := s.out + {s.free[0]}), r);
    } else {
      SameBlocks(s, r);
    }
  }

  /** Threads do not matter for the blocks. */
  lemma SameBlocks(s: State, r: State)
    requires Blocks(s) && r.(waiters := s.waiters, pc := s.pc) == s
    ensures Blocks(r)
  {
    hide At, Chain, Partition, Headers;
  }

  lemma FreeKeeps(s: State, k: nat)
    requires Inv(s) && k in s.out && 0 <= At(k, s.width) < |s.mem|
    ensures Inv(DoFree(s, k))
  {
    hide Holds, WaitingSet, WokenSet, At;
    FreeBlocks(s, k);
    hide Blocks;
    var r := s.(freeCount := s.freeCount + 1, mem := s.mem[At(k, s.width) := s.list], list := At(k, s.width),
                free := [k] + s.free, out := s.out - {k});
    if s.waiters != [] {
      WaitsPop(s.waiters, s.pc);
      WokenCount(s.pc, s.waiters[0], Woken);
    }
    SameBlocks(r, Wake(r));
  }

  lemma StepKeeps(s: State, e: Event)
    requires Inv(s) && Enabled(s, e)
    ensures Inv(Step(s, e))
  {
    hide Holds, WaitingSet, WokenSet, At, Chain, Partition, Headers;
    match e
    case Alloc(t, wait) => FirstInside(s); AllocKeeps(s, t, wait);
    case AllocAgain(t, wait) => FirstInside(s); AllocKeeps(s, t, wait);
    case Free(k) => OutBelow(s, k); BlockInside(k, s.total, s.width, |s.mem|); FreeKeeps(s, k);
    case Write(k, i, v) => WriteBlocks(s, k, i, v);
    case Timeout(t) => ExpireKeeps(s, t);
  }

  lemma ExpireKeeps(s: State, t: nat)
    requires Inv(s) && t < |s.pc| && s.pc[t].Waiting?
    ensures Inv(Expire(s, t))
  {
    hide Holds, WaitingSet, WokenSet, Blocks, Without;
    WokenCount(s.pc, t, Idle);
    SetsUpdate(s.pc, t, Idle);
    HoldsWithout(s.waiters, WaitingSet(s.pc), t);
    SameBlocks(s, Expire(s, t));
  }

  // ----- initialisation -----

  /** `RT_ALIGN` and `RT_ALIGN_DOWN` to 4 bytes. */
  function Align(n: nat): nat { (n + 3) / 4 * 4 }

  function AlignDown(n: nat): nat { n / 4 * 4 }

  /** `block_total_count`, computed by `rt_mp_init` from sizes in bytes. */
  function BlockCount(size: nat, blockSize: nat): nat { AlignDown(size) / (Align(blockSize) + 4) }

  /** The words of a block, its header included. */
  function BlockWords(blockSize: nat): nat { Align(blockSize) / 4 + 1 }

  /** The blocks fit into the region, and no other would. */
  lemma CountFits(size: nat, blockSize: nat)
    requires blockSize > 0
    ensures BlockWords(blockSize) >= 2
    ensures At(BlockCount(size, blockSize), BlockWords(blockSize)) <= size / 4
    ensures size / 4 < At(BlockCount(size, blockSize) + 1, BlockWords(blockSize))
  {
    var w, words, n := BlockWords(blockSize), size / 4, BlockCount(size, blockSize);
    assert Align(blockSize) + 4 == 4 * w && AlignDown(size) == 4 * words;
    Divide(4 * words, 4 * w, n);
    assert n * (4 * w) == 4 * (n * w);
    assert (n + 1) * (4 * w) == 4 * ((n + 1) * w);
  }

  lemma Divide(a: nat, b: nat, q: nat)
    requires b > 0 && q == a / b
    ensures q * b <= a < (q + 1) * b
  {
    assert a == b * (a / b) + a % b;
  }

  /** The addresses that `rt_mp_init` writes to, in order: every header, and then the last one again. */
  function InitWrites(total: nat, width: nat): seq<int> {
    seq(total + 1, offset => if offset < total then At(offset, width) else At(total - 1, width))
  }

  /** `rt_mp_init` stays inside the region exactly when the region has room for a block. */
  lemma InitInside(size: nat, blockSize: nat)
    requires blockSize > 0
    ensures var total, width := BlockCount(size, blockSize), BlockWords(blockSize);
            (forall i :: 0 <= i <= total ==> 0 <= InitWrites(total, width)[i] < size / 4) <==> total >= 1
  {
    var total, width := BlockCount(size, blockSize), BlockWords(blockSize);
    CountFits(size, blockSize);
    if total >= 1 {
      forall i | 0 <= i <= total ensures 0 <= InitWrites(total, width)[i] < size / 4 {
        BlockInside(if i < total then i else total - 1, total, width, size / 4);
      }
    } else {
      assert InitWrites(total, width)[0] == At(-1, width) < 0;
    }
  }

  /** The headers that the loop of `rt_mp_init` has written. */
  function LinkUp(mem: seq<int>, width: nat, n: nat): (r: seq<int>)
    requires At(n, width) <= |mem| && width >= 2
    ensures |r| == |mem|
  {
    if n == 0 then mem
    else
      BlockInside(n - 1, n, width, |mem|);
      LinkUp(mem, width, n - 1)[At(n - 1, width) := At(n, width)]
  }

  function Upto(n: nat): (r: seq<nat>)
    ensures |r| == n && forall i :: 0 <= i < n ==> r[i] == i
  {
    seq(n, i => i)
  }

  /** The pool as `rt_mp_init` leaves it. */
  function Start(mem: seq<int>, width: nat, total: nat, threads: nat): State
    requires width >= 2 && total >= 1 && At(total, width) <= |mem|
  {
    BlockInside(total - 1, total, width, |mem|);
    State(width, total, LinkUp(mem, width, total)[At(total - 1, width) := NONE], 0, total,
          [], seq(threads, _ => Idle), Upto(total), {})
  }

  lemma {:induction false} LinkedUp(mem: seq<int>, width: nat, n: nat, k: nat)
    requires At(n, width) <= |mem| && width >= 2 && k < n
    ensures 0 <= At(k, width) < |mem| && LinkUp(mem, width, n)[At(k, width)] == At(k + 1, width)
  {
    hide At;
    BlockInside(k, n, width, |mem|);
    BlockInside(n - 1, n, width, |mem|);
    if k < n - 1 {
      BlocksApart(k, n - 1, width);
      LinkedUp(mem, width, n - 1, k);
    }
  }

  lemma StartInv(mem: seq<int>, width: nat, total: nat, threads: nat)
    requires width >= 2 && total >= 1 && At(total, width) <= |mem|
    ensures Inv(Start(mem, width, total, threads))
  {
    var s := Start(mem, width, total, threads);
    assert WaitingSet(s.pc) == {};
    StartChain(mem, width, total, s.mem);
    StartPartition(total);
    hide At, LinkUp, Chain, Partition;
  }

  lemma StartPartition(total: nat)
    ensures Partition(total, Upto(total), {})
  {
    hide Upto;
    var free, out: set<nat> := Upto(total), {};
    forall k: nat ensures k in out <==> k < total && k !in free {
      if k < total {
        assert free[k] == k;
      }
    }
  }

  lemma StartChain(mem: seq<int>, width: nat, total: nat, after: seq<int>)
    requires width >= 2 && total >= 1 && At(total, width) <= |mem| && 0 <= At(total - 1, width) < |mem|
    requires after == LinkUp(mem, width, total)[At(total - 1, width) := NONE]
    ensures Chain(after, 0, Upto(total), width)
  {
    FirstAt(width);
    hide At, LinkUp, Link, Upto;
    LinkUpto(total, 0, width);
    forall i: nat | i < total
      ensures 0 <= At(i, width) < |after| && after[At(i, width)] == Link(Upto(total), i + 1, width)
    {
      LinkedUp(mem, width, total, i);
      BlocksApart(i, total - 1, width);
      LinkUpto(total, i + 1, width);
    }
  }

  lemma FirstAt(width: nat)
    ensures At(0, width) == 0
  {
  }

  lemma LinkUpto(total: nat, i: nat, width: nat)
    ensures Link(Upto(total), i, width) == if i < total then At(i, width) else NONE
    ensures |Upto(total)| == total && (i < total ==> Upto(total)[i] == i)
  {
  }

  // ----- runs -----

  ghost function Run(s: State, es: seq<Event>): Option<State>
    requires Inv(s)
    decreases |es|
  {
    if es == [] then Some(s)
    else if !Enabled(s, es[0]) then None
    else StepKeeps(s, es[0]); Run(Step(s, es[0]), es[1..])
  }

  lemma {:induction false} RunKeeps(s: State, es: seq<Event>)
    requires Inv(s)
    ensures var r := Run(s, es); r.Some? ==> Inv(r.value)
    decreases |es|
  {
    hide Inv, Step;
    if es != [] && Enabled(s, es[0]) {
      StepKeeps(s, es[0]);
      RunKeeps(Step(s, es[0]), es[1..]);
    }
  }

  /**
   After any run from `rt_mp_init`, whatever was written into the blocks handed out: the free
   count is the length of the chain, every block is either on the chain, once, or handed out with
   its header naming the pool, and threads wait only while those resumed before can use up the
   free blocks.
   */
  lemma PoolPartition(mem: seq<int>, width: nat, total: nat, threads: nat, es: seq<Event>)
    requires width >= 2 && total >= 1 && At(total, width) <= |mem|
    ensures Inv(Start(mem, width, total, threads))
    ensures var r := Run(Start(mem, width, total, threads), es);
            r.Some? ==>
              var s := r.value;
              && s.freeCount == |s.free| && Distinct(s.free) && Chain(s.mem, s.list, s.free, s.width)
              && (forall k: nat :: k in s.out <==> k < s.total && k !in s.free)
              && (forall k :: k in s.out ==> 0 <= At(k, s.width) < |s.mem| && s.mem[At(k, s.width)] == POOL)
              && (s.waiters != [] ==> s.freeCount <= |WokenSet(s.pc)|)
  {
    hide Run, At, Chain, Holds, Distinct;
    StartInv(mem, width, total, threads);
    RunKeeps(Start(mem, width, total, threads), es);
  }

  /**
   A block that is handed out was not handed out before, and lies in the region apart from all others;
   only its header is written, and nobody else is affected.
   */
  lemma NoDoubleHandOut(s: State, e: Event)
    requires Inv(s) && Enabled(s, e) && (e.Alloc? || e.AllocAgain?) && s.freeCount > 0
    ensures s.free != []
    ensures var r, k := Step(s, e), s.free[0];
            && k !in s.out && r.out == s.out + {k} && r.free == s.free[1..]
            && 0 <= At(k, s.width) && At(k, s.width) + s.width <= |s.mem|
            && (forall j :: j in s.out ==>
                  At(j, s.width) + s.width <= At(k, s.width) || At(k, s.width) + s.width <= At(j, s.width))
            && r.mem == s.mem[At(k, s.width) := POOL] && r.pc == s.pc[e.t := Idle] && r.waiters == s.waiters
  {
    AllocBlocks(s);
    FirstInside(s);
    var k := s.free[0];
    hide At, Chain, Holds, Headers, Partition;
    BlockInside(k, s.total, s.width, |s.mem|);
    forall j | j in s.out
      ensures At(j, s.width) + s.width <= At(k, s.width) || At(k, s.width) + s.width <= At(j, s.width)
    {
      BlocksApart(j, k, s.width);
      BlocksApart(k, j, s.width);
    }
  }

  // ----- what a call comes to -----

  /** Without a free block a thread waits, in front of the others, or leaves everything as it was. */
  lemma AllocWaits(s: State, e: Event)
    requires Inv(s) && Enabled(s, e) && (e.Alloc? || e.AllocAgain?) && s.freeCount == 0
    ensures var r := Step(s, e);
            && r.mem == s.mem && r.out == s.out && r.free == s.free
            && (e.wait ==> r.pc == s.pc[e.t := Waiting] && r.waiters == [e.t] + s.waiters)
            && (!e.wait ==> r == s.(pc := s.pc[e.t := Idle]))
  {
    hide Blocks, Holds, WaitingSet;
  }

  /**
   A block given back is free and the next to be handed out, and the thread that waited last goes on,
   and nobody else; only the header of the block is written.
   */
  lemma FreeOutcome(s: State, k: nat)
    requires Inv(s) && Enabled(s, Free(k))
    ensures 0 <= At(k, s.width) < |s.mem|
    ensures var r := Step(s, Free(k));
            && r.out == s.out - {k} && r.free == [k] + s.free && r.list == At(k, s.width) && r.freeCount == s.freeCount + 1
            && r.mem == s.mem[At(k, s.width) := s.list]
            && if s.waiters == [] then r.pc == s.pc && r.waiters == []
               else
                 var w := s.waiters[0];
                 w < |s.pc| && s.pc[w].Waiting? && r.pc == s.pc[w := Woken] && r.waiters == s.waiters[1..]
  {
    hide At, Blocks, Holds, WaitingSet;
    FreeBlocks(s, k);
    if s.waiters != [] {
      WaitsPop(s.waiters, s.pc);
    }
  }

  /** A thread whose time is up leaves the queue, the others keeping their order; the blocks stay as they are. */
  lemma TimeoutOutcome(s: State, t: nat)
    requires Inv(s) && Enabled(s, Timeout(t))
    ensures var r := Step(s, Timeout(t));
            && r == s.(pc := s.pc[t := Idle], waiters := r.waiters) && t !in r.waiters
            && exists k: nat :: Leaves(s.waiters, r.waiters, t, k)
  {
    hide Blocks, Without, Distinct;
    HoldsWithout(s.waiters, WaitingSet(s.pc), t);
    assert t in WaitingSet(s.pc);
    var k := WithoutLeaves(s.waiters, t);
  }
}
