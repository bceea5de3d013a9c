/**
 The fixed-block memory pool of mempool.c as a state machine over the words of its region.
 A block is one header word and its payload. The header of a free block holds the address of
 the next free one, the header of an allocated block names the pool. Every event is one critical
 section, or a write of some thread into a block that it was given.
 */
module MemoryPool {
  import opened WaitQueue

  /** NULL, and the address of the pool object. Addresses are word offsets into the region. */
  const NONE: int := -1
  const POOL: int := -2

  /** The address of block `k`, with `width` words to a block. */
  function At(k: int, width: nat): int { k * width }

  datatype Pc = Idle | Waiting | Woken

  /** The region and the pool object; `free` are the blocks on the free chain, `out` those handed out. */
  datatype State = State(
    width: nat, total: nat, mem: seq<int>, list: int, freeCount: nat,
    waiters: seq<nat>, pc: seq<Pc>, free: seq<nat>, out: set<nat>)

  datatype Event =
    | Alloc(t: nat, wait: bool)
    | AllocAgain(t: nat, wait: bool)     // a resumed thread; `wait` is false when its time is up
    | Free(k: nat)
    | Write(k: nat, i: nat, v: int)      // into word `i` of block `k`
    | Timeout(t: nat)

  function Wake(s: State): State {
    if s.waiters == [] || s.waiters[0] >= |s.pc| then s
    else s.(waiters := s.waiters[1..], pc := s.pc[s.waiters[0] := Woken])
  }

  /** `rt_mp_alloc`: the first free block, or waiting; the last to wait is the first to be resumed. */
  function DoAlloc(s: State, t: nat, wait: bool): State
    requires t < |s.pc| && (s.freeCount > 0 ==> s.free != [] && 0 <= s.list < |s.mem|)
  {
    if s.freeCount == 0 then
      if wait then s.(pc := s.pc[t := Waiting], waiters := [t] + s.waiters) else s.(pc := s.pc[t := Idle])
    else
      s.(freeCount := s.freeCount - 1, list := s.mem[s.list], mem := s.mem[s.list := POOL],
         pc := s.pc[t := Idle], free := s.free[1..], out := s.out + {s.free[0]})
  }

  /** `rt_mp_free`. */
  function DoFree(s: State, k: nat): State
    requires 0 <= At(k, s.width) < |s.mem|
  {
    Wake(s.(freeCount := s.freeCount + 1, mem := s.mem[At(k, s.width) := s.list], list := At(k, s.width),
            free := [k] + s.free, out := s.out - {k}))
  }

  function DoWrite(s: State, k: nat, i: nat, v: int): State
    requires 0 <= At(k, s.width) + i < |s.mem|
  {
    s.(mem := s.mem[At(k, s.width) + i := v])
  }

  function Expire(s: State, t: nat): State
    requires t < |s.pc|
  {
    s.(pc := s.pc[t := Idle], waiters := Without(s.waiters, t))
  }

  // ----- invariants -----

  ghost function WaitingSet(pc: seq<Pc>): set<nat> { set t: nat | t < |pc| && pc[t].Waiting? }

  ghost function WokenSet(pc: seq<Pc>): set<nat> { set t: nat | t < |pc| && pc[t].Woken? }

  function Link(free: seq<nat>, i: nat, width: nat): int {
    if i < |free| then At(free[i], width) else NONE
  }

  /** The free chain in memory. */
  ghost predicate Chain(mem: seq<int>, list: int, free: seq<nat>, width: nat) {
    && list == Link(free, 0, width)
    && forall i :: 0 <= i < |free| ==> 0 <= At(free[i], width) < |mem| && mem[At(free[i], width)] == Link(free, i + 1, width)
  }

  /** Each block is free, once, or handed out. */
  ghost predicate Partition(total: nat, free: seq<nat>, out: set<nat>) {
    && Distinct(free) && (forall i :: 0 <= i < |free| ==> free[i] < total)
    && (forall k: nat :: k in out <==> k < total && k !in free)
  }

  /** The header of a block that is handed out names the pool. */
  ghost predicate Headers(mem: seq<int>, out: set<nat>, width: nat) {
    forall k :: k in out ==> 0 <= At(k, width) < |mem| && mem[At(k, width)] == POOL
  }

  ghost predicate Blocks(s: State) {
    && s.width >= 2 && At(s.total, s.width) <= |s.mem| && s.freeCount == |s.free|
    && Partition(s.total, s.free, s.out)
    && Chain(s.mem, s.list, s.free, s.width)
    && Headers(s.mem, s.out, s.width)
  }

  ghost predicate Inv(s: State) {
    && Blocks(s)
    && Holds(s.waiters, WaitingSet(s.pc))
    && (s.waiters != [] ==> s.freeCount <= |WokenSet(s.pc)|)
  }

  /** Whoever frees a block or writes to it must have been given it; the header is not part of it. */
  predicate Enabled(s: State, e: Event) {
    match e
    case Alloc(t, _) => t < |s.pc| && s.pc[t].Idle?
    case AllocAgain(t, _) => t < |s.pc| && s.pc[t].Woken?
    case Free(k) => k in s.out
    case Write(k, i, _) => k in s.out && 0 < i < s.width
    case Timeout(t) => t < |s.pc| && s.pc[t].Waiting?
  }

  lemma NextBlock(i: int, width: nat)
    ensures At(i + 1, width) == At(i, width) + width
  {
  }

  lemma {:induction false} AtMonotone(i: nat, j: nat, width: nat)
    requires i <= j
    ensures 0 <= At(i, width) <= At(j, width)
    decreases j
  {
    hide At;
    if i < j {
      AtMonotone(i, j - 1, width);
      NextBlock(j - 1, width);
    } else {
      AtPositive(i, width);
    }
  }

  lemma AtPositive(i: nat, width: nat)
    ensures 0 <= At(i, width)
  {
  }

  /** Blocks do not overlap. */
  lemma BlocksApart(i: nat, j: nat, width: nat)
    ensures i < j ==> At(i, width) + width <= At(j, width)
    ensures 0 <= At(i, width)
  {
    hide At;
    AtPositive(i, width);
    if i < j {
      NextBlock(i, width);
      AtMonotone(i + 1, j, width);
    }
  }

  lemma BlockInside(k: nat, total: nat, width: nat, words: nat)
    requires k < total && At(total, width) <= words
    ensures 0 <= At(k, width) && At(k, width) + width <= words
  {
    hide At;
    BlocksApart(k, total, width);
  }

  ghost function Step(s: State, e: Event): State
    requires Inv(s) && Enabled(s, e)
  {
    match e
    case Alloc(t, wait) => FirstInside(s); DoAlloc(s, t, wait)
    case AllocAgain(t, wait) => FirstInside(s); DoAlloc(s, t, wait)
    case Free(k) => OutBelow(s, k); BlockInside(k, s.total, s.width, |s.mem|); DoFree(s, k)
    case Write(k, i, v) => OutBelow(s, k); BlockInside(k, s.total, s.width, |s.mem|); DoWrite(s, k, i, v)
    case Timeout(t) => Expire(s, t)
  }

  lemma FirstInside(s: State)
    requires Inv(s)
    ensures s.freeCount > 0 ==> s.free != [] && s.list == At(s.free[0], s.width) && 0 <= s.list < |s.mem|
  {
    hide At, Holds, Partition, Headers;
  }

  lemma OutBelow(s: State, k: nat)
    requires Blocks(s) && k in s.out
    ensures k < s.total
  {
    hide At, Chain, Headers;
  }
}
