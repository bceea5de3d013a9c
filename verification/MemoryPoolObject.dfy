/** The pool object over its region, and the code of its critical sections. */
module MemoryPoolObject {
  import opened WaitQueue
  import opened MemoryPool
  import opened MemoryPoolRuns

  class Pool {
    const region: array<int>
    const width: nat
    const total: nat
    var list: int
    var freeCount: nat
    var waiters: seq<nat>

    /** The pool together with its threads and what it handed out. */
    ghost var s: State

    ghost predicate Linked()
      reads this, region
    {
      && s.mem == region[..] && s.width == width && s.total == total && s.list == list
      && s.freeCount == freeCount && s.waiters == waiters
    }

    ghost predicate Valid()
      reads this, region
    {
      Inv(s) && Linked()
    }

    /** `rt_mp_init` on a region with room for a block. */
    constructor (region: array<int>, size: nat, blockSize: nat, ghost threads: nat)
      requires blockSize > 0 && region.Length == size / 4 && BlockCount(size, blockSize) >= 1
      modifies region
      ensures Valid() && this.region == region
      ensures width == BlockWords(blockSize) >= 2 && total == BlockCount(size, blockSize)
      ensures At(total, width) <= region.Length && s == Start(old(region[..]), width, total, threads)
    {
      hide At, Inv, LinkUp, BlockCount, BlockWords, Upto;
      var words, count := Layout(size, blockSize);
      this.region, width, total := region, words, count;
      list, freeCount, waiters := 0, count, [];
      s := Start(region[..], words, count, threads);
      new;
      StartInv(region[..], width, total, threads);
      ChainUp(region, width, total);
    }

    /** `rt_mp_alloc`, from taking the lock to giving it back; `block` is the address behind the header. */
    method Alloc(t: nat, wait: bool) returns (block: int)
      requires Valid() && t < |s.pc| && (s.pc[t].Idle? || s.pc[t].Woken?)
      modifies this, region
      ensures Valid() && old(s.freeCount > 0 ==> s.free != [] && 0 <= s.list < |s.mem|)
      ensures s == DoAlloc(old(s), t, wait)
      ensures old(freeCount) == 0 ==> block == NONE
      ensures old(freeCount) > 0 ==> old(s.free) != [] && block == At(old(s.free[0]), width) + 1
    {
      FirstInside(s);
      AllocKeeps(s, t, wait);
      hide Inv, At;
      ghost var after := DoAlloc(s, t, wait);
      block := NONE;
      if freeCount == 0 {
        if wait {
          waiters := [t] + waiters;
        }
      } else {
        freeCount := freeCount - 1;
        var header := list;
        list := region[header];
        region[header] := POOL;
        block := header + 1;
      }
      s := after;
    }

    /** `rt_mp_free` of a block that was handed out, or of NULL. */
    method Free(block: int, ghost k: nat)
      requires Valid() && (block == NONE || (k in s.out && block == At(k, width) + 1))
      modifies this, region
      ensures Valid()
      ensures block == NONE ==> s == old(s)
      ensures block != NONE ==> 0 <= At(k, old(s).width) < |old(s).mem| && s == DoFree(old(s), k)
    {
      if block == NONE {
        return;
      }
      hide Inv, At, Blocks;
      HeaderNames(s, k);
      FreeKeeps(s, k);
      ghost var after := DoFree(s, k);
      var header := block - 1;
      assert region[header] == POOL;
      freeCount := freeCount + 1;
      region[header] := list;
      list := header;
      if waiters != [] {
        WakesFirst(s);
        waiters := waiters[1..];
      }
      s := after;
    }
  }

  /** Aligning the sizes and counting the blocks, as `rt_mp_init` does, in words. */
  method Layout(size: nat, blockSize: nat) returns (words: nat, count: nat)
    requires blockSize > 0
    ensures words == BlockWords(blockSize) >= 2 && count == BlockCount(size, blockSize)
    ensures At(count, words) <= size / 4
  {
    hide At, Align, AlignDown;
    CountFits(size, blockSize);
    var aligned := Align(blockSize);
    count := AlignDown(size) / (aligned + 4);
    words := aligned / 4 + 1;
  }

  /** The loop of `rt_mp_init`, and the write behind it. */
  method ChainUp(region: array<int>, width: nat, total: nat)
    requires width >= 2 && total >= 1 && At(total, width) <= region.Length
    modifies region
    ensures 0 <= At(total - 1, width) < region.Length
    ensures region[..] == LinkUp(old(region[..]), width, total)[At(total - 1, width) := NONE]
  {
    hide At;
    var offset := 0;
    AtMonotone(0, total, width);
    while offset < total
      invariant 0 <= offset <= total && At(offset, width) <= region.Length
      invariant region[..] == LinkUp(old(region[..]), width, offset)
    {
      BlockInside(offset, total, width, region.Length);
      AtMonotone(offset + 1, total, width);
      region[At(offset, width)] := At(offset + 1, width);
      offset := offset + 1;
    }
    BlockInside(offset - 1, total, width, region.Length);
    region[At(offset - 1, width)] := NONE;
  }

  lemma HeaderNames(s: State, k: nat)
    requires Inv(s) && k in s.out
    ensures 0 <= At(k, s.width) < |s.mem| && s.mem[At(k, s.width)] == POOL
  {
    hide At, Chain, Holds, Partition;
  }

  lemma WakesFirst(s: State)
    requires Inv(s) && s.waiters != []
    ensures s.waiters[0] < |s.pc|
  {
    hide At, Blocks;
    WaitsPop(s.waiters, s.pc);
  }
}
