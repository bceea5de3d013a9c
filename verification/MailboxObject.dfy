/** The mailbox object, and the code of its critical sections. */
module MailboxObject {
  import opened WaitQueue
  import opened Mailbox
  import opened MailboxRuns

  class Box {
    const size: nat
    const flag: Flag
    const pool: array<int>
    var entry: nat
    var inOffset: nat
    var outOffset: nat
    var receivers: seq<nat>
    var senders: seq<nat>

    /** The mailbox together with where its threads stand. */
    ghost var s: State

    ghost predicate Linked()
      reads this, pool
    {
      && pool.Length == size && s.size == size && s.flag == flag && s.pool == pool[..] && s.entry == entry
      && s.inOffset == inOffset && s.outOffset == outOffset && s.receivers == receivers && s.senders == senders
    }

    ghost predicate Valid()
      reads this, pool
    {
      Inv(s) && Linked()
    }

    /** `rt_mb_init`. */
    constructor (flag: Flag, msgpool: array<int>, ghost priority: seq<nat>)
      requires msgpool.Length <= ENTRY_MAX
      ensures Valid() && pool == msgpool && s == Start(flag, msgpool[..], priority)
    {
      size, this.flag, pool := msgpool.Length, flag, msgpool;
      entry, inOffset, outOffset, receivers, senders := 0, 0, 0, [], [];
      s := Start(flag, msgpool[..], priority);
      new;
      StartInv(flag, msgpool[..], priority);
    }

    /** `rt_mb_send_wait`, from taking the lock to giving it back. */
    method Send(t: nat, v: int, wait: bool, priority: seq<nat>) returns (full: bool)
      requires Valid() && t < |s.pc| && priority == s.priority && (s.pc[t].Idle? || s.pc[t].WokenSend?)
      modifies this, pool
      ensures Valid() && s.size == old(s.size)
      ensures old(s.entry) != old(s.size) ==> old(s.inOffset) < |old(s.pool)|
      ensures s == Put(old(s), t, v, wait)
      ensures full <==> old(entry) == size
    {
      hide Inv, Waits;
      RingFacts(s);
      PutKeeps(s, t, v, wait);
      ghost var after := Put(s, t, v, wait);
      full := entry == size;
      if full {
        if wait {
          senders := Join(senders, t, priority, flag);
        }
      } else {
        pool[inOffset] := v;
        inOffset := inOffset + 1;
        if inOffset >= size {
          inOffset := 0;
        }
        if entry < ENTRY_MAX {
          entry := entry + 1;
          StoreWaits(s, t);
          if receivers != [] {
            WaitsWakeReceiver(s.receivers, s.senders, s.pc[t := Idle]);
            receivers := receivers[1..];
          }
        }
      }
      s := after;
    }

    /** `rt_mb_recv`, from taking the lock to giving it back. */
    method Recv(t: nat, wait: bool, priority: seq<nat>) returns (empty: bool, v: int)
      requires Valid() && t < |s.pc| && priority == s.priority && (s.pc[t].Idle? || s.pc[t].WokenRecv?)
      modifies this
      ensures Valid() && s.size == old(s.size)
      ensures old(s.entry) > 0 ==> old(s.outOffset) < |old(s.pool)|
      ensures s == Get(old(s), t, wait)
      ensures empty <==> old(entry) == 0
      ensures !empty ==> s.received == old(s.received) + [v]
    {
      hide Inv, Waits;
      RingFacts(s);
      GetKeeps(s, t, wait);
      ghost var after := Get(s, t, wait);
      empty, v := entry == 0, 0;
      if empty {
        if wait {
          receivers := Join(receivers, t, priority, flag);
        }
      } else {
        v := pool[outOffset];
        outOffset := outOffset + 1;
        if outOffset >= size {
          outOffset := 0;
        }
        if entry > 0 {
          entry := entry - 1;
        }
        StoreWaits(s, t);
        if senders != [] {
          WaitsWakeSender(s.receivers, s.senders, s.pc[t := Idle]);
          senders := senders[1..];
        }
      }
      s := after;
    }

    /** `RT_IPC_CMD_RESET`. */
    method Reset()
      requires Valid()
      modifies this
      ensures Valid() && s == Clean(old(s))
    {
      CleanKeeps(s);
      receivers, senders := [], [];
      entry, inOffset, outOffset := 0, 0, 0;
      s := Clean(s);
    }
  }

  lemma RingFacts(s: State)
    requires Inv(s)
    ensures |s.priority| == |s.pc| && |s.pool| == s.size <= ENTRY_MAX && s.entry <= s.size
    ensures s.entry < s.size ==> s.inOffset < s.size
    ensures s.entry > 0 ==> s.outOffset < s.size
  {
    hide Contents, Waits, Wakes;
  }

  lemma StoreWaits(s: State, t: nat)
    requires Inv(s) && t < |s.pc| && !s.pc[t].WaitRecv? && !s.pc[t].WaitSend?
    ensures Waits(s.receivers, s.senders, s.pc[t := Idle])
  {
    hide Waits, Contents, Wakes;
    WaitsStay(s.receivers, s.senders, s.pc, t, Idle);
  }
}
