/** The message queue object: slots linked by `next`, and the code of each critical section. */
module MessageQueueObject {
  import opened WaitQueue
  import opened MessageQueue
  import opened MessageQueueSafety
  import opened MessageQueueRuns

  /** NULL. */
  const NONE: int := -1

  function Slot(c: seq<nat>, i: nat): int {
    if i < |c| then c[i] else NONE
  }

  function Last(c: seq<nat>): int {
    if c == [] then NONE else c[|c| - 1]
  }

  /** The links from `start` run through exactly the slots `c`. */
  ghost predicate Chain(next: seq<int>, start: int, c: seq<nat>) {
    start == Slot(c, 0) && forall i :: 0 <= i < |c| ==> c[i] < |next| && next[c[i]] == Slot(c, i + 1)
  }

  lemma ChainOther(next: seq<int>, start: int, c: seq<nat>, k: nat, v: int)
    requires Chain(next, start, c) && k < |next| && forall i :: 0 <= i < |c| ==> c[i] != k
    ensures Chain(next[k := v], start, c)
  {
  }

  lemma ChainFirst(next: seq<int>, start: int, c: seq<nat>)
    requires Chain(next, start, c) && c != []
    ensures start == c[0] < |next| && Chain(next, next[c[0]], c[1..])
  {
  }

  lemma ChainFront(next: seq<int>, start: int, c: seq<nat>, k: nat)
    requires Chain(next, start, c) && k < |next| && forall i :: 0 <= i < |c| ==> c[i] != k
    ensures Chain(next[k := start], k, [k] + c)
  {
    ChainOther(next, start, c, k, start);
  }

  lemma ChainBack(next: seq<int>, start: int, c: seq<nat>, k: nat)
    requires Chain(next, start, c) && Distinct(c) && k < |next| && next[k] == NONE
    requires forall i :: 0 <= i < |c| ==> c[i] != k
    ensures c == [] ==> Chain(next, k, [k])
    ensures c != [] ==> Last(c) >= 0 && Last(c) < |next| && Chain(next[Last(c) := k], start, c + [k])
  {
  }

  /** What the invariants say about the slot in a thread's hands. */
  lemma HandApart(s: State, t: nat)
    requires Inv(s) && t < |s.pc| && Hand(s.pc[t]) >= 0
    ensures Hand(s.pc[t]) < s.max && Distinct(s.free) && Distinct(s.queue)
    ensures forall i :: 0 <= i < |s.free| ==> s.free[i] != Hand(s.pc[t])
    ensures forall i :: 0 <= i < |s.queue| ==> s.queue[i] != Hand(s.pc[t])
    ensures forall u :: 0 <= u < |s.pc| && u != t ==> Hand(s.pc[u]) != Hand(s.pc[t])
    ensures Elsewhere(s.queue, s.free, s.pc[t := Idle], Hand(s.pc[t]))
    ensures |s.payload| == s.max && |s.payload[Hand(s.pc[t])]| == s.size && HandOk(s.pc[t], s.size, s.payload)
  {
    hide Waits, Wakes, Holders;
  }

  /** A slot about to be linked at the back ends its chain. */
  ghost predicate Ends(pc: seq<Pc>, next: seq<int>) {
    forall t :: 0 <= t < |pc| && pc[t].Filled? && !pc[t].urgent ==>
      pc[t].slot < |next| && next[pc[t].slot] == NONE
  }

  lemma EndsOther(pc: seq<Pc>, next: seq<int>, k: nat, v: int)
    requires Ends(pc, next) && k < |next| && forall t :: 0 <= t < |pc| && pc[t].Filled? ==> pc[t].slot != k
    ensures Ends(pc, next[k := v])
  {
  }

  lemma EndsStay(pc: seq<Pc>, next: seq<int>, t: nat, p: Pc)
    requires Ends(pc, next) && t < |pc|
    requires p.Filled? && !p.urgent ==> p.slot < |next| && next[p.slot] == NONE
    ensures Ends(pc[t := p], next)
  {
  }

  class Queue {
    const max: nat
    const size: nat
    const flag: Flag
    const next: array<int>
    const data: array<string>
    var head: int
    var tail: int
    var free: int
    var entry: nat
    var receivers: seq<nat>
    var senders: seq<nat>

    /** The queue together with where its threads stand. */
    ghost var s: State

    ghost predicate Linked()
      reads this, next, data
    {
      Placed() && entry == s.entry
    }

    ghost predicate Placed()
      reads this, next, data
    {
      && s.max == max && s.size == size && s.flag == flag && next.Length == max && data.Length == max
      && Chain(next[..], free, s.free) && Chain(next[..], head, s.queue) && tail == Last(s.queue)
      && data[..] == s.payload && receivers == s.receivers && senders == s.senders
      && Ends(s.pc, next[..])
    }

    ghost predicate Valid()
      reads this, next, data
    {
      Inv(s) && Linked()
    }

    /** `rt_mq_init`. */
    constructor (max: nat, size: nat, flag: Flag, pool: seq<string>, ghost priority: seq<nat>)
      requires Fresh(max, size, pool)
      ensures Valid() && fresh(next) && fresh(data) && s == Start(max, size, flag, pool, priority)
    {
      this.max, this.size, this.flag := max, size, flag;
      next := new int[max](_ => 0);
      data := new string[max](i requires 0 <= i < max => pool[i]);
      head, tail, entry, receivers, senders := NONE, NONE, 0, [], [];
      free := NONE;
      s := Start(max, size, flag, pool, priority);
      new;
      assert data[..] == pool;
      StartInv(max, size, flag, pool, priority);
      hide Inv, Countdown;
      ChainAll();
    }

    /** The loop of `rt_mq_init`. */
    method ChainAll()
      requires free == NONE && next.Length == max
      modifies this`free, next
      ensures Chain(next[..], free, Countdown(max))
    {
      var temp := 0;
      while temp < max
        invariant 0 <= temp <= max
        invariant Chain(next[..], free, Countdown(temp))
      {
        ghost var was := next[..];
        ChainFront(was, free, Countdown(temp), temp);
        next[temp] := free;
        assert next[..] == was[temp := free];
        free := temp;
        temp := temp + 1;
      }
    }

    /** The first critical section of `rt_mq_send_wait` and `rt_mq_urgent`, also after a wake-up. */
    method TakeFree(t: nat, ghost m: string, ghost urgent: bool, wait: bool, priority: seq<nat>) returns (slot: int)
      requires Valid() && t < |s.pc| && |m| <= size && priority == s.priority
      requires s.pc[t].Idle? || s.pc[t].WokenSend?
      modifies this
      ensures Valid() && s == TakeSlot(old(s), t, m, urgent, wait)
      ensures slot == Slot(old(s.free), 0)
    {
      hide Inv;
      TakeSlotKeeps(s, t, m, urgent, wait);
      PriorityCount(s);
      EndsStay(s.pc, next[..], t, TakeSlot(s, t, m, urgent, wait).pc[t]);
      slot := free;
      if slot == NONE {
        if wait {
          senders := Join(senders, t, priority, flag);
        }
      } else {
        ChainFirst(next[..], free, s.free);
        free := next[slot];
      }
      s := TakeSlot(s, t, m, urgent, wait);
    }

    /** Outside the critical sections: `rt_mq_send_wait` clears the link and copies the message. */
    method Fill(t: nat, slot: nat, m: string, urgent: bool)
      requires Valid() && t < |s.pc| && s.pc[t] == Hold(slot, m, urgent)
      requires slot < |s.payload| && |m| <= |s.payload[slot]|
      modifies this`s, next, data
      ensures Valid() && s == FillSlot(old(s), t)
    {
      hide Inv;
      FillKeeps(s, t);
      HandApart(s, t);
      if !urgent {
        ChainOther(next[..], free, s.free, slot, NONE);
        ChainOther(next[..], head, s.queue, slot, NONE);
        EndsOther(s.pc, next[..], slot, NONE);
        next[slot] := NONE;
      }
      EndsStay(s.pc, next[..], t, Filled(slot, m, urgent));
      data[slot] := m + data[slot][|m|..];
      s := FillSlot(s, t);
    }

    /** `rt_ipc_list_resume` on the receivers. */
    method WakeOne()
      requires Linked() && Inv(WakeReceiver(s)) && Waits(s.receivers, s.senders, s.pc)
      modifies this`receivers, this`s
      ensures Valid() && s == WakeReceiver(old(s))
    {
      hide Inv, Waits;
      if receivers != [] {
        WaitsWakeReceiver(s.receivers, s.senders, s.pc);
        EndsStay(s.pc, next[..], receivers[0], WokenRecv);
        receivers := receivers[1..];
      }
      s := WakeReceiver(s);
    }

    /** The links of a queue that gets a new tail. */
    method LinkTail(slot: nat, ghost queue: seq<nat>, ghost chain: seq<nat>, ghost pc: seq<Pc>)
      requires Chain(next[..], head, queue) && tail == Last(queue) && Distinct(queue) && Chain(next[..], free, chain)
      requires slot < next.Length && next[slot] == NONE && Ends(pc, next[..])
      requires forall i :: 0 <= i < |queue| ==> queue[i] != slot
      requires queue != [] ==> Elsewhere(chain, [], pc, Last(queue))
      modifies this`head, this`tail, next
      ensures Chain(next[..], head, queue + [slot]) && tail == slot && Chain(next[..], free, chain) && Ends(pc, next[..])
    {
      ghost var was := next[..];
      ChainBack(was, head, queue, slot);
      if tail != NONE {
        ChainOther(was, free, chain, tail, slot);
        LastNotFilled(queue, chain, pc);
        EndsOther(pc, was, tail, slot);
        next[tail] := slot;
        assert next[..] == was[tail := slot];
      }
      tail := slot;
      if head == NONE {
        head := slot;
      }
    }

    /** The links of a queue that gets a new head. */
    method LinkHead(slot: nat, ghost queue: seq<nat>, ghost chain: seq<nat>, ghost pc: seq<Pc>)
      requires Chain(next[..], head, queue) && tail == Last(queue) && Chain(next[..], free, chain)
      requires slot < next.Length && Ends(pc, next[..]) && Elsewhere(queue, chain, pc, slot)
      modifies this`head, this`tail, next
      ensures Chain(next[..], head, [slot] + queue) && tail == Last([slot] + queue)
      ensures Chain(next[..], free, chain) && Ends(pc, next[..])
    {
      ghost var was := next[..];
      ChainFront(was, head, queue, slot);
      ChainOther(was, free, chain, slot, head);
      NotFilled(queue, chain, pc, slot);
      EndsOther(pc, was, slot, head);
      next[slot] := head;
      assert next[..] == was[slot := head];
      head := slot;
      if tail == NONE {
        tail := slot;
      }
    }

    /** The end of `rt_mq_send_wait` and `rt_mq_urgent`: counting the message and waking a receiver. */
    method Count() returns (full: bool)
      requires Placed() && entry == s.entry < ENTRY_MAX && |s.queue| == s.entry + 1
      requires Waits(s.receivers, s.senders, s.pc) && Inv(WakeReceiver(s.(entry := s.entry + 1)))
      modifies this`entry, this`receivers, this`s
      ensures Valid() && !full && s == WakeReceiver(old(s).(entry := old(s.entry) + 1))
    {
      hide Inv, Waits, Chain, Ends, Last;
      if entry < ENTRY_MAX {
        entry := entry + 1;
        s := s.(entry := s.entry + 1);
        WakeOne();
        full := false;
      } else {
        full := true;
      }
    }

    /** The second critical section of `rt_mq_send_wait`: the slot becomes the tail. */
    method Link(t: nat, slot: nat, ghost m: string) returns (full: bool)
      requires Valid() && t < |s.pc| && s.pc[t] == Filled(slot, m, false)
      modifies this, next
      ensures Valid() && s == LinkSlot(old(s), t) && !full
    {
      hide Inv, WakeReceiver, Chain, Waits;
      LinkKeeps(s, t);
      RoomToLink(s, t);
      HandApart(s, t);
      MaxBound(s);
      LinkWaits(s, t);
      EndsStay(s.pc, next[..], t, Idle);
      if s.queue != [] {
        LastOther(s, t);
      }
      LinkTail(slot, s.queue, s.free, s.pc[t := Idle]);
      s := s.(queue := s.queue + [slot], messages := s.messages + [m], pc := s.pc[t := Idle]);
      full := Count();
    }

    /** The second critical section of `rt_mq_urgent`: the slot becomes the head. */
    method LinkFront(t: nat, slot: nat, ghost m: string) returns (full: bool)
      requires Valid() && t < |s.pc| && s.pc[t] == Filled(slot, m, true)
      modifies this, next
      ensures Valid() && s == LinkSlot(old(s), t) && !full
    {
      hide Inv, WakeReceiver, Chain, Waits;
      LinkKeeps(s, t);
      RoomToLink(s, t);
      HandApart(s, t);
      MaxBound(s);
      LinkWaits(s, t);
      EndsStay(s.pc, next[..], t, Idle);
      LinkHead(slot, s.queue, s.free, s.pc[t := Idle]);
      s := s.(queue := [slot] + s.queue, messages := [m] + s.messages, pc := s.pc[t := Idle]);
      full := Count();
    }

    /** The first critical section of `rt_mq_recv`, also after a wake-up. */
    method Unlink(t: nat, wait: bool, priority: seq<nat>) returns (slot: int)
      requires Valid() && t < |s.pc| == |s.priority| && priority == s.priority
      requires s.pc[t].Idle? || s.pc[t].WokenRecv?
      requires s.entry > 0 ==> s.queue != [] && s.messages != []
      modifies this
      ensures Valid() && s == TakeMessage(old(s), t, wait)
      ensures slot == if old(s.entry) > 0 then Slot(old(s.queue), 0) else NONE
    {
      hide Inv;
      TakeMessageKeeps(s, t, wait);
      EndsStay(s.pc, next[..], t, TakeMessage(s, t, wait).pc[t]);
      if entry == 0 {
        slot := NONE;
        if wait {
          receivers := Join(receivers, t, priority, flag);
        }
      } else {
        QueueDistinct(s);
        ChainFirst(next[..], head, s.queue);
        slot := head;
        head := next[slot];
        if tail == slot {
          tail := NONE;
        }
        entry := entry - 1;
      }
      s := TakeMessage(s, t, wait);
    }

    /** Outside the critical sections: `rt_mq_recv` copies at most a message's size. */
    method CopyMessage(t: nat, slot: nat, room: nat, ghost m: string) returns (got: string)
      requires Valid() && t < |s.pc| && s.pc[t] == Taken(slot, m) && slot < |s.payload|
      modifies this`s
      ensures Valid() && s == CopyOut(old(s), t, room) && s.pc[t] == Copied(slot, m, room, got)
    {
      hide Inv;
      CopyKeeps(s, t, room);
      HandApart(s, t);
      EndsStay(s.pc, next[..], t, CopyOut(s, t, room).pc[t]);
      got := data[slot][..if room > size then size else room];
      s := CopyOut(s, t, room);
    }

    /** The links of a free chain that gets a slot back. */
    method LinkFree(slot: nat, ghost queue: seq<nat>, ghost chain: seq<nat>, ghost pc: seq<Pc>)
      requires Chain(next[..], head, queue) && Chain(next[..], free, chain)
      requires slot < next.Length && Ends(pc, next[..]) && Elsewhere(queue, chain, pc, slot)
      modifies this`free, next
      ensures Chain(next[..], free, [slot] + chain) && Chain(next[..], head, queue) && Ends(pc, next[..])
    {
      ghost var was := next[..];
      ChainFront(was, free, chain, slot);
      ChainOther(was, head, queue, slot, free);
      NotFilled(queue, chain, pc, slot);
      EndsOther(pc, was, slot, free);
      next[slot] := free;
      assert next[..] == was[slot := free];
      free := slot;
    }

    /** `rt_ipc_list_resume` on the senders. */
    method WakeOneSender()
      requires Linked() && Inv(WakeSender(s)) && Waits(s.receivers, s.senders, s.pc)
      modifies this`senders, this`s
      ensures Valid() && s == WakeSender(old(s))
    {
      hide Inv, Waits;
      if senders != [] {
        WaitsWakeSender(s.receivers, s.senders, s.pc);
        EndsStay(s.pc, next[..], senders[0], WokenSend(s.pc[senders[0]].m));
        senders := senders[1..];
      }
      s := WakeSender(s);
    }

    /** The second critical section of `rt_mq_recv`: the slot is free again, a sender may go on. */
    method GiveBack(t: nat, slot: nat)
      requires Valid() && t < |s.pc| && s.pc[t].Copied? && s.pc[t].slot == slot
      modifies this, next
      ensures Valid() && s == ReleaseSlot(old(s), t)
    {
      hide Inv, Waits, Chain, WakeSender;
      ReleaseKeeps(s, t);
      HandApart(s, t);
      ReleaseWaits(s, t);
      EndsStay(s.pc, next[..], t, Idle);
      LinkFree(slot, s.queue, s.free, s.pc[t := Idle]);
      s := s.(free := [slot] + s.free, pc := s.pc[t := Idle]);
      WakeOneSender();
    }

    /** The loop that gives all linked slots back. */
    method FreeAll(ghost queue: seq<nat>, ghost chain: seq<nat>, ghost pc: seq<Pc>)
      requires Chain(next[..], head, queue) && tail == Last(queue) && Chain(next[..], free, chain)
      requires Separate(queue, chain, pc) && Ends(pc, next[..])
      modifies this`head, this`tail, this`free, next
      ensures head == tail == NONE && Chain(next[..], free, Reverse(queue) + chain) && Ends(pc, next[..])
    {
      hide Separate, Ends, Reverse;
      ghost var left, out := queue, chain;
      while head != NONE
        invariant Chain(next[..], head, left) && Chain(next[..], free, out) && tail == Last(left)
        invariant Separate(left, out, pc) && Ends(pc, next[..])
        invariant Reverse(left) + out == Reverse(queue) + chain
        decreases |left|
      {
        FreeFirst(left, out, pc);
        ReverseFirst(left, out);
        FirstApart(left, out, pc);
        left, out := left[1..], [left[0]] + out;
      }
      NothingLeft(left, out);
    }

    method FreeFirst(ghost left: seq<nat>, ghost out: seq<nat>, ghost pc: seq<Pc>)
      requires Chain(next[..], head, left) && Chain(next[..], free, out) && tail == Last(left) && head != NONE
      requires Separate(left, out, pc) && Ends(pc, next[..])
      modifies this`head, this`tail, this`free, next
      ensures left != [] && Chain(next[..], head, left[1..]) && Chain(next[..], free, [left[0]] + out)
      ensures tail == Last(left[1..]) && Ends(pc, next[..])
    {
      ghost var was := next[..];
      var slot := head;
      ChainFirst(was, head, left);
      head := next[slot];
      if tail == slot {
        tail := NONE;
      }
      assert forall i :: 0 <= i < |left[1..]| ==> left[1..][i] == left[i + 1];
      ChainOther(was, head, left[1..], slot, free);
      ChainFront(was, free, out, slot);
      FilledNot(pc, left, out, slot);
      EndsOther(pc, was, slot, free);
      next[slot] := free;
      assert next[..] == was[slot := free];
      free := slot;
    }

    /** `RT_IPC_CMD_RESET`. */
    method Reset()
      requires Valid()
      modifies this, next
      ensures Valid() && s == Clean(old(s))
    {
      hide Inv, Reverse, Chain;
      CleanKeeps(s);
      ResetApart(s);
      CleanEnds(s, next[..]);
      receivers, senders := [], [];
      FreeAll(s.queue, s.free, Clean(s).pc);
      entry := 0;
      EmptyChain(next[..]);
      s := Clean(s);
    }
  }

  // ----- what the methods need of the invariants -----

  lemma PriorityCount(s: State)
    requires Inv(s)
    ensures |s.priority| == |s.pc|
  {
    hide Slots, Waits, Wakes, Blocks;
  }

  lemma MaxBound(s: State)
    requires Inv(s)
    ensures s.max <= ENTRY_MAX && s.entry == |s.queue|
  {
    hide Slots, Waits, Wakes, Blocks;
  }

  lemma LinkWaits(s: State, t: nat)
    requires Inv(s) && t < |s.pc| && s.pc[t].Filled?
    ensures Waits(s.receivers, s.senders, s.pc[t := Idle])
  {
    hide Slots, Wakes, Blocks, Waits;
    WaitsStay(s.receivers, s.senders, s.pc, t, Idle);
  }

  lemma ReleaseWaits(s: State, t: nat)
    requires Inv(s) && t < |s.pc| && s.pc[t].Copied?
    ensures Waits(s.receivers, s.senders, s.pc[t := Idle])
  {
    hide Slots, Wakes, Blocks, Waits;
    WaitsStay(s.receivers, s.senders, s.pc, t, Idle);
  }

  lemma QueueDistinct(s: State)
    requires Inv(s)
    ensures Distinct(s.queue)
  {
    hide Wakes, Blocks, Waits;
  }

  /** The tail is in nobody's hands and not free. */
  lemma LastOther(s: State, t: nat)
    requires Inv(s) && s.queue != [] && t < |s.pc|
    ensures 0 <= Last(s.queue) < s.max && Elsewhere(s.free, [], s.pc[t := Idle], Last(s.queue))
  {
    hide Wakes, Blocks, Waits;
  }

  lemma LastNotFilled(queue: seq<nat>, chain: seq<nat>, pc: seq<Pc>)
    requires queue != [] && Elsewhere(chain, [], pc, Last(queue))
    ensures forall t :: 0 <= t < |pc| && pc[t].Filled? ==> pc[t].slot != Last(queue)
  {
    NotFilled(chain, [], pc, Last(queue));
  }

  lemma NotFilled(a: seq<nat>, b: seq<nat>, pc: seq<Pc>, k: nat)
    requires Elsewhere(a, b, pc, k)
    ensures forall t :: 0 <= t < |pc| && pc[t].Filled? ==> pc[t].slot != k
  {
    forall t | 0 <= t < |pc| && pc[t].Filled? ensures pc[t].slot != k {
      assert Hand(pc[t]) == pc[t].slot;
    }
  }

  lemma FilledNot(pc: seq<Pc>, left: seq<nat>, out: seq<nat>, k: nat)
    requires left != [] && k == left[0] && Separate(left, out, pc)
    ensures forall t :: 0 <= t < |pc| && pc[t].Filled? ==> pc[t].slot != k
  {
    forall t | 0 <= t < |pc| && pc[t].Filled? ensures pc[t].slot != k {
      assert Hand(pc[t]) == pc[t].slot;
    }
  }

  lemma ReverseFirst(left: seq<nat>, out: seq<nat>)
    requires left != []
    ensures Reverse(left) + out == Reverse(left[1..]) + ([left[0]] + out)
  {
  }

  /** The slots still to be given back are free nowhere and in nobody's hands. */
  ghost predicate Separate(left: seq<nat>, out: seq<nat>, pc: seq<Pc>) {
    && Distinct(left)
    && (forall i, j :: 0 <= i < |left| && 0 <= j < |out| ==> left[i] != out[j])
    && (forall i, u :: 0 <= i < |left| && 0 <= u < |pc| ==> left[i] != Hand(pc[u]))
  }

  lemma NothingLeft(left: seq<nat>, out: seq<nat>)
    ensures left == [] ==> Reverse(left) + out == out
  {
  }

  lemma FirstApart(left: seq<nat>, out: seq<nat>, pc: seq<Pc>)
    requires left != [] && Separate(left, out, pc)
    ensures Separate(left[1..], [left[0]] + out, pc)
  {
  }

  lemma CleanEnds(s: State, next: seq<int>)
    requires Ends(s.pc, next)
    ensures Ends(Clean(s).pc, next)
  {
    hide Reverse;
  }

  lemma EmptyChain(next: seq<int>)
    ensures Chain(next, NONE, [])
  {
  }

  lemma ResetApart(s: State)
    requires Inv(s)
    ensures Separate(s.queue, s.free, Clean(s).pc)
  {
    hide Wakes, Blocks, Waits;
  }
}
