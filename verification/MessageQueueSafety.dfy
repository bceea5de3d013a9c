/** Every event of the message queue keeps the invariants, from any state and for any interleaving. */
module MessageQueueSafety {
  import opened WaitQueue
  import opened MessageQueue

  // ----- sets of threads -----

  lemma SetsUpdate(pc: seq<Pc>, t: nat, p: Pc)
    requires t < |pc|
    ensures Holders(pc[t := p]) == if Hand(p) >= 0 then Holders(pc) + {t} else Holders(pc) - {t}
    ensures Receiving(pc[t := p]) == if p.WaitRecv? then Receiving(pc) + {t} else Receiving(pc) - {t}
    ensures Sending(pc[t := p]) == if p.WaitSend? then Sending(pc) + {t} else Sending(pc) - {t}
    ensures WokenReceivers(pc[t := p]) == if p.WokenRecv? then WokenReceivers(pc) + {t} else WokenReceivers(pc) - {t}
    ensures WokenSenders(pc[t := p]) == if p.WokenSend? then WokenSenders(pc) + {t} else WokenSenders(pc) - {t}
    ensures t in Holders(pc) <==> Hand(pc[t]) >= 0
    ensures t in Receiving(pc) <==> pc[t].WaitRecv?
    ensures t in Sending(pc) <==> pc[t].WaitSend?
    ensures t in WokenReceivers(pc) <==> pc[t].WokenRecv?
    ensures t in WokenSenders(pc) <==> pc[t].WokenSend?
  {
  }

  /** How a step of one thread changes the numbers of woken threads. */
  lemma WokenCounts(pc: seq<Pc>, t: nat, p: Pc)
    requires t < |pc|
    ensures |WokenReceivers(pc[t := p])| ==
            |WokenReceivers(pc)| + (if p.WokenRecv? then 1 else 0) - (if pc[t].WokenRecv? then 1 else 0)
    ensures |WokenSenders(pc[t := p])| ==
            |WokenSenders(pc)| + (if p.WokenSend? then 1 else 0) - (if pc[t].WokenSend? then 1 else 0)
  {
    hide WokenReceivers, WokenSenders;
    SetsUpdate(pc, t, p);
    Toggle(WokenReceivers(pc), t);
    Toggle(WokenSenders(pc), t);
  }

  // ----- slots -----

  lemma SlotsSwap(max: nat, a: seq<nat>, b: seq<nat>, pc: seq<Pc>)
    requires Slots(max, a, b, pc)
    ensures Slots(max, b, a, pc)
  {
  }

  lemma HolderCount(pc: seq<Pc>, t: nat, p: Pc)
    requires t < |pc|
    ensures |Holders(pc[t := p])| == |Holders(pc)| + (if Hand(p) >= 0 then 1 else 0) - (if Hand(pc[t]) >= 0 then 1 else 0)
  {
    hide Holders;
    SetsUpdate(pc, t, p);
    Toggle(Holders(pc), t);
  }

  lemma SlotsStay(max: nat, free: seq<nat>, queue: seq<nat>, pc: seq<Pc>, t: nat, p: Pc)
    requires Slots(max, free, queue, pc) && t < |pc| && Hand(p) == Hand(pc[t])
    ensures Slots(max, free, queue, pc[t := p])
  {
    hide Holders;
    HolderCount(pc, t, p);
  }

  /** The first slot of a chain goes into a thread's hands. */
  lemma SlotOut(max: nat, a: seq<nat>, b: seq<nat>, pc: seq<Pc>, t: nat, p: Pc)
    requires Slots(max, a, b, pc) && t < |pc| && a != [] && Hand(pc[t]) == -1 && Hand(p) == a[0]
    ensures Slots(max, a[1..], b, pc[t := p])
  {
    hide Holders;
    HolderCount(pc, t, p);
  }

  ghost predicate Elsewhere(a: seq<nat>, b: seq<nat>, pc: seq<Pc>, k: int) {
    && (forall i :: 0 <= i < |a| ==> a[i] != k)
    && (forall i :: 0 <= i < |b| ==> b[i] != k)
    && (forall u :: 0 <= u < |pc| ==> Hand(pc[u]) != k)
  }

  lemma PutDown(max: nat, a: seq<nat>, b: seq<nat>, pc: seq<Pc>, t: nat, p: Pc)
    requires Apart(max, a, b, pc) && t < |pc| && Hand(pc[t]) >= 0 && Hand(p) == -1
    ensures Apart(max, a, b, pc[t := p])
    ensures Hand(pc[t]) < max && Elsewhere(a, b, pc[t := p], Hand(pc[t]))
  {
  }

  /** The slot in a thread's hands goes to the front of a chain. */
  lemma SlotIn(max: nat, a: seq<nat>, b: seq<nat>, pc: seq<Pc>, t: nat, p: Pc)
    requires Slots(max, a, b, pc) && t < |pc| && Hand(pc[t]) >= 0 && Hand(p) == -1
    ensures Slots(max, [Hand(pc[t]) as nat] + a, b, pc[t := p])
  {
    hide Apart, Holders, Elsewhere;
    HolderCount(pc, t, p);
    PutDown(max, a, b, pc, t, p);
    Fronted(max, a, b, pc[t := p], Hand(pc[t]));
  }

  lemma Fronted(max: nat, a: seq<nat>, b: seq<nat>, pc: seq<Pc>, k: nat)
    requires Apart(max, a, b, pc) && k < max && Elsewhere(a, b, pc, k)
    ensures Apart(max, [k] + a, b, pc)
  {
  }

  /** The slot in a thread's hands goes to the back of a chain. */
  lemma SlotAtEnd(max: nat, a: seq<nat>, b: seq<nat>, pc: seq<Pc>, t: nat, p: Pc)
    requires Slots(max, a, b, pc) && t < |pc| && Hand(pc[t]) >= 0 && Hand(p) == -1
    ensures Slots(max, a, b + [Hand(pc[t]) as nat], pc[t := p])
  {
    hide Apart, Holders, Elsewhere;
    HolderCount(pc, t, p);
    PutDown(max, a, b, pc, t, p);
    Appended(max, a, b, pc[t := p], Hand(pc[t]));
  }

  lemma Appended(max: nat, a: seq<nat>, b: seq<nat>, pc: seq<Pc>, k: nat)
    requires Apart(max, a, b, pc) && k < max && Elsewhere(a, b, pc, k)
    ensures Apart(max, a, b + [k], pc)
  {
  }

  lemma {:induction false} ReverseDistinct(q: seq<nat>, free: seq<nat>)
    requires Distinct(q) && Distinct(free)
    requires forall i, j :: 0 <= i < |q| && 0 <= j < |free| ==> q[i] != free[j]
    ensures Distinct(Reverse(q) + free)
    ensures forall i :: 0 <= i < |Reverse(q)| ==> exists j :: 0 <= j < |q| && Reverse(q)[i] == q[j]
  {
    if q != [] {
      assert forall j :: 0 <= j < |q[1..]| ==> q[1..][j] == q[j + 1];
      ReverseDistinct(q[1..], [q[0]] + free);
      assert Reverse(q) + free == Reverse(q[1..]) + ([q[0]] + free);
      var r := Reverse(q[1..]);
      forall i | 0 <= i < |Reverse(q)| ensures exists j :: 0 <= j < |q| && Reverse(q)[i] == q[j] {
        if i < |r| {
          var j :| 0 <= j < |q[1..]| && r[i] == q[1..][j];
          assert q[j + 1] == r[i];
        } else {
          assert Reverse(q)[i] == q[0];
        }
      }
    }
  }

  lemma SlotsClean(max: nat, free: seq<nat>, queue: seq<nat>, pc: seq<Pc>, after: seq<Pc>)
    requires Slots(max, free, queue, pc) && |after| == |pc|
    requires forall t :: 0 <= t < |pc| ==> Hand(after[t]) == Hand(pc[t])
    ensures Slots(max, Reverse(queue) + free, [], after)
  {
    hide Reverse;
    var r := Reverse(queue);
    assert forall i, j :: 0 <= i < |queue| && 0 <= j < |free| ==> queue[i] != free[j];
    ReverseDistinct(queue, free);
    assert Holders(after) == Holders(pc);
    forall i | 0 <= i < |r| ensures r[i] < max && forall t :: 0 <= t < |pc| ==> r[i] != Hand(pc[t]) {
      var j :| 0 <= j < |queue| && r[i] == queue[j];
    }
  }

  // ----- wait queues -----

  lemma Waiting(pc: seq<Pc>, t: nat)
    ensures t in Receiving(pc) ==> t < |pc| && pc[t].WaitRecv?
    ensures t in Sending(pc) ==> t < |pc| && pc[t].WaitSend?
  {
  }

  lemma WaitsStay(receivers: seq<nat>, senders: seq<nat>, pc: seq<Pc>, t: nat, p: Pc)
    requires Waits(receivers, senders, pc) && t < |pc|
    requires !pc[t].WaitRecv? && !pc[t].WaitSend? && !p.WaitRecv? && !p.WaitSend?
    ensures Waits(receivers, senders, pc[t := p])
  {
    hide Holds, Receiving, Sending;
    SetsUpdate(pc, t, p);
    assert Receiving(pc) - {t} == Receiving(pc) && Sending(pc) - {t} == Sending(pc);
  }

  lemma WaitsJoinReceivers(s: State, t: nat)
    requires Waits(s.receivers, s.senders, s.pc) && t < |s.pc| == |s.priority|
    requires !s.pc[t].WaitRecv? && !s.pc[t].WaitSend?
    ensures Waits(Join(s.receivers, t, s.priority, s.flag), s.senders, s.pc[t := WaitRecv])
  {
    hide Holds, Receiving, Sending, Join;
    SetsUpdate(s.pc, t, WaitRecv);
    HoldsJoin(s.receivers, Receiving(s.pc), t, s.priority, s.flag);
    assert Sending(s.pc) - {t} == Sending(s.pc);
  }

  lemma WaitsJoinSenders(s: State, t: nat, m: string)
    requires Waits(s.receivers, s.senders, s.pc) && t < |s.pc| == |s.priority|
    requires !s.pc[t].WaitRecv? && !s.pc[t].WaitSend?
    ensures Waits(s.receivers, Join(s.senders, t, s.priority, s.flag), s.pc[t := WaitSend(m)])
  {
    hide Holds, Receiving, Sending, Join;
    SetsUpdate(s.pc, t, WaitSend(m));
    HoldsJoin(s.senders, Sending(s.pc), t, s.priority, s.flag);
    assert Receiving(s.pc) - {t} == Receiving(s.pc);
  }

  lemma WaitsWakeReceiver(receivers: seq<nat>, senders: seq<nat>, pc: seq<Pc>)
    requires Waits(receivers, senders, pc) && receivers != []
    ensures var t := receivers[0];
            t < |pc| && pc[t].WaitRecv? && Waits(receivers[1..], senders, pc[t := WokenRecv])
  {
    hide Holds, Receiving, Sending;
    var t := receivers[0];
    HoldsFirst(receivers, Receiving(pc));
    Waiting(pc, t);
    SetsUpdate(pc, t, WokenRecv);
    assert Sending(pc) - {t} == Sending(pc);
  }

  lemma WaitsWakeSender(receivers: seq<nat>, senders: seq<nat>, pc: seq<Pc>)
    requires Waits(receivers, senders, pc) && senders != []
    ensures var t := senders[0];
            t < |pc| && pc[t].WaitSend? && Waits(receivers, senders[1..], pc[t := WokenSend(pc[t].m)])
  {
    hide Holds, Receiving, Sending;
    var t := senders[0];
    HoldsFirst(senders, Sending(pc));
    Waiting(pc, t);
    SetsUpdate(pc, t, WokenSend(pc[t].m));
    assert Receiving(pc) - {t} == Receiving(pc);
  }

  lemma WaitsExpire(receivers: seq<nat>, senders: seq<nat>, pc: seq<Pc>, t: nat)
    requires Waits(receivers, senders, pc) && t < |pc|
    ensures Waits(Without(receivers, t), Without(senders, t), pc[t := Idle])
  {
    hide Holds, Receiving, Sending;
    SetsUpdate(pc, t, Idle);
    HoldsWithout(receivers, Receiving(pc), t);
    HoldsWithout(senders, Sending(pc), t);
  }

  /** The threads waiting are the ones in the queues. */
  lemma WaitsAre(receivers: seq<nat>, senders: seq<nat>, pc: seq<Pc>, t: nat)
    requires Waits(receivers, senders, pc) && t < |pc|
    ensures pc[t].WaitRecv? || pc[t].WaitSend? <==> t in receivers || t in senders
  {
    hide Distinct;
    assert t in Receiving(pc) <==> pc[t].WaitRecv?;
    assert t in Sending(pc) <==> pc[t].WaitSend?;
  }

  // ----- blocks -----

  lemma BlocksStay(s: State, t: nat, p: Pc)
    requires Blocks(s.max, s.size, s.queue, s.messages, s.payload, s.pc) && t < |s.pc| && HandOk(p, s.size, s.payload)
    ensures Blocks(s.max, s.size, s.queue, s.messages, s.payload, s.pc[t := p])
  {
    hide HandOk;
  }

  lemma HandIsOk(s: State, t: nat)
    requires Blocks(s.max, s.size, s.queue, s.messages, s.payload, s.pc) && t < |s.pc|
    ensures HandOk(s.pc[t], s.size, s.payload)
  {
  }

  // ----- the events -----

  lemma TakeSlotKeeps(s: State, t: nat, m: string, urgent: bool, wait: bool)
    requires Inv(s) && t < |s.pc| && |m| <= s.size
    requires s.pc[t].Idle? || s.pc[t].WokenSend?
    ensures Inv(TakeSlot(s, t, m, urgent, wait))
  {
    hide Slots, Waits, Join, Blocks, WokenReceivers, WokenSenders;
    var p := TakeSlot(s, t, m, urgent, wait).pc[t];
    WokenCounts(s.pc, t, p);
    if s.free != [] {
      FirstSlot(s);
      SlotOut(s.max, s.free, s.queue, s.pc, t, p);
      WaitsStay(s.receivers, s.senders, s.pc, t, p);
    } else {
      SlotsStay(s.max, s.free, s.queue, s.pc, t, p);
      if wait {
        WaitsJoinSenders(s, t, m);
      } else {
        WaitsStay(s.receivers, s.senders, s.pc, t, p);
      }
    }
    BlocksStay(s, t, p);
  }

  lemma FirstSlot(s: State)
    requires Inv(s) && s.free != []
    ensures s.free[0] < |s.payload|
  {
    hide Waits, Wakes;
  }

  lemma FillKeeps(s: State, t: nat)
    requires Inv(s) && t < |s.pc| && s.pc[t].Hold?
    requires s.pc[t].slot < |s.payload| && |s.pc[t].m| <= |s.payload[s.pc[t].slot]|
    ensures Inv(FillSlot(s, t))
  {
    hide Slots, Waits, Blocks, WokenReceivers, WokenSenders;
    var p := FillSlot(s, t).pc[t];
    WokenCounts(s.pc, t, p);
    SlotsStay(s.max, s.free, s.queue, s.pc, t, p);
    WaitsStay(s.receivers, s.senders, s.pc, t, p);
    FillBlocks(s, t);
  }

  /** Nobody else has anything in the slot that is being filled. */
  lemma FillBlocks(s: State, t: nat)
    requires Slots(s.max, s.free, s.queue, s.pc) && Blocks(s.max, s.size, s.queue, s.messages, s.payload, s.pc)
    requires t < |s.pc| && s.pc[t].Hold?
    requires s.pc[t].slot < |s.payload| && |s.pc[t].m| <= |s.payload[s.pc[t].slot]|
    ensures var r := FillSlot(s, t); Blocks(r.max, r.size, r.queue, r.messages, r.payload, r.pc)
  {
    hide Holders;
    var r := FillSlot(s, t);
    var k := s.pc[t].slot;
    forall u | 0 <= u < |r.pc| ensures HandOk(r.pc[u], r.size, r.payload) {
      if u != t {
        assert HandOk(s.pc[u], s.size, s.payload);
        assert Hand(s.pc[u]) != Hand(s.pc[t]);
      }
    }
    forall i | 0 <= i < |r.queue| ensures r.messages[i] <= r.payload[r.queue[i]] {
      assert s.queue[i] != Hand(s.pc[t]);
    }
  }

  lemma WakeReceiverKeeps(s: State)
    requires s.max <= ENTRY_MAX && |s.priority| == |s.pc| && s.entry == |s.queue|
    requires Slots(s.max, s.free, s.queue, s.pc) && Waits(s.receivers, s.senders, s.pc)
    requires Blocks(s.max, s.size, s.queue, s.messages, s.payload, s.pc)
    requires s.receivers != [] ==> s.entry <= |WokenReceivers(s.pc)| + 1
    requires s.senders != [] ==> |s.free| <= |WokenSenders(s.pc)|
    ensures Inv(WakeReceiver(s))
  {
    hide Slots, Waits, Blocks, WokenReceivers, WokenSenders;
    if s.receivers != [] {
      WaitsWakeReceiver(s.receivers, s.senders, s.pc);
      var t := s.receivers[0];
      WokenCounts(s.pc, t, WokenRecv);
      SlotsStay(s.max, s.free, s.queue, s.pc, t, WokenRecv);
      BlocksStay(s, t, WokenRecv);
    }
  }

  lemma WakeSenderKeeps(s: State)
    requires s.max <= ENTRY_MAX && |s.priority| == |s.pc| && s.entry == |s.queue|
    requires Slots(s.max, s.free, s.queue, s.pc) && Waits(s.receivers, s.senders, s.pc)
    requires Blocks(s.max, s.size, s.queue, s.messages, s.payload, s.pc)
    requires s.receivers != [] ==> s.entry <= |WokenReceivers(s.pc)|
    requires s.senders != [] ==> |s.free| <= |WokenSenders(s.pc)| + 1
    ensures Inv(WakeSender(s))
  {
    hide Slots, Waits, Blocks, WokenReceivers, WokenSenders;
    if s.senders != [] {
      WaitsWakeSender(s.receivers, s.senders, s.pc);
      var t := s.senders[0];
      var p := WokenSend(s.pc[t].m);
      WokenCounts(s.pc, t, p);
      SlotsStay(s.max, s.free, s.queue, s.pc, t, p);
      HandIsOk(s, t);
      BlocksStay(s, t, p);
    }
  }

  /** With a slot in somebody's hands the queue is not full, so the counter does not overflow. */
  lemma RoomToLink(s: State, t: nat)
    requires Inv(s) && t < |s.pc| && Hand(s.pc[t]) >= 0
    ensures s.entry < s.max
  {
    hide Waits, Wakes, Blocks, Holders, Apart;
    SetsUpdate(s.pc, t, s.pc[t]);
    Toggle(Holders(s.pc), t);
  }

  lemma LinkKeeps(s: State, t: nat)
    requires Inv(s) && t < |s.pc| && s.pc[t].Filled?
    ensures Inv(LinkSlot(s, t))
  {
    hide Slots, Waits, WakeReceiver, Blocks, WokenReceivers, WokenSenders;
    RoomToLink(s, t);
    var f, pc := s.pc[t], s.pc[t := Idle];
    WokenCounts(s.pc, t, Idle);
    WaitsStay(s.receivers, s.senders, s.pc, t, Idle);
    LinkBlocks(s, t);
    if f.urgent {
      SlotsSwap(s.max, s.free, s.queue, s.pc);
      SlotIn(s.max, s.queue, s.free, s.pc, t, Idle);
      SlotsSwap(s.max, [f.slot] + s.queue, s.free, pc);
      WakeReceiverKeeps(s.(queue := [f.slot] + s.queue, messages := [f.m] + s.messages, pc := pc, entry := s.entry + 1));
    } else {
      SlotAtEnd(s.max, s.free, s.queue, s.pc, t, Idle);
      WakeReceiverKeeps(s.(queue := s.queue + [f.slot], messages := s.messages + [f.m], pc := pc, entry := s.entry + 1));
    }
  }

  lemma LinkBlocks(s: State, t: nat)
    requires Blocks(s.max, s.size, s.queue, s.messages, s.payload, s.pc) && t < |s.pc| && s.pc[t].Filled?
    ensures var f, pc := s.pc[t], s.pc[t := Idle];
            && Blocks(s.max, s.size, s.queue + [f.slot], s.messages + [f.m], s.payload, pc)
            && Blocks(s.max, s.size, [f.slot] + s.queue, [f.m] + s.messages, s.payload, pc)
  {
    assert HandOk(s.pc[t], s.size, s.payload);
  }

  lemma TakeMessageKeeps(s: State, t: nat, wait: bool)
    requires Inv(s) && t < |s.pc| && (s.pc[t].Idle? || s.pc[t].WokenRecv?)
    requires s.entry > 0 ==> s.messages != []
    ensures Inv(TakeMessage(s, t, wait))
  {
    hide Slots, Waits, Join, Blocks, WokenReceivers, WokenSenders;
    var r := TakeMessage(s, t, wait);
    var p := r.pc[t];
    WokenCounts(s.pc, t, p);
    if s.entry > 0 {
      SlotsSwap(s.max, s.free, s.queue, s.pc);
      SlotOut(s.max, s.queue, s.free, s.pc, t, p);
      SlotsSwap(s.max, s.queue[1..], s.free, r.pc);
      WaitsStay(s.receivers, s.senders, s.pc, t, p);
      TakeBlocks(s, t);
    } else {
      SlotsStay(s.max, s.free, s.queue, s.pc, t, p);
      BlocksStay(s, t, p);
      if wait {
        WaitsJoinReceivers(s, t);
      } else {
        WaitsStay(s.receivers, s.senders, s.pc, t, p);
      }
    }
  }

  lemma TakeBlocks(s: State, t: nat)
    requires Blocks(s.max, s.size, s.queue, s.messages, s.payload, s.pc) && t < |s.pc| && s.queue != []
    ensures Blocks(s.max, s.size, s.queue[1..], s.messages[1..], s.payload, s.pc[t := Taken(s.queue[0], s.messages[0])])
  {
  }

  lemma CopyKeeps(s: State, t: nat, size: nat)
    requires Inv(s) && t < |s.pc| && s.pc[t].Taken? && s.pc[t].slot < |s.payload|
    ensures Inv(CopyOut(s, t, size))
  {
    hide Slots, Waits, Blocks, WokenReceivers, WokenSenders;
    var p := CopyOut(s, t, size).pc[t];
    HandIsOk(s, t);
    BlockSize(s, s.pc[t].slot);
    PrefixesAgree(s.pc[t].m, s.payload[s.pc[t].slot], |p.got|);
    WokenCounts(s.pc, t, p);
    SlotsStay(s.max, s.free, s.queue, s.pc, t, p);
    WaitsStay(s.receivers, s.senders, s.pc, t, p);
    BlocksStay(s, t, p);
  }

  lemma BlockSize(s: State, k: nat)
    requires Blocks(s.max, s.size, s.queue, s.messages, s.payload, s.pc) && k < |s.payload|
    ensures |s.payload[k]| == s.size
  {
  }

  lemma PrefixesAgree(m: string, block: string, n: nat)
    requires m <= block && n <= |block|
    ensures block[..n] <= m || m <= block[..n]
  {
    if n <= |m| {
      assert block[..n] == m[..n];
    } else {
      assert block[..n][..|m|] == m;
    }
  }

  lemma ReleaseKeeps(s: State, t: nat)
    requires Inv(s) && t < |s.pc| && s.pc[t].Copied?
    ensures Inv(ReleaseSlot(s, t))
  {
    hide Slots, Waits, WakeSender, Blocks, WokenReceivers, WokenSenders;
    WokenCounts(s.pc, t, Idle);
    SlotIn(s.max, s.free, s.queue, s.pc, t, Idle);
    WaitsStay(s.receivers, s.senders, s.pc, t, Idle);
    BlocksStay(s, t, Idle);
    WakeSenderKeeps(s.(free := [s.pc[t].slot] + s.free, pc := s.pc[t := Idle]));
  }

  lemma ExpireKeeps(s: State, t: nat)
    requires Inv(s) && t < |s.pc| && (s.pc[t].WaitSend? || s.pc[t].WaitRecv?)
    ensures Inv(Expire(s, t))
  {
    hide Slots, Waits, Blocks, WokenReceivers, WokenSenders;
    WokenCounts(s.pc, t, Idle);
    SlotsStay(s.max, s.free, s.queue, s.pc, t, Idle);
    WaitsExpire(s.receivers, s.senders, s.pc, t);
    BlocksStay(s, t, Idle);
  }

  lemma CleanKeeps(s: State)
    requires Inv(s)
    ensures Inv(Clean(s))
  {
    hide Slots, Reverse, Waits, Blocks;
    var r := Clean(s);
    forall t: nat | t < |s.pc|
      ensures r.pc[t] == if s.pc[t].WaitRecv? || s.pc[t].WaitSend? then Idle else s.pc[t]
    {
      WaitsAre(s.receivers, s.senders, s.pc, t);
    }
    SlotsClean(s.max, s.free, s.queue, s.pc, r.pc);
    CleanRest(s, r.pc);
  }

  lemma CleanRest(s: State, pc: seq<Pc>)
    requires Blocks(s.max, s.size, s.queue, s.messages, s.payload, s.pc) && |pc| == |s.pc|
    requires forall t: nat | t < |s.pc| :: pc[t] == if s.pc[t].WaitRecv? || s.pc[t].WaitSend? then Idle else s.pc[t]
    ensures Blocks(s.max, s.size, [], [], s.payload, pc) && Waits([], [], pc)
  {
  }

  lemma StepKeeps(s: State, e: Event)
    requires Inv(s) && Enabled(s, e)
    ensures Inv(Step(s, e))
  {
    hide Slots, Waits, Wakes, TakeSlot, FillSlot, LinkSlot, TakeMessage, CopyOut, ReleaseSlot, Expire, Clean;
    match e
    case Send(t, m, wait) => if |m| <= s.size { TakeSlotKeeps(s, t, m, false, wait); }
    case Urgent(t, m) => if |m| <= s.size { TakeSlotKeeps(s, t, m, true, false); }
    case SendAgain(t, wait) => HandIsOk(s, t); TakeSlotKeeps(s, t, s.pc[t].m, false, wait);
    case Fill(t) => HandIsOk(s, t); FillKeeps(s, t);
    case Link(t) => LinkKeeps(s, t);
    case Recv(t, wait) => TakeMessageKeeps(s, t, wait);
    case RecvAgain(t, wait) => TakeMessageKeeps(s, t, wait);
    case Copy(t, size) => HandIsOk(s, t); CopyKeeps(s, t, size);
    case Release(t) => ReleaseKeeps(s, t);
    case Timeout(t) => ExpireKeeps(s, t);
    case Reset => CleanKeeps(s);
    case SetPriority(t, p) => PriorityKeeps(s, t, p);
  }

  lemma PriorityKeeps(s: State, t: nat, p: nat)
    requires Inv(s) && t < |s.priority|
    ensures Inv(s.(priority := s.priority[t := p]))
  {
    hide Slots, Waits, Blocks;
  }
}
