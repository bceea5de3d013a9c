/** What each call on a message queue comes to, in any state that the invariants allow. */
module MessageQueueCalls {
  import opened WaitQueue
  import opened MessageQueue
  import opened MessageQueueSafety
  import opened MessageQueueRuns

  lemma Counted(s: State)
    requires Inv(s)
    ensures |s.priority| == |s.pc| && |s.messages| == |s.queue| == s.entry
    ensures Waits(s.receivers, s.senders, s.pc)
  {
    hide Waits, Wakes, Slots;
  }

  /**
   A message longer than a slot is refused. A sender gets a slot that was free and is nobody else's;
   with none it waits in the queue of senders, at the place that the flag gives it, or gives up.
   An urgent send never waits.
   */
  lemma SendOutcome(s: State, e: Event)
    requires Inv(s) && Enabled(s, e) && (e.Send? || e.Urgent? || e.SendAgain?)
    ensures |s.priority| == |s.pc|
    ensures var r, t := Step(s, e), e.t;
            var m := if e.SendAgain? then s.pc[t].m else e.m;
            if |m| > s.size then r == s
            else if s.free != [] then
              var k := Hand(r.pc[t]);
              k >= 0 && r.pc == s.pc[t := Hold(k, m, e.Urgent?)] && InChain(s.free, k) && !InChain(r.free, k) && !InHands(s.pc, k)
            else if !e.Urgent? && e.wait then
              && r.pc == s.pc[t := WaitSend(m)] && r.receivers == s.receivers
              && exists k: nat :: Stands(s.senders, r.senders, t, k, s.priority, s.flag)
            else r == s.(pc := s.pc[t := Idle])
  {
    hide Waits, Wakes, Blocks, Join, Holders;
    Counted(s);
    HandIsOk(s, e.t);
    if s.free != [] {
      assert s.free[0] == s.free[0];
    } else {
      JoinStands(s.senders, e.t, s.priority, s.flag);
    }
  }

  /**
   A receiver gets the first message; with none it waits among the receivers, at the place that the
   flag gives it, or gives up.
   */
  lemma RecvOutcome(s: State, e: Event)
    requires Inv(s) && Enabled(s, e) && (e.Recv? || e.RecvAgain?)
    ensures |s.priority| == |s.pc|
    ensures var r, t := Step(s, e), e.t;
            if s.messages != [] then
              && r.pc[t].Taken? && r.pc == s.pc[t := r.pc[t]] && [r.pc[t].m] + r.messages == s.messages
              && InChain(s.queue, r.pc[t].slot) && !InChain(r.queue, r.pc[t].slot)
            else if e.wait then
              && r.pc == s.pc[t := WaitRecv] && r.senders == s.senders
              && exists k: nat :: Stands(s.receivers, r.receivers, t, k, s.priority, s.flag)
            else r == s.(pc := s.pc[t := Idle])
  {
    hide Waits, Wakes, Blocks, Join, Holders;
    Counted(s);
    if s.messages != [] {
      assert s.queue[0] == s.queue[0];
    } else {
      JoinStands(s.receivers, e.t, s.priority, s.flag);
    }
  }

  /** Filling a slot puts the message into it, and touches no other slot. */
  lemma FillOutcome(s: State, t: nat)
    requires Inv(s) && Enabled(s, Fill(t))
    ensures var r, h := Step(s, Fill(t)), s.pc[t];
            && r.pc == s.pc[t := Filled(h.slot, h.m, h.urgent)]
            && h.slot < |s.payload| == |r.payload| && h.m <= r.payload[h.slot]
            && forall k :: 0 <= k < |s.payload| && k != h.slot ==> r.payload[k] == s.payload[k]
  {
    hide Slots, Waits, Wakes;
    HandIsOk(s, t);
  }

  /** Linking counts the message and wakes the first waiting receiver, and nobody else. */
  lemma LinkOutcome(s: State, t: nat)
    requires Inv(s) && Enabled(s, Link(t))
    ensures var r := Step(s, Link(t));
            && r.entry == s.entry + 1 && r.senders == s.senders && r.free == s.free && r.payload == s.payload
            && if s.receivers == [] then r.pc == s.pc[t := Idle] && r.receivers == []
               else
                 var w := s.receivers[0];
                 w < |s.pc| && s.pc[w].WaitRecv? && r.pc == s.pc[t := Idle][w := WokenRecv] && r.receivers == s.receivers[1..]
  {
    hide Slots, Blocks, Wakes, Waits;
    Counted(s);
    RoomToLink(s, t);
    if s.receivers != [] {
      WaitsWakeReceiver(s.receivers, s.senders, s.pc);
    }
  }

  /** Giving a slot back makes it free and wakes the first waiting sender, and nobody else. */
  lemma ReleaseOutcome(s: State, t: nat)
    requires Inv(s) && Enabled(s, Release(t))
    ensures var r := Step(s, Release(t));
            && InChain(r.free, s.pc[t].slot) && r.receivers == s.receivers && r.messages == s.messages
            && if s.senders == [] then r.pc == s.pc[t := Idle] && r.senders == []
               else
                 var w := s.senders[0];
                 && w < |s.pc| && s.pc[w].WaitSend? && r.pc == s.pc[t := Idle][w := WokenSend(s.pc[w].m)]
                 && r.senders == s.senders[1..]
  {
    hide Slots, Blocks, Wakes, Waits;
    Counted(s);
    if s.senders != [] {
      WaitsWakeSender(s.receivers, s.senders, s.pc);
    }
    assert Step(s, Release(t)).free[0] == s.pc[t].slot;
  }

  /** A thread whose time is up leaves the queue in which it waits, the others keeping their order. */
  lemma TimeoutOutcome(s: State, t: nat)
    requires Inv(s) && Enabled(s, Timeout(t))
    ensures var r := Step(s, Timeout(t));
            && r.pc == s.pc[t := Idle] && r.messages == s.messages && r.free == s.free && t !in r.receivers && t !in r.senders
            && (s.pc[t].WaitRecv? ==> r.senders == s.senders && exists k: nat :: Leaves(s.receivers, r.receivers, t, k))
            && (s.pc[t].WaitSend? ==> r.receivers == s.receivers && exists k: nat :: Leaves(s.senders, r.senders, t, k))
  {
    hide Slots, Blocks, Wakes, Waits, Without;
    Counted(s);
    InOneQueue(s.receivers, s.senders, s.pc, t);
    WaitsExpire(s.receivers, s.senders, s.pc, t);
    InOneQueue(Without(s.receivers, t), Without(s.senders, t), s.pc[t := Idle], t);
    if s.pc[t].WaitRecv? {
      var k := WithoutLeaves(s.receivers, t);
      WithoutStranger(s.senders, t);
    } else {
      var k := WithoutLeaves(s.senders, t);
      WithoutStranger(s.receivers, t);
    }
  }

  lemma InOneQueue(receivers: seq<nat>, senders: seq<nat>, pc: seq<Pc>, t: nat)
    requires Waits(receivers, senders, pc) && t < |pc|
    ensures pc[t].WaitRecv? <==> t in receivers
    ensures pc[t].WaitSend? <==> t in senders
  {
    hide Distinct;
    assert t in Receiving(pc) <==> pc[t].WaitRecv?;
    assert t in Sending(pc) <==> pc[t].WaitSend?;
  }

  /** A reset drops all messages, frees their slots, and sends all waiting threads away; slots in hands stay there. */
  lemma ResetOutcome(s: State, k: nat)
    requires Inv(s)
    ensures var r := Step(s, Reset);
            && r.messages == [] && r.entry == 0 && r.receivers == [] && r.senders == [] && |r.pc| == |s.pc|
            && (forall t: nat :: t < |s.pc| ==> r.pc[t] == if s.pc[t].WaitRecv? || s.pc[t].WaitSend? then Idle else s.pc[t])
            && (InChain(r.free, k) <==> InChain(s.free, k) || InChain(s.queue, k))
  {
    hide Slots, Blocks, Wakes, Waits, Reverse;
    Counted(s);
    var r := Step(s, Reset);
    forall t: nat | t < |s.pc| ensures r.pc[t] == if s.pc[t].WaitRecv? || s.pc[t].WaitSend? then Idle else s.pc[t] {
      WaitsAre(s.receivers, s.senders, s.pc, t);
    }
    ReverseSame(s.queue, k);
    Joined(Reverse(s.queue), s.free, k);
  }

  lemma Joined(a: seq<nat>, b: seq<nat>, k: nat)
    ensures InChain(a + b, k) <==> InChain(a, k) || InChain(b, k)
  {
    if InChain(a, k) {
      var i :| 0 <= i < |a| && a[i] == k;
      assert (a + b)[i] == k;
    } else if InChain(b, k) {
      var i :| 0 <= i < |b| && b[i] == k;
      assert (a + b)[|a| + i] == k;
    }
  }

  lemma {:induction false} ReverseSame(q: seq<nat>, k: nat)
    ensures InChain(Reverse(q), k) <==> InChain(q, k)
  {
    if q != [] {
      ReverseSame(q[1..], k);
      Joined(Reverse(q[1..]), [q[0]], k);
      Joined([q[0]], q[1..], k);
      assert q == [q[0]] + q[1..];
      assert [q[0]][0] == q[0];
    }
  }
}
