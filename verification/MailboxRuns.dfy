/** Every event of the mailbox keeps the invariants; what holds after any run. */
module MailboxRuns {
  import opened Wrappers
  import opened WaitQueue
  import opened Mailbox

  // ----- sets of threads -----

  lemma SetsUpdate(pc: seq<Pc>, t: nat, p: Pc)
    requires t < |pc|
    ensures Receiving(pc[t := p]) == if p.WaitRecv? then Receiving(pc) + {t} else Receiving(pc) - {t}
    ensures Sending(pc[t := p]) == if p.WaitSend? then Sending(pc) + {t} else Sending(pc) - {t}
    ensures WokenReceivers(pc[t := p]) == if p.WokenRecv? then WokenReceivers(pc) + {t} else WokenReceivers(pc) - {t}
    ensures WokenSenders(pc[t := p]) == if p.WokenSend? then WokenSenders(pc) + {t} else WokenSenders(pc) - {t}
    ensures t in Receiving(pc) <==> pc[t].WaitRecv?
    ensures t in Sending(pc) <==> pc[t].WaitSend?
    ensures t in WokenReceivers(pc) <==> pc[t].WokenRecv?
    ensures t in WokenSenders(pc) <==> pc[t].WokenSend?
  {
  }

  lemma WokenCounts(pc: seq<Pc>, t: nat, p: Pc)
    requires t < |pc|
    ensures |WokenReceivers(pc[t := p])| ==
            |WokenReceivers(pc)| + (if p.WokenRecv? then 1 else 0) - (if pc[t].WokenRecv? then 1 else 0)
    ensures |WokenSenders(pc[t := p])| ==
            |WokenSenders(pc)| + (if p.WokenSend? then 1 else 0) - (if pc[t].WokenSend? then 1 else 0)
  {
    hide WokenReceivers, WokenSenders;
    SetsUpdate(pc, t, p);
    Toggle(WokenReceivers(pc), t);
    Toggle(WokenSenders(pc), t);
  }

  lemma Waiting(pc: seq<Pc>, t: nat)
    ensures t in Receiving(pc) ==> t < |pc| && pc[t].WaitRecv?
    ensures t in Sending(pc) ==> t < |pc| && pc[t].WaitSend?
  {
  }

  // ----- wait queues -----

  lemma WaitsStay(receivers: seq<nat>, senders: seq<nat>, pc: seq<Pc>, t: nat, p: Pc)
    requires Waits(receivers, senders, pc) && t < |pc|
    requires !pc[t].WaitRecv? && !pc[t].WaitSend? && !p.WaitRecv? && !p.WaitSend?
    ensures Waits(receivers, senders, pc[t := p])
  {
    hide Holds, Receiving, Sending;
    SetsUpdate(pc, t, p);
    assert Receiving(pc) - {t} == Receiving(pc) && Sending(pc) - {t} == Sending(pc);
  }

  lemma WaitsJoinReceivers(s: State, t: nat)
    requires Waits(s.receivers, s.senders, s.pc) && t < |s.pc| == |s.priority|
    requires !s.pc[t].WaitRecv? && !s.pc[t].WaitSend?
    ensures Waits(Join(s.receivers, t, s.priority, s.flag), s.senders, s.pc[t := WaitRecv])
  {
    hide Holds, Receiving, Sending, Join;
    SetsUpdate(s.pc, t, WaitRecv);
    HoldsJoin(s.receivers, Receiving(s.pc), t, s.priority, s.flag);
    assert Sending(s.pc) - {t} == Sending(s.pc);
  }

  lemma WaitsJoinSenders(s: State, t: nat, v: int)
    requires Waits(s.receivers, s.senders, s.pc) && t < |s.pc| == |s.priority|
    requires !s.pc[t].WaitRecv? && !s.pc[t].WaitSend?
    ensures Waits(s.receivers, Join(s.senders, t, s.priority, s.flag), s.pc[t := WaitSend(v)])
  {
    hide Holds, Receiving, Sending, Join;
    SetsUpdate(s.pc, t, WaitSend(v));
    HoldsJoin(s.senders, Sending(s.pc), t, s.priority, s.flag);
    assert Receiving(s.pc) - {t} == Receiving(s.pc);
  }

  lemma WaitsWakeReceiver(receivers: seq<nat>, senders: seq<nat>, pc: seq<Pc>)
    requires Waits(receivers, senders, pc) && receivers != []
    ensures var t := receivers[0];
            t < |pc| && pc[t].WaitRecv? && Waits(receivers[1..], senders, pc[t := WokenRecv])
  {
    hide Holds, Receiving, Sending;
    var t := receivers[0];
    HoldsFirst(receivers, Receiving(pc));
    Waiting(pc, t);
    SetsUpdate(pc, t, WokenRecv);
    assert Sending(pc) - {t} == Sending(pc);
  }

  lemma WaitsWakeSender(receivers: seq<nat>, senders: seq<nat>, pc: seq<Pc>)
    requires Waits(receivers, senders, pc) && senders != []
    ensures var t := senders[0];
            t < |pc| && pc[t].WaitSend? && Waits(receivers, senders[1..], pc[t := WokenSend(pc[t].v)])
  {
    hide Holds, Receiving, Sending;
    var t := senders[0];
    HoldsFirst(senders, Sending(pc));
    Waiting(pc, t);
    SetsUpdate(pc, t, WokenSend(pc[t].v));
    assert Receiving(pc) - {t} == Receiving(pc);
  }

  lemma WaitsExpire(receivers: seq<nat>, senders: seq<nat>, pc: seq<Pc>, t: nat)
    requires Waits(receivers, senders, pc) && t < |pc|
    ensures Waits(Without(receivers, t), Without(senders, t), pc[t := Idle])
  {
    hide Holds, Receiving, Sending;
    SetsUpdate(pc, t, Idle);
    HoldsWithout(receivers, Receiving(pc), t);
    HoldsWithout(senders, Sending(pc), t);
  }

  // ----- the ring -----

  /** A mail stored at the input offset is the newest of the ring, and touches no other. */
  lemma RingPut(s: State, v: int)
    requires Ring(s) && s.entry < s.size
    ensures s.inOffset < |s.pool|
    ensures var r := s.(pool := s.pool[s.inOffset := v], inOffset := Next(s.inOffset, s.size), entry := s.entry + 1);
            Ring(r) && Contents(r) == Contents(s) + [v]
  {
    var r := s.(pool := s.pool[s.inOffset := v], inOffset := Next(s.inOffset, s.size), entry := s.entry + 1);
    forall i: nat | i < s.entry ensures Contents(r)[i] == Contents(s)[i] {
      assert Wrap(s.outOffset + i, s.size) != s.inOffset;
    }
    assert Contents(r)[s.entry] == v;
  }

  /** The mail at the output offset is the oldest of the ring. */
  lemma RingGet(s: State)
    requires Ring(s) && s.entry > 0
    ensures s.outOffset < |s.pool|
    ensures var r := s.(outOffset := Next(s.outOffset, s.size), entry := s.entry - 1);
            Ring(r) && Contents(s) == [s.pool[s.outOffset]] + Contents(r)
  {
    var r := s.(outOffset := Next(s.outOffset, s.size), entry := s.entry - 1);
    forall i: nat | i < r.entry ensures Contents(r)[i] == Contents(s)[i + 1] {
      assert Wrap(r.outOffset + i, s.size) == Wrap(s.outOffset + (i + 1), s.size);
    }
    ContentsAt(s, 0);
  }

  lemma ContentsAt(s: State, i: nat)
    requires Ring(s) && i < s.entry
    ensures Contents(s)[i] == s.pool[Wrap(s.outOffset + i, s.size)]
  {
  }

  /** Only the ring matters for the contents. */
  lemma SameRing(s: State, r: State)
    requires Ring(s) && r.pool == s.pool && r.size == s.size && r.entry == s.entry
    requires r.inOffset == s.inOffset && r.outOffset == s.outOffset
    ensures Ring(r) && Contents(r) == Contents(s)
  {
  }

  lemma Move(a: seq<int>, x: int, b: seq<int>)
    ensures a + ([x] + b) == (a + [x]) + b
  {
  }

  lemma Append(a: seq<int>, b: seq<int>, x: int)
    ensures (a + b) + [x] == a + (b + [x])
  {
  }

  // ----- the events -----

  lemma PutKeeps(s: State, t: nat, v: int, wait: bool)
    requires Inv(s) && t < |s.pc| && (s.pc[t].Idle? || s.pc[t].WokenSend?)
    requires s.entry != s.size ==> s.inOffset < |s.pool|
    ensures Inv(Put(s, t, v, wait))
  {
    hide Waits, Join, Contents, WokenReceivers, WokenSenders, WakeReceiver;
    if s.entry == s.size {
      var r := Put(s, t, v, wait);
      SameRing(s, r);
      WokenCounts(s.pc, t, r.pc[t]);
      if wait {
        WaitsJoinSenders(s, t, v);
      } else {
        WaitsStay(s.receivers, s.senders, s.pc, t, Idle);
      }
    } else {
      StoreKeeps(s, t, v);
    }
  }

  lemma StoreKeeps(s: State, t: nat, v: int)
    requires Inv(s) && t < |s.pc| && (s.pc[t].Idle? || s.pc[t].WokenSend?) && s.entry < s.size
    ensures s.inOffset < |s.pool|
    ensures Inv(WakeReceiver(s.(pool := s.pool[s.inOffset := v], inOffset := Next(s.inOffset, s.size), entry := s.entry + 1,
                                pc := s.pc[t := Idle], sent := s.sent + [v])))
  {
    hide Waits, Contents, WokenReceivers, WokenSenders;
    RingPut(s, v);
    Append(s.received, Contents(s), v);
    WokenCounts(s.pc, t, Idle);
    WaitsStay(s.receivers, s.senders, s.pc, t, Idle);
    var a := s.(pool := s.pool[s.inOffset := v], inOffset := Next(s.inOffset, s.size), entry := s.entry + 1);
    var b := a.(pc := s.pc[t := Idle], sent := s.sent + [v]);
    SameRing(a, b);
    if b.receivers != [] {
      WaitsWakeReceiver(b.receivers, b.senders, b.pc);
      WokenCounts(b.pc, b.receivers[0], WokenRecv);
    }
    SameRing(b, WakeReceiver(b));
  }

  lemma GetKeeps(s: State, t: nat, wait: bool)
    requires Inv(s) && t < |s.pc| && (s.pc[t].Idle? || s.pc[t].WokenRecv?)
    requires s.entry > 0 ==> s.outOffset < |s.pool|
    ensures Inv(Get(s, t, wait))
  {
    hide Waits, Join, Contents, WokenReceivers, WokenSenders, WakeSender;
    if s.entry == 0 {
      var r := Get(s, t, wait);
      SameRing(s, r);
      WokenCounts(s.pc, t, r.pc[t]);
      if wait {
        WaitsJoinReceivers(s, t);
      } else {
        WaitsStay(s.receivers, s.senders, s.pc, t, Idle);
      }
    } else {
      FetchKeeps(s, t);
    }
  }

  lemma FetchKeeps(s: State, t: nat)
    requires Inv(s) && t < |s.pc| && (s.pc[t].Idle? || s.pc[t].WokenRecv?) && s.entry > 0
    ensures s.outOffset < |s.pool|
    ensures Inv(WakeSender(s.(outOffset := Next(s.outOffset, s.size), entry := s.entry - 1, pc := s.pc[t := Idle],
                              received := s.received + [s.pool[s.outOffset]])))
  {
    hide Waits, Contents, WokenReceivers, WokenSenders;
    RingGet(s);
    WokenCounts(s.pc, t, Idle);
    WaitsStay(s.receivers, s.senders, s.pc, t, Idle);
    var a := s.(outOffset := Next(s.outOffset, s.size), entry := s.entry - 1);
    var b := a.(pc := s.pc[t := Idle], received := s.received + [s.pool[s.outOffset]]);
    Move(s.received, s.pool[s.outOffset], Contents(a));
    SameRing(a, b);
    if b.senders != [] {
      WaitsWakeSender(b.receivers, b.senders, b.pc);
      WokenCounts(b.pc, b.senders[0], WokenSend(b.pc[b.senders[0]].v));
    }
    SameRing(b, WakeSender(b));
  }

  lemma ExpireKeeps(s: State, t: nat)
    requires Inv(s) && t < |s.pc| && (s.pc[t].WaitSend? || s.pc[t].WaitRecv?)
    ensures Inv(Expire(s, t))
  {
    hide Waits, Contents, WokenReceivers, WokenSenders;
    WokenCounts(s.pc, t, Idle);
    WaitsExpire(s.receivers, s.senders, s.pc, t);
    SameRing(s, Expire(s, t));
  }

  lemma CleanKeeps(s: State)
    requires Inv(s)
    ensures Inv(Clean(s))
  {
    hide Distinct;
    var r := Clean(s);
    forall t: nat | t < |s.pc| ensures t in s.receivers || t in s.senders <==> s.pc[t].WaitRecv? || s.pc[t].WaitSend? {
      assert t in Receiving(s.pc) <==> s.pc[t].WaitRecv?;
      assert t in Sending(s.pc) <==> s.pc[t].WaitSend?;
    }
    assert Contents(r) == [];
    CleanWaits(s.pc, r.pc);
  }

  lemma CleanWaits(pc: seq<Pc>, after: seq<Pc>)
    requires |after| == |pc|
    requires forall t: nat | t < |pc| :: after[t] == if pc[t].WaitRecv? || pc[t].WaitSend? then Idle else pc[t]
    ensures Waits([], [], after)
  {
  }

  lemma StepKeeps(s: State, e: Event)
    requires Inv(s) && Enabled(s, e)
    ensures Inv(Step(s, e))
  {
    hide Waits, Wakes, Contents, Put, Get, Expire, Clean;
    match e
    case Send(t, v, wait) => PutKeeps(s, t, v, wait);
    case SendAgain(t, wait) => PutKeeps(s, t, s.pc[t].v, wait);
    case Recv(t, wait) => GetKeeps(s, t, wait);
    case RecvAgain(t, wait) => GetKeeps(s, t, wait);
    case Timeout(t) => ExpireKeeps(s, t);
    case Reset => CleanKeeps(s);
    case SetPriority(t, p) => PriorityKeeps(s, t, p);
  }

  lemma PriorityKeeps(s: State, t: nat, p: nat)
    requires Inv(s) && t < |s.priority|
    ensures Inv(s.(priority := s.priority[t := p]))
  {
    hide Waits, Contents;
    SameRing(s, s.(priority := s.priority[t := p]));
  }

  // ----- runs -----

  /** `rt_mb_init`. */
  function Start(flag: Flag, pool: seq<int>, priority: seq<nat>): State {
    State(|pool|, flag, pool, 0, 0, 0, [], [], seq(|priority|, _ => Idle), priority, [], [])
  }

  lemma StartInv(flag: Flag, pool: seq<int>, priority: seq<nat>)
    requires |pool| <= ENTRY_MAX
    ensures Inv(Start(flag, pool, priority))
  {
    var s := Start(flag, pool, priority);
    assert Receiving(s.pc) == {} && Sending(s.pc) == {};
  }

  ghost function Run(s: State, es: seq<Event>): Option<State>
    requires Inv(s)
    decreases |es|
  {
    if es == [] then Some(s)
    else if !Enabled(s, es[0]) then None
    else StepKeeps(s, es[0]); Run(Step(s, es[0]), es[1..])
  }

  lemma {:induction false} RunKeeps(s: State, es: seq<Event>)
    requires Inv(s)
    ensures var r := Run(s, es); r.Some? ==> Inv(r.value)
    decreases |es|
  {
    hide Inv, Step;
    if es != [] && Enabled(s, es[0]) {
      StepKeeps(s, es[0]);
      RunKeeps(Step(s, es[0]), es[1..]);
    }
  }

  lemma {:induction false} RunKeepsSize(s: State, es: seq<Event>)
    requires Inv(s)
    ensures var r := Run(s, es); r.Some? ==> r.value.size == s.size
    decreases |es|
  {
    hide Inv, Step;
    if es != [] && Enabled(s, es[0]) {
      StepKeeps(s, es[0]);
      StepKeepsSize(s, es[0]);
      RunKeepsSize(Step(s, es[0]), es[1..]);
    }
  }

  lemma StepKeepsSize(s: State, e: Event)
    requires Inv(s) && Enabled(s, e)
    ensures Step(s, e).size == s.size
  {
    hide Waits, Wakes, Contents, Join, Without;
  }

  /** When every resumed thread has run, receivers wait only on an empty mailbox, senders only on a full one. */
  lemma NobodyForgotten(s: State)
    requires Inv(s)
    requires forall t :: 0 <= t < |s.pc| ==> !s.pc[t].WokenRecv? && !s.pc[t].WokenSend?
    ensures s.entry > 0 ==> forall t :: 0 <= t < |s.pc| ==> !s.pc[t].WaitRecv?
    ensures s.entry < s.size ==> forall t :: 0 <= t < |s.pc| ==> !s.pc[t].WaitSend?
  {
    hide Contents, Distinct;
    assert WokenReceivers(s.pc) == {} && WokenSenders(s.pc) == {};
    forall t: nat | t < |s.pc| ensures t in Receiving(s.pc) <==> s.pc[t].WaitRecv? {}
    forall t: nat | t < |s.pc| ensures t in Sending(s.pc) <==> s.pc[t].WaitSend? {}
  }
}
