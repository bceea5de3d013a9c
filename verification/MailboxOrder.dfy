/** The order of mails, told by the calls alone, and what each call on a mailbox comes to. */
module MailboxOrder {
  import opened Wrappers
  import opened WaitQueue
  import opened Mailbox
  import opened MailboxRuns

  // ----- what a call comes to -----

  lemma Counted(s: State)
    requires Inv(s)
    ensures |s.priority| == |s.pc| && Ring(s) && s.sent == s.received + Contents(s) && Waits(s.receivers, s.senders, s.pc)
    ensures s.entry != s.size ==> s.inOffset < |s.pool|
    ensures s.entry > 0 ==> s.outOffset < |s.pool|
  {
    hide Waits, Wakes, Contents;
  }

  lemma Longer(p: seq<int>, a: seq<int>, v: int, b: seq<int>)
    requires (p + a) + [v] == p + b
    ensures b == a + [v]
  {
    assert (p + a) + [v] == p + (a + [v]);
    assert (p + b)[|p|..] == b && (p + (a + [v]))[|p|..] == a + [v];
  }

  lemma Shorter(p: seq<int>, a: seq<int>, v: int, b: seq<int>)
    requires p + a == (p + [v]) + b
    ensures a == [v] + b
  {
    assert (p + [v]) + b == p + ([v] + b);
    assert (p + a)[|p|..] == a && (p + ([v] + b))[|p|..] == [v] + b;
  }

  /**
   A sender stores its mail behind the others and wakes the first receiver, and nobody else; on a full
   mailbox it waits in the queue of senders, at the place that the flag gives it, or gives up.
   */
  lemma SendOutcome(s: State, e: Event)
    requires Inv(s) && Enabled(s, e) && (e.Send? || e.SendAgain?)
    ensures |s.priority| == |s.pc| && Inv(Step(s, e))
    ensures var r, t := Step(s, e), e.t;
            var v := if e.Send? then e.v else s.pc[t].v;
            if s.entry < s.size then
              && r.sent == s.sent + [v] && r.received == s.received && Contents(r) == Contents(s) + [v]
              && r.senders == s.senders
              && if s.receivers == [] then r.pc == s.pc[t := Idle] && r.receivers == []
                 else
                   var w := s.receivers[0];
                   && w < |s.pc| && s.pc[w].WaitRecv? && r.pc == s.pc[t := Idle][w := WokenRecv]
                   && r.receivers == s.receivers[1..]
            else if e.wait then
              && r.pc == s.pc[t := WaitSend(v)] && r.receivers == s.receivers && Contents(r) == Contents(s)
              && r.sent == s.sent && r.received == s.received
              && exists k: nat :: Stands(s.senders, r.senders, t, k, s.priority, s.flag)
            else r == s.(pc := s.pc[t := Idle]) && Contents(r) == Contents(s)
  {
    hide Waits, Wakes, Contents, Join;
    StepKeeps(s, e);
    var r, t := Step(s, e), e.t;
    var v := if e.Send? then e.v else s.pc[t].v;
    Counted(s);
    Counted(r);
    if s.entry < s.size {
      if s.receivers != [] {
        WaitsWakeReceiver(s.receivers, s.senders, s.pc);
      }
      Longer(s.received, Contents(s), v, Contents(r));
    } else {
      SameRing(s, r);
      JoinStands(s.senders, t, s.priority, s.flag);
    }
  }

  /**
   A receiver takes the oldest mail and wakes the first sender, and nobody else; on an empty mailbox it
   waits in the queue of receivers, at the place that the flag gives it, or gives up.
   */
  lemma RecvOutcome(s: State, e: Event)
    requires Inv(s) && Enabled(s, e) && (e.Recv? || e.RecvAgain?)
    ensures |s.priority| == |s.pc| && Inv(Step(s, e))
    ensures var r, t := Step(s, e), e.t;
            if s.entry > 0 then
              && r.received == s.received + [Contents(s)[0]] && r.sent == s.sent && Contents(s) == [Contents(s)[0]] + Contents(r)
              && r.receivers == s.receivers
              && if s.senders == [] then r.pc == s.pc[t := Idle] && r.senders == []
                 else
                   var w := s.senders[0];
                   && w < |s.pc| && s.pc[w].WaitSend? && r.pc == s.pc[t := Idle][w := WokenSend(s.pc[w].v)]
                   && r.senders == s.senders[1..]
            else if e.wait then
              && r.pc == s.pc[t := WaitRecv] && r.senders == s.senders && Contents(r) == Contents(s)
              && r.sent == s.sent && r.received == s.received
              && exists k: nat :: Stands(s.receivers, r.receivers, t, k, s.priority, s.flag)
            else r == s.(pc := s.pc[t := Idle]) && Contents(r) == Contents(s)
  {
    hide Waits, Wakes, Contents, Join;
    StepKeeps(s, e);
    var r, t := Step(s, e), e.t;
    Counted(s);
    Counted(r);
    if s.entry > 0 {
      ContentsAt(s, 0);
      if s.senders != [] {
        WaitsWakeSender(s.receivers, s.senders, s.pc);
      }
      Shorter(s.received, Contents(s), Contents(s)[0], Contents(r));
    } else {
      SameRing(s, r);
      JoinStands(s.receivers, t, s.priority, s.flag);
    }
  }

  /** A thread whose time is up leaves the queue in which it waits, the others keeping their order. */
  lemma TimeoutOutcome(s: State, t: nat)
    requires Inv(s) && Enabled(s, Timeout(t))
    ensures Inv(Step(s, Timeout(t)))
    ensures var r := Step(s, Timeout(t));
            && r.pc == s.pc[t := Idle] && Contents(r) == Contents(s) && r.sent == s.sent && r.received == s.received
            && t !in r.receivers && t !in r.senders
            && (s.pc[t].WaitRecv? ==> r.senders == s.senders && exists k: nat :: Leaves(s.receivers, r.receivers, t, k))
            && (s.pc[t].WaitSend? ==> r.receivers == s.receivers && exists k: nat :: Leaves(s.senders, r.senders, t, k))
  {
    hide Waits, Wakes, Contents, Without;
    StepKeeps(s, Timeout(t));
    var r := Step(s, Timeout(t));
    Counted(s);
    Counted(r);
    SameRing(s, r);
    InOneQueue(s.receivers, s.senders, s.pc, t);
    InOneQueue(r.receivers, r.senders, r.pc, t);
    if s.pc[t].WaitRecv? {
      var k := WithoutLeaves(s.receivers, t);
      WithoutStranger(s.senders, t);
    } else {
      var k := WithoutLeaves(s.senders, t);
      WithoutStranger(s.receivers, t);
    }
  }

  lemma InOneQueue(receivers: seq<nat>, senders: seq<nat>, pc: seq<Pc>, t: nat)
    requires Waits(receivers, senders, pc) && t < |pc|
    ensures pc[t].WaitRecv? <==> t in receivers
    ensures pc[t].WaitSend? <==> t in senders
  {
    hide Distinct;
    assert t in Receiving(pc) <==> pc[t].WaitRecv?;
    assert t in Sending(pc) <==> pc[t].WaitSend?;
  }

  /** A reset leaves an empty ring with both offsets at its start, and sends all waiting threads away. */
  lemma ResetOutcome(s: State)
    requires Inv(s)
    ensures Inv(Step(s, Reset))
    ensures var r := Step(s, Reset);
            && Contents(r) == [] && r.sent == [] && r.received == [] && r.inOffset == r.outOffset == 0
            && r.receivers == [] && r.senders == [] && |r.pc| == |s.pc|
            && forall t: nat :: t < |s.pc| ==> r.pc[t] == if s.pc[t].WaitRecv? || s.pc[t].WaitSend? then Idle else s.pc[t]
  {
    hide Waits, Wakes, Contents;
    StepKeeps(s, Reset);
    var r := Step(s, Reset);
    Counted(s);
    Counted(r);
    forall t: nat | t < |s.pc| ensures r.pc[t] == if s.pc[t].WaitRecv? || s.pc[t].WaitSend? then Idle else s.pc[t] {
      InOneQueue(s.receivers, s.senders, s.pc, t);
    }
  }

  /** A new priority moves no mail, and no waiting thread to another place. */
  lemma PriorityOutcome(s: State, t: nat, p: nat)
    requires Inv(s) && t < |s.priority|
    ensures var r := Step(s, SetPriority(t, p));
            Inv(r) && Contents(r) == Contents(s) && r == s.(priority := s.priority[t := p])
  {
    hide Waits, Wakes, Contents;
    StepKeeps(s, SetPriority(t, p));
    SameRing(s, Step(s, SetPriority(t, p)));
  }

  // ----- what the calls say -----

  /** The mail that a thread asked to send last. */
  function Offered(es: seq<Event>, t: nat): Option<int> {
    if es == [] then None
    else match es[|es| - 1]
      case Send(u, v, _) => if u == t then Some(v) else Offered(es[..|es| - 1], t)
      case _ => Offered(es[..|es| - 1], t)
  }

  /** A bounded queue, and the mails put into it and taken out of it since the last reset. */
  datatype Line = Line(queue: seq<int>, put: seq<int>, got: seq<int>)

  function PutIn(l: Line, v: int, size: nat): Line {
    if |l.queue| < size then Line(l.queue + [v], l.put + [v], l.got) else l
  }

  function TakeOut(l: Line): Line {
    if l.queue == [] then l else Line(l.queue[1..], l.put, l.got + [l.queue[0]])
  }

  /** What the calls make of a queue of at most `size` mails, first in, first out. */
  function Ideal(size: nat, es: seq<Event>): Line {
    if es == [] then Line([], [], [])
    else
      var before, l := es[..|es| - 1], Ideal(size, es[..|es| - 1]);
      match es[|es| - 1]
      case Send(_, v, _) => PutIn(l, v, size)
      case SendAgain(t, _) => (match Offered(before, t) case None => l case Some(v) => PutIn(l, v, size))
      case Recv(_, _) => TakeOut(l)
      case RecvAgain(_, _) => TakeOut(l)
      case Reset => Line([], [], [])
      case _ => l
  }

  /** A waiting sender still has the mail that it offered. */
  predicate InHand(p: Pc, es: seq<Event>, t: nat) {
    match p
    case WaitSend(v) => Offered(es, t) == Some(v)
    case WokenSend(v) => Offered(es, t) == Some(v)
    case _ => true
  }

  ghost predicate Follows(s: State, es: seq<Event>)
    requires Inv(s)
  {
    && Ideal(s.size, es) == Line(Contents(s), s.sent, s.received)
    && forall t: nat :: t < |s.pc| ==> InHand(s.pc[t], es, t)
  }

  lemma Snoc(es: seq<Event>, e: Event)
    ensures (es + [e])[..|es + [e]| - 1] == es && (es + [e])[|es + [e]| - 1] == e
  {
  }

  lemma Others(p: Pc, es: seq<Event>, e: Event, t: nat)
    requires InHand(p, es, t) && !(e.Send? && e.t == t)
    ensures InHand(p, es + [e], t)
  {
    Snoc(es, e);
  }

  lemma LineFollows(s: State, e: Event, es: seq<Event>)
    requires Inv(s) && Enabled(s, e) && Follows(s, es)
    ensures Inv(Step(s, e))
    ensures var r := Step(s, e); Ideal(s.size, es + [e]) == Line(Contents(r), r.sent, r.received)
  {
    hide Contents, Waits, Wakes, Step, Ring, Stands, Offered, Inv;
    Snoc(es, e);
    StepKeeps(s, e);
    Counted(s);
    Filled(s);
    match e
    case Send(t, v, wait) => SendOutcome(s, e);
    case SendAgain(t, wait) => assert InHand(s.pc[t], es, t); SendOutcome(s, e);
    case Recv(t, wait) => RecvOutcome(s, e);
    case RecvAgain(t, wait) => RecvOutcome(s, e);
    case Timeout(t) => TimeoutOutcome(s, t);
    case Reset => ResetOutcome(s);
    case SetPriority(t, p) => PriorityOutcome(s, t, p);
  }

  lemma Filled(s: State)
    requires Inv(s)
    ensures |Contents(s)| == s.entry <= s.size
  {
    hide Waits, Wakes;
  }

  lemma StepFollows(s: State, e: Event, es: seq<Event>)
    requires Inv(s) && Enabled(s, e) && Follows(s, es)
    ensures Inv(Step(s, e)) && Step(s, e).size == s.size && Follows(Step(s, e), es + [e])
  {
    hide Holds, Join, Without, WokenReceivers, WokenSenders, Receiving, Sending, Contents;
    Snoc(es, e);
    StepKeeps(s, e);
    StepKeepsSize(s, e);
    var r := Step(s, e);
    LineFollows(s, e, es);
    forall t: nat | t < |r.pc| ensures InHand(r.pc[t], es + [e], t) {
      if r.pc[t] == s.pc[t] && (s.pc[t].WaitSend? || s.pc[t].WokenSend?) {
        Others(s.pc[t], es, e, t);
      }
    }
  }

  // ----- runs -----

  lemma {:induction false} RunSnoc(s: State, es: seq<Event>, e: Event)
    requires Inv(s)
    ensures Run(s, es).Some? ==> Inv(Run(s, es).value)
    ensures Run(s, es + [e]) ==
            match Run(s, es)
            case None => None
            case Some(r) => if Enabled(r, e) then Some(Step(r, e)) else None
    decreases |es|
  {
    hide Inv, Step, Enabled;
    RunKeeps(s, es);
    if es == [] {
      assert [e][1..] == [];
      if Enabled(s, e) {
        StepKeeps(s, e);
      }
    } else if Enabled(s, es[0]) {
      StepKeeps(s, es[0]);
      RunSnoc(Step(s, es[0]), es[1..], e);
      assert (es + [e])[1..] == es[1..] + [e];
    }
  }

  lemma {:induction false} RunFollows(flag: Flag, pool: seq<int>, priority: seq<nat>, es: seq<Event>)
    requires |pool| <= ENTRY_MAX && Inv(Start(flag, pool, priority))
    ensures var r := Run(Start(flag, pool, priority), es);
            r.Some? ==> Inv(r.value) && r.value.size == |pool| && Follows(r.value, es)
    decreases |es|
  {
    hide Inv, Step, Enabled, Contents;
    var s := Start(flag, pool, priority);
    RunKeeps(s, es);
    if es == [] {
      Counted(s);
      Filled(s);
    } else {
      var before, e := es[..|es| - 1], es[|es| - 1];
      assert es == before + [e];
      RunSnoc(s, before, e);
      RunFollows(flag, pool, priority, before);
      if Run(s, es).Some? {
        StepFollows(Run(s, before).value, e, before);
      }
    }
  }

  /**
   After any run from `rt_mb_init`, the mailbox is the bounded queue that the calls describe: it holds
   the mails not yet received, oldest first, those received since the last reset are a prefix of those
   sent, and `in_offset == (out_offset + entry) % size`.
   */
  lemma MailsInOrder(flag: Flag, pool: seq<int>, priority: seq<nat>, es: seq<Event>)
    requires |pool| <= ENTRY_MAX
    ensures Inv(Start(flag, pool, priority))
    ensures var r := Run(Start(flag, pool, priority), es);
            r.Some? ==>
              && Inv(r.value) && r.value.size == |pool|
              && Ideal(|pool|, es) == Line(Contents(r.value), r.value.sent, r.value.received)
              && r.value.received <= r.value.sent
              && |r.value.sent| - |r.value.received| == r.value.entry <= r.value.size
              && (r.value.size > 0 ==> r.value.inOffset == (r.value.outOffset + r.value.entry) % r.value.size)
  {
    hide Waits, Wakes, Step, Contents, Run, Ideal;
    StartInv(flag, pool, priority);
    RunFollows(flag, pool, priority, es);
  }
}
