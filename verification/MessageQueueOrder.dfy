/**
 The order of messages, told by the calls alone: which message every thread offered last, what the
 links and the receivers make of a queue, and what the message queue of ipc.c holds and hands out
 after the same calls.
 */
module MessageQueueOrder {
  import opened Wrappers
  import opened WaitQueue
  import opened MessageQueue
  import opened MessageQueueSafety
  import opened MessageQueueRuns

  // ----- what the calls say -----

  /** A message that a thread asked to send, and whether as an urgent one. */
  datatype Offer = Offer(m: string, urgent: bool)

  /** What a thread asked to send last. */
  function Offered(es: seq<Event>, t: nat): Option<Offer> {
    if es == [] then None
    else match es[|es| - 1]
      case Send(u, m, _) => if u == t then Some(Offer(m, false)) else Offered(es[..|es| - 1], t)
      case Urgent(u, m) => if u == t then Some(Offer(m, true)) else Offered(es[..|es| - 1], t)
      case _ => Offered(es[..|es| - 1], t)
  }

  function Rest(q: seq<string>): seq<string> { if q == [] then [] else q[1..] }

  /** An ordinary message goes to the back, an urgent one to the front; receivers take the first one. */
  function Ideal(es: seq<Event>): seq<string> {
    if es == [] then []
    else
      var before, q := es[..|es| - 1], Ideal(es[..|es| - 1]);
      match es[|es| - 1]
      case Link(t) =>
        (match Offered(before, t)
         case None => q
         case Some(o) => if o.urgent then [o.m] + q else q + [o.m])
      case Recv(_, _) => Rest(q)
      case RecvAgain(_, _) => Rest(q)
      case Reset => []
      case _ => q
  }

  /** The message that a thread took last. */
  function Due(es: seq<Event>, t: nat): Option<string> {
    if es == [] then None
    else
      var before, q := es[..|es| - 1], Ideal(es[..|es| - 1]);
      match es[|es| - 1]
      case Recv(u, _) => if u == t && q != [] then Some(q[0]) else Due(before, t)
      case RecvAgain(u, _) => if u == t && q != [] then Some(q[0]) else Due(before, t)
      case _ => Due(before, t)
  }

  /** The bytes that a thread had room for when it copied last. */
  function Room(es: seq<Event>, t: nat): Option<nat> {
    if es == [] then None
    else match es[|es| - 1]
      case Copy(u, size) => if u == t then Some(size) else Room(es[..|es| - 1], t)
      case _ => Room(es[..|es| - 1], t)
  }

  // ----- what the threads have in hand -----

  /** What a thread is about to send is what it offered, and what it receives is what it took. */
  predicate InHand(p: Pc, es: seq<Event>, t: nat) {
    match p
    case WaitSend(m) => Offered(es, t) == Some(Offer(m, false))
    case WokenSend(m) => Offered(es, t) == Some(Offer(m, false))
    case Hold(_, m, urgent) => Offered(es, t) == Some(Offer(m, urgent))
    case Filled(_, m, urgent) => Offered(es, t) == Some(Offer(m, urgent))
    case Taken(_, m) => Due(es, t) == Some(m)
    case Copied(_, m, room, _) => Due(es, t) == Some(m) && Room(es, t) == Some(room)
    case _ => true
  }

  ghost predicate Follows(s: State, es: seq<Event>) {
    s.messages == Ideal(es) && forall t: nat :: t < |s.pc| ==> InHand(s.pc[t], es, t)
  }

  lemma Snoc(es: seq<Event>, e: Event)
    ensures (es + [e])[..|es + [e]| - 1] == es && (es + [e])[|es + [e]| - 1] == e
  {
  }

  /** An event of one thread leaves what the others have in hand. */
  lemma Others(p: Pc, es: seq<Event>, e: Event, t: nat)
    requires InHand(p, es, t)
    requires match e
             case Send(u, _, _) => u != t
             case Urgent(u, _) => u != t
             case Recv(u, _) => u != t || Ideal(es) == []
             case RecvAgain(u, _) => u != t || Ideal(es) == []
             case Copy(u, _) => u != t
             case _ => true
    ensures InHand(p, es + [e], t)
  {
    hide Ideal;
    Snoc(es, e);
  }

  lemma StepFollows(s: State, e: Event, es: seq<Event>)
    requires Inv(s) && Enabled(s, e) && Follows(s, es)
    ensures Follows(Step(s, e), es + [e])
  {
    hide Slots, Waits, Wakes, Blocks, Join, Without, Reverse;
    Snoc(es, e);
    Same(s);
    var r := Step(s, e);
    forall t: nat | t < |r.pc| ensures InHand(r.pc[t], es + [e], t) {
      if r.pc[t] == s.pc[t] && !s.pc[t].Idle? && !s.pc[t].WokenRecv? {
        Others(s.pc[t], es, e, t);
      }
    }
  }

  // ----- runs -----

  lemma {:induction false} RunSnoc(s: State, es: seq<Event>, e: Event)
    requires Inv(s)
    ensures Run(s, es).Some? ==> Inv(Run(s, es).value)
    ensures Run(s, es + [e]) ==
            match Run(s, es)
            case None => None
            case Some(r) => if Enabled(r, e) then Some(Step(r, e)) else None
    decreases |es|
  {
    hide Inv, Step, Enabled;
    RunKeeps(s, es);
    if es == [] {
      assert [e][1..] == [];
      if Enabled(s, e) {
        StepKeeps(s, e);
      }
    } else if Enabled(s, es[0]) {
      StepKeeps(s, es[0]);
      RunSnoc(Step(s, es[0]), es[1..], e);
      assert (es + [e])[1..] == es[1..] + [e];
    }
  }

  lemma {:induction false} RunFollows(max: nat, size: nat, flag: Flag, pool: seq<string>, priority: seq<nat>, es: seq<Event>)
    requires Fresh(max, size, pool) && Inv(Start(max, size, flag, pool, priority))
    ensures var r := Run(Start(max, size, flag, pool, priority), es); r.Some? ==> Inv(r.value) && Follows(r.value, es)
    decreases |es|
  {
    hide Inv, Step, Enabled;
    var s := Start(max, size, flag, pool, priority);
    RunKeeps(s, es);
    if es != [] {
      var before, e := es[..|es| - 1], es[|es| - 1];
      assert es == before + [e];
      RunSnoc(s, before, e);
      RunFollows(max, size, flag, pool, priority, before);
      if Run(s, es).Some? {
        StepFollows(Run(s, before).value, e, before);
      }
    }
  }

  /**
   After any run from `rt_mq_init`: `entry` is the length of the queue, which never exceeds
   `max_msgs`, and the queue holds what the calls say, in that order. A thread that is sending has
   in hand what it offered, and one that is receiving the message that was in front when it came.
   */
  lemma MessagesInOrder(max: nat, size: nat, flag: Flag, pool: seq<string>, priority: seq<nat>, es: seq<Event>)
    requires Fresh(max, size, pool)
    ensures Inv(Start(max, size, flag, pool, priority))
    ensures var r := Run(Start(max, size, flag, pool, priority), es);
            r.Some? ==>
              && Inv(r.value)
              && r.value.entry == |r.value.queue| == |r.value.messages| <= r.value.max
              && r.value.messages == Ideal(es)
              && forall t: nat :: t < |r.value.pc| ==> InHand(r.value.pc[t], es, t)
  {
    hide Slots, Waits, Wakes, Blocks, Step, Run, Ideal, InHand;
    StartInv(max, size, flag, pool, priority);
    RunFollows(max, size, flag, pool, priority, es);
    var r := Run(Start(max, size, flag, pool, priority), es);
    if r.Some? {
      Same(r.value);
      Bounded(r.value);
    }
  }

  // ----- first in, first out -----

  /** The messages that the calls `b` link, after the calls `a`. */
  function Linked(a: seq<Event>, b: seq<Event>): seq<string> {
    if b == [] then []
    else
      var before := b[..|b| - 1];
      Linked(a, before) +
      match b[|b| - 1]
      case Link(t) => (match Offered(a + before, t) case None => [] case Some(o) => [o.m])
      case _ => []
  }

  /** The message that a call of a receiver hands to it, as the state of the thread tells. */
  ghost function Handed(s: State, e: Event): seq<string>
    requires Inv(s) && Enabled(s, e)
  {
    match e
    case Recv(t, _) => InHandOf(Step(s, e).pc, t)
    case RecvAgain(t, _) => InHandOf(Step(s, e).pc, t)
    case _ => []
  }

  function InHandOf(pc: seq<Pc>, t: nat): seq<string> {
    if t < |pc| && pc[t].Taken? then [pc[t].m] else []
  }

  /** The messages that the receivers get in a run. */
  ghost function Received(s: State, es: seq<Event>): seq<string>
    requires Inv(s)
    decreases |es|
  {
    if es == [] || !Enabled(s, es[0]) then []
    else StepKeeps(s, es[0]); Handed(s, es[0]) + Received(Step(s, es[0]), es[1..])
  }

  /** Among the calls `b`, after the calls `a`, is no link of an urgent message and no reset. */
  predicate Plain(a: seq<Event>, b: seq<Event>) {
    b == [] ||
    var before := b[..|b| - 1];
    Plain(a, before) &&
    match b[|b| - 1]
    case Link(t) => (match Offered(a + before, t) case None => true case Some(o) => !o.urgent)
    case Reset => false
    case _ => true
  }

  lemma {:induction false} RunSplits(s: State, a: seq<Event>, b: seq<Event>)
    requires Inv(s) && Run(s, a + b).Some?
    ensures Run(s, a).Some? && Inv(Run(s, a).value) && Run(Run(s, a).value, b) == Run(s, a + b)
    decreases |a|
  {
    hide Inv, Step, Enabled;
    if a == [] {
      assert a + b == b;
    } else {
      assert (a + b)[1..] == a[1..] + b;
      StepKeeps(s, a[0]);
      RunSplits(Step(s, a[0]), a[1..], b);
    }
  }

  lemma {:induction false} ReceivedSnoc(s: State, es: seq<Event>, e: Event)
    requires Inv(s) && Run(s, es + [e]).Some?
    ensures Run(s, es).Some? && Inv(Run(s, es).value) && Enabled(Run(s, es).value, e)
    ensures Received(s, es + [e]) == Received(s, es) + Handed(Run(s, es).value, e)
    decreases |es|
  {
    hide Inv, Step, Enabled, Handed;
    RunSnoc(s, es, e);
    if es == [] {
      assert [e][1..] == [];
      StepKeeps(s, e);
      assert Received(s, [e]) == Handed(s, e) + Received(Step(s, e), []);
    } else {
      assert (es + [e])[1..] == es[1..] + [e];
      StepKeeps(s, es[0]);
      ReceivedSnoc(Step(s, es[0]), es[1..], e);
    }
  }

  /** What one call does to the line of messages. */
  lemma OneInOrder(s: State, e: Event, es: seq<Event>)
    requires Inv(s) && Enabled(s, e) && Follows(s, es)
    requires e.Link? && Offered(es, e.t).Some? ==> !Offered(es, e.t).value.urgent
    requires !e.Reset?
    ensures var more := if e.Link? && Offered(es, e.t).Some? then [Offered(es, e.t).value.m] else [];
            s.messages + more == Handed(s, e) + Step(s, e).messages
  {
    hide Slots, Waits, Wakes, Blocks, Join, Without, Reverse, Ideal;
    Same(s);
    if e.Link? {
      assert InHand(s.pc[e.t], es, e.t);
    }
  }

  lemma {:induction false} LineInOrder(s: State, a: seq<Event>, b: seq<Event>)
    requires Inv(s) && Follows(s, a) && Run(s, b).Some? && Plain(a, b)
    ensures Inv(Run(s, b).value) && Follows(Run(s, b).value, a + b)
    ensures s.messages + Linked(a, b) == Received(s, b) + Run(s, b).value.messages
    decreases |b|
  {
    hide Inv, Step, Enabled, Handed, Follows, Offered, Received;
    if b == [] {
      assert a + b == a;
      assert Received(s, b) == [] by { NoneReceived(s); }
    } else {
      var before, e := b[..|b| - 1], b[|b| - 1];
      assert b == before + [e] && a + b == a + before + [e];
      ReceivedSnoc(s, before, e);
      LineInOrder(s, a, before);
      var r := Run(s, before).value;
      RunSnoc(s, before, e);
      OneInOrder(r, e, a + before);
      StepFollows(r, e, a + before);
      StepKeeps(r, e);
      var more := if e.Link? && Offered(a + before, e.t).Some? then [Offered(a + before, e.t).value.m] else [];
      assert Linked(a, b) == Linked(a, before) + more;
      Regroup(s.messages, Linked(a, before), more, Received(s, before), r.messages, Handed(r, e), Step(r, e).messages);
    }
  }

  lemma NoneReceived(s: State)
    requires Inv(s)
    ensures Received(s, []) == []
  {
  }

  lemma Regroup(q: seq<string>, a: seq<string>, b: seq<string>, c: seq<string>, r: seq<string>, d: seq<string>, q': seq<string>)
    requires q + a == c + r && r + b == d + q'
    ensures q + (a + b) == (c + d) + q'
  {
    assert q + (a + b) == (q + a) + b == c + (r + b);
    assert c + (d + q') == (c + d) + q';
  }

  /**
   First in, first out: in any part of any run in which no urgent message is linked and nothing is
   reset, what was in the queue and then what is linked, in that order, is what the receivers get
   and then what is left in the queue.
   */
  lemma FirstInFirstOut(max: nat, size: nat, flag: Flag, pool: seq<string>, priority: seq<nat>, a: seq<Event>, b: seq<Event>)
    requires Fresh(max, size, pool)
    ensures Inv(Start(max, size, flag, pool, priority))
    ensures var s := Start(max, size, flag, pool, priority);
            Run(s, a + b).Some? && Plain(a, b) ==>
              && Run(s, a).Some? && Inv(Run(s, a).value)
              && Run(s, a).value.messages + Linked(a, b) == Received(Run(s, a).value, b) + Run(s, a + b).value.messages
  {
    hide Inv, Step, Enabled, Received, Linked, Plain, Run;
    var s := Start(max, size, flag, pool, priority);
    StartInv(max, size, flag, pool, priority);
    if Run(s, a + b).Some? && Plain(a, b) {
      RunSplits(s, a, b);
      RunFollows(max, size, flag, pool, priority, a);
      LineInOrder(Run(s, a).value, a, b);
    }
  }

  /** An urgent message overtakes all that was linked before and not yet taken; what is linked later stays behind both. */
  lemma UrgentFirst(max: nat, size: nat, flag: Flag, pool: seq<string>, priority: seq<nat>, a: seq<Event>, t: nat, b: seq<Event>)
    requires Fresh(max, size, pool)
    ensures Inv(Start(max, size, flag, pool, priority))
    ensures var s := Start(max, size, flag, pool, priority);
            var a' := a + [Link(t)];
            Run(s, a' + b).Some? && Plain(a', b) && Offered(a, t).Some? && Offered(a, t).value.urgent ==>
              && Run(s, a).Some? && Run(s, a').Some? && Inv(Run(s, a').value)
              && [Offered(a, t).value.m] + Run(s, a).value.messages + Linked(a', b) ==
                 Received(Run(s, a').value, b) + Run(s, a' + b).value.messages
  {
    hide Inv, Step, Enabled, Received, Linked, Plain, Run;
    var s := Start(max, size, flag, pool, priority);
    var a' := a + [Link(t)];
    FirstInFirstOut(max, size, flag, pool, priority, a', b);
    if Run(s, a' + b).Some? && Plain(a', b) {
      RunSplits(s, a, [Link(t)]);
      RunFollows(max, size, flag, pool, priority, a);
      RunFollows(max, size, flag, pool, priority, a');
      Snoc(a, Link(t));
    }
  }

  // ----- what a receiver gets -----

  /**
   A receiver gets the message that was in front when it came, whatever the other threads did since:
   it copies as much as its buffer and a slot have in common, and the bytes are those of the message
   as it was offered, as far as the message goes.
   */
  lemma Delivered(max: nat, size: nat, flag: Flag, pool: seq<string>, priority: seq<nat>, es: seq<Event>, t: nat)
    requires Fresh(max, size, pool)
    ensures Inv(Start(max, size, flag, pool, priority))
    ensures var r := Run(Start(max, size, flag, pool, priority), es);
            r.Some? && t < |r.value.pc| && r.value.pc[t].Copied? ==>
              && Due(es, t).Some? && Room(es, t).Some?
              && |r.value.pc[t].got| == Min(Room(es, t).value, r.value.size) && Agree(r.value.pc[t].got, Due(es, t).value)
  {
    hide Run, Inv, Due, Room;
    StartInv(max, size, flag, pool, priority);
    RunFollows(max, size, flag, pool, priority, es);
    var r := Run(Start(max, size, flag, pool, priority), es);
    if r.Some? && t < |r.value.pc| && r.value.pc[t].Copied? {
      CopiedAgrees(r.value, t);
      assert InHand(r.value.pc[t], es, t);
    }
  }

  /** Two byte strings agree as far as both go. */
  predicate Agree(a: string, b: string) {
    forall i :: 0 <= i < |a| && i < |b| ==> a[i] == b[i]
  }

  lemma CopiedAgrees(s: State, t: nat)
    requires Inv(s) && t < |s.pc| && s.pc[t].Copied?
    ensures |s.pc[t].got| == Min(s.pc[t].room, s.size) && Agree(s.pc[t].got, s.pc[t].m)
  {
    hide Slots, Waits, Wakes;
    HandIsOk(s, t);
    var m, got := s.pc[t].m, s.pc[t].got;
    if got <= m {
      assert got == m[..|got|];
    } else {
      assert m == got[..|m|];
    }
  }
}
