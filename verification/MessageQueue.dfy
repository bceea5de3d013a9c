/**
 The message queue of ipc.c as a state machine. Every event is one stretch of code that runs
 without interruption: a critical section, or the copying that a thread does between two of
 them on a slot that is in its hands. Any number of threads interleave their events freely.
 */
module MessageQueue {
  import opened WaitQueue

  /** `RT_MQ_ENTRY_MAX`. */
  const ENTRY_MAX: nat := 0xFFFF

  /** Where a thread stands in `rt_mq_send_wait`, `rt_mq_urgent` or `rt_mq_recv`. */
  datatype Pc =
    | Idle
    | WaitSend(m: string)                                // suspended, the queue being full
    | WokenSend(m: string)                               // resumed, about to look again
    | Hold(slot: nat, m: string, urgent: bool)           // has a free slot, not filled yet
    | Filled(slot: nat, m: string, urgent: bool)         // has copied the message into the slot
    | WaitRecv
    | WokenRecv
    | Taken(slot: nat, m: string)                        // has unlinked the slot of message `m`
    | Copied(slot: nat, m: string, room: nat, got: string)  // has copied `got` into a buffer of `room` bytes

  /**
   The queue object and its threads. `queue` holds the linked slots, `messages` what was sent in
   them, `payload` the bytes of every slot.
   */
  datatype State = State(
    max: nat, size: nat, flag: Flag,
    free: seq<nat>, queue: seq<nat>, messages: seq<string>, entry: nat, payload: seq<string>,
    receivers: seq<nat>, senders: seq<nat>, pc: seq<Pc>, priority: seq<nat>)

  datatype Event =
    | Send(t: nat, m: string, wait: bool)     // up to the first time a slot is found or missing
    | Urgent(t: nat, m: string)
    | SendAgain(t: nat, wait: bool)           // a resumed sender; `wait` is false when its time is up
    | Fill(t: nat)
    | Link(t: nat)
    | Recv(t: nat, wait: bool)
    | RecvAgain(t: nat, wait: bool)
    | Copy(t: nat, size: nat)
    | Release(t: nat)
    | Timeout(t: nat)
    | Reset
    | SetPriority(t: nat, p: nat)

  // ----- waiting and waking -----

  function WakeReceiver(s: State): State {
    if s.receivers == [] || s.receivers[0] >= |s.pc| then s
    else s.(receivers := s.receivers[1..], pc := s.pc[s.receivers[0] := WokenRecv])
  }

  function WakeSender(s: State): State {
    if s.senders == [] || s.senders[0] >= |s.pc| || !s.pc[s.senders[0]].WaitSend? then s
    else s.(senders := s.senders[1..], pc := s.pc[s.senders[0] := WokenSend(s.pc[s.senders[0]].m)])
  }

  // ----- the critical sections -----

  /** Taking a free slot, or waiting for one. */
  function TakeSlot(s: State, t: nat, m: string, urgent: bool, wait: bool): State
    requires t < |s.pc| == |s.priority|
  {
    if s.free != [] then s.(free := s.free[1..], pc := s.pc[t := Hold(s.free[0], m, urgent)])
    else if wait then s.(pc := s.pc[t := WaitSend(m)], senders := Join(s.senders, t, s.priority, s.flag))
    else s.(pc := s.pc[t := Idle])
  }

  /** Copying the message into the slot; bytes behind it stay what they were. */
  function FillSlot(s: State, t: nat): State
    requires t < |s.pc| && s.pc[t].Hold? && s.pc[t].slot < |s.payload| && |s.pc[t].m| <= |s.payload[s.pc[t].slot]|
  {
    var h := s.pc[t];
    s.(payload := s.payload[h.slot := h.m + s.payload[h.slot][|h.m|..]], pc := s.pc[t := Filled(h.slot, h.m, h.urgent)])
  }

  /** Linking a filled slot at the back, or an urgent one at the front, and waking a receiver. */
  function LinkSlot(s: State, t: nat): State
    requires t < |s.pc| && s.pc[t].Filled?
  {
    var f := s.pc[t];
    var linked :=
      if f.urgent then
        s.(queue := [f.slot] + s.queue, messages := [f.m] + s.messages, pc := s.pc[t := Idle])
      else
        s.(queue := s.queue + [f.slot], messages := s.messages + [f.m], pc := s.pc[t := Idle]);
    if s.entry < ENTRY_MAX then WakeReceiver(linked.(entry := s.entry + 1)) else linked
  }

  /** Unlinking the first slot, or waiting for a message. */
  function TakeMessage(s: State, t: nat, wait: bool): State
    requires t < |s.pc| == |s.priority| && (s.entry > 0 ==> s.queue != [] && s.messages != [])
  {
    if s.entry > 0 then
      s.(queue := s.queue[1..], messages := s.messages[1..], entry := s.entry - 1,
         pc := s.pc[t := Taken(s.queue[0], s.messages[0])])
    else if wait then s.(pc := s.pc[t := WaitRecv], receivers := Join(s.receivers, t, s.priority, s.flag))
    else s.(pc := s.pc[t := Idle])
  }

  function Min(a: nat, b: nat): nat { if a < b then a else b }

  /** Copying at most a slot's worth of bytes out of the slot. */
  function CopyOut(s: State, t: nat, size: nat): State
    requires t < |s.pc| && s.pc[t].Taken? && s.pc[t].slot < |s.payload|
  {
    var h := s.pc[t];
    var block := s.payload[h.slot];
    s.(pc := s.pc[t := Copied(h.slot, h.m, size, block[..Min(size, |block|)])])
  }

  /** Giving the slot back and waking a sender. */
  function ReleaseSlot(s: State, t: nat): State
    requires t < |s.pc| && s.pc[t].Copied?
  {
    WakeSender(s.(free := [s.pc[t].slot] + s.free, pc := s.pc[t := Idle]))
  }

  /** A waiting thread whose time is up leaves its queue. */
  function Expire(s: State, t: nat): State
    requires t < |s.pc|
  {
    s.(pc := s.pc[t := Idle], receivers := Without(s.receivers, t), senders := Without(s.senders, t))
  }

  function Reverse(q: seq<nat>): (r: seq<nat>)
    ensures |r| == |q|
  {
    if q == [] then [] else Reverse(q[1..]) + [q[0]]
  }

  /** `RT_IPC_CMD_RESET`: all waiting threads give up, all messages are dropped. */
  function Clean(s: State): State {
    s.(receivers := [], senders := [],
       pc := seq(|s.pc|, t requires 0 <= t < |s.pc| => if t in s.receivers || t in s.senders then Idle else s.pc[t]),
       free := Reverse(s.queue) + s.free, queue := [], messages := [], entry := 0)
  }

  // ----- invariants -----

  /** The slot in a thread's hands, or -1. */
  function Hand(p: Pc): (k: int)
    ensures k >= -1
  {
    match p
    case Hold(k, _, _) => k
    case Filled(k, _, _) => k
    case Taken(k, _) => k
    case Copied(k, _, _, _) => k
    case _ => -1
  }

  ghost function Holders(pc: seq<Pc>): set<nat> { set t: nat | t < |pc| && Hand(pc[t]) >= 0 }

  /** No slot is in two places. */
  ghost predicate Apart(max: nat, free: seq<nat>, queue: seq<nat>, pc: seq<Pc>) {
    && Distinct(free) && Distinct(queue)
    && (forall i :: 0 <= i < |free| ==> free[i] < max)
    && (forall i :: 0 <= i < |queue| ==> queue[i] < max)
    && (forall t :: 0 <= t < |pc| ==> Hand(pc[t]) < max)
    && (forall i, j :: 0 <= i < |free| && 0 <= j < |queue| ==> free[i] != queue[j])
    && (forall i, t :: 0 <= i < |free| && 0 <= t < |pc| ==> free[i] != Hand(pc[t]))
    && (forall i, t :: 0 <= i < |queue| && 0 <= t < |pc| ==> queue[i] != Hand(pc[t]))
    && (forall t, u :: 0 <= t < u < |pc| && Hand(pc[t]) >= 0 ==> Hand(pc[t]) != Hand(pc[u]))
  }

  /** No slot is in two places, and no slot is missing. */
  ghost predicate Slots(max: nat, free: seq<nat>, queue: seq<nat>, pc: seq<Pc>) {
    Apart(max, free, queue, pc) && |free| + |queue| + |Holders(pc)| == max
  }

  /** What a thread may count on about the slot in its hands. */
  ghost predicate HandOk(p: Pc, size: nat, payload: seq<string>) {
    match p
    case WaitSend(m) => |m| <= size
    case WokenSend(m) => |m| <= size
    case Hold(k, m, _) => k < |payload| && |m| <= size
    case Filled(k, m, _) => k < |payload| && m <= payload[k]
    case Taken(k, m) => k < |payload| && m <= payload[k]
    case Copied(k, m, room, got) => |got| == Min(room, size) && (got <= m || m <= got)
    case _ => true
  }

  /** Every slot still holds what was put into it. */
  ghost predicate Blocks(max: nat, size: nat, queue: seq<nat>, messages: seq<string>, payload: seq<string>, pc: seq<Pc>) {
    && |payload| == max && |messages| == |queue|
    && (forall k :: 0 <= k < |payload| ==> |payload[k]| == size)
    && (forall i :: 0 <= i < |queue| ==> queue[i] < |payload| && messages[i] <= payload[queue[i]])
    && (forall t :: 0 <= t < |pc| ==> HandOk(pc[t], size, payload))
  }

  ghost function Receiving(pc: seq<Pc>): set<nat> { set t: nat | t < |pc| && pc[t].WaitRecv? }

  ghost function Sending(pc: seq<Pc>): set<nat> { set t: nat | t < |pc| && pc[t].WaitSend? }

  ghost function WokenReceivers(pc: seq<Pc>): set<nat> { set t: nat | t < |pc| && pc[t].WokenRecv? }

  ghost function WokenSenders(pc: seq<Pc>): set<nat> { set t: nat | t < |pc| && pc[t].WokenSend? }

  /** The wait queues hold exactly the suspended threads, each once. */
  ghost predicate Waits(receivers: seq<nat>, senders: seq<nat>, pc: seq<Pc>) {
    Holds(receivers, Receiving(pc)) && Holds(senders, Sending(pc))
  }

  /** No wake-up is lost: threads wait only while those already woken can use up what there is. */
  ghost predicate Wakes(s: State) {
    && (s.receivers != [] ==> s.entry <= |WokenReceivers(s.pc)|)
    && (s.senders != [] ==> |s.free| <= |WokenSenders(s.pc)|)
  }

  ghost predicate Inv(s: State) {
    && s.max <= ENTRY_MAX && |s.priority| == |s.pc|
    && s.entry == |s.queue|
    && Slots(s.max, s.free, s.queue, s.pc)
    && Blocks(s.max, s.size, s.queue, s.messages, s.payload, s.pc)
    && Waits(s.receivers, s.senders, s.pc)
    && Wakes(s)
  }

  // ----- events -----

  predicate Enabled(s: State, e: Event) {
    match e
    case Send(t, m, _) => t < |s.pc| && s.pc[t].Idle? && m != ""
    case Urgent(t, m) => t < |s.pc| && s.pc[t].Idle? && m != ""
    case SendAgain(t, _) => t < |s.pc| && s.pc[t].WokenSend?
    case Fill(t) => t < |s.pc| && s.pc[t].Hold?
    case Link(t) => t < |s.pc| && s.pc[t].Filled?
    case Recv(t, _) => t < |s.pc| && s.pc[t].Idle?
    case RecvAgain(t, _) => t < |s.pc| && s.pc[t].WokenRecv?
    case Copy(t, size) => t < |s.pc| && s.pc[t].Taken? && size > 0
    case Release(t) => t < |s.pc| && s.pc[t].Copied?
    case Timeout(t) => t < |s.pc| && (s.pc[t].WaitSend? || s.pc[t].WaitRecv?)
    case Reset => true
    case SetPriority(t, _) => t < |s.priority|
  }

  ghost function Step(s: State, e: Event): State
    requires Inv(s) && Enabled(s, e)
  {
    match e
    case Send(t, m, wait) => if |m| > s.size then s else TakeSlot(s, t, m, false, wait)
    case Urgent(t, m) => if |m| > s.size then s else TakeSlot(s, t, m, true, false)
    case SendAgain(t, wait) => TakeSlot(s, t, s.pc[t].m, false, wait)
    case Fill(t) => assert HandOk(s.pc[t], s.size, s.payload); FillSlot(s, t)
    case Link(t) => LinkSlot(s, t)
    case Recv(t, wait) => TakeMessage(s, t, wait)
    case RecvAgain(t, wait) => TakeMessage(s, t, wait)
    case Copy(t, size) => assert HandOk(s.pc[t], s.size, s.payload); CopyOut(s, t, size)
    case Release(t) => ReleaseSlot(s, t)
    case Timeout(t) => Expire(s, t)
    case Reset => Clean(s)
    case SetPriority(t, p) => s.(priority := s.priority[t := p])
  }
}
