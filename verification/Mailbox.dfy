/**
 The mailbox of ipc.c as a state machine: a ring buffer, with a queue of waiting receivers and
 one of waiting senders. Every event is one critical section; any number of threads interleave.
 */
module Mailbox {
  import opened WaitQueue

  /** `RT_MB_ENTRY_MAX`. */
  const ENTRY_MAX: nat := 0xFFFF

  /** Where a thread stands in `rt_mb_send_wait` or `rt_mb_recv`. */
  datatype Pc = Idle | WaitSend(v: int) | WokenSend(v: int) | WaitRecv | WokenRecv

  /** The mailbox and its threads; `sent` and `received` are the mails since the last reset. */
  datatype State = State(
    size: nat, flag: Flag, pool: seq<int>, entry: nat, inOffset: nat, outOffset: nat,
    receivers: seq<nat>, senders: seq<nat>, pc: seq<Pc>, priority: seq<nat>,
    sent: seq<int>, received: seq<int>)

  datatype Event =
    | Send(t: nat, v: int, wait: bool)
    | SendAgain(t: nat, wait: bool)       // a resumed sender; `wait` is false when its time is up
    | Recv(t: nat, wait: bool)
    | RecvAgain(t: nat, wait: bool)
    | Timeout(t: nat)
    | Reset
    | SetPriority(t: nat, p: nat)

  function WakeReceiver(s: State): State {
    if s.receivers == [] || s.receivers[0] >= |s.pc| then s
    else s.(receivers := s.receivers[1..], pc := s.pc[s.receivers[0] := WokenRecv])
  }

  function WakeSender(s: State): State {
    if s.senders == [] || s.senders[0] >= |s.pc| || !s.pc[s.senders[0]].WaitSend? then s
    else s.(senders := s.senders[1..], pc := s.pc[s.senders[0] := WokenSend(s.pc[s.senders[0]].v)])
  }

  function Next(offset: nat, size: nat): nat { if offset + 1 >= size then 0 else offset + 1 }

  /** A mail into the ring, or waiting for room. */
  function Put(s: State, t: nat, v: int, wait: bool): State
    requires t < |s.pc| == |s.priority| && (s.entry != s.size ==> s.inOffset < |s.pool|)
  {
    if s.entry == s.size then
      if wait then s.(pc := s.pc[t := WaitSend(v)], senders := Join(s.senders, t, s.priority, s.flag))
      else s.(pc := s.pc[t := Idle])
    else
      var stored := s.(pool := s.pool[s.inOffset := v], inOffset := Next(s.inOffset, s.size),
                       pc := s.pc[t := Idle], sent := s.sent + [v]);
      if s.entry < ENTRY_MAX then WakeReceiver(stored.(entry := s.entry + 1)) else stored
  }

  /** A mail out of the ring, or waiting for one. */
  function Get(s: State, t: nat, wait: bool): State
    requires t < |s.pc| == |s.priority| && (s.entry > 0 ==> s.outOffset < |s.pool|)
  {
    if s.entry == 0 then
      if wait then s.(pc := s.pc[t := WaitRecv], receivers := Join(s.receivers, t, s.priority, s.flag))
      else s.(pc := s.pc[t := Idle])
    else
      WakeSender(s.(outOffset := Next(s.outOffset, s.size), entry := s.entry - 1, pc := s.pc[t := Idle],
                    received := s.received + [s.pool[s.outOffset]]))
  }

  function Expire(s: State, t: nat): State
    requires t < |s.pc|
  {
    s.(pc := s.pc[t := Idle], receivers := Without(s.receivers, t), senders := Without(s.senders, t))
  }

  /** `RT_IPC_CMD_RESET`. */
  function Clean(s: State): State {
    s.(receivers := [], senders := [],
       pc := seq(|s.pc|, t requires 0 <= t < |s.pc| => if t in s.receivers || t in s.senders then Idle else s.pc[t]),
       entry := 0, inOffset := 0, outOffset := 0, sent := [], received := [])
  }

  // ----- invariants -----

  ghost function Receiving(pc: seq<Pc>): set<nat> { set t: nat | t < |pc| && pc[t].WaitRecv? }

  ghost function Sending(pc: seq<Pc>): set<nat> { set t: nat | t < |pc| && pc[t].WaitSend? }

  ghost function WokenReceivers(pc: seq<Pc>): set<nat> { set t: nat | t < |pc| && pc[t].WokenRecv? }

  ghost function WokenSenders(pc: seq<Pc>): set<nat> { set t: nat | t < |pc| && pc[t].WokenSend? }

  ghost predicate Waits(receivers: seq<nat>, senders: seq<nat>, pc: seq<Pc>) {
    Holds(receivers, Receiving(pc)) && Holds(senders, Sending(pc))
  }

  /** `a % size`, for offsets at most one turn away. */
  function Wrap(a: nat, size: nat): (r: nat)
    requires a < size + size
    ensures r < size && r == a % size
  {
    if a < size then a else a - size
  }

  /** The offsets and the fill count fit each other. */
  predicate Ring(s: State) {
    && |s.pool| == s.size <= ENTRY_MAX && s.entry <= s.size
    && (s.size > 0 ==> s.outOffset < s.size && s.inOffset == Wrap(s.outOffset + s.entry, s.size))
    && (s.size == 0 ==> s.inOffset == s.outOffset == 0)
  }

  /** The mails in the ring, oldest first. */
  function Contents(s: State): (r: seq<int>)
    requires Ring(s)
    ensures |r| == s.entry
  {
    seq(s.entry, i requires 0 <= i < s.entry => s.pool[Wrap(s.outOffset + i, s.size)])
  }

  /** No wake-up is lost: threads wait only while those already woken can use up what there is. */
  ghost predicate Wakes(s: State) {
    && (s.receivers != [] ==> s.entry <= |WokenReceivers(s.pc)|)
    && (s.senders != [] ==> s.size - s.entry <= |WokenSenders(s.pc)|)
  }

  ghost predicate Inv(s: State) {
    && |s.priority| == |s.pc|
    && Ring(s)
    && s.sent == s.received + Contents(s)
    && Waits(s.receivers, s.senders, s.pc)
    && Wakes(s)
  }

  // ----- events -----

  predicate Enabled(s: State, e: Event) {
    match e
    case Send(t, _, _) => t < |s.pc| && s.pc[t].Idle?
    case SendAgain(t, _) => t < |s.pc| && s.pc[t].WokenSend?
    case Recv(t, _) => t < |s.pc| && s.pc[t].Idle?
    case RecvAgain(t, _) => t < |s.pc| && s.pc[t].WokenRecv?
    case Timeout(t) => t < |s.pc| && (s.pc[t].WaitSend? || s.pc[t].WaitRecv?)
    case Reset => true
    case SetPriority(t, _) => t < |s.priority|
  }

  ghost function Step(s: State, e: Event): State
    requires Inv(s) && Enabled(s, e)
  {
    match e
    case Send(t, v, wait) => Put(s, t, v, wait)
    case SendAgain(t, wait) => Put(s, t, s.pc[t].v, wait)
    case Recv(t, wait) => Get(s, t, wait)
    case RecvAgain(t, wait) => Get(s, t, wait)
    case Timeout(t) => Expire(s, t)
    case Reset => Clean(s)
    case SetPriority(t, p) => s.(priority := s.priority[t := p])
  }
}
