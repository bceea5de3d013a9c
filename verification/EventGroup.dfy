/**
 The event object of ipc.c: a set of 32 event bits, and threads that wait for all or for any of
 some bits and may clear them when they go on. Every event of the model is one critical section.
 */
module EventGroup {
  import opened WaitQueue

  /** `RT_EVENT_FLAG_AND`, `RT_EVENT_FLAG_OR` and `RT_EVENT_FLAG_CLEAR`. */
  const FLAG_AND: bv8 := 1
  const FLAG_OR: bv8 := 2
  const FLAG_CLEAR: bv8 := 4

  /** A suspended thread with what it waits for. */
  datatype Waiter = Waiter(t: nat, want: bv32, option: bv8)

  /** A thread that goes on: the bits it gets, and the event set at that moment. */
  datatype Grant = Grant(w: Waiter, at: bv32, got: bv32)

  datatype State = State(flag: Flag, bits: bv32, queue: seq<Waiter>, priority: seq<nat>, granted: seq<Grant>)

  datatype Event =
    | Send(bits: bv32)
    | Recv(t: nat, want: bv32, option: bv8, wait: bool)
    | Timeout(t: nat)
    | Reset
    | SetPriority(t: nat, p: nat)

  function And(a: bv32, b: bv32): bv32 { a & b }

  function Or(a: bv32, b: bv32): bv32 { a | b }

  function Minus(a: bv32, b: bv32): bv32 { a & !b }

  predicate Flagged(option: bv8, flag: bv8) { option & flag != 0 }

  predicate All(w: Waiter) { Flagged(w.option, FLAG_AND) }

  predicate Any(w: Waiter) { Flagged(w.option, FLAG_OR) }

  predicate Clears(w: Waiter) { Flagged(w.option, FLAG_CLEAR) }

  /** The condition a thread waits for; the AND flag goes before the OR flag. */
  predicate Met(w: Waiter, bits: bv32) {
    if All(w) then And(w.want, bits) == w.want else Any(w) && And(w.want, bits) != 0
  }

  /** The bits a thread gets when it is resumed by a sender. */
  function Got(w: Waiter, bits: bv32): bv32 {
    if All(w) then w.want else And(w.want, bits)
  }

  /** The event set that is left when a resumed thread has got its bits. */
  function Left(w: Waiter, bits: bv32): bv32 {
    if Clears(w) then Minus(bits, Got(w, bits)) else bits
  }

  /** The walk over the suspended threads: what is left of the event set and of the queue, and who goes on. */
  datatype Walk = Walk(bits: bv32, rest: seq<Waiter>, grants: seq<Grant>)

  function WalkFrom(bits: bv32, queue: seq<Waiter>): (r: Walk)
    ensures |r.rest| + |r.grants| == |queue|
  {
    if queue == [] then Walk(bits, [], [])
    else
      var w := queue[0];
      if Met(w, bits) then
        var r := WalkFrom(Left(w, bits), queue[1..]);
        r.(grants := [Grant(w, bits, Got(w, bits))] + r.grants)
      else
        var r := WalkFrom(bits, queue[1..]);
        r.(rest := [w] + r.rest)
  }

  /** `rt_event_send` of a set that is not empty. */
  function DoSend(s: State, bits: bv32): State {
    var r := WalkFrom(Or(s.bits, bits), s.queue);
    s.(bits := r.bits, queue := r.rest, granted := s.granted + r.grants)
  }

  /** `rt_event_recv` of a set that is not empty; all wanted bits are cleared here, also with the OR flag. */
  function DoRecv(s: State, w: Waiter, wait: bool): State
    requires w.t < |s.priority|
  {
    if Met(w, s.bits) then
      s.(bits := if Clears(w) then Minus(s.bits, w.want) else s.bits,
         granted := s.granted + [Grant(w, s.bits, And(s.bits, w.want))])
    else if wait then
      s.(queue := Insert(s.queue, Place(Ranks(s.queue, s.priority), s.priority[w.t], s.flag), w))
    else s
  }

  function Ranks(queue: seq<Waiter>, priority: seq<nat>): (r: seq<nat>)
    ensures |r| == |queue|
  {
    seq(|queue|, i requires 0 <= i < |queue| => if queue[i].t < |priority| then priority[queue[i].t] else 0)
  }

  function Expire(queue: seq<Waiter>, t: nat): seq<Waiter> {
    if queue == [] then [] else if queue[0].t == t then queue[1..] else [queue[0]] + Expire(queue[1..], t)
  }

  // ----- invariants -----

  predicate Suspended(s: State, t: nat) { exists i :: 0 <= i < |s.queue| && s.queue[i].t == t }

  /** Nobody sleeps over a condition that holds. */
  predicate AllUnmet(queue: seq<Waiter>, bits: bv32) {
    forall i :: 0 <= i < |queue| ==> !Met(queue[i], bits)
  }

  /** A thread went on with its condition met, and got what it asked for. */
  predicate Earned(g: Grant) {
    && Met(g.w, g.at)
    && g.got == And(g.at, g.w.want)
    && (All(g.w) ==> g.got == g.w.want)
    && (!All(g.w) ==> g.got != 0)
  }

  predicate Inv(s: State) {
    && AllUnmet(s.queue, s.bits)
    && (forall i :: 0 <= i < |s.queue| ==> (All(s.queue[i]) || Any(s.queue[i])) && s.queue[i].want != 0)
    && (forall i, j :: 0 <= i < j < |s.queue| ==> s.queue[i].t != s.queue[j].t)
    && (forall i :: 0 <= i < |s.granted| ==> Earned(s.granted[i]))
  }

  /** The flags are asserted by `rt_event_recv`; an empty set is refused by both functions. */
  predicate Enabled(s: State, e: Event) {
    match e
    case Send(bits) => bits != 0
    case Recv(t, want, option, _) =>
      t < |s.priority| && !Suspended(s, t) && want != 0 && (Flagged(option, FLAG_AND) || Flagged(option, FLAG_OR))
    case Timeout(t) => Suspended(s, t)
    case Reset => true
    case SetPriority(t, _) => t < |s.priority|
  }

  function Step(s: State, e: Event): State
    requires Enabled(s, e)
  {
    match e
    case Send(bits) => DoSend(s, bits)
    case Recv(t, want, option, wait) => DoRecv(s, Waiter(t, want, option), wait)
    case Timeout(t) => s.(queue := Expire(s.queue, t))
    case Reset => s.(queue := [], bits := 0)
    case SetPriority(t, p) => s.(priority := s.priority[t := p])
  }
}
