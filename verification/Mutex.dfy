/**
 The mutex of ipc.c with priority inheritance, as a state machine. Every event is one critical
 section. Threads are numbered; a lower priority number is more urgent.
 */
module Mutex {
  import opened WaitQueue

  /** `RT_MUTEX_HOLD_MAX` and `RT_MUTEX_VALUE_MAX`. */
  const HOLD_MAX: nat := 0xFF
  const VALUE_MAX: nat := 0xFFFF

  /** No owner; no recorded priority. */
  const NOBODY: int := -1
  const NO_PRIORITY: nat := 0xFF

  /**
   The mutex, the queue of suspended threads, the current priority of every thread, and how often
   each thread took and released the mutex with success.
   */
  datatype State = State(
    flag: Flag, value: nat, owner: int, original: nat, hold: nat, queue: seq<nat>, priority: seq<nat>,
    takes: seq<nat>, releases: seq<nat>)

  datatype Event = Take(t: nat, wait: bool) | Release(t: nat) | Timeout(t: nat)

  function Taken(s: State, t: nat): State
    requires t < |s.takes|
  {
    s.(takes := s.takes[t := s.takes[t] + 1])
  }

  /** `rt_mutex_take` up to where it returns or gives up the processor. */
  function DoTake(s: State, t: nat, wait: bool): State
    requires t < |s.priority| == |s.takes| && s.owner < |s.priority| && (s.value == 0 ==> s.owner >= 0)
  {
    if s.owner == t then
      if s.hold < HOLD_MAX then Taken(s.(hold := s.hold + 1), t) else s
    else if s.value > 0 then
      var own := s.(value := s.value - 1, owner := t, original := s.priority[t]);
      if s.hold < HOLD_MAX then Taken(own.(hold := s.hold + 1), t) else own
    else if !wait then s
    else
      var priority :=
        if s.priority[t] < s.priority[s.owner] then s.priority[s.owner := s.priority[t]] else s.priority;
      s.(priority := priority, queue := Join(s.queue, t, priority, s.flag))
  }

  /** `rt_mutex_release`. */
  function DoRelease(s: State, t: nat): State
    requires t < |s.priority| == |s.takes| == |s.releases|
    requires s.owner == t ==> s.hold > 0 && forall i :: 0 <= i < |s.queue| ==> s.queue[i] < |s.priority|
  {
    if s.owner != t then s
    else
      var down := s.(hold := s.hold - 1, releases := s.releases[t := s.releases[t] + 1]);
      if down.hold != 0 then down
      else
        var restored := if s.original != s.priority[t] then down.(priority := s.priority[t := s.original]) else down;
        if s.queue != [] then
          var next := s.queue[0];
          Taken(restored.(owner := next, original := restored.priority[next], hold := restored.hold + 1,
                          queue := s.queue[1..]), next)
        else if s.value < VALUE_MAX then
          restored.(value := s.value + 1, owner := NOBODY, original := NO_PRIORITY)
        else restored
  }

  function Expire(s: State, t: nat): State {
    s.(queue := Without(s.queue, t))
  }

  // ----- invariants -----

  /** Ownership, the counters and the queue fit each other. */
  ghost predicate Owned(s: State) {
    && |s.priority| == |s.takes| == |s.releases|
    && s.value <= 1 && s.hold <= HOLD_MAX
    && NOBODY <= s.owner < |s.priority|
    && (s.value == 1 <==> s.owner == NOBODY) && (s.hold == 0 <==> s.owner == NOBODY)
    && (s.owner == NOBODY ==> s.queue == [])
    && Distinct(s.queue)
    && (forall i :: 0 <= i < |s.queue| ==> s.queue[i] < |s.priority| && s.queue[i] != s.owner)
    && (forall t :: 0 <= t < |s.takes| ==> s.takes[t] == s.releases[t] + if t == s.owner then s.hold else 0)
  }

  /** Every thread but the owner runs at its own priority, and the owner's own one is on record. */
  ghost predicate Restorable(s: State, base: seq<nat>) {
    && |base| == |s.priority|
    && (forall t :: 0 <= t < |base| && t != s.owner ==> s.priority[t] == base[t])
    && (0 <= s.owner < |base| ==> s.original == base[s.owner] && s.priority[s.owner] <= base[s.owner])
  }

  /** The owner is at least as urgent as every thread that waits for it. */
  ghost predicate Inherits(s: State) {
    0 <= s.owner < |s.priority| ==>
      forall i :: 0 <= i < |s.queue| && s.queue[i] < |s.priority| ==> s.priority[s.owner] <= s.priority[s.queue[i]]
  }

  ghost predicate Inv(s: State, base: seq<nat>) {
    Owned(s) && Restorable(s, base)
  }

  predicate Among(queue: seq<nat>, t: nat) { exists i :: 0 <= i < |queue| && queue[i] == t }

  predicate Waits(s: State, t: nat) { Among(s.queue, t) }

  ghost predicate Enabled(s: State, e: Event) {
    match e
    case Take(t, _) => t < |s.priority| && !Waits(s, t)
    case Release(t) => t < |s.priority| && !Waits(s, t)
    case Timeout(t) => Waits(s, t)
  }

  ghost function Step(s: State, e: Event): State
    requires Owned(s) && Enabled(s, e)
  {
    match e
    case Take(t, wait) => DoTake(s, t, wait)
    case Release(t) => DoRelease(s, t)
    case Timeout(t) => Expire(s, t)
  }
}
