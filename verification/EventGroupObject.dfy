/** The event object, and the code of its critical sections. */
module EventGroupObject {
  import opened WaitQueue
  import opened EventGroup
  import opened EventGroupRuns

  class Events {
    const flag: Flag
    var bits: bv32
    var queue: seq<Waiter>

    /** The event object with its history and the threads' priorities. */
    ghost var s: State

    ghost predicate Valid()
      reads this
    {
      Inv(s) && s.flag == flag && s.bits == bits && s.queue == queue
    }

    /** `rt_event_init`. */
    constructor (flag: Flag, ghost priority: seq<nat>)
      ensures Valid() && s == Start(flag, priority)
    {
      this.flag, bits, queue := flag, 0, [];
      s := Start(flag, priority);
    }

    /** `rt_event_send`; false for an empty set. */
    method Send(event: bv32) returns (ok: bool, resumed: seq<Grant>)
      requires Valid()
      modifies this
      ensures Valid() && ok == (event != 0)
      ensures ok ==> s == DoSend(old(s), event) && s.granted == old(s.granted) + resumed
      ensures !ok ==> s == old(s) && resumed == []
    {
      hide Met, Left, Got, Inv, WalkFrom, And, Or, Minus, Flagged, Earned;
      ok, resumed := event != 0, [];
      if !ok {
        return;
      }
      SendKeeps(s, event);
      QueueFlags(s);
      bits := Or(bits, event);
      ghost var all := bits;
      var n := 0;
      NoWalk(bits, queue);
      while n < |queue|
        invariant 0 <= n <= |queue| && (forall i :: 0 <= i < |queue| ==> All(queue[i]) || Any(queue[i]))
        invariant Joined(WalkFrom(all, old(queue)), queue[..n], resumed, WalkFrom(bits, queue[n..]))
        invariant s == old(s)
        decreases |queue| - n
      {
        var w := queue[n];
        Slices(queue, n);
        var met, got, left := Check(w, bits);
        if met {
          JoinGrant(WalkFrom(all, old(queue)), queue[..n], resumed, bits, queue[n..]);
          resumed := resumed + [Grant(w, bits, got)];
          bits := left;
          queue := queue[..n] + queue[n + 1..];
        } else {
          JoinPass(WalkFrom(all, old(queue)), queue[..n], resumed, bits, queue[n..]);
          n := n + 1;
        }
      }
      assert queue[..n] == queue && queue[n..] == [];
      NoMore(bits);
      s := DoSend(s, event);
    }

    /** `rt_event_recv`, from taking the lock to giving it back; a waiting thread is in the queue then. */
    method Recv(t: nat, want: bv32, option: bv8, wait: bool, priority: seq<nat>) returns (ok: bool, got: bv32)
      requires Valid() && priority == s.priority && t < |priority| && !Suspended(s, t)
      requires Flagged(option, FLAG_AND) || Flagged(option, FLAG_OR)
      modifies this
      ensures Valid()
      ensures want == 0 ==> !ok && s == old(s)
      ensures want != 0 ==> s == DoRecv(old(s), Waiter(t, want, option), wait)
      ensures ok <==> want != 0 && Met(Waiter(t, want, option), old(bits))
      ensures ok ==> got == And(old(bits), want)
    {
      ok, got := false, 0;
      if want == 0 {
        return;
      }
      var w := Waiter(t, want, option);
      Flags(w);
      RecvKeeps(s, w, wait);
      hide Inv, Place, Insert, Ranks, And, Or, Minus, Flagged;
      if Flagged(option, FLAG_AND) {
        ok := And(bits, want) == want;
      } else if Flagged(option, FLAG_OR) {
        ok := And(bits, want) != 0;
      }
      Commute(bits, want);
      ghost var after := DoRecv(s, w, wait);
      if ok {
        got := And(bits, want);
        if Flagged(option, FLAG_CLEAR) {
          bits := Minus(bits, want);
        }
      } else if wait {
        queue := Insert(queue, Place(Ranks(queue, priority), priority[t], flag), w);
      }
      s := after;
    }

    /** `RT_IPC_CMD_RESET`. */
    method Reset()
      requires Valid()
      modifies this
      ensures Valid() && s == old(s).(queue := [], bits := 0)
    {
      queue, bits := [], 0;
      s := s.(queue := [], bits := 0);
    }
  }

  /** What the loop of `rt_event_send` does with one suspended thread. */
  method Check(w: Waiter, bits: bv32) returns (met: bool, got: bv32, left: bv32)
    requires All(w) || Any(w)
    ensures met <==> Met(w, bits)
    ensures met ==> got == Got(w, bits) && left == Left(w, bits)
  {
    hide And, Or, Minus, Flagged;
    met, got, left := false, w.want, bits;
    if Flagged(w.option, FLAG_AND) {
      met := And(w.want, bits) == w.want;
    } else if And(w.want, bits) != 0 {
      got := And(w.want, bits);
      met := true;
    }
    if met && Flagged(w.option, FLAG_CLEAR) {
      left := Minus(bits, got);
    }
  }

  lemma Slices(queue: seq<Waiter>, n: nat)
    requires n < |queue|
    ensures queue[n..] != [] && queue[n..][0] == queue[n] && queue[n..][1..] == queue[n + 1..]
    ensures (queue[..n] + queue[n + 1..])[..n] == queue[..n]
    ensures (queue[..n] + queue[n + 1..])[n..] == queue[n + 1..]
    ensures queue[..n + 1] == queue[..n] + [queue[n]]
  {
  }

  /** A walk is its part behind a point, put behind what was passed and granted before it. */
  ghost predicate Joined(whole: Walk, passed: seq<Waiter>, granted: seq<Grant>, part: Walk) {
    whole == Walk(part.bits, passed + part.rest, granted + part.grants)
  }

  lemma NoWalk(bits: bv32, queue: seq<Waiter>)
    ensures Joined(WalkFrom(bits, queue), queue[..0], [], WalkFrom(bits, queue[0..]))
  {
    assert queue[0..] == queue && queue[..0] == [];
    var r := WalkFrom(bits, queue);
    assert [] + r.rest == r.rest && [] + r.grants == r.grants;
  }

  lemma NoMore(bits: bv32)
    ensures WalkFrom(bits, []) == Walk(bits, [], [])
  {
  }

  lemma JoinGrant(whole: Walk, passed: seq<Waiter>, granted: seq<Grant>, bits: bv32, queue: seq<Waiter>)
    requires queue != [] && Met(queue[0], bits) && Joined(whole, passed, granted, WalkFrom(bits, queue))
    ensures Joined(whole, passed, granted + [Grant(queue[0], bits, Got(queue[0], bits))],
                   WalkFrom(Left(queue[0], bits), queue[1..]))
  {
    hide Met, Got, Left;
    var g, r := Grant(queue[0], bits, Got(queue[0], bits)), WalkFrom(Left(queue[0], bits), queue[1..]);
    assert granted + ([g] + r.grants) == (granted + [g]) + r.grants;
  }

  lemma JoinPass(whole: Walk, passed: seq<Waiter>, granted: seq<Grant>, bits: bv32, queue: seq<Waiter>)
    requires queue != [] && !Met(queue[0], bits) && Joined(whole, passed, granted, WalkFrom(bits, queue))
    ensures Joined(whole, passed + [queue[0]], granted, WalkFrom(bits, queue[1..]))
  {
    hide Met, Got, Left;
    var r := WalkFrom(bits, queue[1..]);
    assert passed + ([queue[0]] + r.rest) == (passed + [queue[0]]) + r.rest;
  }

  lemma QueueFlags(s: State)
    requires Inv(s)
    ensures forall i :: 0 <= i < |s.queue| ==> All(s.queue[i]) || Any(s.queue[i])
  {
  }
}
