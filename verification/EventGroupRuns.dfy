/** Every event keeps the invariants; what a send does to the waiting threads. */
module EventGroupRuns {
  import opened Wrappers
  import opened WaitQueue
  import opened EventGroup

  // ----- bits -----

  predicate Within(a: bv32, b: bv32) { And(a, b) == a }

  lemma WithinTrans(a: bv32, b: bv32, c: bv32)
    requires Within(a, b) && Within(b, c)
    ensures Within(a, c)
  {
  }

  lemma MaskWithin(bits: bv32, mask: bv32)
    ensures Within(Minus(bits, mask), bits)
  {
    Absorb(bits, !mask);
  }

  lemma Absorb(a: bv32, b: bv32)
    ensures Within(a & b, a)
  {
  }

  lemma SelfWithin(bits: bv32)
    ensures Within(bits, bits)
  {
  }

  lemma LeftWithin(w: Waiter, bits: bv32)
    ensures Within(Left(w, bits), bits)
  {
    hide Got, Clears, And, Or, Minus, Flagged;
    MaskWithin(bits, Got(w, bits));
    SelfWithin(bits);
  }

  lemma FewerBits(want: bv32, a: bv32, b: bv32)
    requires Within(a, b)
    ensures And(want, a) == want ==> And(want, b) == want
    ensures And(want, a) != 0 ==> And(want, b) != 0
  {
  }

  /** A condition that does not hold does not hold with fewer bits either. */
  lemma StaysUnmet(w: Waiter, a: bv32, b: bv32)
    requires !Met(w, b) && Within(a, b)
    ensures !Met(w, a)
  {
    hide All, Any, Within, And, Or, Minus, Flagged;
    FewerBits(w.want, a, b);
  }

  lemma Commute(a: bv32, b: bv32)
    ensures And(a, b) == And(b, a)
  {
  }

  lemma GotEarned(w: Waiter, bits: bv32)
    requires Met(w, bits)
    ensures Earned(Grant(w, bits, Got(w, bits))) && Earned(Grant(w, bits, And(bits, w.want)))
  {
    hide All, Any, And, Or, Minus, Flagged;
    Commute(bits, w.want);
  }

  lemma Cleared(bits: bv32, got: bv32)
    ensures And(Minus(bits, got), got) == 0
  {
  }

  lemma Disjoint(a: bv32, b: bv32, got: bv32)
    requires Within(a, b) && And(b, got) == 0
    ensures And(a, got) == 0
  {
  }

  // ----- the walk -----

  /** Afterwards no thread left waiting has its condition met, though those before it may have cleared bits. */
  lemma {:induction false} WalkLeavesUnmet(bits: bv32, queue: seq<Waiter>)
    ensures var r := WalkFrom(bits, queue); Within(r.bits, bits) && AllUnmet(r.rest, r.bits)
    decreases |queue|
  {
    hide Met, Left, Got, Within, And, Or, Minus, Flagged;
    if queue == [] {
      SelfWithin(bits);
    } else if Met(queue[0], bits) {
      WalkLeavesUnmet(Left(queue[0], bits), queue[1..]);
      LeftWithin(queue[0], bits);
      WithinTrans(WalkFrom(bits, queue).bits, Left(queue[0], bits), bits);
    } else {
      WalkLeavesUnmet(bits, queue[1..]);
      StaysUnmet(queue[0], WalkFrom(bits, queue).bits, bits);
    }
  }

  /** Whoever goes on had its condition met at that moment. */
  lemma {:induction false} WalkEarns(bits: bv32, queue: seq<Waiter>)
    ensures forall i :: 0 <= i < |WalkFrom(bits, queue).grants| ==> Earned(WalkFrom(bits, queue).grants[i])
    decreases |queue|
  {
    hide Met, Left, Got, Earned, And, Or, Minus, Flagged;
    if queue != [] {
      if Met(queue[0], bits) {
        WalkEarns(Left(queue[0], bits), queue[1..]);
        GotEarned(queue[0], bits);
      } else {
        WalkEarns(bits, queue[1..]);
      }
    }
  }

  /** Bits that were got and cleared are gone for those who come later. */
  predicate Consumed(bits: bv32, r: Walk) {
    && (forall i :: 0 <= i < |r.grants| ==> Within(r.grants[i].at, bits))
    && (forall i :: 0 <= i < |r.grants| && Clears(r.grants[i].w) ==> And(r.bits, r.grants[i].got) == 0)
    && (forall i, j :: 0 <= i < j < |r.grants| && Clears(r.grants[i].w) ==> And(r.grants[j].at, r.grants[i].got) == 0)
  }

  /** Bits that a thread got and cleared are not there for those resumed after it, nor when the send is over. */
  lemma {:induction false} WalkConsumes(bits: bv32, queue: seq<Waiter>)
    ensures Consumed(bits, WalkFrom(bits, queue))
    decreases |queue|, 1
  {
    hide Met, Got, Within, Clears, And, Or, Minus, Flagged;
    if queue != [] {
      if Met(queue[0], bits) {
        FirstConsumes(bits, queue);
      } else {
        WalkConsumes(bits, queue[1..]);
      }
    }
  }

  lemma {:induction false} FirstConsumes(bits: bv32, queue: seq<Waiter>)
    requires queue != [] && Met(queue[0], bits)
    ensures Consumed(bits, WalkFrom(bits, queue))
    decreases |queue|, 0
  {
    hide Met, Got, Within, Clears, And, Or, Minus, Flagged;
    var w, left := queue[0], Left(queue[0], bits);
    var r, rest := WalkFrom(bits, queue), WalkFrom(left, queue[1..]);
    WalkConsumes(left, queue[1..]);
    LeftWithin(w, bits);
    SelfWithin(bits);
    Cleared(bits, Got(w, bits));
    WalkLeavesUnmet(left, queue[1..]);
    assert r.grants[0].at == bits;
    forall i | 0 < i < |r.grants| ensures Within(r.grants[i].at, bits) {
      assert r.grants[i] == rest.grants[i - 1];
      WithinTrans(r.grants[i].at, left, bits);
    }
    if Clears(w) {
      Disjoint(rest.bits, left, Got(w, bits));
      forall j | 0 < j < |r.grants| ensures And(r.grants[j].at, r.grants[0].got) == 0 {
        assert r.grants[j] == rest.grants[j - 1];
        Disjoint(r.grants[j].at, left, Got(w, bits));
      }
    }
  }

  function Waiters(grants: seq<Grant>): (r: seq<Waiter>)
    ensures |r| == |grants|
  {
    if grants == [] then [] else [grants[0].w] + Waiters(grants[1..])
  }

  /** Every waiting thread either goes on or keeps waiting. */
  lemma {:induction false} WalkSplits(bits: bv32, queue: seq<Waiter>)
    ensures var r := WalkFrom(bits, queue); multiset(queue) == multiset(r.rest) + multiset(Waiters(r.grants))
    decreases |queue|
  {
    hide Met, Left, Got, And, Or, Minus, Flagged;
    if queue != [] {
      assert queue == [queue[0]] + queue[1..];
      if Met(queue[0], bits) {
        WalkSplits(Left(queue[0], bits), queue[1..]);
        var rest := WalkFrom(Left(queue[0], bits), queue[1..]).grants;
        assert WalkFrom(bits, queue).grants[1..] == rest;
        assert Waiters(WalkFrom(bits, queue).grants) == [queue[0]] + Waiters(rest);
      } else {
        WalkSplits(bits, queue[1..]);
      }
    }
  }

  /** The threads left keep their order. */
  lemma {:induction false} WalkKeeps(bits: bv32, queue: seq<Waiter>)
    ensures forall i :: 0 <= i < |WalkFrom(bits, queue).rest| ==>
              exists k :: 0 <= k < |queue| && queue[k] == WalkFrom(bits, queue).rest[i]
    ensures (forall i, j :: 0 <= i < j < |queue| ==> queue[i].t != queue[j].t) ==>
              forall i, j :: 0 <= i < j < |WalkFrom(bits, queue).rest| ==>
                WalkFrom(bits, queue).rest[i].t != WalkFrom(bits, queue).rest[j].t
    decreases |queue|
  {
    hide Met, Left, Got, And, Or, Minus, Flagged;
    if queue != [] {
      var tail := queue[1..];
      assert forall i :: 0 <= i < |tail| ==> tail[i] == queue[i + 1];
      var bits' := if Met(queue[0], bits) then Left(queue[0], bits) else bits;
      WalkKeeps(bits', tail);
      var rest, r := WalkFrom(bits', tail).rest, WalkFrom(bits, queue).rest;
      forall i | 0 <= i < |rest| ensures exists k :: 1 <= k < |queue| && queue[k] == rest[i] {
        var k :| 0 <= k < |tail| && tail[k] == rest[i];
        assert queue[k + 1] == rest[i];
      }
      if !Met(queue[0], bits) {
        assert r == [queue[0]] + rest;
        assert queue[0] == r[0];
      }
    }
  }

  // ----- the events -----

  lemma SendKeeps(s: State, bits: bv32)
    requires Inv(s)
    ensures Inv(DoSend(s, bits))
  {
    hide Met, Earned, All, Any, AllUnmet, Within, And, Or, Minus, Flagged;
    var all := Or(s.bits, bits);
    WalkLeavesUnmet(all, s.queue);
    WalkEarns(all, s.queue);
    WalkKeeps(all, s.queue);
  }

  lemma RecvKeeps(s: State, w: Waiter, wait: bool)
    requires Inv(s) && w.t < |s.priority| && !Suspended(s, w.t) && w.want != 0 && (All(w) || Any(w))
    ensures Inv(DoRecv(s, w, wait))
  {
    hide Earned, All, Any, Insert, Within, Met, And, Or, Minus, Flagged;
    if Met(w, s.bits) {
      GotEarned(w, s.bits);
      var left := if Clears(w) then Minus(s.bits, w.want) else s.bits;
      MaskWithin(s.bits, w.want);
      SelfWithin(s.bits);
      forall i | 0 <= i < |s.queue| ensures !Met(s.queue[i], left) {
        StaysUnmet(s.queue[i], left, s.bits);
      }
    } else if wait {
      InsertIndex(s.queue, Place(Ranks(s.queue, s.priority), s.priority[w.t], s.flag), w);
      assert forall i :: 0 <= i < |s.queue| ==> s.queue[i].t != w.t;
    }
  }

  /** What is left of a queue when the thread at position `k` leaves it. */
  lemma {:induction false} ExpireIndex(queue: seq<Waiter>, t: nat) returns (k: nat)
    requires exists i :: 0 <= i < |queue| && queue[i].t == t
    ensures k < |queue| && queue[k].t == t && |Expire(queue, t)| == |queue| - 1
    ensures forall i :: 0 <= i < |queue| - 1 ==> Expire(queue, t)[i] == queue[if i < k then i else i + 1]
  {
    if queue[0].t == t {
      k := 0;
    } else {
      var i :| 0 <= i < |queue| && queue[i].t == t;
      assert queue[1..][i - 1].t == t;
      var j := ExpireIndex(queue[1..], t);
      k := j + 1;
    }
  }

  lemma StepKeeps(s: State, e: Event)
    requires Inv(s) && Enabled(s, e)
    ensures Inv(Step(s, e))
  {
    hide Met, Earned, Any, All, DoSend, DoRecv, Expire, And, Or, Minus, Flagged;
    match e
    case Send(bits) => SendKeeps(s, bits);
    case Recv(t, want, option, wait) =>
      Flags(Waiter(t, want, option));
      RecvKeeps(s, Waiter(t, want, option), wait);
    case Timeout(t) => var k := ExpireIndex(s.queue, t);
    case Reset =>
    case SetPriority(t, p) =>
  }

  lemma Flags(w: Waiter)
    ensures All(w) <==> Flagged(w.option, FLAG_AND)
    ensures Any(w) <==> Flagged(w.option, FLAG_OR)
  {
  }

  // ----- runs -----

  /** `rt_event_init`. */
  function Start(flag: Flag, priority: seq<nat>): State { State(flag, 0, [], priority, []) }

  function Run(s: State, es: seq<Event>): Option<State>
    decreases |es|
  {
    if es == [] then Some(s) else if !Enabled(s, es[0]) then None else Run(Step(s, es[0]), es[1..])
  }

  lemma {:induction false} RunKeeps(s: State, es: seq<Event>)
    requires Inv(s)
    ensures var r := Run(s, es); r.Some? ==> Inv(r.value)
    decreases |es|
  {
    hide Inv, Step, And, Or, Minus, Flagged;
    if es != [] && Enabled(s, es[0]) {
      StepKeeps(s, es[0]);
      RunKeeps(Step(s, es[0]), es[1..]);
    }
  }

  /**
   After any run from `rt_event_init`: no suspended thread's condition is met by the event set,
   and every thread that went on had its condition met by the event set of that moment.
   */
  lemma NobodySleepsOver(flag: Flag, priority: seq<nat>, es: seq<Event>)
    ensures var r := Run(Start(flag, priority), es);
            r.Some? ==>
              && (forall i :: 0 <= i < |r.value.queue| ==> !Met(r.value.queue[i], r.value.bits))
              && (forall i :: 0 <= i < |r.value.granted| ==> Earned(r.value.granted[i]))
  {
    hide Met, Earned, Run, And, Or, Minus, Flagged;
    RunKeeps(Start(flag, priority), es);
  }

  // ----- who goes on first, and what is left -----

  /** The first thread whose condition is met is the first to go on. */
  lemma {:induction false} FirstMetGoesOn(bits: bv32, queue: seq<Waiter>, i: nat)
    requires i < |queue| && Met(queue[i], bits) && forall j :: 0 <= j < i ==> !Met(queue[j], bits)
    ensures var r := WalkFrom(bits, queue); r.grants != [] && r.grants[0] == Grant(queue[i], bits, Got(queue[i], bits))
    decreases |queue|
  {
    hide Met, Left, Got, And, Or, Minus, Flagged;
    if i > 0 {
      FirstMetGoesOn(bits, queue[1..], i - 1);
    }
  }

  lemma KeptBits(bits: bv32, got: bv32, m: bv32)
    requires Within(m, bits) && And(m, got) == 0
    ensures Within(m, Minus(bits, got))
  {
  }

  /** None of the bits was got and cleared. */
  predicate Spared(m: bv32, grants: seq<Grant>) {
    forall i :: 0 <= i < |grants| && Clears(grants[i].w) ==> And(m, grants[i].got) == 0
  }

  lemma SparedFirst(m: bv32, g: Grant, rest: seq<Grant>)
    requires Spared(m, [g] + rest)
    ensures Spared(m, rest) && (Clears(g.w) ==> And(m, g.got) == 0)
  {
    hide And, Clears;
    assert ([g] + rest)[0] == g && ([g] + rest)[1..] == rest;
    forall i | 0 <= i < |rest| && Clears(rest[i].w) ensures And(m, rest[i].got) == 0 {
      assert ([g] + rest)[i + 1] == rest[i];
    }
  }

  /** Bits that nobody got and cleared are still set when a send is over. */
  lemma {:induction false} WalkPreserves(bits: bv32, queue: seq<Waiter>, m: bv32)
    requires Within(m, bits) && Spared(m, WalkFrom(bits, queue).grants)
    ensures Within(m, WalkFrom(bits, queue).bits)
    decreases |queue|
  {
    hide Met, Got, Within, And, Or, Minus, Flagged, Clears, Spared;
    if queue != [] {
      if Met(queue[0], bits) {
        var left := Left(queue[0], bits);
        SparedFirst(m, Grant(queue[0], bits, Got(queue[0], bits)), WalkFrom(left, queue[1..]).grants);
        if Clears(queue[0]) {
          KeptBits(bits, Got(queue[0], bits), m);
        }
        WalkPreserves(left, queue[1..], m);
      } else {
        WalkPreserves(bits, queue[1..], m);
      }
    }
  }
}
