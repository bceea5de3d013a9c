/** What each call on an event object comes to: which bits are set, who goes on, who waits and where. */
module EventGroupCalls {
  import opened WaitQueue
  import opened EventGroup
  import opened EventGroupRuns

  // ----- sending -----

  /** Every bit of a mask is in one of two sets. */
  predicate FromEither(m: bv32, a: bv32, b: bv32) { (m & a) | (m & b) == m }

  lemma UnionIs(a: bv32, b: bv32, m: bv32)
    ensures FromEither(m, a, b) <==> Within(m, Or(a, b))
  {
    Distribute(m, a, b);
  }

  lemma Distribute(m: bv32, a: bv32, b: bv32)
    ensures m & (a | b) == (m & a) | (m & b)
  {
  }

  /** Strictly ascending positions in a queue of `n` threads. */
  predicate Ascending(at: seq<nat>, n: nat) {
    && (forall i :: 0 <= i < |at| ==> at[i] < n)
    && forall i, j :: 0 <= i < j < |at| ==> at[i] < at[j]
  }

  function Shifted(at: seq<nat>): (r: seq<nat>)
    ensures |r| == |at| && forall i :: 0 <= i < |at| ==> r[i] == at[i] + 1
  {
    seq(|at|, i requires 0 <= i < |at| => at[i] + 1)
  }

  /** Those that stay and those that go on keep their order, each of them. */
  ghost predicate Parted(queue: seq<Waiter>, rest: seq<Waiter>, grants: seq<Grant>, stay: seq<nat>, go: seq<nat>) {
    && Ascending(stay, |queue|) && Ascending(go, |queue|)
    && |stay| == |rest| && |go| == |grants| && |stay| + |go| == |queue|
    && (forall i :: 0 <= i < |rest| ==> rest[i] == queue[stay[i]])
    && (forall i :: 0 <= i < |grants| ==> grants[i].w == queue[go[i]])
  }

  lemma {:induction false} WalkInOrder(bits: bv32, queue: seq<Waiter>) returns (stay: seq<nat>, go: seq<nat>)
    ensures var r := WalkFrom(bits, queue); Parted(queue, r.rest, r.grants, stay, go)
    decreases |queue|
  {
    hide Met, Left, Got, And, Or, Minus, Flagged;
    if queue == [] {
      stay, go := [], [];
    } else {
      var met := Met(queue[0], bits);
      var tail, left := queue[1..], if met then Left(queue[0], bits) else bits;
      var stay', go' := WalkInOrder(left, tail);
      stay := if met then Shifted(stay') else [0] + Shifted(stay');
      go := if met then [0] + Shifted(go') else Shifted(go');
      PartedOnce(queue, WalkFrom(left, tail), stay', go', met, Grant(queue[0], bits, Got(queue[0], bits)));
    }
  }

  lemma ShiftedAscends(at: seq<nat>, n: nat)
    requires Ascending(at, n)
    ensures Ascending(Shifted(at), n + 1) && Ascending([0] + Shifted(at), n + 1)
  {
  }

  lemma PartedOnce(queue: seq<Waiter>, r: Walk, stay: seq<nat>, go: seq<nat>, met: bool, g: Grant)
    requires queue != [] && Parted(queue[1..], r.rest, r.grants, stay, go) && g.w == queue[0]
    ensures if met then Parted(queue, r.rest, [g] + r.grants, Shifted(stay), [0] + Shifted(go))
            else Parted(queue, [queue[0]] + r.rest, r.grants, [0] + Shifted(stay), Shifted(go))
  {
    var tail := queue[1..];
    ShiftedAscends(stay, |tail|);
    ShiftedAscends(go, |tail|);
    hide Ascending;
    forall i | 0 <= i < |stay| ensures Shifted(stay)[i] == stay[i] + 1 && queue[stay[i] + 1] == r.rest[i] {
      assert tail[stay[i]] == r.rest[i];
    }
    forall i | 0 <= i < |go| ensures Shifted(go)[i] == go[i] + 1 && queue[go[i] + 1] == r.grants[i].w {
      assert tail[go[i]] == r.grants[i].w;
    }
    hide Shifted;
  }

  /** The first thread of a queue whose condition a set meets. */
  predicate FirstMet(queue: seq<Waiter>, bits: bv32, i: nat)
    requires i < |queue|
  {
    Met(queue[i], bits) && forall j :: 0 <= j < i ==> !Met(queue[j], bits)
  }

  /**
   A send adds its bits to those that are set. A thread goes on when its condition is met at its turn,
   in the order of the queue; a bit that somebody got and cleared is there neither for those after it
   nor in the end, all others are, and no bit appears that was neither set nor sent. The first thread
   whose condition the bits meet, those set before and those sent together, is the first to go on;
   whoever stays has its condition unmet, and keeps its place.
   */
  lemma SendOutcome(s: State, b: bv32, m: bv32, i: nat) returns (stay: seq<nat>, go: seq<nat>)
    requires Inv(s) && Enabled(s, Send(b))
    ensures var r := Step(s, Send(b));
            && s.granted <= r.granted && r.priority == s.priority && r.flag == s.flag
            && FromEither(r.bits, s.bits, b)
            && AllUnmet(r.queue, r.bits)
            && var grants := r.granted[|s.granted|..];
               && (FromEither(m, s.bits, b) && Spared(m, grants) ==> Within(m, r.bits))
               && Consumed(Or(s.bits, b), Walk(r.bits, r.queue, grants))
               && (forall j :: 0 <= j < |grants| ==> Earned(grants[j]) && FromEither(grants[j].at, s.bits, b))
               && Parted(s.queue, r.queue, grants, stay, go)
               && (i < |s.queue| && FirstMet(s.queue, Or(s.bits, b), i) ==>
                    grants != [] && grants[0].w == s.queue[i] && grants[0].at == Or(s.bits, b))
  {
    hide Met, Left, Got, Earned, Within, FromEither, And, Or, Minus, Flagged, Spared, Parted, Consumed, AllUnmet;
    var all := Or(s.bits, b);
    var r := Step(s, Send(b));
    var w := WalkFrom(all, s.queue);
    assert r.granted[|s.granted|..] == w.grants;
    stay, go := WalkInOrder(all, s.queue);
    WalkLeavesUnmet(all, s.queue);
    WalkConsumes(all, s.queue);
    WalkEarns(all, s.queue);
    UnionIs(s.bits, b, r.bits);
    UnionIs(s.bits, b, m);
    if FromEither(m, s.bits, b) && Spared(m, w.grants) {
      WalkPreserves(all, s.queue, m);
    }
    forall j | 0 <= j < |w.grants| ensures FromEither(w.grants[j].at, s.bits, b) {
      AtWithin(all, w, j);
      UnionIs(s.bits, b, w.grants[j].at);
    }
    if i < |s.queue| && FirstMet(s.queue, all, i) {
      FirstMetGoesOn(all, s.queue, i);
    }
  }

  lemma AtWithin(bits: bv32, w: Walk, j: nat)
    requires Consumed(bits, w) && j < |w.grants|
    ensures Within(w.grants[j].at, bits)
  {
  }

  // ----- receiving -----

  lemma ClearedBits(bits: bv32, want: bv32, m: bv32)
    ensures And(Minus(bits, want), want) == 0
    ensures Within(m, bits) && And(m, want) == 0 ==> Within(m, Minus(bits, want))
  {
    if Within(m, bits) && And(m, want) == 0 {
      KeptBits(bits, want, m);
    }
    Cleared(bits, want);
  }

  /** A thread has joined the queue at position `k`: at the end, or behind those that are as urgent as itself. */
  predicate Placed(before: seq<Waiter>, after: seq<Waiter>, w: Waiter, k: nat, priority: seq<nat>, flag: Flag)
    requires w.t < |priority|
  {
    && k <= |before| && after == before[..k] + [w] + before[k..]
    && (flag.Fifo? ==> k == |before|)
    && (flag.Prio? ==> forall i :: 0 <= i < k ==> Ranks(before, priority)[i] <= priority[w.t])
    && (flag.Prio? && k < |before| ==> priority[w.t] < Ranks(before, priority)[k])
  }

  /**
   A receiver whose condition is met goes on with what it wants of the set, and with the CLEAR flag
   clears what it wants and nothing else. Otherwise it waits in the queue, at the place that the flag
   of the object gives it, or leaves everything as it was.
   */
  lemma RecvOutcome(s: State, w: Waiter, wait: bool, m: bv32)
    requires Inv(s) && Enabled(s, Recv(w.t, w.want, w.option, wait))
    ensures var r := Step(s, Recv(w.t, w.want, w.option, wait));
            if Met(w, s.bits) then
              && r.granted == s.granted + [Grant(w, s.bits, And(s.bits, w.want))] && r.queue == s.queue
              && (Clears(w) ==> And(r.bits, w.want) == 0 && Within(r.bits, s.bits))
              && (Clears(w) && Within(m, s.bits) && And(m, w.want) == 0 ==> Within(m, r.bits))
              && (!Clears(w) ==> r.bits == s.bits)
            else
              && r.bits == s.bits && r.granted == s.granted
              && (wait ==> exists k: nat :: Placed(s.queue, r.queue, w, k, s.priority, s.flag))
              && (!wait ==> r == s)
  {
    hide Met, Got, Within, And, Or, Minus, Flagged, Clears, Ranks, Inv;
    ClearedBits(s.bits, w.want, m);
    MaskWithin(s.bits, w.want);
    if !Met(w, s.bits) && wait {
      var k := Place(Ranks(s.queue, s.priority), s.priority[w.t], s.flag);
      var q := Insert(s.queue, k, w);
      assert Placed(s.queue, q, w, k, s.priority, s.flag);
    }
  }

  // ----- the rest -----

  /** A thread whose time is up leaves the queue, the others keeping their order; no bit changes. */
  lemma TimeoutOutcome(s: State, t: nat) returns (k: nat)
    requires Inv(s) && Enabled(s, Timeout(t))
    ensures var r := Step(s, Timeout(t));
            && r == s.(queue := r.queue) && !Suspended(r, t)
            && k < |s.queue| && s.queue[k].t == t && |r.queue| == |s.queue| - 1
            && forall i :: 0 <= i < |r.queue| ==> r.queue[i] == s.queue[if i < k then i else i + 1]
  {
    hide AllUnmet, Earned, Met, All, Any, Expire;
    k := ExpireIndex(s.queue, t);
  }

  /** A reset clears all bits and sends all waiting threads away without any grant. */
  lemma ResetOutcome(s: State)
    ensures var r := Step(s, Reset); r.bits == 0 && r.queue == [] && r.granted == s.granted && r.priority == s.priority
  {
  }
}
