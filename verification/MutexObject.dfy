/** The mutex object, and the code of its critical sections. */
module MutexObject {
  import opened WaitQueue
  import opened Mutex
  import opened MutexRuns

  class Lock {
    const flag: Flag
    /** `current_priority` of every thread. */
    const priority: array<nat>
    var value: nat
    var owner: int
    var original: nat
    var hold: nat
    var queue: seq<nat>

    /** The mutex with its history, and the threads' own priorities. */
    ghost var s: State
    ghost var base: seq<nat>

    ghost predicate Linked()
      reads this, priority
    {
      && s.flag == flag && s.priority == priority[..] && s.value == value && s.owner == owner
      && s.original == original && s.hold == hold && s.queue == queue
    }

    ghost predicate Valid()
      reads this, priority
    {
      Inv(s, base) && Linked()
    }

    /** `rt_mutex_init`. */
    constructor (flag: Flag, priority: array<nat>)
      ensures Valid() && this.priority == priority && base == priority[..] && s == Start(flag, priority[..])
    {
      this.flag, this.priority := flag, priority;
      value, owner, original, hold, queue := 1, NOBODY, NO_PRIORITY, 0, [];
      base := priority[..];
      s := Start(flag, priority[..]);
      new;
      StartInv(flag, priority[..]);
    }

    /** `rt_mutex_take`, from taking the lock to giving it back; a waiting thread is in the queue then. */
    method TakeMutex(t: nat, wait: bool) returns (taken: bool, full: bool)
      requires Valid() && t < priority.Length && !Waits(s, t)
      modifies this, priority
      ensures Valid() && base == old(base) && Inv(old(s), base) && s == Step(old(s), Take(t, wait))
      ensures taken ==> owner == t && s.takes[t] == old(s.takes[t]) + 1
      ensures full <==> old(owner) == t && old(hold) == HOLD_MAX
      ensures !taken && !full ==> s.takes == old(s.takes)
    {
      TakeKeeps(s, t, wait, base);
      OwnerFacts(s, base);
      hide Owned, Restorable, Join;
      ghost var after := DoTake(s, t, wait);
      taken, full := false, false;
      if owner == t {
        if hold < HOLD_MAX {
          hold := hold + 1;
          taken := true;
        } else {
          full := true;
        }
      } else if value > 0 {
        value := value - 1;
        owner, original := t, priority[t];
        if hold < HOLD_MAX {
          hold := hold + 1;
          taken := true;
        } else {
          full := true;
        }
      } else if wait {
        if priority[t] < priority[owner] {
          priority[owner] := priority[t];
        }
        queue := Join(queue, t, priority[..], flag);
      }
      s := after;
    }

    /** `rt_mutex_release`, from taking the lock to giving it back. */
    method ReleaseMutex(t: nat) returns (ok: bool)
      requires Valid() && t < priority.Length && !Waits(s, t)
      modifies this, priority
      ensures Valid() && base == old(base) && Inv(old(s), base) && s == Step(old(s), Release(t))
      ensures ok <==> old(owner) == t
      ensures owner != old(owner) ==> priority[t] == base[t]
    {
      ReleaseKeeps(s, t, base);
      OwnerFacts(s, base);
      hide Owned, Restorable;
      ghost var after := DoRelease(s, t);
      RestoredBy(s, t, base);
      if t != owner {
        return false;
      }
      hold := hold - 1;
      if hold == 0 {
        if original != priority[owner] {
          priority[owner] := original;
        }
        if queue != [] {
          owner := queue[0];
          original := priority[owner];
          if hold < HOLD_MAX {
            hold := hold + 1;
          }
          queue := queue[1..];
        } else {
          if value < VALUE_MAX {
            value := value + 1;
          }
          owner, original := NOBODY, NO_PRIORITY;
        }
      }
      ok := true;
      s := after;
    }
  }

  lemma OwnerFacts(s: State, base: seq<nat>)
    requires Inv(s, base)
    ensures |s.priority| == |s.takes| == |s.releases| == |base| && s.owner < |s.priority| && s.value <= 1
    ensures s.value == 0 ==> s.owner >= 0
    ensures s.value == 1 ==> s.hold == 0
    ensures s.owner >= 0 ==> s.hold > 0
    ensures s.hold <= HOLD_MAX
    ensures forall i :: 0 <= i < |s.queue| ==> s.queue[i] < |s.priority| && s.queue[i] != s.owner
  {
    hide Distinct;
  }

  /** Whoever gives the mutex up runs at its own priority again. */
  lemma RestoredBy(s: State, t: nat, base: seq<nat>)
    requires Inv(s, base) && t < |s.priority|
    ensures var r := DoRelease(s, t); r.owner != s.owner ==> r.priority[t] == base[t]
  {
    hide Distinct;
  }
}
