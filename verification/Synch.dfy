/** The scheduler, semaphores, locks and condition variables as objects. A call that puts its thread to sleep ends
    there with `slept`; what the thread does when it runs again is a step of the thread model. */
module Synch {
  import opened Options
  import opened ThreadModel

  class Scheduler {
    /** The thread on the processor; None while it idles. */
    var current: Option<Tid>
    var ready: seq<Tid>

    constructor (main: Tid)
      ensures current == Some(main) && ready == []
    {
      current, ready := Some(main), [];
    }

    method ReadyToRun(t: Tid)
      modifies this`ready
      ensures ready == old(ready) + [t]
    {
      ready := ready + [t];
    }

    method FindNextToRun() returns (t: Option<Tid>)
      modifies this`ready
      ensures t == if old(ready) == [] then None else Some(old(ready)[0])
      ensures ready == if old(ready) == [] then [] else old(ready)[1..]
    {
      if ready == [] {
        return None;
      }
      t := Some(ready[0]);
      ready := ready[1..];
    }

    /** Gives the processor to the first ready thread; with none ready the processor idles. */
    method Sleep()
      modifies this
      ensures Dispatched(old(ready), current, ready)
    {
      current := FindNextToRun();
    }

    method Yield()
      requires current.Some?
      modifies this
      ensures if old(ready) == [] then current == old(current) && ready == []
              else Dispatched(old(ready) + [old(current).value], current, ready)
    {
      var next := FindNextToRun();
      if next.Some? {
        ReadyToRun(current.value);
        current := next;
      }
    }
  }

  /** The front of `before` runs, the rest stays ready. */
  predicate Dispatched(before: seq<Tid>, current: Option<Tid>, ready: seq<Tid>) {
    if before == [] then current == None && ready == [] else current == Some(before[0]) && ready == before[1..]
  }

  class Semaphore {
    var value: nat
    var queue: seq<Tid>

    ghost function Value(): SemState
      reads this
    {
      SemState(value, queue)
    }

    constructor (initialValue: nat)
      ensures Value() == SemState(initialValue, [])
    {
      value, queue := initialValue, [];
    }

    /** Up to the end of the call, or to the next sleep of its loop. */
    method P(s: Scheduler) returns (slept: bool)
      requires s.current.Some?
      modifies this, s
      ensures (Value(), slept) == SemP(old(Value()), old(s.current).value)
      ensures if slept then Dispatched(old(s.ready), s.current, s.ready) else s.current == old(s.current) && s.ready == old(s.ready)
    {
      if value == 0 {
        queue := queue + [s.current.value];
        s.Sleep();
        return true;
      }
      value := value - 1;
      return false;
    }

    method V(s: Scheduler)
      modifies this, s`ready
      ensures Value() == SemV(old(Value())) && s.ready == Woken(old(s.ready), old(queue))
    {
      if queue != [] {
        s.ReadyToRun(queue[0]);
        queue := queue[1..];
      }
      value := value + 1;
    }
  }

  class Lock {
    var busy: bool
    var owner: Option<Tid>
    var waiting: seq<Tid>

    ghost function Value(): LockState
      reads this
    {
      LockState(busy, owner, waiting)
    }

    constructor ()
      ensures Value() == LockState(false, None, [])
    {
      busy, owner, waiting := false, None, [];
    }

    predicate IsHeldBy(t: Option<Tid>)
      reads this
    {
      owner == t
    }

    method Acquire(s: Scheduler) returns (slept: bool)
      requires s.current.Some?
      modifies this, s
      ensures (Value(), slept) == LockAcquired(old(Value()), old(s.current).value)
      ensures if slept then Dispatched(old(s.ready), s.current, s.ready) else s.current == old(s.current) && s.ready == old(s.ready)
    {
      if IsHeldBy(s.current) {
        return false;
      }
      if !busy {
        busy := true;
        owner := s.current;
        return false;
      }
      waiting := waiting + [s.current.value];
      s.Sleep();
      return true;
    }

    method Release(s: Scheduler)
      requires s.current.Some?
      modifies this, s`ready
      ensures if old(owner) == s.current
              then Value() == LockReleased(old(Value())) && s.ready == Woken(old(s.ready), old(waiting))
              else Value() == old(Value()) && s.ready == old(s.ready)
    {
      if !IsHeldBy(s.current) {
        return;
      }
      if waiting != [] {
        var thread := waiting[0];
        waiting := waiting[1..];
        s.ReadyToRun(thread);
        owner := Some(thread);
      } else {
        busy := false;
        owner := None;
      }
    }
  }

  class Condition {
    var waitingLock: Lock?
    var waiting: seq<Tid>

    /** The remembered lock is there exactly while threads wait. */
    ghost predicate Valid()
      reads this
    {
      waitingLock != null <==> waiting != []
    }

    constructor ()
      ensures Valid() && waiting == []
    {
      waitingLock, waiting := null, [];
    }

    /** Queues the thread, releases the lock and sleeps; refused for no lock or another lock than the remembered. */
    method Wait(conditionLock: Lock?, s: Scheduler) returns (slept: bool)
      requires Valid() && s.current.Some?
      modifies this, conditionLock, s
      ensures Valid()
      ensures slept <==> conditionLock != null && (old(waitingLock) == null || old(waitingLock) == conditionLock)
      ensures slept ==>
        && waitingLock == conditionLock && waiting == old(waiting) + [old(s.current).value]
        && if old(conditionLock.owner) == old(s.current)
           then conditionLock.Value() == LockReleased(old(conditionLock.Value()))
                && Dispatched(Woken(old(s.ready), old(conditionLock.waiting)), s.current, s.ready)
           else conditionLock.Value() == old(conditionLock.Value()) && Dispatched(old(s.ready), s.current, s.ready)
      ensures !slept ==>
        && waitingLock == old(waitingLock) && waiting == old(waiting)
        && s.current == old(s.current) && s.ready == old(s.ready)
        && (conditionLock != null ==> conditionLock.Value() == old(conditionLock.Value()))
    {
      if conditionLock == null {
        return false;
      }
      if waitingLock != null && conditionLock != waitingLock {
        return false;
      }
      waitingLock := conditionLock;
      waiting := waiting + [s.current.value];
      conditionLock.Release(s);
      s.Sleep();
      return true;
    }

    method Signal(conditionLock: Lock?, s: Scheduler)
      requires Valid()
      modifies this, s`ready
      ensures Valid()
      ensures if old(waiting) != [] && old(waitingLock) == conditionLock
              then waiting == old(waiting)[1..] && s.ready == old(s.ready) + [old(waiting)[0]]
                   && waitingLock == (if |old(waiting)| == 1 then null else conditionLock)
              else waiting == old(waiting) && waitingLock == old(waitingLock) && s.ready == old(s.ready)
    {
      if waiting == [] {
        return;
      }
      if waitingLock != conditionLock {
        return;
      }
      s.ReadyToRun(waiting[0]);
      waiting := waiting[1..];
      if waiting == [] {
        waitingLock := null;
      }
    }

    /** Ends only with nobody waiting or with the remembered lock, by BroadcastEndsIff of the thread model; then it
        has readied exactly the waiters, oldest first. */
    method Broadcast(conditionLock: Lock?, s: Scheduler)
      requires Valid() && (waiting == [] || waitingLock == conditionLock)
      modifies this, s`ready
      ensures waiting == [] && waitingLock == null && s.ready == old(s.ready) + old(waiting)
    {
      ghost var all := waiting;
      while waiting != []
        invariant Valid() && (waiting == [] || waitingLock == conditionLock)
        invariant s.ready + waiting == old(s.ready) + all
        decreases |waiting|
      {
        ghost var ready, head, tail := s.ready, waiting[0], waiting[1..];
        assert (ready + [head]) + tail == ready + waiting;
        Signal(conditionLock, s);
      }
    }
  }
}
