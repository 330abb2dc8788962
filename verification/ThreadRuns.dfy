/** Runs of any number of threads: mutual exclusion, hand-off, and no lost wake-up. */
module ThreadRuns {
  import opened Options
  import opened ThreadModel
  import opened ThreadProofs

  predicate IsRun(k: Kernel, steps: seq<Step>)
    decreases |steps|
  {
    steps == [] || (Enabled(k, steps[0]) && IsRun(Next(k, steps[0]), steps[1..]))
  }

  function After(k: Kernel, steps: seq<Step>): (k': Kernel)
    requires IsRun(k, steps)
    decreases |steps|
  {
    if steps == [] then k else After(Next(k, steps[0]), steps[1..])
  }

  /** The main thread runs; locks are free, nobody waits. */
  predicate Booted(k: Kernel, main: Tid) {
    && k.current == Some(main) && k.ready == [] && k.live == {main} && k.resume == map[main := Returned] && k.held == {}
    && (forall i :: 0 <= i < |k.sems| ==> k.sems[i].queue == [])
    && (forall i :: 0 <= i < |k.locks| ==> k.locks[i] == LockState(false, None, []))
    && (forall i :: 0 <= i < |k.conds| ==> k.conds[i] == CondState(None, []))
  }

  lemma {:induction false} NobodyWaits(qs: seq<seq<Tid>>, t: Tid)
    requires forall i :: 0 <= i < |qs| ==> qs[i] == []
    ensures Waiting(qs, t) == 0
  {
    if qs != [] {
      NobodyWaits(qs[1..], t);
    }
  }

  lemma BootedInv(k: Kernel, main: Tid)
    requires Booted(k, main)
    ensures Inv(k)
  {
    forall t ensures Places(k, t) == if t in k.live then 1 else 0 {
      NobodyWaits(SemQueues(k.sems), t);
      NobodyWaits(LockQueues(k.locks), t);
      NobodyWaits(CondQueues(k.conds), t);
    }
  }

  lemma {:induction false} RunKeepsInv(k: Kernel, steps: seq<Step>)
    requires Inv(k) && IsRun(k, steps)
    ensures Inv(After(k, steps))
    decreases |steps|
  {
    if steps != [] {
      StepKeepsInv(k, steps[0]);
      RunKeepsInv(Next(k, steps[0]), steps[1..]);
    }
  }

  /** Under every interleaving: each live thread is in exactly one place, a lock is free exactly when it has no
      owner and then has no waiters, two threads never hold one lock, and a condition variable remembers a lock
      exactly while threads wait on it. */
  lemma {:induction false} EveryRunIsSafe(k: Kernel, main: Tid, steps: seq<Step>)
    requires Booted(k, main) && IsRun(k, steps)
    ensures var e := After(k, steps);
            && (forall t :: Places(e, t) == if t in e.live then 1 else 0)
            && (forall l :: 0 <= l < |e.locks| ==> (e.locks[l].busy <==> e.locks[l].owner.Some?) && (!e.locks[l].busy ==> e.locks[l].waiting == []))
            && (forall t, u, l :: (t, l) in e.held && (u, l) in e.held ==> t == u)
            && (forall c :: 0 <= c < |e.conds| ==> (e.conds[c].lock.Some? <==> e.conds[c].waiting != []))
  {
    BootedInv(k, main);
    RunKeepsInv(k, steps);
    var e := After(k, steps);
    forall l | 0 <= l < |e.locks| ensures (e.locks[l].busy <==> e.locks[l].owner.Some?) && (!e.locks[l].busy ==> e.locks[l].waiting == []) {
      assert LockOK(e.locks[l]);
    }
    forall t, u, l | (t, l) in e.held && (u, l) in e.held ensures t == u {
      assert e.locks[l].owner == Some(t);
    }
    forall c | 0 <= c < |e.conds| ensures e.conds[c].lock.Some? <==> e.conds[c].waiting != [] {
      assert CondOK(e.conds[c], |e.locks|);
    }
  }

  // ---- locks ----

  /** Release by the owner makes the longest waiter the owner and readies it; with no waiter the lock is free. */
  lemma ReleaseHandsOver(k: Kernel, l: nat)
    requires Inv(k) && Enabled(k, DoRelease(l)) && k.locks[l].owner == k.current
    ensures var k', queue := Next(k, DoRelease(l)), k.locks[l].waiting;
            && (k.current.value, l) !in k'.held
            && k'.locks[l].busy == (queue != [])
            && (queue != [] ==> k'.locks[l].owner == Some(queue[0]) && k'.locks[l].waiting == queue[1..] && k'.ready == k.ready + [queue[0]])
  {
    assert LockOK(k.locks[l]);
  }

  /** A lock handed to a thread stays its own until that thread has run and released it: no other thread gets it
      in between. */
  lemma HandOffIsKept(k: Kernel, s: Step, t: Tid, l: nat)
    requires Inv(k) && Enabled(k, s) && l < |k.locks| && k.locks[l].owner == Some(t)
    requires t in k.resume && k.resume[t] == Granted(l)
    ensures var k' := Next(k, s); |k'.locks| == |k.locks| && k'.locks[l].owner == Some(t)
  {
  }

  /** The waiters of a lock leave from the front, each as the new owner, and join at the back by an Acquire, their
      own or the one a Wait ends with. */
  lemma LockQueueIsFifo(k: Kernel, s: Step, l: nat)
    requires Inv(k) && Enabled(k, s) && l < |k.locks|
    ensures var q, q' := k.locks[l].waiting, Next(k, s).locks[l].waiting;
            || q' == q
            || (q != [] && q' == q[1..] && Next(k, s).locks[l].owner == Some(q[0]))
            || (&& k.current.Some? && q' == q + [k.current.value] && k.locks[l].busy && k.locks[l].owner != k.current
                && (s == DoAcquire(l) || (s.DoContinue? && k.resume[k.current.value] == Reacquire(l))))
  {
  }

  // ---- condition variables ----

  /** Signal with the remembered lock readies exactly the oldest waiter; otherwise it changes nothing. */
  lemma SignalWakesOldest(k: Kernel, c: nat, l: Option<nat>)
    requires Inv(k) && c < |k.conds|
    ensures var k', q := Signal(k, c, l), k.conds[c].waiting;
            if q != [] && k.conds[c].lock == l
            then k'.ready == k.ready + [q[0]] && k'.conds[c].waiting == q[1..] && (k'.conds[c].lock == if |q| == 1 then None else l)
            else k' == k
  {
  }

  /** No wake-up is lost: from the step that queues a waiter it stays queued, in its order, until a Signal with the
      remembered lock readies it. */
  lemma WaitersLeaveBySignal(k: Kernel, s: Step, c: nat)
    requires Inv(k) && Enabled(k, s) && c < |k.conds|
    ensures var k', q := Next(k, s), k.conds[c].waiting;
            && |k'.conds| == |k.conds|
            && var q' := k'.conds[c].waiting;
               || q' == q
               || (s.DoWait? && s.cond == c && q' == q + [k.current.value])
               || (s.DoSignal? && s.cond == c && s.passed == k.conds[c].lock && q != [] && q' == q[1..] && k'.ready == k.ready + [q[0]])
  {
    assert CondOK(k.conds[c], |k.locks|);
  }

  /** Wait that is accepted queues the thread and gives up the lock in the same step. */
  lemma WaitIsAtomic(k: Kernel, c: nat, l: nat)
    requires Inv(k) && Enabled(k, DoWait(c, Some(l))) && (k.conds[c].lock.None? || k.conds[c].lock == Some(l))
    ensures var t, k' := k.current.value, Wait(k, c, Some(l));
            && k'.conds[c] == CondState(Some(l), k.conds[c].waiting + [t])
            && (t, l) !in k'.held && k'.locks[l].owner != Some(t) && k'.resume[t] == Reacquire(l)
  {
    var t := k.current.value;
    NotQueued(k, t);
    assert LockOK(k.locks[l]);
    if (t, l) in k.held { assert k.locks[l].owner == Some(t); }
  }

  /** The calls Broadcast makes while threads wait. */
  function Signals(k: Kernel, c: nat, l: Option<nat>, n: nat): (k': Kernel)
    requires c < |k.conds|
    ensures |k'.conds| == |k.conds|
    decreases n
  {
    if n == 0 then k else Signals(Signal(k, c, l), c, l, n - 1)
  }

  /** Broadcast with the remembered lock ends after as many Signals as threads wait, having readied exactly them,
      oldest first. */
  lemma {:induction false} BroadcastWakesAll(k: Kernel, c: nat)
    requires c < |k.conds| && CondOK(k.conds[c], |k.locks|)
    ensures var k' := Signals(k, c, k.conds[c].lock, |k.conds[c].waiting|);
            k' == k.(conds := k.conds[c := CondState(None, [])], ready := k.ready + k.conds[c].waiting)
    decreases |k.conds[c].waiting|
  {
    var cond := k.conds[c];
    if cond.waiting == [] {
      assert k.conds[c := CondState(None, [])] == k.conds && k.ready + [] == k.ready;
    } else {
      var k1 := Signal(k, c, cond.lock);
      assert k1.conds[c] == CondSignalled(cond);
      assert k.ready + [cond.waiting[0]] + cond.waiting[1..] == k.ready + cond.waiting;
      if |cond.waiting| == 1 {
        assert cond.waiting[1..] == [];
        assert Signals(k, c, cond.lock, 1) == Signals(k1, c, cond.lock, 0);
      } else {
        BroadcastWakesAll(k1, c);
        assert k1.conds[c := CondState(None, [])] == k.conds[c := CondState(None, [])];
      }
    }
  }

  /** With another lock and threads waiting, Broadcast makes no progress however long it loops. */
  lemma {:induction false} MismatchedBroadcastStuck(k: Kernel, c: nat, l: Option<nat>, n: nat)
    requires c < |k.conds| && k.conds[c].waiting != [] && k.conds[c].lock != l
    ensures Signals(k, c, l, n) == k && Signals(k, c, l, n).conds[c].waiting != []
    decreases n
  {
    if n > 0 {
      MismatchedBroadcastStuck(k, c, l, n - 1);
    }
  }

  /** Broadcast's loop ends exactly when nobody waits or the lock is the remembered one. */
  lemma BroadcastEndsIff(k: Kernel, c: nat, l: Option<nat>)
    requires c < |k.conds| && CondOK(k.conds[c], |k.locks|)
    ensures (exists n :: Signals(k, c, l, n).conds[c].waiting == []) <==> k.conds[c].waiting == [] || k.conds[c].lock == l
  {
    if k.conds[c].waiting == [] {
      assert Signals(k, c, l, 0).conds[c].waiting == [];
    } else if k.conds[c].lock == l {
      BroadcastWakesAll(k, c);
      assert Signals(k, c, l, |k.conds[c].waiting|).conds[c].waiting == [];
    } else {
      forall n: nat ensures Signals(k, c, l, n).conds[c].waiting != [] {
        MismatchedBroadcastStuck(k, c, l, n);
      }
    }
  }

  // ---- semaphores ----

  /** The threads a V has readied that have not tried again yet. */
  ghost function Awake(live: set<Tid>, resume: map<Tid, Resume>, queue: seq<Tid>, i: nat): (r: set<Tid>) {
    set t | t in live && t in resume && resume[t] == RetryP(i) && t !in queue
  }

  /** While threads wait on a semaphore, each unit of its value has a readied thread to take it. */
  ghost predicate NoUnitIdle(live: set<Tid>, resume: map<Tid, Resume>, s: SemState, i: nat) {
    s.queue != [] ==> s.value <= |Awake(live, resume, s.queue, i)|
  }

  /** A thread that comes to P, or tries again: it takes a unit, or joins the queue when there is none. */
  lemma PTakesUnit(live: set<Tid>, resume: map<Tid, Resume>, s: SemState, i: nat, t: Tid)
    requires NoUnitIdle(live, resume, s, i) && t in live && t in resume && t !in s.queue
    requires resume[t] == Returned || resume[t] == RetryP(i)
    ensures var (s', sleeps) := SemP(s, t);
            NoUnitIdle(live, resume[t := if sleeps then RetryP(i) else Returned], s', i)
  {
    var (s', sleeps) := SemP(s, t);
    var resume' := resume[t := if sleeps then RetryP(i) else Returned];
    assert Awake(live, resume', s'.queue, i) == Awake(live, resume, s.queue, i) - {t};
  }

  /** What one thread does next matters only to the semaphore it is about. */
  lemma OtherResume(live: set<Tid>, resume: map<Tid, Resume>, s: SemState, i: nat, t: Tid, r: Resume)
    requires NoUnitIdle(live, resume, s, i) && t !in s.queue && r != RetryP(i) && (t in resume ==> resume[t] != RetryP(i))
    ensures NoUnitIdle(live, resume[t := r], s, i)
  {
    assert Awake(live, resume[t := r], s.queue, i) == Awake(live, resume, s.queue, i);
  }

  lemma OtherLife(live: set<Tid>, live': set<Tid>, resume: map<Tid, Resume>, s: SemState, i: nat, t: Tid)
    requires NoUnitIdle(live, resume, s, i) && t in resume && resume[t] != RetryP(i)
    requires live' == live + {t} || live' == live - {t}
    ensures NoUnitIdle(live', resume, s, i)
  {
    assert Awake(live', resume, s.queue, i) == Awake(live, resume, s.queue, i);
  }

  lemma VAddsUnit(live: set<Tid>, resume: map<Tid, Resume>, s: SemState, i: nat)
    requires NoUnitIdle(live, resume, s, i) && AllResume(s.queue, resume, RetryP(i))
    requires s.queue != [] ==> s.queue[0] in live && s.queue[0] !in s.queue[1..]
    ensures NoUnitIdle(live, resume, SemV(s), i)
  {
    if s.queue != [] {
      assert Awake(live, resume, s.queue[1..], i) == Awake(live, resume, s.queue, i) + {s.queue[0]};
    }
  }

  lemma HeadQueuedOnce(k: Kernel, i: nat)
    requires Inv(k) && i < |k.sems| && k.sems[i].queue != []
    ensures k.sems[i].queue[0] in k.live && k.sems[i].queue[0] !in k.sems[i].queue[1..]
  {
    var q := k.sems[i].queue;
    InWaiting(SemQueues(k.sems), i, q[0]);
    HeadAndTail(q, q[0]);
    assert Places(k, q[0]) <= 1;
  }

  ghost predicate UnitsOK(k: Kernel, i: nat)
    requires i < |k.sems|
  {
    NoUnitIdle(k.live, k.resume, k.sems[i], i)
  }

  lemma CurrentLives(k: Kernel)
    requires Inv(k) && k.current.Some?
    ensures k.current.value in k.live && k.current.value in k.resume
  {
    assert Places(k, k.current.value) >= 1;
  }

  lemma PKeepsUnits(k: Kernel, j: nat, i: nat)
    requires Inv(k) && k.current.Some? && i < |k.sems| && j < |k.sems| && UnitsOK(k, i) && k.current.value in k.resume
    requires k.resume[k.current.value] == Returned || k.resume[k.current.value] == RetryP(j)
    ensures UnitsOK(P(k, j), i)
  {
    var t := k.current.value;
    NotQueued(k, t);
    CurrentLives(k);
    if i == j {
      PTakesUnit(k.live, k.resume, k.sems[i], i, t);
    } else {
      OtherResume(k.live, k.resume, k.sems[i], i, t, if k.sems[j].value == 0 then RetryP(j) else Returned);
    }
  }

  /** A step changes what the running thread resumes with, and no other thread's, but for a new one's. */
  lemma ResumeMoves(k: Kernel, s: Step)
    requires Enabled(k, s) && k.current.Some? && k.current.value in k.resume && !s.DoFork?
    ensures var t, resume' := k.current.value, Next(k, s).resume; t in resume' && resume' == k.resume[t := resume'[t]]
  {
  }

  /** The steps that are not about semaphores. */
  lemma OtherStepKeepsUnits(k: Kernel, s: Step, i: nat)
    requires Inv(k) && Enabled(k, s) && i < |k.sems| && UnitsOK(k, i)
    requires !s.DoP? && !s.DoV? && (s.DoContinue? ==> !k.resume[k.current.value].RetryP?)
    ensures Next(k, s).sems == k.sems && UnitsOK(Next(k, s), i)
  {
    if k.current.Some? {
      var t := k.current.value;
      CurrentLives(k);
      NotQueued(k, t);
      assert k.resume[t] == Returned || s.DoContinue?;
      if s.DoFork? {
        NotQueued(k, s.t);
        OtherResume(k.live, k.resume, k.sems[i], i, s.t, Returned);
        OtherLife(k.live, k.live + {s.t}, k.resume[s.t := Returned], k.sems[i], i, s.t);
      } else if s.DoFinish? {
        OtherLife(k.live, k.live - {t}, k.resume, k.sems[i], i, t);
      } else {
        var resume' := Next(k, s).resume;
        ResumeMoves(k, s);
        OtherResume(k.live, k.resume, k.sems[i], i, t, resume'[t]);
      }
    }
  }

  /** Every step keeps it: no wake-up is lost to a thread that takes the unit first. */
  lemma StepKeepsUnits(k: Kernel, s: Step, i: nat)
    requires Inv(k) && Enabled(k, s) && i < |k.sems| && UnitsOK(k, i)
    ensures |Next(k, s).sems| == |k.sems| && UnitsOK(Next(k, s), i)
  {
    if s.DoP? {
      PKeepsUnits(k, s.sem, i);
    } else if s.DoContinue? && k.resume[k.current.value].RetryP? {
      PKeepsUnits(k, k.resume[k.current.value].sem, i);
    } else if s.DoV? {
      if s.sem == i {
        if k.sems[i].queue != [] { HeadQueuedOnce(k, i); }
        VAddsUnit(k.live, k.resume, k.sems[i], i);
      }
    } else {
      OtherStepKeepsUnits(k, s, i);
    }
  }

  lemma {:induction false} RunKeepsUnits(k: Kernel, steps: seq<Step>, i: nat)
    requires Inv(k) && IsRun(k, steps) && i < |k.sems| && UnitsOK(k, i)
    ensures |After(k, steps).sems| == |k.sems| && UnitsOK(After(k, steps), i)
    decreases |steps|
  {
    if steps != [] {
      StepKeepsInv(k, steps[0]);
      StepKeepsUnits(k, steps[0], i);
      RunKeepsUnits(Next(k, steps[0]), steps[1..], i);
    }
  }
}
