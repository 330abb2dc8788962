/** What every step of every thread keeps: each thread is in one place, a lock has one holder, and no condition
    variable forgets a waiter. */
module ThreadProofs {
  import opened Options
  import opened ThreadModel

  // ---- the invariant ----

  predicate LockOK(l: LockState) {
    (l.busy <==> l.owner.Some?) && (!l.busy ==> l.waiting == [])
  }

  predicate CondOK(c: CondState, locks: nat) {
    (c.lock.Some? <==> c.waiting != []) && (c.lock.Some? ==> c.lock.value < locks)
  }

  /** A waiter in a queue will, once dispatched, go on with the call that put it there. */
  ghost predicate AllResume(queue: seq<Tid>, resume: map<Tid, Resume>, r: Resume) {
    forall t :: t in queue ==> t in resume && resume[t] == r
  }

  ghost predicate SemsResume(sems: seq<SemState>, resume: map<Tid, Resume>) {
    forall i :: 0 <= i < |sems| ==> AllResume(sems[i].queue, resume, RetryP(i))
  }

  ghost predicate LocksResume(locks: seq<LockState>, resume: map<Tid, Resume>) {
    forall l :: 0 <= l < |locks| ==> LockOK(locks[l]) && AllResume(locks[l].waiting, resume, Granted(l))
  }

  ghost predicate CondsResume(conds: seq<CondState>, resume: map<Tid, Resume>, locks: nat) {
    forall c :: 0 <= c < |conds| ==>
      CondOK(conds[c], locks) && (conds[c].lock.Some? ==> AllResume(conds[c].waiting, resume, Reacquire(conds[c].lock.value)))
  }

  /** A thread about to come back from Acquire owns the lock, or still waits for it. */
  predicate GrantOK(locks: seq<LockState>, t: Tid, l: nat) {
    l < |locks| && (t in locks[l].waiting || locks[l].owner == Some(t))
  }

  ghost predicate ResumesOK(resume: map<Tid, Resume>, locks: seq<LockState>, sems: nat) {
    forall t :: t in resume ==>
      ResumeIn(resume[t], sems, |locks|) && (resume[t].Granted? ==> GrantOK(locks, t, resume[t].lock))
  }

  ghost predicate HeldOK(held: set<(Tid, nat)>, locks: seq<LockState>) {
    forall t, l :: (t, l) in held ==> l < |locks| && locks[l].owner == Some(t)
  }

  /** Each live thread stands in exactly one place, once; no other thread stands anywhere. */
  ghost predicate OncePlaced(k: Kernel) {
    forall t :: Places(k, t) == if t in k.live then 1 else 0
  }

  ghost predicate Inv(k: Kernel) {
    OncePlaced(k) && RestOK(k.sems, k.locks, k.conds, k.resume, k.held, k.live)
  }

  ghost predicate RestOK(sems: seq<SemState>, locks: seq<LockState>, conds: seq<CondState>,
                         resume: map<Tid, Resume>, held: set<(Tid, nat)>, live: set<Tid>) {
    && live <= resume.Keys
    && SemsResume(sems, resume)
    && LocksResume(locks, resume)
    && CondsResume(conds, resume, |locks|)
    && ResumesOK(resume, locks, |sems|)
    && HeldOK(held, locks)
  }

  // ---- counting threads in queues ----

  lemma {:induction false} WaitingUpdated(qs: seq<seq<Tid>>, i: nat, q: seq<Tid>, t: Tid)
    requires i < |qs|
    ensures Waiting(qs[i := q], t) == Waiting(qs, t) - Count(qs[i], t) + Count(q, t)
  {
    if i == 0 {
      assert qs[i := q][1..] == qs[1..];
    } else {
      WaitingUpdated(qs[1..], i - 1, q, t);
      assert qs[i := q][1..] == qs[1..][i - 1 := q];
    }
  }

  lemma {:induction false} InWaiting(qs: seq<seq<Tid>>, i: nat, t: Tid)
    requires i < |qs|
    ensures Count(qs[i], t) <= Waiting(qs, t)
  {
    if i > 0 {
      InWaiting(qs[1..], i - 1, t);
    }
  }

  lemma HeadAndTail(q: seq<Tid>, t: Tid)
    requires q != []
    ensures Count(q, t) == Count(q[1..], t) + if q[0] == t then 1 else 0
  {
    assert q == [q[0]] + q[1..];
  }

  lemma OneMore(q: seq<Tid>, x: Tid, t: Tid)
    ensures Count(q + [x], t) == Count(q, t) + if x == t then 1 else 0
  {
  }

  /** A thread that runs or is ready is in no queue. */
  lemma NotQueued(k: Kernel, t: Tid)
    requires OncePlaced(k) && (k.current == Some(t) || t in k.ready || t !in k.live)
    ensures forall i :: 0 <= i < |k.sems| ==> t !in k.sems[i].queue
    ensures forall i :: 0 <= i < |k.locks| ==> t !in k.locks[i].waiting
    ensures forall i :: 0 <= i < |k.conds| ==> t !in k.conds[i].waiting
    ensures k.current == Some(t) ==> t !in k.ready
  {
    assert Places(k, t) <= 1;
    forall i | 0 <= i < |k.sems| ensures t !in k.sems[i].queue { InWaiting(SemQueues(k.sems), i, t); }
    forall i | 0 <= i < |k.locks| ensures t !in k.locks[i].waiting { InWaiting(LockQueues(k.locks), i, t); }
    forall i | 0 <= i < |k.conds| ensures t !in k.conds[i].waiting { InWaiting(CondQueues(k.conds), i, t); }
  }

  lemma SleepPlaces(k: Kernel, t: Tid)
    ensures Places(Sleep(k), t) == Places(k, t) - if k.current == Some(t) then 1 else 0
  {
    if k.ready != [] { HeadAndTail(k.ready, t); }
  }

  lemma {:induction false} SemPlaces(k: Kernel, i: nat, s: SemState, t: Tid)
    requires i < |k.sems|
    ensures Waiting(SemQueues(k.sems[i := s]), t) == Waiting(SemQueues(k.sems), t) - Count(k.sems[i].queue, t) + Count(s.queue, t)
  {
    WaitingUpdated(SemQueues(k.sems), i, s.queue, t);
    assert SemQueues(k.sems[i := s]) == SemQueues(k.sems)[i := s.queue];
  }

  lemma {:induction false} LockPlaces(k: Kernel, i: nat, s: LockState, t: Tid)
    requires i < |k.locks|
    ensures Waiting(LockQueues(k.locks[i := s]), t) == Waiting(LockQueues(k.locks), t) - Count(k.locks[i].waiting, t) + Count(s.waiting, t)
  {
    WaitingUpdated(LockQueues(k.locks), i, s.waiting, t);
    assert LockQueues(k.locks[i := s]) == LockQueues(k.locks)[i := s.waiting];
  }

  lemma {:induction false} CondPlaces(k: Kernel, i: nat, s: CondState, t: Tid)
    requires i < |k.conds|
    ensures Waiting(CondQueues(k.conds[i := s]), t) == Waiting(CondQueues(k.conds), t) - Count(k.conds[i].waiting, t) + Count(s.waiting, t)
  {
    WaitingUpdated(CondQueues(k.conds), i, s.waiting, t);
    assert CondQueues(k.conds[i := s]) == CondQueues(k.conds)[i := s.waiting];
  }

  /** Waking a queue's head moves it to the ready list. */
  lemma WokenCount(ready: seq<Tid>, queue: seq<Tid>, t: Tid)
    ensures Count(Woken(ready, queue), t) + Count(if queue == [] then [] else queue[1..], t) == Count(ready, t) + Count(queue, t)
  {
    if queue != [] {
      HeadAndTail(queue, t);
      OneMore(ready, queue[0], t);
    }
  }

  // ---- going to sleep ----

  /** A thread that has queued itself and still runs is counted twice; Sleep takes it off the processor. */
  ghost predicate AboutToSleep(k: Kernel) {
    forall t :: Places(k, t) == (if t in k.live then 1 else 0) + (if k.current == Some(t) then 1 else 0)
  }

  lemma SleepKeepsPlaces(k: Kernel)
    requires AboutToSleep(k)
    ensures OncePlaced(Sleep(k))
  {
    forall t ensures Places(Sleep(k), t) == if t in k.live then 1 else 0 {
      SleepPlaces(k, t);
      assert Places(k, t) == (if t in k.live then 1 else 0) + (if k.current == Some(t) then 1 else 0);
    }
  }

  // ---- changing what a running or new thread resumes with ----

  lemma AllResumeOther(queue: seq<Tid>, resume: map<Tid, Resume>, t: Tid, r: Resume, what: Resume)
    requires AllResume(queue, resume, what) && t !in queue
    ensures AllResume(queue, resume[t := r], what)
  {
  }

  lemma ResumeChanged(k: Kernel, t: Tid, r: Resume)
    requires Inv(k) && (k.current == Some(t) || t !in k.live)
    ensures SemsResume(k.sems, k.resume[t := r]) && LocksResume(k.locks, k.resume[t := r])
    ensures CondsResume(k.conds, k.resume[t := r], |k.locks|)
  {
    NotQueued(k, t);
    forall i | 0 <= i < |k.sems| ensures AllResume(k.sems[i].queue, k.resume[t := r], RetryP(i)) {
      AllResumeOther(k.sems[i].queue, k.resume, t, r, RetryP(i));
    }
    forall i | 0 <= i < |k.locks| ensures LockOK(k.locks[i]) && AllResume(k.locks[i].waiting, k.resume[t := r], Granted(i)) {
      AllResumeOther(k.locks[i].waiting, k.resume, t, r, Granted(i));
    }
    forall i | 0 <= i < |k.conds| && k.conds[i].lock.Some?
      ensures AllResume(k.conds[i].waiting, k.resume[t := r], Reacquire(k.conds[i].lock.value))
    {
      AllResumeOther(k.conds[i].waiting, k.resume, t, r, Reacquire(k.conds[i].lock.value));
    }
    assert forall i :: 0 <= i < |k.conds| ==> CondOK(k.conds[i], |k.locks|);
  }

  // ---- semaphores ----

  lemma PKeepsPlaces(k: Kernel, i: nat)
    requires OncePlaced(k) && k.current.Some? && i < |k.sems|
    ensures OncePlaced(P(k, i))
  {
    var t, s := k.current.value, k.sems[i];
    if s.value == 0 {
      var s' := s.(queue := s.queue + [t]);
      var k1 := k.(sems := k.sems[i := s'], resume := k.resume[t := RetryP(i)]);
      forall x ensures Places(k1, x) == (if x in k.live then 1 else 0) + (if k.current == Some(x) then 1 else 0) {
        SemPlaces(k, i, s', x);
        OneMore(s.queue, t, x);
        assert Places(k, x) == if x in k.live then 1 else 0;
      }
      SleepKeepsPlaces(k1);
    } else {
      forall x ensures Places(P(k, i), x) == if x in k.live then 1 else 0 {
        SemPlaces(k, i, s.(value := s.value - 1), x);
        assert Places(k, x) == if x in k.live then 1 else 0;
      }
    }
  }

  lemma PKeepsRest(k: Kernel, i: nat)
    requires Inv(k) && k.current.Some? && i < |k.sems|
    ensures var k' := P(k, i); RestOK(k'.sems, k'.locks, k'.conds, k'.resume, k'.held, k'.live)
  {
    var t, k' := k.current.value, P(k, i);
    ResumeChanged(k, t, if k.sems[i].value == 0 then RetryP(i) else Returned);
    forall j | 0 <= j < |k'.sems| ensures AllResume(k'.sems[j].queue, k'.resume, RetryP(j)) {
      assert AllResume(k.sems[j].queue, k'.resume, RetryP(j));
    }
  }

  lemma VKeepsInv(k: Kernel, i: nat)
    requires Inv(k) && i < |k.sems|
    ensures Inv(V(k, i))
  {
    var s, k' := k.sems[i], V(k, i);
    forall x ensures Places(k', x) == if x in k.live then 1 else 0 {
      SemPlaces(k, i, SemV(s), x);
      WokenCount(k.ready, s.queue, x);
      assert Places(k, x) == if x in k.live then 1 else 0;
    }
    forall j | 0 <= j < |k'.sems| ensures AllResume(k'.sems[j].queue, k'.resume, RetryP(j)) {
      assert AllResume(k.sems[j].queue, k.resume, RetryP(j));
    }
  }

  // ---- locks ----

  lemma AcquireKeepsPlaces(k: Kernel, l: nat)
    requires OncePlaced(k) && k.current.Some? && l < |k.locks|
    ensures OncePlaced(Acquire(k, l))
  {
    var t, lock := k.current.value, k.locks[l];
    if lock.owner == Some(t) || !lock.busy {
      forall x ensures Places(Acquire(k, l), x) == if x in k.live then 1 else 0 {
        LockPlaces(k, l, LockAcquired(lock, t).0, x);
        assert Places(k, x) == if x in k.live then 1 else 0;
      }
    } else {
      var lock' := lock.(waiting := lock.waiting + [t]);
      var k1 := k.(locks := k.locks[l := lock'], resume := k.resume[t := Granted(l)]);
      forall x ensures Places(k1, x) == (if x in k.live then 1 else 0) + (if k.current == Some(x) then 1 else 0) {
        LockPlaces(k, l, lock', x);
        OneMore(lock.waiting, t, x);
        assert Places(k, x) == if x in k.live then 1 else 0;
      }
      SleepKeepsPlaces(k1);
    }
  }

  /** A lock that is taken or waited for changes nothing for the other grants and holders. */
  lemma AcquireKeepsRest(k: Kernel, l: nat)
    requires Inv(k) && k.current.Some? && l < |k.locks|
    ensures var k' := Acquire(k, l); RestOK(k'.sems, k'.locks, k'.conds, k'.resume, k'.held, k'.live)
  {
    var t, lock, k' := k.current.value, k.locks[l], Acquire(k, l);
    assert LockOK(lock);
    var r := if lock.owner != Some(t) && lock.busy then Granted(l) else Returned;
    ResumeChanged(k, t, r);
    assert k'.resume == k.resume[t := r];
    forall j | 0 <= j < |k'.locks| ensures LockOK(k'.locks[j]) && AllResume(k'.locks[j].waiting, k'.resume, Granted(j)) {
      assert AllResume(k.locks[j].waiting, k'.resume, Granted(j));
    }
    forall x | x in k'.resume
      ensures ResumeIn(k'.resume[x], |k'.sems|, |k'.locks|) && (k'.resume[x].Granted? ==> GrantOK(k'.locks, x, k'.resume[x].lock))
    {
      if x == t && r.Granted? {
        assert k'.locks[l].waiting[|lock.waiting|] == t;
      } else if x != t {
        assert k.resume[x].Granted? ==> GrantOK(k.locks, x, k.resume[x].lock);
      }
    }
  }

  /** Release for a thread that runs: the owner's lock goes to the longest waiter; a stranger's Release does nothing. */
  lemma ReleaseKeepsRest(k: Kernel, l: nat)
    requires k.current.Some? && l < |k.locks|
    requires RestOK(k.sems, k.locks, k.conds, k.resume, k.held, k.live)
    requires k.current.value in k.resume && !k.resume[k.current.value].Granted?
    ensures var k' := Release(k, l); RestOK(k'.sems, k'.locks, k'.conds, k'.resume, k'.held, k'.live)
  {
    var t, lock, k' := k.current.value, k.locks[l], Release(k, l);
    assert LockOK(lock) && AllResume(lock.waiting, k.resume, Granted(l));
    if lock.owner == Some(t) {
      forall j | 0 <= j < |k'.locks| ensures LockOK(k'.locks[j]) && AllResume(k'.locks[j].waiting, k'.resume, Granted(j)) {
        assert AllResume(k.locks[j].waiting, k.resume, Granted(j));
      }
      forall x | x in k'.resume && k'.resume[x].Granted? ensures GrantOK(k'.locks, x, k'.resume[x].lock) {
        assert GrantOK(k.locks, x, k.resume[x].lock);
        if k.resume[x].lock == l && x in lock.waiting && x != lock.waiting[0] {
          assert x in lock.waiting[1..];
        }
      }
    }
  }

  lemma ReleaseCounts(k: Kernel, l: nat, x: Tid)
    requires k.current.Some? && l < |k.locks|
    requires k.locks[l].owner == Some(k.current.value)
    ensures Places(Release(k, l), x) == Places(k, x) && Release(k, l).current == k.current && Release(k, l).live == k.live
  {
    LockPlaces(k, l, LockReleased(k.locks[l]), x);
    WokenCount(k.ready, k.locks[l].waiting, x);
  }

  // ---- condition variables ----

  lemma WaitKeepsPlaces(k: Kernel, c: nat, l: Option<nat>)
    requires OncePlaced(k) && k.current.Some? && c < |k.conds| && (l.Some? ==> l.value < |k.locks|)
    ensures OncePlaced(Wait(k, c, l))
  {
    var t, cond := k.current.value, k.conds[c];
    if l.Some? && (cond.lock.None? || cond.lock == l) {
      var cond' := CondState(l, cond.waiting + [t]);
      var k1 := k.(conds := k.conds[c := cond'], resume := k.resume[t := Reacquire(l.value)]);
      var k2 := Release(k1, l.value);
      forall x ensures Places(k2, x) == (if x in k2.live then 1 else 0) + (if k2.current == Some(x) then 1 else 0) {
        CondPlaces(k, c, cond', x);
        OneMore(cond.waiting, t, x);
        if k1.locks[l.value].owner == Some(t) { ReleaseCounts(k1, l.value, x); }
        assert Places(k, x) == if x in k.live then 1 else 0;
      }
      SleepKeepsPlaces(k2);
    }
  }

  lemma WaitKeepsRest(k: Kernel, c: nat, l: Option<nat>)
    requires Inv(k) && k.current.Some? && c < |k.conds| && (l.Some? ==> l.value < |k.locks|)
    ensures var k' := Wait(k, c, l); RestOK(k'.sems, k'.locks, k'.conds, k'.resume, k'.held, k'.live)
  {
    var t, cond := k.current.value, k.conds[c];
    if l.Some? && (cond.lock.None? || cond.lock == l) {
      var cond' := CondState(l, cond.waiting + [t]);
      var k1 := k.(conds := k.conds[c := cond'], resume := k.resume[t := Reacquire(l.value)]);
      ResumeChanged(k, t, Reacquire(l.value));
      assert CondOK(cond, |k.locks|);
      forall j | 0 <= j < |k1.conds|
        ensures CondOK(k1.conds[j], |k1.locks|)
        ensures k1.conds[j].lock.Some? ==> AllResume(k1.conds[j].waiting, k1.resume, Reacquire(k1.conds[j].lock.value))
      {
        assert CondOK(k.conds[j], |k.locks|);
        assert k.conds[j].lock.Some? ==> AllResume(k.conds[j].waiting, k1.resume, Reacquire(k.conds[j].lock.value));
      }
      ReleaseKeepsRest(k1, l.value);
    }
  }

  lemma SignalKeepsInv(k: Kernel, c: nat, l: Option<nat>)
    requires Inv(k) && c < |k.conds|
    ensures Inv(Signal(k, c, l))
  {
    var cond, k' := k.conds[c], Signal(k, c, l);
    if cond.waiting != [] && cond.lock == l {
      assert CondOK(cond, |k.locks|);
      forall x ensures Places(k', x) == if x in k.live then 1 else 0 {
        CondPlaces(k, c, CondSignalled(cond), x);
        WokenCount(k.ready, cond.waiting, x);
        assert Places(k, x) == if x in k.live then 1 else 0;
      }
      forall j | 0 <= j < |k'.conds|
        ensures CondOK(k'.conds[j], |k'.locks|)
        ensures k'.conds[j].lock.Some? ==> AllResume(k'.conds[j].waiting, k'.resume, Reacquire(k'.conds[j].lock.value))
      {
        assert CondOK(k.conds[j], |k.locks|);
        assert k.conds[j].lock.Some? ==> AllResume(k.conds[j].waiting, k.resume, Reacquire(k.conds[j].lock.value));
      }
    }
  }

  // ---- scheduling ----

  lemma SchedulingKeepsInv(k: Kernel, s: Step)
    requires Inv(k) && Enabled(k, s) && (s.DoYield? || s.DoFork? || s.DoFinish? || s.Dispatch?)
    ensures Inv(Next(k, s))
  {
    var k' := Next(k, s);
    match s
    case DoYield =>
      forall x ensures Places(k', x) == if x in k.live then 1 else 0 {
        if k.ready != [] {
          HeadAndTail(k.ready, x);
          OneMore(k.ready[1..], k.current.value, x);
        }
        assert Places(k, x) == if x in k.live then 1 else 0;
      }
    case DoFork(t) =>
      ResumeChanged(k, t, Returned);
      forall x ensures Places(k', x) == if x in k'.live then 1 else 0 {
        OneMore(k.ready, t, x);
        assert Places(k, x) == if x in k.live then 1 else 0;
      }
    case DoFinish =>
      FinishKeepsPlaces(k);
    case Dispatch =>
      forall x ensures Places(k', x) == if x in k.live then 1 else 0 {
        SleepPlaces(k, x);
        assert Places(k, x) == if x in k.live then 1 else 0;
      }
    case _ =>
  }

  lemma FinishKeepsPlaces(k: Kernel)
    requires OncePlaced(k) && k.current.Some?
    ensures OncePlaced(Finish(k))
  {
    var k1 := k.(live := k.live - {k.current.value});
    assert Places(k, k.current.value) >= 1;
    forall x ensures Places(k1, x) == (if x in k1.live then 1 else 0) + (if k1.current == Some(x) then 1 else 0) {
      assert Places(k, x) == if x in k.live then 1 else 0;
    }
    SleepKeepsPlaces(k1);
  }

  lemma GrantKeepsInv(k: Kernel, l: nat)
    requires Inv(k) && k.current.Some? && k.current.value in k.resume && k.resume[k.current.value] == Granted(l)
    ensures l < |k.locks| && k.locks[l].owner == k.current
    ensures var t := k.current.value; Inv(k.(held := k.held + {(t, l)}, resume := k.resume[t := Returned]))
  {
    var t := k.current.value;
    NotQueued(k, t);
    assert GrantOK(k.locks, t, l);
    ResumeChanged(k, t, Returned);
    var k' := k.(held := k.held + {(t, l)}, resume := k.resume[t := Returned]);
    forall x ensures Places(k', x) == if x in k.live then 1 else 0 {
      assert Places(k, x) == if x in k.live then 1 else 0;
    }
  }

  /** Every step of every thread keeps the invariant. */
  lemma StepKeepsInv(k: Kernel, s: Step)
    requires Inv(k) && Enabled(k, s)
    ensures Inv(Next(k, s))
  {
    match s
    case DoP(i) => PKeepsPlaces(k, i); PKeepsRest(k, i);
    case DoV(i) => VKeepsInv(k, i);
    case DoAcquire(l) => AcquireKeepsPlaces(k, l); AcquireKeepsRest(k, l);
    case DoRelease(l) => ReleaseKeepsInv(k, l);
    case DoWait(c, l) => WaitKeepsPlaces(k, c, l); WaitKeepsRest(k, c, l);
    case DoSignal(c, l) => SignalKeepsInv(k, c, l);
    case DoContinue => ContinueKeepsInv(k);
    case _ => SchedulingKeepsInv(k, s);
  }

  lemma ReleaseKeepsInv(k: Kernel, l: nat)
    requires Inv(k) && Enabled(k, DoRelease(l))
    ensures Inv(Release(k, l))
  {
    ReleaseKeepsRest(k, l);
    if k.locks[l].owner == k.current {
      forall x ensures Places(Release(k, l), x) == if x in k.live then 1 else 0 {
        ReleaseCounts(k, l, x);
        assert Places(k, x) == if x in k.live then 1 else 0;
      }
    }
  }

  lemma ContinueKeepsInv(k: Kernel)
    requires Inv(k) && Enabled(k, DoContinue)
    ensures Inv(Continue(k))
  {
    match k.resume[k.current.value]
    case Returned =>
    case RetryP(i) => PKeepsPlaces(k, i); PKeepsRest(k, i);
    case Granted(l) => GrantKeepsInv(k, l);
    case Reacquire(l) => AcquireKeepsPlaces(k, l); AcquireKeepsRest(k, l);
  }
}
