/** Who is woken over whole runs: waiters leave locks and condition variables in the order they came, a lock handed
    over stays its new owner's, and a Broadcast wakes those who wait, whatever other threads do meanwhile. */
module ThreadOrders {
  import opened Options
  import opened ThreadModel
  import opened ThreadProofs
  import opened ThreadRuns

  // ---- condition variables ----

  /** The thread that begins to wait on the condition in this step, if one does: its Wait is accepted. */
  function CondJoins(k: Kernel, s: Step, c: nat): (r: seq<Tid>)
    requires Enabled(k, s) && c < |k.conds|
  {
    if s.DoWait? && s.cond == c && s.passed.Some? && (k.conds[c].lock.None? || k.conds[c].lock == s.passed)
    then [k.current.value] else []
  }

  /** The thread that a Signal with the remembered lock wakes in this step, if it does. */
  function CondLeaves(k: Kernel, s: Step, c: nat): (r: seq<Tid>)
    requires Enabled(k, s) && c < |k.conds|
  {
    if s.DoSignal? && s.cond == c && s.passed == k.conds[c].lock && k.conds[c].waiting != []
    then [k.conds[c].waiting[0]] else []
  }

  lemma WaitQueues(k: Kernel, s: Step, c: nat)
    requires Enabled(k, s) && c < |k.conds| && s.DoWait?
    ensures |Next(k, s).conds| == |k.conds| && |Next(k, s).locks| == |k.locks|
    ensures Next(k, s).conds[c].waiting == k.conds[c].waiting + CondJoins(k, s, c)
  {
    assert k.conds[c].waiting + [] == k.conds[c].waiting;
  }

  lemma SignalDequeues(k: Kernel, s: Step, c: nat)
    requires Enabled(k, s) && c < |k.conds| && s.DoSignal?
    ensures |Next(k, s).conds| == |k.conds| && |Next(k, s).locks| == |k.locks|
    ensures CondLeaves(k, s, c) + Next(k, s).conds[c].waiting == k.conds[c].waiting
    ensures CondLeaves(k, s, c) != [] ==> Next(k, s).ready == k.ready + CondLeaves(k, s, c)
  {
    var q := k.conds[c].waiting;
    if CondLeaves(k, s, c) != [] {
      assert [q[0]] + q[1..] == q;
    } else {
      assert [] + q == q;
    }
  }

  lemma CondStep(k: Kernel, s: Step, c: nat)
    requires Enabled(k, s) && c < |k.conds|
    ensures var k' := Next(k, s);
            && |k'.conds| == |k.conds| && |k'.locks| == |k.locks|
            && CondLeaves(k, s, c) + k'.conds[c].waiting == k.conds[c].waiting + CondJoins(k, s, c)
            && (CondLeaves(k, s, c) != [] ==> k'.ready == k.ready + CondLeaves(k, s, c))
  {
    assert [] + Next(k, s).conds[c].waiting == Next(k, s).conds[c].waiting;
    assert k.conds[c].waiting + [] == k.conds[c].waiting;
    if s.DoWait? {
      WaitQueues(k, s, c);
    } else if s.DoSignal? {
      SignalDequeues(k, s, c);
    }
  }

  function CondJoined(k: Kernel, steps: seq<Step>, c: nat): (r: seq<Tid>)
    requires IsRun(k, steps) && c < |k.conds|
    decreases |steps|
  {
    if steps == [] then [] else
      CondStep(k, steps[0], c);
      CondJoins(k, steps[0], c) + CondJoined(Next(k, steps[0]), steps[1..], c)
  }

  function CondWoken(k: Kernel, steps: seq<Step>, c: nat): (r: seq<Tid>)
    requires IsRun(k, steps) && c < |k.conds|
    decreases |steps|
  {
    if steps == [] then [] else
      CondStep(k, steps[0], c);
      CondLeaves(k, steps[0], c) + CondWoken(Next(k, steps[0]), steps[1..], c)
  }

  lemma Passing<T>(out: seq<T>, q': seq<T>, q: seq<T>, come: seq<T>, outs: seq<T>, end: seq<T>, comes: seq<T>)
    requires out + q' == q + come && outs + end == q' + comes
    ensures (out + outs) + end == q + (come + comes)
  {
    assert (out + outs) + end == out + (outs + end);
    assert out + (q' + comes) == (out + q') + comes;
    assert (q + come) + comes == q + (come + comes);
  }

  /** Over every run the threads a condition variable wakes are those that waited, first come first, and those that
      still wait are the rest: none is lost, none is overtaken. */
  lemma {:induction false} CondQueueIsFifo(k: Kernel, steps: seq<Step>, c: nat)
    requires IsRun(k, steps) && c < |k.conds|
    ensures var k' := After(k, steps);
            && |k'.conds| == |k.conds|
            && CondWoken(k, steps, c) + k'.conds[c].waiting == k.conds[c].waiting + CondJoined(k, steps, c)
    decreases |steps|
  {
    var q := k.conds[c].waiting;
    if steps == [] {
      assert [] + q == q + [];
    } else {
      var s, rest, k1 := steps[0], steps[1..], Next(k, steps[0]);
      CondStep(k, s, c);
      CondQueueIsFifo(k1, rest, c);
      Passing(CondLeaves(k, s, c), k1.conds[c].waiting, q, CondJoins(k, s, c),
              CondWoken(k1, rest, c), After(k1, rest).conds[c].waiting, CondJoined(k1, rest, c));
    }
  }

  // ---- locks ----

  /** The thread that begins to wait for the lock in this step: by Acquire, or on its way back from Wait. */
  function LockJoins(k: Kernel, s: Step, l: nat): (r: seq<Tid>)
    requires Enabled(k, s) && l < |k.locks|
  {
    if (s == DoAcquire(l) || (s.DoContinue? && k.resume[k.current.value] == Reacquire(l)))
       && k.locks[l].busy && k.locks[l].owner != k.current
    then [k.current.value] else []
  }

  /** The step gives the lock up: its owner's Release, or its owner's Wait that passes it. */
  predicate GivesUp(k: Kernel, s: Step, l: nat)
    requires Enabled(k, s) && l < |k.locks|
  {
    && k.current.Some? && k.locks[l].owner == k.current
    && (s == DoRelease(l)
        || (s.DoWait? && s.passed == Some(l) && (k.conds[s.cond].lock.None? || k.conds[s.cond].lock == s.passed)))
  }

  /** The thread that gets the lock in this step after waiting for it. */
  function LockLeaves(k: Kernel, s: Step, l: nat): (r: seq<Tid>)
    requires Enabled(k, s) && l < |k.locks|
  {
    if GivesUp(k, s, l) && k.locks[l].waiting != [] then [k.locks[l].waiting[0]] else []
  }

  /** What a step does to the queue of a lock. */
  predicate LockMoves(k: Kernel, s: Step, l: nat)
    requires Enabled(k, s) && l < |k.locks|
  {
    var k' := Next(k, s);
    && |k'.locks| == |k.locks|
    && LockLeaves(k, s, l) + k'.locks[l].waiting == k.locks[l].waiting + LockJoins(k, s, l)
    && (LockLeaves(k, s, l) != [] ==> k'.locks[l].owner == Some(LockLeaves(k, s, l)[0]))
  }

  lemma SameQueue<T>(q: seq<T>)
    ensures [] + q == q + [] == q
  {
  }

  lemma AcquireQueues(k: Kernel, j: nat, l: nat)
    requires k.current.Some? && j < |k.locks| && l < |k.locks|
    ensures |Acquire(k, j).locks| == |k.locks|
    ensures Acquire(k, j).locks[l].waiting ==
      k.locks[l].waiting + (if j == l && k.locks[l].busy && k.locks[l].owner != k.current then [k.current.value] else [])
  {
    SameQueue(k.locks[l].waiting);
  }

  /** The waiter that a Release readies, if it does. */
  function Heir(k: Kernel, j: nat, l: nat): (r: seq<Tid>)
    requires k.current.Some? && l < |k.locks|
  {
    if j == l && k.locks[l].owner == k.current && k.locks[l].waiting != [] then [k.locks[l].waiting[0]] else []
  }

  lemma ReleaseDequeues(k: Kernel, j: nat, l: nat)
    requires k.current.Some? && j < |k.locks| && l < |k.locks|
    ensures |Release(k, j).locks| == |k.locks| && Heir(k, j, l) + Release(k, j).locks[l].waiting == k.locks[l].waiting
    ensures Heir(k, j, l) != [] ==> Release(k, j).locks[l].owner == Some(Heir(k, j, l)[0])
  {
    var q := k.locks[l].waiting;
    if Heir(k, j, l) != [] {
      assert [q[0]] + q[1..] == q;
    } else {
      SameQueue(q);
    }
  }

  lemma AcquireMoves(k: Kernel, j: nat, l: nat)
    requires Enabled(k, DoAcquire(j)) && l < |k.locks|
    ensures LockMoves(k, DoAcquire(j), l)
  {
    AcquireQueues(k, j, l);
    var q' := Acquire(k, j).locks[l].waiting;
    assert LockLeaves(k, DoAcquire(j), l) + q' == q' by {
      assert LockLeaves(k, DoAcquire(j), l) == [];
    }
    assert k.locks[l].waiting + LockJoins(k, DoAcquire(j), l) == q' by {
      assert LockJoins(k, DoAcquire(j), l)
        == if j == l && k.locks[l].busy && k.locks[l].owner != k.current then [k.current.value] else [];
    }
  }

  lemma ContinueMoves(k: Kernel, l: nat)
    requires Enabled(k, DoContinue) && l < |k.locks|
    ensures LockMoves(k, DoContinue, l)
  {
    SameQueue(k.locks[l].waiting);
    if k.resume[k.current.value].Reacquire? {
      AcquireQueues(k, k.resume[k.current.value].lock, l);
    }
    SameQueue(Continue(k).locks[l].waiting);
  }

  lemma ReleaseMoves(k: Kernel, j: nat, l: nat)
    requires Enabled(k, DoRelease(j)) && l < |k.locks|
    ensures LockMoves(k, DoRelease(j), l)
  {
    ReleaseDequeues(k, j, l);
    SameQueue(k.locks[l].waiting);
    assert LockLeaves(k, DoRelease(j), l) == Heir(k, j, l);
  }

  lemma WaitMoves(k: Kernel, c: nat, passed: Option<nat>, l: nat)
    requires Enabled(k, DoWait(c, passed)) && l < |k.locks|
    ensures LockMoves(k, DoWait(c, passed), l)
  {
    var t, cond := k.current.value, k.conds[c];
    SameQueue(k.locks[l].waiting);
    if passed.Some? && (cond.lock.None? || cond.lock == passed) {
      var queued := k.(conds := k.conds[c := CondState(passed, cond.waiting + [t])],
                       resume := k.resume[t := Reacquire(passed.value)]);
      ReleaseDequeues(queued, passed.value, l);
      assert Heir(queued, passed.value, l) == LockLeaves(k, DoWait(c, passed), l);
    }
  }

  lemma OtherMoves(k: Kernel, s: Step, l: nat)
    requires Enabled(k, s) && l < |k.locks|
    requires !s.DoAcquire? && !s.DoContinue? && !s.DoRelease? && !s.DoWait?
    ensures LockMoves(k, s, l)
  {
    SameQueue(k.locks[l].waiting);
    assert Next(k, s).locks == k.locks;
  }

  lemma LockStep(k: Kernel, s: Step, l: nat)
    requires Enabled(k, s) && l < |k.locks|
    ensures LockMoves(k, s, l)
  {
    match s
    case DoAcquire(j) => AcquireMoves(k, j, l);
    case DoContinue => ContinueMoves(k, l);
    case DoRelease(j) => ReleaseMoves(k, j, l);
    case DoWait(c, passed) => WaitMoves(k, c, passed, l);
    case _ => OtherMoves(k, s, l);
  }

  function LockJoined(k: Kernel, steps: seq<Step>, l: nat): (r: seq<Tid>)
    requires IsRun(k, steps) && l < |k.locks|
    decreases |steps|
  {
    if steps == [] then [] else
      LockStep(k, steps[0], l);
      LockJoins(k, steps[0], l) + LockJoined(Next(k, steps[0]), steps[1..], l)
  }

  function LockGranted(k: Kernel, steps: seq<Step>, l: nat): (r: seq<Tid>)
    requires IsRun(k, steps) && l < |k.locks|
    decreases |steps|
  {
    if steps == [] then [] else
      LockStep(k, steps[0], l);
      LockLeaves(k, steps[0], l) + LockGranted(Next(k, steps[0]), steps[1..], l)
  }

  /** Over every run a lock goes to those that waited for it, first come first, and the others still wait in order. */
  lemma {:induction false} LockIsFifo(k: Kernel, steps: seq<Step>, l: nat)
    requires IsRun(k, steps) && l < |k.locks|
    ensures var k' := After(k, steps);
            && |k'.locks| == |k.locks|
            && LockGranted(k, steps, l) + k'.locks[l].waiting == k.locks[l].waiting + LockJoined(k, steps, l)
    decreases |steps|
  {
    var q := k.locks[l].waiting;
    if steps == [] {
      assert [] + q == q + [];
    } else {
      var s, rest, k1 := steps[0], steps[1..], Next(k, steps[0]);
      LockStep(k, s, l);
      LockIsFifo(k1, rest, l);
      Passing(LockLeaves(k, s, l), k1.locks[l].waiting, q, LockJoins(k, s, l),
              LockGranted(k1, rest, l), After(k1, rest).locks[l].waiting, LockJoined(k1, rest, l));
    }
  }

  // ---- a lock handed over ----

  /** The thread owns the lock and has yet to come back from the call it waited in; it is ready or on the processor. */
  predicate Awarded(k: Kernel, t: Tid, l: nat) {
    && l < |k.locks| && k.locks[l].owner == Some(t) && t in k.resume && k.resume[t] == Granted(l)
    && (k.current == Some(t) || t in k.ready)
  }

  /** Until then the thread takes no step. */
  predicate NotResumed(k: Kernel, steps: seq<Step>, t: Tid)
    requires IsRun(k, steps)
    decreases |steps|
  {
    steps == [] || (k.current != Some(t) && NotResumed(Next(k, steps[0]), steps[1..], t))
  }

  lemma SleepKeepsReady(k: Kernel, t: Tid)
    requires t in k.ready
    ensures Sleep(k).current == Some(t) || t in Sleep(k).ready
  {
    assert k.ready == [k.ready[0]] + k.ready[1..];
  }

  /** A ready thread stays ready until it is dispatched. */
  lemma ReadyStays(k: Kernel, s: Step, t: Tid)
    requires Enabled(k, s) && t in k.ready
    ensures Next(k, s).current == Some(t) || t in Next(k, s).ready
  {
    SleepKeepsReady(k, t);
    if s.DoWait? {
      var l := s.passed;
      if l.Some? && (k.conds[s.cond].lock.None? || k.conds[s.cond].lock == l) {
        var queued := k.(conds := k.conds[s.cond := CondState(l, k.conds[s.cond].waiting + [k.current.value])],
                         resume := k.resume[k.current.value := Reacquire(l.value)]);
        SleepKeepsReady(Release(queued, l.value), t);
      }
    }
  }

  lemma ResumeStays(k: Kernel, s: Step, t: Tid)
    requires Enabled(k, s) && t in k.resume && k.current != Some(t)
    ensures t in Next(k, s).resume && Next(k, s).resume[t] == k.resume[t]
  {
  }

  lemma AwardStays(k: Kernel, s: Step, t: Tid, l: nat)
    requires Inv(k) && Enabled(k, s) && Awarded(k, t, l) && k.current != Some(t)
    ensures Awarded(Next(k, s), t, l)
  {
    HandOffIsKept(k, s, t, l);
    ReadyStays(k, s, t);
    ResumeStays(k, s, t);
  }

  lemma {:induction false} AwardStaysOverRun(k: Kernel, steps: seq<Step>, t: Tid, l: nat)
    requires Inv(k) && IsRun(k, steps) && NotResumed(k, steps, t) && Awarded(k, t, l)
    ensures Awarded(After(k, steps), t, l)
    decreases |steps|
  {
    if steps != [] {
      AwardStays(k, steps[0], t, l);
      StepKeepsInv(k, steps[0]);
      AwardStaysOverRun(Next(k, steps[0]), steps[1..], t, l);
    }
  }

  /** From the Release that hands the lock over, through every run in which its new owner does not get the
      processor, no other thread holds the lock: the new owner does, and is ready. Its next step makes it hold it. */
  lemma {:induction false} HandOffOverRun(k: Kernel, l: nat, steps: seq<Step>)
    requires Inv(k) && Enabled(k, DoRelease(l)) && k.locks[l].owner == k.current && k.locks[l].waiting != []
    requires IsRun(Next(k, DoRelease(l)), steps) && NotResumed(Next(k, DoRelease(l)), steps, k.locks[l].waiting[0])
    ensures var t, k' := k.locks[l].waiting[0], After(Next(k, DoRelease(l)), steps);
            && Awarded(k', t, l)
            && (forall u :: (u, l) in k'.held ==> u == t)
            && (k'.current == Some(t) ==> Enabled(k', DoContinue) && (t, l) in Next(k', DoContinue).held)
  {
    var t, k1 := k.locks[l].waiting[0], Next(k, DoRelease(l));
    NotQueued(k, k.current.value);
    assert AllResume(k.locks[l].waiting, k.resume, Granted(l)) && k1.ready[|k.ready|] == t;
    StepKeepsInv(k, DoRelease(l));
    AwardStaysOverRun(k1, steps, t, l);
    RunKeepsInv(k1, steps);
  }

  // ---- Broadcast under interleaving ----

  /** The thread owns the lock at every state of the run. */
  predicate OwnsThroughout(k: Kernel, steps: seq<Step>, b: Tid, l: nat)
    requires IsRun(k, steps)
    decreases |steps|
  {
    && l < |k.locks| && k.locks[l].owner == Some(b)
    && (steps != [] ==> OwnsThroughout(Next(k, steps[0]), steps[1..], b, l))
  }

  /** Only the owner of the lock waits on the condition, and passes that lock. */
  predicate OwnersWait(k: Kernel, steps: seq<Step>, c: nat, l: nat)
    requires IsRun(k, steps)
    decreases |steps|
  {
    steps != [] ==>
      && (steps[0].DoWait? && steps[0].cond == c ==>
            steps[0].passed == Some(l) && l < |k.locks| && k.locks[l].owner == k.current)
      && OwnersWait(Next(k, steps[0]), steps[1..], c, l)
  }

  /** How often the thread signals the condition with the lock. */
  function SignalsBy(k: Kernel, steps: seq<Step>, b: Tid, c: nat, l: nat): (n: nat)
    requires IsRun(k, steps)
    decreases |steps|
  {
    if steps == [] then 0 else
      (if k.current == Some(b) && steps[0] == DoSignal(c, Some(l)) then 1 else 0)
      + SignalsBy(Next(k, steps[0]), steps[1..], b, c, l)
  }

  /** An owner that waits gives its lock up. */
  lemma WaitGivesUp(k: Kernel, s: Step, c: nat, l: nat)
    requires Inv(k) && Enabled(k, s) && s == DoWait(c, Some(l)) && k.locks[l].owner == k.current
    requires Next(k, s).locks[l].owner == k.current
    ensures CondJoins(k, s, c) == []
  {
    NotQueued(k, k.current.value);
  }

  /** Nobody joins while the broadcaster owns the lock, and the remembered lock stays. */
  lemma SignalledStep(k: Kernel, s: Step, b: Tid, c: nat, l: nat)
    requires Inv(k) && Enabled(k, s) && c < |k.conds| && l < |k.locks|
    requires k.locks[l].owner == Some(b) && Next(k, s).locks[l].owner == Some(b)
    requires s.DoWait? && s.cond == c ==> s.passed == Some(l) && k.locks[l].owner == k.current
    requires k.conds[c].waiting != [] ==> k.conds[c].lock == Some(l)
    ensures CondJoins(k, s, c) == []
    ensures var cond, cond' := k.conds[c], Next(k, s).conds[c];
            && (cond'.waiting != [] ==> cond'.lock == Some(l))
            && |cond'.waiting| <= |cond.waiting|
            && (s == DoSignal(c, Some(l)) ==> cond'.waiting == [] || |cond'.waiting| < |cond.waiting|)
  {
    if s.DoWait? && s.cond == c {
      WaitGivesUp(k, s, c, l);
    }
    CondStep(k, s, c);
  }

  /** Each Signal of the broadcaster wakes one more thread, for as long as one waits. */
  lemma {:induction false} SignalsWake(k: Kernel, steps: seq<Step>, b: Tid, c: nat, l: nat)
    requires Inv(k) && IsRun(k, steps) && c < |k.conds| && OwnsThroughout(k, steps, b, l) && OwnersWait(k, steps, c, l)
    requires k.conds[c].waiting != [] ==> k.conds[c].lock == Some(l)
    ensures |After(k, steps).conds| == |k.conds| && CondJoined(k, steps, c) == []
    ensures var end := After(k, steps).conds[c].waiting;
            end == [] || |end| + SignalsBy(k, steps, b, c, l) <= |k.conds[c].waiting|
    decreases |steps|
  {
    if steps != [] {
      var s, k1 := steps[0], Next(k, steps[0]);
      SignalledStep(k, s, b, c, l);
      StepKeepsInv(k, s);
      CondStep(k, s, c);
      SignalsWake(k1, steps[1..], b, c, l);
    }
  }

  /** Broadcast while other threads run in between: its caller owns the condition's lock throughout, and only owners
      of that lock wait. Then what the run wakes is a front part of those that waited at the start, oldest first;
      and after as many Signals as threads waited, the loop of Broadcast ends with exactly all of them woken. */
  lemma {:induction false} BroadcastInterleaved(k: Kernel, steps: seq<Step>, b: Tid, c: nat, l: nat)
    requires Inv(k) && IsRun(k, steps) && c < |k.conds| && OwnsThroughout(k, steps, b, l) && OwnersWait(k, steps, c, l)
    requires k.conds[c].waiting != [] ==> k.conds[c].lock == Some(l)
    ensures |After(k, steps).conds| == |k.conds|
    ensures var woken, end := CondWoken(k, steps, c), After(k, steps).conds[c].waiting;
            && woken + end == k.conds[c].waiting
            && (SignalsBy(k, steps, b, c, l) >= |k.conds[c].waiting| ==> end == [] && woken == k.conds[c].waiting)
  {
    SignalsWake(k, steps, b, c, l);
    CondQueueIsFifo(k, steps, c);
    assert k.conds[c].waiting + [] == k.conds[c].waiting;
    var woken := CondWoken(k, steps, c);
    assert woken + [] == woken;
  }

  /** Without any discipline: when a Broadcast sees the queue empty, everybody that waited when it began was woken
      first and in order, and then exactly those that came meanwhile. */
  lemma {:induction false} BroadcastSeesAll(k: Kernel, steps: seq<Step>, c: nat)
    requires IsRun(k, steps) && c < |k.conds|
    ensures |After(k, steps).conds| == |k.conds|
    ensures After(k, steps).conds[c].waiting == [] <==>
      CondWoken(k, steps, c) == k.conds[c].waiting + CondJoined(k, steps, c)
  {
    CondQueueIsFifo(k, steps, c);
    var woken, end := CondWoken(k, steps, c), After(k, steps).conds[c].waiting;
    assert |woken + end| == |woken| + |end| && woken + [] == woken;
  }
}
