/** Laws of the threads over whole runs: semaphores neither make nor lose units, so that one of value one excludes;
    threads leave semaphores and the ready list in the order they came; and who comes back from Acquire holds the lock. */
module ThreadLaws {
  import opened Options
  import opened ThreadModel
  import opened ThreadProofs
  import opened ThreadRuns
  import opened ThreadOrders

  // ---- units ----

  /** The thread is at a P in this step: it calls P, or tries again after it was readied. */
  predicate AtP(k: Kernel, s: Step, i: nat)
    requires Enabled(k, s)
  {
    s == DoP(i) || (s.DoContinue? && k.resume[k.current.value] == RetryP(i))
  }

  /** The thread is past its P after this step. */
  predicate ComesBack(k: Kernel, s: Step, i: nat)
    requires Enabled(k, s) && i < |k.sems|
  {
    AtP(k, s, i) && k.current.value in Next(k, s).resume && Next(k, s).resume[k.current.value] == Returned
  }

  function ValueOf(k: Kernel, i: nat): (v: nat)
    requires i < |k.sems|
  {
    k.sems[i].value
  }

  /** A P comes back exactly when there is a unit, and then one less is left; a V makes one more. */
  lemma UnitsMove(k: Kernel, s: Step, i: nat)
    requires Enabled(k, s) && i < |k.sems|
    ensures |Next(k, s).sems| == |k.sems|
    ensures AtP(k, s, i) ==> (ComesBack(k, s, i) <==> ValueOf(k, i) > 0)
    ensures ValueOf(Next(k, s), i) + (if ComesBack(k, s, i) then 1 else 0) == ValueOf(k, i) + (if s == DoV(i) then 1 else 0)
  {
  }

  /** How many P calls come back in the run. */
  function Returns(k: Kernel, steps: seq<Step>, i: nat): (n: nat)
    requires IsRun(k, steps) && i < |k.sems|
    decreases |steps|
  {
    if steps == [] then 0 else
      UnitsMove(k, steps[0], i);
      (if ComesBack(k, steps[0], i) then 1 else 0) + Returns(Next(k, steps[0]), steps[1..], i)
  }

  /** How many Vs there are. */
  function Vs(steps: seq<Step>, i: nat): (n: nat) {
    if steps == [] then 0 else (if steps[0] == DoV(i) then 1 else 0) + Vs(steps[1..], i)
  }

  /** Over every run the value of a semaphore counts its units: those it started with and those of the Vs, less one for
      each P that came back. */
  lemma {:induction false} UnitsAreConserved(k: Kernel, steps: seq<Step>, i: nat)
    requires IsRun(k, steps) && i < |k.sems|
    ensures |After(k, steps).sems| == |k.sems|
    ensures ValueOf(After(k, steps), i) + Returns(k, steps, i) == ValueOf(k, i) + Vs(steps, i)
    decreases |steps|
  {
    if steps != [] {
      UnitsMove(k, steps[0], i);
      UnitsAreConserved(Next(k, steps[0]), steps[1..], i);
    }
  }

  // ---- exclusion ----

  /** The threads between a P that came back and their V. */
  function InsideNext(k: Kernel, s: Step, i: nat, inside: multiset<Tid>): (r: multiset<Tid>)
    requires Enabled(k, s) && i < |k.sems|
  {
    if ComesBack(k, s, i) then inside + multiset{k.current.value}
    else if s == DoV(i) && k.current.Some? then inside - multiset{k.current.value}
    else inside
  }

  function InsideAfter(k: Kernel, steps: seq<Step>, i: nat, inside: multiset<Tid>): (r: multiset<Tid>)
    requires IsRun(k, steps) && i < |k.sems|
    decreases |steps|
  {
    if steps == [] then inside else
      UnitsMove(k, steps[0], i);
      InsideAfter(Next(k, steps[0]), steps[1..], i, InsideNext(k, steps[0], i, inside))
  }

  /** Only a thread inside calls V. */
  predicate InsidersLeave(k: Kernel, steps: seq<Step>, i: nat, inside: multiset<Tid>)
    requires IsRun(k, steps) && i < |k.sems|
    decreases |steps|
  {
    if steps == [] then true else
      UnitsMove(k, steps[0], i);
      && (steps[0] == DoV(i) ==> k.current.Some? && k.current.value in inside)
      && InsidersLeave(Next(k, steps[0]), steps[1..], i, InsideNext(k, steps[0], i, inside))
  }

  lemma {:induction false} InsidersHaveUnits(k: Kernel, steps: seq<Step>, i: nat, inside: multiset<Tid>)
    requires IsRun(k, steps) && i < |k.sems| && InsidersLeave(k, steps, i, inside)
    ensures |After(k, steps).sems| == |k.sems|
    ensures ValueOf(After(k, steps), i) + |InsideAfter(k, steps, i, inside)| == ValueOf(k, i) + |inside|
    decreases |steps|
  {
    if steps != [] {
      UnitsMove(k, steps[0], i);
      InsidersHaveUnits(Next(k, steps[0]), steps[1..], i, InsideNext(k, steps[0], i, inside));
    }
  }

  lemma InsideCounts(inside: multiset<Tid>, t: Tid, u: Tid)
    requires t != u
    ensures inside[t] + inside[u] <= |inside|
  {
    assert |inside[t := 0][u := 0]| == |inside| - inside[t] - inside[u];
  }

  /** Mutual exclusion: with a semaphore of value one, at every state of every run in which only a thread inside calls
      V, at most one thread is inside, and it is inside once. */
  lemma {:induction false} SemaphoreExcludes(k: Kernel, steps: seq<Step>, i: nat, t: Tid, u: Tid)
    requires IsRun(k, steps) && i < |k.sems| && ValueOf(k, i) == 1 && InsidersLeave(k, steps, i, multiset{})
    ensures var inside := InsideAfter(k, steps, i, multiset{});
            inside[t] <= 1 && (t in inside && u in inside ==> t == u)
  {
    InsidersHaveUnits(k, steps, i, multiset{});
    var inside := InsideAfter(k, steps, i, multiset{});
    InsideCounts(inside, t, t + 1);
    if t != u { InsideCounts(inside, t, u); }
  }

  // ---- who waits ----

  /** The thread that goes to sleep in P in this step, if one does. */
  function SemJoins(k: Kernel, s: Step, i: nat): (r: seq<Tid>)
    requires Enabled(k, s) && i < |k.sems|
  {
    if AtP(k, s, i) && !ComesBack(k, s, i) then [k.current.value] else []
  }

  /** The thread that a V readies. */
  function SemLeaves(k: Kernel, s: Step, i: nat): (r: seq<Tid>)
    requires Enabled(k, s) && i < |k.sems|
  {
    if s == DoV(i) && k.sems[i].queue != [] then [k.sems[i].queue[0]] else []
  }

  lemma PQueues(k: Kernel, s: Step, j: nat, i: nat)
    requires Enabled(k, s) && i < |k.sems| && j < |k.sems| && AtP(k, s, j)
    ensures Next(k, s).sems[i].queue == k.sems[i].queue + SemJoins(k, s, i)
  {
    UnitsMove(k, s, i);
    SameQueue(k.sems[i].queue);
  }

  lemma VDequeues(k: Kernel, j: nat, i: nat)
    requires Enabled(k, DoV(j)) && i < |k.sems|
    ensures SemLeaves(k, DoV(j), i) + V(k, j).sems[i].queue == k.sems[i].queue
  {
    var q := k.sems[i].queue;
    if SemLeaves(k, DoV(j), i) != [] {
      assert [q[0]] + q[1..] == q;
    } else {
      SameQueue(q);
    }
  }

  lemma OtherSemStep(k: Kernel, s: Step)
    requires Enabled(k, s) && !s.DoP? && !s.DoV? && (s.DoContinue? ==> !k.resume[k.current.value].RetryP?)
    ensures Next(k, s).sems == k.sems
  {
  }

  lemma SemStep(k: Kernel, s: Step, i: nat)
    requires Enabled(k, s) && i < |k.sems|
    ensures |Next(k, s).sems| == |k.sems|
    ensures SemLeaves(k, s, i) + Next(k, s).sems[i].queue == k.sems[i].queue + SemJoins(k, s, i)
  {
    UnitsMove(k, s, i);
    SameQueue(Next(k, s).sems[i].queue);
    SameQueue(k.sems[i].queue);
    match s
    case DoP(j) => PQueues(k, s, j, i);
    case DoV(j) => VDequeues(k, j, i);
    case DoContinue =>
      if k.resume[k.current.value].RetryP? {
        PQueues(k, s, k.resume[k.current.value].sem, i);
      } else {
        OtherSemStep(k, s);
      }
    case _ => OtherSemStep(k, s);
  }

  function SemJoined(k: Kernel, steps: seq<Step>, i: nat): (r: seq<Tid>)
    requires IsRun(k, steps) && i < |k.sems|
    decreases |steps|
  {
    if steps == [] then [] else
      SemStep(k, steps[0], i);
      SemJoins(k, steps[0], i) + SemJoined(Next(k, steps[0]), steps[1..], i)
  }

  function SemWoken(k: Kernel, steps: seq<Step>, i: nat): (r: seq<Tid>)
    requires IsRun(k, steps) && i < |k.sems|
    decreases |steps|
  {
    if steps == [] then [] else
      SemStep(k, steps[0], i);
      SemLeaves(k, steps[0], i) + SemWoken(Next(k, steps[0]), steps[1..], i)
  }

  /** Over every run the threads that Vs ready are those that went to sleep in P, first come first, and the others still
      wait in order. */
  lemma {:induction false} SemaphoreIsFifo(k: Kernel, steps: seq<Step>, i: nat)
    requires IsRun(k, steps) && i < |k.sems|
    ensures |After(k, steps).sems| == |k.sems|
    ensures SemWoken(k, steps, i) + After(k, steps).sems[i].queue == k.sems[i].queue + SemJoined(k, steps, i)
    decreases |steps|
  {
    var q := k.sems[i].queue;
    if steps == [] {
      assert [] + q == q + [];
    } else {
      var s, rest, k1 := steps[0], steps[1..], Next(k, steps[0]);
      SemStep(k, s, i);
      SemaphoreIsFifo(k1, rest, i);
      Passing(SemLeaves(k, s, i), k1.sems[i].queue, q, SemJoins(k, s, i),
              SemWoken(k1, rest, i), After(k1, rest).sems[i].queue, SemJoined(k1, rest, i));
    }
  }

  // ---- the ready list ----

  /** The thread that becomes ready in this step: a new one, one that yields to others, or one woken from a queue. */
  function Readied(k: Kernel, s: Step): (r: seq<Tid>)
    requires Enabled(k, s)
  {
    match s
    case DoV(i) => SemLeaves(k, s, i)
    case DoRelease(l) => LockLeaves(k, s, l)
    case DoWait(c, l) => if l.None? then [] else LockLeaves(k, s, l.value)
    case DoSignal(c, l) => CondLeaves(k, s, c)
    case DoYield => if k.ready == [] then [] else [k.current.value]
    case DoFork(t) => [t]
    case _ => []
  }

  /** The thread that gets the processor in this step. */
  function Dispatched(k: Kernel, s: Step): (r: seq<Tid>)
    requires Enabled(k, s)
  {
    var now := Next(k, s).current;
    if now.Some? && now != k.current then [now.value] else []
  }

  /** The ready list of a thread that goes to sleep, and what it passes the processor to. */
  lemma SleepTakesFront(k: Kernel, t: Tid)
    requires t !in k.ready
    ensures var k' := Sleep(k);
            && k'.current != Some(t)
            && (if k'.current.Some? then [k'.current.value] else []) + k'.ready == k.ready
  {
    if k.ready != [] {
      assert [k.ready[0]] + k.ready[1..] == k.ready;
    } else {
      SameQueue(k.ready);
    }
  }

  /** What a step does to the ready list. */
  predicate ReadyMoves(k: Kernel, s: Step)
    requires Enabled(k, s)
  {
    Dispatched(k, s) + Next(k, s).ready == k.ready + Readied(k, s)
  }

  /** The current thread runs on, or goes to sleep, and nothing else becomes ready. */
  lemma OwnReady(k: Kernel, s: Step, k1: Kernel)
    requires Inv(k) && Enabled(k, s) && k.current.Some? && Readied(k, s) == []
    requires k1.current == k.current && k1.ready == k.ready && (Next(k, s) == k1 || Next(k, s) == Sleep(k1))
    ensures ReadyMoves(k, s)
  {
    NotQueued(k, k.current.value);
    SleepTakesFront(k1, k.current.value);
    SameQueue(k.ready);
  }

  lemma PReady(k: Kernel, s: Step, i: nat)
    requires Inv(k) && Enabled(k, s) && AtP(k, s, i) && i < |k.sems|
    ensures ReadyMoves(k, s)
  {
    var t := k.current.value;
    var (sem, sleeps) := SemP(k.sems[i], t);
    OwnReady(k, s, k.(sems := k.sems[i := sem], resume := k.resume[t := if sleeps then RetryP(i) else Returned]));
  }

  lemma AcquireReady(k: Kernel, s: Step, l: nat)
    requires Inv(k) && Enabled(k, s) && l < |k.locks|
    requires s == DoAcquire(l) || (s.DoContinue? && k.resume[k.current.value] == Reacquire(l))
    ensures ReadyMoves(k, s)
  {
    var t := k.current.value;
    var (lock, sleeps) := LockAcquired(k.locks[l], t);
    var k1 := k.(locks := k.locks[l := lock], resume := k.resume[t := if sleeps then Granted(l) else Returned]);
    OwnReady(k, s, if sleeps then k1 else k1.(held := k.held + {(t, l)}));
  }

  lemma ContinueReady(k: Kernel)
    requires Inv(k) && Enabled(k, DoContinue)
    ensures ReadyMoves(k, DoContinue)
  {
    var r := k.resume[k.current.value];
    if r.RetryP? {
      PReady(k, DoContinue, r.sem);
    } else if r.Reacquire? {
      AcquireReady(k, DoContinue, r.lock);
    } else {
      OwnReady(k, DoContinue, Continue(k));
    }
  }

  lemma WokenReady(k: Kernel, s: Step)
    requires Inv(k) && Enabled(k, s) && (s.DoV? || s.DoRelease? || s.DoSignal? || s.DoFork?)
    ensures ReadyMoves(k, s)
  {
    SameQueue(k.ready);
    SameQueue(Next(k, s).ready);
  }

  lemma YieldReady(k: Kernel, s: Step)
    requires Inv(k) && Enabled(k, s) && (s.DoYield? || s.Dispatch?)
    ensures ReadyMoves(k, s)
  {
    SameQueue(k.ready);
    if k.ready != [] {
      if s.DoYield? { NotQueued(k, k.current.value); }
      assert k.ready == [k.ready[0]] + k.ready[1..];
      assert [k.ready[0]] + (k.ready[1..] + Readied(k, s)) == [k.ready[0]] + k.ready[1..] + Readied(k, s);
      SameQueue(k.ready[1..]);
    }
  }

  lemma WaitReady(k: Kernel, c: nat, l: Option<nat>)
    requires Inv(k) && Enabled(k, DoWait(c, l))
    ensures ReadyMoves(k, DoWait(c, l))
  {
    var t, cond := k.current.value, k.conds[c];
    SameQueue(k.ready);
    if l.Some? && (cond.lock.None? || cond.lock == l) {
      var queued := k.(conds := k.conds[c := CondState(l, cond.waiting + [t])], resume := k.resume[t := Reacquire(l.value)]);
      var released := Release(queued, l.value);
      NotQueued(k, t);
      assert released.ready == k.ready + LockLeaves(k, DoWait(c, l), l.value);
      SleepTakesFront(released, t);
    }
  }

  lemma ReadyStep(k: Kernel, s: Step)
    requires Inv(k) && Enabled(k, s)
    ensures ReadyMoves(k, s)
  {
    match s
    case DoP(i) => PReady(k, s, i);
    case DoAcquire(l) => AcquireReady(k, s, l);
    case DoContinue => ContinueReady(k);
    case DoFinish => OwnReady(k, s, k.(live := k.live - {k.current.value}));
    case DoV(_) | DoRelease(_) | DoSignal(_, _) | DoFork(_) => WokenReady(k, s);
    case DoWait(c, l) => WaitReady(k, c, l);
    case DoYield | Dispatch => YieldReady(k, s);
  }

  function ReadiedOver(k: Kernel, steps: seq<Step>): (r: seq<Tid>)
    requires IsRun(k, steps)
    decreases |steps|
  {
    if steps == [] then [] else Readied(k, steps[0]) + ReadiedOver(Next(k, steps[0]), steps[1..])
  }

  function DispatchedOver(k: Kernel, steps: seq<Step>): (r: seq<Tid>)
    requires IsRun(k, steps)
    decreases |steps|
  {
    if steps == [] then [] else Dispatched(k, steps[0]) + DispatchedOver(Next(k, steps[0]), steps[1..])
  }

  /** Over every run the processor goes to the threads in the order in which they became ready. */
  lemma {:induction false} ReadyListIsFifo(k: Kernel, steps: seq<Step>)
    requires Inv(k) && IsRun(k, steps)
    ensures DispatchedOver(k, steps) + After(k, steps).ready == k.ready + ReadiedOver(k, steps)
    decreases |steps|
  {
    if steps == [] {
      SameQueue(k.ready);
    } else {
      var s, rest, k1 := steps[0], steps[1..], Next(k, steps[0]);
      ReadyStep(k, s);
      StepKeepsInv(k, s);
      ReadyListIsFifo(k1, rest);
      Passing(Dispatched(k, s), k1.ready, k.ready, Readied(k, s),
              DispatchedOver(k1, rest), After(k1, rest).ready, ReadiedOver(k1, rest));
    }
  }

  // ---- who holds a lock ----

  /** The thread is at an Acquire in this step: it calls Acquire, was granted the lock, or is on its way back from
      Wait. */
  predicate AtAcquire(k: Kernel, s: Step, l: nat)
    requires Enabled(k, s)
  {
    s == DoAcquire(l) || (s.DoContinue? && (k.resume[k.current.value] == Granted(l) || k.resume[k.current.value] == Reacquire(l)))
  }

  /** A thread comes back from Acquire, and from Wait, exactly when no other thread owns the lock, and then it holds
      it and runs on; otherwise it sleeps behind the threads that wait for it. */
  lemma AcquireComesBackHolding(k: Kernel, s: Step, l: nat)
    requires Inv(k) && Enabled(k, s) && l < |k.locks| && AtAcquire(k, s, l)
    ensures var t, k', lock := k.current.value, Next(k, s), k.locks[l];
            && |k'.locks| == |k.locks| && t in k'.resume
            && if lock.owner == None || lock.owner == Some(t)
               then k'.resume[t] == Returned && k'.current == Some(t) && k'.locks[l].owner == Some(t) && (t, l) in k'.held
               else k'.resume[t] == Granted(l) && k'.current != Some(t) && k'.locks[l] == lock.(waiting := lock.waiting + [t])
  {
    assert LockOK(k.locks[l]);
    NotQueued(k, k.current.value);
    SleepTakesFront(k, k.current.value);
  }

  lemma AcquireHolds(k: Kernel, s: Step, t: Tid, l: nat)
    requires Inv(k) && Enabled(k, s) && l < |k.locks| && k.current == Some(t) && AtAcquire(k, s, l)
    ensures (t, l) in Next(k, s).held <==> k.locks[l].owner == None || k.locks[l].owner == Some(t)
  {
    assert LockOK(k.locks[l]);
    NotQueued(k, t);
  }

  lemma OthersHold(k: Kernel, s: Step, t: Tid, l: nat)
    requires Enabled(k, s) && l < |k.locks| && !(k.current == Some(t) && AtAcquire(k, s, l))
    ensures (t, l) in Next(k, s).held <==> (t, l) in k.held && !(k.current == Some(t) && GivesUp(k, s, l))
  {
  }

  /** The history of who holds a lock changes by nothing else than coming back from Acquire and giving the lock up. */
  lemma HeldChanges(k: Kernel, s: Step, t: Tid, l: nat)
    requires Inv(k) && Enabled(k, s) && l < |k.locks|
    ensures (t, l) in Next(k, s).held <==>
      if k.current == Some(t) && AtAcquire(k, s, l) then k.locks[l].owner == None || k.locks[l].owner == Some(t)
      else (t, l) in k.held && !(k.current == Some(t) && GivesUp(k, s, l))
  {
    if k.current == Some(t) && AtAcquire(k, s, l) {
      AcquireHolds(k, s, t, l);
    } else {
      OthersHold(k, s, t, l);
    }
  }
}
