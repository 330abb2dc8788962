/** Threads on one processor: the ready list, semaphores, hand-off locks and Mesa condition variables. Each step is
    one region with interrupts off, up to the point where its thread sleeps. */
module ThreadModel {
  import opened Options

  type Tid = nat

  /** What a thread does first when it is next given the processor: the rest of the call it sleeps in. */
  datatype Resume = Returned | RetryP(sem: nat) | Granted(lock: nat) | Reacquire(lock: nat)

  datatype SemState = SemState(value: nat, queue: seq<Tid>)

  datatype LockState = LockState(busy: bool, owner: Option<Tid>, waiting: seq<Tid>)

  datatype CondState = CondState(lock: Option<nat>, waiting: seq<Tid>)

  /** `current` is None while the processor idles. `held` is the history of which thread came back from Acquire
      and did not release since. */
  datatype Kernel = Kernel(current: Option<Tid>, ready: seq<Tid>,
                           sems: seq<SemState>, locks: seq<LockState>, conds: seq<CondState>,
                           resume: map<Tid, Resume>, live: set<Tid>, held: set<(Tid, nat)>)

  // ---- scheduling ----

  /** The processor goes to the thread at the front of the ready list, if there is one. */
  function Sleep(k: Kernel): (k': Kernel) {
    if k.ready == [] then k.(current := None) else k.(current := Some(k.ready[0]), ready := k.ready[1..])
  }

  function Yield(k: Kernel): (k': Kernel)
    requires k.current.Some?
  {
    if k.ready == [] then k
    else k.(current := Some(k.ready[0]), ready := k.ready[1..] + [k.current.value])
  }

  function Fork(k: Kernel, t: Tid): (k': Kernel) {
    k.(live := k.live + {t}, ready := k.ready + [t], resume := k.resume[t := Returned])
  }

  function Finish(k: Kernel): (k': Kernel)
    requires k.current.Some?
  {
    Sleep(k.(live := k.live - {k.current.value}))
  }

  // ---- one object's own change, and whether the calling thread sleeps ----

  function SemP(s: SemState, t: Tid): (r: (SemState, bool)) {
    if s.value == 0 then (s.(queue := s.queue + [t]), true) else (s.(value := s.value - 1), false)
  }

  function LockAcquired(l: LockState, t: Tid): (r: (LockState, bool)) {
    if l.owner == Some(t) then (l, false)
    else if !l.busy then (l.(busy := true, owner := Some(t)), false)
    else (l.(waiting := l.waiting + [t]), true)
  }

  function SemV(s: SemState): (s': SemState) {
    SemState(s.value + 1, if s.queue == [] then [] else s.queue[1..])
  }

  /** Release by the owner: the longest waiter becomes the owner, or the lock is free. */
  function LockReleased(l: LockState): (l': LockState) {
    if l.waiting == [] then LockState(false, None, []) else l.(owner := Some(l.waiting[0]), waiting := l.waiting[1..])
  }

  /** Signal with waiters and the remembered lock: the oldest waiter leaves. */
  function CondSignalled(c: CondState): (c': CondState)
    requires c.waiting != []
  {
    CondState(if |c.waiting| == 1 then None else c.lock, c.waiting[1..])
  }

  function Woken(ready: seq<Tid>, queue: seq<Tid>): (r: seq<Tid>) {
    if queue == [] then ready else ready + [queue[0]]
  }

  // ---- the calls ----

  function P(k: Kernel, i: nat): (k': Kernel)
    requires k.current.Some? && i < |k.sems|
  {
    var t := k.current.value;
    var (s, sleeps) := SemP(k.sems[i], t);
    if sleeps then Sleep(k.(sems := k.sems[i := s], resume := k.resume[t := RetryP(i)]))
    else k.(sems := k.sems[i := s], resume := k.resume[t := Returned])
  }

  function V(k: Kernel, i: nat): (k': Kernel)
    requires i < |k.sems|
  {
    k.(sems := k.sems[i := SemV(k.sems[i])], ready := Woken(k.ready, k.sems[i].queue))
  }

  function Acquire(k: Kernel, l: nat): (k': Kernel)
    requires k.current.Some? && l < |k.locks|
  {
    var t := k.current.value;
    var (lock, sleeps) := LockAcquired(k.locks[l], t);
    if sleeps then Sleep(k.(locks := k.locks[l := lock], resume := k.resume[t := Granted(l)]))
    else k.(locks := k.locks[l := lock], held := k.held + {(t, l)}, resume := k.resume[t := Returned])
  }

  function Release(k: Kernel, l: nat): (k': Kernel)
    requires k.current.Some? && l < |k.locks|
  {
    var t, lock := k.current.value, k.locks[l];
    if lock.owner != Some(t) then k
    else k.(locks := k.locks[l := LockReleased(lock)], ready := Woken(k.ready, lock.waiting), held := k.held - {(t, l)})
  }

  /** Enqueue, release and sleep are one step. */
  function Wait(k: Kernel, c: nat, l: Option<nat>): (k': Kernel)
    requires k.current.Some? && c < |k.conds| && (l.Some? ==> l.value < |k.locks|)
  {
    var t, cond := k.current.value, k.conds[c];
    if l.None? || (cond.lock.Some? && cond.lock != l) then k
    else
      var queued := k.(conds := k.conds[c := CondState(l, cond.waiting + [t])], resume := k.resume[t := Reacquire(l.value)]);
      Sleep(Release(queued, l.value))
  }

  function Signal(k: Kernel, c: nat, l: Option<nat>): (k': Kernel)
    requires c < |k.conds|
  {
    var cond := k.conds[c];
    if cond.waiting == [] || cond.lock != l then k
    else k.(conds := k.conds[c := CondSignalled(cond)], ready := Woken(k.ready, cond.waiting))
  }

  /** The rest of the call the current thread slept in. */
  function Continue(k: Kernel): (k': Kernel)
    requires k.current.Some? && k.current.value in k.resume
    requires match k.resume[k.current.value]
             case Returned => true
             case RetryP(i) => i < |k.sems|
             case Granted(l) => l < |k.locks|
             case Reacquire(l) => l < |k.locks|
  {
    var t := k.current.value;
    match k.resume[t]
    case Returned => k
    case RetryP(i) => P(k, i)
    case Granted(l) => k.(held := k.held + {(t, l)}, resume := k.resume[t := Returned])
    case Reacquire(l) => Acquire(k, l)
  }

  // ---- steps ----

  datatype Step = DoP(sem: nat) | DoV(sem: nat) | DoAcquire(lock: nat) | DoRelease(lock: nat)
    | DoWait(cond: nat, passed: Option<nat>) | DoSignal(cond: nat, passed: Option<nat>)
    | DoYield | DoFork(t: Tid) | DoFinish | DoContinue | Dispatch

  /** The current thread is between calls, or no thread runs. */
  predicate BetweenCalls(k: Kernel) {
    k.current.Some? ==> k.current.value in k.resume && k.resume[k.current.value] == Returned
  }

  /** A thread makes calls between calls. A V may also come from an interrupt handler while the processor idles;
      the timer makes the current thread yield. A thread's identity is new. */
  predicate Enabled(k: Kernel, s: Step) {
    match s
    case DoP(i) => k.current.Some? && BetweenCalls(k) && i < |k.sems|
    case DoV(i) => BetweenCalls(k) && i < |k.sems|
    case DoAcquire(l) => k.current.Some? && BetweenCalls(k) && l < |k.locks|
    case DoRelease(l) => k.current.Some? && BetweenCalls(k) && l < |k.locks|
    case DoWait(c, l) => k.current.Some? && BetweenCalls(k) && c < |k.conds| && (l.Some? ==> l.value < |k.locks|)
    case DoSignal(c, l) => k.current.Some? && BetweenCalls(k) && c < |k.conds|
    case DoYield => k.current.Some? && BetweenCalls(k)
    case DoFork(t) => k.current.Some? && BetweenCalls(k) && t !in k.resume
    case DoFinish => k.current.Some? && BetweenCalls(k)
    case DoContinue => k.current.Some? && !BetweenCalls(k) && k.current.value in k.resume && ResumeIn(k.resume[k.current.value], |k.sems|, |k.locks|)
    case Dispatch => k.current.None? && k.ready != []
  }

  predicate ResumeIn(r: Resume, sems: nat, locks: nat) {
    match r
    case Returned => true
    case RetryP(i) => i < sems
    case Granted(l) => l < locks
    case Reacquire(l) => l < locks
  }

  function Next(k: Kernel, s: Step): (k': Kernel)
    requires Enabled(k, s)
  {
    match s
    case DoP(i) => P(k, i)
    case DoV(i) => V(k, i)
    case DoAcquire(l) => Acquire(k, l)
    case DoRelease(l) => Release(k, l)
    case DoWait(c, l) => Wait(k, c, l)
    case DoSignal(c, l) => Signal(k, c, l)
    case DoYield => Yield(k)
    case DoFork(t) => Fork(k, t)
    case DoFinish => Finish(k)
    case DoContinue => Continue(k)
    case Dispatch => Sleep(k)
  }

  // ---- where the threads are ----

  function SemQueues(sems: seq<SemState>): (qs: seq<seq<Tid>>)
    ensures |qs| == |sems| && forall i :: 0 <= i < |sems| ==> qs[i] == sems[i].queue
  {
    seq(|sems|, i requires 0 <= i < |sems| => sems[i].queue)
  }

  function LockQueues(locks: seq<LockState>): (qs: seq<seq<Tid>>)
    ensures |qs| == |locks| && forall i :: 0 <= i < |locks| ==> qs[i] == locks[i].waiting
  {
    seq(|locks|, i requires 0 <= i < |locks| => locks[i].waiting)
  }

  function CondQueues(conds: seq<CondState>): (qs: seq<seq<Tid>>)
    ensures |qs| == |conds| && forall i :: 0 <= i < |conds| ==> qs[i] == conds[i].waiting
  {
    seq(|conds|, i requires 0 <= i < |conds| => conds[i].waiting)
  }

  /** How often a thread stands in a queue. */
  function Count(q: seq<Tid>, t: Tid): (n: nat)
    ensures n > 0 <==> t in q
  {
    multiset(q)[t]
  }

  /** How often a thread stands in the queues. */
  function Waiting(qs: seq<seq<Tid>>, t: Tid): (n: nat) {
    if qs == [] then 0 else Count(qs[0], t) + Waiting(qs[1..], t)
  }

  /** How often a thread stands anywhere: on the processor, on the ready list, in a queue. */
  function Places(k: Kernel, t: Tid): (n: nat) {
    (if k.current == Some(t) then 1 else 0) + Count(k.ready, t)
    + Waiting(SemQueues(k.sems), t) + Waiting(LockQueues(k.locks), t) + Waiting(CondQueues(k.conds), t)
  }
}
