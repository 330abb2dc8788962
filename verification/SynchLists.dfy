/** SynchList: any number of producers and consumers on one list, guarded by a lock and a condition variable of the
    thread model. */
module SynchLists {
  import opened Options
  import opened ThreadModel
  import opened ThreadProofs
  import ThreadRuns

  type Item = nat

  /** The list's own lock and condition variable. */
  const LIST_LOCK := 0
  const LIST_EMPTY := 0

  /** Where a thread is in Append or Remove; each place names the call it makes next. */
  datatype Pc = Outside
    | AppendAcquire(item: Item) | AppendPut(item: Item) | AppendSignal | AppendRelease
    | RemoveAcquire | RemoveTest | RemoveTake | RemoveRelease

  /** `appended` and `removed` are the histories of the items. */
  datatype Monitor = Monitor(k: Kernel, pcs: map<Tid, Pc>, list: seq<Item>, appended: seq<Item>, removed: seq<Item>)

  function PcOf(pcs: map<Tid, Pc>, t: Tid): Pc { if t in pcs then pcs[t] else Outside }

  predicate AtCall(m: Monitor) {
    m.k.current.Some? && BetweenCalls(m.k) && |m.k.locks| > LIST_LOCK && |m.k.conds| > LIST_EMPTY
  }

  /** The current thread makes the next call of its Append or Remove. */
  function Advance(m: Monitor): (m': Monitor)
    requires AtCall(m) && (PcOf(m.pcs, m.k.current.value) == RemoveTake ==> m.list != [])
  {
    var t := m.k.current.value;
    match PcOf(m.pcs, t)
    case Outside => m
    case AppendAcquire(x) => m.(k := Acquire(m.k, LIST_LOCK), pcs := m.pcs[t := AppendPut(x)])
    case AppendPut(x) => m.(list := m.list + [x], appended := m.appended + [x], pcs := m.pcs[t := AppendSignal])
    case AppendSignal => m.(k := Signal(m.k, LIST_EMPTY, Some(LIST_LOCK)), pcs := m.pcs[t := AppendRelease])
    case AppendRelease => m.(k := Release(m.k, LIST_LOCK), pcs := m.pcs[t := Outside])
    case RemoveAcquire => m.(k := Acquire(m.k, LIST_LOCK), pcs := m.pcs[t := RemoveTest])
    case RemoveTest =>
      if m.list == [] then m.(k := Wait(m.k, LIST_EMPTY, Some(LIST_LOCK)))
      else m.(pcs := m.pcs[t := RemoveTake])
    case RemoveTake => m.(list := m.list[1..], removed := m.removed + [m.list[0]], pcs := m.pcs[t := RemoveRelease])
    case RemoveRelease => m.(k := Release(m.k, LIST_LOCK), pcs := m.pcs[t := Outside])
  }

  datatype Move = Begin(pc: Pc) | Go | Other(s: Step)

  /** A step that leaves the list's lock and condition alone. Calls are made outside Append and Remove; the timer,
      interrupt handlers and dispatching come at any time. */
  predicate Elsewhere(m: Monitor, s: Step) {
    var outside := m.k.current.Some? ==> PcOf(m.pcs, m.k.current.value) == Outside;
    match s
    case DoV(_) => true
    case DoYield => true
    case DoFork(t) => t !in m.pcs
    case DoContinue => true
    case Dispatch => true
    case DoP(_) => outside
    case DoAcquire(l) => outside && l != LIST_LOCK
    case DoRelease(l) => outside && l != LIST_LOCK
    case DoWait(c, l) => outside && c != LIST_EMPTY && l != Some(LIST_LOCK)
    case DoSignal(c, l) => outside && c != LIST_EMPTY
    case DoFinish => outside
  }

  predicate CanMove(m: Monitor, v: Move) {
    match v
    case Begin(pc) => AtCall(m) && PcOf(m.pcs, m.k.current.value) == Outside && (pc.AppendAcquire? || pc.RemoveAcquire?)
    case Go => AtCall(m) && PcOf(m.pcs, m.k.current.value) != Outside
    case Other(s) => Enabled(m.k, s) && Elsewhere(m, s)
  }

  // ---- the invariant ----

  /** Where a thread is, against what it resumes with, whether it holds the list's lock and whether it owns it. */
  predicate ThreadAt(pc: Pc, r: Resume, holds: bool, owns: bool, empty: bool) {
    match pc
    case Outside => r != Granted(LIST_LOCK) && r != Reacquire(LIST_LOCK) && !owns
    case AppendAcquire(_) => r != Granted(LIST_LOCK) && r != Reacquire(LIST_LOCK) && !owns
    case RemoveAcquire => r != Granted(LIST_LOCK) && r != Reacquire(LIST_LOCK) && !owns
    case AppendPut(_) => (r == Returned && holds) || r == Granted(LIST_LOCK)
    case RemoveTest => (r == Returned && holds) || r == Granted(LIST_LOCK) || r == Reacquire(LIST_LOCK)
    case RemoveTake => r == Returned && holds && !empty
    case AppendSignal => r == Returned && holds
    case AppendRelease => r == Returned && holds
    case RemoveRelease => r == Returned && holds
  }

  predicate ThreadOK(k: Kernel, pcs: map<Tid, Pc>, list: seq<Item>, t: Tid)
    requires |k.locks| > LIST_LOCK && t in k.resume
  {
    ThreadAt(PcOf(pcs, t), k.resume[t], (t, LIST_LOCK) in k.held, k.locks[LIST_LOCK].owner == Some(t), list == [])
  }

  ghost predicate ThreadsOK(k: Kernel, pcs: map<Tid, Pc>, list: seq<Item>) {
    |k.locks| > LIST_LOCK && forall t :: t in k.resume ==> ThreadOK(k, pcs, list, t)
  }

  /** The list's condition is only ever waited on with the list's lock, by Remove. */
  ghost predicate CondIsOwn(k: Kernel, pcs: map<Tid, Pc>) {
    && |k.conds| > LIST_EMPTY
    && (k.conds[LIST_EMPTY].lock.Some? ==> k.conds[LIST_EMPTY].lock.value == LIST_LOCK)
    && forall t :: t in k.conds[LIST_EMPTY].waiting ==> PcOf(pcs, t) == RemoveTest
  }

  predicate Consumes(pc: Pc) { pc == RemoveTest || pc == RemoveTake }

  /** Consumers on their way to the list: not waiting for the condition, and not done. */
  ghost function Coming(live: set<Tid>, pcs: map<Tid, Pc>, waiting: seq<Tid>): (r: set<Tid>) {
    set t | t in live && Consumes(PcOf(pcs, t)) && t !in waiting
  }

  ghost function Signalling(live: set<Tid>, pcs: map<Tid, Pc>): (r: set<Tid>) {
    set t | t in live && PcOf(pcs, t) == AppendSignal
  }

  /** While a consumer waits, every item has a consumer coming for it or a producer about to signal. */
  ghost predicate NoItemIdle(live: set<Tid>, pcs: map<Tid, Pc>, waiting: seq<Tid>, list: seq<Item>) {
    waiting != [] ==> |list| <= |Coming(live, pcs, waiting)| + |Signalling(live, pcs)|
  }

  predicate OwnerKnown(k: Kernel) {
    |k.locks| > LIST_LOCK && (k.locks[LIST_LOCK].owner.Some? ==> k.locks[LIST_LOCK].owner.value in k.resume)
  }

  ghost predicate MonitorInv(m: Monitor) {
    && Inv(m.k)
    && ThreadsOK(m.k, m.pcs, m.list)
    && CondIsOwn(m.k, m.pcs)
    && m.pcs.Keys <= m.k.resume.Keys
    && OwnerKnown(m.k)
    && m.removed + m.list == m.appended
    && NoItemIdle(m.k.live, m.pcs, m.k.conds[LIST_EMPTY].waiting, m.list)
  }

  /** Remove never takes from an empty list. */
  lemma TakeFindsItem(m: Monitor)
    requires MonitorInv(m) && AtCall(m) && PcOf(m.pcs, m.k.current.value) == RemoveTake
    ensures m.list != []
  {
    assert ThreadOK(m.k, m.pcs, m.list, m.k.current.value);
  }

  ghost function Moved(m: Monitor, v: Move): (m': Monitor)
    requires MonitorInv(m) && CanMove(m, v)
  {
    match v
    case Begin(pc) => m.(pcs := m.pcs[m.k.current.value := pc])
    case Go =>
      assert PcOf(m.pcs, m.k.current.value) == RemoveTake ==> m.list != [] by {
        if PcOf(m.pcs, m.k.current.value) == RemoveTake { TakeFindsItem(m); }
      }
      Advance(m)
    case Other(s) => m.(k := Next(m.k, s))
  }

  // ---- what a kernel step does to the other threads ----

  /** Thread t sees nothing of a step but, at most, that the list's lock it waits for is now its own. */
  predicate Untouched(k: Kernel, k': Kernel, t: Tid)
    requires |k.locks| > LIST_LOCK && t in k.resume
  {
    && |k'.locks| == |k.locks|
    && t in k'.resume && k'.resume[t] == k.resume[t]
    && ((t, LIST_LOCK) in k'.held <==> (t, LIST_LOCK) in k.held)
    && (k'.locks[LIST_LOCK].owner == Some(t) ==> k.locks[LIST_LOCK].owner == Some(t) || t in k.locks[LIST_LOCK].waiting)
  }

  lemma ReleaseUntouched(k: Kernel, l: nat, t: Tid)
    requires k.current.Some? && l < |k.locks| && |k.locks| > LIST_LOCK && t in k.resume && k.current != Some(t)
    ensures Untouched(k, Release(k, l), t)
  {
  }

  lemma WaitUntouched(k: Kernel, c: nat, l: Option<nat>, t: Tid)
    requires Enabled(k, DoWait(c, l)) && |k.locks| > LIST_LOCK && t in k.resume && k.current != Some(t)
    ensures Untouched(k, Wait(k, c, l), t)
  {
    if Wait(k, c, l) != k {
      var queued := k.(conds := k.conds[c := CondState(l, k.conds[c].waiting + [k.current.value])],
                       resume := k.resume[k.current.value := Reacquire(l.value)]);
      ReleaseUntouched(queued, l.value, t);
    }
  }

  lemma OthersUntouched(k: Kernel, s: Step, t: Tid)
    requires Enabled(k, s) && |k.locks| > LIST_LOCK && t in k.resume && k.current != Some(t)
    ensures Untouched(k, Next(k, s), t)
  {
    match s
    case DoWait(c, l) => WaitUntouched(k, c, l, t);
    case DoRelease(l) => ReleaseUntouched(k, l, t);
    case _ =>
  }

  lemma OtherThreadOK(k: Kernel, pcs: map<Tid, Pc>, list: seq<Item>, t: Tid, k': Kernel, pcs': map<Tid, Pc>, list': seq<Item>)
    requires Inv(k) && |k.locks| > LIST_LOCK && t in k.resume && ThreadOK(k, pcs, list, t) && Untouched(k, k', t)
    requires PcOf(pcs', t) == PcOf(pcs, t) && (list' == [] ==> list == [] || PcOf(pcs, t) != RemoveTake)
    ensures ThreadOK(k', pcs', list', t)
  {
    assert AllResume(k.locks[LIST_LOCK].waiting, k.resume, Granted(LIST_LOCK));
  }

  lemma CurrentKnown(m: Monitor)
    requires MonitorInv(m) && m.k.current.Some?
    ensures m.k.current.value in m.k.resume && m.k.current.value in m.k.live
    ensures m.k.current.value !in m.k.conds[LIST_EMPTY].waiting && m.k.current.value !in m.k.locks[LIST_LOCK].waiting
    ensures ThreadOK(m.k, m.pcs, m.list, m.k.current.value)
  {
    assert Places(m.k, m.k.current.value) >= 1;
    NotQueued(m.k, m.k.current.value);
    assert ThreadOK(m.k, m.pcs, m.list, m.k.current.value);
  }

  /** The kernel step of a move by the thread on the processor, and its own state afterwards, settle the threads. */
  lemma ThreadsAfter(m: Monitor, s: Step, pcs': map<Tid, Pc>, list': seq<Item>)
    requires MonitorInv(m) && Enabled(m.k, s) && m.k.current.Some? && !s.DoFork?
    requires forall t :: t != m.k.current.value ==> PcOf(pcs', t) == PcOf(m.pcs, t)
    requires list' == [] ==> m.list == [] || forall t :: t in m.k.resume && t != m.k.current.value ==> PcOf(m.pcs, t) != RemoveTake
    requires m.k.current.value in Next(m.k, s).resume && |Next(m.k, s).locks| == |m.k.locks|
    requires ThreadOK(Next(m.k, s), pcs', list', m.k.current.value)
    requires Next(m.k, s).resume.Keys == m.k.resume.Keys
    ensures ThreadsOK(Next(m.k, s), pcs', list')
  {
    var k' := Next(m.k, s);
    forall t | t in k'.resume ensures ThreadOK(k', pcs', list', t) {
      if t != m.k.current.value {
        assert ThreadOK(m.k, m.pcs, m.list, t);
        OthersUntouched(m.k, s, t);
        OtherThreadOK(m.k, m.pcs, m.list, t, k', pcs', list');
      }
    }
  }

  /** A lock's next owner is the same, nobody, the running thread, or the longest waiter. */
  lemma OwnerMoves(k: Kernel, s: Step)
    requires Enabled(k, s) && |k.locks| > LIST_LOCK
    ensures var k', lock := Next(k, s), k.locks[LIST_LOCK];
            && |k'.locks| == |k.locks| && k.resume.Keys <= k'.resume.Keys
            && var owner := k'.locks[LIST_LOCK].owner;
               owner.None? || owner == lock.owner || owner == k.current || (lock.waiting != [] && owner == Some(lock.waiting[0]))
  {
  }

  lemma OwnerStaysKnown(k: Kernel, s: Step)
    requires Inv(k) && OwnerKnown(k) && Enabled(k, s)
    ensures OwnerKnown(Next(k, s)) && k.resume.Keys <= Next(k, s).resume.Keys
  {
    OwnerMoves(k, s);
    assert AllResume(k.locks[LIST_LOCK].waiting, k.resume, Granted(LIST_LOCK));
    if k.current.Some? { assert Places(k, k.current.value) >= 1; }
  }

  lemma LiveMoves(k: Kernel, s: Step)
    requires Enabled(k, s)
    ensures var k' := Next(k, s);
            if s.DoFork? then k'.live == k.live + {s.t}
            else if s.DoFinish? then k'.live == k.live - {k.current.value}
            else k'.live == k.live
  {
  }

  // ---- steps elsewhere ----

  lemma ElsewhereKeepsCond(m: Monitor, s: Step)
    requires MonitorInv(m) && CanMove(m, Other(s))
    ensures |Next(m.k, s).conds| == |m.k.conds| && Next(m.k, s).conds[LIST_EMPTY] == m.k.conds[LIST_EMPTY]
    ensures |Next(m.k, s).locks| == |m.k.locks|
  {
    if s.DoContinue? {
      assert ResumeIn(m.k.resume[m.k.current.value], |m.k.sems|, |m.k.locks|);
    }
  }

  /** The current thread's own state after a step elsewhere. */
  lemma ElsewhereCurrentOK(k: Kernel, s: Step, pcs: map<Tid, Pc>, list: seq<Item>, t: Tid)
    requires Enabled(k, s) && !s.DoContinue? && k.current == Some(t) && t in k.resume && |k.locks| > LIST_LOCK
    requires ThreadOK(k, pcs, list, t) && t !in k.locks[LIST_LOCK].waiting
    requires Elsewhere(Monitor(k, pcs, list, [], []), s)
    ensures |Next(k, s).locks| == |k.locks| && t in Next(k, s).resume
    ensures ThreadOK(Next(k, s), pcs, list, t)
  {
  }

  /** The current thread's own state once it has gone on with the call it slept in. */
  lemma ContinuedOK(k: Kernel, pcs: map<Tid, Pc>, list: seq<Item>, t: Tid)
    requires Enabled(k, DoContinue) && k.current == Some(t) && |k.locks| > LIST_LOCK
    requires ThreadOK(k, pcs, list, t) && LockOK(k.locks[LIST_LOCK]) && t !in k.locks[LIST_LOCK].waiting
    ensures |Continue(k).locks| == |k.locks| && t in Continue(k).resume
    ensures ThreadOK(Continue(k), pcs, list, t)
  {
  }

  lemma ElsewhereKeepsThreads(m: Monitor, s: Step)
    requires MonitorInv(m) && CanMove(m, Other(s))
    ensures ThreadsOK(Next(m.k, s), m.pcs, m.list)
  {
    var k' := Next(m.k, s);
    OwnerMoves(m.k, s);
    forall t | t in k'.resume ensures ThreadOK(k', m.pcs, m.list, t) {
      if m.k.current == Some(t) {
        RunningThreadOK(m, s);
      } else if t in m.k.resume {
        WatchingThreadOK(m, s, t);
      } else {
        if m.k.current.Some? { CurrentKnown(m); }
        NewThreadOK(m.k, s, m.pcs, m.list, t);
      }
    }
  }

  lemma RunningThreadOK(m: Monitor, s: Step)
    requires MonitorInv(m) && CanMove(m, Other(s)) && m.k.current.Some?
    ensures |Next(m.k, s).locks| == |m.k.locks| && m.k.current.value in Next(m.k, s).resume
    ensures ThreadOK(Next(m.k, s), m.pcs, m.list, m.k.current.value)
  {
    CurrentKnown(m);
    assert LockOK(m.k.locks[LIST_LOCK]);
    if s.DoContinue? {
      ContinuedOK(m.k, m.pcs, m.list, m.k.current.value);
    } else {
      ElsewhereCurrentOK(m.k, s, m.pcs, m.list, m.k.current.value);
    }
  }

  lemma WatchingThreadOK(m: Monitor, s: Step, t: Tid)
    requires MonitorInv(m) && CanMove(m, Other(s)) && m.k.current != Some(t) && t in m.k.resume
    ensures |Next(m.k, s).locks| == |m.k.locks| && t in Next(m.k, s).resume
    ensures ThreadOK(Next(m.k, s), m.pcs, m.list, t)
  {
    assert ThreadOK(m.k, m.pcs, m.list, t);
    OthersUntouched(m.k, s, t);
    OtherThreadOK(m.k, m.pcs, m.list, t, Next(m.k, s), m.pcs, m.list);
  }

  lemma NewThreadOK(k: Kernel, s: Step, pcs: map<Tid, Pc>, list: seq<Item>, t: Tid)
    requires Enabled(k, s) && OwnerKnown(k) && pcs.Keys <= k.resume.Keys && k.current != Some(t)
    requires k.current.Some? ==> k.current.value in k.resume
    requires t !in k.resume && t in Next(k, s).resume
    ensures |Next(k, s).locks| == |k.locks| && ThreadOK(Next(k, s), pcs, list, t)
  {
    OnlyForkAdds(k, s, t);
  }

  lemma OnlyForkAdds(k: Kernel, s: Step, t: Tid)
    requires Enabled(k, s) && (k.current.Some? ==> k.current.value in k.resume)
    requires t !in k.resume && t in Next(k, s).resume
    ensures s == DoFork(t)
  {
  }

  lemma OutsideIsNowhere(m: Monitor, s: Step)
    requires MonitorInv(m) && CanMove(m, Other(s))
    ensures s.DoFork? ==> PcOf(m.pcs, s.t) == Outside
    ensures s.DoFinish? ==> PcOf(m.pcs, m.k.current.value) == Outside
  {
  }

  lemma ElsewhereKeepsItems(m: Monitor, s: Step)
    requires MonitorInv(m) && CanMove(m, Other(s))
    ensures NoItemIdle(Next(m.k, s).live, m.pcs, m.k.conds[LIST_EMPTY].waiting, m.list)
  {
    LiveMoves(m.k, s);
    OutsideIsNowhere(m, s);
    ItemsElsewhere(m.k.live, Next(m.k, s).live, m.pcs, m.k.conds[LIST_EMPTY].waiting, m.list,
                   if s.DoFork? then s.t else if s.DoFinish? then m.k.current.value else 0);
  }

  /** A thread outside Append and Remove comes or goes: no item minds. */
  lemma ItemsElsewhere(live: set<Tid>, live': set<Tid>, pcs: map<Tid, Pc>, waiting: seq<Tid>, list: seq<Item>, t: Tid)
    requires NoItemIdle(live, pcs, waiting, list)
    requires live' == live || ((live' == live + {t} || live' == live - {t}) && PcOf(pcs, t) == Outside)
    ensures NoItemIdle(live', pcs, waiting, list)
  {
    assert Coming(live', pcs, waiting) == Coming(live, pcs, waiting);
    assert Signalling(live', pcs) == Signalling(live, pcs);
  }

  lemma ElsewhereKeepsInv(m: Monitor, s: Step)
    requires MonitorInv(m) && CanMove(m, Other(s))
    ensures MonitorInv(Moved(m, Other(s)))
  {
    StepKeepsInv(m.k, s);
    ElsewhereKeepsCond(m, s);
    ElsewhereKeepsThreads(m, s);
    ElsewhereKeepsItems(m, s);
    OwnerStaysKnown(m.k, s);
  }

  // ---- items and the consumers coming for them ----

  /** How much a thread counts for in Coming and Signalling. */
  function Weight(pc: Pc): (n: nat) { if Consumes(pc) || pc == AppendSignal then 1 else 0 }

  /** One thread, not waiting, moves: the list may grow by no more than its weight does. */
  lemma ItemsAfter(live: set<Tid>, pcs: map<Tid, Pc>, waiting: seq<Tid>, list: seq<Item>, t: Tid, pc: Pc, list': seq<Item>)
    requires NoItemIdle(live, pcs, waiting, list) && t in live && t !in waiting
    requires |list'| - |list| <= Weight(pc) - Weight(PcOf(pcs, t))
    ensures NoItemIdle(live, pcs[t := pc], waiting, list')
  {
    ComingAfter(live, pcs, waiting, t, pc);
    SignallingAfter(live, pcs, t, pc);
  }

  lemma ComingAfter(live: set<Tid>, pcs: map<Tid, Pc>, waiting: seq<Tid>, t: Tid, pc: Pc)
    requires t in live && t !in waiting
    ensures |Coming(live, pcs[t := pc], waiting)|
            == |Coming(live, pcs, waiting)| + (if Consumes(pc) then 1 else 0) - if Consumes(PcOf(pcs, t)) then 1 else 0
  {
    var others := Coming(live, pcs, waiting) - {t};
    ComingIs(live, pcs, waiting, t, others);
    ComingIs(live, pcs[t := pc], waiting, t, others);
  }

  lemma ComingIs(live: set<Tid>, pcs: map<Tid, Pc>, waiting: seq<Tid>, t: Tid, others: set<Tid>)
    requires t in live && t !in waiting && t !in others
    requires forall x :: x != t ==> (x in others <==> x in live && Consumes(PcOf(pcs, x)) && x !in waiting)
    ensures Coming(live, pcs, waiting) == if Consumes(PcOf(pcs, t)) then others + {t} else others
  {
    var expected := if Consumes(PcOf(pcs, t)) then others + {t} else others;
    forall x ensures x in Coming(live, pcs, waiting) <==> x in expected {
      if x != t {
        assert x in expected <==> x in others;
      }
    }
  }

  lemma SignallingAfter(live: set<Tid>, pcs: map<Tid, Pc>, t: Tid, pc: Pc)
    requires t in live
    ensures |Signalling(live, pcs[t := pc])|
            == |Signalling(live, pcs)| + (if pc == AppendSignal then 1 else 0) - if PcOf(pcs, t) == AppendSignal then 1 else 0
  {
    var others := Signalling(live, pcs) - {t};
    SignallingIs(live, pcs, t, others);
    SignallingIs(live, pcs[t := pc], t, others);
  }

  lemma SignallingIs(live: set<Tid>, pcs: map<Tid, Pc>, t: Tid, others: set<Tid>)
    requires t in live && t !in others
    requires forall x :: x != t ==> (x in others <==> x in live && PcOf(pcs, x) == AppendSignal)
    ensures Signalling(live, pcs) == if PcOf(pcs, t) == AppendSignal then others + {t} else others
  {
    var expected := if PcOf(pcs, t) == AppendSignal then others + {t} else others;
    forall x ensures x in Signalling(live, pcs) <==> x in expected {
      if x != t {
        assert x in expected <==> x in others;
      }
    }
  }

  // ---- moves of Append and Remove ----

  lemma BeginKeepsInv(m: Monitor, pc: Pc)
    requires MonitorInv(m) && CanMove(m, Begin(pc))
    ensures MonitorInv(Moved(m, Begin(pc)))
  {
    var t, pcs', waiting := m.k.current.value, m.pcs[m.k.current.value := pc], m.k.conds[LIST_EMPTY].waiting;
    CurrentKnown(m);
    forall x | x in m.k.resume ensures ThreadOK(m.k, pcs', m.list, x) {
      assert ThreadOK(m.k, m.pcs, m.list, x);
    }
    ItemsAfter(m.k.live, m.pcs, waiting, m.list, t, pc, m.list);
  }

  /** A move that makes no kernel call: the others see nothing of it, but for the list. */
  lemma QuietThreads(m: Monitor, pc: Pc, list': seq<Item>)
    requires MonitorInv(m) && AtCall(m)
    requires ThreadAt(PcOf(m.pcs, m.k.current.value), Returned, true, true, m.list == [])
    requires (m.k.current.value, LIST_LOCK) in m.k.held
    requires ThreadAt(pc, Returned, true, true, list' == [])
    ensures ThreadsOK(m.k, m.pcs[m.k.current.value := pc], list')
  {
    var t := m.k.current.value;
    forall x | x in m.k.resume ensures ThreadOK(m.k, m.pcs[t := pc], list', x) {
      assert ThreadOK(m.k, m.pcs, m.list, x);
    }
  }

  lemma HolderNow(m: Monitor)
    requires MonitorInv(m) && AtCall(m) && PcOf(m.pcs, m.k.current.value) !in {Outside, RemoveAcquire}
    requires !PcOf(m.pcs, m.k.current.value).AppendAcquire?
    ensures (m.k.current.value, LIST_LOCK) in m.k.held && m.k.locks[LIST_LOCK].owner == m.k.current
    ensures ThreadAt(PcOf(m.pcs, m.k.current.value), Returned, true, true, m.list == [])
  {
    CurrentKnown(m);
  }

  /** A move that makes no kernel call keeps the invariant if it keeps the items in order and leaves a consumer
      coming for each. */
  lemma QuietKeepsInv(m: Monitor, pc: Pc, list': seq<Item>, appended': seq<Item>, removed': seq<Item>)
    requires MonitorInv(m) && AtCall(m)
    requires PcOf(m.pcs, m.k.current.value) !in {Outside, RemoveAcquire} && !PcOf(m.pcs, m.k.current.value).AppendAcquire?
    requires ThreadAt(pc, Returned, true, true, list' == []) && removed' + list' == appended'
    requires |list'| - |m.list| <= Weight(pc) - Weight(PcOf(m.pcs, m.k.current.value))
    ensures MonitorInv(m.(pcs := m.pcs[m.k.current.value := pc], list := list', appended := appended', removed := removed'))
  {
    var t := m.k.current.value;
    CurrentKnown(m);
    HolderNow(m);
    QuietThreads(m, pc, list');
    ItemsAfter(m.k.live, m.pcs, m.k.conds[LIST_EMPTY].waiting, m.list, t, pc, list');
  }

  lemma PutKeepsInv(m: Monitor, x: Item)
    requires MonitorInv(m) && AtCall(m) && PcOf(m.pcs, m.k.current.value) == AppendPut(x)
    ensures MonitorInv(Advance(m))
  {
    assert m.removed + (m.list + [x]) == (m.removed + m.list) + [x];
    QuietKeepsInv(m, AppendSignal, m.list + [x], m.appended + [x], m.removed);
  }

  lemma TestKeepsInv(m: Monitor)
    requires MonitorInv(m) && AtCall(m) && PcOf(m.pcs, m.k.current.value) == RemoveTest && m.list != []
    ensures MonitorInv(Advance(m))
  {
    QuietKeepsInv(m, RemoveTake, m.list, m.appended, m.removed);
  }

  lemma TakeKeepsInv(m: Monitor)
    requires MonitorInv(m) && AtCall(m) && PcOf(m.pcs, m.k.current.value) == RemoveTake && m.list != []
    ensures MonitorInv(Advance(m))
  {
    FirstMoves(m.removed, m.list);
    QuietKeepsInv(m, RemoveRelease, m.list[1..], m.appended, m.removed + [m.list[0]]);
  }

  lemma FirstMoves(removed: seq<Item>, list: seq<Item>)
    requires list != []
    ensures (removed + [list[0]]) + list[1..] == removed + list
  {
    assert list == [list[0]] + list[1..];
  }

  /** The pieces of a move that makes the kernel call `s`. */
  lemma CallKeepsInv(m: Monitor, s: Step, pcs': map<Tid, Pc>)
    requires MonitorInv(m) && Enabled(m.k, s) && m.k.current.Some? && (s.DoAcquire? || s.DoRelease? || s.DoWait? || s.DoSignal?)
    requires m.k.current.value in m.k.resume && pcs' == m.pcs[m.k.current.value := PcOf(pcs', m.k.current.value)]
    requires |Next(m.k, s).locks| == |m.k.locks| && m.k.current.value in Next(m.k, s).resume
    requires ThreadOK(Next(m.k, s), pcs', m.list, m.k.current.value)
    requires CondIsOwn(Next(m.k, s), pcs')
    requires NoItemIdle(m.k.live, pcs', Next(m.k, s).conds[LIST_EMPTY].waiting, m.list)
    ensures MonitorInv(m.(k := Next(m.k, s), pcs := pcs'))
  {
    StepKeepsInv(m.k, s);
    OwnerStaysKnown(m.k, s);
    LiveMoves(m.k, s);
    SameThreads(m.k, s);
    ThreadsAfter(m, s, pcs', m.list);
  }

  lemma SameThreads(k: Kernel, s: Step)
    requires Enabled(k, s) && k.current.Some? && k.current.value in k.resume
    requires s.DoAcquire? || s.DoRelease? || s.DoWait? || s.DoSignal?
    ensures Next(k, s).resume.Keys == k.resume.Keys
  {
  }

  /** After its Acquire the thread holds the lock, or waits for it to be granted. */
  lemma AcquiredOK(k: Kernel, pcs: map<Tid, Pc>, list: seq<Item>, t: Tid)
    requires k.current == Some(t) && |k.locks| > LIST_LOCK && k.locks[LIST_LOCK].owner != Some(t)
    requires PcOf(pcs, t).AppendPut? || PcOf(pcs, t).RemoveTest?
    ensures var k' := Acquire(k, LIST_LOCK);
            && |k'.locks| == |k.locks| && k'.conds == k.conds && t in k'.resume && ThreadOK(k', pcs, list, t)
  {
  }

  lemma StillOwn(k: Kernel, pcs: map<Tid, Pc>, t: Tid, pc: Pc, k': Kernel)
    requires CondIsOwn(k, pcs) && k'.conds == k.conds && t !in k.conds[LIST_EMPTY].waiting
    ensures CondIsOwn(k', pcs[t := pc])
  {
  }

  lemma AcquireKeepsInv(m: Monitor, pc: Pc)
    requires MonitorInv(m) && AtCall(m) && (pc.AppendPut? || pc.RemoveTest?)
    requires PcOf(m.pcs, m.k.current.value).AppendAcquire? || PcOf(m.pcs, m.k.current.value).RemoveAcquire?
    ensures MonitorInv(m.(k := Acquire(m.k, LIST_LOCK), pcs := m.pcs[m.k.current.value := pc]))
  {
    var t, pcs' := m.k.current.value, m.pcs[m.k.current.value := pc];
    CurrentKnown(m);
    ItemsAfter(m.k.live, m.pcs, m.k.conds[LIST_EMPTY].waiting, m.list, t, pc, m.list);
    AcquiredOK(m.k, pcs', m.list, t);
    StillOwn(m.k, m.pcs, t, pc, Acquire(m.k, LIST_LOCK));
    assert pcs' == m.pcs[t := PcOf(pcs', t)] && Next(m.k, DoAcquire(LIST_LOCK)) == Acquire(m.k, LIST_LOCK);
    CallKeepsInv(m, DoAcquire(LIST_LOCK), pcs');
  }

  lemma ReleaseKeepsMonitor(m: Monitor)
    requires MonitorInv(m) && AtCall(m) && PcOf(m.pcs, m.k.current.value) in {AppendRelease, RemoveRelease}
    ensures MonitorInv(Advance(m))
  {
    var t, pcs', waiting := m.k.current.value, m.pcs[m.k.current.value := Outside], m.k.conds[LIST_EMPTY].waiting;
    CurrentKnown(m);
    HolderNow(m);
    ItemsAfter(m.k.live, m.pcs, waiting, m.list, t, Outside, m.list);
    StillOwn(m.k, m.pcs, t, Outside, Release(m.k, LIST_LOCK));
    assert pcs' == m.pcs[t := PcOf(pcs', t)] && Next(m.k, DoRelease(LIST_LOCK)) == Release(m.k, LIST_LOCK);
    CallKeepsInv(m, DoRelease(LIST_LOCK), pcs');
  }

  lemma WaitKeepsMonitor(m: Monitor)
    requires MonitorInv(m) && AtCall(m) && PcOf(m.pcs, m.k.current.value) == RemoveTest && m.list == []
    ensures MonitorInv(Advance(m))
  {
    var t, s := m.k.current.value, DoWait(LIST_EMPTY, Some(LIST_LOCK));
    CurrentKnown(m);
    assert m.pcs == m.pcs[t := PcOf(m.pcs, t)];
    CallKeepsInv(m, s, m.pcs);
  }

  /** Signal moves one waiter to the consumers coming, and this producer has signalled. */
  lemma SignalItems(m: Monitor)
    requires MonitorInv(m) && AtCall(m) && PcOf(m.pcs, m.k.current.value) == AppendSignal && m.k.conds[LIST_EMPTY].waiting != []
    ensures NoItemIdle(m.k.live, m.pcs[m.k.current.value := AppendRelease], m.k.conds[LIST_EMPTY].waiting[1..], m.list)
  {
    CurrentKnown(m);
    SignallingAfter(m.k.live, m.pcs, m.k.current.value, AppendRelease);
    WaiterComes(m, m.pcs[m.k.current.value := AppendRelease]);
  }

  lemma SignalEffect(k: Kernel)
    requires |k.conds| > LIST_EMPTY && CondOK(k.conds[LIST_EMPTY], |k.locks|)
    requires k.conds[LIST_EMPTY].lock.Some? ==> k.conds[LIST_EMPTY].lock.value == LIST_LOCK
    ensures var cond, k' := k.conds[LIST_EMPTY], Signal(k, LIST_EMPTY, Some(LIST_LOCK));
            && |k'.conds| == |k.conds|
            && k'.conds[LIST_EMPTY] == (if cond.waiting == [] then cond else CondSignalled(cond))
            && k'.locks == k.locks && k'.held == k.held && k'.resume == k.resume
  {
  }

  lemma SignalCondIsOwn(k: Kernel, pcs: map<Tid, Pc>, t: Tid, k': Kernel)
    requires CondIsOwn(k, pcs) && PcOf(pcs, t) == AppendSignal && |k'.conds| == |k.conds|
    requires var cond := k.conds[LIST_EMPTY];
             k'.conds[LIST_EMPTY] == (if cond.waiting == [] then cond else CondSignalled(cond))
    ensures CondIsOwn(k', pcs[t := AppendRelease])
  {
    forall x | x in k'.conds[LIST_EMPTY].waiting ensures PcOf(pcs[t := AppendRelease], x) == RemoveTest {
      assert x in k.conds[LIST_EMPTY].waiting;
    }
  }

  lemma SignalKeepsMonitor(m: Monitor)
    requires MonitorInv(m) && AtCall(m) && PcOf(m.pcs, m.k.current.value) == AppendSignal
    ensures MonitorInv(m.(k := Signal(m.k, LIST_EMPTY, Some(LIST_LOCK)), pcs := m.pcs[m.k.current.value := AppendRelease]))
  {
    var t, pcs', k' := m.k.current.value, m.pcs[m.k.current.value := AppendRelease], Signal(m.k, LIST_EMPTY, Some(LIST_LOCK));
    CurrentKnown(m);
    HolderNow(m);
    assert CondOK(m.k.conds[LIST_EMPTY], |m.k.locks|);
    SignalEffect(m.k);
    SignalCondIsOwn(m.k, m.pcs, t, k');
    if m.k.conds[LIST_EMPTY].waiting != [] {
      SignalItems(m);
    }
    assert pcs' == m.pcs[t := PcOf(pcs', t)];
    CallKeepsInv(m, DoSignal(LIST_EMPTY, Some(LIST_LOCK)), pcs');
  }

  lemma WaiterComes(m: Monitor, pcs': map<Tid, Pc>)
    requires MonitorInv(m) && m.k.conds[LIST_EMPTY].waiting != []
    requires forall t :: Consumes(PcOf(pcs', t)) <==> Consumes(PcOf(m.pcs, t))
    ensures var waiting := m.k.conds[LIST_EMPTY].waiting;
            |Coming(m.k.live, pcs', waiting[1..])| == |Coming(m.k.live, m.pcs, waiting)| + 1
  {
    var waiting := m.k.conds[LIST_EMPTY].waiting;
    var w := waiting[0];
    InWaiting(CondQueues(m.k.conds), LIST_EMPTY, w);
    HeadAndTail(waiting, w);
    assert Places(m.k, w) <= 1;
    assert PcOf(m.pcs, w) == RemoveTest;
    HeadComes(m.k.live, m.pcs, pcs', waiting);
  }

  lemma HeadComes(live: set<Tid>, pcs: map<Tid, Pc>, pcs': map<Tid, Pc>, waiting: seq<Tid>)
    requires waiting != [] && waiting[0] in live && waiting[0] !in waiting[1..] && Consumes(PcOf(pcs, waiting[0]))
    requires forall t :: Consumes(PcOf(pcs', t)) <==> Consumes(PcOf(pcs, t))
    ensures |Coming(live, pcs', waiting[1..])| == |Coming(live, pcs, waiting)| + 1
  {
    assert waiting == [waiting[0]] + waiting[1..];
    assert Coming(live, pcs', waiting[1..]) == Coming(live, pcs, waiting) + {waiting[0]};
  }

  lemma GoKeepsInv(m: Monitor)
    requires MonitorInv(m) && CanMove(m, Go)
    ensures MonitorInv(Moved(m, Go))
  {
    match PcOf(m.pcs, m.k.current.value)
    case Outside =>
    case AppendAcquire(x) => AcquireKeepsInv(m, AppendPut(x));
    case AppendPut(x) => PutKeepsInv(m, x);
    case AppendSignal => SignalKeepsMonitor(m);
    case AppendRelease => ReleaseKeepsMonitor(m);
    case RemoveAcquire => AcquireKeepsInv(m, RemoveTest);
    case RemoveTest =>
      if m.list == [] { WaitKeepsMonitor(m); } else { TestKeepsInv(m); }
    case RemoveTake =>
      TakeFindsItem(m);
      TakeKeepsInv(m);
    case RemoveRelease => ReleaseKeepsMonitor(m);
  }

  // ---- runs ----

  lemma MoveKeepsInv(m: Monitor, v: Move)
    requires MonitorInv(m) && CanMove(m, v)
    ensures MonitorInv(Moved(m, v))
  {
    match v
    case Begin(pc) => BeginKeepsInv(m, pc);
    case Go => GoKeepsInv(m);
    case Other(s) => ElsewhereKeepsInv(m, s);
  }

  /** At start-up, with the list empty and nobody in it. */
  lemma StartIsOK(k: Kernel, main: Tid)
    requires ThreadRuns.Booted(k, main) && |k.locks| > LIST_LOCK && |k.conds| > LIST_EMPTY
    ensures MonitorInv(Monitor(k, map[], [], [], []))
  {
    ThreadRuns.BootedInv(k, main);
  }

  /** A run of the monitor: every state moves to the next. */
  ghost predicate IsRun(ms: seq<Monitor>, moves: seq<Move>) {
    && |ms| == |moves| + 1 && MonitorInv(ms[0])
    && forall i :: 0 <= i < |moves| ==> CanMove(ms[i], moves[i]) && (MonitorInv(ms[i]) ==> ms[i + 1] == Moved(ms[i], moves[i]))
  }

  /** Over every run, with any number of producers and consumers: the items removed, then the items held, are the
      items appended, in order; and while a consumer waits no item lies without a consumer coming for it. */
  lemma {:induction false} ListIsFifo(ms: seq<Monitor>, moves: seq<Move>, i: nat)
    requires IsRun(ms, moves) && i < |ms|
    ensures MonitorInv(ms[i]) && ms[i].removed + ms[i].list == ms[i].appended
    ensures var m := ms[i]; NoItemIdle(m.k.live, m.pcs, m.k.conds[LIST_EMPTY].waiting, m.list)
  {
    if i > 0 {
      ListIsFifo(ms, moves, i - 1);
      MoveKeepsInv(ms[i - 1], moves[i - 1]);
    }
  }
}
