/** Simulated time: the pending interrupts, the clock, and the loops that fire what is due. */
module SimTime {
  import opened Lists

  const SYSTEM_TICK := 10
  const USER_TICK := 1

  datatype IntType = TimerInt | DiskInt | ConsoleWriteInt | ConsoleReadInt | NetworkSendInt | NetworkRecvInt

  datatype Mode = IdleMode | SystemMode | UserMode

  /** What is to be called; the time it is due is its key on the list. */
  datatype Interrupt = Interrupt(kind: IntType, arg: int)

  type Due = Keyed<Interrupt>

  /** Schedule asserts that an interrupt is to come later than now. */
  type Delay = d: int | d > 0 witness 1

  datatype Request = Request(what: Interrupt, fromNow: Delay)

  /** What a handler does to the clock: the interrupts it schedules, and whether it asks for a yield. */
  datatype Effect = Effect(requests: seq<Request>, preempts: bool)

  /** Any behaviour of the handlers: what the n-th call of all does. */
  type Handlers = (Interrupt, nat) -> Effect

  datatype Fired = Fired(what: Interrupt, due: int, at: int)

  /** `fired` is the history of the handlers called. */
  datatype Clock = Clock(enabled: bool, status: Mode, pending: seq<Due>, total: int, idle: int, system: int, user: int,
                         yieldOnReturn: bool, fired: seq<Fired>)

  // ---- the operations, as functions ----

  function Scheduled(pending: seq<Due>, now: int, requests: seq<Request>): (r: seq<Due>)
    decreases |requests|
  {
    if requests == [] then pending
    else Scheduled(Inserted(pending, Keyed(requests[0].what, now + requests[0].fromNow)), now, requests[1..])
  }

  function Schedule(c: Clock, r: Request): (c': Clock) {
    c.(pending := Scheduled(c.pending, c.total, [r]))
  }

  /** Calls the handler of `e`, which is off the list. */
  function Fire(h: Handlers, c: Clock, e: Due): (c': Clock) {
    var effect := h(e.item, |c.fired|);
    c.(pending := Scheduled(c.pending, c.total, effect.requests), yieldOnReturn := c.yieldOnReturn || effect.preempts,
       fired := c.fired + [Fired(e.item, e.key, c.total)])
  }

  /** The machine idles and only the time-slice timer is left. */
  predicate OnlyTimer(c: Clock, e: Due, rest: seq<Due>) {
    c.status == IdleMode && e.item.kind == TimerInt && rest == []
  }

  function Advanced(c: Clock, when: int): (c': Clock) {
    if when > c.total then c.(idle := c.idle + (when - c.total), total := when) else c
  }

  function CheckIfDue(h: Handlers, c: Clock, advanceClock: bool): (r: (Clock, bool)) {
    if c.pending == [] then (c, false)
    else
      var e, rest := c.pending[0], c.pending[1..];
      if !advanceClock && e.key > c.total then (c.(pending := Inserted(rest, e)), false)
      else
        var c1 := if advanceClock then Advanced(c, e.key) else c;
        if OnlyTimer(c1, e, rest) then (c1.(pending := Inserted(rest, e)), false)
        else (Fire(h, c1.(pending := rest), e), true)
  }

  /** How many interrupts are due. */
  function DueCount(pending: seq<Due>, now: int): (n: nat) {
    if pending == [] then 0 else (if pending[0].key <= now then 1 else 0) + DueCount(pending[1..], now)
  }

  lemma {:induction false} DueJoin(a: seq<Due>, b: seq<Due>, now: int)
    ensures DueCount(a + b, now) == DueCount(a, now) + DueCount(b, now)
  {
    if a == [] {
      assert a + b == b;
    } else {
      assert (a + b)[1..] == a[1..] + b;
      DueJoin(a[1..], b, now);
    }
  }

  lemma {:induction false} DueInserted(es: seq<Due>, e: Due, now: int)
    ensures DueCount(Inserted(es, e), now) == DueCount(es, now) + if e.key <= now then 1 else 0
  {
    var i := KeyPosition(es, e.key);
    assert es == es[..i] + es[i..];
    DueJoin(es[..i], es[i..], now);
    DueJoin(es[..i], [e], now);
    DueJoin(es[..i] + [e], es[i..], now);
    assert [e][1..] == [] && DueCount([], now) == 0;
  }

  lemma {:induction false} DueScheduled(pending: seq<Due>, now: int, requests: seq<Request>)
    ensures DueCount(Scheduled(pending, now, requests), now) == DueCount(pending, now)
    decreases |requests|
  {
    if requests != [] {
      var e := Keyed(requests[0].what, now + requests[0].fromNow);
      DueInserted(pending, e, now);
      DueScheduled(Inserted(pending, e), now, requests[1..]);
    }
  }

  /** A handler fired while the clock stands leaves one interrupt fewer due: what it schedules comes later. */
  lemma FireLeavesFewerDue(h: Handlers, c: Clock)
    ensures var r := CheckIfDue(h, c, false);
            r.0.total == c.total && (r.1 ==> DueCount(r.0.pending, c.total) < DueCount(c.pending, c.total))
  {
    if c.pending != [] {
      var e := c.pending[0];
      DueScheduled(c.pending[1..], c.total, h(e.item, |c.fired|).requests);
    }
  }

  /** while (CheckIfDue(FALSE)); */
  function Drain(h: Handlers, c: Clock): (c': Clock)
    decreases DueCount(c.pending, c.total)
  {
    FireLeavesFewerDue(h, c);
    var r := CheckIfDue(h, c, false);
    if r.1 then Drain(h, r.0) else r.0
  }

  function Ticked(c: Clock): (c': Clock) {
    if c.status == SystemMode then c.(total := c.total + SYSTEM_TICK, system := c.system + SYSTEM_TICK)
    else c.(total := c.total + USER_TICK, user := c.user + USER_TICK)
  }

  /** One tick passes; the result tells whether the running thread is to yield. */
  function OneTick(h: Handlers, c: Clock): (r: (Clock, bool)) {
    var c' := Drain(h, Ticked(c).(enabled := false));
    (c'.(enabled := true, yieldOnReturn := false), c'.yieldOnReturn)
  }

  /** Nothing is ready: time goes on to the next interrupt. False: nothing is left to wait for, the machine halts. */
  function Idle(h: Handlers, c: Clock): (r: (Clock, bool)) {
    var r := CheckIfDue(h, c.(status := IdleMode), true);
    if r.1 then (Drain(h, r.0).(yieldOnReturn := false, status := SystemMode), true) else (r.0, false)
  }

  function SetLevel(h: Handlers, c: Clock, on: bool): (r: (Clock, bool)) {
    if on && !c.enabled then OneTick(h, c.(enabled := true)) else (c.(enabled := on), false)
  }

  // ---- the invariant ----

  /** An interrupt fired at or after its due time, at most one tick late, and a whole tick late only if it is the
      timer. */
  predicate FiredOK(f: Fired, now: int) {
    && f.due <= f.at <= now && f.at - f.due <= SYSTEM_TICK
    && (f.at - f.due == SYSTEM_TICK ==> f.what.kind == TimerInt)
  }

  /** Handlers fired in the order of their due times, none of them after one that is pending. */
  predicate History(fired: seq<Fired>, pending: seq<Due>, now: int) {
    && (forall i :: 0 <= i < |fired| ==> FiredOK(fired[i], now))
    && (forall i, j :: 0 <= i < j < |fired| ==> fired[i].due <= fired[j].due)
    && (forall i, e :: 0 <= i < |fired| && e in pending ==> fired[i].due <= e.key)
  }

  /** Nothing pending is overdue by more than `late` ticks, and by a whole system tick only the timer. */
  predicate Overdue(pending: seq<Due>, now: int, late: nat) {
    forall e :: e in pending ==> now - late <= e.key && (e.key == now - SYSTEM_TICK ==> e.item.kind == TimerInt)
  }

  /** What is pending lies ahead, except a timer due now. */
  predicate Ahead(pending: seq<Due>, now: int) {
    forall e :: e in pending ==> e.key > now || (e.key == now && e.item.kind == TimerInt)
  }

  predicate Accounted(c: Clock) { c.total == c.idle + c.system + c.user }

  /** While due interrupts are being fired, at most one tick after the last time all were. */
  predicate Draining(c: Clock, late: nat) {
    SortedByKey(c.pending) && Accounted(c) && History(c.fired, c.pending, c.total) && Overdue(c.pending, c.total, late)
  }

  /** Between operations. Only Idle leaves a timer due now. */
  predicate Inv(c: Clock) { Draining(c, 0) && Ahead(c.pending, c.total) && c.status != IdleMode }

  lemma {:induction false} ScheduledKeeps(pending: seq<Due>, now: int, requests: seq<Request>)
    requires SortedByKey(pending)
    ensures SortedByKey(Scheduled(pending, now, requests))
    ensures forall e :: e in Scheduled(pending, now, requests) ==> e in pending || e.key > now
    ensures forall e :: e in pending ==> e in Scheduled(pending, now, requests)
    decreases |requests|
  {
    if requests != [] {
      var e := Keyed(requests[0].what, now + requests[0].fromNow);
      InsertedIsSorted(pending, e);
      InsertedAdds(pending, e);
      ScheduledKeeps(Inserted(pending, e), now, requests[1..]);
    }
  }

  /** Putting the first interrupt back gives the same interrupts, in order; those with its due time may rotate. */
  lemma PutBackKeeps(pending: seq<Due>)
    requires SortedByKey(pending) && pending != []
    ensures var r := Inserted(pending[1..], pending[0]);
            SortedByKey(r) && multiset(r) == multiset(pending) && forall e :: e in r <==> e in pending
  {
    InsertedIsSorted(pending[1..], pending[0]);
    InsertedAdds(pending[1..], pending[0]);
    assert pending == [pending[0]] + pending[1..];
  }

  /** Firing the first interrupt when it is due keeps what holds while draining. */
  lemma FireKeeps(h: Handlers, c: Clock, e: Due, rest: seq<Due>, late: nat)
    requires c.pending == [e] + rest && Draining(c, late) && late <= SYSTEM_TICK && e.key <= c.total
    ensures var c' := Fire(h, c.(pending := rest), e);
            && Draining(c', late) && c'.total == c.total && c'.status == c.status
            && c'.fired == c.fired + [Fired(e.item, e.key, c.total)]
  {
    FirstIsLeast(c.pending);
    assert c.pending[0] == e && c.pending[1..] == rest && e in c.pending;
    ScheduledKeeps(rest, c.total, h(e.item, |c.fired|).requests);
    RestOfHistory(c.fired, c.pending, e, Scheduled(rest, c.total, h(e.item, |c.fired|).requests), c.total);
  }

  /** The fired interrupt goes to the history; what is pending after it is due no earlier. */
  lemma RestOfHistory(fired: seq<Fired>, pending: seq<Due>, e: Due, pending': seq<Due>, now: int)
    requires History(fired, pending, now) && e in pending && FiredOK(Fired(e.item, e.key, now), now)
    requires forall x :: x in pending' ==> x in pending || x.key > now
    requires forall x :: x in pending ==> e.key <= x.key
    ensures History(fired + [Fired(e.item, e.key, now)], pending', now)
  {
  }

  lemma CheckKeeps(h: Handlers, c: Clock, late: nat)
    requires Draining(c, late) && late <= SYSTEM_TICK
    ensures var r := CheckIfDue(h, c, false);
            && Draining(r.0, late) && r.0.total == c.total && r.0.status == c.status
            && (!r.1 ==> r.0.fired == c.fired && Settled(r.0))
            && (r.1 ==> c.pending != [] && r.0.fired == c.fired + [Fired(c.pending[0].item, c.pending[0].key, c.total)])
  {
    if c.pending != [] {
      var e, rest := c.pending[0], c.pending[1..];
      assert c.pending == [e] + rest;
      if e.key > c.total || OnlyTimer(c, e, rest) {
        PutBackKeeps(c.pending);
      } else {
        FireKeeps(h, c, e, rest, late);
      }
    }
  }

  /** After a drain nothing is due, but for a lone timer while the machine idles. */
  predicate Settled(c: Clock) {
    forall e :: e in c.pending ==> e.key > c.total || (c.status == IdleMode && c.pending == [e] && e.item.kind == TimerInt)
  }

  lemma {:induction false} DrainKeeps(h: Handlers, c: Clock, late: nat)
    requires Draining(c, late) && late <= SYSTEM_TICK
    ensures var c' := Drain(h, c);
            && Draining(c', late) && Settled(c') && c'.total == c.total && c'.status == c.status
            && |c'.fired| >= |c.fired| && c'.fired[..|c.fired|] == c.fired
            && forall i :: |c.fired| <= i < |c'.fired| ==> c'.fired[i].at == c.total && c.total - late <= c'.fired[i].due
    decreases DueCount(c.pending, c.total)
  {
    CheckKeeps(h, c, late);
    FireLeavesFewerDue(h, c);
    var r := CheckIfDue(h, c, false);
    if r.1 {
      DrainKeeps(h, r.0, late);
      var c' := Drain(h, r.0);
      assert c'.fired[..|c.fired|] == r.0.fired[..|c.fired|] == c.fired;
      assert c'.fired[|c.fired|] == r.0.fired[|c.fired|];
      assert c.pending[0] in c.pending;
    }
  }

  // ---- the operations keep it ----

  lemma ScheduleKeepsInv(c: Clock, r: Request)
    requires Inv(c)
    ensures Inv(Schedule(c, r))
  {
    ScheduledKeeps(c.pending, c.total, [r]);
  }

  lemma TickedDraining(c: Clock)
    requires Inv(c)
    ensures Draining(Ticked(c), if c.status == SystemMode then SYSTEM_TICK else USER_TICK)
  {
  }

  lemma OneTickKeepsInv(h: Handlers, c: Clock)
    requires Inv(c)
    ensures Inv(OneTick(h, c).0)
  {
    TickedDraining(c);
    DrainKeeps(h, Ticked(c).(enabled := false), if c.status == SystemMode then SYSTEM_TICK else USER_TICK);
  }

  /** The clock advances to the first pending interrupt, and nothing becomes overdue. */
  lemma AdvancedIdle(c: Clock)
    requires Draining(c, 0) && c.pending != []
    ensures Draining(Advanced(c, c.pending[0].key), 0) && Advanced(c, c.pending[0].key).total == c.pending[0].key
  {
    FirstIsLeast(c.pending);
    assert c.pending[0] in c.pending;
  }

  /** Idling goes on to the first pending interrupt; whatever it fires is not late at all. The machine halts
      exactly when nothing is pending, or the timer alone. */
  lemma IdleKeepsInv(h: Handlers, c: Clock)
    requires Inv(c)
    ensures var (c', going) := Idle(h, c);
            && (going ==> Inv(c'))
            && (!going <==> c.pending == [] || (|c.pending| == 1 && c.pending[0].item.kind == TimerInt))
            && |c.fired| <= |c'.fired| && forall i :: |c.fired| <= i < |c'.fired| ==> c'.fired[i].at == c'.fired[i].due
  {
    if c.pending != [] {
      var e, rest, c0 := c.pending[0], c.pending[1..], c.(status := IdleMode);
      assert c.pending == [e] + rest;
      AdvancedIdle(c0);
      var c1 := Advanced(c0, e.key);
      if !OnlyTimer(c1, e, rest) {
        FireKeeps(h, c1, e, rest, 0);
        var c2 := Fire(h, c1.(pending := rest), e);
        DrainKeeps(h, c2, 0);
        IdleFired(h, c2, |c.fired|);
      }
    }
  }

  lemma {:induction false} IdleFired(h: Handlers, c: Clock, n: nat)
    requires Draining(c, 0) && |c.fired| == n + 1 && c.fired[n].at == c.fired[n].due
    ensures var c' := Drain(h, c); |c'.fired| > n && forall i :: n <= i < |c'.fired| ==> c'.fired[i].at == c'.fired[i].due
  {
    DrainKeeps(h, c, 0);
    var c' := Drain(h, c);
    assert c'.fired[n] == c'.fired[..n + 1][n];
    forall i | n < i < |c'.fired| ensures c'.fired[i].at == c'.fired[i].due {
      assert FiredOK(c'.fired[i], c'.total);
    }
  }

  // ---- runs ----

  datatype Op = DoTick | DoIdle | DoSchedule(r: Request) | DoSetLevel(on: bool) | DoMode(user: bool)

  /** Time stops where Idle finds nothing to wait for. The kernel and user programs switch the mode. */
  function Did(h: Handlers, c: Clock, op: Op): (c': Clock) {
    match op
    case DoTick => OneTick(h, c).0
    case DoIdle => Idle(h, c).0
    case DoSchedule(r) => Schedule(c, r)
    case DoSetLevel(on) => SetLevel(h, c, on).0
    case DoMode(user) => c.(status := if user then UserMode else SystemMode)
  }

  predicate Goes(h: Handlers, c: Clock, op: Op) { op.DoIdle? ==> Idle(h, c).1 }

  lemma OpKeepsInv(h: Handlers, c: Clock, op: Op)
    requires Inv(c) && Goes(h, c, op)
    ensures Inv(Did(h, c, op))
  {
    match op
    case DoTick => OneTickKeepsInv(h, c);
    case DoIdle => IdleKeepsInv(h, c);
    case DoSchedule(r) => ScheduleKeepsInv(c, r);
    case DoSetLevel(on) => if on && !c.enabled { OneTickKeepsInv(h, c.(enabled := true)); }
    case DoMode(_) =>
  }

  predicate IsRun(h: Handlers, c: Clock, ops: seq<Op>)
    decreases |ops|
  {
    ops == [] || (Goes(h, c, ops[0]) && IsRun(h, Did(h, c, ops[0]), ops[1..]))
  }

  function After(h: Handlers, c: Clock, ops: seq<Op>): (c': Clock)
    decreases |ops|
  {
    if ops == [] then c else After(h, Did(h, c, ops[0]), ops[1..])
  }

  const START := Clock(false, SystemMode, [], 0, 0, 0, 0, false, [])

  lemma {:induction false} RunKeepsInv(h: Handlers, c: Clock, ops: seq<Op>)
    requires Inv(c) && IsRun(h, c, ops)
    ensures Inv(After(h, c, ops))
    decreases |ops|
  {
    if ops != [] {
      OpKeepsInv(h, c, ops[0]);
      RunKeepsInv(h, Did(h, c, ops[0]), ops[1..]);
    }
  }

  /** The ticks add up, and the handlers fired in the order of their due times, each no earlier than due and at most
      one system tick late - a whole tick late only the timer. */
  predicate Orderly(c: Clock) {
    && c.total == c.idle + c.system + c.user
    && (forall i, j :: 0 <= i < j < |c.fired| ==> c.fired[i].due <= c.fired[j].due)
    && (forall i :: 0 <= i < |c.fired| ==>
         && c.fired[i].due <= c.fired[i].at <= c.fired[i].due + SYSTEM_TICK
         && (c.fired[i].at == c.fired[i].due + SYSTEM_TICK ==> c.fired[i].what.kind == TimerInt))
  }

  lemma InvIsOrderly(c: Clock)
    requires Inv(c)
    ensures Orderly(c) && SortedByKey(c.pending)
  {
    assert forall i :: 0 <= i < |c.fired| ==> FiredOK(c.fired[i], c.total);
  }

  lemma StartInv()
    ensures Inv(START)
  {
  }

  /** Over every run, whatever the handlers do, time is orderly and the pending list sorted. */
  lemma {:induction false} TimeIsOrderly(h: Handlers, ops: seq<Op>)
    requires IsRun(h, START, ops)
    ensures Orderly(After(h, START, ops)) && SortedByKey(After(h, START, ops).pending)
  {
    StartInv();
    RunKeepsInv(h, START, ops);
    InvIsOrderly(After(h, START, ops));
  }

  /** A tick fires everything less than a system tick late exactly when no interrupt was due already before it,
      or a user program ran. */
  lemma LateByATickIff(h: Handlers, c: Clock)
    requires Inv(c)
    ensures var c' := OneTick(h, c).0;
            && |c.fired| <= |c'.fired|
            && ((forall i :: |c.fired| <= i < |c'.fired| ==> c'.fired[i].at - c'.fired[i].due < SYSTEM_TICK)
                <==> !(c.status == SystemMode && c.pending != [] && c.pending[0].key == c.total))
  {
    var c1 := Ticked(c).(enabled := false);
    TickedDraining(c);
    if c.status != SystemMode {
      DrainKeeps(h, c1, USER_TICK);
    } else if c.pending != [] && c.pending[0].key == c.total {
      FirstFires(h, c1);
    } else {
      assert Draining(c1, SYSTEM_TICK - 1) by {
        if c.pending != [] {
          FirstIsLeast(c.pending);
          assert c.pending[0] in c.pending;
        }
      }
      DrainKeeps(h, c1, SYSTEM_TICK - 1);
    }
  }

  /** The first interrupt of a drain, when it is due, is the next in the history. */
  lemma {:induction false} FirstFires(h: Handlers, c: Clock)
    requires Draining(c, SYSTEM_TICK) && c.status != IdleMode && c.pending != [] && c.pending[0].key <= c.total
    ensures var c' := Drain(h, c);
            |c'.fired| > |c.fired| && c'.fired[|c.fired|] == Fired(c.pending[0].item, c.pending[0].key, c.total)
  {
    CheckKeeps(h, c, SYSTEM_TICK);
    FireLeavesFewerDue(h, c);
    var r := CheckIfDue(h, c, false);
    DrainKeeps(h, r.0, SYSTEM_TICK);
    assert Drain(h, c).fired[|c.fired|] == Drain(h, r.0).fired[..|r.0.fired|][|c.fired|];
  }

  ghost predicate Quiet(h: Handlers) { forall i, n :: h(i, n) == Effect([], false) }

  const DISK_DUE := Keyed(Interrupt(DiskInt, 0), 100)
  const TIMER_DUE := Keyed(Interrupt(TimerInt, 0), 100)

  lemma BothScheduled()
    ensures Schedule(Schedule(START, Request(DISK_DUE.item, 100)), Request(TIMER_DUE.item, 100)) == START.(pending := [DISK_DUE, TIMER_DUE])
  {
    var disk, timer := Request(DISK_DUE.item, 100), Request(TIMER_DUE.item, 100);
    assert [disk][1..] == [] && [timer][1..] == [];
    assert Inserted([], DISK_DUE) == [DISK_DUE];
    assert KeyPosition([DISK_DUE], 100, 1) == 1;
    assert Inserted([DISK_DUE], TIMER_DUE) == [DISK_DUE, TIMER_DUE];
  }

  lemma {:induction false} FourOps(h: Handlers, c: Clock, c1: Clock, c2: Clock, c3: Clock, ops: seq<Op>)
    requires |ops| == 4 && Goes(h, c, ops[0]) && c1 == Did(h, c, ops[0]) && Goes(h, c1, ops[1]) && c2 == Did(h, c1, ops[1])
    requires Goes(h, c2, ops[2]) && c3 == Did(h, c2, ops[2]) && Goes(h, c3, ops[3])
    ensures IsRun(h, c, ops) && After(h, c, ops) == Did(h, c3, ops[3])
  {
    assert ops[1..][1..] == ops[2..] && ops[2..][1..] == ops[3..] && ops[3..][1..] == [];
    assert IsRun(h, c3, ops[3..]) && After(h, c3, ops[3..]) == Did(h, c3, ops[3]);
    assert IsRun(h, c2, ops[2..]) && After(h, c2, ops[2..]) == Did(h, c3, ops[3]);
    assert IsRun(h, c1, ops[1..]) && After(h, c1, ops[1..]) == Did(h, c3, ops[3]);
  }

  /** It happens: a timer and a disk interrupt due together; Idle fires the disk's and leaves the timer, which the
      next tick fires a whole system tick late. */
  lemma {:induction false} TimerFiresLate(h: Handlers)
    requires Quiet(h)
    ensures var ops := [DoSchedule(Request(DISK_DUE.item, 100)), DoSchedule(Request(TIMER_DUE.item, 100)), DoIdle, DoTick];
            IsRun(h, START, ops) && Fired(TIMER_DUE.item, 100, 110) in After(h, START, ops).fired
  {
    var disk, timer := Request(DISK_DUE.item, 100), Request(TIMER_DUE.item, 100);
    BothScheduled();
    var c1, c2 := Schedule(START, disk), START.(pending := [DISK_DUE, TIMER_DUE]);
    assert DISK_DUE.key == TIMER_DUE.key == 100 > c2.total && TIMER_DUE.item.kind == TimerInt;
    IdleThenTick(h, c2, DISK_DUE, TIMER_DUE);
    FourOps(h, START, c1, c2, Idle(h, c2).0, [DoSchedule(disk), DoSchedule(timer), DoIdle, DoTick]);
  }

  lemma IdleThenTick(h: Handlers, c: Clock, d: Due, t: Due)
    requires Quiet(h) && c.pending == [d, t] && d.key == t.key > c.total && t.item.kind == TimerInt && !c.yieldOnReturn
    ensures Idle(h, c).1 && Fired(t.item, t.key, t.key + SYSTEM_TICK) in OneTick(h, Idle(h, c).0).0.fired
  {
    IdleLeavesTimer(h, c, d, t);
    TickFiresOnly(h, Idle(h, c).0, t);
  }

  /** Idle with a device and the timer due together fires the device's interrupt and leaves the timer. */
  lemma IdleLeavesTimer(h: Handlers, c: Clock, d: Due, t: Due)
    requires Quiet(h) && c.pending == [d, t] && d.key == t.key > c.total && t.item.kind == TimerInt && !c.yieldOnReturn
    ensures var idled := c.(status := SystemMode, pending := [t], total := t.key, idle := c.idle + (t.key - c.total));
            Idle(h, c) == (idled.(fired := c.fired + [Fired(d.item, d.key, d.key)]), true)
  {
    var c1 := Advanced(c.(status := IdleMode), d.key);
    assert c.pending[1..] == [t];
    var c2 := Fire(h, c1.(pending := [t]), d);
    assert c2.pending == [t] && [t][1..] == [];
    assert Inserted([], t) == [t];
    assert CheckIfDue(h, c2, false) == (c2, false);
    assert Drain(h, c2) == c2;
  }

  /** A system tick with one interrupt pending that is due fires it. */
  lemma TickFiresOnly(h: Handlers, c: Clock, e: Due)
    requires Quiet(h) && c.pending == [e] && c.status == SystemMode && e.key <= c.total && !c.yieldOnReturn
    ensures var ticked := c.(enabled := true, total := c.total + SYSTEM_TICK, system := c.system + SYSTEM_TICK, pending := []);
            OneTick(h, c).0 == ticked.(fired := c.fired + [Fired(e.item, e.key, c.total + SYSTEM_TICK)])
  {
    var c1 := Ticked(c).(enabled := false);
    assert c.pending[1..] == [];
    var c2 := Fire(h, c1.(pending := []), e);
    assert CheckIfDue(h, c1, false) == (c2, true);
    FireLeavesFewerDue(h, c1);
    assert Drain(h, c2) == c2;
    assert Drain(h, c1) == Drain(h, c2);
  }
}
