/** What simulated time keeps account of over whole runs: every interrupt asked for is fired once or still pending,
    ticks are charged to the mode they pass in, and a thread yields when a handler asked for it. */
module TimeLaws {
  import opened Lists
  import opened SimTime

  // ---- interrupts asked for and fired ----

  /** The interrupts that requests made at a time stand for. */
  function Asked(requests: seq<Request>, now: int): (r: multiset<Due>) {
    if requests == [] then multiset{}
    else multiset{Keyed(requests[0].what, now + requests[0].fromNow)} + Asked(requests[1..], now)
  }

  /** The interrupts fired since the history had `n`, with the times they were due. */
  function FiredSince(fired: seq<Fired>, n: nat): (r: multiset<Due>)
    requires n <= |fired|
    decreases |fired| - n
  {
    if n == |fired| then multiset{} else multiset{Keyed(fired[n].what, fired[n].due)} + FiredSince(fired, n + 1)
  }

  /** What the handlers called since then asked for. */
  function AskedSince(h: Handlers, fired: seq<Fired>, n: nat): (r: multiset<Due>)
    requires n <= |fired|
    decreases |fired| - n
  {
    if n == |fired| then multiset{}
    else Asked(h(fired[n].what, n).requests, fired[n].at) + AskedSince(h, fired, n + 1)
  }

  /** Whether one of them asked for a yield. */
  predicate YieldAsked(h: Handlers, fired: seq<Fired>, n: nat)
    requires n <= |fired|
    decreases |fired| - n
  {
    n < |fired| && (h(fired[n].what, n).preempts || YieldAsked(h, fired, n + 1))
  }

  lemma {:induction false} ScheduledAdds(pending: seq<Due>, now: int, requests: seq<Request>)
    ensures multiset(Scheduled(pending, now, requests)) == multiset(pending) + Asked(requests, now)
    decreases |requests|
  {
    if requests != [] {
      var e := Keyed(requests[0].what, now + requests[0].fromNow);
      InsertedAdds(pending, e);
      ScheduledAdds(Inserted(pending, e), now, requests[1..]);
    }
  }

  /** A later history splits at any point in between. */
  lemma {:induction false} FiredSplits(fired: seq<Fired>, more: seq<Fired>, n: nat)
    requires n <= |fired| <= |more| && more[..|fired|] == fired
    ensures FiredSince(more, n) == FiredSince(fired, n) + FiredSince(more, |fired|)
    decreases |fired| - n
  {
    if n < |fired| {
      assert more[n] == more[..|fired|][n] == fired[n];
      FiredSplits(fired, more, n + 1);
    }
  }

  lemma {:induction false} AskedSplits(h: Handlers, fired: seq<Fired>, more: seq<Fired>, n: nat)
    requires n <= |fired| <= |more| && more[..|fired|] == fired
    ensures AskedSince(h, more, n) == AskedSince(h, fired, n) + AskedSince(h, more, |fired|)
    decreases |fired| - n
  {
    if n < |fired| {
      assert more[n] == more[..|fired|][n] == fired[n];
      AskedSplits(h, fired, more, n + 1);
      assert AskedSince(h, more, n) == Asked(h(more[n].what, n).requests, more[n].at) + AskedSince(h, more, n + 1);
      assert AskedSince(h, fired, n) == Asked(h(fired[n].what, n).requests, fired[n].at) + AskedSince(h, fired, n + 1);
    }
  }

  lemma {:induction false} YieldSplits(h: Handlers, fired: seq<Fired>, more: seq<Fired>, n: nat)
    requires n <= |fired| <= |more| && more[..|fired|] == fired
    ensures YieldAsked(h, more, n) <==> YieldAsked(h, fired, n) || YieldAsked(h, more, |fired|)
    decreases |fired| - n
  {
    if n < |fired| {
      assert more[n] == more[..|fired|][n] == fired[n];
      YieldSplits(h, fired, more, n + 1);
    }
  }

  /** From one clock to a later one: what is pending and what was fired is what was pending and what was asked for, by
      the handlers and otherwise; and a yield is due when one was or a handler asked for it. */
  ghost predicate Balanced(h: Handlers, c: Clock, c': Clock, others: multiset<Due>) {
    && |c.fired| <= |c'.fired| && c'.fired[..|c.fired|] == c.fired
    && multiset(c'.pending) + FiredSince(c'.fired, |c.fired|)
       == multiset(c.pending) + AskedSince(h, c'.fired, |c.fired|) + others
  }

  ghost predicate YieldsWhenAsked(h: Handlers, c: Clock, c': Clock)
    requires |c.fired| <= |c'.fired|
  {
    c'.yieldOnReturn <==> c.yieldOnReturn || YieldAsked(h, c'.fired, |c.fired|)
  }

  lemma BalancedThrough(h: Handlers, c: Clock, c1: Clock, c2: Clock, others: multiset<Due>, others': multiset<Due>)
    requires Balanced(h, c, c1, others) && Balanced(h, c1, c2, others')
    ensures Balanced(h, c, c2, others + others')
  {
    FiredSplits(c1.fired, c2.fired, |c.fired|);
    AskedSplits(h, c1.fired, c2.fired, |c.fired|);
    assert c2.fired[..|c.fired|] == c2.fired[..|c1.fired|][..|c.fired|];
    Sums(multiset(c.pending), multiset(c1.pending), multiset(c2.pending), FiredSince(c1.fired, |c.fired|),
         FiredSince(c2.fired, |c1.fired|), AskedSince(h, c1.fired, |c.fired|), AskedSince(h, c2.fired, |c1.fired|),
         others, others');
  }

  lemma Sums<T>(p: multiset<T>, p1: multiset<T>, p2: multiset<T>, f: multiset<T>, f': multiset<T>,
                a: multiset<T>, a': multiset<T>, o: multiset<T>, o': multiset<T>)
    requires p1 + f == p + a + o && p2 + f' == p1 + a' + o'
    ensures p2 + (f + f') == p + (a + a') + (o + o')
  {
    forall x ensures (p2 + (f + f'))[x] == (p + (a + a') + (o + o'))[x] {
      assert (p1 + f)[x] == (p + a + o)[x] && (p2 + f')[x] == (p1 + a' + o')[x];
    }
  }

  // ---- one handler, and the drain ----

  lemma FireBalances(h: Handlers, c: Clock, e: Due, rest: seq<Due>)
    requires c.pending == [e] + rest
    ensures var c' := Fire(h, c.(pending := rest), e);
            Balanced(h, c, c', multiset{}) && YieldsWhenAsked(h, c, c')
  {
    var c', n := Fire(h, c.(pending := rest), e), |c.fired|;
    ScheduledAdds(rest, c.total, h(e.item, n).requests);
    assert c'.fired[n] == Fired(e.item, e.key, c.total);
    assert FiredSince(c'.fired, n + 1) == multiset{} && AskedSince(h, c'.fired, n + 1) == multiset{};
    assert Keyed(c'.fired[n].what, c'.fired[n].due) == e;
    assert multiset(c.pending) == multiset{e} + multiset(rest);
  }

  lemma StillBalances(h: Handlers, c: Clock, c': Clock)
    requires c'.fired == c.fired && multiset(c'.pending) == multiset(c.pending) && c'.yieldOnReturn == c.yieldOnReturn
    ensures Balanced(h, c, c', multiset{}) && YieldsWhenAsked(h, c, c')
  {
  }

  lemma CalledBalances(h: Handlers, c: Clock, advance: bool)
    requires CheckIfDue(h, c, advance).1
    ensures var c' := CheckIfDue(h, c, advance).0;
            Balanced(h, c, c', multiset{}) && YieldsWhenAsked(h, c, c')
  {
    var e, rest := c.pending[0], c.pending[1..];
    assert c.pending == [e] + rest;
    FireBalances(h, if advance then Advanced(c, e.key) else c, e, rest);
  }

  lemma PutBackBalances(h: Handlers, c: Clock, advance: bool)
    requires !CheckIfDue(h, c, advance).1
    ensures var c' := CheckIfDue(h, c, advance).0;
            Balanced(h, c, c', multiset{}) && YieldsWhenAsked(h, c, c')
  {
    if c.pending != [] {
      assert c.pending == [c.pending[0]] + c.pending[1..];
      InsertedAdds(c.pending[1..], c.pending[0]);
    }
    StillBalances(h, c, CheckIfDue(h, c, advance).0);
  }

  lemma CheckBalances(h: Handlers, c: Clock, advance: bool)
    ensures var c' := CheckIfDue(h, c, advance).0;
            Balanced(h, c, c', multiset{}) && YieldsWhenAsked(h, c, c')
  {
    if CheckIfDue(h, c, advance).1 {
      CalledBalances(h, c, advance);
    } else {
      PutBackBalances(h, c, advance);
    }
  }

  lemma {:induction false} DrainBalances(h: Handlers, c: Clock)
    ensures Balanced(h, c, Drain(h, c), multiset{}) && YieldsWhenAsked(h, c, Drain(h, c))
    decreases DueCount(c.pending, c.total)
  {
    CheckBalances(h, c, false);
    FireLeavesFewerDue(h, c);
    var r := CheckIfDue(h, c, false);
    if r.1 {
      DrainBalances(h, r.0);
      BalancedThrough(h, c, r.0, Drain(h, r.0), multiset{}, multiset{});
      YieldSplits(h, r.0.fired, Drain(h, r.0).fired, |c.fired|);
    }
  }

  /** The clock and the counters of ticks stand still while handlers run. */
  lemma {:induction false} DrainKeepsTicks(h: Handlers, c: Clock)
    ensures var c' := Drain(h, c);
            && c'.total == c.total && c'.idle == c.idle && c'.system == c.system && c'.user == c.user
            && c'.status == c.status && c'.enabled == c.enabled
    decreases DueCount(c.pending, c.total)
  {
    FireLeavesFewerDue(h, c);
    var r := CheckIfDue(h, c, false);
    if r.1 {
      DrainKeepsTicks(h, r.0);
    }
  }

  /** A tick tells the running thread to yield exactly when a yield was due, or a handler it fired asked for one. */
  lemma TickYieldsIff(h: Handlers, c: Clock)
    ensures var (c', preempted) := OneTick(h, c);
            && |c.fired| <= |c'.fired| && !c'.yieldOnReturn
            && (preempted <==> c.yieldOnReturn || YieldAsked(h, c'.fired, |c.fired|))
  {
    DrainBalances(h, Ticked(c).(enabled := false));
  }

  // ---- runs ----

  /** The operation lets a tick pass: a user instruction, or interrupts enabled again. */
  predicate Ticks(c: Clock, op: Op) { op.DoTick? || (op == DoSetLevel(true) && !c.enabled) }

  function AskedBy(c: Clock, op: Op): (r: multiset<Due>) {
    if op.DoSchedule? then multiset{Keyed(op.r.what, c.total + op.r.fromNow)} else multiset{}
  }

  lemma TickBalances(h: Handlers, c: Clock)
    ensures Balanced(h, c, OneTick(h, c).0, multiset{})
  {
    DrainBalances(h, Ticked(c).(enabled := false));
  }

  lemma IdleBalances(h: Handlers, c: Clock)
    ensures Balanced(h, c, Idle(h, c).0, multiset{})
  {
    var c0 := c.(status := IdleMode);
    CheckBalances(h, c0, true);
    var r := CheckIfDue(h, c0, true);
    if r.1 {
      DrainBalances(h, r.0);
      BalancedThrough(h, c0, r.0, Drain(h, r.0), multiset{}, multiset{});
    }
  }

  lemma ScheduleBalances(h: Handlers, c: Clock, r: Request)
    ensures Balanced(h, c, Schedule(c, r), AskedBy(c, DoSchedule(r)))
  {
    ScheduledAdds(c.pending, c.total, [r]);
    assert Asked([r], c.total) == AskedBy(c, DoSchedule(r)) + Asked([r][1..], c.total);
  }

  lemma LevelBalances(h: Handlers, c: Clock, on: bool)
    ensures Balanced(h, c, SetLevel(h, c, on).0, multiset{})
  {
    if on && !c.enabled {
      TickBalances(h, c.(enabled := true));
    } else {
      StillBalances(h, c, c.(enabled := on));
    }
  }

  lemma OpBalances(h: Handlers, c: Clock, op: Op)
    ensures Balanced(h, c, Did(h, c, op), AskedBy(c, op))
  {
    match op
    case DoTick => TickBalances(h, c);
    case DoIdle => IdleBalances(h, c);
    case DoSchedule(r) => ScheduleBalances(h, c, r);
    case DoSetLevel(on) => LevelBalances(h, c, on);
    case DoMode(user) => StillBalances(h, c, Did(h, c, op));
  }

  /** What the devices asked for over a run. */
  function AskedOver(h: Handlers, c: Clock, ops: seq<Op>): (r: multiset<Due>)
    decreases |ops|
  {
    if ops == [] then multiset{} else AskedBy(c, ops[0]) + AskedOver(h, Did(h, c, ops[0]), ops[1..])
  }

  /** Over every run each interrupt asked for, by a device or by a handler, was fired once or is pending, with the time
      it was asked for: none is lost, doubled or made up. */
  lemma {:induction false} InterruptsAreConserved(h: Handlers, c: Clock, ops: seq<Op>)
    ensures Balanced(h, c, After(h, c, ops), AskedOver(h, c, ops))
    decreases |ops|
  {
    if ops != [] {
      var c1 := Did(h, c, ops[0]);
      OpBalances(h, c, ops[0]);
      InterruptsAreConserved(h, c1, ops[1..]);
      BalancedThrough(h, c, c1, After(h, c1, ops[1..]), AskedBy(c, ops[0]), AskedOver(h, c1, ops[1..]));
    }
  }

  /** What one operation does to the mode, the interrupt level and the counters. */
  lemma OpCounts(h: Handlers, c: Clock, op: Op)
    requires Inv(c) && Goes(h, c, op)
    ensures var c' := Did(h, c, op);
            && c'.system == c.system + (if Ticks(c, op) && c.status == SystemMode then SYSTEM_TICK else 0)
            && c'.user == c.user + (if Ticks(c, op) && c.status != SystemMode then USER_TICK else 0)
            && c'.idle == c.idle + (if op.DoIdle? then c.pending[0].key - c.total else 0)
            && c'.status == (match op case DoIdle => SystemMode case DoMode(user) => if user then UserMode else SystemMode case _ => c.status)
            && c'.enabled == (match op case DoTick => true case DoSetLevel(on) => on case _ => c.enabled)
            && (!c.yieldOnReturn ==> !c'.yieldOnReturn)
  {
    match op
    case DoTick => DrainKeepsTicks(h, Ticked(c).(enabled := false));
    case DoIdle =>
      AdvancedIdle(c.(status := IdleMode));
      DrainKeepsTicks(h, CheckIfDue(h, c.(status := IdleMode), true).0);
    case DoSetLevel(on) => if on && !c.enabled { DrainKeepsTicks(h, Ticked(c.(enabled := true)).(enabled := false)); }
    case _ =>
  }

  /** How many ticks pass in system mode, or outside it. */
  function TicksIn(h: Handlers, c: Clock, ops: seq<Op>, kernel: bool): (n: nat)
    decreases |ops|
  {
    if ops == [] then 0 else
      (if Ticks(c, ops[0]) && (c.status == SystemMode) == kernel then 1 else 0) + TicksIn(h, Did(h, c, ops[0]), ops[1..], kernel)
  }

  /** Over every run each tick is charged to the mode it passes in, ten for the kernel's and one for a user program's;
      and no yield is ever left over. */
  lemma {:induction false} TicksAreCharged(h: Handlers, c: Clock, ops: seq<Op>)
    requires Inv(c) && IsRun(h, c, ops) && !c.yieldOnReturn
    ensures var c' := After(h, c, ops);
            && c'.system == c.system + SYSTEM_TICK * TicksIn(h, c, ops, true)
            && c'.user == c.user + USER_TICK * TicksIn(h, c, ops, false)
            && !c'.yieldOnReturn
    decreases |ops|
  {
    if ops != [] {
      OpCounts(h, c, ops[0]);
      OpKeepsInv(h, c, ops[0]);
      TicksAreCharged(h, Did(h, c, ops[0]), ops[1..]);
    }
  }

  /** A tick makes the running thread yield exactly when a handler it fires asks for it. */
  predicate YieldsIfAsked(h: Handlers, c: Clock) {
    var (c', preempted) := OneTick(h, c);
    |c.fired| <= |c'.fired| && (preempted <==> YieldAsked(h, c'.fired, |c.fired|))
  }

  lemma NoneLeftOver(h: Handlers, c: Clock)
    requires !c.yieldOnReturn
    ensures YieldsIfAsked(h, c)
  {
    TickYieldsIff(h, c);
  }

  /** So it is after every run. */
  lemma {:induction false} YieldsIffAsked(h: Handlers, ops: seq<Op>)
    requires IsRun(h, START, ops)
    ensures YieldsIfAsked(h, After(h, START, ops))
  {
    StartInv();
    TicksAreCharged(h, START, ops);
    NoneLeftOver(h, After(h, START, ops));
  }
}
