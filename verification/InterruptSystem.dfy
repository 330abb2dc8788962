/** The simulated interrupt hardware as an object, proved against the functions of SimTime. Its pending list is the
    sequence a linked list of Lists stands for. */
module InterruptSystem {
  import opened Lists
  import opened SimTime

  class Hardware {
    const handlers: Handlers
    var pending: seq<Due>
    var enabled: bool
    var status: Mode
    var yieldOnReturn: bool
    var totalTicks: int
    var idleTicks: int
    var systemTicks: int
    var userTicks: int
    /** The handlers called so far. */
    var fired: seq<Fired>

    ghost function State(): Clock
      reads this
    {
      Clock(enabled, status, pending, totalTicks, idleTicks, systemTicks, userTicks, yieldOnReturn, fired)
    }

    constructor (handlers: Handlers)
      ensures State() == START && this.handlers == handlers
    {
      this.handlers := handlers;
      enabled, status, pending, yieldOnReturn, fired := false, SystemMode, [], false, [];
      totalTicks, idleTicks, systemTicks, userTicks := 0, 0, 0, 0;
    }

    method ScheduleOne(r: Request)
      modifies this`pending
      ensures State() == Schedule(old(State()), r)
    {
      assert [r][1..] == [];
      pending := Inserted(pending, Keyed(r.what, totalTicks + r.fromNow));
      assert Scheduled(pending, totalTicks, []) == pending;
    }

    /** What a handler schedules while it runs. */
    method ScheduleAll(requests: seq<Request>)
      modifies this`pending
      ensures pending == Scheduled(old(pending), totalTicks, requests)
    {
      ghost var all := Scheduled(pending, totalTicks, requests);
      var i := 0;
      while i < |requests|
        invariant 0 <= i <= |requests|
        invariant Scheduled(pending, totalTicks, requests[i..]) == all
      {
        var r := requests[i];
        pending := Inserted(pending, Keyed(r.what, totalTicks + r.fromNow));
        assert requests[i..][1..] == requests[i + 1..];
        i := i + 1;
      }
    }

    method CheckAndFire(advanceClock: bool) returns (firedOne: bool)
      modifies this
      ensures (State(), firedOne) == CheckIfDue(handlers, old(State()), advanceClock)
    {
      if pending == [] {
        return false;
      }
      var toOccur, when := pending[0].item, pending[0].key;
      pending := pending[1..];
      if advanceClock {
        if when > totalTicks {
          idleTicks := idleTicks + (when - totalTicks);
          totalTicks := when;
        }
      } else if when > totalTicks {
        pending := Inserted(pending, Keyed(toOccur, when));
        return false;
      }
      if status == IdleMode && toOccur.kind == TimerInt && pending == [] {
        pending := Inserted(pending, Keyed(toOccur, when));
        return false;
      }
      Call(toOccur, when);
      return true;
    }

    /** Calls a handler, in system mode; the mode is restored. */
    method Call(toOccur: Interrupt, when: int)
      modifies this
      ensures State() == Fire(handlers, old(State()), Keyed(toOccur, when))
    {
      var mode := status;
      status := SystemMode;
      var effect := handlers(toOccur, |fired|);
      ScheduleAll(effect.requests);
      if effect.preempts {
        yieldOnReturn := true;
      }
      fired := fired + [Fired(toOccur, when, totalTicks)];
      status := mode;
    }

    /** while (CheckIfDue(FALSE)); */
    method FireDue()
      modifies this
      ensures State() == Drain(handlers, old(State()))
    {
      FireLeavesFewerDue(handlers, State());
      var more := CheckAndFire(false);
      while more
        invariant Drain(handlers, old(State())) == if more then Drain(handlers, State()) else State()
        decreases more, DueCount(State().pending, totalTicks)
      {
        FireLeavesFewerDue(handlers, State());
        more := CheckAndFire(false);
      }
    }

    /** The result tells whether the running thread is to yield. */
    method Tick() returns (yieldNow: bool)
      modifies this
      ensures (State(), yieldNow) == OneTick(handlers, old(State()))
    {
      if status == SystemMode {
        totalTicks := totalTicks + SYSTEM_TICK;
        systemTicks := systemTicks + SYSTEM_TICK;
      } else {
        totalTicks := totalTicks + USER_TICK;
        userTicks := userTicks + USER_TICK;
      }
      enabled := false;
      FireDue();
      enabled := true;
      yieldNow := yieldOnReturn;
      yieldOnReturn := false;
    }

    /** False when the machine is to halt. */
    method IdleUntilInterrupt() returns (going: bool)
      modifies this
      ensures (State(), going) == Idle(handlers, old(State()))
    {
      status := IdleMode;
      going := CheckAndFire(true);
      if going {
        FireDue();
        yieldOnReturn := false;
        status := SystemMode;
      }
    }

    method ChangeLevel(on: bool) returns (yieldNow: bool)
      modifies this
      ensures (State(), yieldNow) == SetLevel(handlers, old(State()), on)
    {
      var was := enabled;
      enabled := on;
      yieldNow := false;
      if on && !was {
        yieldNow := Tick();
      }
    }
  }
}
