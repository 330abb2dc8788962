/** The network thread's queue of messages, handed on in timestamp order once every member is known to be past them. */
module TotalOrder {
  import opened MessageModel

  /** A row of the member table: a thread and the timestamp it was last heard with. */
  datatype Row = Row(member: Address, time: Time)

  type Table = t: seq<Row> | t != [] witness [Row(Address(0, 0), Time(0, 0))]

  type Queue = seq<Message>

  predicate Before(a: Time, b: Time) { a.sec < b.sec || (a.sec == b.sec && a.usec < b.usec) }

  predicate NotAfter(a: Time, b: Time) { !Before(b, a) }

  /** A row that was never heard from has seconds 0. */
  predicate Heard(r: Row) { r.time.sec > 0 }

  predicate AllHeard(table: Table) { forall i :: 0 <= i < |table| ==> Heard(table[i]) }

  // ---- the four steps, as functions ----

  function RowOf(table: seq<Row>, a: Address, from: nat := 0): (i: int)
    requires from <= |table|
    ensures i == -1 || from <= i < |table|
    ensures i == -1 ==> forall j :: from <= j < |table| ==> table[j].member != a
    ensures i != -1 ==> table[i].member == a && forall j :: from <= j < i ==> table[j].member != a
    decreases |table| - from
  {
    if from == |table| then -1 else if table[from].member == a then from else RowOf(table, a, from + 1)
  }

  function Updated(table: Table, a: Address, time: Time): (r: Table) {
    var i := RowOf(table, a);
    if i == -1 then table else table[i := table[i].(time := time)]
  }

  /** The first position, from `from` on, whose timestamp is later. */
  function Position(queue: Queue, time: Time, from: nat := 0): (i: nat)
    requires from <= |queue|
    ensures from <= i <= |queue|
    ensures forall j :: from <= j < i ==> NotAfter(queue[j].key.time, time)
    ensures i < |queue| ==> Before(time, queue[i].key.time)
    decreases |queue| - from
  {
    if from == |queue| || Before(time, queue[from].key.time) then from else Position(queue, time, from + 1)
  }

  function Inserted(queue: Queue, m: Message): (r: Queue) {
    var i := Position(queue, m.key.time);
    queue[..i] + [m] + queue[i..]
  }

  /** The first row's timestamp, or an earlier one of a row that was heard from. */
  function Earliest(table: Table, n: nat): (e: Time)
    requires 1 <= n <= |table|
  {
    if n == 1 then table[0].time
    else
      var e := Earliest(table, n - 1);
      if Heard(table[n - 1]) && Before(table[n - 1].time, e) then table[n - 1].time else e
  }

  /** What one pass over the queue hands on and leaves. The member table is indexed by the position in the queue:
      past the table's end the access throws, and the pass does not finish. */
  datatype Pass = Pass(handed: seq<Message>, left: Queue, finished: bool)

  function Drain(queue: Queue, table: Table, e: Time, i: nat := 0): (r: Pass)
    requires i <= |queue|
    decreases |queue| - i
  {
    if i == |queue| then Pass([], queue, true)
    else if i >= |table| then Pass([], queue, false)
    else if Heard(table[i]) && NotAfter(queue[i].key.time, e) then
      var rest := Drain(queue[..i] + queue[i + 1..], table, e, i);
      Pass([queue[i]] + rest.handed, rest.left, rest.finished)
    else Drain(queue, table, e, i + 1)
  }

  /** The effect of one message of another thread on the queue. */
  function Arrival(table: Table, queue: Queue, m: Message, isTimestamp: bool): (r: Pass) {
    var table' := Updated(table, m.key.src, m.key.time);
    var queue' := if isTimestamp then queue else Inserted(queue, m);
    Drain(queue', table', Earliest(table', |table'|))
  }

  // ---- the loops ----

  class Orderer {
    var table: Table
    var queue: Queue

    constructor (table: Table)
      ensures this.table == table && queue == []
    {
      this.table, queue := table, [];
    }

    /** Steps 2 to 5 of the main loop. When `finished` is false the pass stopped at a bad index of the table. */
    method Process(m: Message, isTimestamp: bool) returns (handed: seq<Message>, finished: bool)
      modifies this
      ensures table == Updated(old(table), m.key.src, m.key.time)
      ensures Pass(handed, queue, finished) == Arrival(old(table), old(queue), m, isTimestamp)
    {
      UpdateRow(m.key.src, m.key.time);
      if !isTimestamp {
        Insert(m);
      }
      var e := FindEarliest();
      handed, finished := HandOn(e);
    }

    method UpdateRow(a: Address, time: Time)
      modifies this`table
      ensures table == Updated(old(table), a, time)
    {
      ghost var before := table;
      var i := 0;
      while i < |table|
        invariant 0 <= i <= |table| && table == before && RowOf(before, a) == RowOf(before, a, i)
      {
        if table[i].member == a {
          table := table[i := table[i].(time := time)];
          return;
        }
        i := i + 1;
      }
    }

    method Insert(m: Message)
      modifies this`queue
      ensures queue == Inserted(old(queue), m)
    {
      var i := 0;
      while i < |queue|
        invariant 0 <= i <= |queue| && Position(queue, m.key.time) == Position(queue, m.key.time, i)
      {
        if queue[i].key.time.sec > m.key.time.sec
           || (queue[i].key.time.sec == m.key.time.sec && queue[i].key.time.usec > m.key.time.usec)
        {
          break;
        }
        i := i + 1;
      }
      queue := queue[..i] + [m] + queue[i..];
    }

    method FindEarliest() returns (e: Time)
      ensures e == Earliest(table, |table|)
    {
      e := table[0].time;
      var i := 1;
      while i < |table|
        invariant 1 <= i <= |table| && e == Earliest(table, i)
      {
        if table[i].time.sec > 0
           && (table[i].time.sec < e.sec || (table[i].time.sec == e.sec && table[i].time.usec < e.usec))
        {
          e := table[i].time;
        }
        i := i + 1;
      }
    }

    method HandOn(e: Time) returns (handed: seq<Message>, finished: bool)
      modifies this`queue
      ensures Pass(handed, queue, finished) == Drain(old(queue), table, e)
    {
      ghost var whole := Drain(queue, table, e);
      handed := [];
      var i := 0;
      while i < |queue|
        invariant 0 <= i <= |queue|
        invariant var rest := Drain(queue, table, e, i); whole == Pass(handed + rest.handed, rest.left, rest.finished)
        decreases |queue| - i
      {
        if i >= |table| {
          assert handed + [] == handed;
          return handed, false;
        }
        if table[i].time.sec > 0
           && (queue[i].key.time.sec < e.sec || (queue[i].key.time.sec == e.sec && queue[i].key.time.usec <= e.usec))
        {
          ghost var before, first, rest := handed, queue[i], Drain(queue[..i] + queue[i + 1..], table, e, i);
          assert before + ([first] + rest.handed) == (before + [first]) + rest.handed;
          handed := handed + [queue[i]];
          queue := queue[..i] + queue[i + 1..];
        } else {
          i := i + 1;
        }
      }
      assert handed + [] == handed;
      return handed, true;
    }
  }

  // ---- what a pass does ----

  predicate Sorted(q: seq<Message>) {
    forall i, j :: 0 <= i < j < |q| ==> NotAfter(q[i].key.time, q[j].key.time)
  }

  lemma {:induction false} InsertedSorted(queue: Queue, m: Message)
    requires Sorted(queue)
    ensures Sorted(Inserted(queue, m)) && Inserted(queue, m)[Position(queue, m.key.time)] == m
    ensures forall x :: x in Inserted(queue, m) ==> x in queue || x == m
  {
    var i := Position(queue, m.key.time);
    SortedJoin(queue[..i], [m]);
    SortedJoin(queue[..i] + [m], queue[i..]);
  }

  lemma SortedJoin(a: seq<Message>, b: seq<Message>)
    requires Sorted(a) && Sorted(b)
    requires forall i, j :: 0 <= i < |a| && 0 <= j < |b| ==> NotAfter(a[i].key.time, b[j].key.time)
    ensures Sorted(a + b)
  {
  }

  /** How many messages at the front of a queue are not after `e`. */
  function Ready(queue: Queue, e: Time): (n: nat)
    ensures n <= |queue|
    ensures forall k :: 0 <= k < n ==> NotAfter(queue[k].key.time, e)
    ensures n < |queue| ==> Before(e, queue[n].key.time)
  {
    if queue == [] || Before(e, queue[0].key.time) then 0 else 1 + Ready(queue[1..], e)
  }

  lemma {:induction false} NoneHandedFrom(queue: Queue, table: Table, e: Time, i: nat)
    requires i <= |queue| && forall k :: i <= k < |queue| ==> Before(e, queue[k].key.time)
    ensures Drain(queue, table, e, i) == Pass([], queue, i == |queue| || |queue| <= |table|)
    decreases |queue| - i
  {
    if i < |queue| && i < |table| {
      NoneHandedFrom(queue, table, e, i + 1);
    }
  }

  lemma {:induction false} FirstHanded(queue: Queue, table: Table, e: Time)
    requires queue != [] && Heard(table[0]) && NotAfter(queue[0].key.time, e)
    ensures var rest := Drain(queue[1..], table, e);
            Drain(queue, table, e) == Pass([queue[0]] + rest.handed, rest.left, rest.finished)
  {
    assert queue[..0] + queue[1..] == queue[1..];
  }

  /** Once the first member is heard from, a pass over a sorted queue hands on exactly the messages not after the
      earliest timestamp, in order, and leaves the others; it finishes exactly when it leaves no more than the
      table has rows. */
  lemma {:induction false} PassHandsOnReady(queue: Queue, table: Table, e: Time)
    requires Sorted(queue) && Heard(table[0])
    ensures var n := Ready(queue, e);
            Drain(queue, table, e) == Pass(queue[..n], queue[n..], |queue| - n <= |table|)
    decreases |queue|
  {
    if Ready(queue, e) == 0 {
      NoneHandedFrom(queue, table, e, 0);
    } else {
      FirstHanded(queue, table, e);
      PassHandsOnReady(queue[1..], table, e);
      OneMoreReady(queue, e);
    }
  }

  lemma {:induction false} OneMoreReady(queue: Queue, e: Time)
    requires queue != [] && !Before(e, queue[0].key.time)
    ensures var n, m := Ready(queue, e), Ready(queue[1..], e);
            n == m + 1 && queue[..n] == [queue[0]] + queue[1..][..m] && queue[n..] == queue[1..][m..]
  {
  }

  /** Until the first member is heard from, no message with a positive timestamp is handed on; the pass finishes
      exactly when the queue is no longer than the table. */
  lemma {:induction false} FirstRowHoldsAll(queue: Queue, table: Table)
    requires !Heard(table[0]) && Positive(queue)
    ensures Drain(queue, table, Earliest(table, |table|)) == Pass([], queue, |queue| <= |table|)
  {
    EarliestNotAfterRow(table, |table|, 0);
    NoneHandedFrom(queue, table, Earliest(table, |table|), 0);
  }

  predicate Positive(queue: seq<Message>) { forall k :: 0 <= k < |queue| ==> queue[k].key.time.sec > 0 }

  /** The earliest timestamp is not after the first row's, nor any row's that was heard from. */
  lemma {:induction false} EarliestNotAfterRow(table: Table, n: nat, i: nat)
    requires i < n <= |table| && (i == 0 || Heard(table[i]))
    ensures NotAfter(Earliest(table, n), table[i].time)
    decreases n
  {
    if n > 1 && i < n - 1 {
      EarliestNotAfterRow(table, n - 1, i);
    }
  }

  /** And it is the timestamp of the first row, or of one that was heard from. */
  lemma {:induction false} EarliestIsAmong(table: Table, n: nat) returns (i: nat)
    requires 1 <= n <= |table|
    ensures i < n && (i == 0 || Heard(table[i])) && Earliest(table, n) == table[i].time
    decreases n
  {
    i := 0;
    if n > 1 {
      i := EarliestIsAmong(table, n - 1);
      if Heard(table[n - 1]) && Before(table[n - 1].time, table[i].time) {
        i := n - 1;
      }
    }
  }

  /** Whatever rows are silent, a pass over a sorted queue moves a front part of it, and finishes exactly when the
      rest is no longer than the table. */
  lemma {:induction false} PassMovesFront(queue: Queue, table: Table)
    requires Sorted(queue) && Positive(queue)
    ensures var e := Earliest(table, |table|);
            var n, r := if Heard(table[0]) then Ready(queue, e) else 0, Drain(queue, table, e);
            |r.handed| == n && r.handed + r.left == queue && (r.finished <==> |r.left| <= |table|)
  {
    var e := Earliest(table, |table|);
    if Heard(table[0]) {
      PassHandsOnReady(queue, table, e);
      FrontAndBack(queue, Ready(queue, e));
    } else {
      FirstRowHoldsAll(queue, table);
      FrontAndBack(queue, 0);
    }
  }

  lemma FrontAndBack(queue: Queue, n: nat)
    requires n <= |queue|
    ensures queue[..n] + queue[n..] == queue && |queue[..n]| == n && |queue[n..]| == |queue| - n
    ensures queue[..0] == [] && queue[0..] == queue
  {
  }

  /** With every member heard from, the earliest timestamp is a lower bound of the table, and is in it. */
  lemma {:induction false} EarliestIsLeast(table: Table, n: nat)
    requires 1 <= n <= |table| && AllHeard(table)
    ensures forall i :: 0 <= i < n ==> NotAfter(Earliest(table, n), table[i].time)
    ensures exists i :: 0 <= i < n && table[i].time == Earliest(table, n)
  {
    if n == 1 {
      assert table[0].time == Earliest(table, n);
    } else {
      EarliestIsLeast(table, n - 1);
      assert Heard(table[n - 1]);
      var i :| 0 <= i < n - 1 && table[i].time == Earliest(table, n - 1);
      assert table[if Before(table[n - 1].time, table[i].time) then n - 1 else i].time == Earliest(table, n);
    }
  }

  // ---- runs ----

  /** A thread's ordering state, with the history of what it handed on. */
  datatype Ordering = Ordering(table: Table, queue: Queue, handed: seq<Message>)

  function Least(o: Ordering): Time { Earliest(o.table, |o.table|) }

  /** Everything handed on is in order and not after the earliest timestamp; everything queued is after it. */
  ghost predicate InOrder(o: Ordering) {
    && AllHeard(o.table) && Sorted(o.queue) && Sorted(o.handed)
    && (forall m :: m in o.queue ==> Before(Least(o), m.key.time))
    && (forall m :: m in o.handed ==> NotAfter(m.key.time, Least(o)))
  }

  /** The sender is a member, and was last heard from no later than this message. */
  predicate InTurn(table: Table, m: Message) {
    var i := RowOf(table, m.key.src);
    i != -1 && NotAfter(table[i].time, m.key.time)
  }

  function Arrive(o: Ordering, m: Message, isTimestamp: bool): (o': Ordering) {
    var r := Arrival(o.table, o.queue, m, isTimestamp);
    Ordering(Updated(o.table, m.key.src, m.key.time), r.left, o.handed + r.handed)
  }

  lemma {:induction false} EarliestGrows(table: Table, m: Message)
    requires AllHeard(table) && InTurn(table, m)
    ensures var table' := Updated(table, m.key.src, m.key.time);
            && AllHeard(table')
            && NotAfter(Earliest(table, |table|), Earliest(table', |table'|))
            && NotAfter(Earliest(table, |table|), m.key.time)
  {
    var table' := Updated(table, m.key.src, m.key.time);
    EarliestIsLeast(table, |table|);
    assert Heard(table[RowOf(table, m.key.src)]);
    assert AllHeard(table');
    EarliestIsLeast(table', |table'|);
  }

  /** What a pass over the queue does to the history: `n` messages move from the queue to it. */
  lemma {:induction false} MovedInOrder(handed: seq<Message>, queue: Queue, e: Time, bound: Time)
    requires Sorted(handed) && Sorted(queue) && NotAfter(bound, e)
    requires forall m :: m in handed ==> NotAfter(m.key.time, bound)
    requires forall m :: m in queue ==> NotAfter(bound, m.key.time)
    ensures var n := Ready(queue, e);
            && Sorted(handed + queue[..n]) && Sorted(queue[n..])
            && (forall m :: m in handed + queue[..n] ==> NotAfter(m.key.time, e))
            && (forall m :: m in queue[n..] ==> Before(e, m.key.time))
  {
    var n := Ready(queue, e);
    forall i, j | 0 <= i < |handed| && 0 <= j < n ensures NotAfter(handed[i].key.time, queue[..n][j].key.time) {
      assert handed[i] in handed && queue[j] in queue;
    }
    SortedJoin(handed, queue[..n]);
    forall m | m in queue[n..] ensures Before(e, m.key.time) {
      var k :| n <= k < |queue| && queue[k] == m;
      assert k > n ==> NotAfter(queue[n].key.time, queue[k].key.time);
    }
  }

  lemma QueuedNotBefore(o: Ordering, m: Message, isTimestamp: bool)
    requires InOrder(o) && NotAfter(Least(o), m.key.time)
    ensures var queue := if isTimestamp then o.queue else Inserted(o.queue, m);
            Sorted(queue) && forall x :: x in queue ==> NotAfter(Least(o), x.key.time)
  {
    InsertedSorted(o.queue, m);
  }

  lemma {:induction false} PassKeepsOrder(o: Ordering, queue: Queue, table: Table)
    requires InOrder(o) && AllHeard(table) && Sorted(queue) && NotAfter(Least(o), Earliest(table, |table|))
    requires forall x :: x in queue ==> NotAfter(Least(o), x.key.time)
    ensures var r := Drain(queue, table, Earliest(table, |table|));
            InOrder(Ordering(table, r.left, o.handed + r.handed)) && (r.finished <==> |r.left| <= |table|)
  {
    var e := Earliest(table, |table|);
    assert Heard(table[0]);
    PassHandsOnReady(queue, table, e);
    MovedInOrder(o.handed, queue, e, Least(o));
  }

  /** A message in turn keeps the order, and afterwards nothing at or before the earliest timestamp is queued.
      The pass finishes exactly when what it leaves is no longer than the table. */
  lemma ArrivalKeepsOrder(o: Ordering, m: Message, isTimestamp: bool)
    requires InOrder(o) && InTurn(o.table, m)
    ensures InOrder(Arrive(o, m, isTimestamp))
    ensures Arrival(o.table, o.queue, m, isTimestamp).finished <==> |Arrive(o, m, isTimestamp).queue| <= |o.table|
  {
    EarliestGrows(o.table, m);
    QueuedNotBefore(o, m, isTimestamp);
    PassKeepsOrder(o, if isTimestamp then o.queue else Inserted(o.queue, m), Updated(o.table, m.key.src, m.key.time));
  }

  datatype Event = Event(m: Message, isTimestamp: bool)

  /** Every message comes in turn, and no pass runs off the table. */
  ghost predicate OrderedRun(o: Ordering, events: seq<Event>)
    decreases |events|
  {
    events == [] ||
    (&& InTurn(o.table, events[0].m)
     && Arrival(o.table, o.queue, events[0].m, events[0].isTimestamp).finished
     && OrderedRun(Arrive(o, events[0].m, events[0].isTimestamp), events[1..]))
  }

  function AfterEvents(o: Ordering, events: seq<Event>): (o': Ordering)
    decreases |events|
  {
    if events == [] then o else AfterEvents(Arrive(o, events[0].m, events[0].isTimestamp), events[1..])
  }

  /** Over every run what is handed on has non-decreasing timestamps, and nothing that could be handed on waits. */
  lemma {:induction false} HandedInOrder(o: Ordering, events: seq<Event>)
    requires InOrder(o) && OrderedRun(o, events)
    ensures var o' := AfterEvents(o, events);
            Sorted(o'.handed) && forall m :: m in o'.queue ==> Before(Least(o'), m.key.time)
    decreases |events|
  {
    if events != [] {
      ArrivalKeepsOrder(o, events[0].m, events[0].isTimestamp);
      HandedInOrder(Arrive(o, events[0].m, events[0].isTimestamp), events[1..]);
    }
  }

  // ---- exactly when the order is kept ----

  predicate AfterLast(handed: seq<Message>, m: Message) {
    handed == [] || NotAfter(handed[|handed| - 1].key.time, m.key.time)
  }

  /** The message is in time: it only updates the table, or nothing with a later timestamp was handed on last. */
  predicate InTime(o: Ordering, m: Message, isTimestamp: bool) {
    isTimestamp || AfterLast(o.handed, m)
  }

  lemma {:induction false} SortedWithout(a: seq<Message>, x: Message, b: seq<Message>)
    requires Sorted(a + [x] + b)
    ensures Sorted(a + b)
  {
    var with, all := a + [x] + b, a + b;
    forall i, j | 0 <= i < j < |all| ensures NotAfter(all[i].key.time, all[j].key.time) {
      assert all[i] == with[if i < |a| then i else i + 1] && all[j] == with[if j < |a| then j else j + 1];
    }
  }

  lemma SortedParts(a: seq<Message>, b: seq<Message>)
    requires Sorted(a + b)
    ensures Sorted(a) && Sorted(b)
    ensures forall i, j :: 0 <= i < |a| && 0 <= j < |b| ==> NotAfter(a[i].key.time, b[j].key.time)
  {
    var all := a + b;
    assert forall i :: 0 <= i < |a| ==> a[i] == all[i];
    assert forall j :: 0 <= j < |b| ==> b[j] == all[|a| + j];
  }

  lemma LateBehind(handed: seq<Message>, moved: seq<Message>, at: nat)
    requires handed != [] && at < |moved| && Before(moved[at].key.time, handed[|handed| - 1].key.time)
    ensures !Sorted(handed + moved)
  {
    var all := handed + moved;
    assert all[|handed| - 1] == handed[|handed| - 1] && all[|handed| + at] == moved[at];
  }

  /** A history and the queue behind it stay in order under an insertion exactly when the message is not before the
      last one handed on. */
  lemma InsertedBehindIff(handed: seq<Message>, queue: Queue, m: Message)
    requires Sorted(handed + queue)
    ensures Sorted(handed + Inserted(queue, m)) <==> AfterLast(handed, m)
  {
    SortedParts(handed, queue);
    InsertedSorted(queue, m);
    var queue', at := Inserted(queue, m), Position(queue, m.key.time);
    if AfterLast(handed, m) {
      forall i, j | 0 <= i < |handed| && 0 <= j < |queue'| ensures NotAfter(handed[i].key.time, queue'[j].key.time) {
        assert queue'[j] == if j < at then queue[j] else if j == at then m else queue[j - 1];
        assert i < |handed| - 1 ==> NotAfter(handed[i].key.time, handed[|handed| - 1].key.time);
      }
      SortedJoin(handed, queue');
    } else {
      LateBehind(handed, queue', at);
    }
  }

  lemma InsertedPositive(queue: Queue, m: Message)
    requires Positive(queue) && m.key.time.sec > 0
    ensures Positive(Inserted(queue, m))
  {
  }

  lemma TailOf(front: seq<Message>, back: seq<Message>)
    requires Sorted(front + back) && Positive(front + back)
    ensures Sorted(back) && Positive(back)
  {
    SortedParts(front, back);
    assert forall k :: 0 <= k < |back| ==> back[k] == (front + back)[|front| + k];
  }

  lemma Appended(a: seq<Message>, b: seq<Message>, c: seq<Message>)
    ensures (a + b) + c == a + (b + c)
  {
  }

  function QueueWith(queue: Queue, m: Message, isTimestamp: bool): Queue { if isTimestamp then queue else Inserted(queue, m) }

  lemma QueueWithSorted(queue: Queue, m: Message, isTimestamp: bool)
    requires Sorted(queue) && Positive(queue) && m.key.time.sec > 0
    ensures Sorted(QueueWith(queue, m, isTimestamp)) && Positive(QueueWith(queue, m, isTimestamp))
  {
    InsertedSorted(queue, m);
    InsertedPositive(queue, m);
  }

  /** An arrival moves the boundary between history and queue, and changes nothing else but the insertion. */
  lemma ArrivalMoves(o: Ordering, m: Message, isTimestamp: bool)
    requires Sorted(o.queue) && Positive(o.queue) && m.key.time.sec > 0
    ensures var o', queue := Arrive(o, m, isTimestamp), QueueWith(o.queue, m, isTimestamp);
            && o'.handed + o'.queue == o.handed + queue && Sorted(o'.queue) && Positive(o'.queue)
            && |o'.handed| == |o.handed| + (if Heard(o'.table[0]) then Ready(queue, Least(o')) else 0)
            && (Arrival(o.table, o.queue, m, isTimestamp).finished <==> |o'.queue| <= |o'.table|)
  {
    var queue, table' := QueueWith(o.queue, m, isTimestamp), Updated(o.table, m.key.src, m.key.time);
    QueueWithSorted(o.queue, m, isTimestamp);
    PassMovesFront(queue, table');
    var r := Drain(queue, table', Earliest(table', |table'|));
    Appended(o.handed, r.handed, r.left);
    TailOf(r.handed, r.left);
  }

  /** Whatever the table: history and queue stay in order exactly when the message is in time. */
  lemma OrderKeptIff(o: Ordering, m: Message, isTimestamp: bool)
    requires Sorted(o.handed + o.queue) && Positive(o.queue) && m.key.time.sec > 0
    ensures var o' := Arrive(o, m, isTimestamp); Sorted(o'.handed + o'.queue) <==> InTime(o, m, isTimestamp)
  {
    SortedParts(o.handed, o.queue);
    ArrivalMoves(o, m, isTimestamp);
    InsertedBehindIff(o.handed, o.queue, m);
  }

  lemma {:induction false} ReadyCounts(queue: Queue, e: Time, at: nat)
    requires Sorted(queue) && at < |queue|
    ensures at < Ready(queue, e) <==> NotAfter(queue[at].key.time, e)
  {
    var n := Ready(queue, e);
    assert n < at ==> NotAfter(queue[n].key.time, queue[at].key.time);
  }

  lemma FrontSorted(a: seq<Message>, b: seq<Message>, n: nat)
    requires Sorted(a + b) && n <= |b|
    ensures Sorted(a + b[..n])
  {
    assert a + b == (a + b[..n]) + b[n..];
    SortedParts(a + b[..n], b[n..]);
  }

  lemma {:induction false} FrontOfInserted(queue: Queue, m: Message, n: nat)
    requires n <= |queue| + 1
    ensures |Inserted(queue, m)| == |queue| + 1
    ensures var at, front := Position(queue, m.key.time), Inserted(queue, m)[..n];
            if n <= at then front == queue[..n] else front[at] == m
  {
  }

  lemma {:induction false} MovedInTime(handed: seq<Message>, queue: Queue, m: Message, n: nat)
    requires Sorted(handed + queue) && n <= |queue| + 1
    requires AfterLast(handed, m) || n <= Position(queue, m.key.time)
    ensures Sorted(handed + Inserted(queue, m)[..n])
  {
    FrontOfInserted(queue, m, n);
    if AfterLast(handed, m) {
      InsertedBehindIff(handed, queue, m);
      FrontSorted(handed, Inserted(queue, m), n);
    } else {
      FrontSorted(handed, queue, n);
    }
  }

  /** Moving n messages to the history keeps it in order exactly when the new one is in time or is not among them. */
  lemma {:induction false} MovedInOrderIff(handed: seq<Message>, queue: Queue, m: Message, n: nat)
    requires Sorted(handed + queue) && n <= |queue| + 1
    ensures Sorted(handed + Inserted(queue, m)[..n]) <==> AfterLast(handed, m) || n <= Position(queue, m.key.time)
  {
    if AfterLast(handed, m) || n <= Position(queue, m.key.time) {
      MovedInTime(handed, queue, m, n);
    } else {
      FrontOfInserted(queue, m, n);
      LateBehind(handed, Inserted(queue, m)[..n], Position(queue, m.key.time));
    }
  }

  /** What is handed on stays in order exactly when the message is in time or waits: because the first row is
      silent, or because it is after the earliest timestamp. */
  lemma HandedInOrderIff(o: Ordering, m: Message)
    requires Sorted(o.handed + o.queue) && Positive(o.queue) && m.key.time.sec > 0
    ensures var o' := Arrive(o, m, false);
            Sorted(o'.handed) <==>
              InTime(o, m, false) || !Heard(o'.table[0]) || Before(Least(o'), m.key.time)
  {
    var o', at := Arrive(o, m, false), Position(o.queue, m.key.time);
    SortedParts(o.handed, o.queue);
    ArrivalMoves(o, m, false);
    InsertedSorted(o.queue, m);
    ReadyCounts(Inserted(o.queue, m), Least(o'), at);
    MovedInOrderIff(o.handed, o.queue, m, |o'.handed| - |o.handed|);
    FrontOfBoth(o'.handed, o'.queue, o.handed, Inserted(o.queue, m));
  }

  lemma FrontOfBoth(a': seq<Message>, b': seq<Message>, a: seq<Message>, b: seq<Message>)
    requires a' + b' == a + b && |a'| >= |a|
    ensures a' == a + b[..|a'| - |a|]
  {
    assert a' == (a' + b')[..|a'|];
  }

  // ---- over whole runs ----

  predicate PositiveEvents(events: seq<Event>) { forall i :: 0 <= i < |events| ==> events[i].m.key.time.sec > 0 }

  /** Every message of the run is in time when it arrives. */
  predicate AllInTime(o: Ordering, events: seq<Event>)
    decreases |events|
  {
    events == [] ||
    (InTime(o, events[0].m, events[0].isTimestamp) && AllInTime(Arrive(o, events[0].m, events[0].isTimestamp), events[1..]))
  }

  lemma SortedBefore(handed: seq<Message>, queue: Queue, m: Message)
    requires Sorted(handed + Inserted(queue, m))
    ensures Sorted(handed + queue)
  {
    var at := Position(queue, m.key.time);
    var front, back := handed + queue[..at], queue[at..];
    assert handed + Inserted(queue, m) == front + [m] + back && handed + queue == front + back;
    SortedWithout(front, m, back);
  }

  /** Once history and queue are out of order, they stay so. */
  lemma DisorderStays(o: Ordering, m: Message, isTimestamp: bool)
    requires Sorted(o.queue) && Positive(o.queue) && m.key.time.sec > 0
    ensures var o' := Arrive(o, m, isTimestamp); Sorted(o'.handed + o'.queue) ==> Sorted(o.handed + o.queue)
  {
    ArrivalMoves(o, m, isTimestamp);
    if !isTimestamp && Sorted(o.handed + Inserted(o.queue, m)) {
      SortedBefore(o.handed, o.queue, m);
    }
  }

  /** Over every run and with any table, history and queue end in order exactly when they began in order and every
      message came in time; then what was handed on is in order. */
  lemma {:induction false} RunInOrderIff(o: Ordering, events: seq<Event>)
    requires Sorted(o.queue) && Positive(o.queue) && PositiveEvents(events)
    ensures var o' := AfterEvents(o, events);
            && (Sorted(o'.handed + o'.queue) <==> Sorted(o.handed + o.queue) && AllInTime(o, events))
            && (Sorted(o'.handed + o'.queue) ==> Sorted(o'.handed))
    decreases |events|
  {
    var o' := AfterEvents(o, events);
    if Sorted(o'.handed + o'.queue) {
      SortedParts(o'.handed, o'.queue);
    }
    if events != [] {
      var m, isTimestamp := events[0].m, events[0].isTimestamp;
      assert m.key.time.sec > 0;
      ArrivalMoves(o, m, isTimestamp);
      RunInOrderIff(Arrive(o, m, isTimestamp), events[1..]);
      DisorderStays(o, m, isTimestamp);
      if Sorted(o.handed + o.queue) {
        OrderKeptIff(o, m, isTimestamp);
      }
    }
  }

  // ---- what comes in ----

  lemma DropAt(queue: Queue, i: nat)
    requires i < |queue|
    ensures multiset(queue[..i] + queue[i + 1..]) + multiset{queue[i]} == multiset(queue)
  {
    assert queue == queue[..i] + [queue[i]] + queue[i + 1..];
  }

  lemma HandedAt(queue: Queue, i: nat, rest: Pass)
    requires i < |queue| && multiset(rest.handed) + multiset(rest.left) == multiset(queue[..i] + queue[i + 1..])
    ensures multiset([queue[i]] + rest.handed) + multiset(rest.left) == multiset(queue)
  {
    DropAt(queue, i);
    assert multiset([queue[i]] + rest.handed) == multiset{queue[i]} + multiset(rest.handed);
  }

  lemma {:induction false} PassKeepsAll(queue: Queue, table: Table, e: Time, i: nat)
    requires i <= |queue|
    ensures var r := Drain(queue, table, e, i); multiset(r.handed) + multiset(r.left) == multiset(queue)
    decreases |queue| - i
  {
    if i < |queue| && i < |table| {
      if Heard(table[i]) && NotAfter(queue[i].key.time, e) {
        PassKeepsAll(queue[..i] + queue[i + 1..], table, e, i);
        HandedAt(queue, i, Drain(queue[..i] + queue[i + 1..], table, e, i));
      } else {
        PassKeepsAll(queue, table, e, i + 1);
      }
    }
  }

  function Came(m: Message, isTimestamp: bool): multiset<Message> { if isTimestamp then multiset{} else multiset{m} }

  /** The messages of a run that are not mere timestamps. */
  function DataOfRun(events: seq<Event>): (r: multiset<Message>) {
    if events == [] then multiset{} else Came(events[0].m, events[0].isTimestamp) + DataOfRun(events[1..])
  }

  lemma ArrivalKeepsAll(o: Ordering, m: Message, isTimestamp: bool)
    ensures var o' := Arrive(o, m, isTimestamp);
            multiset(o'.handed) + multiset(o'.queue) == multiset(o.handed) + multiset(o.queue) + Came(m, isTimestamp)
  {
    var table', queue := Updated(o.table, m.key.src, m.key.time), QueueWith(o.queue, m, isTimestamp);
    var r := Drain(queue, table', Earliest(table', |table'|));
    PassKeepsAll(queue, table', Earliest(table', |table'|), 0);
    InsertedAdds(o.queue, m);
    assert multiset(queue) == multiset(o.queue) + Came(m, isTimestamp);
    Regrouped(o.handed, r.handed, multiset(r.left), multiset(o.queue), Came(m, isTimestamp));
  }

  lemma Regrouped(a: seq<Message>, b: seq<Message>, left: multiset<Message>, q: multiset<Message>, come: multiset<Message>)
    requires multiset(b) + left == q + come
    ensures multiset(a + b) + left == multiset(a) + q + come
  {
    forall x ensures (multiset(a + b) + left)[x] == (multiset(a) + q + come)[x] {
      assert (multiset(b) + left)[x] == (q + come)[x];
    }
  }

  lemma InsertedAdds(queue: Queue, m: Message)
    ensures multiset(Inserted(queue, m)) == multiset(queue) + multiset{m}
  {
    var i := Position(queue, m.key.time);
    assert queue == queue[..i] + queue[i..];
  }

  /** Over every run, in turn or not, each message is handed on once or still queued: none is lost or doubled. */
  lemma {:induction false} NoneLostOrDoubled(o: Ordering, events: seq<Event>)
    ensures var o' := AfterEvents(o, events);
            multiset(o'.handed) + multiset(o'.queue) == multiset(o.handed) + multiset(o.queue) + DataOfRun(events)
    decreases |events|
  {
    if events != [] {
      ArrivalKeepsAll(o, events[0].m, events[0].isTimestamp);
      NoneLostOrDoubled(Arrive(o, events[0].m, events[0].isTimestamp), events[1..]);
    }
  }

  /** The timestamp of the last message of a thread, if one came. */
  function LastHeard(events: seq<Event>, a: Address, time: Time): (t: Time)
    decreases |events|
  {
    if events == [] then time
    else LastHeard(events[1..], a, if events[0].m.key.src == a then events[0].m.key.time else time)
  }

  /** Over every run the member table names its members as before, each with the timestamp it was last heard with. */
  lemma {:induction false} TableIsLastHeard(o: Ordering, events: seq<Event>, i: nat)
    requires i < |o.table| && RowOf(o.table, o.table[i].member) == i
    ensures var table', row := AfterEvents(o, events).table, o.table[i];
            && |table'| == |o.table| && table'[i] == Row(row.member, LastHeard(events, row.member, row.time))
    decreases |events|
  {
    if events != [] {
      var o1 := Arrive(o, events[0].m, events[0].isTimestamp);
      assert forall j :: 0 <= j < |o.table| ==> o1.table[j].member == o.table[j].member;
      assert RowOf(o1.table, o.table[i].member) == i;
      TableIsLastHeard(o1, events[1..], i);
    }
  }

  // ---- running off the table ----

  predicate AllFinish(o: Ordering, events: seq<Event>)
    decreases |events|
  {
    events == [] ||
    (&& Arrival(o.table, o.queue, events[0].m, events[0].isTimestamp).finished
     && AllFinish(Arrive(o, events[0].m, events[0].isTimestamp), events[1..]))
  }

  /** One row counts for the earliest timestamp, and everything queued is after it. */
  predicate HeldBy(o: Ordering, slow: nat) {
    && slow < |o.table| && (slow == 0 || Heard(o.table[slow])) && Positive(o.queue) && Sorted(o.queue)
    && forall k :: 0 <= k < |o.queue| ==> Before(o.table[slow].time, o.queue[k].key.time)
  }

  /** A message of another member, after the row's timestamp. */
  predicate Overtakes(r: Row, event: Event) {
    !event.isTimestamp && event.m.key.src != r.member && Before(r.time, event.m.key.time) && event.m.key.time.sec > 0
  }

  predicate AllOvertake(r: Row, events: seq<Event>) { forall i :: 0 <= i < |events| ==> Overtakes(r, events[i]) }

  /** While a member stays silent, the messages of the others queue up. */
  lemma OneMoreQueued(o: Ordering, slow: nat, event: Event)
    requires HeldBy(o, slow) && Overtakes(o.table[slow], event)
    ensures var o' := Arrive(o, event.m, false);
            && HeldBy(o', slow) && o'.table[slow] == o.table[slow] && |o'.table| == |o.table|
            && |o'.queue| == |o.queue| + 1 && o'.handed == o.handed
            && (Arrival(o.table, o.queue, event.m, false).finished <==> |o'.queue| <= |o'.table|)
  {
    var m := event.m;
    var table', queue := Updated(o.table, m.key.src, m.key.time), Inserted(o.queue, m);
    assert RowOf(o.table, m.key.src) != slow;
    EarliestNotAfterRow(table', |table'|, slow);
    InsertedSorted(o.queue, m);
    InsertedPositive(o.queue, m);
    forall k | 0 <= k < |queue| ensures Before(o.table[slow].time, queue[k].key.time) {
      assert queue[k] in queue;
    }
    NoneHandedFrom(queue, table', Earliest(table', |table'|), 0);
    assert o.handed + [] == o.handed;
  }

  /** With one member silent, the others' messages are all handled exactly as long as no more of them are queued
      than the table has rows: the next one indexes the table past its end. */
  lemma {:induction false} SilentMemberOverrunsIff(o: Ordering, slow: nat, events: seq<Event>)
    requires HeldBy(o, slow) && AllOvertake(o.table[slow], events) && events != []
    ensures AllFinish(o, events) <==> |o.queue| + |events| <= |o.table|
    decreases |events|
  {
    OneMoreQueued(o, slow, events[0]);
    var o' := Arrive(o, events[0].m, false);
    if |events| > 1 {
      assert forall i :: 0 <= i < |events[1..]| ==> events[1..][i] == events[i + 1];
      SilentMemberOverrunsIff(o', slow, events[1..]);
    } else {
      assert AllFinish(o', events[1..]);
    }
  }

  function FromAt(src: Address, dst: Address, sec: int): (event: Event) { Event(Message(Key(src, dst, Time(sec, 0)), ""), false) }

  /** Members a and b are heard from and c is silent. b sends four messages, each later than the one before, and the
      pass after the fourth runs off the table of three rows. */
  lemma DrainThrows(a: Address, b: Address, c: Address)
    requires a != b
    ensures var o := Ordering([Row(a, Time(5, 0)), Row(b, Time(5, 0)), Row(c, Time(0, 0))], [], []);
            var three := [FromAt(b, a, 6), FromAt(b, a, 7), FromAt(b, a, 8)];
            AllFinish(o, three) && !AllFinish(o, three + [FromAt(b, a, 9)])
  {
    var o := Ordering([Row(a, Time(5, 0)), Row(b, Time(5, 0)), Row(c, Time(0, 0))], [], []);
    var three := [FromAt(b, a, 6), FromAt(b, a, 7), FromAt(b, a, 8)];
    SilentMemberOverrunsIff(o, 0, three);
    SilentMemberOverrunsIff(o, 0, three + [FromAt(b, a, 9)]);
  }

  // ---- a silent row ----

  /** A member not heard from yet is left out of the earliest timestamp, so its first message can come too late:
      `a` is handed on at 10 while `b` is silent, then `b`'s message of time 3 is handed on. */
  lemma UnheardRowBreaksOrder(a: Address, b: Address)
    requires a != b
    ensures var o := Ordering([Row(a, Time(5, 0)), Row(b, Time(0, 0))], [], []);
            var first, second := Message(Key(a, b, Time(10, 0)), ""), Message(Key(b, b, Time(3, 0)), "");
            && InTurn(o.table, first) && InTurn(Arrive(o, first, false).table, second)
            && !InTime(Arrive(o, first, false), second, false)
            && Arrive(Arrive(o, first, false), second, false).handed == [first, second] && !Sorted([first, second])
  {
    var o := Ordering([Row(a, Time(5, 0)), Row(b, Time(0, 0))], [], []);
    var first, second := Message(Key(a, b, Time(10, 0)), ""), Message(Key(b, b, Time(3, 0)), "");
    HandsOnAtOnce(o, first, Time(10, 0));
    var o1 := Arrive(o, first, false);
    assert RowOf(o.table, a) == 0 && o1.table == [Row(a, Time(10, 0)), Row(b, Time(0, 0))];
    assert RowOf(o1.table, b, 1) == 1 && RowOf(o1.table, b) == 1;
    HandsOnAtOnce(o1, second, Time(3, 0));
    assert [first] + [second] == [first, second];
    assert [first, second][0] == first && [first, second][1] == second;
  }

  /** A message no later than the earliest timestamp passes straight through an empty queue. */
  lemma HandsOnAtOnce(o: Ordering, m: Message, e: Time)
    requires o.queue == [] && var table' := Updated(o.table, m.key.src, m.key.time);
             Heard(table'[0]) && Earliest(table', |table'|) == e && NotAfter(m.key.time, e)
    ensures Arrive(o, m, false).queue == [] && Arrive(o, m, false).handed == o.handed + [m]
  {
    assert Inserted([], m) == [m];
    PassHandsOnReady([m], Updated(o.table, m.key.src, m.key.time), e);
    assert Ready([m], e) == 1 by { assert [m][1..] == []; }
  }
}
