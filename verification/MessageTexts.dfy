/** When a message can be recorded with a text that was not sent: a run in which an ack is taken for a message, and
    that no other set of messages allows one. */
module MessageTexts {
  import opened Options
  import opened Texts
  import opened MessageModel
  import opened MessageRuns

  /** Every message sent in the run is one of the plan, with the plan's data. */
  predicate SendsFrom(plan: Sent, steps: seq<Step>) {
    forall i :: 0 <= i < |steps| && steps[i].SendData? ==> steps[i].key in plan && plan[steps[i].key] == steps[i].data
  }

  /** The run ends with message r recorded at its thread under another text than it was sent with. */
  ghost predicate EndsWrong(plan: Sent, steps: seq<Step>, r: Key)
    requires r in plan
  {
    && IsRun(START, steps) && SendsFrom(plan, steps)
    && exists text :: text != plan[r] && Message(r, text) in Thread(After(START, steps), r.dst).received
  }

  // ---- only an ambiguous key ----

  lemma {:induction false} SentIsPlanned(plan: Sent, s: System, steps: seq<Step>)
    requires IsRun(s, steps) && SendsFrom(plan, steps) && Extends(s.sent, plan)
    ensures Extends(After(s, steps).sent, plan)
    decreases |steps|
  {
    if steps != [] {
      var rest := steps[1..];
      forall i | 0 <= i < |rest| && rest[i].SendData? ensures rest[i].key in plan && plan[rest[i].key] == rest[i].data {
        assert rest[i] == steps[i + 1];
      }
      SentIsPlanned(plan, Next(s, steps[0]), rest);
    }
  }

  lemma WrongTextIsAmbiguous(plan: Sent, steps: seq<Step>, r: Key)
    requires r in plan && EndsWrong(plan, steps, r)
    ensures Ambiguous(plan.Keys, r)
  {
    var s := After(START, steps);
    var text :| text != plan[r] && Message(r, text) in Thread(s, r.dst).received;
    var i :| 0 <= i < |Thread(s, r.dst).received| && Thread(s, r.dst).received[i] == Message(r, text);
    RecordedTextIsSent(steps, r.dst, i);
    SentIsPlanned(plan, START, steps);
    var j :| j in s.sent.Keys && j != r && j.src == r.src && j.dst == r.dst;
    assert j in plan.Keys;
  }

  // ---- every ambiguous key ----

  predicate Planned(plan: Sent, step: Step) {
    step.SendData? ==> step.key in plan && plan[step.key] == step.data
  }

  /** A run of planned sends that ends in the state. */
  predicate Reaches(plan: Sent, steps: seq<Step>, s: System) {
    IsRun(START, steps) && After(START, steps) == s && SendsFrom(plan, steps)
  }

  lemma PlanGrows(plan: Sent, steps: seq<Step>, step: Step)
    requires SendsFrom(plan, steps) && Planned(plan, step)
    ensures SendsFrom(plan, steps + [step])
  {
  }

  lemma Longer(plan: Sent, steps: seq<Step>, s: System, step: Step)
    requires Reaches(plan, steps, s) && Enabled(s, step) && Planned(plan, step)
    ensures Reaches(plan, steps + [step], Next(s, step))
  {
    RunExtends(START, steps, step);
    PlanGrows(plan, steps, step);
  }

  lemma AtStart(plan: Sent)
    ensures Reaches(plan, [], START) && Inv(START)
  {
  }

  /** The receiver of r has heard from its sender, both are ready for mail, and neither r nor its reverse is sent. */
  ghost predicate Opened(s: System, r: Key) {
    && Inv(s) && r !in s.sent && Reverse(r) !in s.sent
    && Thread(s, r.src).inHand.None? && Thread(s, r.dst).inHand.None?
    && Thread(s, r.dst).sendCounters == [] && FindPeer(Thread(s, r.dst).receiveCounters, r.src) != -1
  }

  lemma OpeningDelivered(s: System, j: Key, data: string)
    requires Inv(s) && s == SendStep(START, j, data) && j.src != j.dst
    ensures var p := Message(j, Frame(0, data));
            && Enabled(s, Take(p)) && Enabled(TakeStep(s, p), Handle(j.dst))
            && var s' := Delivered(s, p);
               && Inv(s') && s'.sent == s.sent && Thread(s', j.src).inHand.None? && Thread(s', j.dst).inHand.None?
               && Thread(s', j.dst).sendCounters == [] && FindPeer(Thread(s', j.dst).receiveCounters, j.src) != -1
  {
    var p := Message(j, Frame(0, data));
    FramedText(0, data);
    TakenIsRecorded(s, p);
    DeliveredLeaves(s, p, j.src);
    DeliveredLeaves(s, p, j.dst);
    assert Thread(s, j.dst) == NEW_THREAD;
  }

  lemma OpeningSent(r: Key, j: Key, data: string)
    requires RequestType(data) != ACK && j != r && j.src == r.src && j.dst == r.dst && r.src != r.dst
    ensures Enabled(START, SendData(j, data)) && Inv(SendStep(START, j, data))
    ensures var s, p := SendStep(START, j, data), Message(j, Frame(0, data));
            && Enabled(s, Take(p)) && Enabled(TakeStep(s, p), Handle(j.dst)) && Opened(Delivered(s, p), r)
  {
    AtStart(map[]);
    SendKeepsInv(START, j, data);
    var s, p := SendStep(START, j, data), Message(j, Frame(0, data));
    OpeningDelivered(s, j, data);
  }

  lemma Open(plan: Sent, r: Key, j: Key) returns (steps: seq<Step>, s: System)
    requires NoAckSent(plan) && j in plan && j != r && j.src == r.src && j.dst == r.dst && r.src != r.dst
    ensures Reaches(plan, steps, s) && Opened(s, r)
  {
    AtStart(plan);
    OpeningSent(r, j, plan[j]);
    var p := Message(j, Frame(0, plan[j]));
    Longer(plan, [], START, SendData(j, plan[j]));
    var s1 := SendStep(START, j, plan[j]);
    steps := [] + [SendData(j, plan[j])];
    Longer(plan, steps, s1, Take(p));
    steps := steps + [Take(p)];
    Longer(plan, steps, TakeStep(s1, p), Handle(j.dst));
    steps := steps + [Handle(j.dst)];
    s := Delivered(s1, p);
  }

  /** Both messages are sent, r is unacknowledged and not recorded, and its reverse is on the network. */
  ghost predicate Crossed(s: System, r: Key, data: string) {
    && Inv(s) && r in s.sent && Reverse(r) in s.sent && !Recorded(Thread(s, r.dst), r)
    && Thread(s, r.src).inHand.None? && Thread(s, r.dst).inHand.None?
    && Listed(Unacked(s, r.src.machine), r) && Message(Reverse(r), Frame(0, data)) in s.network
    && FindPeer(Thread(s, r.dst).receiveCounters, r.src) != -1
  }

  lemma NotSentNotRecorded(s: System, r: Key)
    requires Inv(s) && r !in s.sent
    ensures !Recorded(Thread(s, r.dst), r)
  {
    var received := Thread(s, r.dst).received;
    assert ThreadOK(s.sent, r.dst, Thread(s, r.dst));
    forall i | 0 <= i < |received| ensures received[i].key != r {
      assert RightText(s.sent, received[i]);
    }
  }

  /** r is sent and its reverse is not. */
  ghost predicate HalfCrossed(s: System, r: Key) {
    && Inv(s) && r in s.sent && Reverse(r) !in s.sent && !Recorded(Thread(s, r.dst), r)
    && Thread(s, r.src).inHand.None? && Thread(s, r.dst).inHand.None? && Thread(s, r.dst).sendCounters == []
    && Listed(Unacked(s, r.src.machine), r) && FindPeer(Thread(s, r.dst).receiveCounters, r.src) != -1
  }

  lemma {:induction false} FirstSent(s: System, r: Key, data: string)
    requires FindKey(Unacked(s, r.src.machine), r) == -1 && r.src != r.dst
    ensures var s' := SendStep(s, r, data);
            && Listed(Unacked(s', r.src.machine), r) && Thread(s', r.dst) == Thread(s, r.dst)
            && Thread(s', r.src).inHand == Thread(s, r.src).inHand && s'.sent == s.sent[r := data]
  {
    var list := Unacked(SendStep(s, r, data), r.src.machine);
    assert list[|list| - 1].key == r;
  }

  lemma HalfWay(s: System, r: Key, data: string)
    requires Opened(s, r) && r.src != r.dst && RequestType(data) != ACK
    ensures Enabled(s, SendData(r, data)) && HalfCrossed(SendStep(s, r, data), r)
  {
    NotSentNotRecorded(s, r);
    NotListed(s.unacked, s.sent, r.src.machine, r);
    FirstSent(s, r, data);
    SendKeepsInv(s, r, data);
  }

  /** A first message to a peer leaves entries listed and other threads as they are. */
  lemma {:induction false} SecondSent(s: System, k: Key, data: string, r: Key)
    requires FindKey(Unacked(s, k.src.machine), k) == -1 && k.src != k.dst
    requires Thread(s, k.src).sendCounters == [] && Listed(Unacked(s, k.dst.machine), r)
    ensures var s' := SendStep(s, k, data);
            && Listed(Unacked(s', k.dst.machine), r) && Thread(s', k.dst) == Thread(s, k.dst)
            && Thread(s', k.src) == Thread(s, k.src).(sendCounters := Thread(s', k.src).sendCounters)
            && Message(k, Frame(0, data)) in s'.network && s'.sent == s.sent[k := data]
  {
    var i :| 0 <= i < |Unacked(s, k.dst.machine)| && Unacked(s, k.dst.machine)[i].key == r;
    assert Unacked(SendStep(s, k, data), k.dst.machine)[i].key == r;
  }

  lemma OtherHalf(s: System, r: Key, reply: string)
    requires HalfCrossed(s, r) && r.src != r.dst && RequestType(reply) != ACK
    ensures Enabled(s, SendData(Reverse(r), reply)) && Crossed(SendStep(s, Reverse(r), reply), r, reply)
  {
    NotListed(s.unacked, s.sent, r.dst.machine, Reverse(r));
    SecondSent(s, Reverse(r), reply, r);
    SendKeepsInv(s, Reverse(r), reply);
  }

  lemma Cross(plan: Sent, r: Key, before: seq<Step>, s: System) returns (steps: seq<Step>, s': System)
    requires NoAckSent(plan) && r in plan && Reverse(r) in plan && r.src != r.dst
    requires Reaches(plan, before, s) && Opened(s, r)
    ensures Reaches(plan, steps, s') && Crossed(s', r, plan[Reverse(r)])
  {
    var k := Reverse(r);
    HalfWay(s, r, plan[r]);
    OtherHalf(SendStep(s, r, plan[r]), r, plan[k]);
    Longer(plan, before, s, SendData(r, plan[r]));
    steps := before + [SendData(r, plan[r])];
    Longer(plan, steps, SendStep(s, r, plan[r]), SendData(k, plan[k]));
    steps := steps + [SendData(k, plan[k])];
    s' := SendStep(SendStep(s, r, plan[r]), k, plan[k]);
  }

  /** The sender of r takes the reverse message, and its ack goes out bare. */
  lemma BareAckSent(s: System, r: Key, data: string)
    requires Listed(Unacked(s, r.src.machine), r) && Message(Reverse(r), Frame(0, data)) in s.network
    requires Thread(s, r.src).inHand.None? && !IsLocal(r.src, r.dst) && RequestType(data) != ACK
    ensures var p := Message(Reverse(r), Frame(0, data));
            && Enabled(s, Take(p))
            && var s' := TakeStep(s, p);
               && Message(r, ACK_TEXT) in s'.network && Thread(s', r.dst) == Thread(s, r.dst)
  {
    FramedText(0, data);
    var p, counters := Message(Reverse(r), Frame(0, data)), Thread(s, r.src).receiveCounters;
    assert Taking(counters, p) == ToHandle(data);
    BareAckOf(Unacked(s, r.src.machine), counters, r, p);
  }

  lemma BareAckOf(unacked: seq<Message>, counters: seq<CounterEntry>, r: Key, m: Message)
    requires Listed(unacked, r) && m.key == Reverse(r) && !IsLocal(r.src, r.dst) && Taking(counters, m).ToHandle?
    ensures AcksOfTake(unacked, counters, m) == {Message(r, ACK_TEXT)}
  {
    assert AckKey(r.src, m.key) == r;
  }

  /** Its receiver takes the bare ack for message r, and records it without data. */
  lemma BareAckRecorded(s: System, r: Key)
    requires Message(r, ACK_TEXT) in s.network && Thread(s, r.dst).inHand.None?
    requires !Recorded(Thread(s, r.dst), r) && FindPeer(Thread(s, r.dst).receiveCounters, r.src) != -1
    ensures var p := Message(r, ACK_TEXT);
            && Enabled(s, Take(p)) && Enabled(TakeStep(s, p), Handle(r.dst))
            && Message(r, "") in Thread(Delivered(s, p), r.dst).received
  {
    AckText();
    FramedText(29, "");
    var t1 := Thread(TakeStep(s, Message(r, ACK_TEXT)), r.dst);
    assert t1.inHand == Some(Message(r, "")) && t1.received == Thread(s, r.dst).received;
    assert Handled(t1).received[|t1.received|] == Message(r, "");
  }

  lemma Confuse(plan: Sent, r: Key, reply: string, before: seq<Step>, s: System) returns (steps: seq<Step>, s': System)
    requires Reaches(plan, before, s) && Crossed(s, r, reply) && !IsLocal(r.src, r.dst) && RequestType(reply) != ACK
    ensures Reaches(plan, steps, s') && Message(r, "") in Thread(s', r.dst).received
  {
    var p, bare := Message(Reverse(r), Frame(0, reply)), Message(r, ACK_TEXT);
    BareAckSent(s, r, reply);
    var s1 := TakeStep(s, p);
    BareAckRecorded(s1, r);
    Longer(plan, before, s, Take(p));
    steps := before + [Take(p)];
    Longer(plan, steps, s1, Take(bare));
    steps := steps + [Take(bare)];
    Longer(plan, steps, TakeStep(s1, bare), Handle(r.dst));
    steps := steps + [Handle(r.dst)];
    s' := Delivered(s1, bare);
  }

  /** A thread sends r, its peer sends the reverse of r, and the ack for that one is recorded as message r. */
  lemma AckIsTakenForMessage(plan: Sent, r: Key) returns (steps: seq<Step>)
    requires NoAckSent(plan) && Ambiguous(plan.Keys, r)
    ensures IsRun(START, steps) && SendsFrom(plan, steps)
    ensures Message(r, "") in Thread(After(START, steps), r.dst).received
  {
    var j :| j in plan.Keys && j != r && j.src == r.src && j.dst == r.dst;
    var opening, s := Open(plan, r, j);
    var crossing, s' := Cross(plan, r, opening, s);
    var s'';
    steps, s'' := Confuse(plan, r, plan[Reverse(r)], crossing, s');
  }

  /** Threads that send the messages of a plan can record a wrong text for one of them exactly when its key is
      ambiguous in the plan: its peer sends a message with the same timestamp, its own sender sends another one to
      the same thread, and the two threads are not acknowledged locally. */
  lemma WrongTextIff(plan: Sent, r: Key)
    requires NoAckSent(plan) && r in plan && plan[r] != ""
    ensures (exists steps :: EndsWrong(plan, steps, r)) <==> Ambiguous(plan.Keys, r)
  {
    if Ambiguous(plan.Keys, r) {
      var steps := AckIsTakenForMessage(plan, r);
      assert EndsWrong(plan, steps, r);
    }
    if steps :| EndsWrong(plan, steps, r) {
      WrongTextIsAmbiguous(plan, steps, r);
    }
  }

  /** Timestamps that make a key new in both directions exclude it: every text recorded is the one sent. */
  lemma {:induction false} FreshInBothDirections(steps: seq<Step>, a: Address, i: nat)
    requires IsRun(START, steps) && i < |Thread(After(START, steps), a).received|
    requires forall k :: k in After(START, steps).sent && Reverse(k) in After(START, steps).sent ==> k.src == k.dst
    ensures var s, m := After(START, steps), Thread(After(START, steps), a).received[i];
            m.key in s.sent && m.text == s.sent[m.key]
  {
    RecordedTextIsSent(steps, a, i);
  }
}
