/** What acknowledgements do: an ack taken drops the message it answers, for good; a message delivered is answered;
    so every message sent can be recorded and taken off the list of those to be resent. */
module MessageAcks {
  import opened Options
  import opened Texts
  import opened MessageModel
  import opened MessageRuns

  // ---- an ack drops its message ----

  /** Without the entry for a key, a list of distinct keys has none. */
  lemma WithoutKeyHasNone(list: seq<Message>, k: Key)
    requires DistinctKeys(list)
    ensures !Listed(WithoutKey(list, k), k)
  {
    var at, list' := FindKey(list, k), WithoutKey(list, k);
    forall i | 0 <= i < |list'| ensures list'[i].key != k {
      if at != -1 {
        assert list'[i] == list[if i < at then i else i + 1];
      }
    }
  }

  /** Sent, and no longer to be resent. */
  predicate Acknowledged(s: System, k: Key) { k in s.sent && !Listed(Unacked(s, k.src.machine), k) }

  /** Every ack that is taken takes the message it answers, which was sent, off its machine's list. */
  lemma AckDropsMessage(s: System, m: Message)
    requires Inv(s) && Enabled(s, Take(m)) && m.text == Frame(-1, ACK_TEXT)
    ensures Acknowledged(TakeStep(s, m), Reverse(m.key))
  {
    FramedText(-1, ACK_TEXT);
    AckText();
    assert PacketOK(s.threads, s.sent, m);
    if DataPacket(s.sent, m) {
      DataReads(s.sent, m);
      assert false;
    }
    assert DistinctKeys(Unacked(s, m.key.dst.machine));
    WithoutKeyHasNone(Unacked(s, m.key.dst.machine), Reverse(m.key));
  }

  /** One machine's mailboxes that are the same or next to each other: a thread's own and its pair's. */
  predicate OwnOrPair(a: Address, b: Address) { a.machine == b.machine && -1 <= a.mail - b.mail <= 1 }

  /** A message that the thread itself or its pair sent is off the list as soon as it is accepted. */
  lemma LocalMessageIsDropped(s: System, m: Message)
    requires Inv(s) && Enabled(s, Take(m)) && DataPacket(s.sent, m) && OwnOrPair(m.key.src, m.key.dst)
    requires Accepts(Thread(s, m.key.dst).receiveCounters, m)
    ensures !Listed(Unacked(TakeStep(s, m), m.key.dst.machine), m.key)
  {
    DataReads(s.sent, m);
    assert DistinctKeys(Unacked(s, m.key.dst.machine));
    LocalMeans(m.key.dst, m.key.src);
    LocalIsDropped(Unacked(s, m.key.dst.machine), Thread(s, m.key.dst).receiveCounters, m);
  }

  lemma LocalMeans(me: Address, src: Address)
    ensures IsLocal(me, src) <==> OwnOrPair(src, me)
  {
  }

  lemma LocalIsDropped(list: seq<Message>, counters: seq<CounterEntry>, m: Message)
    requires DistinctKeys(list) && Taking(counters, m).ToHandle? && IsLocal(m.key.dst, m.key.src)
    ensures !Listed(ListAfterTake(list, counters, m), m.key)
  {
    WithoutKeyHasNone(list, m.key);
  }

  /** The step does not send the message again. */
  predicate ResendsNot(s: System, step: Step, k: Key)
    requires Enabled(s, step)
  {
    step.Resend? ==> Unacked(s, step.machine)[step.index].key != k
  }

  lemma WithoutAddsNone(list: seq<Message>, dropped: Key, k: Key)
    requires !Listed(list, k)
    ensures !Listed(WithoutKey(list, dropped), k)
  {
    var at, list' := FindKey(list, dropped), WithoutKey(list, dropped);
    forall i | 0 <= i < |list'| ensures list'[i].key != k {
      assert list'[i] == list[if at == -1 || i < at then i else i + 1];
    }
  }

  lemma SendKeepsAcknowledged(s: System, j: Key, data: string, k: Key)
    requires UnackedOK(s.unacked, s.sent) && j !in s.sent && Acknowledged(s, k)
    ensures Acknowledged(SendStep(s, j, data), k)
  {
    NotListed(s.unacked, s.sent, j.src.machine, j);
  }

  lemma TakeKeepsUnlisted(list: seq<Message>, counters: seq<CounterEntry>, m: Message, k: Key)
    requires !Listed(list, k)
    ensures !Listed(ListAfterTake(list, counters, m), k)
  {
    WithoutAddsNone(list, Reverse(m.key), k);
    WithoutAddsNone(list, m.key, k);
  }

  lemma TakeKeepsAcknowledged(s: System, m: Message, k: Key)
    requires Enabled(s, Take(m)) && Acknowledged(s, k)
    ensures Acknowledged(TakeStep(s, m), k)
  {
    TakeKeepsUnlisted(Unacked(s, k.src.machine), Thread(s, m.key.dst).receiveCounters, m, k);
  }

  lemma OthersResent(s: System, machine: int, i: nat, k: Key)
    requires UnackedOK(s.unacked, s.sent) && i < |Unacked(s, machine)| && Acknowledged(s, k)
    ensures Unacked(s, machine)[i].key != k
  {
    assert EntryOK(s.sent, machine, Unacked(s, machine)[i]);
  }

  lemma StepKeepsAcknowledged(s: System, step: Step, k: Key)
    requires Inv(s) && Enabled(s, step) && Acknowledged(s, k)
    ensures ResendsNot(s, step, k) && Acknowledged(Next(s, step), k)
  {
    match step
    case SendData(j, data) => SendKeepsAcknowledged(s, j, data, k);
    case Resend(machine, i) => OthersResent(s, machine, i, k);
    case Take(m) => TakeKeepsAcknowledged(s, m, k);
    case Handle(a) =>
  }

  predicate NeverResent(s: System, steps: seq<Step>, k: Key)
    requires IsRun(s, steps)
    decreases |steps|
  {
    steps == [] || (ResendsNot(s, steps[0], k) && NeverResent(Next(s, steps[0]), steps[1..], k))
  }

  /** Over every run, a message taken off the list is never resent. */
  lemma {:induction false} AcknowledgedStays(s: System, steps: seq<Step>, k: Key)
    requires Inv(s) && IsRun(s, steps) && Acknowledged(s, k)
    ensures NeverResent(s, steps, k) && Acknowledged(After(s, steps), k)
    decreases |steps|
  {
    if steps != [] {
      StepKeepsAcknowledged(s, steps[0], k);
      StepKeepsInv(s, steps[0]);
      AcknowledgedStays(Next(s, steps[0]), steps[1..], k);
    }
  }

  // ---- every message is answered ----

  /** A message from another place that is accepted is answered under its reversed key: by an ack, or without its
      counter when the machine has a message of its own unacknowledged under that key. */
  lemma MessageIsAnswered(s: System, m: Message)
    requires Inv(s) && Enabled(s, Take(m)) && DataPacket(s.sent, m) && !OwnOrPair(m.key.src, m.key.dst)
    requires Accepts(Thread(s, m.key.dst).receiveCounters, m)
    ensures var bare := Listed(Unacked(s, m.key.dst.machine), Reverse(m.key));
            Message(Reverse(m.key), if bare then ACK_TEXT else Frame(-1, ACK_TEXT)) in TakeStep(s, m).network
  {
    DataReads(s.sent, m);
    LocalMeans(m.key.dst, m.key.src);
    AnswerOf(Unacked(s, m.key.dst.machine), Thread(s, m.key.dst).receiveCounters, m);
  }

  lemma AnswerOf(list: seq<Message>, counters: seq<CounterEntry>, m: Message)
    requires Taking(counters, m).ToHandle? && !IsLocal(m.key.dst, m.key.src)
    ensures AcksOfTake(list, counters, m) ==
      {Message(Reverse(m.key), if Listed(list, Reverse(m.key)) then ACK_TEXT else Frame(-1, ACK_TEXT))}
  {
    assert AckKey(m.key.dst, m.key) == Reverse(m.key);
    assert FindKey(list, Reverse(m.key)) != -1 <==> Listed(list, Reverse(m.key));
  }

  predicate Leads(s: System, steps: seq<Step>, s': System) { IsRun(s, steps) && After(s, steps) == s' }

  lemma LeadsOn(s: System, steps: seq<Step>, s': System, step: Step)
    requires Leads(s, steps, s') && Enabled(s', step)
    ensures Leads(s, steps + [step], Next(s', step))
  {
    RunExtends(s, steps, step);
  }

  /** The two steps that take and handle a message. */
  lemma DeliveryRun(s: System, m: Message)
    requires Enabled(s, Take(m)) && Enabled(TakeStep(s, m), Handle(m.key.dst))
    ensures Leads(s, [Take(m), Handle(m.key.dst)], Delivered(s, m))
  {
    assert Leads(s, [], s);
    LeadsOn(s, [], s, Take(m));
    LeadsOn(s, [] + [Take(m)], TakeStep(s, m), Handle(m.key.dst));
    assert [] + [Take(m)] + [Handle(m.key.dst)] == [Take(m), Handle(m.key.dst)];
  }

  lemma TakenArrives(s: System, p: Message)
    requires Inv(s) && Enabled(s, Take(p)) && SentPacket(s.sent, p)
    requires Accepts(Thread(s, p.key.dst).receiveCounters, p)
    ensures Inv(TakeStep(s, p)) && Arrived(Thread(TakeStep(s, p), p.key.dst), p.key)
  {
    TakeKeepsInv(s, p);
    assert ThreadOK(s.sent, p.key.dst, Thread(s, p.key.dst));
    InHandAfterTake(s.sent, Thread(s, p.key.dst), p);
    assert Thread(TakeStep(s, p), p.key.dst) == ThreadAfterTake(Thread(s, p.key.dst), p);
  }

  /** What an accepted message leaves: its thread has it in hand, and it is off the list, or its ack is out. */
  lemma TakenIsAnswered(s: System, p: Message)
    requires Inv(s) && Enabled(s, Take(p)) && SentPacket(s.sent, p)
    requires Accepts(Thread(s, p.key.dst).receiveCounters, p)
    ensures var s' := TakeStep(s, p);
            && Inv(s') && Arrived(Thread(s', p.key.dst), p.key)
            && (IsLocal(p.key.dst, p.key.src) ==> !Listed(Unacked(s', p.key.dst.machine), p.key))
            && (!IsLocal(p.key.dst, p.key.src) && Reverse(p.key) !in s.sent ==>
                 Message(Reverse(p.key), Frame(-1, ACK_TEXT)) in s'.network)
  {
    TakenArrives(s, p);
    LocalMeans(p.key.dst, p.key.src);
    if IsLocal(p.key.dst, p.key.src) {
      LocalMessageIsDropped(s, p);
    } else if Reverse(p.key) !in s.sent {
      NotListed(s.unacked, s.sent, p.key.dst.machine, Reverse(p.key));
      MessageIsAnswered(s, p);
    }
  }

  /** An acked message is off its machine's list when its sender takes the ack. */
  lemma AckTaken(s: System, k: Key)
    requires Inv(s) && k in s.sent && Thread(s, k.src).inHand.None? && Arrived(Thread(s, k.dst), k)
    requires Message(Reverse(k), Frame(-1, ACK_TEXT)) in s.network
    ensures var ack := Message(Reverse(k), Frame(-1, ACK_TEXT));
            && Enabled(s, Take(ack)) && Acknowledged(TakeStep(s, ack), k) && Arrived(Thread(TakeStep(s, ack), k.dst), k)
  {
    var ack := Message(Reverse(k), Frame(-1, ACK_TEXT));
    assert Reverse(ack.key) == k;
    AckDropsMessage(s, ack);
    TakeKeepsInv(s, ack);
    var s' := TakeStep(s, ack);
    assert NotLost(s'.unacked, s'.threads, k);
  }

  /** Once its sender's first contact has been handled, two more steps acknowledge a message. */
  lemma AnsweredAfterContact(s: System, steps: seq<Step>, s': System, p: Message) returns (steps': seq<Step>, end: System)
    requires Leads(s, steps, s') && Inv(s') && Enabled(s', Take(p)) && SentPacket(s'.sent, p)
    requires Accepts(Thread(s', p.key.dst).receiveCounters, p)
    requires IsLocal(p.key.dst, p.key.src) || (Reverse(p.key) !in s'.sent && Thread(s', p.key.src).inHand.None?)
    ensures Leads(s, steps', end) && |steps| < |steps'| <= |steps| + 2
    ensures Acknowledged(end, p.key) && Arrived(Thread(end, p.key.dst), p.key)
  {
    TakenIsAnswered(s', p);
    LeadsOn(s, steps, s', Take(p));
    steps', end := steps + [Take(p)], TakeStep(s', p);
    if !IsLocal(p.key.dst, p.key.src) {
      var ack := Message(Reverse(p.key), Frame(-1, ACK_TEXT));
      assert Thread(end, p.key.src) == Thread(s', p.key.src);
      AckTaken(end, p.key);
      LeadsOn(s, steps', end, Take(ack));
      steps', end := steps' + [Take(ack)], TakeStep(end, ack);
    }
  }

  /** From every state of every run, each message whose reverse is not sent can be delivered and acknowledged: at most
      four steps later it has arrived and is off its machine's list, for good. */
  lemma EveryMessageCanBeAcknowledged(s: System, k: Key) returns (steps: seq<Step>)
    requires Inv(s) && k in s.sent && Thread(s, k.dst).inHand.None? && Thread(s, k.src).inHand.None?
    requires Reverse(k) !in s.sent || IsLocal(k.dst, k.src)
    ensures IsRun(s, steps) && |steps| <= 4
    ensures Acknowledged(After(s, steps), k) && Arrived(Thread(After(s, steps), k.dst), k)
  {
    var first, p := Deliverable(s, k);
    FirstDelivered(s, first, p);
    DeliveryRun(s, first);
    if k.src != k.dst {
      DeliveredLeaves(s, first, k.src);
    }
    var end;
    steps, end := AnsweredAfterContact(s, [Take(first), Handle(k.dst)], Delivered(s, first), p);
  }
}
