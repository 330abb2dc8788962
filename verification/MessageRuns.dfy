/** Over every run, whatever the network drops, duplicates or reorders: no message is handled twice, none is lost
    that was acknowledged, and what is recorded is what was sent, but for an ack taken for a message. */
module MessageRuns {
  import opened Options
  import opened Texts
  import opened MessageModel

  datatype Step = SendData(key: Key, data: string) | Resend(machine: int, index: nat) | Take(mail: Message) | Handle(thread: Address)

  /** Which steps may happen. A sender's timestamp makes its key new; only Ack sends acks. A mail may be any packet
      ever sent, any number of times. */
  predicate Enabled(s: System, step: Step) {
    match step
    case SendData(k, data) => k !in s.sent && RequestType(data) != ACK
    case Resend(machine, i) => i < |Unacked(s, machine)|
    case Take(m) => m in s.network && Thread(s, m.key.dst).inHand.None?
    case Handle(a) => Thread(s, a).inHand.Some?
  }

  function Next(s: System, step: Step): (s': System)
    requires Enabled(s, step)
  {
    match step
    case SendData(k, data) => SendStep(s, k, data)
    case Resend(machine, i) => ResendStep(s, machine, i)
    case Take(m) => TakeStep(s, m)
    case Handle(a) => HandleStep(s, a)
  }

  // ---- the invariant ----

  predicate Recorded(t: Endpoint, k: Key) { exists i :: 0 <= i < |t.received| && t.received[i].key == k }

  predicate Arrived(t: Endpoint, k: Key) {
    Recorded(t, k) || (t.inHand.Some? && t.inHand.value.key == k)
  }

  predicate Listed(list: seq<Message>, k: Key) { exists i :: 0 <= i < |list| && list[i].key == k }

  /** A message as its sender framed it. */
  ghost predicate SentPacket(sent: Sent, p: Message) {
    p.key in sent && exists counter: nat :: p.text == Frame(counter, sent[p.key])
  }

  /** An ack without its counter: Send took it for a resend, as a message was unacknowledged under the ack's key.
      It reads as a message under that key, with counter 29 and no data. */
  predicate BareAck(sent: Sent, p: Message) {
    p.key in sent && Reverse(p.key) in sent && !IsLocal(p.key.src, p.key.dst) && p.text == ACK_TEXT
  }

  ghost predicate DataPacket(sent: Sent, p: Message) { SentPacket(sent, p) || BareAck(sent, p) }

  predicate AckPacket(threads: Threads, sent: Sent, p: Message) {
    && Reverse(p.key) in sent
    && p.text == Frame(-1, ACK_TEXT)
    && Arrived(ThreadOf(threads, p.key.src), Reverse(p.key))
  }

  ghost predicate PacketOK(threads: Threads, sent: Sent, p: Message) { DataPacket(sent, p) || AckPacket(threads, sent, p) }

  ghost predicate NetworkOK(network: set<Message>, threads: Threads, sent: Sent) {
    forall p :: p in network ==> PacketOK(threads, sent, p)
  }

  ghost predicate EntryOK(sent: Sent, machine: int, m: Message) {
    SentPacket(sent, m) && m.key.src.machine == machine
  }

  ghost predicate UnackedOK(lists: Lists, sent: Sent) {
    forall machine, i :: 0 <= i < |ListOf(lists, machine)| ==> EntryOK(sent, machine, ListOf(lists, machine)[i])
  }

  /** An ack may stand in for message r: its peer sent a message at the same time, and its own sender another one. */
  predicate Ambiguous(keys: set<Key>, r: Key) {
    && r in keys && Reverse(r) in keys && !IsLocal(r.src, r.dst)
    && exists j :: j in keys && j != r && j.src == r.src && j.dst == r.dst
  }

  predicate RightText(sent: Sent, m: Message) {
    m.key in sent && (m.text == sent[m.key] || (m.text == "" && Ambiguous(sent.Keys, m.key)))
  }

  ghost predicate ReceivedOK(sent: Sent, a: Address, received: seq<Message>) {
    && DistinctKeys(received)
    && forall i :: 0 <= i < |received| ==> RightText(sent, received[i]) && received[i].key.dst == a
  }

  predicate HandledOK(handled: seq<Key>, received: seq<Message>) {
    |handled| == |received| && forall i :: 0 <= i < |handled| ==> handled[i] == received[i].key
  }

  predicate InHandOK(sent: Sent, a: Address, t: Endpoint) {
    t.inHand.Some? ==>
      var m := t.inHand.value;
      m.key in sent && m.key.dst == a && (RightText(sent, m) || Recorded(t, m.key))
  }

  /** A counter is kept for a peer only once a message of that peer has arrived. */
  ghost predicate HeardFrom(t: Endpoint, peer: Address) { exists k: Key :: k.src == peer && Arrived(t, k) }

  ghost predicate HeardOK(t: Endpoint) {
    forall peer :: FindPeer(t.receiveCounters, peer) != -1 ==> HeardFrom(t, peer)
  }

  /** A thread handled exactly the messages it recorded, each once; all were sent to it. */
  ghost predicate ThreadOK(sent: Sent, a: Address, t: Endpoint) {
    ReceivedOK(sent, a, t.received) && HandledOK(t.handled, t.received) && InHandOK(sent, a, t) && HeardOK(t)
  }

  ghost predicate ThreadsOK(threads: Threads, sent: Sent) {
    forall a :: ThreadOK(sent, a, ThreadOf(threads, a))
  }

  /** A message sent is still on its sender's list, or has arrived. */
  predicate NotLost(lists: Lists, threads: Threads, k: Key) {
    Listed(ListOf(lists, k.src.machine), k) || Arrived(ThreadOf(threads, k.dst), k)
  }

  ghost predicate NoneLost(lists: Lists, threads: Threads, sent: Sent) {
    forall k :: k in sent ==> NotLost(lists, threads, k)
  }

  /** The first message from one thread to another, counter 0, is on the network once any is. */
  ghost predicate FirstContact(network: set<Message>, src: Address, dst: Address) {
    exists p, data :: p in network && p.key.src == src && p.key.dst == dst && p.text == Frame(0, data)
  }

  ghost predicate OnNetwork(network: set<Message>, sent: Sent, k: Key) {
    exists p :: p in network && p.key == k && SentPacket(sent, p)
  }

  ghost predicate CounterOK(network: set<Message>, a: Address, c: CounterEntry) {
    c.counter >= 0 && FirstContact(network, a, c.peer)
  }

  ghost predicate CountersOK(threads: Threads, network: set<Message>) {
    forall a, i :: 0 <= i < |ThreadOf(threads, a).sendCounters| ==> CounterOK(network, a, ThreadOf(threads, a).sendCounters[i])
  }

  ghost predicate ContactsOK(network: set<Message>, sent: Sent) {
    forall k :: k in sent ==> FirstContact(network, k.src, k.dst) && OnNetwork(network, sent, k)
  }

  predicate NoAckSent(sent: Sent) { forall k :: k in sent ==> RequestType(sent[k]) != ACK }

  /** No message is on its machine's list twice. */
  ghost predicate ListsDistinct(lists: Lists) { forall machine :: DistinctKeys(ListOf(lists, machine)) }

  ghost predicate Inv(s: System) {
    && NetworkOK(s.network, s.threads, s.sent)
    && UnackedOK(s.unacked, s.sent)
    && ListsDistinct(s.unacked)
    && ThreadsOK(s.threads, s.sent)
    && NoAckSent(s.sent)
    && NoneLost(s.unacked, s.threads, s.sent)
    && CountersOK(s.threads, s.network)
    && ContactsOK(s.network, s.sent)
  }

  // ---- what a longer history keeps ----

  predicate Extends(sent: Sent, sent': Sent) { forall k :: k in sent ==> k in sent' && sent'[k] == sent[k] }

  lemma PacketKept(sent: Sent, sent': Sent, p: Message)
    requires Extends(sent, sent')
    ensures SentPacket(sent, p) ==> SentPacket(sent', p)
    ensures BareAck(sent, p) ==> BareAck(sent', p)
  {
  }

  lemma TextStaysRight(sent: Sent, sent': Sent, m: Message)
    requires Extends(sent, sent') && RightText(sent, m)
    ensures RightText(sent', m)
  {
  }

  lemma ThreadStaysOK(sent: Sent, sent': Sent, a: Address, t: Endpoint)
    requires Extends(sent, sent') && ThreadOK(sent, a, t)
    ensures ThreadOK(sent', a, t)
  {
    forall i | 0 <= i < |t.received| ensures RightText(sent', t.received[i]) {
      TextStaysRight(sent, sent', t.received[i]);
    }
    if t.inHand.Some? && RightText(sent, t.inHand.value) {
      TextStaysRight(sent, sent', t.inHand.value);
    }
  }

  // ---- a thread sends ----

  lemma {:induction false} NotListed(lists: Lists, sent: Sent, machine: int, k: Key)
    requires UnackedOK(lists, sent) && k !in sent
    ensures FindKey(ListOf(lists, machine), k) == -1
  {
    var i := FindKey(ListOf(lists, machine), k);
    assert i != -1 ==> EntryOK(sent, machine, ListOf(lists, machine)[i]);
  }

  /** The next counter is not negative, and is 0 unless a first contact was made; it is entered for the peer. */
  lemma CounterIsNext(network: set<Message>, a: Address, counters: seq<CounterEntry>, peer: Address)
    requires forall i :: 0 <= i < |counters| ==> CounterOK(network, a, counters[i])
    ensures var (c, counters') := NextCounter(counters, peer);
            && c >= 0 && (c == 0 || FirstContact(network, a, peer))
            && |counters'| >= |counters|
            && forall i :: 0 <= i < |counters'| ==>
                 counters'[i].counter >= 0 && (counters'[i].peer == peer || FirstContact(network, a, counters'[i].peer))
  {
    var at := FindPeer(counters, peer);
    assert at != -1 ==> CounterOK(network, a, counters[at]);
    var (c, counters') := NextCounter(counters, peer);
    forall i | 0 <= i < |counters'|
      ensures counters'[i].counter >= 0 && (counters'[i].peer == peer || FirstContact(network, a, counters'[i].peer))
    {
      if i < |counters| { assert CounterOK(network, a, counters[i]); }
    }
  }

  lemma ThreadsAfterSend(threads: Threads, sent: Sent, k: Key, counters: seq<CounterEntry>, threads': Threads, sent': Sent)
    requires ThreadsOK(threads, sent) && Extends(sent, sent')
    requires threads' == threads[k.src := ThreadOf(threads, k.src).(sendCounters := counters)]
    ensures ThreadsOK(threads', sent')
    ensures forall a, j :: Arrived(ThreadOf(threads', a), j) <==> Arrived(ThreadOf(threads, a), j)
  {
    forall a ensures ThreadOK(sent', a, ThreadOf(threads', a)) {
      assert ThreadOK(sent, a, ThreadOf(threads, a));
      ThreadStaysOK(sent, sent', a, ThreadOf(threads, a));
      SameRecord(sent', a, ThreadOf(threads, a), ThreadOf(threads', a));
    }
  }

  lemma SameRecord(sent: Sent, a: Address, t: Endpoint, t': Endpoint)
    requires ThreadOK(sent, a, t) && t' == t.(sendCounters := t'.sendCounters)
    ensures ThreadOK(sent, a, t')
  {
    forall peer | FindPeer(t'.receiveCounters, peer) != -1 ensures HeardFrom(t', peer) {
      var k: Key :| k.src == peer && Arrived(t, k);
      assert Arrived(t', k);
    }
  }

  lemma ListsAfterSend(lists: Lists, sent: Sent, k: Key, m: Message, lists': Lists, sent': Sent)
    requires UnackedOK(lists, sent) && Extends(sent, sent') && m.key == k && SentPacket(sent', m)
    requires lists' == lists[k.src.machine := ListOf(lists, k.src.machine) + [m]]
    ensures UnackedOK(lists', sent') && Listed(ListOf(lists', k.src.machine), k)
    ensures forall machine, j :: Listed(ListOf(lists, machine), j) ==> Listed(ListOf(lists', machine), j)
  {
    forall machine, i | 0 <= i < |ListOf(lists', machine)| ensures EntryOK(sent', machine, ListOf(lists', machine)[i]) {
      if i < |ListOf(lists, machine)| {
        assert EntryOK(sent, machine, ListOf(lists, machine)[i]);
        PacketKept(sent, sent', ListOf(lists, machine)[i]);
      }
    }
    var list' := ListOf(lists', k.src.machine);
    assert list'[|list'| - 1].key == k;
    forall machine, j | Listed(ListOf(lists, machine), j) ensures Listed(ListOf(lists', machine), j) {
      var i :| 0 <= i < |ListOf(lists, machine)| && ListOf(lists, machine)[i].key == j;
      assert ListOf(lists', machine)[i].key == j;
    }
  }

  lemma {:induction false} OneMoreStaysDistinct(list: seq<Message>, m: Message)
    requires DistinctKeys(list) && FindKey(list, m.key) == -1
    ensures DistinctKeys(list + [m])
  {
  }

  lemma SendKeepsDistinct(lists: Lists, sent: Sent, k: Key, m: Message, lists': Lists)
    requires UnackedOK(lists, sent) && ListsDistinct(lists) && m.key == k && k !in sent
    requires lists' == lists[k.src.machine := ListOf(lists, k.src.machine) + [m]]
    ensures ListsDistinct(lists')
  {
    forall machine ensures DistinctKeys(ListOf(lists', machine)) {
      assert DistinctKeys(ListOf(lists, machine));
      NotListed(lists, sent, machine, k);
      OneMoreStaysDistinct(ListOf(lists, machine), m);
    }
  }

  lemma NetworkGrows(network: set<Message>, threads: Threads, sent: Sent, network': set<Message>, threads': Threads, sent': Sent)
    requires NetworkOK(network, threads, sent) && Extends(sent, sent')
    requires forall a, j :: Arrived(ThreadOf(threads, a), j) ==> Arrived(ThreadOf(threads', a), j)
    requires forall p :: p in network' && p !in network ==> PacketOK(threads', sent', p)
    ensures NetworkOK(network', threads', sent')
  {
    forall p | p in network' ensures PacketOK(threads', sent', p) {
      if p in network {
        assert PacketOK(threads, sent, p);
        PacketKept(sent, sent', p);
      }
    }
  }

  lemma NoneLostGrows(lists: Lists, threads: Threads, sent: Sent, lists': Lists, threads': Threads, sent': Sent)
    requires NoneLost(lists, threads, sent)
    requires forall a, j :: Arrived(ThreadOf(threads, a), j) ==> Arrived(ThreadOf(threads', a), j)
    requires forall j: Key :: Listed(ListOf(lists, j.src.machine), j) ==>
      Listed(ListOf(lists', j.src.machine), j) || Arrived(ThreadOf(threads', j.dst), j)
    requires forall j :: j in sent' && j !in sent ==> NotLost(lists', threads', j)
    ensures NoneLost(lists', threads', sent')
  {
    forall j | j in sent' ensures NotLost(lists', threads', j) {
      if j in sent { assert NotLost(lists, threads, j); }
    }
  }

  lemma MoreContacts(network: set<Message>, sent: Sent, network': set<Message>, sent': Sent)
    requires network <= network' && Extends(sent, sent')
    ensures forall src, dst :: FirstContact(network, src, dst) ==> FirstContact(network', src, dst)
    ensures forall k :: OnNetwork(network, sent, k) ==> OnNetwork(network', sent', k)
  {
    forall k | OnNetwork(network, sent, k) ensures OnNetwork(network', sent', k) {
      var p :| p in network && p.key == k && SentPacket(sent, p);
      PacketKept(sent, sent', p);
      assert p in network';
    }
  }

  lemma ContactsKept(threads: Threads, sent: Sent, network: set<Message>, threads': Threads, network': set<Message>)
    requires CountersOK(threads, network) && ContactsOK(network, sent) && network <= network'
    requires forall a :: ThreadOf(threads', a).sendCounters == ThreadOf(threads, a).sendCounters
    ensures CountersOK(threads', network') && ContactsOK(network', sent)
  {
    MoreContacts(network, sent, network', sent);
    forall a, i | 0 <= i < |ThreadOf(threads', a).sendCounters| ensures CounterOK(network', a, ThreadOf(threads', a).sendCounters[i]) {
      assert CounterOK(network, a, ThreadOf(threads, a).sendCounters[i]);
    }
  }

  lemma ContactsAfterSend(threads: Threads, sent: Sent, network: set<Message>, k: Key, data: string, threads': Threads, m: Message)
    requires CountersOK(threads, network) && ContactsOK(network, sent) && k !in sent
    requires var (c, counters) := NextCounter(ThreadOf(threads, k.src).sendCounters, k.dst);
             m == Message(k, Frame(c, data)) && threads' == threads[k.src := ThreadOf(threads, k.src).(sendCounters := counters)]
    ensures CountersOK(threads', network + {m}) && ContactsOK(network + {m}, sent[k := data])
    ensures SentPacket(sent[k := data], m)
  {
    var network', sent' := network + {m}, sent[k := data];
    MoreContacts(network, sent, network', sent');
    forall i | 0 <= i < |ThreadOf(threads, k.src).sendCounters| ensures CounterOK(network, k.src, ThreadOf(threads, k.src).sendCounters[i]) {
    }
    CounterIsNext(network, k.src, ThreadOf(threads, k.src).sendCounters, k.dst);
    var (c, counters) := NextCounter(ThreadOf(threads, k.src).sendCounters, k.dst);
    assert c == 0 ==> m in network' && m.text == Frame(0, data);
    assert FirstContact(network', k.src, k.dst);
    assert m in network' && SentPacket(sent', m);
    forall a, i | 0 <= i < |ThreadOf(threads', a).sendCounters| ensures CounterOK(network', a, ThreadOf(threads', a).sendCounters[i]) {
      if a != k.src { assert CounterOK(network, a, ThreadOf(threads, a).sendCounters[i]); }
    }
  }

  lemma NoneLostAfterSend(lists: Lists, threads: Threads, sent: Sent, k: Key, data: string, lists': Lists, threads': Threads)
    requires NoneLost(lists, threads, sent) && Listed(ListOf(lists', k.src.machine), k)
    requires forall a, j :: Arrived(ThreadOf(threads', a), j) <==> Arrived(ThreadOf(threads, a), j)
    requires forall machine, j :: Listed(ListOf(lists, machine), j) ==> Listed(ListOf(lists', machine), j)
    ensures NoneLost(lists', threads', sent[k := data])
  {
    NoneLostGrows(lists, threads, sent, lists', threads', sent[k := data]);
  }

  lemma RestAfterSend(s: System, k: Key, data: string, counters: seq<CounterEntry>, m: Message, lists': Lists, threads': Threads)
    requires Inv(s) && k !in s.sent && m.key == k && SentPacket(s.sent[k := data], m)
    requires threads' == s.threads[k.src := Thread(s, k.src).(sendCounters := counters)]
    requires lists' == s.unacked[k.src.machine := Unacked(s, k.src.machine) + [m]]
    ensures var sent' := s.sent[k := data];
            && NetworkOK(s.network + {m}, threads', sent') && UnackedOK(lists', sent') && ThreadsOK(threads', sent')
            && ListsDistinct(lists')
            && NoneLost(lists', threads', sent')
  {
    var sent' := s.sent[k := data];
    ThreadsAfterSend(s.threads, s.sent, k, counters, threads', sent');
    ListsAfterSend(s.unacked, s.sent, k, m, lists', sent');
    SendKeepsDistinct(s.unacked, s.sent, k, m, lists');
    NetworkGrows(s.network, s.threads, s.sent, s.network + {m}, threads', sent');
    NoneLostAfterSend(s.unacked, s.threads, s.sent, k, data, lists', threads');
  }

  lemma SendKeepsInv(s: System, k: Key, data: string)
    requires Inv(s) && Enabled(s, SendData(k, data))
    ensures Inv(SendStep(s, k, data))
  {
    NotListed(s.unacked, s.sent, k.src.machine, k);
    var (c, counters) := NextCounter(Thread(s, k.src).sendCounters, k.dst);
    var s', m := SendStep(s, k, data), Message(k, Frame(c, data));
    ContactsAfterSend(s.threads, s.sent, s.network, k, data, s'.threads, m);
    RestAfterSend(s, k, data, counters, m, s'.unacked, s'.threads);
  }

  // ---- the resend thread resends ----

  lemma ResentIsListed(s: System, machine: int, i: nat)
    requires UnackedOK(s.unacked, s.sent) && i < |Unacked(s, machine)|
    ensures ResendStep(s, machine, i) == s.(network := s.network + {Unacked(s, machine)[i]})
    ensures SentPacket(s.sent, Unacked(s, machine)[i])
  {
    var m := Unacked(s, machine)[i];
    assert FindKey(Unacked(s, machine), m.key) != -1;
    assert EntryOK(s.sent, machine, m);
  }

  lemma SentAgainKeepsInv(s: System, m: Message)
    requires Inv(s) && SentPacket(s.sent, m)
    ensures Inv(s.(network := s.network + {m}))
  {
    ContactsKept(s.threads, s.sent, s.network, s.threads, s.network + {m});
    NetworkGrows(s.network, s.threads, s.sent, s.network + {m}, s.threads, s.sent);
  }

  lemma ResendKeepsInv(s: System, machine: int, i: nat)
    requires Inv(s) && Enabled(s, Resend(machine, i))
    ensures Inv(ResendStep(s, machine, i))
  {
    ResentIsListed(s, machine, i);
    SentAgainKeepsInv(s, Unacked(s, machine)[i]);
  }

  // ---- a network thread takes a mail ----

  lemma FramedText(counter: int, data: string)
    ensures ParseValue(Frame(counter, data), 0).0 == counter && DataOf(Frame(counter, data)) == data
  {
    FrameParses(counter, data);
  }

  lemma AckText()
    ensures ACK_TEXT == Frame(29, "") && RequestType(ACK_TEXT) == ACK && RequestType("") != ACK
  {
    assert DecimalText(29) == [Digit(2)] + [Digit(9)];
    assert ACK_TEXT == IntText(29) + "_" + "";
    FrameParses(29, "");
  }

  /** How a data packet reads: a sent one as its data, a bare ack as none, and neither as an ack. */
  lemma DataReads(sent: Sent, m: Message)
    requires DataPacket(sent, m) && NoAckSent(sent)
    ensures RequestType(DataOf(m.text)) != ACK && ParseValue(m.text, 0).0 >= 0
    ensures SentPacket(sent, m) ==> DataOf(m.text) == sent[m.key]
    ensures !SentPacket(sent, m) ==> BareAck(sent, m) && DataOf(m.text) == "" && ParseValue(m.text, 0).0 == 29
  {
    if SentPacket(sent, m) {
      var counter: nat :| m.text == Frame(counter, sent[m.key]);
      FramedText(counter, sent[m.key]);
    } else {
      AckText();
      FramedText(29, "");
    }
  }

  lemma AckReads(threads: Threads, sent: Sent, counters: seq<CounterEntry>, m: Message)
    requires AckPacket(threads, sent, m)
    ensures Taking(counters, m) == IsAck && CountReceived(counters, m) == counters
  {
    FramedText(-1, ACK_TEXT);
    AckText();
  }

  /** An ack is recognised by its receiver exactly when the machine that sends it has no message of its own
      unacknowledged under the ack's key: if it has, Send takes the ack for a resend and leaves the counter out. */
  lemma {:induction false} AckRecognisedIff(unacked: seq<Message>, counters: seq<CounterEntry>, me: Address, k: Key)
    ensures var ack := Send(unacked, [], AckKey(me, k), ACK_TEXT, false).packet;
            Taking(counters, ack) == IsAck <==> FindKey(unacked, AckKey(me, k)) == -1
  {
    AckText();
    FramedText(-1, ACK_TEXT);
    FramedText(29, "");
  }

  /** Counting a mail adds a counter for its sender at most, and none that a discarded mail would need. */
  lemma {:induction false} CountedPeers(counters: seq<CounterEntry>, m: Message, peer: Address)
    ensures FindPeer(CountReceived(counters, m), peer) != -1 && FindPeer(counters, peer) == -1 ==>
      peer == m.key.src && Accepts(counters, m) && ParseValue(m.text, 0).0 >= 0
  {
    var counters' := CountReceived(counters, m);
    assert forall i :: 0 <= i < |counters| ==> counters'[i].peer == counters[i].peer;
  }

  /** The text a data packet puts in hand is the one sent, unless the packet is a bare ack; then its key is
      ambiguous, or the message is recorded already. */
  lemma InHandAfterTake(sent: Sent, t: Endpoint, m: Message)
    requires ThreadOK(sent, m.key.dst, t) && t.inHand.None? && NoAckSent(sent) && DataPacket(sent, m)
    requires Accepts(t.receiveCounters, m)
    ensures var t' := ThreadAfterTake(t, m);
            t'.inHand == Some(Message(m.key, DataOf(m.text))) && InHandOK(sent, m.key.dst, t')
  {
    DataReads(sent, m);
    if !SentPacket(sent, m) {
      assert FindPeer(t.receiveCounters, m.key.src) != -1;
      assert HeardFrom(t, m.key.src);
      var j: Key :| j.src == m.key.src && Arrived(t, j);
      var i :| 0 <= i < |t.received| && t.received[i].key == j;
      assert RightText(sent, t.received[i]);
      if j == m.key {
        assert Recorded(ThreadAfterTake(t, m), m.key);
      } else {
        assert j in sent.Keys && j.dst == m.key.dst;
        assert Ambiguous(sent.Keys, m.key);
      }
    }
  }

  lemma HeardAfterTake(sent: Sent, t: Endpoint, m: Message)
    requires ThreadOK(sent, m.key.dst, t) && t.inHand.None?
    requires Accepts(t.receiveCounters, m) && ParseValue(m.text, 0).0 >= 0 ==> Arrived(ThreadAfterTake(t, m), m.key)
    ensures HeardOK(ThreadAfterTake(t, m))
  {
    var t' := ThreadAfterTake(t, m);
    forall peer | FindPeer(t'.receiveCounters, peer) != -1 ensures HeardFrom(t', peer) {
      if FindPeer(t.receiveCounters, peer) != -1 {
        var k: Key :| k.src == peer && Arrived(t, k);
        assert Arrived(t', k);
      } else {
        CountedPeers(t.receiveCounters, m, peer);
        assert Arrived(t', m.key);
      }
    }
  }

  /** A thread's record after it takes a packet, and what a packet it handles is. */
  lemma ThreadAfterTakeOK(threads: Threads, sent: Sent, m: Message)
    requires var t := ThreadOf(threads, m.key.dst);
             ThreadOK(sent, m.key.dst, t) && t.inHand.None? && NoAckSent(sent) && PacketOK(threads, sent, m)
    ensures var t := ThreadOf(threads, m.key.dst);
            var t' := ThreadAfterTake(t, m);
            && ThreadOK(sent, m.key.dst, t') && t'.sendCounters == t.sendCounters
            && (forall j :: Arrived(t, j) ==> Arrived(t', j))
            && (Taking(t.receiveCounters, m).ToHandle? ==> DataPacket(sent, m) && Arrived(t', m.key))
            && (Taking(t.receiveCounters, m).IsAck? ==> AckPacket(threads, sent, m))
  {
    var t := ThreadOf(threads, m.key.dst);
    var t' := ThreadAfterTake(t, m);
    if DataPacket(sent, m) {
      DataReads(sent, m);
      if Accepts(t.receiveCounters, m) {
        InHandAfterTake(sent, t, m);
      }
      HeardAfterTake(sent, t, m);
    } else {
      AckReads(threads, sent, t.receiveCounters, m);
      assert t' == t;
    }
  }

  lemma ThreadsAfterTake(threads: Threads, sent: Sent, m: Message, threads': Threads)
    requires ThreadsOK(threads, sent) && ThreadOf(threads, m.key.dst).inHand.None? && NoAckSent(sent) && PacketOK(threads, sent, m)
    requires threads' == threads[m.key.dst := ThreadAfterTake(ThreadOf(threads, m.key.dst), m)]
    ensures ThreadsOK(threads', sent)
    ensures forall a, j :: Arrived(ThreadOf(threads, a), j) ==> Arrived(ThreadOf(threads', a), j)
    ensures forall a :: ThreadOf(threads', a).sendCounters == ThreadOf(threads, a).sendCounters
  {
    assert ThreadOK(sent, m.key.dst, ThreadOf(threads, m.key.dst));
    ThreadAfterTakeOK(threads, sent, m);
    forall a ensures ThreadOK(sent, a, ThreadOf(threads', a)) {
      assert ThreadOK(sent, a, ThreadOf(threads, a));
    }
  }

  lemma WithoutKeepsOthers(list: seq<Message>, dropped: Key)
    ensures forall m :: m in WithoutKey(list, dropped) ==> m in list
    ensures forall k :: k != dropped && Listed(list, k) ==> Listed(WithoutKey(list, dropped), k)
  {
    forall k | k != dropped && Listed(list, k) ensures Listed(WithoutKey(list, dropped), k) {
      OtherKept(list, FindKey(list, dropped), k);
    }
  }

  lemma OtherKept(list: seq<Message>, at: int, k: Key)
    requires at == -1 || 0 <= at < |list|
    requires Listed(list, k) && (at != -1 ==> list[at].key != k)
    ensures Listed(WithoutAt(list, at), k)
  {
    var i :| 0 <= i < |list| && list[i].key == k;
    var list' := WithoutAt(list, at);
    assert if at == -1 || i < at then list'[i] == list[i] else list'[i - 1] == list[i];
  }

  lemma ListsAfterDrop(lists: Lists, sent: Sent, machine: int, dropped: Key, lists': Lists)
    requires UnackedOK(lists, sent) && lists' == lists[machine := WithoutKey(ListOf(lists, machine), dropped)]
    ensures UnackedOK(lists', sent)
    ensures forall mc, j :: j != dropped && Listed(ListOf(lists, mc), j) ==> Listed(ListOf(lists', mc), j)
  {
    WithoutKeepsOthers(ListOf(lists, machine), dropped);
    forall mc, i | 0 <= i < |ListOf(lists', mc)| ensures EntryOK(sent, mc, ListOf(lists', mc)[i]) {
      assert ListOf(lists', mc)[i] in ListOf(lists, mc);
      var j :| 0 <= j < |ListOf(lists, mc)| && ListOf(lists, mc)[j] == ListOf(lists', mc)[i];
      assert EntryOK(sent, mc, ListOf(lists, mc)[j]);
    }
  }

  lemma DropKeepsDistinct(lists: Lists, machine: int, dropped: Key, lists': Lists)
    requires ListsDistinct(lists) && lists' == lists[machine := WithoutKey(ListOf(lists, machine), dropped)]
    ensures ListsDistinct(lists')
  {
    forall mc ensures DistinctKeys(ListOf(lists', mc)) {
      assert DistinctKeys(ListOf(lists, mc));
      WithoutAtStaysDistinct(ListOf(lists, mc), FindKey(ListOf(lists, mc), dropped));
    }
  }

  lemma SameLists(lists: Lists, sent: Sent, lists': Lists)
    requires UnackedOK(lists, sent) && ListsDistinct(lists)
    requires forall mc :: ListOf(lists', mc) == ListOf(lists, mc)
    ensures UnackedOK(lists', sent) && ListsDistinct(lists')
  {
    forall mc ensures DistinctKeys(ListOf(lists', mc)) {
      assert DistinctKeys(ListOf(lists, mc));
    }
    forall mc, i | 0 <= i < |ListOf(lists', mc)| ensures EntryOK(sent, mc, ListOf(lists', mc)[i]) {
      assert EntryOK(sent, mc, ListOf(lists, mc)[i]);
    }
  }

  /** The only entry a taken mail drops is that of a message that has arrived. */
  lemma ListsAfterTake(lists: Lists, threads: Threads, sent: Sent, counters: seq<CounterEntry>, m: Message,
                       lists': Lists, threads': Threads)
    requires UnackedOK(lists, sent) && NoneLost(lists, threads, sent) && ListsDistinct(lists)
    requires var machine := m.key.dst.machine; lists' == lists[machine := ListAfterTake(ListOf(lists, machine), counters, m)]
    requires forall a, j :: Arrived(ThreadOf(threads, a), j) ==> Arrived(ThreadOf(threads', a), j)
    requires Taking(counters, m).ToHandle? ==> Arrived(ThreadOf(threads', m.key.dst), m.key)
    requires Taking(counters, m).IsAck? ==> Arrived(ThreadOf(threads', m.key.src), Reverse(m.key))
    ensures UnackedOK(lists', sent) && NoneLost(lists', threads', sent) && ListsDistinct(lists')
  {
    var machine, taken := m.key.dst.machine, Taking(counters, m);
    if taken.IsAck? {
      ListsAfterDrop(lists, sent, machine, Reverse(m.key), lists');
      DropKeepsDistinct(lists, machine, Reverse(m.key), lists');
    } else if taken.ToHandle? && IsLocal(m.key.dst, m.key.src) {
      ListsAfterDrop(lists, sent, machine, m.key, lists');
      DropKeepsDistinct(lists, machine, m.key, lists');
    } else {
      SameLists(lists, sent, lists');
    }
    NoneLostGrows(lists, threads, sent, lists', threads', sent);
  }

  /** What goes out for a message is an ack, or a bare ack when its sender lists a message under the ack's key. */
  lemma AcksAreAcks(lists: Lists, threads: Threads, sent: Sent, counters: seq<CounterEntry>, m: Message, threads': Threads)
    requires UnackedOK(lists, sent)
    requires Taking(counters, m).ToHandle? ==> m.key in sent && Arrived(ThreadOf(threads', m.key.dst), m.key)
    ensures forall p :: p in AcksOfTake(ListOf(lists, m.key.dst.machine), counters, m) ==> PacketOK(threads', sent, p)
  {
    if Taking(counters, m).ToHandle? && !IsLocal(m.key.dst, m.key.src) {
      var list, ack := ListOf(lists, m.key.dst.machine), AckKey(m.key.dst, m.key);
      assert ack == Reverse(m.key) && Reverse(ack) == m.key;
      var i := FindKey(list, ack);
      if i != -1 {
        assert EntryOK(sent, m.key.dst.machine, list[i]);
        assert BareAck(sent, Message(ack, ACK_TEXT));
      } else {
        assert AckPacket(threads', sent, Message(ack, Frame(-1, ACK_TEXT)));
      }
    }
  }

  lemma TakeKeepsInv(s: System, m: Message)
    requires Inv(s) && Enabled(s, Take(m))
    ensures Inv(TakeStep(s, m))
  {
    var s', counters := TakeStep(s, m), Thread(s, m.key.dst).receiveCounters;
    assert PacketOK(s.threads, s.sent, m) && ThreadOK(s.sent, m.key.dst, Thread(s, m.key.dst));
    ThreadAfterTakeOK(s.threads, s.sent, m);
    ThreadsAfterTake(s.threads, s.sent, m, s'.threads);
    AcksAreAcks(s.unacked, s.threads, s.sent, counters, m, s'.threads);
    NetworkGrows(s.network, s.threads, s.sent, s'.network, s'.threads, s'.sent);
    ListsAfterTake(s.unacked, s.threads, s.sent, counters, m, s'.unacked, s'.threads);
    ContactsKept(s.threads, s.sent, s.network, s'.threads, s'.network);
  }

  // ---- a network thread handles the message in hand ----

  /** Handling records the message in hand, with its text as it is, unless it was recorded before. */
  lemma HandledRecords(sent: Sent, a: Address, t: Endpoint)
    requires t.inHand.Some? && ThreadOK(sent, a, t)
    ensures ThreadOK(sent, a, Handled(t)) && Recorded(Handled(t), t.inHand.value.key)
    ensures forall k :: Arrived(t, k) ==> Arrived(Handled(t), k)
    ensures Handled(t).sendCounters == t.sendCounters && Handled(t).receiveCounters == t.receiveCounters
    ensures t.received <= Handled(t).received && Handled(t).inHand.None?
    ensures !Recorded(t, t.inHand.value.key) ==> t.inHand.value in Handled(t).received
  {
    var t', m := Handled(t), t.inHand.value;
    var found := FindKey(t.received, m.key);
    assert if found != -1 then t'.received[found].key == m.key else t'.received[|t.received|] == m;
    forall k | Recorded(t, k) ensures Recorded(t', k) {
      var i :| 0 <= i < |t.received| && t.received[i].key == k;
      assert t'.received[i].key == k;
    }
    assert HeardOK(t') by {
      forall peer | FindPeer(t'.receiveCounters, peer) != -1 ensures HeardFrom(t', peer) {
        var k: Key :| k.src == peer && Arrived(t, k);
        assert Arrived(t', k);
      }
    }
  }

  lemma ThreadsAfterHandle(threads: Threads, sent: Sent, a: Address, threads': Threads)
    requires ThreadsOK(threads, sent) && ThreadOf(threads, a).inHand.Some?
    requires threads' == threads[a := Handled(ThreadOf(threads, a))]
    ensures ThreadsOK(threads', sent)
    ensures forall b, j :: Arrived(ThreadOf(threads, b), j) ==> Arrived(ThreadOf(threads', b), j)
    ensures forall b :: ThreadOf(threads', b).sendCounters == ThreadOf(threads, b).sendCounters
  {
    assert ThreadOK(sent, a, ThreadOf(threads, a));
    HandledRecords(sent, a, ThreadOf(threads, a));
    forall b ensures ThreadOK(sent, b, ThreadOf(threads', b)) {
      assert ThreadOK(sent, b, ThreadOf(threads, b));
    }
  }

  lemma HandleKeepsInv(s: System, a: Address)
    requires Inv(s) && Enabled(s, Handle(a))
    ensures Inv(HandleStep(s, a))
  {
    var s' := HandleStep(s, a);
    ThreadsAfterHandle(s.threads, s.sent, a, s'.threads);
    ContactsKept(s.threads, s.sent, s.network, s'.threads, s'.network);
    NetworkGrows(s.network, s.threads, s.sent, s'.network, s'.threads, s'.sent);
    NoneLostGrows(s.unacked, s.threads, s.sent, s'.unacked, s'.threads, s'.sent);
  }

  // ---- runs ----

  /** Every step of every thread keeps the invariant. */
  lemma StepKeepsInv(s: System, step: Step)
    requires Inv(s) && Enabled(s, step)
    ensures Inv(Next(s, step))
  {
    match step
    case SendData(k, data) => SendKeepsInv(s, k, data);
    case Resend(machine, i) => ResendKeepsInv(s, machine, i);
    case Take(m) => TakeKeepsInv(s, m);
    case Handle(a) => HandleKeepsInv(s, a);
  }

  predicate IsRun(s: System, steps: seq<Step>)
    decreases |steps|
  {
    steps == [] || (Enabled(s, steps[0]) && IsRun(Next(s, steps[0]), steps[1..]))
  }

  function After(s: System, steps: seq<Step>): (s': System)
    requires IsRun(s, steps)
    decreases |steps|
  {
    if steps == [] then s else After(Next(s, steps[0]), steps[1..])
  }

  lemma {:induction false} RunKeepsInv(s: System, steps: seq<Step>)
    requires Inv(s) && IsRun(s, steps)
    ensures Inv(After(s, steps))
    decreases |steps|
  {
    if steps != [] {
      StepKeepsInv(s, steps[0]);
      RunKeepsInv(Next(s, steps[0]), steps[1..]);
    }
  }

  /** A run goes on with any step that is enabled where it ends. */
  lemma {:induction false} RunExtends(s: System, steps: seq<Step>, step: Step)
    requires IsRun(s, steps) && Enabled(After(s, steps), step)
    ensures IsRun(s, steps + [step]) && After(s, steps + [step]) == Next(After(s, steps), step)
    decreases |steps|
  {
    if steps == [] {
      assert steps + [step] == [step] && [step][1..] == [];
      assert After(Next(s, step), []) == Next(s, step);
    } else {
      assert (steps + [step])[0] == steps[0] && (steps + [step])[1..] == steps[1..] + [step];
      RunExtends(Next(s, steps[0]), steps[1..], step);
    }
  }

  /** In every run no thread processes or queues a message twice, and every message sent is still to be resent
      or has reached its thread, which has recorded it or records it in its next step. */
  lemma {:induction false} AtMostOnceAndNoneLost(steps: seq<Step>)
    requires IsRun(START, steps)
    ensures var s := After(START, steps);
            && (forall a, i, j :: 0 <= i < j < |Thread(s, a).handled| ==> Thread(s, a).handled[i] != Thread(s, a).handled[j])
            && (forall k :: k in s.sent ==> Listed(Unacked(s, k.src.machine), k) || Arrived(Thread(s, k.dst), k))
  {
    assert Inv(START);
    RunKeepsInv(START, steps);
    var s := After(START, steps);
    forall a, i, j | 0 <= i < j < |Thread(s, a).handled| ensures Thread(s, a).handled[i] != Thread(s, a).handled[j] {
      assert ThreadOK(s.sent, a, Thread(s, a));
    }
  }

  /** In every run a thread records what was sent under the key, or nothing under an ambiguous one. */
  lemma {:induction false} RecordedTextIsSent(steps: seq<Step>, a: Address, i: nat)
    requires IsRun(START, steps) && i < |Thread(After(START, steps), a).received|
    ensures var s, m := After(START, steps), Thread(After(START, steps), a).received[i];
            && m.key in s.sent && m.key.dst == a
            && (m.text == s.sent[m.key] || (m.text == "" && Ambiguous(s.sent.Keys, m.key)))
  {
    assert Inv(START);
    RunKeepsInv(START, steps);
    var s := After(START, steps);
    assert ThreadOK(s.sent, a, Thread(s, a));
    assert RightText(s.sent, Thread(s, a).received[i]);
  }

  // ---- nothing is stuck for ever ----

  /** Once a thread has accepted a first contact, it accepts every later message of that sender. */
  lemma AcceptsAfterContact(counters: seq<CounterEntry>, first: Message, data: string, m: Message)
    requires first.text == Frame(0, data) && m.key.src == first.key.src
    ensures Accepts(counters, first) && Accepts(CountReceived(counters, first), m)
  {
    FramedText(0, data);
    var counters' := CountReceived(counters, first);
    var at := FindPeer(counters, first.key.src);
    assert counters'[if at == -1 then |counters| else at].peer == first.key.src;
  }

  /** Two steps take a message to its thread's record: with its own data, unless it is recorded already. */
  lemma TakenIsRecorded(s: System, p: Message)
    requires Inv(s) && Enabled(s, Take(p)) && SentPacket(s.sent, p) && Accepts(Thread(s, p.key.dst).receiveCounters, p)
    ensures var s1 := TakeStep(s, p);
            && Enabled(s1, Handle(p.key.dst))
            && var s2 := HandleStep(s1, p.key.dst);
               && Inv(s2) && Recorded(Thread(s2, p.key.dst), p.key) && Thread(s2, p.key.dst).inHand.None?
               && s2.sent == s.sent && s.network <= s2.network
               && Thread(s2, p.key.dst).receiveCounters == CountReceived(Thread(s, p.key.dst).receiveCounters, p)
               && Thread(s, p.key.dst).received <= Thread(s2, p.key.dst).received
               && (!Recorded(Thread(s, p.key.dst), p.key) ==>
                     Message(p.key, s.sent[p.key]) in Thread(s2, p.key.dst).received)
  {
    var s1, a := TakeStep(s, p), p.key.dst;
    assert ThreadOK(s.sent, a, Thread(s, a));
    DataReads(s.sent, p);
    InHandAfterTake(s.sent, Thread(s, a), p);
    TakeKeepsInv(s, p);
    assert Thread(s1, a) == ThreadAfterTake(Thread(s, a), p) && Thread(s1, a).received == Thread(s, a).received;
    assert ThreadOK(s1.sent, a, Thread(s1, a));
    HandledRecords(s1.sent, a, Thread(s1, a));
    HandleKeepsInv(s1, a);
  }

  /** A message whose counter is rejected for want of a first contact is still recorded after two deliveries: the
      first contact, then the message. So in every reachable state each message sent can be recorded, and with its
      own data if it is not recorded yet. */
  lemma EveryMessageCanStillArrive(s: System, k: Key) returns (steps: seq<Step>)
    requires Inv(s) && k in s.sent && Thread(s, k.dst).inHand.None?
    ensures IsRun(s, steps) && |steps| == 4
    ensures Recorded(Thread(After(s, steps), k.dst), k)
    ensures !Recorded(Thread(s, k.dst), k) ==> Message(k, s.sent[k]) in Thread(After(s, steps), k.dst).received
  {
    var first, p := Deliverable(s, k);
    DeliveredInTurn(s, first, p);
    steps := FourSteps(s, Take(first), Handle(k.dst), Take(p), Handle(k.dst));
  }

  function Delivered(s: System, p: Message): (s': System)
    requires Enabled(s, Take(p)) && Enabled(TakeStep(s, p), Handle(p.key.dst))
  {
    HandleStep(TakeStep(s, p), p.key.dst)
  }

  lemma DeliveredLeaves(s: System, m: Message, a: Address)
    requires Enabled(s, Take(m)) && Enabled(TakeStep(s, m), Handle(m.key.dst))
    ensures a != m.key.dst ==> Thread(Delivered(s, m), a) == Thread(s, a)
    ensures Thread(Delivered(s, m), a).sendCounters == Thread(s, a).sendCounters
  {
    assert a != m.key.dst ==> Thread(TakeStep(s, m), a) == Thread(s, a);
    assert Thread(TakeStep(s, m), m.key.dst) == ThreadAfterTake(Thread(s, m.key.dst), m);
  }

  lemma FirstDelivered(s: System, first: Message, p: Message)
    requires Inv(s) && first in s.network && p in s.network && first.key.dst == p.key.dst
    requires Thread(s, p.key.dst).inHand.None? && SentPacket(s.sent, first)
    requires var counters := Thread(s, p.key.dst).receiveCounters;
             Accepts(counters, first) && Accepts(CountReceived(counters, first), p)
    ensures Enabled(TakeStep(s, first), Handle(p.key.dst))
    ensures var s2 := Delivered(s, first);
            && Inv(s2) && Enabled(s2, Take(p)) && Accepts(Thread(s2, p.key.dst).receiveCounters, p) && s2.sent == s.sent
            && (!Recorded(Thread(s, p.key.dst), p.key) ==>
                 if first.key == p.key then Message(p.key, s.sent[p.key]) in Thread(s2, p.key.dst).received
                 else !Recorded(Thread(s2, p.key.dst), p.key))
  {
    TakenIsRecorded(s, first);
    if first.key != p.key && !Recorded(Thread(s, p.key.dst), p.key) {
      OnlyOneMoreRecorded(s, first, p.key);
    }
  }

  lemma DeliveredInTurn(s: System, first: Message, p: Message)
    requires Inv(s) && first in s.network && p in s.network && first.key.dst == p.key.dst
    requires Thread(s, p.key.dst).inHand.None? && SentPacket(s.sent, first) && SentPacket(s.sent, p)
    requires var counters := Thread(s, p.key.dst).receiveCounters;
             Accepts(counters, first) && Accepts(CountReceived(counters, first), p)
    ensures Enabled(TakeStep(s, first), Handle(p.key.dst)) && Enabled(Delivered(s, first), Take(p))
    ensures Enabled(TakeStep(Delivered(s, first), p), Handle(p.key.dst))
    ensures var t := Thread(Delivered(Delivered(s, first), p), p.key.dst);
            && Recorded(t, p.key)
            && (!Recorded(Thread(s, p.key.dst), p.key) ==> Message(p.key, s.sent[p.key]) in t.received)
  {
    FirstDelivered(s, first, p);
    TakenIsRecorded(Delivered(s, first), p);
  }

  /** Delivering one message records no other. */
  lemma OnlyOneMoreRecorded(s: System, p: Message, k: Key)
    requires Enabled(s, Take(p)) && Enabled(TakeStep(s, p), Handle(p.key.dst)) && p.key != k
    requires !Recorded(Thread(s, p.key.dst), k)
    ensures !Recorded(Thread(Delivered(s, p), p.key.dst), k)
  {
    var t1 := Thread(TakeStep(s, p), p.key.dst);
    assert t1.received == Thread(s, p.key.dst).received && t1.inHand.value.key == p.key;
  }

  /** The two packets: the sender's first contact, and the message itself, which is accepted after it. */
  lemma Deliverable(s: System, k: Key) returns (first: Message, p: Message)
    requires Inv(s) && k in s.sent
    ensures first in s.network && SentPacket(s.sent, first) && first.key.dst == k.dst
    ensures p in s.network && SentPacket(s.sent, p) && p.key == k
    ensures var counters := Thread(s, k.dst).receiveCounters;
            Accepts(counters, first) && Accepts(CountReceived(counters, first), p)
  {
    assert FirstContact(s.network, k.src, k.dst) && OnNetwork(s.network, s.sent, k);
    var data;
    first, data :| first in s.network && first.key.src == k.src && first.key.dst == k.dst && first.text == Frame(0, data);
    p :| p in s.network && p.key == k && SentPacket(s.sent, p);
    AcceptsAfterContact(Thread(s, k.dst).receiveCounters, first, data, p);
    FirstIsSent(s, first, data);
  }

  /** A packet with counter 0 is a message as sent. */
  lemma FirstIsSent(s: System, first: Message, data: string)
    requires Inv(s) && first in s.network && first.text == Frame(0, data)
    ensures SentPacket(s.sent, first)
  {
    FramedText(0, data);
    FramedText(-1, ACK_TEXT);
    assert PacketOK(s.threads, s.sent, first);
    if DataPacket(s.sent, first) {
      DataReads(s.sent, first);
    }
  }

  lemma {:induction false} TwoSteps(s: System, steps: seq<Step>, a: Step, b: Step)
    requires IsRun(s, steps) && Enabled(After(s, steps), a) && Enabled(Next(After(s, steps), a), b)
    ensures IsRun(s, steps + [a, b]) && After(s, steps + [a, b]) == Next(Next(After(s, steps), a), b)
  {
    RunExtends(s, steps, a);
    RunExtends(s, steps + [a], b);
    assert (steps + [a]) + [b] == steps + [a, b];
  }

  lemma FourSteps(s: System, a: Step, b: Step, c: Step, d: Step) returns (steps: seq<Step>)
    requires Enabled(s, a) && Enabled(Next(s, a), b) && Enabled(Next(Next(s, a), b), c)
    requires Enabled(Next(Next(Next(s, a), b), c), d)
    ensures IsRun(s, steps) && |steps| == 4 && After(s, steps) == Next(Next(Next(Next(s, a), b), c), d)
  {
    steps := [];
    TwoSteps(s, steps, a, b);
    steps := steps + [a, b];
    TwoSteps(s, steps, c, d);
    steps := steps + [c, d];
  }
}
