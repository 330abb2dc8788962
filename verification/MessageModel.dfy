/** Reliable messages over a lossy network: what Send, Receive, Ack and processAck do to the lists and counters. */
module MessageModel {
  import opened Options
  import opened Texts

  const ACK := 29
  const TIMESTAMP := 30
  const ACK_TEXT := "29_"

  datatype Address = Address(machine: int, mail: int)

  datatype Time = Time(sec: int, usec: int)

  /** The fields a message is recognised by: both addresses and the sender's timestamp. */
  datatype Key = Key(src: Address, dst: Address, time: Time)

  /** A packet, a mail in a box, or an entry of the unacked list or of the list of received messages. */
  datatype Message = Message(key: Key, text: string)

  datatype CounterEntry = CounterEntry(peer: Address, counter: int)

  function Reverse(k: Key): (r: Key)
    ensures r == k <==> k.src == k.dst
  {
    Key(k.dst, k.src, k.time)
  }

  function FindKey(list: seq<Message>, k: Key, from: nat := 0): (i: int)
    requires from <= |list|
    ensures i == -1 || from <= i < |list|
    ensures i == -1 ==> forall j :: from <= j < |list| ==> list[j].key != k
    ensures i != -1 ==> list[i].key == k && forall j :: from <= j < i ==> list[j].key != k
    decreases |list| - from
  {
    if from == |list| then -1 else if list[from].key == k then from else FindKey(list, k, from + 1)
  }

  predicate DistinctKeys(list: seq<Message>) {
    forall i, j :: 0 <= i < j < |list| ==> list[i].key != list[j].key
  }

  function FindPeer(counters: seq<CounterEntry>, peer: Address, from: nat := 0): (i: int)
    requires from <= |counters|
    ensures i == -1 || from <= i < |counters|
    ensures i == -1 ==> forall j :: from <= j < |counters| ==> counters[j].peer != peer
    ensures i != -1 ==> counters[i].peer == peer && forall j :: from <= j < i ==> counters[j].peer != peer
    decreases |counters| - from
  {
    if from == |counters| then -1
    else if counters[from].peer == peer then from
    else FindPeer(counters, peer, from + 1)
  }

  function WithoutAt(list: seq<Message>, i: int): (r: seq<Message>)
    requires i == -1 || 0 <= i < |list|
  {
    if i == -1 then list else list[..i] + list[i + 1..]
  }

  lemma WithoutAtStaysDistinct(list: seq<Message>, at: int)
    requires DistinctKeys(list) && (at == -1 || 0 <= at < |list|)
    ensures DistinctKeys(WithoutAt(list, at))
  {
    var list' := WithoutAt(list, at);
    forall i, j | 0 <= i < j < |list'| ensures list'[i].key != list'[j].key {
      if at != -1 {
        assert list'[i] == list[if i < at then i else i + 1] && list'[j] == list[if j < at then j else j + 1];
      }
    }
  }

  // ---- PostOffice::Send ----

  datatype Sending = Sending(unacked: seq<Message>, counters: seq<CounterEntry>, packet: Message)

  /** The counter for the next message to `peer`, and the counters after it. */
  function NextCounter(counters: seq<CounterEntry>, peer: Address): (r: (int, seq<CounterEntry>)) {
    var i := FindPeer(counters, peer);
    if i == -1 then (0, counters + [CounterEntry(peer, 0)])
    else (counters[i].counter + 1, counters[i := CounterEntry(peer, counters[i].counter + 1)])
  }

  /** A message already on the list goes out as it is; a new one gets a counter in front, and is listed unless
      it is an ack, whose counter is -1. */
  function Send(unacked: seq<Message>, counters: seq<CounterEntry>, k: Key, data: string, doAck: bool): (r: Sending) {
    if FindKey(unacked, k) != -1 then Sending(unacked, counters, Message(k, data))
    else if !doAck then Sending(unacked, counters, Message(k, Frame(-1, data)))
    else
      var (counter, counters') := NextCounter(counters, k.dst);
      var m := Message(k, Frame(counter, data));
      Sending(unacked + [m], counters', m)
  }

  // ---- PostOffice::Receive ----

  /** Everything after the counter. */
  function DataOf(text: string): (data: string) {
    var next := ParseValue(text, 0).1;
    if next <= |text| then text[next..] else ""
  }

  function RequestType(data: string): (t: int) { ParseValue(data, 0).0 }

  /** Whether Receive returns a mail, or discards it and waits for the next: it discards a counter above 0
      from a thread it has accepted nothing from. */
  predicate Accepts(counters: seq<CounterEntry>, m: Message) {
    var counter := ParseValue(m.text, 0).0;
    counter <= 0 || FindPeer(counters, m.key.src) != -1
  }

  function CountReceived(counters: seq<CounterEntry>, m: Message): (r: seq<CounterEntry>) {
    var counter, i := ParseValue(m.text, 0).0, FindPeer(counters, m.key.src);
    if counter < 0 then counters
    else if i != -1 then
      if counters[i].counter + 1 == counter then counters[i := CounterEntry(m.key.src, counter)] else counters
    else if counter == 0 then counters + [CounterEntry(m.key.src, 0)]
    else counters
  }

  // ---- Ack and processAck ----

  /** The sender is the thread itself or its pair on the same machine: acked without a packet. */
  predicate IsLocal(me: Address, src: Address) {
    src.machine == me.machine && (src.mail == me.mail || src.mail == me.mail + 1 || src.mail == me.mail - 1)
  }

  /** The list without the first entry for the key. */
  function WithoutKey(unacked: seq<Message>, k: Key): (r: seq<Message>) {
    WithoutAt(unacked, FindKey(unacked, k))
  }

  function AckKey(me: Address, k: Key): Key { Key(me, k.src, k.time) }

  // ---- the system: machines, threads, and every packet ever sent ----

  /** A thread. `handled` is the history of the messages it processed or queued. */
  datatype Endpoint = Endpoint(sendCounters: seq<CounterEntry>, receiveCounters: seq<CounterEntry>,
                               received: seq<Message>, inHand: Option<Message>, handled: seq<Key>)

  /** `sent` is the history of the data sent under each key. */
  datatype System = System(unacked: Lists, threads: Threads, network: set<Message>, sent: Sent)

  type Sent = map<Key, string>

  const NEW_THREAD := Endpoint([], [], [], None, [])

  type Lists = map<int, seq<Message>>

  type Threads = map<Address, Endpoint>

  function ListOf(lists: Lists, machine: int): seq<Message> { if machine in lists then lists[machine] else [] }

  function ThreadOf(threads: Threads, a: Address): Endpoint { if a in threads then threads[a] else NEW_THREAD }

  function Unacked(s: System, machine: int): seq<Message> { ListOf(s.unacked, machine) }

  function Thread(s: System, a: Address): Endpoint { ThreadOf(s.threads, a) }

  const START := System(map[], map[], {}, map[])

  /** A thread sends a message of its own. */
  function SendStep(s: System, k: Key, data: string): (s': System) {
    var t := Thread(s, k.src);
    var r := Send(Unacked(s, k.src.machine), t.sendCounters, k, data, true);
    System(s.unacked[k.src.machine := r.unacked], s.threads[k.src := t.(sendCounters := r.counters)],
           s.network + {r.packet}, s.sent[k := data])
  }

  /** The resend thread sends one entry of its machine's list again. */
  function ResendStep(s: System, machine: int, i: nat): (s': System)
    requires i < |Unacked(s, machine)|
  {
    var m := Unacked(s, machine)[i];
    var r := Send(Unacked(s, machine), [], m.key, m.text, true);
    s.(network := s.network + {r.packet})
  }

  /** What becomes of a mail that a network thread takes. */
  datatype Taken = Discarded | IsAck | ToHandle(data: string)

  function Taking(counters: seq<CounterEntry>, m: Message): (r: Taken) {
    if !Accepts(counters, m) then Discarded
    else if RequestType(DataOf(m.text)) == ACK then IsAck
    else ToHandle(DataOf(m.text))
  }

  /** The unacked list of the machine once the mail is taken: an ack drops the entry it answers, and a mail from
      the thread itself or its pair drops its own. */
  function ListAfterTake(unacked: seq<Message>, counters: seq<CounterEntry>, m: Message): (r: seq<Message>) {
    match Taking(counters, m)
    case Discarded => unacked
    case IsAck => WithoutKey(unacked, Reverse(m.key))
    case ToHandle(_) => if IsLocal(m.key.dst, m.key.src) then WithoutKey(unacked, m.key) else unacked
  }

  /** The acks that go out. */
  function AcksOfTake(unacked: seq<Message>, counters: seq<CounterEntry>, m: Message): (r: set<Message>) {
    match Taking(counters, m)
    case ToHandle(_) =>
      if IsLocal(m.key.dst, m.key.src) then {}
      else {Send(unacked, [], AckKey(m.key.dst, m.key), ACK_TEXT, false).packet}
    case _ => {}
  }

  function ThreadAfterTake(t: Endpoint, m: Message): (r: Endpoint) {
    var t' := t.(receiveCounters := CountReceived(t.receiveCounters, m));
    match Taking(t.receiveCounters, m)
    case ToHandle(data) => t'.(inHand := Some(Message(m.key, data)))
    case _ => t'
  }

  /** A network thread takes a mail: it is discarded, is an ack to process, or is acked and in hand. */
  function TakeStep(s: System, m: Message): (s': System) {
    var me := m.key.dst;
    var t, unacked := Thread(s, me), Unacked(s, me.machine);
    s.(threads := s.threads[me := ThreadAfterTake(t, m)],
       unacked := s.unacked[me.machine := ListAfterTake(unacked, t.receiveCounters, m)],
       network := s.network + AcksOfTake(unacked, t.receiveCounters, m))
  }

  /** The thread drops the message in hand if it has it already, or records it and processes or queues it. */
  function Handled(t: Endpoint): (t': Endpoint)
    requires t.inHand.Some?
  {
    var m := t.inHand.value;
    if FindKey(t.received, m.key) != -1 then t.(inHand := None)
    else t.(inHand := None, received := t.received + [m], handled := t.handled + [m.key])
  }

  function HandleStep(s: System, me: Address): (s': System)
    requires Thread(s, me).inHand.Some?
  {
    s.(threads := s.threads[me := Handled(Thread(s, me))])
  }
}
