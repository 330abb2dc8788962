/** The post office of a machine and the main loop of a network thread, proved against the message model. */
module PostOffices {
  import opened Options
  import opened Texts
  import opened MessageModel

  /** What a kernel thread keeps for its messages. A network thread also keeps the list of messages received;
      `handled` is the history of those it processed or queued. */
  class NetThread {
    const me: Address
    var sendCounters: seq<CounterEntry>
    var receiveCounters: seq<CounterEntry>
    var received: seq<Message>
    var handled: seq<Key>

    ghost function Value(): Endpoint
      reads this
    {
      Endpoint(sendCounters, receiveCounters, received, None, handled)
    }

    constructor (me: Address)
      ensures this.me == me && Value() == NEW_THREAD
    {
      this.me := me;
      sendCounters, receiveCounters, received, handled := [], [], [], [];
    }

    /** The counter Send puts in front of a new message. */
    method CountSend(peer: Address) returns (counter: int)
      modifies this`sendCounters
      ensures (counter, sendCounters) == NextCounter(old(sendCounters), peer)
    {
      ghost var counters := sendCounters;
      counter := 0;
      var i := 0;
      while i < |sendCounters|
        invariant 0 <= i <= |sendCounters| && sendCounters == counters
        invariant FindPeer(counters, peer) == FindPeer(counters, peer, i)
      {
        if sendCounters[i].peer == peer {
          counter := sendCounters[i].counter + 1;
          sendCounters := sendCounters[i := CounterEntry(peer, counter)];
          return;
        }
        i := i + 1;
      }
      sendCounters := sendCounters + [CounterEntry(peer, 0)];
    }

    /** The search of Receive through the counters, for a counter that is not negative. */
    method CountReceive(m: Message, counter: int) returns (success: bool)
      requires counter == ParseValue(m.text, 0).0
      modifies this`receiveCounters
      ensures success == Accepts(old(receiveCounters), m) && receiveCounters == CountReceived(old(receiveCounters), m)
    {
      ghost var counters := receiveCounters;
      success := false;
      var found := false;
      if counter >= 0 {
        var i := 0;
        while i < |receiveCounters|
          invariant 0 <= i <= |receiveCounters| && receiveCounters == counters && !found && !success
          invariant FindPeer(counters, m.key.src) == FindPeer(counters, m.key.src, i)
        {
          if receiveCounters[i].peer == m.key.src {
            found := true;
            success := true;
            if receiveCounters[i].counter + 1 == counter {
              receiveCounters := receiveCounters[i := CounterEntry(m.key.src, receiveCounters[i].counter + 1)];
            }
            break;
          }
          i := i + 1;
        }
      }
      if !found {
        if counter == 0 {
          success := true;
          receiveCounters := receiveCounters + [CounterEntry(m.key.src, 0)];
        } else if counter < 0 {
          success := true;
        }
      }
    }

    method MessageIsRedundant(k: Key) returns (redundant: bool)
      ensures redundant <==> FindKey(received, k) != -1
    {
      var i := 0;
      while i < |received|
        invariant 0 <= i <= |received| && FindKey(received, k) == FindKey(received, k, i)
      {
        if received[i].key == k {
          return true;
        }
        i := i + 1;
      }
      return false;
    }
  }

  const RESEND_TIMEOUT := 2

  class PostOffice {
    const netAddr: int
    /** The unacknowledged messages, no two under one key, and the second each was last sent at. */
    var unAcked: seq<Message>
    var lastSent: seq<int>

    ghost predicate Valid()
      reads this
    {
      |lastSent| == |unAcked| && DistinctKeys(unAcked)
    }

    constructor (addr: int)
      ensures Valid() && netAddr == addr && unAcked == []
    {
      netAddr := addr;
      unAcked, lastSent := [], [];
    }

    /** Drops entry `at`, if there is one. */
    method Erase(at: int)
      requires Valid() && (at == -1 || 0 <= at < |unAcked|)
      modifies this`unAcked, this`lastSent
      ensures Valid() && unAcked == WithoutAt(old(unAcked), at) && lastSent == TimesWithout(old(lastSent), at)
    {
      WithoutAtStaysDistinct(unAcked, at);
      if at != -1 {
        unAcked := unAcked[..at] + unAcked[at + 1..];
        lastSent := lastSent[..at] + lastSent[at + 1..];
      }
    }

    method IndexOf(k: Key) returns (at: int)
      ensures at == FindKey(unAcked, k)
    {
      var i := 0;
      while i < |unAcked|
        invariant 0 <= i <= |unAcked| && FindKey(unAcked, k) == FindKey(unAcked, k, i)
      {
        if unAcked[i].key == k {
          return i;
        }
        i := i + 1;
      }
      return -1;
    }

    /** Gives the packet that goes to the network. A message on the list was last sent now; a new one is listed with
        its own timestamp. */
    method SendMail(thread: NetThread, k: Key, data: string, doAck: bool, now: int) returns (packet: Message)
      requires Valid()
      modifies this`unAcked, this`lastSent, thread`sendCounters
      ensures Valid()
      ensures Sending(unAcked, thread.sendCounters, packet) == Send(old(unAcked), old(thread.sendCounters), k, data, doAck)
      ensures lastSent == TimesAfterSend(old(unAcked), old(lastSent), k, doAck, now)
    {
      var at := IndexOf(k);
      if at != -1 {
        lastSent := lastSent[at := now];
        return Message(k, data);
      }
      var counter := -1;
      if doAck {
        counter := thread.CountSend(k.dst);
      }
      packet := Message(k, Frame(counter, data));
      if doAck {
        unAcked, lastSent := unAcked + [packet], lastSent + [k.time.sec];
      }
    }

    /** Takes mails from the box until one is accepted; with none left the thread would wait. */
    method Receive(thread: NetThread, box: seq<Message>) returns (n: nat, success: bool, data: string)
      modifies thread`receiveCounters
      ensures n <= |box| && (success ==> n > 0) && (!success ==> n == |box|)
      ensures forall j :: 0 <= j < (if success then n - 1 else n) ==> !Accepts(old(thread.receiveCounters), box[j])
      ensures !success ==> thread.receiveCounters == old(thread.receiveCounters)
      ensures success ==>
        && Accepts(old(thread.receiveCounters), box[n - 1]) && data == DataOf(box[n - 1].text)
        && thread.receiveCounters == CountReceived(old(thread.receiveCounters), box[n - 1])
    {
      n, success, data := 0, false, "";
      while !success && n < |box|
        invariant n <= |box|
        invariant forall j :: 0 <= j < (if success then n - 1 else n) ==> !Accepts(old(thread.receiveCounters), box[j])
        invariant !success ==> thread.receiveCounters == old(thread.receiveCounters)
        invariant success ==>
          && n > 0
          && Accepts(old(thread.receiveCounters), box[n - 1]) && data == DataOf(box[n - 1].text)
          && thread.receiveCounters == CountReceived(old(thread.receiveCounters), box[n - 1])
        decreases |box| - n
      {
        var m := box[n];
        var (counter, index) := ParseValue(m.text, 0);
        data := if index <= |m.text| then m.text[index..] else "";
        success := thread.CountReceive(m, counter);
        n := n + 1;
      }
    }

    /** Drops the entry that an ack answers. */
    method ProcessAck(ack: Key) returns (found: bool)
      requires Valid()
      modifies this`unAcked, this`lastSent
      ensures Valid() && unAcked == WithoutKey(old(unAcked), Reverse(ack))
      ensures lastSent == TimesWithout(old(lastSent), FindKey(old(unAcked), Reverse(ack)))
      ensures found <==> FindKey(old(unAcked), Reverse(ack)) != -1
    {
      var at := IndexOf(Reverse(ack));
      found := at != -1;
      Erase(at);
    }

    /** Acknowledges a message: by dropping its entry here when its sender is the thread itself or its pair, by a
        packet otherwise. */
    method Ack(thread: NetThread, k: Key, now: int) returns (acks: set<Message>)
      requires Valid()
      modifies this`unAcked, this`lastSent, thread`sendCounters
      ensures Valid() && thread.sendCounters == old(thread.sendCounters)
      ensures IsLocal(thread.me, k.src) ==>
        && unAcked == WithoutKey(old(unAcked), k) && acks == {}
        && lastSent == TimesWithout(old(lastSent), FindKey(old(unAcked), k))
      ensures !IsLocal(thread.me, k.src) ==>
        && unAcked == old(unAcked)
        && acks == {Send(old(unAcked), [], AckKey(thread.me, k), ACK_TEXT, false).packet}
        && lastSent == TimesAfterSend(old(unAcked), old(lastSent), AckKey(thread.me, k), false, now)
    {
      acks := {};
      if k.src.machine == thread.me.machine
         && (k.src.mail == thread.me.mail || k.src.mail == thread.me.mail + 1 || k.src.mail == thread.me.mail - 1)
      {
        var at := IndexOf(k);
        Erase(at);
      } else {
        var packet := SendMail(thread, AckKey(thread.me, k), "29_", false, now);
        acks := {packet};
      }
    }

    /** One turn of the main loop, on the thread's mailbox: receive, then process an ack, or acknowledge, drop a
        message received before, and otherwise record it and process or queue it. Packets go out in `acks`. */
    method Turn(thread: NetThread, box: seq<Message>, now: int) returns (n: nat, received: bool, acks: set<Message>)
      requires Valid() && forall j :: 0 <= j < |box| ==> box[j].key.dst == thread.me
      modifies this`unAcked, this`lastSent, thread
      ensures Valid() && n <= |box| && (received ==> n > 0)
      ensures forall j :: 0 <= j < (if received then n - 1 else n) ==> Taking(old(thread.receiveCounters), box[j]) == Discarded
      ensures !received ==> n == |box| && acks == {} && unAcked == old(unAcked) && thread.Value() == old(thread.Value())
      ensures received ==>
        var m, t, counters := box[n - 1], old(thread.Value()), old(thread.receiveCounters);
        && Taking(counters, m) != Discarded
        && unAcked == ListAfterTake(old(unAcked), counters, m) && acks == AcksOfTake(old(unAcked), counters, m)
        && thread.Value() == if Taking(counters, m) == IsAck then ThreadAfterTake(t, m) else Handled(ThreadAfterTake(t, m))
    {
      var data;
      acks := {};
      n, received, data := Receive(thread, box);
      if !received {
        return;
      }
      var m := box[n - 1];
      var requestType, next := ParseType(data);
      if requestType == ACK {
        var found := ProcessAck(m.key);
        return;
      }
      acks := Ack(thread, m.key, now);
      var redundant := thread.MessageIsRedundant(m.key);
      if redundant {
        return;
      }
      thread.received := thread.received + [Message(m.key, data)];
      thread.handled := thread.handled + [m.key];
    }

    method ParseType(data: string) returns (requestType: int, next: nat)
      ensures requestType == RequestType(data)
    {
      var r := ParseValue(data, 0);
      return r.0, r.1;
    }

    /** One pass of the resend thread: exactly the entries last sent more than two seconds ago go out again, and
        count as sent now. */
    method ResendOverdue(thread: NetThread, now: int) returns (packets: seq<Message>)
      requires Valid()
      modifies this`unAcked, this`lastSent, thread`sendCounters
      ensures Valid() && unAcked == old(unAcked) && thread.sendCounters == old(thread.sendCounters)
      ensures forall i :: 0 <= i < |unAcked| ==>
        lastSent[i] == if Overdue(old(lastSent[i]), now) then now else old(lastSent[i])
      ensures packets == OverdueEntries(unAcked, old(lastSent), now, |unAcked|)
    {
      packets := [];
      ghost var list, times := unAcked, lastSent;
      var i := 0;
      while i < |unAcked|
        invariant 0 <= i <= |list| && Valid() && unAcked == list && thread.sendCounters == old(thread.sendCounters)
        invariant forall j :: 0 <= j < |list| ==> lastSent[j] == if j < i && Overdue(times[j], now) then now else times[j]
        invariant packets == OverdueEntries(list, times, now, i)
      {
        if now - lastSent[i] > RESEND_TIMEOUT {
          FoundAtItsIndex(list, i);
          var packet := SendMail(thread, unAcked[i].key, unAcked[i].text, true, now);
          packets := packets + [packet];
        }
        i := i + 1;
      }
    }
  }

  // ---- the times of the entries ----

  predicate Overdue(lastSent: int, now: int) { now - lastSent > RESEND_TIMEOUT }

  function TimesWithout(times: seq<int>, at: int): (r: seq<int>)
    requires at == -1 || 0 <= at < |times|
  {
    if at == -1 then times else times[..at] + times[at + 1..]
  }

  function TimesAfterSend(unAcked: seq<Message>, times: seq<int>, k: Key, doAck: bool, now: int): (r: seq<int>)
    requires |times| == |unAcked|
  {
    var at := FindKey(unAcked, k);
    if at != -1 then times[at := now] else if doAck then times + [k.time.sec] else times
  }

  lemma {:induction false} FoundAtItsIndex(list: seq<Message>, i: nat)
    requires DistinctKeys(list) && i < |list|
    ensures FindKey(list, list[i].key) == i
  {
    var at := FindKey(list, list[i].key);
    assert at != -1;
  }

  /** The overdue entries among the first n, in order. */
  function OverdueEntries(list: seq<Message>, times: seq<int>, now: int, n: nat): (r: seq<Message>)
    requires n <= |list| == |times|
  {
    if n == 0 then []
    else OverdueEntries(list, times, now, n - 1) + if Overdue(times[n - 1], now) then [list[n - 1]] else []
  }

  /** They are the entries at exactly the overdue positions, each once and in order. */
  lemma {:induction false} OverdueEntriesAre(list: seq<Message>, times: seq<int>, now: int, n: nat) returns (at: seq<nat>)
    requires n <= |list| == |times|
    ensures |OverdueEntries(list, times, now, n)| == |at| && forall j :: 0 <= j < |at| ==> at[j] < n
    ensures forall j :: 0 <= j < |at| ==> OverdueEntries(list, times, now, n)[j] == list[at[j]]
    ensures forall j, k :: 0 <= j < k < |at| ==> at[j] < at[k]
    ensures forall i: nat :: i in at <==> i < n && now - times[i] > 2
  {
    at := [];
    if n > 0 {
      at := OverdueEntriesAre(list, times, now, n - 1);
      if Overdue(times[n - 1], now) {
        at := at + [n - 1];
      }
    }
  }
}
