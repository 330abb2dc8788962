/** The counters number the messages from each thread to each other consecutively, and a receiver that gets them in
    order keeps the same numbers. */
module MessageCounters {
  import opened Texts
  import opened MessageModel

  function TimesIn(peers: seq<Address>, a: Address): (n: nat) { multiset(peers)[a] }

  lemma OneMoreTime(peers: seq<Address>, a: Address)
    requires peers != []
    ensures var last := |peers| - 1;
            TimesIn(peers, a) == TimesIn(peers[..last], a) + if peers[last] == a then 1 else 0
  {
    assert peers == peers[..|peers| - 1] + [peers[|peers| - 1]];
  }

  /** The counters agree with the numbers of messages: none for a peer without any, else the last one's number. */
  ghost predicate Numbers(counters: seq<CounterEntry>, peers: seq<Address>) {
    forall a :: var i := FindPeer(counters, a);
                if TimesIn(peers, a) == 0 then i == -1 else i != -1 && counters[i].counter == TimesIn(peers, a) - 1
  }

  /** Writing the entry of one peer, or adding it, leaves the others found as before. */
  lemma OtherPeers(counters: seq<CounterEntry>, peer: Address, n: int, a: Address)
    ensures var i := FindPeer(counters, peer);
            var counters' := if i == -1 then counters + [CounterEntry(peer, n)] else counters[i := CounterEntry(peer, n)];
            var j := FindPeer(counters', a);
            if a == peer then j != -1 && counters'[j].counter == n
            else j == FindPeer(counters, a) && (j != -1 ==> counters'[j] == counters[j])
  {
    var i := FindPeer(counters, peer);
    var counters' := if i == -1 then counters + [CounterEntry(peer, n)] else counters[i := CounterEntry(peer, n)];
    var at := if i == -1 then |counters| else i;
    assert counters'[at] == CounterEntry(peer, n);
    assert forall k :: 0 <= k < |counters| ==> counters'[k].peer == counters[k].peer;
  }

  // ---- sending ----

  function AfterSends(peers: seq<Address>): (counters: seq<CounterEntry>) {
    if peers == [] then []
    else NextCounter(AfterSends(peers[..|peers| - 1]), peers[|peers| - 1]).1
  }

  lemma {:induction false} SendsAreNumbered(peers: seq<Address>)
    ensures Numbers(AfterSends(peers), peers)
  {
    if peers != [] {
      var before, peer := peers[..|peers| - 1], peers[|peers| - 1];
      SendsAreNumbered(before);
      var counters := AfterSends(before);
      forall a ensures var i := FindPeer(AfterSends(peers), a);
                       if TimesIn(peers, a) == 0 then i == -1
                       else i != -1 && AfterSends(peers)[i].counter == TimesIn(peers, a) - 1
      {
        OneMoreTime(peers, a);
        OneMoreTime(peers, peer);
        OtherPeers(counters, peer, TimesIn(before, peer), a);
      }
    }
  }

  /** Whatever else a thread has sent to whom, its next message to a peer carries the number of those before it. */
  lemma {:induction false} NextCounterIsNumberSent(peers: seq<Address>, peer: Address)
    ensures NextCounter(AfterSends(peers), peer).0 == TimesIn(peers, peer)
  {
    SendsAreNumbered(peers);
  }

  // ---- receiving ----

  function Senders(mails: seq<Message>): (r: seq<Address>)
    ensures |r| == |mails| && forall i :: 0 <= i < |r| ==> r[i] == mails[i].key.src
  {
    seq(|mails|, i requires 0 <= i < |mails| => mails[i].key.src)
  }

  function AfterMails(mails: seq<Message>): (counters: seq<CounterEntry>) {
    if mails == [] then [] else CountReceived(AfterMails(mails[..|mails| - 1]), mails[|mails| - 1])
  }

  predicate NumberedAt(mails: seq<Message>, i: nat)
    requires i < |mails|
  {
    ParseValue(mails[i].text, 0).0 == TimesIn(Senders(mails[..i]), mails[i].key.src)
  }

  /** Each mail carries the number of earlier mails of its sender: none is lost, repeated or overtaken. */
  ghost predicate InSendOrder(mails: seq<Message>) {
    forall i :: 0 <= i < |mails| ==> NumberedAt(mails, i)
  }

  lemma PrefixInOrder(mails: seq<Message>, n: nat)
    requires InSendOrder(mails) && n <= |mails|
    ensures InSendOrder(mails[..n])
  {
    forall i | 0 <= i < n ensures NumberedAt(mails[..n], i) {
      assert mails[..n][..i] == mails[..i] && NumberedAt(mails, i);
    }
  }

  lemma {:induction false} MailsAreNumbered(mails: seq<Message>)
    requires InSendOrder(mails)
    ensures Numbers(AfterMails(mails), Senders(mails))
    decreases |mails|
  {
    if mails != [] {
      var n := |mails| - 1;
      PrefixInOrder(mails, n);
      MailsAreNumbered(mails[..n]);
      assert NumberedAt(mails, n) && Senders(mails)[..n] == Senders(mails[..n]);
      MailCounted(AfterMails(mails[..n]), Senders(mails[..n]), mails[n], Senders(mails));
    }
  }

  /** Mails of any senders in their order of sending are all accepted, and leave the receiver with the senders' numbers. */
  lemma {:induction false} InOrderIsAccepted(mails: seq<Message>)
    requires InSendOrder(mails)
    ensures Numbers(AfterMails(mails), Senders(mails))
    ensures forall i :: 0 <= i < |mails| ==> Accepts(AfterMails(mails[..i]), mails[i])
  {
    MailsAreNumbered(mails);
    forall i | 0 <= i < |mails| ensures Accepts(AfterMails(mails[..i]), mails[i]) {
      PrefixInOrder(mails, i);
      MailsAreNumbered(mails[..i]);
      assert NumberedAt(mails, i);
    }
  }

  lemma MailCounted(counters: seq<CounterEntry>, before: seq<Address>, m: Message, senders: seq<Address>)
    requires Numbers(counters, before) && ParseValue(m.text, 0).0 == TimesIn(before, m.key.src)
    requires senders != [] && senders[..|senders| - 1] == before && senders[|senders| - 1] == m.key.src
    ensures Accepts(counters, m) && Numbers(CountReceived(counters, m), senders)
  {
    forall a ensures var i := FindPeer(CountReceived(counters, m), a);
                     if TimesIn(senders, a) == 0 then i == -1
                     else i != -1 && CountReceived(counters, m)[i].counter == TimesIn(senders, a) - 1
    {
      OneMoreTime(senders, a);
      OneMoreTime(senders, m.key.src);
      OtherPeers(counters, m.key.src, TimesIn(before, m.key.src), a);
    }
  }

  /** A first mail of the thread came: its number is 0. */
  predicate Contacted(mails: seq<Message>, peer: Address) {
    exists i :: 0 <= i < |mails| && FirstOf(mails[i], peer)
  }

  predicate FirstOf(m: Message, peer: Address) { m.key.src == peer && ParseValue(m.text, 0).0 == 0 }

  lemma {:induction false} CountedIff(counters: seq<CounterEntry>, m: Message, peer: Address)
    ensures FindPeer(CountReceived(counters, m), peer) != -1 <==> FindPeer(counters, peer) != -1 || FirstOf(m, peer)
  {
    OtherPeers(counters, m.key.src, ParseValue(m.text, 0).0, peer);
  }

  lemma OneMoreMail(mails: seq<Message>, peer: Address)
    requires mails != []
    ensures Contacted(mails, peer) <==> Contacted(mails[..|mails| - 1], peer) || FirstOf(mails[|mails| - 1], peer)
  {
    var before := mails[..|mails| - 1];
    assert forall i :: 0 <= i < |before| ==> before[i] == mails[i];
  }

  lemma {:induction false} KnownIffContacted(mails: seq<Message>, peer: Address)
    ensures FindPeer(AfterMails(mails), peer) != -1 <==> Contacted(mails, peer)
    decreases |mails|
  {
    if mails != [] {
      var n := |mails| - 1;
      KnownIffContacted(mails[..n], peer);
      CountedIff(AfterMails(mails[..n]), mails[n], peer);
      OneMoreMail(mails, peer);
    }
  }

  /** After mails in any order, lost or repeated, the next one is discarded exactly when it has a number above 0 and no
      first mail of its sender has come. */
  lemma {:induction false} DiscardedIff(mails: seq<Message>, m: Message)
    ensures !Accepts(AfterMails(mails), m) <==> ParseValue(m.text, 0).0 > 0 && !Contacted(mails, m.key.src)
  {
    KnownIffContacted(mails, m.key.src);
  }

  /** A mail that comes early or again changes no counter. */
  lemma OutOfOrderChangesNothing(counters: seq<CounterEntry>, senders: seq<Address>, m: Message)
    requires Numbers(counters, senders)
    ensures CountReceived(counters, m) == counters <==> ParseValue(m.text, 0).0 != TimesIn(senders, m.key.src)
  {
    var counter, i := ParseValue(m.text, 0).0, FindPeer(counters, m.key.src);
    if i != -1 && counter == TimesIn(senders, m.key.src) {
      assert CountReceived(counters, m)[i] != counters[i];
    }
    if i == -1 && counter == 0 {
      assert |CountReceived(counters, m)| > |counters|;
    }
  }
}
