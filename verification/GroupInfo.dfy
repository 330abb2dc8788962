/** The registration server's member list as GROUPINFO messages, and the network threads' parsing of them. */
module GroupInfo {
  import opened BitMaps
  import opened Texts

  const GROUPINFO := 28
  const THREADS_PER_MESSAGE := 8

  datatype Member = Member(machineID: nat, mailID: nat)

  /** sprintf("%1d%02d") */
  function MemberText(m: Member): (s: string) {
    IntText(m.machineID) + (if m.mailID < 10 then "0" else "") + IntText(m.mailID)
  }

  /** One digit for the machine and two for the mailbox are enough. */
  predicate Fits(m: Member) { m.machineID < 10 && m.mailID < 100 }

  predicate AllFit(members: seq<Member>) {
    forall i :: 0 <= i < |members| ==> Fits(members[i])
  }

  function GroupText(members: seq<Member>): (s: string) {
    if members == [] then "" else MemberText(members[0]) + GroupText(members[1..])
  }

  function Min(a: nat, b: nat): (m: nat) { if a < b then a else b }

  /** What the server sends: at most eight members a message. */
  function GroupMessages(members: seq<Member>): (msgs: seq<string>) {
    if members == [] then []
    else
      var n := Min(THREADS_PER_MESSAGE, |members|);
      [Frame(GROUPINFO, GroupText(members[..n]))] + GroupMessages(members[n..])
  }

  /** The member read from three characters at `i`; the text's terminator ends a number early. */
  function MemberAt(text: string, i: nat): (r: (int, int))
    requires i < |text|
  {
    (Atoi([text[i]]), Atoi(text[i + 1..Min(i + 3, |text|)]))
  }

  function ParseMembers(text: string, i: nat): (ms: seq<(int, int)>)
    decreases |text| - i
  {
    if i >= |text| then [] else [MemberAt(text, i)] + ParseMembers(text, i + 3)
  }

  function ParseGroup(msg: string): (ms: seq<(int, int)>) {
    ParseMembers(msg, ParseValue(msg, 0).1)
  }

  function ParseAll(msgs: seq<string>): (ms: seq<(int, int)>) {
    if msgs == [] then [] else ParseGroup(msgs[0]) + ParseAll(msgs[1..])
  }

  function Pairs(members: seq<Member>): (ps: seq<(int, int)>)
    ensures |ps| == |members| && forall i :: 0 <= i < |ps| ==> ps[i] == (members[i].machineID, members[i].mailID)
  {
    seq(|members|, i requires 0 <= i < |members| => (members[i].machineID as int, members[i].mailID as int))
  }

  // ---- the loops ----

  lemma FirstMoves<T>(before: seq<T>, first: T, rest: seq<T>)
    ensures before + ([first] + rest) == (before + [first]) + rest
  {
  }

  /** The server's loop over its list. */
  method BuildMessages(members: seq<Member>) returns (msgs: seq<string>)
    ensures msgs == GroupMessages(members)
  {
    ghost var all := GroupMessages(members);
    msgs := [];
    var i := 0;
    assert members[i..] == members;
    while i < |members|
      invariant 0 <= i <= |members|
      invariant msgs + GroupMessages(members[i..]) == all
    {
      var text, next := BuildMessage(members, i);
      FirstMoves(msgs, text, GroupMessages(members[next..]));
      msgs := msgs + [text];
      i := next;
    }
    assert GroupMessages(members[i..]) == [];
  }

  /** The inner loop: one message, for the next members. */
  method BuildMessage(members: seq<Member>, start: nat) returns (text: string, i: nat)
    requires start < |members|
    ensures start < i <= |members|
    ensures GroupMessages(members[start..]) == [text] + GroupMessages(members[i..])
  {
    var body;
    body, i := CollectMembers(members, start);
    text := Frame(GROUPINFO, body);
    MessageCut(members, start, i);
  }

  method CollectMembers(members: seq<Member>, start: nat) returns (body: string, i: nat)
    requires start < |members|
    ensures start < i <= |members| && i == Min(start + THREADS_PER_MESSAGE, |members|)
    ensures body == GroupText(members[start..i])
  {
    var j := 0;
    body, i := "", start;
    assert members[start..i] == [];
    while j < THREADS_PER_MESSAGE && i < |members|
      invariant 0 <= j <= THREADS_PER_MESSAGE && i == start + j <= |members|
      invariant body == GroupText(members[start..i])
    {
      MemberAdded(members, start, i);
      body := body + MemberText(members[i]);
      i, j := i + 1, j + 1;
    }
  }

  lemma MessageCut(members: seq<Member>, start: nat, i: nat)
    requires start < i == Min(start + THREADS_PER_MESSAGE, |members|)
    ensures GroupMessages(members[start..]) == [Frame(GROUPINFO, GroupText(members[start..i]))] + GroupMessages(members[i..])
  {
    var rest, j := members[start..], i - start;
    FirstMessage(rest, j);
    assert rest[..j] == members[start..i] && rest[j..] == members[i..];
  }

  lemma {:induction false} FirstMessage(rest: seq<Member>, j: nat)
    requires rest != [] && j == Min(THREADS_PER_MESSAGE, |rest|)
    ensures GroupMessages(rest) == [Frame(GROUPINFO, GroupText(rest[..j]))] + GroupMessages(rest[j..])
  {
  }

  lemma MemberAdded(members: seq<Member>, start: nat, i: nat)
    requires start <= i < |members|
    ensures GroupText(members[start..i + 1]) == GroupText(members[start..i]) + MemberText(members[i])
  {
    assert members[start..i + 1] == members[start..i] + [members[i]];
    GroupTextGrows(members[start..i], members[i]);
  }

  lemma {:induction false} GroupTextGrows(members: seq<Member>, m: Member)
    ensures GroupText(members + [m]) == GroupText(members) + MemberText(m)
  {
    if members != [] {
      GroupTextGrows(members[1..], m);
      assert (members + [m])[1..] == members[1..] + [m];
    }
  }

  /** A network thread's loop over one message. */
  method ParseGroupLoop(buffer: string) returns (ms: seq<(int, int)>)
    requires forall k :: 0 <= k < |buffer| ==> buffer[k] != '\0'
    ensures ms == ParseGroup(buffer)
  {
    var requestType, i := ParseValueLoop(0, buffer);
    ms := [];
    while i < |buffer|
      invariant ms + ParseMembers(buffer, i) == ParseGroup(buffer)
      decreases |buffer| - i
    {
      FirstMoves(ms, MemberAt(buffer, i), ParseMembers(buffer, i + 3));
      ms := ms + [MemberAt(buffer, i)];
      i := i + 3;
    }
  }

  // ---- the round trip ----

  /** As many messages as the server announces. */
  lemma {:induction false} MessageCount(members: seq<Member>)
    ensures |GroupMessages(members)| == DivRoundUp(|members|, THREADS_PER_MESSAGE)
  {
    if members != [] {
      var n := Min(THREADS_PER_MESSAGE, |members|);
      MessageCount(members[n..]);
    }
  }

  lemma MemberTextLength(m: Member)
    ensures |MemberText(m)| >= 3 && (|MemberText(m)| == 3 <==> Fits(m))
    ensures Fits(m) ==> MemberText(m) == [Digit(m.machineID), Digit(m.mailID / 10), Digit(m.mailID % 10)]
  {
    assert m.mailID >= 10 ==> DecimalText(m.mailID) == DecimalText(m.mailID / 10) + [Digit(m.mailID % 10)];
    assert m.mailID >= 100 ==> |DecimalText(m.mailID / 10)| >= 2;
  }

  lemma {:induction false} GroupTextLength(members: seq<Member>)
    ensures |GroupText(members)| >= 3 * |members| && (|GroupText(members)| == 3 * |members| <==> AllFit(members))
  {
    if members != [] {
      GroupTextLength(members[1..]);
      MemberTextLength(members[0]);
      assert AllFit(members) <==> Fits(members[0]) && AllFit(members[1..]) by {
        if Fits(members[0]) && AllFit(members[1..]) {
          forall i | 0 <= i < |members| ensures Fits(members[i]) {
            if i > 0 { assert members[i] == members[1..][i - 1]; }
          }
        }
      }
    }
  }

  lemma {:induction false} ParseLength(text: string, i: nat)
    requires i <= |text|
    ensures |ParseMembers(text, i)| == DivRoundUp(|text| - i, 3)
    decreases |text| - i
  {
    if i + 3 <= |text| {
      ParseLength(text, i + 3);
    }
  }

  lemma {:induction false} ParseFits(prefix: string, members: seq<Member>)
    requires AllFit(members)
    ensures ParseMembers(prefix + GroupText(members), |prefix|) == Pairs(members)
    decreases |members|
  {
    var text, i := prefix + GroupText(members), |prefix|;
    if members != [] {
      var m := members[0];
      MemberTextLength(m);
      assert text == (prefix + MemberText(m)) + GroupText(members[1..]);
      ParseFits(prefix + MemberText(m), members[1..]);
      assert text[i..i + 3] == MemberText(m);
      assert text[i] == MemberText(m)[0] && text[i + 1..i + 3] == MemberText(m)[1..];
      DigitsRead(m);
      assert MemberAt(text, i) == (m.machineID, m.mailID);
      assert Pairs(members) == [(m.machineID as int, m.mailID as int)] + Pairs(members[1..]);
    }
  }

  lemma {:induction false} OneDigit(d: nat, acc: int)
    requires d < 10
    ensures DigitsValue([Digit(d)], acc) == acc * 10 + d
  {
    assert [Digit(d)][1..] == "";
    assert DigitsValue("", acc * 10 + d) == acc * 10 + d;
  }

  lemma DigitsRead(m: Member)
    requires Fits(m)
    ensures Atoi([Digit(m.machineID)]) == m.machineID
    ensures Atoi([Digit(m.mailID / 10), Digit(m.mailID % 10)]) == m.mailID
  {
    OneDigit(m.machineID, 0);
    OneDigit(m.mailID % 10, m.mailID / 10);
    var two := [Digit(m.mailID / 10), Digit(m.mailID % 10)];
    assert two[1..] == [Digit(m.mailID % 10)];
  }

  /** One message reads back as its members, or as more entries than it has members. */
  lemma {:induction false} GroupReadsBack(members: seq<Member>)
    ensures var ms := ParseGroup(Frame(GROUPINFO, GroupText(members)));
            if AllFit(members) then ms == Pairs(members) else |ms| > |members|
  {
    var text := GroupText(members);
    var msg := Frame(GROUPINFO, text);
    var i := ParseValue(msg, 0).1;
    FrameParses(GROUPINFO, text);
    assert msg == msg[..i] + text;
    if AllFit(members) {
      ParseFits(msg[..i], members);
    } else {
      ParseLength(msg, i);
      GroupTextLength(members);
    }
  }

  lemma AllFitSplits(members: seq<Member>, n: nat)
    requires n <= |members|
    ensures AllFit(members) <==> AllFit(members[..n]) && AllFit(members[n..])
  {
    if AllFit(members[..n]) && AllFit(members[n..]) {
      forall i | 0 <= i < |members| ensures Fits(members[i]) {
        assert members[i] == if i < n then members[..n][i] else members[n..][i - n];
      }
    }
  }

  lemma {:induction false} GroupsReadBack(members: seq<Member>)
    ensures var ms := ParseAll(GroupMessages(members));
            if AllFit(members) then ms == Pairs(members) else |ms| > |members|
    decreases |members|
  {
    if members != [] {
      var n := Min(THREADS_PER_MESSAGE, |members|);
      GroupReadsBack(members[..n]);
      GroupsReadBack(members[n..]);
      AllFitSplits(members, n);
      ParseAllHead(Frame(GROUPINFO, GroupText(members[..n])), GroupMessages(members[n..]));
      PairsSplit(members, n);
    }
  }

  lemma {:induction false} ParseAllHead(first: string, rest: seq<string>)
    ensures ParseAll([first] + rest) == ParseGroup(first) + ParseAll(rest)
  {
    assert ([first] + rest)[1..] == rest;
  }

  lemma PairsSplit(members: seq<Member>, n: nat)
    requires n <= |members|
    ensures Pairs(members) == Pairs(members[..n]) + Pairs(members[n..])
  {
  }

  /** Every network thread ends with the server's list exactly when every machine ID is below 10 and every
      mail ID below 100; an entry that needs more digits makes the parsed list longer. */
  lemma {:induction false} GroupRoundTripIff(members: seq<Member>)
    ensures ParseAll(GroupMessages(members)) == Pairs(members) <==> AllFit(members)
  {
    GroupsReadBack(members);
  }
}
