/** One demultiplexed channel of ChannelDemuxer.py: numbered messages arrive in any order over the transport and are
    written to the channel in sequence; an empty message disconnects it. */
module ChannelDemuxer {
  import opened Collections

  const MAX_BACKLOG_SIZE := 1024 * 1024 * 100

  // A channel is open while the demuxer still knows it; `written` collects what was passed to channel.write.
  datatype Inbound = Inbound(backlog: map<int, string>, byteSize: int, incoming: int, written: seq<string>, open: bool)

  const FRESH := Inbound(map[], 0, 0, [], true)

  function Drain(ch: Inbound): Inbound
    decreases |ch.backlog|
  {
    if ch.incoming !in ch.backlog then ch
    else
      var content := ch.backlog[ch.incoming];
      var popped := ch.(backlog := ch.backlog - {ch.incoming});
      MapWithout(ch.backlog, ch.incoming);
      if content == "" then popped.(open := false)
      else
        Drain(popped.(byteSize := ch.byteSize - |content|, incoming := ch.incoming + 1, written := ch.written + [content]))
  }

  // Exceeding the limit raises an assertion that the caller swallows: the message stays, the draining is skipped.
  function Arrive(ch: Inbound, n: int, content: string): Inbound {
    if !ch.open then ch
    else
      var held := ch.(backlog := ch.backlog[n := content], byteSize := ch.byteSize + |content|);
      if held.byteSize < MAX_BACKLOG_SIZE && n == held.incoming then Drain(held) else held
  }

  // The state after the messages numbered by `order` have arrived, message `n` having content sent[n].
  function Received(sent: seq<string>, order: seq<int>): Inbound
    requires forall i :: 0 <= i < |order| ==> 0 <= order[i] < |sent|
    decreases |order|
  {
    if order == [] then FRESH
    else Arrive(Received(sent, order[..|order| - 1]), order[|order| - 1], sent[order[|order| - 1]])
  }

  // An arrival order in which no number comes twice.
  ghost predicate Distinct(order: seq<int>) {
    forall i, j :: 0 <= i < j < |order| ==> order[i] != order[j]
  }

  function Lengths(backlog: map<int, string>): map<int, int> {
    map n | n in backlog :: |backlog[n]|
  }

  ghost predicate BytesCounted(ch: Inbound) {
    ch.byteSize == Sum(Lengths(ch.backlog))
  }

  // ----- What every run keeps -----

  // The messages written are the first ones sent, none of them empty, and they have all arrived.
  ghost predicate WrittenInOrder(sent: seq<string>, arrived: set<int>, ch: Inbound) {
    && 0 <= ch.incoming <= |sent|
    && ch.written == sent[..ch.incoming]
    && forall i :: 0 <= i < ch.incoming ==> i in arrived && sent[i] != ""
  }

  // The backlog of an open channel holds what has arrived and is not yet written.
  ghost predicate BacklogExact(sent: seq<string>, arrived: set<int>, ch: Inbound) {
    && (forall n :: n in ch.backlog <==> n in arrived && ch.incoming <= n)
    && forall n :: n in ch.backlog ==> 0 <= n < |sent| && ch.backlog[n] == sent[n]
  }

  // A channel is closed only by an empty message before which everything has been written.
  ghost predicate ClosedByEmpty(sent: seq<string>, arrived: set<int>, ch: Inbound) {
    0 <= ch.incoming < |sent| && sent[ch.incoming] == "" && ch.incoming in arrived
  }

  ghost predicate Inv(sent: seq<string>, arrived: set<int>, ch: Inbound) {
    && WrittenInOrder(sent, arrived, ch) && BytesCounted(ch)
    && if ch.open then BacklogExact(sent, arrived, ch) else ClosedByEmpty(sent, arrived, ch)
  }

  // The next message to be written is not waiting: it has not arrived, or the channel is closed.
  ghost predicate Settled(ch: Inbound) {
    ch.open ==> ch.incoming !in ch.backlog
  }

  lemma PutCounts(backlog: map<int, string>, n: int, content: string)
    ensures Sum(Lengths(backlog[n := content])) ==
            Sum(Lengths(backlog)) + |content| - (if n in backlog then |backlog[n]| else 0)
  {
    assert Lengths(backlog[n := content]) == Lengths(backlog)[n := |content|];
    if n in backlog {
      SumUpdated(Lengths(backlog), n, |content|);
    } else {
      SumWith(Lengths(backlog), n, |content|);
    }
  }

  lemma PopCounts(backlog: map<int, string>, n: int)
    requires n in backlog
    ensures Sum(Lengths(backlog - {n})) == Sum(Lengths(backlog)) - |backlog[n]|
  {
    assert Lengths(backlog - {n}) == Lengths(backlog) - {n};
    SumWithout(Lengths(backlog), n);
  }

  lemma {:induction false} DrainKeeps(sent: seq<string>, arrived: set<int>, ch: Inbound)
    requires Inv(sent, arrived, ch) && ch.open
    ensures Inv(sent, arrived, Drain(ch)) && Settled(Drain(ch))
    decreases |ch.backlog|
  {
    if ch.incoming in ch.backlog {
      var content := ch.backlog[ch.incoming];
      PopCounts(ch.backlog, ch.incoming);
      MapWithout(ch.backlog, ch.incoming);
      if content != "" {
        var next := Inbound(ch.backlog - {ch.incoming}, ch.byteSize - |content|, ch.incoming + 1,
                            ch.written + [content], ch.open);
        assert next.written == sent[..next.incoming];
        DrainKeeps(sent, arrived, next);
      }
    }
  }

  // The arrival of the awaited message with the backlog over the limit, which leaves it undelivered.
  predicate Overflows(ch: Inbound, n: int, content: string) {
    ch.open && n == ch.incoming && ch.byteSize + |content| >= MAX_BACKLOG_SIZE
  }

  lemma ArriveKeeps(sent: seq<string>, arrived: set<int>, ch: Inbound, n: int)
    requires Inv(sent, arrived, ch) && 0 <= n < |sent| && n !in arrived
    ensures Inv(sent, arrived + {n}, Arrive(ch, n, sent[n]))
    ensures Settled(Arrive(ch, n, sent[n])) <==> Settled(ch) && !Overflows(ch, n, sent[n])
  {
    if ch.open {
      var held := ch.(backlog := ch.backlog[n := sent[n]], byteSize := ch.byteSize + |sent[n]|);
      PutCounts(ch.backlog, n, sent[n]);
      assert ch.incoming <= n;
      assert Inv(sent, arrived + {n}, held);
      if held.byteSize < MAX_BACKLOG_SIZE && n == held.incoming {
        DrainKeeps(sent, arrived + {n}, held);
      }
    }
  }

  ghost function Elements(order: seq<int>): set<int> {
    set n | n in order
  }

  lemma ElementsMore(order: seq<int>, n: int)
    ensures Elements(order + [n]) == Elements(order) + {n}
  {
  }

  lemma {:induction false} ReceivedKeeps(sent: seq<string>, order: seq<int>)
    requires Distinct(order) && forall i :: 0 <= i < |order| ==> 0 <= order[i] < |sent|
    ensures Inv(sent, Elements(order), Received(sent, order))
    decreases |order|
  {
    if order == [] {
      assert Lengths(map[]) == map[];
    } else {
      var before, n := order[..|order| - 1], order[|order| - 1];
      ReceivedKeeps(sent, before);
      ArriveKeeps(sent, Elements(before), Received(sent, before), n);
      ElementsMore(before, n);
      assert order == before + [n];
    }
  }

  // ----- What a run means to the reader of the channel -----

  ghost predicate Arrivals(sent: seq<string>, order: seq<int>) {
    Distinct(order) && forall i :: 0 <= i < |order| ==> 0 <= order[i] < |sent|
  }

  // The awaited message of turn `i` met a full backlog.
  ghost predicate OverflowsAt(sent: seq<string>, order: seq<int>, i: int)
    requires Arrivals(sent, order) && 0 <= i < |order|
  {
    Overflows(Received(sent, order[..i]), order[i], sent[order[i]])
  }

  ghost predicate NeverOverflows(sent: seq<string>, order: seq<int>)
    requires Arrivals(sent, order)
  {
    forall i :: 0 <= i < |order| ==> !OverflowsAt(sent, order, i)
  }

  // Whatever the order and the sizes, what is written is a run of non-empty messages from the start of the stream.
  lemma WrittenIsAPrefix(sent: seq<string>, order: seq<int>)
    requires Arrivals(sent, order)
    ensures var ch := Received(sent, order);
            ch.written <= sent && "" !in ch.written && ch.byteSize == Sum(Lengths(ch.backlog))
  {
    ReceivedKeeps(sent, order);
  }

  // One more arrival.
  lemma LastArrival(sent: seq<string>, order: seq<int>)
    requires Arrivals(sent, order) && order != []
    ensures var before, n := order[..|order| - 1], order[|order| - 1];
            && Arrivals(sent, before) && n !in Elements(before)
            && Received(sent, order) == Arrive(Received(sent, before), n, sent[n])
            && (Settled(Received(sent, order)) <==>
                  Settled(Received(sent, before)) && !Overflows(Received(sent, before), n, sent[n]))
  {
    var before, n := order[..|order| - 1], order[|order| - 1];
    ReceivedKeeps(sent, before);
    ArriveKeeps(sent, Elements(before), Received(sent, before), n);
  }

  // Delivery keeps up exactly as long as no awaited message meets a full backlog.
  lemma {:induction false} SettledIffNeverOverflows(sent: seq<string>, order: seq<int>)
    requires Arrivals(sent, order)
    ensures Settled(Received(sent, order)) <==> NeverOverflows(sent, order)
    decreases |order|
  {
    if order != [] {
      var last := |order| - 1;
      var before := order[..last];
      LastArrival(sent, order);
      SettledIffNeverOverflows(sent, before);
      forall i | 0 <= i < last
        ensures OverflowsAt(sent, before, i) <==> OverflowsAt(sent, order, i)
      {
        assert before[..i] == order[..i];
      }
      assert OverflowsAt(sent, order, last) <==> Overflows(Received(sent, before), order[last], sent[order[last]]);
    }
  }

  lemma SettledDelivers(sent: seq<string>, arrived: set<int>, ch: Inbound, k: int)
    requires Inv(sent, arrived, ch) && Settled(ch)
    requires 0 <= k <= |sent| && forall i :: 0 <= i < k ==> i in arrived && sent[i] != ""
    requires k in arrived && k < |sent| ==> sent[k] == ""
    ensures ch.written == sent[..k] && ch.incoming == k && (k < |sent| ==> (ch.open <==> k !in arrived))
  {
    assert ch.incoming < |sent| && ch.incoming in arrived ==> !ch.open && sent[ch.incoming] == "";
    assert ch.incoming <= k;
    assert k <= ch.incoming;
  }

  // Message k is the first that has not arrived or is empty: exactly the messages before it are written, and the
  // channel is closed just when message k is the empty one.
  lemma DeliversUpToTheGap(sent: seq<string>, order: seq<int>, k: int)
    requires Arrivals(sent, order) && NeverOverflows(sent, order)
    requires 0 <= k <= |sent| && forall i :: 0 <= i < k ==> i in order && sent[i] != ""
    requires k in order ==> sent[k] == ""
    ensures Received(sent, order).written == sent[..k] && Received(sent, order).incoming == k
    ensures Received(sent, order).open <==> k !in order
  {
    ReceivedKeeps(sent, order);
    SettledIffNeverOverflows(sent, order);
    SettledDelivers(sent, Elements(order), Received(sent, order), k);
  }

  lemma SameBacklog(sent: seq<string>, arrived: set<int>, x: Inbound, y: Inbound)
    requires BacklogExact(sent, arrived, x) && BacklogExact(sent, arrived, y) && x.incoming == y.incoming
    ensures x.backlog == y.backlog
  {
    var exact := map n | n in x.backlog :: sent[n];
    assert x.backlog == exact;
    assert y.backlog == exact;
  }

  lemma SameOutcome(sent: seq<string>, arrived: set<int>, x: Inbound, y: Inbound)
    requires Inv(sent, arrived, x) && Inv(sent, arrived, y) && Settled(x) && Settled(y)
    ensures x.written == y.written && x.open == y.open && (x.open ==> x == y)
  {
    assert x.incoming == y.incoming;
    if x.open {
      SameBacklog(sent, arrived, x, y);
    }
  }

  // The outcome depends on which messages have arrived, not on their order.
  lemma ArrivalOrderDoesNotMatter(sent: seq<string>, a: seq<int>, b: seq<int>)
    requires Arrivals(sent, a) && Arrivals(sent, b) && Elements(a) == Elements(b)
    requires NeverOverflows(sent, a) && NeverOverflows(sent, b)
    ensures var x, y := Received(sent, a), Received(sent, b);
            x.written == y.written && x.open == y.open && (x.open ==> x == y)
  {
    ReceivedKeeps(sent, a);
    ReceivedKeeps(sent, b);
    SettledIffNeverOverflows(sent, a);
    SettledIffNeverOverflows(sent, b);
    SameOutcome(sent, Elements(a), Received(sent, a), Received(sent, b));
  }

  // A channel that has fallen behind does not catch up.
  lemma BehindStaysBehind(sent: seq<string>, arrived: set<int>, ch: Inbound, n: int)
    requires Inv(sent, arrived, ch) && !Settled(ch) && n !in arrived
    ensures forall content :: Arrive(ch, n, content).written == ch.written && Arrive(ch, n, content).open
  {
  }

  // Once the awaited message has met a full backlog, nothing is written any more.
  lemma {:induction false} OverflowStalls(sent: seq<string>, order: seq<int>, i: int)
    requires Arrivals(sent, order) && 0 <= i < |order| && OverflowsAt(sent, order, i)
    ensures Received(sent, order).written == Received(sent, order[..i]).written && !Settled(Received(sent, order))
    decreases |order|
  {
    var before, n := order[..|order| - 1], order[|order| - 1];
    LastArrival(sent, order);
    if i < |before| {
      assert before[..i] == order[..i];
      OverflowStalls(sent, before, i);
      ReceivedKeeps(sent, before);
      BehindStaysBehind(sent, Elements(before), Received(sent, before), n);
    }
  }

  // ----- Streams that fit -----

  function TotalLength(sent: seq<string>): nat {
    if sent == [] then 0 else TotalLength(sent[..|sent| - 1]) + |sent[|sent| - 1]|
  }

  lemma {:induction false} PartFits(sent: seq<string>, backlog: map<int, string>)
    requires forall n :: n in backlog ==> 0 <= n < |sent| && backlog[n] == sent[n]
    ensures Sum(Lengths(backlog)) <= TotalLength(sent)
    decreases |sent|
  {
    if sent == [] {
      assert forall n :: n !in backlog;
      assert Lengths(backlog) == map[];
    } else {
      var last := |sent| - 1;
      if last in backlog {
        PopCounts(backlog, last);
        PartFits(sent[..last], backlog - {last});
      } else {
        PartFits(sent[..last], backlog);
      }
    }
  }

  lemma SmallStreamsNeverOverflow(sent: seq<string>, order: seq<int>)
    requires Arrivals(sent, order) && TotalLength(sent) < MAX_BACKLOG_SIZE
    ensures NeverOverflows(sent, order)
  {
    forall i | 0 <= i < |order|
      ensures !OverflowsAt(sent, order, i)
    {
      var ch, n := Received(sent, order[..i]), order[i];
      ReceivedKeeps(sent, order[..i]);
      if ch.open {
        PutCounts(ch.backlog, n, sent[n]);
        assert n !in Elements(order[..i]);
        PartFits(sent, ch.backlog[n := sent[n]]);
      }
    }
  }

  lemma {:induction false} AllOfIt(sent: seq<string>, backlog: map<int, string>)
    requires forall n :: n in backlog <==> 0 <= n < |sent|
    requires forall n :: n in backlog ==> backlog[n] == sent[n]
    ensures Sum(Lengths(backlog)) == TotalLength(sent)
    decreases |sent|
  {
    if sent == [] {
      assert forall n :: n !in backlog;
      assert Lengths(backlog) == map[];
    } else {
      var last := |sent| - 1;
      PopCounts(backlog, last);
      AllOfIt(sent[..last], backlog - {last});
    }
  }

  // All messages, the first of them last.
  function FirstLast(n: nat): seq<int>
    requires n > 0
  {
    seq(n - 1, i => i + 1) + [0]
  }

  // While the first message is awaited everything else waits.
  lemma FirstAwaited(sent: seq<string>, order: seq<int>)
    requires Arrivals(sent, order) && 0 !in order
    ensures var ch := Received(sent, order);
            && ch.open && ch.incoming == 0 && BytesCounted(ch) && ch.backlog.Keys == Elements(order)
            && forall n :: n in ch.backlog ==> 0 <= n < |sent| && ch.backlog[n] == sent[n]
  {
    ReceivedKeeps(sent, order);
    assert 0 !in Elements(order);
  }

  ghost predicate AllButFirst(order: seq<int>, n: nat) {
    forall i :: i in Elements(order) <==> 1 <= i < n
  }

  // The arrival of the first message then finds the whole stream.
  lemma WholeStreamWaits(sent: seq<string>, before: seq<int>)
    requires sent != [] && Arrivals(sent, before) && AllButFirst(before, |sent|)
    ensures Overflows(Received(sent, before), 0, sent[0]) <==> TotalLength(sent) >= MAX_BACKLOG_SIZE
  {
    var ch := Received(sent, before);
    assert 0 !in Elements(before);
    FirstAwaited(sent, before);
    PutCounts(ch.backlog, 0, sent[0]);
    AllOfIt(sent, ch.backlog[0 := sent[0]]);
  }

  lemma FirstLastElements(n: nat)
    requires n > 0
    ensures var order := FirstLast(n);
            |order| == n && order[n - 1] == 0 && AllButFirst(order[..n - 1], n)
  {
    var before := FirstLast(n)[..n - 1];
    forall i: int
      ensures i in Elements(before) <==> 1 <= i < n
    {
      if 1 <= i < n {
        assert before[i - 1] == i;
      }
    }
  }

  lemma FirstLastOverflows(sent: seq<string>)
    requires TotalLength(sent) >= MAX_BACKLOG_SIZE
    ensures sent != [] && Arrivals(sent, FirstLast(|sent|)) && OverflowsAt(sent, FirstLast(|sent|), |sent| - 1)
  {
    var order := FirstLast(|sent|);
    assert Arrivals(sent, order) && Arrivals(sent, order[..|sent| - 1]);
    FirstLastElements(|sent|);
    WholeStreamWaits(sent, order[..|sent| - 1]);
  }

  // Delivery keeps up in whatever order the messages arrive if and only if all of them together stay below the limit.
  lemma NeverOverflowsIffSmall(sent: seq<string>)
    ensures (forall order | Arrivals(sent, order) :: NeverOverflows(sent, order)) <==> TotalLength(sent) < 104_857_600
  {
    if TotalLength(sent) < MAX_BACKLOG_SIZE {
      forall order | Arrivals(sent, order)
        ensures NeverOverflows(sent, order)
      {
        SmallStreamsNeverOverflow(sent, order);
      }
    } else {
      FirstLastOverflows(sent);
    }
  }

  // ----- Repeated numbers -----

  // A number that arrives again while it waits replaces the message but is counted on top of it: the byte count stays
  // right exactly when the message replaced was empty.
  lemma RepeatedNumberMiscounts(ch: Inbound, n: int, content: string)
    requires ch.open && BytesCounted(ch) && n in ch.backlog && n != ch.incoming
    ensures BytesCounted(Arrive(ch, n, content)) <==> ch.backlog[n] == ""
  {
    PutCounts(ch.backlog, n, content);
  }

  // ----- The two failures on concrete input -----

  // One message as long as the limit is the awaited one, and is never written.
  lemma OverflowExample()
    ensures var sent, order := [seq(MAX_BACKLOG_SIZE, _ => 'a')], [0];
            && Arrivals(sent, order) && OverflowsAt(sent, order, 0)
            && Received(sent, order).written == [] && !Settled(Received(sent, order))
  {
    var sent, order := [seq(MAX_BACKLOG_SIZE, _ => 'a')], [0];
    assert order[..0] == [];
    assert Received(sent, []) == FRESH;
    assert OverflowsAt(sent, order, 0);
    OverflowStalls(sent, order, 0);
  }

  // Number 1 arrives twice while number 0 is awaited: two bytes are counted, one is held.
  lemma RepeatedExample()
    ensures var ch := Arrive(Arrive(FRESH, 1, "a"), 1, "b");
            ch.byteSize == 2 && Sum(Lengths(ch.backlog)) == 1 && ch.backlog == map[1 := "b"]
  {
    assert Lengths(map[]) == map[];
    PutCounts(map[], 1, "a");
    PutCounts(map[1 := "a"], 1, "b");
    assert map[1 := "a"][1 := "b"] == map[1 := "b"];
  }

  // ----- The sending end -----

  // The stream of the sender: the contents read from its channel and, when the channel was closed on that side, one empty
  // message at the end.
  ghost predicate IsStream(sent: seq<string>, contents: seq<string>, closedHere: bool) {
    && |sent| == |contents| + (if closedHere then 1 else 0)
    && (forall i :: 0 <= i < |contents| ==> sent[i] == contents[i])
    && (closedHere ==> sent[|contents|] == "")
  }

  // From the sender's channel to the receiver's: only what was sent, from the start and in order; all of it, and then
  // the disconnection, once everything has arrived.
  lemma EndToEnd(sent: seq<string>, contents: seq<string>, closedHere: bool, order: seq<int>)
    requires "" !in contents && IsStream(sent, contents, closedHere) && Arrivals(sent, order)
    ensures var ch := Received(sent, order);
            ch.written <= contents && (!ch.open ==> closedHere && ch.written == contents)
  {
    ReceivedKeeps(sent, order);
    assert forall i :: 0 <= i < |contents| ==> sent[i] == contents[i] && contents[i] in contents;
    assert Received(sent, order).incoming <= |contents|;
    assert sent[..Received(sent, order).incoming] == contents[..Received(sent, order).incoming];
  }

  lemma EndToEndComplete(sent: seq<string>, contents: seq<string>, closedHere: bool, order: seq<int>)
    requires "" !in contents && IsStream(sent, contents, closedHere) && Arrivals(sent, order)
    requires NeverOverflows(sent, order) && forall n :: 0 <= n < |sent| ==> n in order
    ensures var ch := Received(sent, order); ch.written == contents && ch.open == !closedHere
  {
    assert forall i :: 0 <= i < |contents| ==> sent[i] == contents[i] && contents[i] in contents;
    assert |contents| in order ==> |contents| < |sent| && sent[|contents|] == "";
    DeliversUpToTheGap(sent, order, |contents|);
    assert sent[..|contents|] == contents;
  }

  // ----- The demuxer -----

  class Channel {
    const group: string
    var messageBacklog: map<int, string>
    var byteSize: int
    var incomingSequenceNumber: int
    var outgoingSequenceNumber: int
    var written: seq<string>
    var connected: bool

    constructor (group: string)
      ensures State() == FRESH && outgoingSequenceNumber == 0 && this.group == group
    {
      this.group := group;
      messageBacklog := map[];
      byteSize := 0;
      incomingSequenceNumber := 0;
      outgoingSequenceNumber := 0;
      written := [];
      connected := true;
    }

    function State(): Inbound
      reads this
    {
      Inbound(messageBacklog, byteSize, incomingSequenceNumber, written, connected)
    }
  }

  class Demuxer {
    var channels: map<string, Channel>
    var badChannelMessageCount: map<string, nat>
    var broken: seq<string>

    // Channels in the table are connected, and each has one identifier.
    ghost predicate Valid()
      reads this, channels.Values
    {
      && (forall id :: id in channels ==> channels[id].connected)
      && forall a, b :: a in channels && b in channels && a != b ==> channels[a] != channels[b]
    }

    constructor ()
      ensures Valid() && channels == map[] && broken == []
    {
      channels := map[];
      badChannelMessageCount := map[];
      broken := [];
    }

    method OnMessageReceived(id: string, sequenceNumber: int, content: string)
      requires Valid()
      modifies this, channels.Values
      ensures Valid()
      ensures id !in old(channels) ==> channels == old(channels) && broken == old(broken)
      ensures id !in old(channels) ==>
              badChannelMessageCount ==
                old(badChannelMessageCount[id := 1 + if id in badChannelMessageCount then badChannelMessageCount[id] else 0])
      ensures id in old(channels) ==>
              var ch := old(channels)[id];
              && ch.State() == Arrive(old(ch.State()), sequenceNumber, content)
              && channels == (if ch.connected then old(channels) else old(channels) - {id})
              && broken == (if ch.connected then old(broken) else old(broken) + [ch.group])
              && badChannelMessageCount == old(badChannelMessageCount)
      ensures forall other :: other in old(channels) && other != id ==>
              old(channels)[other].State() == old(channels[other].State())
    {
      if id in channels {
        var ch := channels[id];
        ch.messageBacklog := ch.messageBacklog[sequenceNumber := content];
        ch.byteSize := ch.byteSize + |content|;
        if ch.byteSize < MAX_BACKLOG_SIZE && sequenceNumber == ch.incomingSequenceNumber {
          DrainMessageBacklog(id, ch);
        }
      } else {
        var count := if id in badChannelMessageCount then badChannelMessageCount[id] else 0;
        badChannelMessageCount := badChannelMessageCount[id := count + 1];
      }
    }

    method DrainMessageBacklog(id: string, ch: Channel)
      requires id in channels && channels[id] == ch && ch.connected
      modifies this`channels, this`broken, ch
      ensures ch.State() == Drain(old(ch.State()))
      ensures channels == (if ch.connected then old(channels) else old(channels) - {id})
      ensures broken == (if ch.connected then old(broken) else old(broken) + [ch.group])
    {
      while |ch.messageBacklog| > 0 && ch.incomingSequenceNumber in ch.messageBacklog
        invariant Drain(ch.State()) == Drain(old(ch.State()))
        invariant ch.connected || ch.incomingSequenceNumber !in ch.messageBacklog
        invariant channels == (if ch.connected then old(channels) else old(channels) - {id})
        invariant broken == (if ch.connected then old(broken) else old(broken) + [ch.group])
        decreases |ch.messageBacklog|
      {
        var content := ch.messageBacklog[ch.incomingSequenceNumber];
        MapWithout(ch.messageBacklog, ch.incomingSequenceNumber);
        ch.messageBacklog := ch.messageBacklog - {ch.incomingSequenceNumber};
        if |content| > 0 {
          ch.byteSize := ch.byteSize - |content|;
          ch.incomingSequenceNumber := ch.incomingSequenceNumber + 1;
          ch.written := ch.written + [content];
        } else if id in channels {
          channels := channels - {id};
          ch.connected := false;
          broken := broken + [ch.group];
        }
      }
    }

    // The start of channelThread_: a new channel enters the table under an identifier not in use.
    method Register(id: string, ch: Channel)
      requires Valid() && id !in channels && ch !in channels.Values && ch.State() == FRESH
      modifies this`channels
      ensures Valid() && channels == old(channels)[id := ch] && ch.State() == FRESH
    {
      channels := channels[id := ch];
      forall a, b | a in channels && b in channels && a != b
        ensures channels[a] != channels[b]
      {
        assert a != id ==> channels[a] in old(channels).Values;
        assert b != id ==> channels[b] in old(channels).Values;
      }
    }

    // `contents` is what reading the channel yields until it reports its disconnection.
    method ChannelThread(id: string, ch: Channel, contents: seq<string>) returns (sent: seq<(int, string)>)
      modifies ch`outgoingSequenceNumber
      ensures IsStream(seq(|sent|, i requires 0 <= i < |sent| => sent[i].1), contents, id in channels)
      ensures forall i :: 0 <= i < |sent| ==> sent[i].0 == old(ch.outgoingSequenceNumber) + i
      ensures ch.outgoingSequenceNumber == old(ch.outgoingSequenceNumber) + |sent|
    {
      sent := [];
      for i := 0 to |contents|
        invariant |sent| == i && ch.outgoingSequenceNumber == old(ch.outgoingSequenceNumber) + i
        invariant forall j :: 0 <= j < i ==> sent[j] == (old(ch.outgoingSequenceNumber) + j, contents[j])
      {
        sent := sent + [(ch.outgoingSequenceNumber, contents[i])];
        ch.outgoingSequenceNumber := ch.outgoingSequenceNumber + 1;
      }
      if id in channels {
        sent := sent + [(ch.outgoingSequenceNumber, "")];
        ch.outgoingSequenceNumber := ch.outgoingSequenceNumber + 1;
      }
    }
  }
}
