/** The reordering protocol of MultiChannel.hpp: one numbered message stream split over several FIFO channels,
    of which channel 0 is never delayed. */
module MultiChannel {
  import opened Collections

  type Payload(==, !new)

  // Ordinals are 32-bit unsigned integers.
  const WRAP: int := 0x1_0000_0000

  datatype Message = Message(ordinal: int, channel: nat, payload: Payload)

  // `delayed` is the priority queue in the order in which it would be emptied; `dispatched` collects the callbacks.
  datatype Receiver = Receiver(delayed: seq<Message>, maxDispatched: int, dispatched: seq<Message>)

  function Next(ordinal: int): int {
    if ordinal + 1 == WRAP then 0 else ordinal + 1
  }

  // ----- The receiver -----

  predicate ShouldDelay(r: Receiver, m: Message) {
    m.ordinal > Next(r.maxDispatched) && m.channel != 0
  }

  function Enqueue(q: seq<Message>, m: Message): seq<Message> {
    if q == [] || m.ordinal <= q[0].ordinal then [m] + q else [q[0]] + Enqueue(q[1..], m)
  }

  function Dispatch(r: Receiver, m: Message): Receiver {
    r.(maxDispatched := Max(r.maxDispatched, m.ordinal), dispatched := r.dispatched + [m])
  }

  function DispatchDelayed(r: Receiver, last: int): Receiver
    decreases |r.delayed|
  {
    if r.delayed != [] && r.delayed[0].ordinal <= Next(last) then
      var m := r.delayed[0];
      DispatchDelayed(Dispatch(r.(delayed := r.delayed[1..]), m), Max(last, m.ordinal))
    else r
  }

  function Receive(r: Receiver, m: Message): Receiver {
    if ShouldDelay(r, m) then r.(delayed := Enqueue(r.delayed, m))
    else DispatchDelayed(Dispatch(r, m), m.ordinal)
  }

  // ----- The whole system: a sender's log, the channels, and the receiver -----

  datatype System = System(log: seq<Message>, lastOutbound: int, channels: seq<seq<Message>>, receiver: Receiver)

  datatype Step = Send(channel: nat, payload: Payload) | Deliver(channel: nat)

  function Start(channels: nat): System {
    System([], 0, seq(channels, _ => []), Receiver([], 0, []))
  }

  // A step that is not possible changes nothing.
  function Apply(s: System, step: Step): System {
    if step.channel >= |s.channels| then s
    else match step
      case Send(c, payload) =>
        var m := Message(Next(s.lastOutbound), c, payload);
        s.(log := s.log + [m], lastOutbound := m.ordinal, channels := s.channels[c := s.channels[c] + [m]])
      case Deliver(c) =>
        if s.channels[c] == [] then s
        else s.(channels := s.channels[c := s.channels[c][1..]], receiver := Receive(s.receiver, s.channels[c][0]))
  }

  function Run(s: System, steps: seq<Step>): System
    decreases |steps|
  {
    if steps == [] then s else Apply(Run(s, steps[..|steps| - 1]), steps[|steps| - 1])
  }

  // How many copies of `m` are on their way.
  ghost function InFlight(channels: seq<seq<Message>>, m: Message): nat {
    if channels == [] then 0 else multiset(channels[0])[m] + InFlight(channels[1..], m)
  }

  // ----- What the receiver keeps -----

  ghost predicate Ascending(q: seq<Message>) {
    forall i, j :: 0 <= i < j < |q| ==> q[i].ordinal < q[j].ordinal
  }

  // Messages of one channel appear in increasing order.
  ghost predicate InChannelOrder(q: seq<Message>) {
    forall i, j :: 0 <= i < j < |q| && q[i].channel == q[j].channel ==> q[i].ordinal < q[j].ordinal
  }

  // Each message of `a` precedes each message of `b` on the same channel.
  ghost predicate Precedes(a: seq<Message>, b: seq<Message>) {
    forall x, y :: x in a && y in b && x.channel == y.channel ==> x.ordinal < y.ordinal
  }

  ghost predicate BelowMax(r: Receiver) {
    && (forall x :: x in r.dispatched ==> 1 <= x.ordinal <= r.maxDispatched)
    && (r.maxDispatched == 0 || exists x :: x in r.dispatched && x.ordinal == r.maxDispatched)
  }

  ghost predicate Orderly(r: Receiver) {
    && 0 <= r.maxDispatched < WRAP - 1
    && Ascending(r.delayed)
    && (forall y :: y in r.delayed ==> y.channel != 0 && 1 <= y.ordinal < WRAP - 1)
    && InChannelOrder(r.dispatched)
    && Precedes(r.dispatched, r.delayed)
    && BelowMax(r)
  }

  // Between deliveries the next ordinal to be dispatched is not held.
  ghost predicate Gap(r: Receiver) {
    forall y :: y in r.delayed ==> y.ordinal > r.maxDispatched + 1
  }

  // `m` follows everything that has arrived on its channel.
  ghost predicate Follows(r: Receiver, m: Message) {
    && 1 <= m.ordinal < WRAP - 1
    && Precedes(r.dispatched, [m]) && Precedes(r.delayed, [m])
  }

  lemma {:induction false} EnqueueKeeps(q: seq<Message>, m: Message)
    requires Ascending(q) && forall y :: y in q ==> y.ordinal != m.ordinal
    ensures Ascending(Enqueue(q, m))
    ensures forall y :: y in Enqueue(q, m) <==> y in q || y == m
    decreases |q|
  {
    if q != [] {
      assert q == [q[0]] + q[1..];
      if m.ordinal > q[0].ordinal {
        EnqueueKeeps(q[1..], m);
        var rest := Enqueue(q[1..], m);
        forall j | 0 <= j < |rest|
          ensures q[0].ordinal < rest[j].ordinal
        {
          assert rest[j] in rest;
        }
      }
    }
  }

  lemma {:induction false} EnqueueCounts(q: seq<Message>, m: Message, x: Message)
    ensures multiset(Enqueue(q, m))[x] == multiset(q)[x] + if x == m then 1 else 0
    decreases |q|
  {
    if q == [] || m.ordinal <= q[0].ordinal {
      CountOfConcat([m], q, x);
      CountOfOne(m, x);
    } else {
      EnqueueCounts(q[1..], m, x);
      assert q == [q[0]] + q[1..];
      CountOfConcat([q[0]], q[1..], x);
      CountOfConcat([q[0]], Enqueue(q[1..], m), x);
    }
  }

  lemma DispatchKeeps(r: Receiver, m: Message)
    requires Orderly(r) && 1 <= m.ordinal < WRAP - 1 && Precedes(r.dispatched, [m]) && Precedes([m], r.delayed)
    ensures Orderly(Dispatch(r, m))
  {
    var r1 := Dispatch(r, m);
    assert m in [m] && m in r1.dispatched;
    forall i, j | 0 <= i < j < |r1.dispatched| && r1.dispatched[i].channel == r1.dispatched[j].channel
      ensures r1.dispatched[i].ordinal < r1.dispatched[j].ordinal
    {
      assert r1.dispatched[i] in r.dispatched;
    }
    if r.maxDispatched > m.ordinal {
      var x :| x in r.dispatched && x.ordinal == r.maxDispatched;
      assert x in r1.dispatched;
    }
  }

  // How many copies of `m` the receiver has taken, held or dispatched.
  ghost function Arrived(r: Receiver, m: Message): nat {
    multiset(r.delayed)[m] + multiset(r.dispatched)[m]
  }

  lemma CountIsMembership(q: seq<Message>, m: Message)
    ensures m in q <==> multiset(q)[m] > 0
  {
    assert m in q <==> m in multiset(q);
  }

  lemma CountOfConcat(a: seq<Message>, b: seq<Message>, m: Message)
    ensures multiset(a + b)[m] == multiset(a)[m] + multiset(b)[m]
  {
    assert multiset(a + b) == multiset(a) + multiset(b);
  }

  lemma CountOfOne(x: Message, m: Message)
    ensures multiset([x])[m] == if x == m then 1 else 0
  {
  }

  // One turn of the loop: the least held message is dispatched.
  function DispatchFirst(r: Receiver): Receiver
    requires r.delayed != []
  {
    Dispatch(r.(delayed := r.delayed[1..]), r.delayed[0])
  }

  lemma FirstIsLeast(q: seq<Message>, y: Message)
    requires Ascending(q) && q != [] && y in q
    ensures y == q[0] || (q[0].ordinal < y.ordinal && y in q[1..])
  {
    var j :| 0 <= j < |q| && q[j] == y;
    if j > 0 {
      assert q[1..][j - 1] == y;
    }
  }

  lemma FirstGoesBefore(q: seq<Message>)
    requires Ascending(q) && q != []
    ensures Ascending(q[1..]) && forall y :: y in q[1..] ==> y in q && q[0].ordinal < y.ordinal
  {
    forall y | y in q[1..]
      ensures y in q && q[0].ordinal < y.ordinal
    {
      var j :| 0 <= j < |q[1..]| && q[1..][j] == y;
      assert q[j + 1] == y;
    }
  }

  lemma RestIsOrderly(r: Receiver)
    requires Orderly(r) && r.delayed != []
    ensures Orderly(r.(delayed := r.delayed[1..]))
    ensures 1 <= r.delayed[0].ordinal < WRAP - 1
    ensures Precedes(r.dispatched, [r.delayed[0]]) && Precedes([r.delayed[0]], r.delayed[1..])
  {
    assert r.delayed[0] in r.delayed;
    FirstGoesBefore(r.delayed);
  }

  lemma DispatchFirstKeeps(r: Receiver)
    requires Orderly(r) && r.delayed != []
    ensures Orderly(DispatchFirst(r))
  {
    RestIsOrderly(r);
    DispatchKeeps(r.(delayed := r.delayed[1..]), r.delayed[0]);
  }

  lemma DispatchCounts(r: Receiver, m: Message, x: Message)
    ensures Arrived(Dispatch(r, m), x) == Arrived(r, x) + if x == m then 1 else 0
  {
    CountOfConcat(r.dispatched, [m], x);
    CountOfOne(m, x);
  }

  lemma {:induction false} DispatchDelayedConserves(r: Receiver, last: int, x: Message)
    ensures Arrived(DispatchDelayed(r, last), x) == Arrived(r, x)
    decreases |r.delayed|
  {
    if r.delayed != [] && r.delayed[0].ordinal <= Next(last) {
      var m, r0 := r.delayed[0], r.(delayed := r.delayed[1..]);
      DispatchCounts(r0, m, x);
      assert r.delayed == [m] + r0.delayed;
      CountOfConcat([m], r0.delayed, x);
      CountOfOne(m, x);
      DispatchDelayedConserves(DispatchFirst(r), Max(last, m.ordinal), x);
    }
  }

  lemma {:induction false} DispatchDelayedKeeps(r: Receiver, last: int)
    requires Orderly(r)
    ensures Orderly(DispatchDelayed(r, last))
    decreases |r.delayed|
  {
    if r.delayed != [] && r.delayed[0].ordinal <= Next(last) {
      DispatchFirstKeeps(r);
      DispatchDelayedKeeps(DispatchFirst(r), Max(last, r.delayed[0].ordinal));
    }
  }

  lemma NothingNearIsGap(r: Receiver)
    requires Ascending(r.delayed) && (r.delayed == [] || r.delayed[0].ordinal > r.maxDispatched + 1)
    ensures Gap(r)
  {
    forall y | y in r.delayed
      ensures y.ordinal > r.maxDispatched + 1
    {
      FirstIsLeast(r.delayed, y);
    }
  }

  lemma {:induction false} DispatchDelayedLeavesGap(r: Receiver, last: int)
    requires Ascending(r.delayed) && 0 <= last <= r.maxDispatched < WRAP - 1
    requires last == r.maxDispatched || Gap(r)
    requires forall y :: y in r.delayed ==> y.ordinal < WRAP - 1
    ensures Gap(DispatchDelayed(r, last))
    decreases |r.delayed|
  {
    if r.delayed == [] {
    } else if r.delayed[0].ordinal <= Next(last) {
      assert r.delayed[0] in r.delayed;
      DispatchDelayedLeavesGap(DispatchFirst(r), Max(last, r.delayed[0].ordinal));
    } else if last == r.maxDispatched {
      NothingNearIsGap(r);
    }
  }

  // What is dispatched at once goes before what is held on its channel.
  lemma ReceivedGoesFirst(r: Receiver, m: Message)
    requires Gap(r) && !ShouldDelay(r, m) && 0 <= r.maxDispatched < WRAP - 1
    requires forall y :: y in r.delayed ==> y.channel != 0
    ensures Precedes([m], r.delayed)
  {
  }

  lemma ReceiveKeepsOrder(r: Receiver, m: Message)
    requires Orderly(r) && Follows(r, m) && forall y :: y in r.delayed ==> y.ordinal != m.ordinal
    requires Gap(r)
    ensures Orderly(Receive(r, m))
  {
    if ShouldDelay(r, m) {
      assert m in [m];
      EnqueueKeeps(r.delayed, m);
    } else {
      ReceivedGoesFirst(r, m);
      DispatchKeeps(r, m);
      DispatchDelayedKeeps(Dispatch(r, m), m.ordinal);
    }
  }

  lemma ReceiveLeavesGap(r: Receiver, m: Message)
    requires Orderly(r) && Gap(r) && 1 <= m.ordinal < WRAP - 1
    requires forall y :: y in r.delayed ==> y.ordinal != m.ordinal
    ensures Gap(Receive(r, m))
  {
    if ShouldDelay(r, m) {
      EnqueueKeeps(r.delayed, m);
    } else {
      DispatchDelayedLeavesGap(Dispatch(r, m), m.ordinal);
    }
  }

  lemma ReceiveConserves(r: Receiver, m: Message, x: Message)
    ensures Arrived(Receive(r, m), x) == Arrived(r, x) + if x == m then 1 else 0
  {
    if ShouldDelay(r, m) {
      EnqueueCounts(r.delayed, m, x);
    } else {
      DispatchCounts(r, m, x);
      DispatchDelayedConserves(Dispatch(r, m), m.ordinal, x);
    }
  }

  // ----- Without traffic on channel 0 -----

  // The messages dispatched so far are the first ones, in order.
  ghost predicate Sequential(r: Receiver) {
    r.maxDispatched == |r.dispatched| && forall i :: 0 <= i < |r.dispatched| ==> r.dispatched[i].ordinal == i + 1
  }

  lemma {:induction false} DispatchDelayedSequential(r: Receiver)
    requires Sequential(r) && r.maxDispatched < WRAP - 1 && Ascending(r.delayed)
    requires forall y :: y in r.delayed ==> r.maxDispatched < y.ordinal < WRAP - 1
    ensures Sequential(DispatchDelayed(r, r.maxDispatched))
    decreases |r.delayed|
  {
    if r.delayed != [] {
      var m := r.delayed[0];
      assert m in r.delayed;
      if m.ordinal <= r.maxDispatched + 1 {
        var r1 := Dispatch(r.(delayed := r.delayed[1..]), m);
        forall y | y in r1.delayed
          ensures r1.maxDispatched < y.ordinal < WRAP - 1
        {
          var j :| 0 <= j < |r1.delayed| && r1.delayed[j] == y;
          assert r.delayed[j + 1] == y && y in r.delayed;
        }
        DispatchDelayedSequential(r1);
      }
    }
  }

  lemma ReceiveSequential(r: Receiver, m: Message)
    requires Sequential(r) && Orderly(r) && Gap(r) && m.channel != 0
    requires r.maxDispatched < m.ordinal < WRAP - 1 && forall y :: y in r.delayed ==> y.ordinal != m.ordinal
    ensures Sequential(Receive(r, m))
  {
    if !ShouldDelay(r, m) {
      DispatchDelayedSequential(Dispatch(r, m));
    }
  }

  // ----- What every run of the system keeps -----

  ghost predicate Numbered(log: seq<Message>) {
    |log| < WRAP - 1 && forall i :: 0 <= i < |log| ==> log[i].ordinal == i + 1
  }

  ghost predicate ChannelsOrdered(channels: seq<seq<Message>>) {
    forall c :: 0 <= c < |channels| ==> Ascending(channels[c]) && forall m :: m in channels[c] ==> m.channel == c
  }

  // Nothing is lost and nothing is duplicated.
  ghost predicate Conserved(s: System) {
    forall m :: multiset(s.log)[m] == Copies(s, m)
  }

  ghost function Copies(s: System, m: Message): nat {
    InFlight(s.channels, m) + Arrived(s.receiver, m)
  }

  // What is in flight on a channel was sent after what arrived on it.
  ghost predicate Fifo(s: System) {
    forall c :: 0 <= c < |s.channels| ==>
      Precedes(s.receiver.delayed, s.channels[c]) && Precedes(s.receiver.dispatched, s.channels[c])
  }

  ghost predicate NoUrgentTraffic(log: seq<Message>) {
    forall m :: m in log ==> m.channel != 0
  }

  ghost predicate Valid(s: System) {
    && Numbered(s.log) && s.lastOutbound == |s.log| && ChannelsOrdered(s.channels) && Conserved(s) && Fifo(s)
    && (forall m :: m in s.log ==> m.channel < |s.channels|)
    && Orderly(s.receiver) && Gap(s.receiver)
    && (NoUrgentTraffic(s.log) ==> Sequential(s.receiver))
  }

  lemma {:induction false} InFlightUpdate(channels: seq<seq<Message>>, c: nat, q: seq<Message>, m: Message)
    requires c < |channels|
    ensures InFlight(channels[c := q], m) + multiset(channels[c])[m] == InFlight(channels, m) + multiset(q)[m]
    decreases c
  {
    var after := channels[c := q];
    if c > 0 {
      InFlightUpdate(channels[1..], c - 1, q, m);
      assert after[1..] == channels[1..][c - 1 := q];
    } else {
      assert after[1..] == channels[1..];
    }
  }

  lemma {:induction false} InFlightMeans(channels: seq<seq<Message>>, m: Message)
    ensures InFlight(channels, m) > 0 <==> exists c :: 0 <= c < |channels| && m in channels[c]
  {
    if channels != [] {
      InFlightMeans(channels[1..], m);
      CountIsMembership(channels[0], m);
      if c :| 0 <= c < |channels| && m in channels[c] && c > 0 {
        assert m in channels[1..][c - 1];
      }
      if c :| 0 <= c < |channels[1..]| && m in channels[1..][c] {
        assert m in channels[c + 1];
      }
    }
  }

  // The log holds each message once.
  lemma {:induction false} LogIsDistinct(log: seq<Message>, m: Message)
    requires forall i :: 0 <= i < |log| ==> log[i].ordinal == i + 1
    ensures multiset(log)[m] <= 1
    ensures m in log ==> 1 <= m.ordinal <= |log| && log[m.ordinal - 1] == m
    decreases |log|
  {
    if log != [] {
      var n := |log| - 1;
      LogIsDistinct(log[..n], m);
      assert log == log[..n] + [log[n]];
    }
  }

  lemma LoggedOnce(s: System, m: Message)
    requires Numbered(s.log) && Conserved(s)
    ensures Copies(s, m) == if m in s.log then 1 else 0
    ensures m in s.log ==> 1 <= m.ordinal <= |s.log| && s.log[m.ordinal - 1] == m
  {
    LogIsDistinct(s.log, m);
    CountIsMembership(s.log, m);
    assert multiset(s.log)[m] == Copies(s, m);
  }

  lemma {:induction false} NothingInFlight(n: nat, m: Message)
    ensures InFlight(seq(n, _ => []), m) == 0
    decreases n
  {
    if n > 0 {
      NothingInFlight(n - 1, m);
      assert seq<seq<Message>>(n, _ => [])[1..] == seq<seq<Message>>(n - 1, _ => []);
    }
  }

  lemma StartIsValid(n: nat)
    ensures Valid(Start(n))
  {
    forall m | true
      ensures multiset(Start(n).log)[m] == Copies(Start(n), m)
    {
      NothingInFlight(n, m);
    }
  }

  ghost predicate Sent(s: System, x: Message) {
    x in s.receiver.delayed || x in s.receiver.dispatched || exists c :: 0 <= c < |s.channels| && x in s.channels[c]
  }

  // Nothing that has been sent carries a number above the length of the log.
  lemma SentBefore(s: System, x: Message)
    requires Numbered(s.log) && Conserved(s) && Sent(s, x)
    ensures x in s.log && 1 <= x.ordinal <= |s.log| && s.log[x.ordinal - 1] == x
  {
    InFlightMeans(s.channels, x);
    CountIsMembership(s.receiver.delayed, x);
    CountIsMembership(s.receiver.dispatched, x);
    LoggedOnce(s, x);
  }

  lemma SendConserves(s: System, c: nat, payload: Payload)
    requires Conserved(s) && c < |s.channels|
    ensures Conserved(Apply(s, Send(c, payload)))
  {
    var s1 := Apply(s, Send(c, payload));
    var m := Message(Next(s.lastOutbound), c, payload);
    forall x | true
      ensures multiset(s1.log)[x] == Copies(s1, x)
    {
      assert multiset(s.log)[x] == Copies(s, x);
      InFlightUpdate(s.channels, c, s.channels[c] + [m], x);
      CountOfConcat(s.channels[c], [m], x);
      CountOfConcat(s.log, [m], x);
    }
  }

  lemma SendKeepsOrder(s: System, c: nat, payload: Payload)
    requires Numbered(s.log) && s.lastOutbound == |s.log| && Conserved(s) && ChannelsOrdered(s.channels) && Fifo(s)
    requires c < |s.channels| && |s.log| + 1 < WRAP - 1
    ensures var s1 := Apply(s, Send(c, payload));
            Numbered(s1.log) && ChannelsOrdered(s1.channels) && Fifo(s1)
  {
    var m := Message(Next(s.lastOutbound), c, payload);
    forall x | x in s.channels[c] || x in s.receiver.delayed || x in s.receiver.dispatched
      ensures x.ordinal < m.ordinal
    {
      SentBefore(s, x);
    }
    AscendingMore(s.channels[c], m);
  }

  lemma AscendingMore(q: seq<Message>, m: Message)
    requires Ascending(q) && forall x :: x in q ==> x.ordinal < m.ordinal
    ensures Ascending(q + [m])
  {
    forall i | 0 <= i < |q|
      ensures q[i].ordinal < m.ordinal
    {
      assert q[i] in q;
    }
  }

  lemma SendKeeps(s: System, c: nat, payload: Payload)
    requires Valid(s) && c < |s.channels| && |s.log| + 1 < WRAP - 1
    ensures Valid(Apply(s, Send(c, payload)))
  {
    SendConserves(s, c, payload);
    SendKeepsOrder(s, c, payload);
    var s1 := Apply(s, Send(c, payload));
    assert forall x :: x in s.log ==> x in s1.log;
  }

  // The message at the head of a channel meets what the receiver needs of it.
  lemma HeadFollows(s: System, c: nat)
    requires Numbered(s.log) && Conserved(s) && Fifo(s) && c < |s.channels| && s.channels[c] != []
    ensures var m := s.channels[c][0];
            && m in s.log && Follows(s.receiver, m)
            && forall y :: y in s.receiver.delayed || y in s.receiver.dispatched ==> y.ordinal != m.ordinal
  {
    var m := s.channels[c][0];
    assert m in s.channels[c];
    SentBefore(s, m);
    forall y | y in s.receiver.delayed || y in s.receiver.dispatched
      ensures y.ordinal != m.ordinal
    {
      SentBefore(s, y);
      LoggedOnce(s, m);
      InFlightMeans(s.channels, m);
      CountIsMembership(s.receiver.delayed, m);
      CountIsMembership(s.receiver.dispatched, m);
    }
  }

  lemma DeliverConserves(s: System, c: nat)
    requires Conserved(s) && c < |s.channels| && s.channels[c] != []
    ensures Conserved(Apply(s, Deliver(c)))
  {
    var s1 := Apply(s, Deliver(c));
    var m, rest := s.channels[c][0], s.channels[c][1..];
    assert s.channels[c] == [m] + rest;
    forall x | true
      ensures multiset(s1.log)[x] == Copies(s1, x)
    {
      assert multiset(s.log)[x] == Copies(s, x);
      InFlightUpdate(s.channels, c, rest, x);
      CountOfConcat([m], rest, x);
      CountOfOne(m, x);
      ReceiveConserves(s.receiver, m, x);
    }
  }

  lemma DeliverFifo(s: System, c: nat)
    requires Fifo(s) && ChannelsOrdered(s.channels) && c < |s.channels| && s.channels[c] != []
    ensures Fifo(Apply(s, Deliver(c))) && ChannelsOrdered(Apply(s, Deliver(c)).channels)
  {
    var m, rest := s.channels[c][0], s.channels[c][1..];
    var r1 := Receive(s.receiver, m);
    var channels1 := s.channels[c := rest];
    assert s.channels[c] == [m] + rest;
    forall x | x in r1.delayed || x in r1.dispatched
      ensures x == m || x in s.receiver.delayed || x in s.receiver.dispatched
    {
      ReceiveConserves(s.receiver, m, x);
      CountIsMembership(r1.delayed, x);
      CountIsMembership(r1.dispatched, x);
      CountIsMembership(s.receiver.delayed, x);
      CountIsMembership(s.receiver.dispatched, x);
    }
    FirstGoesBefore(s.channels[c]);
    assert m in s.channels[c];
    forall d | 0 <= d < |s.channels|
      ensures Precedes(r1.delayed, channels1[d]) && Precedes(r1.dispatched, channels1[d])
    {
      assert forall y :: y in channels1[d] ==> y in s.channels[d];
    }
  }

  lemma EarlierIsDispatched(r: Receiver, n: int)
    requires Sequential(r) && 1 <= n <= r.maxDispatched
    ensures exists y :: y in r.dispatched && y.ordinal == n
  {
    assert r.dispatched[n - 1] in r.dispatched;
  }

  lemma DeliverKeeps(s: System, c: nat)
    requires Valid(s) && c < |s.channels| && s.channels[c] != []
    ensures Valid(Apply(s, Deliver(c)))
  {
    var m := s.channels[c][0];
    HeadFollows(s, c);
    ReceiveKeepsOrder(s.receiver, m);
    ReceiveLeavesGap(s.receiver, m);
    DeliverConserves(s, c);
    DeliverFifo(s, c);
    if NoUrgentTraffic(s.log) {
      if m.ordinal <= s.receiver.maxDispatched {
        EarlierIsDispatched(s.receiver, m.ordinal);
        assert false;
      }
      ReceiveSequential(s.receiver, m);
    }
  }

  lemma {:induction false} RunIsValid(channels: nat, steps: seq<Step>)
    requires |Run(Start(channels), steps).log| < WRAP - 1
    ensures Valid(Run(Start(channels), steps))
    decreases |steps|
  {
    if steps == [] {
      StartIsValid(channels);
    } else {
      var s := Run(Start(channels), steps[..|steps| - 1]);
      var step := steps[|steps| - 1];
      RunIsValid(channels, steps[..|steps| - 1]);
      if step.channel < |s.channels| {
        match step
        case Send(c, payload) => SendKeeps(s, c, payload);
        case Deliver(c) =>
          if s.channels[c] != [] {
            DeliverKeeps(s, c);
          }
      }
    }
  }

  // ----- What a run means to the two ends -----

  ghost predicate Travelling(s: System, m: Message) {
    exists c :: 0 <= c < |s.channels| && m in s.channels[c]
  }

  ghost predicate Reached(s: System) {
    |s.log| < WRAP - 1 && exists channels: nat, steps :: s == Run(Start(channels), steps)
  }

  lemma ReachedIsValid(s: System)
    requires Reached(s)
    ensures Valid(s)
  {
    var channels: nat, steps :| s == Run(Start(channels), steps);
    RunIsValid(channels, steps);
  }

  // Every message sent is in exactly one place: travelling, held, or dispatched; and it is dispatched at most once.
  lemma OnceAndOnlyOnce(s: System, m: Message)
    requires Reached(s)
    ensures m in s.log <==> Travelling(s, m) || m in s.receiver.delayed || m in s.receiver.dispatched
    ensures !(Travelling(s, m) && (m in s.receiver.delayed || m in s.receiver.dispatched))
    ensures !(m in s.receiver.delayed && m in s.receiver.dispatched)
    ensures multiset(s.receiver.dispatched)[m] <= 1
  {
    ReachedIsValid(s);
    LoggedOnce(s, m);
    InFlightMeans(s.channels, m);
    CountIsMembership(s.receiver.delayed, m);
    CountIsMembership(s.receiver.dispatched, m);
  }

  // A message is held only while one with a smaller number has not arrived.
  lemma HeldWaitsForTheNext(s: System, y: Message) returns (m: Message)
    requires Reached(s) && y in s.receiver.delayed
    ensures m in s.log && m.ordinal == s.receiver.maxDispatched + 1 < y.ordinal && Travelling(s, m)
  {
    ReachedIsValid(s);
    SentBefore(s, y);
    m := s.log[s.receiver.maxDispatched];
    OnceAndOnlyOnce(s, m);
  }

  // Once the channels are empty nothing is held and exactly what was sent has been dispatched.
  lemma EmptyChannelsMeanAllDispatched(s: System)
    requires Reached(s) && forall m :: !Travelling(s, m)
    ensures s.receiver.delayed == [] && multiset(s.receiver.dispatched) == multiset(s.log)
  {
    if s.receiver.delayed != [] {
      assert s.receiver.delayed[0] in s.receiver.delayed;
      var m := HeldWaitsForTheNext(s, s.receiver.delayed[0]);
      assert false;
    }
    assert Conserved(s) by {
      ReachedIsValid(s);
    }
    forall m | true
      ensures multiset(s.receiver.dispatched)[m] == multiset(s.log)[m]
    {
      InFlightMeans(s.channels, m);
      assert !Travelling(s, m);
      assert multiset(s.log)[m] == Copies(s, m);
      assert multiset(s.receiver.delayed)[m] == 0;
    }
  }

  function OnChannel(q: seq<Message>, c: nat): seq<Message> {
    if q == [] then []
    else
      var n := |q| - 1;
      if q[n].channel == c then OnChannel(q[..n], c) + [q[n]] else OnChannel(q[..n], c)
  }

  lemma {:induction false} OnChannelMeans(q: seq<Message>, c: nat)
    requires InChannelOrder(q)
    ensures Ascending(OnChannel(q, c))
    ensures forall x :: x in OnChannel(q, c) <==> x in q && x.channel == c
  {
    if q != [] {
      var n := |q| - 1;
      var before := OnChannel(q[..n], c);
      OnChannelMeans(q[..n], c);
      assert q == q[..n] + [q[n]];
      if q[n].channel == c {
        forall i | 0 <= i < |before|
          ensures before[i].ordinal < q[n].ordinal
        {
          assert before[i] in before;
        }
      }
    }
  }

  lemma PrefixStep(a: seq<Message>, b: seq<Message>, n: nat, k: nat)
    requires Ascending(a) && Ascending(b) && n < |a| && k < |b| && b[k] == a[n]
    requires n <= |b| && a[..n] == b[..n]
    requires forall x, y :: x in a && y in b && y.ordinal < x.ordinal ==> y in a
    ensures k == n
  {
    assert forall j :: 0 <= j < n ==> a[..n][j] == a[j] && b[..n][j] == b[j];
    var x, y := a[n], b[n];
    assert k >= n && x in a && y in b;
    assert forall j :: n <= j < |a| ==> x.ordinal <= a[j].ordinal;
    assert forall j :: 0 <= j < |a| && a[j] == y ==> n <= j;
    assert y.ordinal < x.ordinal ==> y in a;
  }

  lemma NextIsNext(a: seq<Message>, b: seq<Message>, n: nat)
    requires Ascending(a) && Ascending(b) && n < |a| && n <= |b| && a[..n] == b[..n]
    requires forall x :: x in a ==> x in b
    requires forall x, y :: x in a && y in b && y.ordinal < x.ordinal ==> y in a
    ensures n < |b| && a[n] == b[n]
  {
    assert a[n] in a;
    var k :| 0 <= k < |b| && b[k] == a[n];
    PrefixStep(a, b, n, k);
  }

  // An increasing sequence holding just the small elements of another is a prefix of it.
  lemma {:induction false} DownClosedIsPrefix(a: seq<Message>, b: seq<Message>, i: nat)
    requires Ascending(a) && Ascending(b) && i <= |a|
    requires forall x :: x in a ==> x in b
    requires forall x, y :: x in a && y in b && y.ordinal < x.ordinal ==> y in a
    ensures i <= |b| && a[..i] == b[..i]
  {
    if i > 0 {
      DownClosedIsPrefix(a, b, i - 1);
      NextIsNext(a, b, i - 1);
      assert a[..i] == a[..i - 1] + [a[i - 1]] && b[..i] == b[..i - 1] + [b[i - 1]];
    }
  }

  // What was sent before a dispatched message on its channel has been dispatched.
  lemma EarlierOnChannelIsDispatched(s: System, x: Message, y: Message)
    requires Reached(s) && x in s.receiver.dispatched
    requires y in s.log && y.channel == x.channel && y.ordinal < x.ordinal
    ensures y in s.receiver.dispatched
  {
    OnceAndOnlyOnce(s, y);
    assert Precedes(s.receiver.dispatched, s.receiver.delayed) && Fifo(s) && ChannelsOrdered(s.channels) by {
      ReachedIsValid(s);
    }
  }

  lemma LogIsInChannelOrder(log: seq<Message>)
    requires Numbered(log)
    ensures InChannelOrder(log)
  {
  }

  // On each channel the messages dispatched are the first ones sent on it, in the order of sending.
  lemma ChannelsKeepTheirOrder(s: System, c: nat)
    requires Reached(s)
    ensures OnChannel(s.receiver.dispatched, c) <= OnChannel(s.log, c)
  {
    var a, b := OnChannel(s.receiver.dispatched, c), OnChannel(s.log, c);
    assert Numbered(s.log) && InChannelOrder(s.receiver.dispatched) by {
      ReachedIsValid(s);
    }
    LogIsInChannelOrder(s.log);
    OnChannelMeans(s.receiver.dispatched, c);
    OnChannelMeans(s.log, c);
    DispatchedIsDownClosed(s, c);
    DownClosedIsPrefix(a, b, |a|);
    assert a[..|a|] == a && b[..|a|] == a;
  }

  lemma DispatchedIsDownClosed(s: System, c: nat)
    requires Reached(s)
    ensures var a, b := OnChannel(s.receiver.dispatched, c), OnChannel(s.log, c);
            && (forall x :: x in a ==> x in b)
            && forall x, y :: x in a && y in b && y.ordinal < x.ordinal ==> y in a
  {
    var a, b := OnChannel(s.receiver.dispatched, c), OnChannel(s.log, c);
    assert InChannelOrder(s.receiver.dispatched) && InChannelOrder(s.log) by {
      ReachedIsValid(s);
      LogIsInChannelOrder(s.log);
    }
    OnChannelMeans(s.receiver.dispatched, c);
    OnChannelMeans(s.log, c);
    forall x | x in a
      ensures x in b
    {
      OnceAndOnlyOnce(s, x);
    }
    forall x, y | x in a && y in b && y.ordinal < x.ordinal
      ensures y in a
    {
      EarlierOnChannelIsDispatched(s, x, y);
    }
  }

  // Without traffic on channel 0 the whole stream is dispatched in the order of sending.
  lemma NoUrgentTrafficKeepsTheOrder(s: System)
    requires Reached(s) && NoUrgentTraffic(s.log)
    ensures s.receiver.dispatched <= s.log
  {
    ReachedIsValid(s);
    forall i | 0 <= i < |s.receiver.dispatched|
      ensures i < |s.log| && s.receiver.dispatched[i] == s.log[i]
    {
      SentBefore(s, s.receiver.dispatched[i]);
    }
  }

  // ----- At the last ordinal -----

  function ReceiveAll(r: Receiver, ms: seq<Message>): Receiver
    decreases |ms|
  {
    if ms == [] then r else ReceiveAll(Receive(r, ms[0]), ms[1..])
  }

  // A message numbered at most one above the greatest dispatched ordinal is due: it would go out at once, did the sum
  // `maxDispatched + 1` not wrap. It is held if and only if the largest ordinal has been dispatched.
  lemma DueIsHeldIffLastDispatched(r: Receiver, m: Message)
    requires 0 <= r.maxDispatched < WRAP && m.channel != 0 && 1 <= m.ordinal < WRAP && m.ordinal <= r.maxDispatched + 1
    ensures ShouldDelay(r, m) <==> r.maxDispatched == WRAP - 1
    ensures Receive(r, m).dispatched == r.dispatched <==> r.maxDispatched == WRAP - 1
  {
    if r.maxDispatched != WRAP - 1 {
      DispatchDelayedExtends(Dispatch(r, m), m.ordinal);
    }
  }

  lemma {:induction false} DispatchDelayedExtends(r: Receiver, last: int)
    ensures r.dispatched <= DispatchDelayed(r, last).dispatched
    decreases |r.delayed|
  {
    if r.delayed != [] && r.delayed[0].ordinal <= Next(last) {
      DispatchDelayedExtends(DispatchFirst(r), Max(last, r.delayed[0].ordinal));
    }
  }

  // From then on whatever arrives on the other channels is held, until the number 0 comes round.
  lemma {:induction false} AfterTheLastOrdinalAllIsHeld(r: Receiver, ms: seq<Message>)
    requires r.maxDispatched == WRAP - 1 && forall i :: 0 <= i < |ms| ==> ms[i].channel != 0 && 1 <= ms[i].ordinal < WRAP
    ensures ReceiveAll(r, ms).dispatched == r.dispatched && |ReceiveAll(r, ms).delayed| == |r.delayed| + |ms|
    decreases |ms|
  {
    if ms != [] {
      EnqueueGrows(r.delayed, ms[0]);
      AfterTheLastOrdinalAllIsHeld(Receive(r, ms[0]), ms[1..]);
    }
  }

  lemma {:induction false} EnqueueGrows(q: seq<Message>, m: Message)
    ensures |Enqueue(q, m)| == |q| + 1
    decreases |q|
  {
    if q != [] {
      EnqueueGrows(q[1..], m);
    }
  }

  // ----- No message of a numbered channel goes before its turn -----

  // Nothing that is not on channel 0 is more than one above the greatest ordinal dispatched before it.
  ghost predicate InTurn(q: seq<Message>) {
    forall i :: 0 <= i < |q| && q[i].channel != 0 ==> q[i].ordinal <= 1 || ReachedBefore(q[..i], q[i].ordinal - 1)
  }

  ghost predicate ReachedBefore(q: seq<Message>, ordinal: int) {
    exists x :: x in q && ordinal <= x.ordinal
  }

  lemma NextInTurn(q: seq<Message>, m: Message)
    requires InTurn(q) && (m.channel == 0 || m.ordinal <= 1 || ReachedBefore(q, m.ordinal - 1))
    ensures InTurn(q + [m])
  {
    var r := q + [m];
    forall i | 0 <= i < |r| && r[i].channel != 0
      ensures r[i].ordinal <= 1 || ReachedBefore(r[..i], r[i].ordinal - 1)
    {
      assert r[..i] == q[..i];
      assert i == |q| ==> q[..i] == q;
    }
  }

  lemma {:induction false} DispatchDelayedInTurn(r: Receiver, last: int)
    requires InTurn(r.dispatched) && 0 <= last < WRAP - 1 && ReachedBefore(r.dispatched, last)
    requires forall y :: y in r.delayed ==> y.ordinal < WRAP - 1
    ensures InTurn(DispatchDelayed(r, last).dispatched)
    decreases |r.delayed|
  {
    if r.delayed != [] && r.delayed[0].ordinal <= Next(last) {
      var m, r1 := r.delayed[0], DispatchFirst(r);
      assert m in r.delayed;
      NextInTurn(r.dispatched, m);
      var x :| x in r.dispatched && last <= x.ordinal;
      assert x in r1.dispatched && m in r1.dispatched;
      forall y | y in r1.delayed
        ensures y.ordinal < WRAP - 1
      {
        assert y in r.delayed;
      }
      DispatchDelayedInTurn(r1, Max(last, m.ordinal));
    }
  }

  lemma ReceiveInTurn(r: Receiver, m: Message)
    requires Orderly(r) && InTurn(r.dispatched) && 1 <= m.ordinal < WRAP - 1
    ensures InTurn(Receive(r, m).dispatched)
  {
    if !ShouldDelay(r, m) {
      if m.channel != 0 && m.ordinal > 1 {
        var x :| x in r.dispatched && x.ordinal == r.maxDispatched;
        assert ReachedBefore(r.dispatched, m.ordinal - 1);
      }
      NextInTurn(r.dispatched, m);
      assert m in Dispatch(r, m).dispatched;
      DispatchDelayedInTurn(Dispatch(r, m), m.ordinal);
    }
  }

  lemma {:induction false} RunInTurn(channels: nat, steps: seq<Step>)
    requires |Run(Start(channels), steps).log| < WRAP - 1
    ensures InTurn(Run(Start(channels), steps).receiver.dispatched)
    decreases |steps|
  {
    if steps != [] {
      var s := Run(Start(channels), steps[..|steps| - 1]);
      var step := steps[|steps| - 1];
      RunInTurn(channels, steps[..|steps| - 1]);
      RunIsValid(channels, steps[..|steps| - 1]);
      if step.Deliver? && step.channel < |s.channels| && s.channels[step.channel] != [] {
        HeadFollows(s, step.channel);
        ReceiveInTurn(s.receiver, s.channels[step.channel][0]);
      }
    }
  }

  // In every run: a message of another channel than 0 is dispatched only once everything up to its number less one has
  // been reached.
  lemma DispatchedInTurn(s: System, i: nat)
    requires Reached(s) && i < |s.receiver.dispatched| && s.receiver.dispatched[i].channel != 0
    ensures var q, n := s.receiver.dispatched, s.receiver.dispatched[i].ordinal;
            n == 1 || exists j :: 0 <= j < i && n <= q[j].ordinal + 1
  {
    var channels: nat, steps :| s == Run(Start(channels), steps);
    RunInTurn(channels, steps);
    var q, n := s.receiver.dispatched, s.receiver.dispatched[i].ordinal;
    ReachedIsValid(s);
    assert q[i] in q;
    SentBefore(s, q[i]);
    if n > 1 {
      assert ReachedBefore(q[..i], n - 1);
      var x :| x in q[..i] && n - 1 <= x.ordinal;
      var j :| 0 <= j < i && q[..i][j] == x;
      assert q[j] == x;
    }
  }

  // A message that is due, or on channel 0, goes out at once; any other is held, and nothing is dispatched with it.
  lemma ReceiveSays(r: Receiver, m: Message)
    ensures var t := Receive(r, m);
            if m.channel == 0 || m.ordinal <= (if r.maxDispatched == 0xFFFF_FFFF then 0 else r.maxDispatched + 1) then
              r.dispatched + [m] <= t.dispatched
            else
              t.dispatched == r.dispatched && t.maxDispatched == r.maxDispatched && |t.delayed| == |r.delayed| + 1
    ensures forall x :: Arrived(Receive(r, m), x) == Arrived(r, x) + if x == m then 1 else 0
  {
    if ShouldDelay(r, m) {
      EnqueueGrows(r.delayed, m);
    } else {
      DispatchDelayedExtends(Dispatch(r, m), m.ordinal);
    }
    forall x
      ensures Arrived(Receive(r, m), x) == Arrived(r, x) + if x == m then 1 else 0
    {
      ReceiveConserves(r, m, x);
    }
  }

  lemma HeldIsAdded(q: seq<Message>, m: Message)
    ensures multiset(Enqueue(q, m)) == multiset(q) + multiset{m}
  {
    forall x
      ensures multiset(Enqueue(q, m))[x] == (multiset(q) + multiset{m})[x]
    {
      EnqueueCounts(q, m, x);
    }
  }

  // ----- How many messages the promise bears -----

  function Repeat(step: Step, k: nat): seq<Step> {
    seq(k, _ => step)
  }

  lemma {:induction false} RunConcat(s: System, a: seq<Step>, b: seq<Step>)
    ensures Run(s, a + b) == Run(Run(s, a), b)
    decreases |b|
  {
    if b == [] {
      assert a + b == a;
    } else {
      var n := |b| - 1;
      assert (a + b)[..|a| + n] == a + b[..n];
      RunConcat(s, a, b[..n]);
    }
  }

  lemma RunOneMore(s: System, step: Step, k: nat)
    ensures Run(s, Repeat(step, k + 1)) == Apply(Run(s, Repeat(step, k)), step)
  {
    assert Repeat(step, k + 1)[..k] == Repeat(step, k);
  }

  // Two channels loaded with messages that are all numbered right, none of them delivered.
  ghost predicate Loaded(s: System, plain: nat, urgent: nat) {
    && |s.channels| == 2 && s.receiver == Receiver([], 0, [])
    && |s.log| == plain + urgent && s.lastOutbound == (plain + urgent) % WRAP
    && |s.channels[1]| == plain && |s.channels[0]| == urgent
    && (forall i :: 0 <= i < plain ==> s.channels[1][i].ordinal == i + 1 && s.channels[1][i].channel == 1)
    && (forall i :: 0 <= i < urgent ==>
          s.channels[0][i].ordinal == (plain + i + 1) % WRAP && s.channels[0][i].channel == 0)
  }

  lemma LoadPlain(s: System, payload: Payload, plain: nat)
    requires Loaded(s, plain, 0) && plain + 1 < WRAP
    ensures Loaded(Apply(s, Send(1, payload)), plain + 1, 0)
  {
    assert Next(s.lastOutbound) == plain + 1;
  }

  lemma {:induction false} SendPlain(payload: Payload, k: nat)
    requires k < WRAP
    ensures Loaded(Run(Start(2), Repeat(Send(1, payload), k)), k, 0)
    decreases k
  {
    if k > 0 {
      SendPlain(payload, k - 1);
      RunOneMore(Start(2), Send(1, payload), k - 1);
      LoadPlain(Run(Start(2), Repeat(Send(1, payload), k - 1)), payload, k - 1);
    }
  }

  lemma LoadMore(s: System, payload: Payload, plain: nat, urgent: nat)
    requires Loaded(s, plain, urgent)
    ensures Loaded(Apply(s, Send(0, payload)), plain, urgent + 1)
  {
    assert Next(s.lastOutbound) == (plain + urgent + 1) % WRAP;
  }

  lemma {:induction false} SendUrgent(s: System, payload: Payload, plain: nat, k: nat)
    requires Loaded(s, plain, 0)
    ensures Loaded(Run(s, Repeat(Send(0, payload), k)), plain, k)
    decreases k
  {
    if k > 0 {
      SendUrgent(s, payload, plain, k - 1);
      RunOneMore(s, Send(0, payload), k - 1);
      LoadMore(Run(s, Repeat(Send(0, payload), k - 1)), payload, plain, k - 1);
    }
  }

  // After `i` deliveries on channel 0, the first of which carried the largest ordinal.
  ghost predicate UrgentDelivered(s: System, s0: System, i: nat) {
    && |s0.channels| == 2 == |s.channels| && i <= |s0.channels[0]| && s.log == s0.log
    && s.channels[0] == s0.channels[0][i..] && s.channels[1] == s0.channels[1]
    && s.receiver.delayed == [] && s.receiver.maxDispatched == (if i == 0 then 0 else WRAP - 1)
  }

  lemma UrgentStep(s: System, s0: System, urgent: nat, i: nat)
    requires Loaded(s0, WRAP - 2, urgent) && UrgentDelivered(s, s0, i) && i < urgent
    ensures UrgentDelivered(Apply(s, Deliver(0)), s0, i + 1)
  {
    assert s.channels[0][0] == s0.channels[0][i];
  }

  lemma {:induction false} DeliverUrgent(s0: System, urgent: nat, i: nat)
    requires Loaded(s0, WRAP - 2, urgent) && i <= urgent
    ensures UrgentDelivered(Run(s0, Repeat(Deliver(0), i)), s0, i)
    decreases i
  {
    if i > 0 {
      DeliverUrgent(s0, urgent, i - 1);
      RunOneMore(s0, Deliver(0), i - 1);
      UrgentStep(Run(s0, Repeat(Deliver(0), i - 1)), s0, urgent, i - 1);
    }
  }

  // After that, `i` deliveries on channel 1: all are held.
  ghost predicate PlainHeld(s: System, s0: System, i: nat) {
    && |s0.channels| == 2 == |s.channels| && i <= |s0.channels[1]| && s.log == s0.log
    && s.channels[0] == [] && s.channels[1] == s0.channels[1][i..]
    && |s.receiver.delayed| == i && s.receiver.maxDispatched == WRAP - 1
  }

  lemma {:induction false} DeliverPlain(s0: System, s1: System, urgent: nat, i: nat)
    requires Loaded(s0, WRAP - 2, urgent) && urgent > 0 && UrgentDelivered(s1, s0, urgent) && i <= WRAP - 2
    ensures PlainHeld(Run(s1, Repeat(Deliver(1), i)), s0, i)
    decreases i
  {
    if i > 0 {
      DeliverPlain(s0, s1, urgent, i - 1);
      RunOneMore(s1, Deliver(1), i - 1);
      var s := Run(s1, Repeat(Deliver(1), i - 1));
      var m := s.channels[1][0];
      assert m == s0.channels[1][i - 1];
      EnqueueGrows(s.receiver.delayed, m);
    }
  }

  // All but the last few messages go out on channel 1, the rest, from the largest ordinal on, on channel 0; channel 0
  // is delivered first.
  function OvertakingRun(payload: Payload, n: nat): seq<Step>
    requires n >= WRAP - 1
  {
    Repeat(Send(1, payload), WRAP - 2) + Repeat(Send(0, payload), n - (WRAP - 2)) +
    Repeat(Deliver(0), n - (WRAP - 2)) + Repeat(Deliver(1), WRAP - 2)
  }

  ghost predicate AtRest(s: System) {
    forall m :: !Travelling(s, m)
  }

  lemma OvertakingRunHolds(payload: Payload, n: nat)
    requires n >= WRAP - 1
    ensures var s := Run(Start(2), OvertakingRun(payload, n));
            |s.log| == n && AtRest(s) && s.receiver.delayed != []
  {
    var urgent := n - (WRAP - 2);
    var a, b := Repeat(Send(1, payload), WRAP - 2), Repeat(Send(0, payload), urgent);
    var c, d := Repeat(Deliver(0), urgent), Repeat(Deliver(1), WRAP - 2);
    RunConcat(Start(2), a, b);
    RunConcat(Start(2), a + b, c);
    RunConcat(Start(2), a + b + c, d);
    SendPlain(payload, WRAP - 2);
    SendUrgent(Run(Start(2), a), payload, WRAP - 2, urgent);
    DeliverUrgent(Run(Start(2), a + b), urgent, urgent);
    DeliverPlain(Run(Start(2), a + b), Run(Start(2), a + b + c), urgent, WRAP - 2);
  }

  // Once everything sent has arrived nothing is held, whatever the channels and the order of delivery: this holds of
  // the runs that send `n` messages if and only if `n` is below 2^32 - 1.
  lemma NothingHeldAtRestIff(payload: Payload, n: nat)
    ensures (forall channels: nat, steps ::
               var s := Run(Start(channels), steps); |s.log| == n && AtRest(s) ==> s.receiver.delayed == [])
            <==> n < WRAP - 1
  {
    if n < WRAP - 1 {
      forall channels: nat, steps | |Run(Start(channels), steps).log| == n && AtRest(Run(Start(channels), steps))
        ensures Run(Start(channels), steps).receiver.delayed == []
      {
        EmptyChannelsMeanAllDispatched(Run(Start(channels), steps));
      }
    } else {
      OvertakingRunHolds(payload, n);
    }
  }

  lemma {:induction false} EnqueueAt(q: seq<Message>, m: Message, i: nat)
    requires i <= |q| && forall k :: 0 <= k < i ==> q[k].ordinal < m.ordinal
    requires i < |q| ==> m.ordinal <= q[i].ordinal
    ensures Enqueue(q, m) == q[..i] + [m] + q[i..]
    decreases i
  {
    if i > 0 {
      EnqueueAt(q[1..], m, i - 1);
      assert q == [q[0]] + q[1..];
    }
  }

  // ----- One end of the connection -----

  class Endpoint {
    var written: seq<seq<Message>>
    var lastOutbound: int
    var delayed: seq<Message>
    var maxDispatched: int
    var dispatched: seq<Message>

    constructor (channels: nat)
      ensures written == Start(channels).channels && lastOutbound == Start(channels).lastOutbound
      ensures Inbound() == Start(channels).receiver
      ensures |written| == channels && (forall c :: 0 <= c < channels ==> written[c] == [])
      ensures lastOutbound == 0 && delayed == [] && maxDispatched == 0 && dispatched == []
    {
      written := seq(channels, _ => []);
      lastOutbound := 0;
      delayed := [];
      maxDispatched := 0;
      dispatched := [];
    }

    function Inbound(): Receiver
      reads this
    {
      Receiver(delayed, maxDispatched, dispatched)
    }

    // Writing is the sender's half of a step of the system.
    method Write(channel: nat, payload: Payload, ghost log: seq<Message>)
      requires channel < |written|
      modifies this`written, this`lastOutbound
      ensures var s := Apply(System(log, old(lastOutbound), old(written), Inbound()), Send(channel, payload));
              written == s.channels && lastOutbound == s.lastOutbound && s.log == log + [Message(lastOutbound, channel, payload)]
      ensures lastOutbound == if old(lastOutbound) == 0xFFFF_FFFF then 0 else old(lastOutbound) + 1
      ensures written == old(written)[channel := old(written)[channel] + [Message(lastOutbound, channel, payload)]]
    {
      lastOutbound := if lastOutbound + 1 == WRAP then 0 else lastOutbound + 1;
      written := written[channel := written[channel] + [Message(lastOutbound, channel, payload)]];
    }

    method IncomingMessageOnChannel(channel: nat, ordinal: int, payload: Payload)
      modifies this`delayed, this`maxDispatched, this`dispatched
      ensures Inbound() == Receive(old(Inbound()), Message(ordinal, channel, payload))
      ensures if channel == 0 || ordinal <= (if old(maxDispatched) == 0xFFFF_FFFF then 0 else old(maxDispatched) + 1) then
                old(dispatched) + [Message(ordinal, channel, payload)] <= dispatched
              else
                && dispatched == old(dispatched) && maxDispatched == old(maxDispatched)
                && multiset(delayed) == multiset(old(delayed)) + multiset{Message(ordinal, channel, payload)}
    {
      var m := Message(ordinal, channel, payload);
      ReceiveSays(Inbound(), m);
      HeldIsAdded(delayed, m);
      if ShouldDelay(Inbound(), m) {
        Hold(m);
        return;
      }
      maxDispatched := Max(maxDispatched, ordinal);
      dispatched := dispatched + [m];
      DispatchDelayedMessages(ordinal);
    }

    // Pushing onto the priority queue.
    method Hold(m: Message)
      modifies this`delayed
      ensures delayed == Enqueue(old(delayed), m)
    {
      var i := 0;
      while i < |delayed| && delayed[i].ordinal < m.ordinal
        invariant i <= |delayed| && delayed == old(delayed)
        invariant forall k :: 0 <= k < i ==> delayed[k].ordinal < m.ordinal
      {
        i := i + 1;
      }
      EnqueueAt(delayed, m, i);
      delayed := delayed[..i] + [m] + delayed[i..];
    }

    method DispatchDelayedMessages(last: int)
      modifies this`delayed, this`maxDispatched, this`dispatched
      ensures Inbound() == DispatchDelayed(old(Inbound()), last)
    {
      var lastOrdinal := last;
      while delayed != [] && delayed[0].ordinal <= Next(lastOrdinal)
        invariant DispatchDelayed(Inbound(), lastOrdinal) == DispatchDelayed(old(Inbound()), last)
        decreases |delayed|
      {
        var m := delayed[0];
        lastOrdinal := Max(lastOrdinal, m.ordinal);
        maxDispatched := Max(maxDispatched, m.ordinal);
        dispatched := dispatched + [m];
        delayed := delayed[1..];
      }
    }
  }
}
