/** For which groups end-to-end safety holds: a second receiver can make the sender release
    packets that the first one still misses, and then the reorder buffer is too small to
    tell one number from another. */
module RmpGroup {
  import opened Ring
  import opened Bytes
  import opened RmpWire
  import opened RmpReceiver
  import opened RmpSender
  import opened RmpSystem
  import opened RmpInvariant
  import opened RmpDelivery
  import opened RmpRecovery

  /* ----- runs that no assertion stops ----- */

  /** The assertions in front of branches that the code goes on to handle: a request out of
      range, a repeated acknowledgement, a datagram beyond the buffer or for a slot in use. */
  ghost predicate Passes(sys: System, e: Event)
    requires Enabled(sys, e)
  {
    match e
    case DeliverNak(begin, end, _, _, _) => InRange(sys.sender, begin, end)
    case DeliverAck(ackNo, _, _, _) => sys.sender.head <= ackNo
    case DeliverData(id, s, _) =>
      var r := sys.nodes[id].rcv;
      s <= r.latest + 1 || (Keeps(r, s) && At(r.slots, s) == None)
    case _ => true
  }

  ghost predicate Clean(sys: System, run: seq<Event>)
    requires ValidRun(sys, run)
    decreases |run|
  {
    run != [] ==> Passes(sys, run[0]) && Clean(Apply(sys, run[0]), run[1..])
  }

  ghost predicate StepsTo(sys: System, e: Event, sys': System)
  {
    Enabled(sys, e) && Passes(sys, e) && Apply(sys, e) == sys'
  }

  /** Such a run leads from one state to another. */
  ghost predicate Leads(sys: System, run: seq<Event>, sys': System)
    decreases |run|
  {
    if run == [] then sys == sys' else exists mid :: StepsTo(sys, run[0], mid) && Leads(mid, run[1..], sys')
  }

  lemma {:induction false} LeadsMeans(sys: System, run: seq<Event>, sys': System)
    requires Leads(sys, run, sys')
    ensures ValidRun(sys, run) && Clean(sys, run) && After(sys, run) == sys'
    decreases |run|
  {
    if run == [] {
    } else {
      LeadsMeans(Apply(sys, run[0]), run[1..], sys');
    }
  }

  lemma LeadsOne(sys: System, e: Event, mid: System, rest: seq<Event>, sys': System) returns (run: seq<Event>)
    requires StepsTo(sys, e, mid) && Leads(mid, rest, sys')
    ensures Leads(sys, run, sys')
  {
    run := [e] + rest;
    assert run[0] == e && run[1..] == rest;
  }

  lemma {:induction false} LeadsOn(sys: System, a: seq<Event>, mid: System, b: seq<Event>, sys': System)
    returns (run: seq<Event>)
    requires Leads(sys, a, mid) && Leads(mid, b, sys')
    ensures Leads(sys, run, sys')
    decreases |a|
  {
    if a == [] {
      run := b;
    } else {
      var next :| StepsTo(sys, a[0], next) && Leads(next, a[1..], mid);
      run := LeadsOn(next, a[1..], mid, b, sys');
      run := LeadsOne(sys, a[0], next, run, sys');
    }
  }

  /** Draining trips none of them. */
  lemma {:induction false} DrainIsClean(sys: System, run: seq<Event>, id: nat)
    requires ValidRun(sys, run) && forall e :: e in run ==> e == TakeNext(id)
    ensures Leads(sys, run, After(sys, run))
    decreases |run|
  {
    if run == [] {
    } else {
      assert run[0] in run && forall e :: e in run[1..] ==> e in run;
      DrainIsClean(Apply(sys, run[0]), run[1..], id);
      assert StepsTo(sys, run[0], Apply(sys, run[0]));
    }
  }

  /* ----- a receiver that misses a whole window ----- */

  /** Nothing waits for the application, and packets 2 and N + 3 are buffered; the latter
      has the slot of number 3. */
  ghost predicate FarAhead(n: Node, second: Packet, far: Packet)
  {
    && n.delivered == [] && n.rcv.block == None && n.rcv.latest == 0 && n.rcv.validBegin == 0
    && |n.rcv.slots| >= 2 && n.rcv.unvalidBegin == 2 && n.rcv.unvalidEnd == |n.rcv.slots| + 3
    && At(n.rcv.slots, 2) == Some(second) && At(n.rcv.slots, 3) == Some(far)
  }

  /** The number far beyond the window of a fresh receiver is kept, because nothing is
      buffered yet; number 2 then finds its own slot empty. */
  lemma KeepsFar(n: Node, id: nat, second: Packet, far: Packet)
    requires |n.rcv.slots| >= 2 && FreshNode(n, id)
    ensures var n1 := NodeData(n, |n.rcv.slots| + 3, far);
            && Keeps(n.rcv, |n.rcv.slots| + 3) && At(n.rcv.slots, |n.rcv.slots| + 3) == None
            && CanReceive(n1) && n1.rcv.latest == 0 && |n1.rcv.slots| == |n.rcv.slots|
            && Keeps(n1.rcv, 2) && At(n1.rcv.slots, 2) == None
            && FarAhead(NodeData(n1, 2, second), second, far) && CanReceive(NodeData(n1, 2, second))
  {
    var size := |n.rcv.slots|;
    SameSlot(3, size);
    DistinctSlots(2, 3, size);
  }

  /** Number 1 closes the gap, and the scan takes the far packet for number 3. */
  lemma TakenForThird(n: Node, first: Packet, second: Packet, far: Packet)
    requires FarAhead(n, second, far) && first != []
    ensures var n1 := NodeData(n, 1, first);
            && n1.draining && |n1.rcv.slots| > 0
            && var n2 := NodeNext(n1);
               && n2.draining && |n2.rcv.slots| > 0
               && var n3 := NodeNext(n2);
                  && n3.draining && |n3.rcv.slots| > 0
                  && var n4 := NodeNext(n3);
                     n4.delivered == [first, second, far] && Done(n4.rcv) == 3 && !Wedged(n4.rcv)
  {
    var n1 := NodeData(n, 1, first);
    DistinctSlots(2, 3, |n.rcv.slots|);
    assert n1.rcv.validBegin == 2 && n1.rcv.validEnd >= 3 && n1.rcv.slots == n.rcv.slots;
    var n2 := NodeNext(n1);
    assert n2.delivered == [first] && n2.rcv == n1.rcv.(block := None);
    var n3 := NodeNext(n2);
    assert n3.delivered == [first, second] && At(n3.rcv.slots, 3) == Some(far);
  }

  /* ----- the run of such a receiver ----- */

  /** Packets 1..count have been sent, and their datagrams are in the network. */
  ghost predicate Supply(sys: System, b: nat, count: nat)
  {
    && |sys.sender.win| > 0 && (forall id :: id in sys.nodes ==> |sys.nodes[id].rcv.slots| > 0) && b in sys.nodes
    && count <= |sys.sent| && [] !in sys.sent
    && forall i :: 1 <= i <= count ==> Original(sys.sent, i) in sys.net
  }

  lemma Deliver(sys: System, b: nat, count: nat, s: nat) returns (e: Event, sys': System)
    requires Supply(sys, b, count) && CanReceive(sys.nodes[b]) && 1 <= s <= count
    requires var r := sys.nodes[b].rcv; s <= r.latest + 1 || (Keeps(r, s) && At(r.slots, s) == None)
    ensures StepsTo(sys, e, sys') && Supply(sys', b, count) && sys'.sent == sys.sent
    ensures sys'.nodes[b] == NodeData(sys.nodes[b], s, sys.sent[s - 1]) && sys.sent[s - 1] != []
  {
    assert Original(sys.sent, s) in sys.net;
    e := DeliverData(b, s, sys.sent[s - 1]);
    sys' := Apply(sys, e);
  }

  lemma Take(sys: System, b: nat, count: nat) returns (e: Event, sys': System)
    requires Supply(sys, b, count) && sys.nodes[b].draining
    ensures StepsTo(sys, e, sys') && Supply(sys', b, count) && sys'.sent == sys.sent
    ensures sys'.nodes[b] == NodeNext(sys.nodes[b])
  {
    e := TakeNext(b);
    sys' := Apply(sys, e);
  }

  /** The rest of the run, once N + 3 and 2 have arrived. */
  lemma HandsOverFar(sys: System, b: nat, count: nat) returns (run: seq<Event>, e: System)
    requires Supply(sys, b, count) && count >= 3 && CanReceive(sys.nodes[b])
    requires FarAhead(sys.nodes[b], sys.sent[1], sys.sent[count - 1])
    ensures Leads(sys, run, e) && b in e.nodes && e.sent == sys.sent
    ensures e.nodes[b].delivered == [sys.sent[0], sys.sent[1], sys.sent[count - 1]]
    ensures Done(e.nodes[b].rcv) == 3 && !Wedged(e.nodes[b].rcv)
  {
    var one, sys1 := Deliver(sys, b, count, 1);
    TakenForThird(sys.nodes[b], sys.sent[0], sys.sent[1], sys.sent[count - 1]);
    var take1, sys2 := Take(sys1, b, count);
    var take2, sys3 := Take(sys2, b, count);
    var take3, sys4 := Take(sys3, b, count);
    e := sys4;
    run := LeadsOne(sys3, take3, e, [], e);
    run := LeadsOne(sys2, take2, sys3, run, e);
    run := LeadsOne(sys1, take1, sys2, run, e);
    run := LeadsOne(sys, one, sys1, run, e);
  }

  lemma OutOfOrder(sys: System, b: nat, far: nat)
    requires b in sys.nodes && 2 <= far < |sys.sent| && sys.sent[far] != sys.sent[2]
    requires sys.nodes[b].delivered == [sys.sent[0], sys.sent[1], sys.sent[far]]
    requires Done(sys.nodes[b].rcv) == 3 && !Wedged(sys.nodes[b].rcv)
    ensures !SafelyDelivered(sys, b)
  {
    assert sys.sent[..3][2] == sys.sent[2];
  }

  /** A fresh receiver with a buffer of any size N above one that gets N + 3, 2 and 1 hands
      over packet N + 3 in place of packet 3, and no assertion stops it. */
  lemma OverrunFails(sys: System, b: nat) returns (run: seq<Event>, e: System)
    requires b in sys.nodes && |sys.nodes[b].rcv.slots| >= 2 && FreshNode(sys.nodes[b], b)
    requires Supply(sys, b, |sys.nodes[b].rcv.slots| + 3)
    ensures Leads(sys, run, e)
    ensures b in e.nodes && e.sent == sys.sent
    ensures var n := |sys.nodes[b].rcv.slots|;
            && e.nodes[b].delivered == [sys.sent[0], sys.sent[1], sys.sent[n + 2]]
            && (sys.sent[n + 2] != sys.sent[2] ==> !SafelyDelivered(e, b))
  {
    var count := |sys.nodes[b].rcv.slots| + 3;
    KeepsFar(sys.nodes[b], b, sys.sent[1], sys.sent[count - 1]);
    var far, sys1 := Deliver(sys, b, count, count);
    var second, sys2 := Deliver(sys1, b, count, 2);
    run, e := HandsOverFar(sys2, b, count);
    run := LeadsOne(sys1, second, sys2, run, e);
    run := LeadsOne(sys, far, sys1, run, e);
    if sys.sent[count - 1] != sys.sent[2] {
      OutOfOrder(e, b, count - 1);
    }
  }

  ghost predicate FreshNode(n: Node, id: nat)
  {
    n == Node(RmpReceiver.Fresh(id, n.rcv.ackCnt, |n.rcv.slots|), false, [], {}, false)
  }

  /* ----- the run in which another receiver has everything released ----- */

  /** What the application sends as number k: packet 3 differs from all others. */
  function Payload(k: nat): Packet
  {
    if k == 3 then [1] else [0]
  }

  /** k packets have been sent and received by receiver a, and `acked` of them acknowledged;
      receiver b is still as it was, and the sender does not know of it. */
  ghost predicate Received(sys: System, a: nat, b: nat, idle: Node, k: nat, acked: nat)
  {
    && a != b && b in sys.nodes && sys.nodes[b] == idle && |sys.sender.win| >= 10
    && Inv(sys) && TrackedInv(sys, a) && CanReceive(sys.nodes[a]) && sys.nodes[a].rcv.latest == k
    && |sys.sent| == k && (forall i :: 0 <= i < k ==> sys.sent[i] == Payload(i + 1)) && sys.sender.sending == k
    && sys.sender.head == (if acked == 0 then 0 else acked + 1) && sys.sender.recvers.Keys <= {a}
    && forall i :: 1 <= i <= k ==> Original(sys.sent, i) in sys.net
  }

  ghost predicate Released(sys: System, a: nat, b: nat, idle: Node, k: nat)
  {
    Received(sys, a, b, idle, k, k)
  }

  lemma OneMulticast(s: Sender, sent: seq<Packet>)
    requires IndicesOrdered(s) && Retains(s, sent) && !Blocked(s)
    ensures var (s', out) := OnCanSend(s, 1, 0);
            && s' == s.(sending := s.sending + 1, lastHbTime := s'.lastHbTime)
            && s.sending < |sent| && Original(sent, s.sending + 1) in out
  {
    assert At(s.win, s.sending + 1) == Some(Original(sent, s.sending + 1));
    var rest := OnCanSend(s.(sending := s.sending + 1), 0, 0).1;
    assert OnCanSend(s, 1, 0).1 == [Original(sent, s.sending + 1)] + rest;
    assert OnCanSend(s, 1, 0).1[0] == Original(sent, s.sending + 1);
  }

  /** The application sends one more packet, */
  lemma QueuesOne(sys: System, a: nat, b: nat, idle: Node, k: nat) returns (e: Event, sys': System)
    requires Released(sys, a, b, idle, k)
    ensures StepsTo(sys, e, sys') && Inv(sys') && TrackedInv(sys', a) && |sys'.sender.win| >= 10
    ensures sys' == sys.(sender := sys'.sender, sent := sys.sent + [Payload(k + 1)]) && !Blocked(sys'.sender)
    ensures sys'.sender == sys.sender.(win := sys'.sender.win, tail := sys'.sender.tail)
  {
    e := AppSend(Payload(k + 1));
    NoSpaceExactly(sys.sender, Payload(k + 1));
    SenderStep(sys, e);
    TrackedSenderStep(sys, e, a);
    sys' := Apply(sys, e);
  }

  /** and the sender's output thread multicasts it. */
  lemma MulticastsOne(sys: System, a: nat, k: nat) returns (e: Event, sys': System)
    requires Inv(sys) && TrackedInv(sys, a) && |sys.sender.win| >= 10 && !Blocked(sys.sender)
    requires sys.sender.sending == k
    ensures StepsTo(sys, e, sys') && Inv(sys') && TrackedInv(sys', a)
    ensures sys' == sys.(sender := sys'.sender, net := sys'.net) && sys.net <= sys'.net
    ensures sys'.sender == sys.sender.(sending := k + 1, lastHbTime := sys'.sender.lastHbTime)
    ensures k < |sys.sent| && Original(sys.sent, k + 1) in sys'.net
  {
    e := SenderCanSend(1, 0);
    OneMulticast(sys.sender, sys.sent);
    SenderStep(sys, e);
    TrackedSenderStep(sys, e, a);
    sys' := Apply(sys, e);
  }

  ghost predicate Sent(sys: System, sys': System, k: nat)
  {
    && sys'.sent == sys.sent + [Payload(k + 1)] && |sys'.sent| == k + 1 && sys'.sender.sending == k + 1
    && sys'.sender.head == sys.sender.head && sys'.sender.recvers == sys.sender.recvers && [] !in sys'.sent
    && forall i :: 1 <= i <= k + 1 ==> Original(sys'.sent, i) in sys'.net
  }

  lemma SendsOne(sys: System, a: nat, b: nat, idle: Node, k: nat) returns (run: seq<Event>, sys': System)
    requires Released(sys, a, b, idle, k)
    ensures Leads(sys, run, sys')
    ensures Inv(sys') && TrackedInv(sys', a) && sys'.nodes == sys.nodes && |sys'.sender.win| >= 10
    ensures Sent(sys, sys', k)
  {
    var queue, sys1 := QueuesOne(sys, a, b, idle, k);
    var go, sys2 := MulticastsOne(sys1, a, k);
    sys' := sys2;
    SentNext(sys, sys1, sys', a, b, idle, k);
    run := LeadsOne(sys1, go, sys', [], sys');
    run := LeadsOne(sys, queue, sys1, run, sys');
  }

  lemma SentNext(sys: System, mid: System, sys': System, a: nat, b: nat, idle: Node, k: nat)
    requires Released(sys, a, b, idle, k)
    requires mid.sent == sys.sent + [Payload(k + 1)] && mid.net == sys.net && sys'.sent == mid.sent
    requires mid.sender.head == sys.sender.head && mid.sender.recvers == sys.sender.recvers
    requires sys'.sender == mid.sender.(sending := k + 1, lastHbTime := sys'.sender.lastHbTime)
    requires mid.net <= sys'.net && k < |mid.sent| && Original(mid.sent, k + 1) in sys'.net
    ensures Sent(sys, sys', k)
  {
    forall i | 0 <= i < k + 1 ensures sys'.sent[i] != [] {
      assert i < k ==> sys.sent[i] == Payload(i + 1);
    }
    forall i | 1 <= i <= k + 1
      ensures Original(sys'.sent, i) in sys'.net
    {
      if i <= k {
        assert Original(sys.sent, i) in sys.net;
      }
    }
  }

  /** The forced acknowledgement of the timer. */
  lemma TimerAcks(r: Receiver)
    requires r.latest > 0 && r.lastAckTime > 0
    ensures Ack(r.latest, r.id) in OnTimer(r, r.lastAckTime + SEND_ACK_INTERVAL + 1).1
  {
    var now := r.lastAckTime + SEND_ACK_INTERVAL + 1;
    var out := OnTimer(r, now).1;
    assert out[0] == Ack(r.latest, r.id);
  }

  /** Its timer leaves receiver a as it is but for the readings, */
  lemma TimerStep(sys: System, a: nat, now: nat) returns (e: Event, sys': System)
    requires Inv(sys) && TrackedInv(sys, a) && CanReceive(sys.nodes[a])
    ensures e == RecverCanSend(a, now) && StepsTo(sys, e, sys') && TimerOnly(sys, sys', a)
    ensures sys'.nodes[a].rcv == OnTimer(sys.nodes[a].rcv, now).0
    ensures forall d :: d in OnTimer(sys.nodes[a].rcv, now).1 ==> d in sys'.net
  {
    e := RecverCanSend(a, now);
    ReceiverStep(sys, e);
    TrackedTimerStep(sys, e, a);
    TimerBounded(sys.nodes[a], a, sys.sender.sending, now);
    sys' := Apply(sys, e);
  }

  ghost predicate TimerOnly(sys: System, sys': System, a: nat)
    requires a in sys.nodes
  {
    && Inv(sys') && TrackedInv(sys', a) && CanReceive(sys'.nodes[a]) && Elsewhere(sys, sys', a)
    && sys'.sent == sys.sent && sys.net <= sys'.net && sys'.nodes[a].rcv.latest == sys.nodes[a].rcv.latest
  }

  /** which it remembers, */
  lemma StartsTimer(sys: System, a: nat) returns (e: Event, sys': System)
    requires Inv(sys) && TrackedInv(sys, a) && CanReceive(sys.nodes[a])
    ensures e.RecverCanSend? && StepsTo(sys, e, sys') && TimerOnly(sys, sys', a) && sys'.nodes[a].rcv.lastAckTime > 0
    ensures e.now == sys'.nodes[a].rcv.lastAckTime
    ensures sys.nodes[a].rcv.lastAckTime in {0, e.now}
  {
    var last := sys.nodes[a].rcv.lastAckTime;
    e, sys' := TimerStep(sys, a, if last == 0 then 1 else last);
  }

  /** and acknowledges what it has got once enough time has passed. */
  lemma ForcesNow(sys: System, a: nat) returns (e: Event, sys': System)
    requires Inv(sys) && TrackedInv(sys, a) && CanReceive(sys.nodes[a])
    requires sys.nodes[a].rcv.latest > 0 && sys.nodes[a].rcv.lastAckTime > 0
    ensures e.RecverCanSend? && StepsTo(sys, e, sys') && TimerOnly(sys, sys', a)
    ensures e.now > sys.nodes[a].rcv.lastAckTime
    ensures Ack(sys.nodes[a].rcv.latest, a) in sys'.net
  {
    TimerAcks(sys.nodes[a].rcv);
    e, sys' := TimerStep(sys, a, sys.nodes[a].rcv.lastAckTime + SEND_ACK_INTERVAL + 1);
  }

  /** Its clock never runs backwards. */
  lemma ForcesAck(sys: System, a: nat) returns (run: seq<Event>, sys': System)
    requires Inv(sys) && TrackedInv(sys, a) && CanReceive(sys.nodes[a]) && sys.nodes[a].rcv.latest > 0
    ensures Leads(sys, run, sys') && TimerOnly(sys, sys', a)
    ensures Ack(sys.nodes[a].rcv.latest, a) in sys'.net
  {
    var start, mid := StartsTimer(sys, a);
    var force, end := ForcesNow(mid, a);
    sys' := end;
    run := LeadsOne(mid, force, sys', [], sys');
    run := LeadsOne(sys, start, mid, run, sys');
  }

  /** The sender hears of it and releases everything. */
  lemma HearsAck(sys: System, a: nat, k: nat) returns (e: Event, sys': System)
    requires Inv(sys) && TrackedInv(sys, a) && Ack(k, a) in sys.net && sys.nodes[a].rcv.latest == k
    requires sys.sender.head <= k && sys.sender.recvers.Keys <= {a}
    ensures StepsTo(sys, e, sys') && Inv(sys') && TrackedInv(sys', a)
    ensures sys' == sys.(sender := sys.sender.(head := k + 1, recvers := sys'.sender.recvers))
    ensures sys'.sender.recvers.Keys <= {a}
  {
    var order := [a];
    assert forall id :: id in order <==> id == a;
    e := DeliverAck(k, a, 0, order);
    AckAlone(sys.sender, k, a, order);
    AckStep(sys, e);
    TrackedFeedbackStep(sys, e, a);
    sys' := Apply(sys, e);
  }

  lemma AckAlone(s: Sender, k: nat, a: nat, order: seq<nat>)
    requires order == [a] && Enumerates(order, s.recvers.Keys + {a}) && s.head <= k && Entry(s.recvers, a).acked <= k
    ensures var s' := OnAck(s, k, a, 0, order);
            s' == s.(head := k + 1, recvers := s'.recvers) && s'.recvers.Keys == {a}
  {
    AckTable(s, k, a, 0, order);
    AckHead(s, k, a, 0, order);
    assert forall id :: id in s.recvers ==> id in order;
  }

  lemma GetsOne(sys: System, a: nat, next: nat) returns (run: seq<Event>, sys': System)
    requires Inv(sys) && TrackedInv(sys, a) && CanReceive(sys.nodes[a]) && [] !in sys.sent
    requires next == sys.nodes[a].rcv.latest + 1 == |sys.sent| && Original(sys.sent, next) in sys.net
    ensures Leads(sys, run, sys') && Settles(sys, sys', a) && sys'.nodes[a].rcv.latest == next
  {
    var e := DeliverData(a, next, sys.sent[next - 1]);
    ReceivesOne(sys, a, next);
    var mid := Apply(sys, e);
    run := DrainEnds(mid, a);
    DrainIsClean(mid, run, a);
    sys' := After(mid, run);
    run := LeadsOne(sys, e, mid, run, sys');
    assert NodeBounded(sys'.nodes[a], a, sys'.sender.sending);
  }

  lemma ReceivesNext(sys: System, a: nat, b: nat, idle: Node, k: nat) returns (run: seq<Event>, sys': System)
    requires Released(sys, a, b, idle, k)
    ensures Leads(sys, run, sys') && Received(sys', a, b, idle, k + 1, k)
  {
    var sends, s1 := SendsOne(sys, a, b, idle, k);
    var gets, s2 := GetsOne(s1, a, k + 1);
    sys' := s2;
    NextReceived(sys, s1, sys', a, b, idle, k);
    run := LeadsOn(sys, sends, s1, gets, sys');
  }

  lemma NextReceived(sys: System, mid: System, sys': System, a: nat, b: nat, idle: Node, k: nat)
    requires Released(sys, a, b, idle, k) && Sent(sys, mid, k) && mid.nodes == sys.nodes && |mid.sender.win| >= 10
    requires Settles(mid, sys', a) && sys'.nodes[a].rcv.latest == k + 1
    ensures Received(sys', a, b, idle, k + 1, k)
  {
    assert b in sys'.nodes.Keys;
    forall i | 0 <= i < k + 1 ensures sys'.sent[i] == Payload(i + 1) {
      assert i < k ==> sys.sent[i] == Payload(i + 1);
    }
  }

  lemma AcksNext(sys: System, a: nat, b: nat, idle: Node, k: nat) returns (run: seq<Event>, sys': System)
    requires Received(sys, a, b, idle, k + 1, k)
    ensures Leads(sys, run, sys') && Released(sys', a, b, idle, k + 1)
  {
    var acks, s1 := ForcesAck(sys, a);
    var hears, s2 := HearsAck(s1, a, k + 1);
    sys' := s2;
    run := LeadsOne(s1, hears, sys', [], sys');
    run := LeadsOn(sys, acks, s1, run, sys');
  }

  /** One more packet goes through to receiver a alone. */
  lemma ReleasesOne(sys: System, a: nat, b: nat, idle: Node, k: nat) returns (run: seq<Event>, sys': System)
    requires Released(sys, a, b, idle, k)
    ensures Leads(sys, run, sys') && Released(sys', a, b, idle, k + 1)
  {
    var gets, mid := ReceivesNext(sys, a, b, idle, k);
    var acks, end := AcksNext(mid, a, b, idle, k);
    sys' := end;
    run := LeadsOn(sys, gets, mid, acks, sys');
  }

  lemma {:induction false} ReleasesMany(sys: System, a: nat, b: nat, idle: Node, k: nat, n: nat)
    returns (run: seq<Event>, sys': System)
    requires Released(sys, a, b, idle, k) && k <= n
    ensures Leads(sys, run, sys') && Released(sys', a, b, idle, n)
    decreases n - k
  {
    if k == n {
      run, sys' := [], sys;
    } else {
      var one, mid := ReleasesOne(sys, a, b, idle, k);
      var rest, end := ReleasesMany(mid, a, b, idle, k + 1, n);
      sys' := end;
      run := LeadsOn(sys, one, mid, rest, sys');
    }
  }

  lemma StartsReleased(sys: System, a: nat, b: nat)
    requires Initial(sys) && |sys.sender.win| >= 10 && a in sys.nodes && b in sys.nodes && a != b
    ensures Released(sys, a, b, sys.nodes[b], 0) && FreshNode(sys.nodes[b], b)
  {
    InitialInv(sys);
    InitialTracked(sys, a);
  }

  lemma ReleasedSupplies(sys: System, a: nat, b: nat, idle: Node, k: nat)
    requires Released(sys, a, b, idle, k)
    ensures Supply(sys, b, k)
  {
    assert forall id :: id in sys.nodes ==> NodeBounded(sys.nodes[id], id, sys.sender.sending);
  }

  /** With two receivers, a window of ten or more and a reorder buffer of more than one slot,
      some run that no assertion stops hands over packets out of order. */
  lemma SecondReceiverFails(sys: System, a: nat, b: nat) returns (run: seq<Event>)
    requires Initial(sys) && |sys.sender.win| >= 10 && a in sys.nodes && b in sys.nodes && a != b
    requires |sys.nodes[b].rcv.slots| >= 2
    ensures ValidRun(sys, run) && Clean(sys, run) && !SafelyDelivered(After(sys, run), b)
  {
    var idle := sys.nodes[b];
    var n := |idle.rcv.slots| + 3;
    StartsReleased(sys, a, b);
    var releases, s1 := ReleasesMany(sys, a, b, idle, 0, n);
    ReleasedSupplies(s1, a, b, idle, n);
    assert s1.sent[2] == Payload(3) && s1.sent[n - 1] == Payload(n);
    var overrun, s2 := OverrunFails(s1, b);
    run := LeadsOn(sys, releases, s1, overrun, s2);
    LeadsMeans(sys, run, s2);
  }

  /* ----- a buffer of one slot ----- */

  /** The only slot is empty, or holds the only packet that is buffered. */
  ghost predicate HoldsOne(r: Receiver, sent: seq<Packet>)
  {
    && |r.slots| == 1 && r.unvalidBegin == r.unvalidEnd
    && (if r.unvalidBegin == 0 then r.slots[0] == None
        else r.latest + 1 < r.unvalidBegin <= |sent| && r.slots[0] == Some(sent[r.unvalidBegin - 1]))
  }

  /** The packet that is to be handed over is in it, or has been. */
  ghost predicate HandsOne(r: Receiver, sent: seq<Packet>)
  {
    && |r.slots| == 1 && r.unvalidBegin == r.unvalidEnd == 0 && r.validEnd == r.latest
    && (if 0 < r.validBegin == r.latest <= |sent| then r.slots[0] == Some(sent[r.latest - 1])
        else r.validBegin == r.latest + 1 && r.slots[0] == None)
  }

  ghost predicate OneSlot(n: Node, sent: seq<Packet>)
  {
    && Delivers(n, sent) && n.rcv.latest <= |sent|
    && if n.rcv.validBegin == 0 then n.rcv.validEnd == 0 && HoldsOne(n.rcv, sent) else HandsOne(n.rcv, sent)
  }

  lemma ActivatesOne(r: Receiver, sent: seq<Packet>, p: Packet)
    requires HoldsOne(r, sent) && r.validBegin == r.validEnd == 0 && r.latest + 1 <= |sent|
    ensures var r' := Activate(r.(latest := r.latest + 1, block := Some(p)));
            if r.latest + 2 == r.unvalidBegin then
              && HandsOne(r', sent) && r'.latest <= |sent| && r'.validBegin == r'.latest
              && r' == r.(block := Some(p), latest := r.latest + 2, validBegin := r.latest + 2,
                          validEnd := r.latest + 2, unvalidBegin := 0, unvalidEnd := 0)
            else r' == r.(latest := r.latest + 1, block := Some(p)) && HoldsOne(r', sent)
  {
  }

  /** The next number in order, with the buffered packet behind it or not, */
  lemma OneSlotInOrder(n: Node, sent: seq<Packet>, s: nat)
    requires OneSlot(n, sent) && CanReceive(n) && s == n.rcv.latest + 1 <= |sent|
    ensures OneSlot(NodeData(n, s, sent[s - 1]), sent)
  {
    ActivatesOne(n.rcv, sent, sent[s - 1]);
    InOrderDelivers(n, NodeData(n, s, sent[s - 1]), sent);
  }

  lemma InOrderDelivers(n: Node, n': Node, sent: seq<Packet>)
    requires Delivers(n, sent) && CanReceive(n) && n.rcv.latest < |sent|
    requires n' == n.(rcv := n'.rcv, draining := true, accepted := n'.accepted)
    requires n'.rcv.block == Some(sent[n.rcv.latest])
    requires (n'.rcv.latest == n.rcv.latest + 1 && n'.rcv.validBegin == 0) || n'.rcv.validBegin == n.rcv.latest + 2
    ensures Delivers(n', sent)
  {
    var k := n.rcv.latest;
    if sent[k] == [] {
      assert sent[..k + 1] == sent[..k] + [sent[k]];
      NonEmptySnoc(sent[..k], sent[k]);
    }
  }

  /** or a number ahead of it. */
  lemma OneSlotAhead(n: Node, sent: seq<Packet>, s: nat)
    requires OneSlot(n, sent) && CanReceive(n) && n.rcv.latest + 1 < s <= |sent| && At(n.rcv.slots, s) == None
    ensures OneSlot(NodeData(n, s, sent[s - 1]), sent)
  {
    assert s % 1 == 0;
    var n' := NodeData(n, s, sent[s - 1]);
    assert n.rcv.unvalidBegin == 0 && n'.rcv.slots == [Some(sent[s - 1])];
    assert n' == n.(rcv := n.rcv.(unvalidBegin := s, unvalidEnd := s, slots := n'.rcv.slots), accepted := n'.accepted);
  }

  /** What one call for the next received data does to the buffer and the block. */
  lemma NextOfOne(r: Receiver, sent: seq<Packet>)
    requires HandsOne(r, sent) && r.latest <= |sent| && !(r.block.Some? && r.block.value != [])
    ensures var (r', next, _) := NextData(r);
            if r.validBegin == r.latest then
              && r' == r.(validBegin := r.latest + 1, slots := [None]) && HandsOne(r', sent)
              && next == Got(Some(sent[r.latest - 1]))
            else
              && r' == r.(validBegin := 0, validEnd := 0, confirmed := r'.confirmed) && HoldsOne(r', sent)
              && next == NoData
  {
    assert r.validBegin % 1 == 0;
  }

  lemma OneSlotNext(n: Node, sent: seq<Packet>)
    requires OneSlot(n, sent) && n.draining
    ensures OneSlot(NodeNext(n), sent)
  {
    if n.rcv.block.Some? && n.rcv.block.value != [] {
      HandOver(n, NodeNext(n), sent);
    } else if n.rcv.validBegin > 0 {
      NextOfOne(n.rcv, sent);
      if n.rcv.validBegin == n.rcv.latest {
        HandOver(n, NodeNext(n), sent);
      }
    }
  }

  lemma OneSlotMoreSent(n: Node, sent: seq<Packet>, p: Packet)
    requires OneSlot(n, sent)
    ensures OneSlot(n, sent + [p])
  {
    MoreSentDelivers(n, sent, p);
  }

  ghost predicate OneSlotAt(sys: System, id: nat)
  {
    Inv(sys) && id in sys.nodes && OneSlot(sys.nodes[id], sys.sent)
  }

  /** The receiver itself, its application, or anything else. */
  lemma OneSlotOwnStep(sys: System, e: Event, id: nat)
    requires OneSlotAt(sys, id) && Enabled(sys, e) && Passes(sys, e)
    requires (e.DeliverData? || e.TakeNext?) && e.id == id
    ensures OneSlot(Apply(sys, e).nodes[id], sys.sent)
  {
    match e
    case DeliverData(_, s, p) =>
      assert Truthful(sys, Data(s, p));
      if s == sys.nodes[id].rcv.latest + 1 {
        OneSlotInOrder(sys.nodes[id], sys.sent, s);
      } else if s > sys.nodes[id].rcv.latest {
        OneSlotAhead(sys.nodes[id], sys.sent, s);
      }
    case TakeNext(_) => OneSlotNext(sys.nodes[id], sys.sent);
  }

  lemma OneSlotOtherStep(sys: System, e: Event, id: nat)
    requires OneSlotAt(sys, id) && Enabled(sys, e) && !((e.DeliverData? || e.TakeNext?) && e.id == id)
    ensures id in Apply(sys, e).nodes && OneSlot(Apply(sys, e).nodes[id], Apply(sys, e).sent)
  {
    if e.AppSend? {
      OneSlotMoreSent(sys.nodes[id], sys.sent, e.p);
    } else if e.RecverCanSend? && e.id == id {
      TimerBounded(sys.nodes[id], id, sys.sender.sending, e.now);
      OneSlotTimer(sys.nodes[id], sys.sent, OnTimer(sys.nodes[id].rcv, e.now).0);
    } else {
      assert id in Apply(sys, e).nodes && Apply(sys, e).nodes[id] == sys.nodes[id] && Apply(sys, e).sent == sys.sent;
    }
  }

  lemma OneSlotTimer(n: Node, sent: seq<Packet>, r: Receiver)
    requires OneSlot(n, sent) && r == n.rcv.(lastAckTime := r.lastAckTime, lastNakTime := r.lastNakTime)
    ensures OneSlot(n.(rcv := r), sent)
  {
  }

  /** As long as no assertion stops it, one slot is enough to tell packets apart. */
  lemma OneSlotStep(sys: System, e: Event, id: nat)
    requires OneSlotAt(sys, id) && Enabled(sys, e) && Passes(sys, e)
    ensures OneSlotAt(Apply(sys, e), id)
  {
    StepInv(sys, e);
    if (e.DeliverData? || e.TakeNext?) && e.id == id {
      OneSlotOwnStep(sys, e, id);
    } else {
      OneSlotOtherStep(sys, e, id);
    }
  }

  lemma {:induction false} OneSlotRun(sys: System, run: seq<Event>, id: nat)
    requires OneSlotAt(sys, id) && ValidRun(sys, run) && Clean(sys, run)
    ensures OneSlotAt(After(sys, run), id)
    decreases |run|
  {
    if run == [] {
    } else {
      OneSlotStep(sys, run[0], id);
      OneSlotRun(Apply(sys, run[0]), run[1..], id);
    }
  }

  /** A receiver with one slot is safe in every run that no assertion stops, tracked or not. */
  lemma OneSlotSafe(sys: System, run: seq<Event>, id: nat)
    requires Initial(sys) && id in sys.nodes && |sys.nodes[id].rcv.slots| == 1
    requires ValidRun(sys, run) && Clean(sys, run)
    ensures SafelyDelivered(After(sys, run), id)
  {
    InitialInv(sys);
    OneSlotRun(sys, run, id);
  }

  /* ----- the groups that are safe ----- */

  /** A window of less than ten has no tenth: nothing is ever multicast or released. */
  ghost predicate Silent(sys: System)
  {
    Inv(sys) && |sys.sender.win| < 10 && sys.sender.head == 0 && sys.sender.sending == 0
  }

  lemma StaysSilent(sys: System, e: Event)
    requires Silent(sys) && Enabled(sys, e)
    ensures Silent(Apply(sys, e))
  {
    StepInv(sys, e);
    if e.SenderCanSend? {
      CanSendKeeps(sys.sender, sys.sent, e.accept, e.now);
    }
  }

  lemma {:induction false} SilentTracked(sys: System, run: seq<Event>, id: nat)
    requires Silent(sys) && ValidRun(sys, run)
    ensures TrackedAlong(sys, run, id)
    decreases |run|
  {
    if run == [] {
    } else {
      StaysSilent(sys, run[0]);
      SilentTracked(Apply(sys, run[0]), run[1..], id);
    }
  }

  /** With one receiver, or a silent window, every run is safe, and no assertion is needed. */
  lemma SmallGroupSafe(sys: System, run: seq<Event>, id: nat)
    requires Initial(sys) && (|sys.nodes.Keys| <= 1 || |sys.sender.win| < 10)
    requires id in sys.nodes && ValidRun(sys, run)
    ensures SafelyDelivered(After(sys, run), id)
  {
    if |sys.sender.win| < 10 {
      InitialInv(sys);
      SilentTracked(sys, run, id);
      EndToEnd(sys, run, id);
    } else {
      OnlyOne(sys.nodes.Keys, id);
      EndToEndLone(sys, run, id);
    }
  }

  lemma OnlyOne(ids: set<nat>, id: nat)
    requires id in ids && |ids| <= 1
    ensures ids == {id}
  {
    assert |ids - {id}| == |ids| - 1;
  }

  ghost predicate SafeIn(sys: System, run: seq<Event>, id: nat)
  {
    id in sys.nodes && ValidRun(sys, run) && Clean(sys, run) ==> SafelyDelivered(After(sys, run), id)
  }

  ghost predicate OneSlotEach(sys: System)
  {
    forall id :: id in sys.nodes ==> |sys.nodes[id].rcv.slots| == 1
  }

  /** End-to-end safety, exactly: every receiver of a freshly opened group is safe in every
      run that no assertion stops if and only if there is at most one, or the window is too
      small to send at all, or every reorder buffer has a single slot. */
  lemma SafeExactly(sys: System)
    requires Initial(sys)
    ensures (forall run, id :: SafeIn(sys, run, id)) <==>
              |sys.nodes.Keys| <= 1 || |sys.sender.win| < 10 || OneSlotEach(sys)
  {
    if |sys.nodes.Keys| <= 1 || |sys.sender.win| < 10 || OneSlotEach(sys) {
      forall run, id | id in sys.nodes && ValidRun(sys, run) && Clean(sys, run)
        ensures SafelyDelivered(After(sys, run), id)
      {
        if OneSlotEach(sys) {
          OneSlotSafe(sys, run, id);
        } else {
          SmallGroupSafe(sys, run, id);
        }
      }
    } else {
      var b :| b in sys.nodes && |sys.nodes[b].rcv.slots| != 1;
      assert b in sys.nodes.Keys && |sys.nodes.Keys - {b}| >= 1;
      var a :| a in sys.nodes.Keys - {b};
      var run := SecondReceiverFails(sys, a, b);
      assert !SafeIn(sys, run, b);
    }
  }
}
