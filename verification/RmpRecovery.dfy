/** Progress: nothing is ever taken back, requests for retransmission are exact and are
    granted, and one round of heartbeat, request and retransmission closes every gap. */
module RmpRecovery {
  import Ring
  import opened Bytes
  import opened RmpWire
  import opened RmpReceiver
  import opened RmpSender
  import opened RmpSystem
  import opened RmpInvariant
  import opened RmpDelivery

  /** The datagram of packet number `k`. */
  function Original(sent: seq<Packet>, k: nat): Datagram
    requires 1 <= k <= |sent|
  {
    Data(k, sent[k - 1])
  }

  /** Indices, the sent packets, the network and every receiver's progress only grow. */
  ghost predicate Grows(sys: System, sys': System)
  {
    && sys.sender.head <= sys'.sender.head && sys.sender.tail <= sys'.sender.tail
    && sys.sender.sending <= sys'.sender.sending
    && sys.sent <= sys'.sent && sys.net <= sys'.net && sys.nodes.Keys == sys'.nodes.Keys
    && forall id :: id in sys.nodes ==>
         sys.nodes[id].rcv.latest <= sys'.nodes[id].rcv.latest && sys.nodes[id].delivered <= sys'.nodes[id].delivered
  }

  lemma StepGrows(sys: System, e: Event)
    requires Inv(sys) && Enabled(sys, e)
    ensures Grows(sys, Apply(sys, e))
  {
    match e
    case AppSend(_) =>
    case SenderCanSend(accept, now) => CanSendKeeps(sys.sender, sys.sent, accept, now);
    case DeliverNak(_, _, _, _, _) =>
    case DeliverAck(k, id, now, order) =>
      if sys.sender.head <= k {
        AckHead(sys.sender, k, id, now, order);
      }
    case DeliverData(id, s, p) =>
      assert Truthful(sys, Data(s, p));
      DataBounded(sys.nodes[id], id, sys.sender.sending, s, p);
    case DeliverHeartbeat(_, _, _) =>
    case TakeNext(id) => NextBounded(sys.nodes[id], id, sys.sender.sending);
    case RecverCanSend(id, now) => TimerBounded(sys.nodes[id], id, sys.sender.sending, now);
  }

  lemma {:induction false} RunGrows(sys: System, run: seq<Event>)
    requires Inv(sys) && ValidRun(sys, run)
    ensures Grows(sys, After(sys, run))
    decreases |run|
  {
    if run == [] {
    } else {
      StepGrows(sys, run[0]);
      StepInv(sys, run[0]);
      RunGrows(Apply(sys, run[0]), run[1..]);
    }
  }

  /** Sender index invariant over whole runs, from the start: ordered, within one window,
      the unsigned difference of the sending loop is the true one, and nothing falls. */
  lemma SenderIndices(sys: System, run: seq<Event>)
    requires Initial(sys) && ValidRun(sys, run)
    ensures var s := After(sys, run).sender;
            && s.head <= s.sending + 1 <= s.tail && s.tail - s.head <= |s.win| - 1
            && Sub(s.sending + 1, s.head) == s.sending + 1 - s.head
            && s.tail == |After(sys, run).sent| + 1
            && (forall k :: 1 <= k < s.tail && s.head <= k ==>
                  Ring.At(s.win, k) == Some(Original(After(sys, run).sent, k)))
            && Grows(sys, After(sys, run))
  {
    InitialInv(sys);
    RunInv(sys, run);
    RunGrows(sys, run);
  }

  /** Retention: the head passes a number only on an acknowledgement, and then every
      receiver that stays in the table has confirmed it and everything before it. */
  lemma HeadPasses(sys: System, e: Event)
    requires Inv(sys) && Enabled(sys, e) && Apply(sys, e).sender.head != sys.sender.head
    ensures e.DeliverAck?
    ensures var s := Apply(sys, e).sender;
            && sys.sender.head < s.head
            && (forall id :: id in s.recvers ==>
                 (id in sys.nodes && s.head - 1 <= s.recvers[id].acked <= sys.nodes[id].rcv.latest))
  {
    if e.SenderCanSend? {
      CanSendKeeps(sys.sender, sys.sent, e.accept, e.now);
    }
    if e.DeliverAck? && sys.sender.head <= e.ackNo {
      assert Truthful(sys, Ack(e.ackNo, e.id));
      AckTable(sys.sender, e.ackNo, e.id, e.now, e.order);
      AckHead(sys.sender, e.ackNo, e.id, e.now, e.order);
    }
  }

  /** Retention: `send` overwrites a slot only when the head has passed its old packet. */
  lemma SlotReuse(sys: System, p: Packet, k: nat)
    requires Inv(sys) && OnSend(sys.sender, p).1 == Suc
    requires 1 <= k < sys.sender.tail && k % |sys.sender.win| == sys.sender.tail % |sys.sender.win|
    ensures k < sys.sender.head
  {
    if sys.sender.head <= k {
      Ring.DistinctSlots(k, sys.sender.tail, |sys.sender.win|);
    }
  }

  lemma LoneStep(sys: System, e: Event, id: nat)
    requires Inv(sys) && Enabled(sys, e) && sys.nodes.Keys == {id} && Tracked(sys, id)
    ensures Apply(sys, e).nodes.Keys == {id} && Tracked(Apply(sys, e), id)
  {
    if e.SenderCanSend? {
      CanSendKeeps(sys.sender, sys.sent, e.accept, e.now);
    } else if e.DeliverAck? {
      assert Truthful(sys, Ack(e.ackNo, e.id));
      if sys.sender.head <= e.ackNo {
        AckTable(sys.sender, e.ackNo, e.id, e.now, e.order);
      }
    }
  }

  /** A lone receiver is tracked along every run: it is in the table before the head first
      moves, and the receiver that acknowledges is never the one evicted. */
  lemma {:induction false} LoneReceiverTracked(sys: System, run: seq<Event>, id: nat)
    requires Inv(sys) && ValidRun(sys, run) && sys.nodes.Keys == {id} && Tracked(sys, id)
    ensures TrackedAlong(sys, run, id)
    decreases |run|
  {
    if run == [] {
    } else {
      StepInv(sys, run[0]);
      LoneStep(sys, run[0], id);
      LoneReceiverTracked(Apply(sys, run[0]), run[1..], id);
    }
  }

  /** With one receiver, end-to-end safety needs no hypothesis about the table. */
  lemma EndToEndLone(sys: System, run: seq<Event>, id: nat)
    requires Initial(sys) && sys.nodes.Keys == {id} && ValidRun(sys, run)
    ensures SafelyDelivered(After(sys, run), id)
  {
    InitialInv(sys);
    assert id in sys.nodes.Keys;
    LoneReceiverTracked(sys, run, id);
    EndToEnd(sys, run, id);
  }

  /** A request of a tracked receiver that has not moved past its beginning is in the
      sender's range, and the retransmission is exactly the packets asked for, in order. */
  lemma NakGranted(sys: System, id: nat, begin: nat, end: nat, accept: nat)
    requires Inv(sys) && TrackedInv(sys, id) && Nak(begin, end, id) in sys.net
    requires sys.nodes[id].rcv.latest < begin && end - begin < accept
    ensures InRange(sys.sender, begin, end)
    ensures |sys.sender.win| > 0 && end <= |sys.sent|
    ensures var out := Resend(sys.sender.win, begin, end, accept);
            |out| == end - begin + 1 && forall i :: begin <= i <= end ==> out[i - begin] == Original(sys.sent, i)
  {
    assert Truthful(sys, Nak(begin, end, id));
    HeadBound(sys, id);
    ResendMeaning(sys.sender, sys.sent, begin, end, accept);
    var out := Resend(sys.sender.win, begin, end, accept);
    forall i | begin <= i <= end
      ensures out[i - begin] == Original(sys.sent, i)
    {
      var j := i - begin;
      assert out[j] == Data(begin + j, sys.sent[begin + j - 1]);
    }
  }

  /** NAK exactness: the timer of a tracked receiver sends a request exactly when something
      is buffered and the interval has passed; it is one non-empty range that starts after
      the last in-order number, contains no accepted number, ends just below an accepted
      one, and is in the sender's range. */
  lemma GapNakExact(sys: System, id: nat, now: nat)
    requires Inv(sys) && TrackedInv(sys, id)
    requires sys.nodes[id].rcv.lastAckTime <= now && 0 < sys.nodes[id].rcv.lastNakTime <= now
    ensures var (n, out) := (sys.nodes[id], OnTimer(sys.nodes[id].rcv, now).1);
            && ((exists d :: d in out && d.Nak?) <==>
                  n.rcv.unvalidBegin != 0 && now - n.rcv.lastNakTime > SEND_NAK_INTERVAL)
            && forall d :: d in out && d.Nak? ==>
                 && d == Nak(n.rcv.latest + 1, n.rcv.unvalidBegin - 1, id) && d.begin <= d.end
                 && (forall k :: d.begin <= k <= d.end ==> k !in n.accepted)
                 && d.end + 1 in n.accepted && sys.sender.head <= d.begin && d.end < sys.sender.tail
  {
    var r := sys.nodes[id].rcv;
    var out := OnTimer(r, now).1;
    TimerExactly(r, now);
    if r.unvalidBegin != 0 && now - r.lastNakTime > SEND_NAK_INTERVAL {
      assert r.latest + 1 < r.unvalidBegin;
      assert out[|out| - 1] == Nak(r.latest + 1, r.unvalidBegin - 1, id);
    }
  }

  predicate Brings(e: Event, id: nat, seqNo: nat)
  {
    e.DeliverData? && e.id == id && e.seqNo == seqNo
  }

  /** The run hands the receiver the data numbers next..n in this order, with anything
      else before, between and after. */
  ghost predicate Supplies(run: seq<Event>, id: nat, next: nat, n: nat)
    decreases |run|
  {
    next > n || (run != [] && Supplies(run[1..], id, if Brings(run[0], id, next) then next + 1 else next, n))
  }

  /** However the run is interleaved, numbers supplied in order close the gap. */
  lemma {:induction false} SuppliedIsReceived(sys: System, run: seq<Event>, id: nat, next: nat, n: nat)
    requires Inv(sys) && ValidRun(sys, run) && id in sys.nodes
    requires Supplies(run, id, next, n) && next <= sys.nodes[id].rcv.latest + 1
    ensures id in After(sys, run).nodes && n <= After(sys, run).nodes[id].rcv.latest
    decreases |run|
  {
    RunGrows(sys, run);
    if next > n {
    } else {
      var e := run[0];
      StepInv(sys, e);
      StepGrows(sys, e);
      var next' := if Brings(e, id, next) then next + 1 else next;
      assert next' <= Apply(sys, e).nodes[id].rcv.latest + 1;
      SuppliedIsReceived(Apply(sys, e), run[1..], id, next', n);
    }
  }

  ghost predicate LeadTo(sys: System, e: Event, f: Event, sys': System)
  {
    Enabled(sys, e) && Enabled(Apply(sys, e), f) && sys' == Apply(Apply(sys, e), f)
  }

  /** All that the receiver misses up to n is in the network, and else nothing has changed. */
  ghost predicate OnTheWire(sys: System, asked: System, id: nat, n: nat)
    requires id in sys.nodes
  {
    && Inv(asked) && TrackedInv(asked, id) && asked.nodes == sys.nodes && asked.sent == sys.sent && n <= |sys.sent|
    && forall i :: sys.nodes[id].rcv.latest < i <= n ==> Original(sys.sent, i) in asked.net
  }

  /** Recovery round, first half: a heartbeat carrying n makes a tracked receiver request
      what it misses up to n, and the sender puts all of it on the wire again. */
  lemma RequestGranted(sys: System, id: nat, n: nat, oldest: nat, accept: nat, now: nat) returns (asked: System)
    requires Inv(sys) && TrackedInv(sys, id) && CanReceive(sys.nodes[id])
    requires Heartbeat(n, oldest) in sys.net && sys.nodes[id].rcv.latest < n
    requires n - sys.nodes[id].rcv.latest <= accept
    ensures var latest := sys.nodes[id].rcv.latest;
            var hb, nak := DeliverHeartbeat(id, n, oldest), DeliverNak(latest + 1, n, id, accept, now);
            LeadTo(sys, hb, nak, asked)
    ensures OnTheWire(sys, asked, id, n)
  {
    var latest := sys.nodes[id].rcv.latest;
    var hb, nak := DeliverHeartbeat(id, n, oldest), DeliverNak(latest + 1, n, id, accept, now);
    assert Truthful(sys, Heartbeat(n, oldest));
    StepInv(sys, hb);
    TrackedStep(sys, hb, id);
    var sys1 := Apply(sys, hb);
    assert Nak(latest + 1, n, id) in sys1.net by {
      assert OnHeartbeat(sys.nodes[id].rcv, n)[0] == Nak(latest + 1, n, id);
    }
    NakGranted(sys1, id, latest + 1, n, accept);
    StepInv(sys1, nak);
    TrackedStep(sys1, nak, id);
    asked := Apply(sys1, nak);
    var out := Resend(sys.sender.win, latest + 1, n, accept);
    forall i | latest < i <= n
      ensures Original(sys.sent, i) in asked.net
    {
      assert out[i - latest - 1] == Original(sys.sent, i);
    }
  }

  /** Recovery round, second half: any further run that supplies the requested numbers in
      order, whatever else it does, leaves the receiver with everything up to n, and
      handed over once the drain is done. */
  lemma RecoveryRound(asked: System, id: nat, n: nat, run: seq<Event>)
    requires Inv(asked) && TrackedInv(asked, id) && ValidRun(asked, run) && TrackedAlong(asked, run, id)
    requires Supplies(run, id, asked.nodes[id].rcv.latest + 1, n)
    ensures var end := After(asked, run);
            && id in end.nodes && n <= end.nodes[id].rcv.latest <= |end.sent|
            && (CanReceive(end.nodes[id]) ==> end.nodes[id].delivered == end.sent[..end.nodes[id].rcv.latest])
  {
    SuppliedIsReceived(asked, run, id, asked.nodes[id].rcv.latest + 1, n);
    TrackedRun(asked, run, id);
    var end := After(asked, run);
    assert NodeBounded(end.nodes[id], id, end.sender.sending);
  }

  lemma TwoSteps(sys: System, e: Event, f: Event, sys': System) returns (run: seq<Event>)
    requires LeadTo(sys, e, f, sys')
    ensures ValidRun(sys, run) && After(sys, run) == sys'
  {
    run := [];
    RunsPrepend(Apply(sys, e), f, run);
    run := [f] + run;
    RunsPrepend(sys, e, run);
    run := [e] + run;
  }

  lemma ComposedHead(sys: System, a: seq<Event>, b: seq<Event>)
    requires a != [] && Enabled(sys, a[0]) && ValidRun(Apply(sys, a[0]), a[1..] + b)
    ensures ValidRun(sys, a + b) && After(sys, a + b) == After(Apply(sys, a[0]), a[1..] + b)
  {
    assert (a + b)[0] == a[0] && (a + b)[1..] == a[1..] + b;
  }

  lemma {:induction false} RunsCompose(sys: System, a: seq<Event>, b: seq<Event>)
    requires ValidRun(sys, a) && ValidRun(After(sys, a), b)
    ensures ValidRun(sys, a + b) && After(sys, a + b) == After(After(sys, a), b)
    decreases |a|
  {
    if a == [] {
      assert a + b == b;
    } else {
      RunsCompose(Apply(sys, a[0]), a[1..], b);
      ComposedHead(sys, a, b);
    }
  }

  lemma RunsPrepend(sys: System, e: Event, run: seq<Event>)
    requires Enabled(sys, e) && ValidRun(Apply(sys, e), run)
    ensures ValidRun(sys, [e] + run) && After(sys, [e] + run) == After(Apply(sys, e), run)
  {
  }

  /** Packets left to hand over before the drain loop finds nothing. */
  function CallsLeft(r: Receiver): nat
  {
    (if r.block.Some? && r.block.value != [] then 1 else 0)
    + (if 0 < r.validBegin <= r.validEnd then r.validEnd - r.validBegin + 1 else 0)
  }

  /** The receiver is ready for the next datagram, and nothing has been lost on the way. */
  ghost predicate Settles(sys: System, sys': System, id: nat)
    requires id in sys.nodes
  {
    && Inv(sys') && TrackedInv(sys', id) && CanReceive(sys'.nodes[id])
    && sys'.sent == sys.sent && sys.net <= sys'.net && sys.nodes[id].rcv.latest <= sys'.nodes[id].rcv.latest
    && Elsewhere(sys, sys', id)
  }

  /** The sender and the other receivers are as they were. */
  ghost predicate Elsewhere(sys: System, sys': System, id: nat)
  {
    && sys'.sender == sys.sender && sys'.nodes.Keys == sys.nodes.Keys
    && forall d :: d in sys.nodes && d != id ==> sys'.nodes[d] == sys.nodes[d]
  }

  lemma NextShrinks(r: Receiver)
    requires |r.slots| > 0
    ensures NextData(r).1.Got? ==> CallsLeft(NextData(r).0) < CallsLeft(r)
    ensures NextData(r).1.NoData? ==> CallsLeft(NextData(r).0) == 0 == CallsLeft(r)
  {
  }

  /** One round of the drain loop makes progress, or ends the loop. */
  lemma DrainStep(sys: System, id: nat)
    requires Inv(sys) && TrackedInv(sys, id) && sys.nodes[id].draining
    ensures Enabled(sys, TakeNext(id))
    ensures var sys' := Apply(sys, TakeNext(id));
            && Inv(sys') && TrackedInv(sys', id) && sys'.sent == sys.sent && sys.net <= sys'.net
            && sys'.nodes[id].rcv.latest == sys.nodes[id].rcv.latest && Elsewhere(sys, sys', id)
            && CallsLeft(sys'.nodes[id].rcv) <= CallsLeft(sys.nodes[id].rcv)
            && (sys'.nodes[id].draining ==> CallsLeft(sys'.nodes[id].rcv) < CallsLeft(sys.nodes[id].rcv))
  {
    ReceiverStep(sys, TakeNext(id));
    TrackedNextStep(sys, TakeNext(id), id);
    var n := sys.nodes[id];
    NextShrinks(n.rcv);
    NextBounded(n, id, sys.sender.sending);
    assert NodeNext(n).rcv == NextData(n.rcv).0 && Apply(sys, TakeNext(id)).nodes[id] == NodeNext(n);
  }

  /** The drain loop ends, by its own steps alone, when no sent packet is empty. */
  lemma {:induction false} DrainEnds(sys: System, id: nat) returns (run: seq<Event>)
    requires Inv(sys) && TrackedInv(sys, id) && [] !in sys.sent
    ensures ValidRun(sys, run) && Settles(sys, After(sys, run), id)
    ensures forall e :: e in run ==> e == TakeNext(id)
    decreases CallsLeft(sys.nodes[id].rcv), sys.nodes[id].draining
  {
    if !sys.nodes[id].draining {
      run := [];
    } else {
      DrainStep(sys, id);
      var rest := DrainEnds(Apply(sys, TakeNext(id)), id);
      RunsPrepend(sys, TakeNext(id), rest);
      run := [TakeNext(id)] + rest;
    }
  }

  lemma ReceivesOne(sys: System, id: nat, next: nat)
    requires Inv(sys) && TrackedInv(sys, id) && CanReceive(sys.nodes[id])
    requires 1 <= next <= sys.nodes[id].rcv.latest + 1 && next <= |sys.sent| && Original(sys.sent, next) in sys.net
    ensures var e := DeliverData(id, next, sys.sent[next - 1]);
            && Enabled(sys, e)
            && var sys' := Apply(sys, e);
               && Inv(sys') && TrackedInv(sys', id) && Elsewhere(sys, sys', id)
               && sys'.sent == sys.sent && sys'.net == sys.net
               && next <= sys'.nodes[id].rcv.latest && sys.nodes[id].rcv.latest <= sys'.nodes[id].rcv.latest
  {
    var e := DeliverData(id, next, sys.sent[next - 1]);
    ReceiverStep(sys, e);
    TrackedDataStep(sys, e, id);
    DataBounded(sys.nodes[id], id, sys.sender.sending, next, sys.sent[next - 1]);
  }

  /** The next packet, when it is in the network, can be received and drained. */
  lemma CanFetchOne(sys: System, id: nat, next: nat) returns (run: seq<Event>)
    requires Inv(sys) && TrackedInv(sys, id) && CanReceive(sys.nodes[id]) && [] !in sys.sent
    requires 1 <= next <= sys.nodes[id].rcv.latest + 1 && next <= |sys.sent| && Original(sys.sent, next) in sys.net
    ensures ValidRun(sys, run) && Settles(sys, After(sys, run), id)
    ensures next <= After(sys, run).nodes[id].rcv.latest
  {
    var e := DeliverData(id, next, sys.sent[next - 1]);
    ReceivesOne(sys, id, next);
    var drain := DrainEnds(Apply(sys, e), id);
    RunsPrepend(sys, e, drain);
    run := [e] + drain;
  }

  /** Packets in the network can be received one after the other up to n. */
  lemma {:induction false} CanFetch(sys: System, id: nat, next: nat, n: nat) returns (run: seq<Event>)
    requires Inv(sys) && TrackedInv(sys, id) && CanReceive(sys.nodes[id]) && [] !in sys.sent
    requires 1 <= next <= sys.nodes[id].rcv.latest + 1 && n <= |sys.sent|
    requires forall i :: next <= i <= n ==> Original(sys.sent, i) in sys.net
    ensures ValidRun(sys, run) && Settles(sys, After(sys, run), id)
    ensures n <= After(sys, run).nodes[id].rcv.latest
    decreases n + 1 - next
  {
    if next > n {
      run := [];
    } else {
      var one := CanFetchOne(sys, id, next);
      var rest := CanFetch(After(sys, one), id, next + 1, n);
      RunsCompose(sys, one, rest);
      run := one + rest;
    }
  }

  /** A receiver at rest has handed over exactly the packets up to `latest`. */
  lemma AtRest(sys: System, id: nat)
    requires Inv(sys) && TrackedInv(sys, id) && CanReceive(sys.nodes[id])
    ensures sys.nodes[id].rcv.latest <= |sys.sent| && sys.nodes[id].delivered == sys.sent[..sys.nodes[id].rcv.latest]
  {
  }

  lemma CanAsk(sys: System, id: nat, n: nat, oldest: nat) returns (ask: seq<Event>, asked: System)
    requires Inv(sys) && TrackedInv(sys, id) && CanReceive(sys.nodes[id])
    requires Heartbeat(n, oldest) in sys.net && sys.nodes[id].rcv.latest < n
    ensures ValidRun(sys, ask) && asked == After(sys, ask) && OnTheWire(sys, asked, id, n)
  {
    var latest := sys.nodes[id].rcv.latest;
    asked := RequestGranted(sys, id, n, oldest, n - latest, 0);
    ask := TwoSteps(sys, DeliverHeartbeat(id, n, oldest), DeliverNak(latest + 1, n, id, n - latest, 0), asked);
  }

  /** A gap can always be closed: from any state in which a heartbeat carrying n is on the
      wire, a tracked receiver that is ready to receive can get and hand over all of 1..n. */
  lemma RecoveryPossible(sys: System, id: nat, n: nat, oldest: nat) returns (run: seq<Event>)
    requires Inv(sys) && TrackedInv(sys, id) && CanReceive(sys.nodes[id]) && [] !in sys.sent
    requires Heartbeat(n, oldest) in sys.net
    ensures ValidRun(sys, run)
    ensures var end := After(sys, run);
            && id in end.nodes && CanReceive(end.nodes[id]) && end.sent == sys.sent
            && n <= end.nodes[id].rcv.latest <= |sys.sent|
            && end.nodes[id].delivered == sys.sent[..end.nodes[id].rcv.latest]
  {
    if n <= sys.nodes[id].rcv.latest {
      run := [];
      AtRest(sys, id);
    } else {
      var ask, asked := CanAsk(sys, id, n, oldest);
      var fetch := CanFetch(asked, id, sys.nodes[id].rcv.latest + 1, n);
      RunsCompose(sys, ask, fetch);
      run := ask + fetch;
      AtRest(After(asked, fetch), id);
    }
  }
}
