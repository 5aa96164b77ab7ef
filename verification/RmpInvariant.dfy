/** What holds in every state of every run, whatever is lost, repeated, reordered or
    evicted: the sender's indices, the contents of its window, and the truth of every
    datagram in the network. */
module RmpInvariant {
  import opened Ring
  import opened Bytes
  import opened RmpWire
  import opened RmpReceiver
  import opened RmpSender
  import opened RmpSystem

  /** The three indices are in order and fewer than a window apart. */
  ghost predicate IndicesOrdered(s: Sender)
  {
    s.head <= s.sending + 1 <= s.tail && s.tail <= s.head + |s.win| - 1
  }

  /** Every slot from the head up to the tail holds the packet `send` gave that number. */
  ghost predicate Retains(s: Sender, sent: seq<Packet>)
  {
    && |s.win| > 0 && s.tail == |sent| + 1
    && forall k :: 1 <= k < s.tail && s.head <= k ==> At(s.win, k) == Some(Data(k, sent[k - 1]))
  }

  /** No datagram claims more than has been sent, or than its receiver has got. */
  ghost predicate Truthful(sys: System, d: Datagram)
  {
    match d
    case Data(s, p) => 1 <= s <= sys.sender.sending && s <= |sys.sent| && p == sys.sent[s - 1]
    case Heartbeat(latest, _) => latest <= sys.sender.sending
    case Nak(begin, end, id) => id in sys.nodes && 1 <= begin <= end <= sys.sender.sending
    case Ack(k, id) => id in sys.nodes && 1 <= k <= sys.nodes[id].rcv.latest
  }

  ghost predicate NodeBounded(n: Node, id: nat, sending: nat)
  {
    && n.rcv.id == id && |n.rcv.slots| > 0
    && n.rcv.confirmed <= n.rcv.latest <= sending
    && n.rcv.unvalidBegin <= n.rcv.unvalidEnd <= sending
  }

  /** The table speaks of receivers only, and of none more than it has got. */
  ghost predicate TableTruthful(sys: System)
  {
    forall id :: id in sys.sender.recvers ==>
      id in sys.nodes && sys.sender.recvers[id].acked <= sys.nodes[id].rcv.latest
  }

  ghost predicate Inv(sys: System)
  {
    && IndicesOrdered(sys.sender) && Retains(sys.sender, sys.sent)
    && (forall d :: d in sys.net ==> Truthful(sys, d))
    && (forall id :: id in sys.nodes ==> NodeBounded(sys.nodes[id], id, sys.sender.sending))
    && TableTruthful(sys)
  }

  lemma InitialInv(sys: System)
    requires Initial(sys)
    ensures Inv(sys)
  {
  }

  /** `send` refuses exactly when the window is full, one slot being kept free. */
  lemma NoSpaceExactly(s: Sender, p: Packet)
    requires |s.win| > 0 && IndicesOrdered(s)
    ensures OnSend(s, p).1 == NoSpace <==> s.tail - s.head == |s.win| - 1
    ensures OnSend(s, p).1 == NoSpace ==> OnSend(s, p).0 == s
  {
    if s.tail + 1 - s.head == |s.win| {
      SameSlot(s.head, |s.win|);
    } else {
      DistinctSlots(s.head, s.tail + 1, |s.win|);
    }
  }

  lemma SendKeeps(s: Sender, sent: seq<Packet>, p: Packet)
    requires IndicesOrdered(s) && Retains(s, sent)
    ensures var (s', code) := OnSend(s, p);
            && IndicesOrdered(s') && Retains(s', if code == Suc then sent + [p] else sent)
            && s' == s.(win := s'.win, tail := s'.tail) && |s'.win| == |s.win|
  {
    NoSpaceExactly(s, p);
    if OnSend(s, p).1 == Suc {
      PutFrame(s.win, s.tail, Some(Data(s.tail, p)), s.head);
    }
  }

  /** The sending loop multicasts the packets from `sending + 1` on, in order, stays
      within a tenth of the window of the head, and never meets an empty slot. */
  lemma {:induction false} CanSendKeeps(s: Sender, sent: seq<Packet>, accept: nat, now: nat)
    requires IndicesOrdered(s) && Retains(s, sent)
    ensures var (s', out) := OnCanSend(s, accept, now);
            && s' == s.(sending := s'.sending, lastHbTime := s'.lastHbTime)
            && s.sending <= s'.sending && IndicesOrdered(s')
            && (s'.sending == s.sending || s'.sending <= s.head + |s.win| / 10)
            && (forall d :: d in out ==>
                 || (&& d.Data? && s.sending < d.seqNo <= s'.sending && d.seqNo <= s.head + |s.win| / 10
                     && d.payload == sent[d.seqNo - 1])
                 || d == Heartbeat(s'.sending, s.head))
            && (s'.sending == s.sending + accept || Blocked(s'))
    decreases accept
  {
    if Blocked(s) || accept == 0 {
    } else {
      var slot := At(s.win, s.sending + 1);
      assert slot == Some(Data(s.sending + 1, sent[s.sending]));
      CanSendKeeps(s.(sending := s.sending + 1), sent, accept - 1, now);
    }
  }

  /** How far the sending loop gets: to the end of what is queued, of a tenth of the window
      behind the head, or of what the socket takes, whichever comes first. */
  function Reach(s: Sender, accept: nat): nat
  {
    var stop := if s.head + |s.win| / 10 < s.tail then s.head + |s.win| / 10 else s.tail - 1;
    if stop <= s.sending then s.sending else if s.sending + accept < stop then s.sending + accept else stop
  }

  /** The loop puts exactly the packets up to there on the wire, each once and in order. */
  lemma {:induction false} BurstExactly(s: Sender, sent: seq<Packet>, accept: nat, now: nat)
    requires IndicesOrdered(s) && Retains(s, sent)
    ensures var (s', out) := OnCanSend(s, accept, now);
            && s'.sending == Reach(s, accept) <= |sent|
            && s'.sending - s.sending <= |out| <= s'.sending - s.sending + 1
            && forall i :: 0 <= i < s'.sending - s.sending ==> out[i] == Data(s.sending + 1 + i, sent[s.sending + i])
    decreases accept
  {
    if Blocked(s) || accept == 0 {
    } else {
      SendsNext(s, sent, accept, now);
      var next := s.(sending := s.sending + 1);
      BurstExactly(next, sent, accept - 1, now);
      var (s', rest) := OnCanSend(next, accept - 1, now);
      var out := [Data(s.sending + 1, sent[s.sending])] + rest;
      forall i | 0 <= i < s'.sending - s.sending
        ensures out[i] == Data(s.sending + 1 + i, sent[s.sending + i])
      {
        if i > 0 {
          assert rest[i - 1] == Data(next.sending + 1 + (i - 1), sent[next.sending + (i - 1)]);
        }
      }
    }
  }

  lemma SendsNext(s: Sender, sent: seq<Packet>, accept: nat, now: nat)
    requires IndicesOrdered(s) && Retains(s, sent) && !Blocked(s) && accept > 0
    ensures s.sending < |sent| && IndicesOrdered(s.(sending := s.sending + 1))
    ensures var (s', rest) := OnCanSend(s.(sending := s.sending + 1), accept - 1, now);
            OnCanSend(s, accept, now) == (s', [Data(s.sending + 1, sent[s.sending])] + rest)
  {
    assert At(s.win, s.sending + 1) == Some(Data(s.sending + 1, sent[s.sending]));
  }

  /** A heartbeat follows exactly when the loop stopped for want of packets or of window and
      the interval has passed since the reading the sender remembers. */
  lemma {:induction false} BeatExactly(s: Sender, sent: seq<Packet>, accept: nat, now: nat)
    requires IndicesOrdered(s) && Retains(s, sent) && s.lastHbTime <= now
    ensures var (s', out) := OnCanSend(s, accept, now);
            var stopped := s'.sending >= s.head + |s.win| / 10 || s'.sending + 1 == s.tail;
            var sends := s'.sending - s.sending;
            && 0 <= sends <= |out|
            && out[sends..] == (if stopped && s.lastHbTime > 0 && now - s.lastHbTime > s.hbInterval
                                then [Heartbeat(s'.sending, s.head)] else [])
            && s' == s.(sending := s'.sending, lastHbTime := if stopped && s.lastHbTime == 0 then now else s.lastHbTime)
    decreases accept
  {
    if Blocked(s) || accept == 0 {
      assert [] == OnCanSend(s, accept, now).1[..0];
    } else {
      var next := s.(sending := s.sending + 1);
      SendsNext(s, sent, accept, now);
      BeatExactly(next, sent, accept - 1, now);
      var (s', rest) := OnCanSend(next, accept - 1, now);
      var sends := s'.sending - s.sending;
      assert ([Data(s.sending + 1, sent[s.sending])] + rest)[sends..] == rest[sends - 1..];
    }
  }

  /** A retransmission always carries the original packets: within the sender's range
      the loop sends exactly the requested run, as far as the socket takes it. */
  lemma {:induction false} ResendMeaning(s: Sender, sent: seq<Packet>, begin: nat, end: nat, accept: nat)
    requires Retains(s, sent) && InRange(s, begin, end) && 1 <= begin
    ensures var out := Resend(s.win, begin, end, accept);
            && |out| == (if begin > end then 0 else if end - begin + 1 <= accept then end - begin + 1 else accept)
            && forall i :: 0 <= i < |out| ==> begin + i <= |sent| && out[i] == Data(begin + i, sent[begin + i - 1])
    decreases accept
  {
    if begin > end || accept == 0 {
    } else {
      assert At(s.win, begin).Some?;
      ResendMeaning(s, sent, begin + 1, end, accept - 1);
      var rest := Resend(s.win, begin + 1, end, accept - 1);
      var out := Resend(s.win, begin, end, accept);
      assert out == [Data(begin, sent[begin - 1])] + rest;
      forall i | 0 <= i < |out|
        ensures begin + i <= |sent| && out[i] == Data(begin + i, sent[begin + i - 1])
      {
        if i > 0 {
          assert out[i] == rest[i - 1];
        }
      }
    }
  }

  /** The received numbers only grow. */
  lemma DataBounded(n: Node, id: nat, sending: nat, s: nat, p: Packet)
    requires NodeBounded(n, id, sending) && s <= sending
    ensures NodeBounded(NodeData(n, s, p), id, sending)
    ensures n.rcv.latest <= NodeData(n, s, p).rcv.latest
  {
  }

  lemma NextBounded(n: Node, id: nat, sending: nat)
    requires NodeBounded(n, id, sending)
    ensures NodeBounded(NodeNext(n), id, sending) && NodeNext(n).rcv.latest == n.rcv.latest
    ensures forall d :: d in NextData(n.rcv).2 ==> d == Ack(n.rcv.latest, id) && n.rcv.latest > 0
  {
  }

  lemma TimerBounded(n: Node, id: nat, sending: nat, now: nat)
    requires NodeBounded(n, id, sending)
    ensures var (r, out) := OnTimer(n.rcv, now);
            && r == n.rcv.(lastAckTime := r.lastAckTime, lastNakTime := r.lastNakTime)
            && NodeBounded(n.(rcv := r), id, sending)
            && (forall d :: d in out ==>
                 || (d == Ack(n.rcv.latest, id) && n.rcv.latest > 0)
                 || (&& d == Nak(n.rcv.latest + 1, n.rcv.unvalidBegin - 1, id)
                     && n.rcv.latest + 1 <= n.rcv.unvalidBegin - 1))
  {
  }

  lemma SenderStep(sys: System, e: Event)
    requires Inv(sys) && Enabled(sys, e) && (e.AppSend? || e.SenderCanSend?)
    ensures Inv(Apply(sys, e))
  {
    var sys' := Apply(sys, e);
    match e
    case AppSend(p) =>
      SendKeeps(sys.sender, sys.sent, p);
      assert forall d :: d in sys'.net ==> Truthful(sys, d) && Truthful(sys', d);
    case SenderCanSend(accept, now) =>
      CanSendKeeps(sys.sender, sys.sent, accept, now);
      assert forall d :: d in sys.net ==> Truthful(sys, d) && Truthful(sys', d);
  }

  lemma NakStep(sys: System, e: Event)
    requires Inv(sys) && Enabled(sys, e) && e.DeliverNak?
    ensures Inv(Apply(sys, e))
  {
    var sys' := Apply(sys, e);
    assert Truthful(sys, Nak(e.begin, e.end, e.id));
    if InRange(sys.sender, e.begin, e.end) {
      ResendMeaning(sys.sender, sys.sent, e.begin, e.end, e.accept);
    }
    var out := OnNak(sys.sender, e.begin, e.end, e.id, e.accept, e.now).1;
    forall d | d in sys'.net
      ensures Truthful(sys', d)
    {
      if d in out {
        var i :| 0 <= i < |out| && out[i] == d;
      } else {
        assert Truthful(sys, d);
      }
    }
  }

  lemma AckStep(sys: System, e: Event)
    requires Inv(sys) && Enabled(sys, e) && e.DeliverAck?
    ensures Inv(Apply(sys, e))
  {
    var sys' := Apply(sys, e);
    assert Truthful(sys, Ack(e.ackNo, e.id));
    assert forall d :: d in sys'.net ==> Truthful(sys, d) && Truthful(sys', d);
    if sys.sender.head <= e.ackNo {
      AckTable(sys.sender, e.ackNo, e.id, e.now, e.order);
      AckHead(sys.sender, e.ackNo, e.id, e.now, e.order);
      assert sys'.sender.head != sys.sender.head ==> sys'.sender.head <= sys'.sender.recvers[e.id].acked + 1;
      assert sys'.sender.recvers[e.id].acked <= sys.nodes[e.id].rcv.latest <= sys.sender.sending;
      assert IndicesOrdered(sys'.sender);
    }
  }

  /** A step of one receiver keeps the invariant when its own bounds hold afterwards,
      its `latest` has not fallen, and what it sends is true. */
  lemma LocalStep(sys: System, id: nat, n': Node, out: seq<Datagram>)
    requires Inv(sys) && id in sys.nodes
    requires NodeBounded(n', id, sys.sender.sending) && sys.nodes[id].rcv.latest <= n'.rcv.latest
    requires forall d :: d in out ==>
               || (d.Ack? && d.id == id && 1 <= d.ackNo <= n'.rcv.latest)
               || (d.Nak? && d.id == id && 1 <= d.begin <= d.end <= sys.sender.sending)
    ensures Inv(sys.(nodes := sys.nodes[id := n'], net := sys.net + Emitted(out)))
  {
  }

  lemma ReceiverStep(sys: System, e: Event)
    requires Inv(sys) && Enabled(sys, e) && (e.DeliverData? || e.DeliverHeartbeat? || e.TakeNext? || e.RecverCanSend?)
    ensures Inv(Apply(sys, e))
  {
    var n := sys.nodes[e.id];
    match e {
      case DeliverData(id, s, p) =>
        assert Truthful(sys, Data(s, p));
        DataBounded(n, id, sys.sender.sending, s, p);
        LocalStep(sys, id, NodeData(n, s, p), []);
        assert sys.net + Emitted([]) == sys.net;
      case DeliverHeartbeat(id, latest, oldest) =>
        assert Truthful(sys, Heartbeat(latest, oldest));
        LocalStep(sys, id, n, OnHeartbeat(n.rcv, latest));
        assert sys.nodes[id := n] == sys.nodes;
      case TakeNext(id) =>
        NextBounded(n, id, sys.sender.sending);
        LocalStep(sys, id, NodeNext(n), NextData(n.rcv).2);
      case RecverCanSend(id, now) =>
        TimerBounded(n, id, sys.sender.sending, now);
        var (r, out) := OnTimer(n.rcv, now);
        LocalStep(sys, id, n.(rcv := r), out);
    }
  }

  lemma StepInv(sys: System, e: Event)
    requires Inv(sys) && Enabled(sys, e)
    ensures Inv(Apply(sys, e))
  {
    match e
    case AppSend(_) => SenderStep(sys, e);
    case SenderCanSend(_, _) => SenderStep(sys, e);
    case DeliverNak(_, _, _, _, _) => NakStep(sys, e);
    case DeliverAck(_, _, _, _) => AckStep(sys, e);
    case DeliverData(_, _, _) => ReceiverStep(sys, e);
    case DeliverHeartbeat(_, _, _) => ReceiverStep(sys, e);
    case TakeNext(_) => ReceiverStep(sys, e);
    case RecverCanSend(_, _) => ReceiverStep(sys, e);
  }

  lemma {:induction false} RunInv(sys: System, run: seq<Event>)
    requires Inv(sys) && ValidRun(sys, run)
    ensures Inv(After(sys, run))
    decreases |run|
  {
    if run == [] {
    } else {
      StepInv(sys, run[0]);
      RunInv(Apply(sys, run[0]), run[1..]);
    }
  }
}
