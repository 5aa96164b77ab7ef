/** End-to-end safety: what a receiver hands to its application is what the sender's
    application gave to `send`, in order, with no gap and no repeat. */
module RmpDelivery {
  import opened Ring
  import opened Bytes
  import opened RmpWire
  import opened RmpReceiver
  import opened RmpSender
  import opened RmpSystem
  import opened RmpInvariant
  import opened ReorderBuffer

  /** The packets that are not empty, in order. */
  function NonEmpty(ps: seq<Packet>): (r: seq<Packet>)
  {
    if ps == [] then []
    else NonEmpty(ps[..|ps| - 1]) + (if ps[|ps| - 1] == [] then [] else [ps[|ps| - 1]])
  }

  lemma NonEmptySnoc(ps: seq<Packet>, p: Packet)
    ensures NonEmpty(ps + [p]) == NonEmpty(ps) + (if p == [] then [] else [p])
  {
  }

  /** How many packets the receiver has dealt with: all up to `latest`, but for the
      in-order packet still in the receive block and the buffered run still to be drained. */
  function Done(r: Receiver): int
  {
    (if r.validBegin > 0 then r.validBegin - 1 else r.latest) - (if r.block.Some? && r.block.value != [] then 1 else 0)
  }

  /** An empty packet arrived in order: the code neither hands it over nor resets the block. */
  predicate Wedged(r: Receiver)
  {
    r.block == Some([])
  }

  ghost predicate Delivers(n: Node, sent: seq<Packet>)
  {
    && 0 <= Done(n.rcv) <= |sent|
    && NonEmpty(n.delivered) == NonEmpty(sent[..Done(n.rcv)])
    && (!Wedged(n.rcv) ==> n.delivered == sent[..Done(n.rcv)])
    && (Wedged(n.rcv) ==> [] in sent)
    && (n.rcv.block.Some? && !Wedged(n.rcv) ==>
          n.draining && Done(n.rcv) < |sent| && n.rcv.block.value == sent[Done(n.rcv)])
    && (!n.draining ==> n.rcv.validBegin == 0)
    && !n.handedNull
  }

  /** No more has been multicast than a tracked receiver can place. */
  ghost predicate WithinWindow(sys: System, id: nat)
    requires id in sys.nodes
  {
    sys.sender.sending <= sys.nodes[id].rcv.latest + 1 + |sys.sender.win| / 10
  }

  /** What holds of a receiver that the sender's table has known since before it released a packet. */
  ghost predicate TrackedInv(sys: System, id: nat)
  {
    && id in sys.nodes && Tracked(sys, id)
    && |sys.sender.win| / 10 <= |sys.nodes[id].rcv.slots|
    && (id in sys.sender.recvers ==> sys.sender.head <= sys.sender.recvers[id].acked + 1)
    && WithinWindow(sys, id)
    && Represents(sys.nodes[id].rcv, sys.nodes[id].accepted, sys.sent)
    && Delivers(sys.nodes[id], sys.sent)
  }

  lemma InitialTracked(sys: System, id: nat)
    requires Initial(sys) && id in sys.nodes
    ensures TrackedInv(sys, id)
  {
  }

  /** The head never runs more than one past what a tracked receiver has got. */
  lemma HeadBound(sys: System, id: nat)
    requires Inv(sys) && TrackedInv(sys, id)
    ensures sys.sender.head <= sys.nodes[id].rcv.latest + 1
  {
  }

  lemma MoreSentDelivers(n: Node, sent: seq<Packet>, p: Packet)
    requires Delivers(n, sent)
    ensures Delivers(n, sent + [p])
  {
    assert (sent + [p])[..Done(n.rcv)] == sent[..Done(n.rcv)];
  }

  lemma DataDelivers(n: Node, sent: seq<Packet>, s: nat)
    requires Delivers(n, sent) && CanReceive(n) && Represents(n.rcv, n.accepted, sent)
    requires 1 <= s <= |sent|
    ensures Delivers(NodeData(n, s, sent[s - 1]), sent)
  {
    if s == n.rcv.latest + 1 && sent[s - 1] == [] {
      assert sent[..s] == sent[..s - 1] + [sent[s - 1]];
      NonEmptySnoc(sent[..s - 1], sent[s - 1]);
    }
  }

  /** Handing over the next packet in line. */
  lemma HandOver(n: Node, n': Node, sent: seq<Packet>)
    requires Delivers(n, sent) && Done(n.rcv) < |sent|
    requires n'.delivered == n.delivered + [sent[Done(n.rcv)]] && Done(n'.rcv) == Done(n.rcv) + 1
    requires (if Wedged(n.rcv) then Wedged(n'.rcv) else n'.rcv.block == None) && n'.draining && !n'.handedNull
    ensures Delivers(n', sent)
  {
    var k := Done(n.rcv);
    assert sent[..k + 1] == sent[..k] + [sent[k]];
    NonEmptySnoc(sent[..k], sent[k]);
    NonEmptySnoc(n.delivered, sent[k]);
  }

  lemma NextDelivers(n: Node, sent: seq<Packet>)
    requires Delivers(n, sent) && n.draining && Represents(n.rcv, n.accepted, sent)
    ensures Delivers(NodeNext(n), sent)
  {
    if NextData(n.rcv).1.Got? {
      if !(n.rcv.block.Some? && n.rcv.block.value != []) {
        NextHandsOver(n.rcv, n.accepted, sent);
      }
      HandOver(n, NodeNext(n), sent);
    } else {
      NextStep(n.rcv, n.accepted, sent);
    }
  }

  /** The steps of the sender's application and of its output thread. */
  lemma TrackedSenderStep(sys: System, e: Event, id: nat)
    requires Inv(sys) && TrackedInv(sys, id) && Enabled(sys, e) && (e.AppSend? || e.SenderCanSend?)
    ensures TrackedInv(Apply(sys, e), id)
  {
    HeadBound(sys, id);
    match e
    case AppSend(p) =>
      SendKeeps(sys.sender, sys.sent, p);
      MoreSent(sys.nodes[id].rcv, sys.nodes[id].accepted, sys.sent, p);
      MoreSentDelivers(sys.nodes[id], sys.sent, p);
    case SenderCanSend(accept, now) =>
      CanSendKeeps(sys.sender, sys.sent, accept, now);
  }

  /** The steps of the sender's input thread. */
  lemma TrackedFeedbackStep(sys: System, e: Event, id: nat)
    requires Inv(sys) && TrackedInv(sys, id) && Enabled(sys, e) && (e.DeliverNak? || e.DeliverAck?)
    requires Tracked(Apply(sys, e), id)
    ensures TrackedInv(Apply(sys, e), id)
  {
    HeadBound(sys, id);
    match e
    case DeliverNak(_, _, _, _, _) =>
    case DeliverAck(k, from, now, order) =>
      if sys.sender.head <= k {
        AckTable(sys.sender, k, from, now, order);
        AckHead(sys.sender, k, from, now, order);
      }
  }

  /** What a data datagram within the window does to a receiver. */
  lemma NodeDataKeeps(n: Node, sent: seq<Packet>, s: nat)
    requires CanReceive(n) && Delivers(n, sent) && Represents(n.rcv, n.accepted, sent)
    requires 1 <= s <= |sent| && s <= n.rcv.latest + 1 + |n.rcv.slots|
    ensures var n' := NodeData(n, s, sent[s - 1]);
            && Delivers(n', sent) && Represents(n'.rcv, n'.accepted, sent)
            && |n'.rcv.slots| == |n.rcv.slots| && n.rcv.latest <= n'.rcv.latest
  {
    DataStep(n.rcv, n.accepted, sent, s);
    DataDelivers(n, sent, s);
  }

  /** What one round of the drain loop does to it. */
  lemma NodeNextKeeps(n: Node, sent: seq<Packet>)
    requires n.draining && Delivers(n, sent) && Represents(n.rcv, n.accepted, sent)
    ensures var n' := NodeNext(n);
            && Delivers(n', sent) && Represents(n'.rcv, n'.accepted, sent)
            && |n'.rcv.slots| == |n.rcv.slots| && n'.rcv.latest == n.rcv.latest
  {
    NextStep(n.rcv, n.accepted, sent);
    NextDelivers(n, sent);
  }

  /** A step of the receiver itself keeps the invariant when the buffer and the deliveries
      are right afterwards and `latest` has not fallen. */
  lemma TrackedUpdate(sys: System, id: nat, n': Node, net': set<Datagram>)
    requires TrackedInv(sys, id) && |n'.rcv.slots| == |sys.nodes[id].rcv.slots|
    requires sys.nodes[id].rcv.latest <= n'.rcv.latest
    requires Represents(n'.rcv, n'.accepted, sys.sent) && Delivers(n', sys.sent)
    ensures TrackedInv(sys.(nodes := sys.nodes[id := n'], net := net'), id)
  {
  }

  /** A data datagram reaches the receiver. */
  lemma TrackedDataStep(sys: System, e: Event, id: nat)
    requires Inv(sys) && TrackedInv(sys, id) && Enabled(sys, e) && e.DeliverData? && e.id == id
    ensures TrackedInv(Apply(sys, e), id)
  {
    var n, s := sys.nodes[id], e.seqNo;
    assert Truthful(sys, Data(s, e.payload));
    NodeDataKeeps(n, sys.sent, s);
    TrackedUpdate(sys, id, NodeData(n, s, e.payload), sys.net);
  }

  /** One round of the receiver's drain loop. */
  lemma TrackedNextStep(sys: System, e: Event, id: nat)
    requires Inv(sys) && TrackedInv(sys, id) && Enabled(sys, e) && e.TakeNext? && e.id == id
    ensures TrackedInv(Apply(sys, e), id)
  {
    var n := sys.nodes[id];
    NodeNextKeeps(n, sys.sent);
    TrackedUpdate(sys, id, NodeNext(n), Apply(sys, e).net);
  }

  /** The receiver's timer. */
  lemma TrackedTimerStep(sys: System, e: Event, id: nat)
    requires Inv(sys) && TrackedInv(sys, id) && Enabled(sys, e) && e.RecverCanSend? && e.id == id
    ensures TrackedInv(Apply(sys, e), id)
  {
    var n := sys.nodes[id];
    TimerBounded(n, id, sys.sender.sending, e.now);
    SameBuffer(n.rcv, OnTimer(n.rcv, e.now).0, n.accepted, sys.sent);
    TrackedUpdate(sys, id, n.(rcv := OnTimer(n.rcv, e.now).0), Apply(sys, e).net);
  }

  /** The steps of another receiver, and heartbeats, which change no receiver. */
  lemma TrackedOtherStep(sys: System, e: Event, id: nat)
    requires Inv(sys) && TrackedInv(sys, id) && Enabled(sys, e)
    requires e.DeliverHeartbeat? || ((e.DeliverData? || e.TakeNext? || e.RecverCanSend?) && e.id != id)
    ensures TrackedInv(Apply(sys, e), id)
  {
  }

  lemma TrackedStep(sys: System, e: Event, id: nat)
    requires Inv(sys) && TrackedInv(sys, id) && Enabled(sys, e) && Tracked(Apply(sys, e), id)
    ensures TrackedInv(Apply(sys, e), id)
  {
    if e.AppSend? || e.SenderCanSend? {
      TrackedSenderStep(sys, e, id);
    } else if e.DeliverNak? || e.DeliverAck? {
      TrackedFeedbackStep(sys, e, id);
    } else if e.id == id && e.DeliverData? {
      TrackedDataStep(sys, e, id);
    } else if e.id == id && e.TakeNext? {
      TrackedNextStep(sys, e, id);
    } else if e.id == id && e.RecverCanSend? {
      TrackedTimerStep(sys, e, id);
    } else {
      TrackedOtherStep(sys, e, id);
    }
  }

  lemma {:induction false} TrackedRun(sys: System, run: seq<Event>, id: nat)
    requires Inv(sys) && TrackedInv(sys, id) && ValidRun(sys, run) && TrackedAlong(sys, run, id)
    ensures Inv(After(sys, run)) && TrackedInv(After(sys, run), id)
    decreases |run|
  {
    if run == [] {
    } else {
      StepInv(sys, run[0]);
      TrackedStep(sys, run[0], id);
      TrackedRun(Apply(sys, run[0]), run[1..], id);
    }
  }

  /** The receiver has handed over the first k packets that `send` took: all of them, empty
      ones dropped, and exactly them unless an empty packet arrived in order; k is `latest`
      once the drain is over.  No empty slot was ever handed over. */
  ghost predicate SafelyDelivered(sys: System, id: nat)
  {
    && id in sys.nodes
    && var n := sys.nodes[id];
       var k := Done(n.rcv);
       && 0 <= k <= |sys.sent|
       && NonEmpty(n.delivered) == NonEmpty(sys.sent[..k])
       && (!Wedged(n.rcv) ==> n.delivered == sys.sent[..k])
       && (Wedged(n.rcv) ==> [] in sys.sent)
       && (!n.draining ==> k == n.rcv.latest)
       && !n.handedNull
  }

  /** End-to-end safety, at any point of any run along which a receiver stays tracked. */
  lemma EndToEnd(sys: System, run: seq<Event>, id: nat)
    requires Initial(sys) && id in sys.nodes && ValidRun(sys, run) && TrackedAlong(sys, run, id)
    ensures SafelyDelivered(After(sys, run), id)
  {
    InitialInv(sys);
    InitialTracked(sys, id);
    TrackedRun(sys, run, id);
  }

  /** Cross-node window bound: a data number that can reach a tracked receiver is at most
      one past its reorder window; so its slot is empty or already holds that packet. */
  lemma WindowBound(sys: System, run: seq<Event>, id: nat, s: nat, p: Packet)
    requires Initial(sys) && id in sys.nodes && ValidRun(sys, run) && TrackedAlong(sys, run, id)
    requires Data(s, p) in After(sys, run).net
    ensures var sys' := After(sys, run);
            && id in sys'.nodes
            && var r := sys'.nodes[id].rcv;
               && s <= r.latest + 1 + |sys'.sender.win| / 10 <= r.latest + 1 + |r.slots|
               && (CanReceive(sys'.nodes[id]) && s > r.latest + 1 ==> At(r.slots, s) in {None, Some(p)})
  {
    InitialInv(sys);
    InitialTracked(sys, id);
    TrackedRun(sys, run, id);
    assert Truthful(After(sys, run), Data(s, p));
  }
}
