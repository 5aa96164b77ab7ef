/** One sender, any number of receivers, and a network that is the set of datagrams
    ever sent: a datagram in it may arrive any number of times, in any order, or never. */
module RmpSystem {
  import opened Bytes
  import opened RmpWire
  import opened RmpReceiver
  import opened RmpSender
  import opened ReorderBuffer

  /** A receiver with what the run has recorded about it.  `draining` is on while the
      endpoint is in its loop over the received data; `accepted` holds the numbers the
      socket kept; `handedNull` tells whether an empty slot was ever handed over. */
  datatype Node = Node(
    rcv: Receiver,
    draining: bool,
    delivered: seq<Packet>,
    accepted: set<nat>,
    handedNull: bool)

  /** `sent` lists the packets that `send` took, in order; packet k is `sent[k - 1]`. */
  datatype System = System(sender: Sender, nodes: map<nat, Node>, net: set<Datagram>, sent: seq<Packet>)

  datatype Event =
    | AppSend(p: Packet)
    | SenderCanSend(accept: nat, now: nat)
    | DeliverNak(begin: nat, end: nat, id: nat, accept: nat, now: nat)
    | DeliverAck(ackNo: nat, id: nat, now: nat, order: seq<nat>)
    | DeliverData(id: nat, seqNo: nat, payload: Packet)
    | DeliverHeartbeat(id: nat, latest: nat, oldest: nat)
    | TakeNext(id: nat)
    | RecverCanSend(id: nat, now: nat)

  ghost predicate Initial(sys: System)
  {
    && |sys.sender.win| >= 2
    && sys.sender == RmpSender.Fresh(|sys.sender.win|, sys.sender.hbInterval, sys.sender.keepAlive)
    && sys.net == {} && sys.sent == []
    && forall id :: id in sys.nodes ==> InitialNode(sys.nodes[id], id, |sys.sender.win|)
  }

  /** The reorder buffer is at least a tenth of the sending window. */
  ghost predicate InitialNode(n: Node, id: nat, winSize: nat)
  {
    && 0 < |n.rcv.slots| && winSize / 10 <= |n.rcv.slots|
    && n == Node(RmpReceiver.Fresh(id, n.rcv.ackCnt, |n.rcv.slots|), false, [], {}, false)
  }

  /** The receive block is absent or reset, as the receiving loop asserts before it
      reads a datagram; it is not after an empty packet arrived in order. */
  predicate CanReceive(n: Node)
  {
    !n.draining && n.rcv.block == None
  }

  ghost predicate Enabled(sys: System, e: Event)
  {
    && |sys.sender.win| > 0
    && (forall id :: id in sys.nodes ==> |sys.nodes[id].rcv.slots| > 0)
    && match e
       case AppSend(_) => true
       case SenderCanSend(_, _) => true
       case DeliverNak(b, e, id, _, _) => Nak(b, e, id) in sys.net
       case DeliverAck(k, id, _, order) => Ack(k, id) in sys.net && Enumerates(order, sys.sender.recvers.Keys + {id})
       case DeliverData(id, s, p) => id in sys.nodes && CanReceive(sys.nodes[id]) && Data(s, p) in sys.net
       case DeliverHeartbeat(id, l, o) => id in sys.nodes && CanReceive(sys.nodes[id]) && Heartbeat(l, o) in sys.net
       case TakeNext(id) => id in sys.nodes && sys.nodes[id].draining
       case RecverCanSend(id, _) => id in sys.nodes
  }

  function Emitted(out: seq<Datagram>): set<Datagram>
  {
    set d | d in out
  }

  function NodeData(n: Node, s: nat, p: Packet): Node
    requires |n.rcv.slots| > 0
  {
    var (r, code) := OnData(n.rcv, s, p);
    n.(rcv := r, draining := code == OdataReady, accepted := Accept(n.rcv, n.accepted, s))
  }

  function NodeNext(n: Node): Node
    requires |n.rcv.slots| > 0
  {
    var (r, next, _) := NextData(n.rcv);
    match next
    case NoData => n.(rcv := r, draining := false)
    case Got(None) => n.(rcv := r, handedNull := true)
    case Got(Some(p)) => n.(rcv := r, delivered := n.delivered + [p])
  }

  ghost function Apply(sys: System, e: Event): System
    requires Enabled(sys, e)
  {
    match e
    case AppSend(p) =>
      var (s, code) := OnSend(sys.sender, p);
      sys.(sender := s, sent := if code == Suc then sys.sent + [p] else sys.sent)
    case SenderCanSend(accept, now) =>
      var (s, out) := OnCanSend(sys.sender, accept, now);
      sys.(sender := s, net := sys.net + Emitted(out))
    case DeliverNak(b, e, id, accept, now) =>
      var (s, out) := OnNak(sys.sender, b, e, id, accept, now);
      sys.(sender := s, net := sys.net + Emitted(out))
    case DeliverAck(k, id, now, order) =>
      sys.(sender := OnAck(sys.sender, k, id, now, order))
    case DeliverData(id, s, p) =>
      sys.(nodes := sys.nodes[id := NodeData(sys.nodes[id], s, p)])
    case DeliverHeartbeat(id, latest, _) =>
      sys.(net := sys.net + Emitted(OnHeartbeat(sys.nodes[id].rcv, latest)))
    case TakeNext(id) =>
      sys.(nodes := sys.nodes[id := NodeNext(sys.nodes[id])],
           net := sys.net + Emitted(NextData(sys.nodes[id].rcv).2))
    case RecverCanSend(id, now) =>
      var (r, out) := OnTimer(sys.nodes[id].rcv, now);
      sys.(nodes := sys.nodes[id := sys.nodes[id].(rcv := r)], net := sys.net + Emitted(out))
  }

  ghost predicate ValidRun(sys: System, run: seq<Event>)
    decreases |run|
  {
    run == [] || (Enabled(sys, run[0]) && ValidRun(Apply(sys, run[0]), run[1..]))
  }

  ghost function After(sys: System, run: seq<Event>): System
    requires ValidRun(sys, run)
    decreases |run|
  {
    if run == [] then sys else After(Apply(sys, run[0]), run[1..])
  }

  /** The sender's table knows the receiver, or no packet has been released yet. */
  predicate Tracked(sys: System, id: nat)
  {
    sys.sender.head == 0 || id in sys.sender.recvers
  }

  ghost predicate TrackedAlong(sys: System, run: seq<Event>, id: nat)
    requires ValidRun(sys, run)
    decreases |run|
  {
    Tracked(sys, id) && (run != [] ==> TrackedAlong(Apply(sys, run[0]), run[1..], id))
  }
}
