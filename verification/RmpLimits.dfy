/** An empty packet stops the receiver that it reaches in order. */
module RmpLimits {
  import opened RmpWire
  import opened RmpSystem
  import opened RmpDelivery

  /** An empty packet that arrives in order leaves the block behind its headers, and so
      does nothing else: after any datagram the receiver is wedged exactly in this case. */
  lemma WedgedExactly(n: Node, s: nat, p: Packet)
    requires |n.rcv.slots| > 0 && CanReceive(n)
    ensures Wedged(NodeData(n, s, p).rcv) <==> s == n.rcv.latest + 1 && p == []
  {
  }

  /** A wedged receiver stays as it is for the rest of every run. */
  lemma {:induction false} WedgedForGood(sys: System, run: seq<Event>, id: nat)
    requires ValidRun(sys, run) && id in sys.nodes && Wedged(sys.nodes[id].rcv) && !sys.nodes[id].draining
    ensures id in After(sys, run).nodes
    ensures var n, n' := sys.nodes[id], After(sys, run).nodes[id];
            Wedged(n'.rcv) && !n'.draining && n'.delivered == n.delivered && n'.rcv.latest == n.rcv.latest
    decreases |run|
  {
    if run == [] {
    } else {
      WedgedForGood(Apply(sys, run[0]), run[1..], id);
    }
  }
}
