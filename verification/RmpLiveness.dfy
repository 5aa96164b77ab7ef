/** Liveness: when links lose datagrams but not for ever, and heartbeats keep coming, a
    tracked receiver gets and hands over everything that has been multicast; and a lone
    receiver everything that `send` has taken. */
module RmpLiveness {
  import Ring
  import opened Bytes
  import opened RmpWire
  import opened RmpReceiver
  import opened RmpSender
  import opened RmpSystem
  import opened RmpInvariant
  import opened RmpDelivery
  import opened RmpRecovery
  import RmpGroup

  /** What an event puts on the wire. */
  ghost function Out(sys: System, e: Event): seq<Datagram>
    requires Enabled(sys, e)
  {
    match e
    case SenderCanSend(accept, now) => OnCanSend(sys.sender, accept, now).1
    case DeliverNak(begin, end, id, accept, now) => OnNak(sys.sender, begin, end, id, accept, now).1
    case DeliverHeartbeat(id, latest, _) => OnHeartbeat(sys.nodes[id].rcv, latest)
    case TakeNext(id) => NextData(sys.nodes[id].rcv).2
    case RecverCanSend(id, now) => OnTimer(sys.nodes[id].rcv, now).1
    case _ => []
  }

  /** That is exactly what a step adds to the network. */
  lemma OutOnWire(sys: System, e: Event)
    requires Enabled(sys, e)
    ensures Apply(sys, e).net == sys.net + Emitted(Out(sys, e))
  {
    assert sys.net + Emitted([]) == sys.net;
  }

  /** The event is the arrival of the datagram: at this receiver, or at the sender. */
  predicate IsArrival(e: Event, d: Datagram, id: nat)
  {
    match d
    case Data(s, p) => e == DeliverData(id, s, p)
    case Heartbeat(latest, oldest) => e == DeliverHeartbeat(id, latest, oldest)
    case Nak(begin, end, from) => e.DeliverNak? && e.begin == begin && e.end == end && e.id == from
    case Ack(k, from) => e.DeliverAck? && e.ackNo == k && e.id == from
  }

  /* ----- infinite executions ----- */

  ghost predicate StepAt(sys: nat -> System, ev: nat -> Event, id: nat, i: nat)
  {
    Enabled(sys(i), ev(i)) && sys(i + 1) == Apply(sys(i), ev(i)) && Tracked(sys(i), id) && [] !in sys(i).sent
  }

  /** Any execution along which the receiver is tracked, and without empty packets. */
  ghost predicate Execution(sys: nat -> System, ev: nat -> Event, id: nat)
  {
    Inv(sys(0)) && TrackedInv(sys(0), id) && forall i: nat :: StepAt(sys, ev, id, i)
  }

  ghost predicate EmittedAt(sys: nat -> System, ev: nat -> Event, d: Datagram, m: nat)
  {
    Enabled(sys(m), ev(m)) && d in Out(sys(m), ev(m))
  }

  predicate ArrivesAt(ev: nat -> Event, d: Datagram, id: nat, m: nat)
  {
    IsArrival(ev(m), d, id)
  }

  ghost predicate EmittedAgain(sys: nat -> System, ev: nat -> Event, d: Datagram, n: nat)
  {
    exists m: nat :: m >= n && EmittedAt(sys, ev, d, m)
  }

  ghost predicate ArrivesAgain(ev: nat -> Event, d: Datagram, id: nat, n: nat)
  {
    exists m: nat :: m >= n && ArrivesAt(ev, d, id, m)
  }

  ghost predicate EmittedForEver(sys: nat -> System, ev: nat -> Event, d: Datagram)
  {
    forall n: nat :: EmittedAgain(sys, ev, d, n)
  }

  ghost predicate ArrivesForEver(ev: nat -> Event, d: Datagram, id: nat)
  {
    forall n: nat :: ArrivesAgain(ev, d, id, n)
  }

  ghost predicate FairTo(sys: nat -> System, ev: nat -> Event, id: nat, d: Datagram)
  {
    EmittedForEver(sys, ev, d) ==> ArrivesForEver(ev, d, id)
  }

  /** A datagram that is put on the wire again and again arrives again and again. */
  ghost predicate FairLinks(sys: nat -> System, ev: nat -> Event, id: nat)
  {
    forall d :: FairTo(sys, ev, id, d)
  }

  ghost predicate HeartbeatAt(sys: nat -> System, ev: nat -> Event, m: nat)
  {
    exists latest, oldest :: EmittedAt(sys, ev, Heartbeat(latest, oldest), m)
  }

  ghost predicate HeartbeatAgain(sys: nat -> System, ev: nat -> Event, n: nat)
  {
    exists m: nat :: m >= n && HeartbeatAt(sys, ev, m)
  }

  ghost predicate Beats(sys: nat -> System, ev: nat -> Event)
  {
    forall n: nat :: HeartbeatAgain(sys, ev, n)
  }

  /** The sender's socket does not fail in the middle of a retransmission. */
  predicate ServedAt(ev: nat -> Event, m: nat)
  {
    ev(m).DeliverNak? ==> ev(m).end - ev(m).begin < ev(m).accept
  }

  ghost predicate Served(ev: nat -> Event)
  {
    forall m: nat :: ServedAt(ev, m)
  }

  predicate TakesAt(ev: nat -> Event, id: nat, m: nat)
  {
    ev(m) == TakeNext(id)
  }

  ghost predicate TakesAgain(ev: nat -> Event, id: nat, n: nat)
  {
    exists m: nat :: m >= n && TakesAt(ev, id, m)
  }

  ghost predicate DrainGoesOn(sys: nat -> System, ev: nat -> Event, id: nat, n: nat)
  {
    id in sys(n).nodes && sys(n).nodes[id].draining ==> TakesAgain(ev, id, n)
  }

  /** The receiver's drain loop goes on while it has begun. */
  ghost predicate Drains(sys: nat -> System, ev: nat -> Event, id: nat)
  {
    forall n: nat :: DrainGoesOn(sys, ev, id, n)
  }

  lemma RunsAt(sys: nat -> System, ev: nat -> Event, id: nat, i: nat)
    requires Execution(sys, ev, id)
    ensures Enabled(sys(i), ev(i)) && sys(i + 1) == Apply(sys(i), ev(i)) && Tracked(sys(i), id) && [] !in sys(i).sent
  {
    assert StepAt(sys, ev, id, i);
  }

  ghost predicate Sane(s: System, id: nat)
  {
    Inv(s) && TrackedInv(s, id)
  }

  lemma SaneNext(sys: nat -> System, ev: nat -> Event, id: nat, i: nat)
    requires Execution(sys, ev, id) && Sane(sys(i), id)
    ensures Sane(sys(i + 1), id)
  {
    RunsAt(sys, ev, id, i);
    RunsAt(sys, ev, id, i + 1);
    OneMore(sys(i), ev(i), id, sys(i + 1));
  }

  lemma {:induction false} SaneAt(sys: nat -> System, ev: nat -> Event, id: nat, n: nat)
    requires Execution(sys, ev, id)
    ensures Sane(sys(n), id)
    decreases n
  {
    if n == 0 {
    } else {
      SaneAt(sys, ev, id, n - 1);
      SaneNext(sys, ev, id, n - 1);
    }
  }

  lemma AtMoment(sys: nat -> System, ev: nat -> Event, id: nat, n: nat)
    requires Execution(sys, ev, id)
    ensures Inv(sys(n)) && TrackedInv(sys(n), id) && StepAt(sys, ev, id, n)
  {
    SaneAt(sys, ev, id, n);
    assert StepAt(sys, ev, id, n);
  }

  lemma OneMore(sys: System, e: Event, id: nat, next: System)
    requires Inv(sys) && TrackedInv(sys, id) && Enabled(sys, e) && next == Apply(sys, e)
    requires Tracked(next, id)
    ensures Inv(next) && TrackedInv(next, id)
  {
    StepInv(sys, e);
    TrackedStep(sys, e, id);
  }

  lemma {:induction false} GrowsTo(sys: nat -> System, ev: nat -> Event, id: nat, n: nat, m: nat)
    requires Execution(sys, ev, id) && n <= m
    ensures Grows(sys(n), sys(m)) && |sys(m).sender.win| == |sys(n).sender.win|
    decreases m - n
  {
    if n == m {
    } else {
      AtMoment(sys, ev, id, n);
      StepGrows(sys(n), ev(n));
      SameWindow(sys(n), ev(n));
      GrowsTo(sys, ev, id, n + 1, m);
    }
  }

  lemma SameWindow(sys: System, e: Event)
    requires Inv(sys) && Enabled(sys, e)
    ensures |Apply(sys, e).sender.win| == |sys.sender.win|
  {
    if e.SenderCanSend? {
      CanSendKeeps(sys.sender, sys.sent, e.accept, e.now);
    }
  }

  /** A rising sequence below a bound comes to rest. */
  lemma {:induction false} ComesToRest(f: nat -> nat, t: nat, bound: nat) returns (rest: nat)
    requires forall i: nat, j: nat :: t <= i <= j ==> f(i) <= f(j) <= bound
    ensures rest >= t && forall j: nat :: j >= rest ==> f(j) == f(rest)
    decreases bound - f(t)
  {
    if i: nat :| i >= t && f(i) > f(t) {
      rest := ComesToRest(f, i, bound);
    } else {
      rest := t;
    }
  }

  /* ----- what repeats while the receiver makes no progress ----- */

  function LatestAt(sys: nat -> System, id: nat, i: nat): nat
  {
    if id in sys(i).nodes then sys(i).nodes[id].rcv.latest else 0
  }

  /** The last number received, the head and the last number sent stay what they are. */
  predicate RestAt(sys: nat -> System, id: nat, l: nat, h: nat, m: nat, j: nat)
  {
    LatestAt(sys, id, j) == l && sys(j).sender.head == h && sys(j).sender.sending == m
  }

  ghost predicate RestsFrom(sys: nat -> System, id: nat, l: nat, h: nat, m: nat, t: nat)
  {
    forall j: nat :: j >= t ==> RestAt(sys, id, l, h, m, j)
  }

  /** A heartbeat tells the numbers of the moment. */
  lemma OnlyBeat(sys: System, e: Event, latest: nat, oldest: nat)
    requires Inv(sys) && Enabled(sys, e) && Heartbeat(latest, oldest) in Out(sys, e)
    ensures latest == Apply(sys, e).sender.sending && oldest == sys.sender.head
  {
    match e
    case SenderCanSend(accept, now) => CanSendKeeps(sys.sender, sys.sent, accept, now);
    case DeliverNak(begin, end, id, accept, now) =>
      assert Truthful(sys, Nak(begin, end, id));
      if InRange(sys.sender, begin, end) {
        ResendMeaning(sys.sender, sys.sent, begin, end, accept);
      }
    case TakeNext(id) => NextBounded(sys.nodes[id], id, sys.sender.sending);
    case RecverCanSend(id, now) => TimerBounded(sys.nodes[id], id, sys.sender.sending, now);
    case _ =>
  }

  lemma BeatsAgain(sys: nat -> System, ev: nat -> Event, id: nat, l: nat, h: nat, m: nat, t: nat)
    requires Execution(sys, ev, id) && Beats(sys, ev) && RestsFrom(sys, id, l, h, m, t)
    ensures EmittedForEver(sys, ev, Heartbeat(m, h))
  {
    forall n: nat ensures EmittedAgain(sys, ev, Heartbeat(m, h), n) {
      var from := if n > t then n else t;
      assert HeartbeatAgain(sys, ev, from);
      var j: nat :| j >= from && HeartbeatAt(sys, ev, j);
      var latest, oldest :| EmittedAt(sys, ev, Heartbeat(latest, oldest), j);
      AtMoment(sys, ev, id, j);
      OnlyBeat(sys(j), ev(j), latest, oldest);
      assert RestAt(sys, id, l, h, m, j) && RestAt(sys, id, l, h, m, j + 1);
      assert EmittedAt(sys, ev, Heartbeat(m, h), j);
    }
  }

  /** So the same request is sent again and again, */
  lemma AsksAgain(sys: nat -> System, ev: nat -> Event, id: nat, l: nat, h: nat, m: nat, t: nat)
    requires Execution(sys, ev, id) && RestsFrom(sys, id, l, h, m, t) && l < m
    requires ArrivesForEver(ev, Heartbeat(m, h), id)
    ensures EmittedForEver(sys, ev, Nak(l + 1, m, id))
  {
    var d := Nak(l + 1, m, id);
    forall n: nat ensures EmittedAgain(sys, ev, d, n) {
      var from := if n > t then n else t;
      assert ArrivesAgain(ev, Heartbeat(m, h), id, from);
      var j: nat :| j >= from && ArrivesAt(ev, Heartbeat(m, h), id, j);
      AtMoment(sys, ev, id, j);
      assert RestAt(sys, id, l, h, m, j) && NodeBounded(sys(j).nodes[id], id, sys(j).sender.sending);
      assert OnHeartbeat(sys(j).nodes[id].rcv, m)[0] == Nak(l + 1, m, id);
      assert EmittedAt(sys, ev, d, j);
    }
  }

  lemma ServesOnce(sys: System, e: Event, id: nat, l: nat, m: nat)
    requires Inv(sys) && TrackedInv(sys, id) && Enabled(sys, e) && sys.nodes[id].rcv.latest == l < m <= |sys.sent|
    requires e.DeliverNak? && e.begin == l + 1 && e.end == m && e.id == id && e.end - e.begin < e.accept
    ensures Original(sys.sent, l + 1) in Out(sys, e)
  {
    NakGranted(sys, id, l + 1, m, e.accept);
    assert Out(sys, e)[0] == Original(sys.sent, l + 1);
  }

  /** and the same packet is retransmitted again and again. */
  lemma ServesAgain(sys: nat -> System, ev: nat -> Event, id: nat, l: nat, h: nat, m: nat, t: nat)
    requires Execution(sys, ev, id) && Served(ev) && RestsFrom(sys, id, l, h, m, t) && l < m <= |sys(t).sent|
    requires ArrivesForEver(ev, Nak(l + 1, m, id), id)
    ensures EmittedForEver(sys, ev, Original(sys(t).sent, l + 1))
  {
    var d := Original(sys(t).sent, l + 1);
    forall n: nat ensures EmittedAgain(sys, ev, d, n) {
      var from := if n > t then n else t;
      assert ArrivesAgain(ev, Nak(l + 1, m, id), id, from);
      var j: nat :| j >= from && ArrivesAt(ev, Nak(l + 1, m, id), id, j);
      GrowsTo(sys, ev, id, t, j);
      AtMoment(sys, ev, id, j);
      assert RestAt(sys, id, l, h, m, j) && ServedAt(ev, j);
      ServesOnce(sys(j), ev(j), id, l, m);
      assert EmittedAt(sys, ev, d, j);
    }
  }

  lemma Raises(sys: nat -> System, ev: nat -> Event, id: nat, s: nat, p: Packet, j: nat)
    requires Execution(sys, ev, id) && ArrivesAt(ev, Data(s, p), id, j) && s == LatestAt(sys, id, j) + 1
    ensures LatestAt(sys, id, j + 1) >= s
  {
    AtMoment(sys, ev, id, j);
  }

  /** Where the receiver would be at rest, the numbers of the sender are too. */
  lemma BothRest(sys: nat -> System, ev: nat -> Event, id: nat, l: nat, i: nat) returns (h: nat, m: nat, t: nat)
    requires Execution(sys, ev, id) && forall j: nat :: j >= i ==> LatestAt(sys, id, j) == l
    ensures t >= i && RestsFrom(sys, id, l, h, m, t)
  {
    var head, sending := (j: nat) => sys(j).sender.head, (j: nat) => sys(j).sender.sending;
    var bound := l + 1 + |sys(i).sender.win| / 10;
    forall j: nat, k: nat | i <= j <= k
      ensures head(j) <= head(k) <= bound && sending(j) <= sending(k) <= bound
    {
      GrowsTo(sys, ev, id, i, k);
      GrowsTo(sys, ev, id, j, k);
      AtMoment(sys, ev, id, k);
      assert LatestAt(sys, id, k) == l;
      HeadBound(sys(k), id);
    }
    var t1 := ComesToRest(head, i, bound);
    t := ComesToRest(sending, t1, bound);
    h, m := head(t), sending(t);
    forall j: nat | j >= t
      ensures RestAt(sys, id, l, h, m, j)
    {
      assert head(j) == head(t1) && sending(j) == sending(t);
    }
  }

  lemma MomentOfRest(sys: nat -> System, ev: nat -> Event, id: nat, l: nat, h: nat, m: nat, t: nat, j: nat)
    requires Execution(sys, ev, id) && RestsFrom(sys, id, l, h, m, t) && j >= t
    ensures LatestAt(sys, id, j) == l && sys(j).sender.sending == m && sys(j).sender.head == h
    ensures l <= m <= |sys(j).sent| && h <= m + 1 && sys(j).sender.tail == |sys(j).sent| + 1
  {
    AtMoment(sys, ev, id, j);
    assert RestAt(sys, id, l, h, m, j) && NodeBounded(sys(j).nodes[id], id, m);
  }

  /** Heartbeats that keep coming while the numbers rest bring the next packet. */
  lemma FetchesNext(sys: nat -> System, ev: nat -> Event, id: nat, l: nat, h: nat, m: nat, t: nat)
    returns (k: nat)
    requires Execution(sys, ev, id) && FairLinks(sys, ev, id) && Served(ev)
    requires RestsFrom(sys, id, l, h, m, t) && l < m && EmittedForEver(sys, ev, Heartbeat(m, h))
    ensures k >= t && LatestAt(sys, id, k) > l
  {
    MomentOfRest(sys, ev, id, l, h, m, t, t);
    var d := Original(sys(t).sent, l + 1);
    assert FairTo(sys, ev, id, Heartbeat(m, h));
    AsksAgain(sys, ev, id, l, h, m, t);
    assert FairTo(sys, ev, id, Nak(l + 1, m, id));
    ServesAgain(sys, ev, id, l, h, m, t);
    assert FairTo(sys, ev, id, d) && ArrivesAgain(ev, d, id, t);
    var j: nat :| j >= t && ArrivesAt(ev, d, id, j);
    MomentOfRest(sys, ev, id, l, h, m, t, j);
    k := j + 1;
    Raises(sys, ev, id, l + 1, d.payload, j);
  }

  /** Either the receiver gets on, or from some moment it and the sender are at rest. */
  lemma GetsOnOrRests(sys: nat -> System, ev: nat -> Event, id: nat, i: nat)
    returns (k: nat, h: nat, m: nat, t: nat)
    requires Execution(sys, ev, id)
    ensures || (k >= i && LatestAt(sys, id, k) > LatestAt(sys, id, i))
            || (t >= i && RestsFrom(sys, id, LatestAt(sys, id, i), h, m, t))
  {
    var l := LatestAt(sys, id, i);
    k, h, m, t := 0, 0, 0, 0;
    if k0: nat :| k0 >= i && LatestAt(sys, id, k0) > l {
      k := k0;
    } else {
      forall j: nat | j >= i ensures LatestAt(sys, id, j) == l {
        AtMoment(sys, ev, id, i);
        GrowsTo(sys, ev, id, i, j);
      }
      h, m, t := BothRest(sys, ev, id, l, i);
    }
  }

  /** While something that has been multicast is missing, the receiver makes progress. */
  lemma Progresses(sys: nat -> System, ev: nat -> Event, id: nat, i: nat) returns (k: nat)
    requires Execution(sys, ev, id) && FairLinks(sys, ev, id) && Beats(sys, ev) && Served(ev)
    requires LatestAt(sys, id, i) < sys(i).sender.sending
    ensures k >= i && LatestAt(sys, id, k) > LatestAt(sys, id, i)
  {
    var k0, h, m, t := GetsOnOrRests(sys, ev, id, i);
    k := k0;
    if t >= i && RestsFrom(sys, id, LatestAt(sys, id, i), h, m, t) {
      GrowsTo(sys, ev, id, i, t);
      assert RestAt(sys, id, LatestAt(sys, id, i), h, m, t);
      BeatsAgain(sys, ev, id, LatestAt(sys, id, i), h, m, t);
      k := FetchesNext(sys, ev, id, LatestAt(sys, id, i), h, m, t);
    }
  }

  lemma {:induction false} Reaches(sys: nat -> System, ev: nat -> Event, id: nat, n: nat, i: nat) returns (k: nat)
    requires Execution(sys, ev, id) && FairLinks(sys, ev, id) && Beats(sys, ev) && Served(ev)
    requires n <= sys(i).sender.sending
    ensures k >= i && LatestAt(sys, id, k) >= n
    decreases n - LatestAt(sys, id, i)
  {
    if LatestAt(sys, id, i) >= n {
      k := i;
    } else {
      var k1 := Progresses(sys, ev, id, i);
      GrowsTo(sys, ev, id, i, k1);
      k := Reaches(sys, ev, id, n, k1);
    }
  }

  /* ----- and hands it over ----- */

  function NodeAt(sys: nat -> System, id: nat, i: nat): Node
    requires id in sys(i).nodes
  {
    sys(i).nodes[id]
  }

  /** While the drain is on, nothing but its own calls and the timer touch the receiver. */
  lemma DrainOnce(sys: System, e: Event, id: nat)
    requires Inv(sys) && Enabled(sys, e) && id in sys.nodes && sys.nodes[id].draining
    ensures id in Apply(sys, e).nodes
    ensures var (n, n') := (sys.nodes[id], Apply(sys, e).nodes[id]);
            if e == TakeNext(id) then !n'.draining || CallsLeft(n'.rcv) < CallsLeft(n.rcv)
            else n'.draining && CallsLeft(n'.rcv) == CallsLeft(n.rcv)
  {
    if e == TakeNext(id) {
      NextShrinks(sys.nodes[id].rcv);
    } else if e.RecverCanSend? && e.id == id {
      TimerBounded(sys.nodes[id], id, sys.sender.sending, e.now);
    }
  }

  lemma DrainMoment(sys: nat -> System, ev: nat -> Event, id: nat, i: nat)
    requires Execution(sys, ev, id) && id in sys(i).nodes && NodeAt(sys, id, i).draining
    ensures id in sys(i + 1).nodes
    ensures var (n, n') := (NodeAt(sys, id, i), NodeAt(sys, id, i + 1));
            if TakesAt(ev, id, i) then !n'.draining || CallsLeft(n'.rcv) < CallsLeft(n.rcv)
            else n'.draining && CallsLeft(n'.rcv) == CallsLeft(n.rcv)
  {
    AtMoment(sys, ev, id, i);
    DrainOnce(sys(i), ev(i), id);
  }

  lemma {:induction false} Finishes(sys: nat -> System, ev: nat -> Event, id: nat, i: nat, j: nat) returns (k: nat)
    requires Execution(sys, ev, id) && Drains(sys, ev, id) && id in sys(i).nodes
    requires NodeAt(sys, id, i).draining ==> j >= i && TakesAt(ev, id, j)
    ensures k >= i && id in sys(k).nodes && !NodeAt(sys, id, k).draining
    decreases CallsLeft(NodeAt(sys, id, i).rcv), j - i
  {
    if !NodeAt(sys, id, i).draining {
      return i;
    }
    DrainMoment(sys, ev, id, i);
    var j' := j;
    if i == j && NodeAt(sys, id, i + 1).draining {
      assert DrainGoesOn(sys, ev, id, i + 1);
      j' :| j' >= i + 1 && TakesAt(ev, id, j');
    }
    if NodeAt(sys, id, i + 1).draining {
      k := Finishes(sys, ev, id, i + 1, j');
    } else {
      k := i + 1;
    }
  }

  ghost predicate HandedOver(sys: nat -> System, id: nat, n: nat, k: nat)
  {
    && id in sys(k).nodes
    && n <= sys(k).nodes[id].rcv.latest <= |sys(k).sent|
    && sys(k).nodes[id].delivered == sys(k).sent[..sys(k).nodes[id].rcv.latest]
  }

  lemma HandsOver(sys: nat -> System, ev: nat -> Event, id: nat, n: nat, i: nat)
    requires Execution(sys, ev, id) && Drains(sys, ev, id) && LatestAt(sys, id, i) >= n
    ensures exists k: nat :: k >= i && HandedOver(sys, id, n, k)
  {
    AtMoment(sys, ev, id, i);
    var j := i;
    if NodeAt(sys, id, i).draining {
      assert DrainGoesOn(sys, ev, id, i);
      j :| j >= i && TakesAt(ev, id, j);
    }
    var k := Finishes(sys, ev, id, i, j);
    GrowsTo(sys, ev, id, i, k);
    AtMoment(sys, ev, id, k);
    assert NodeBounded(sys(k).nodes[id], id, sys(k).sender.sending);
    assert HandedOver(sys, id, n, k);
  }

  /** Liveness: in every execution in which what is put on the wire again and again arrives
      again and again, heartbeats keep coming, retransmissions are not cut short and drain
      loops go on, a tracked receiver gets and hands over every packet that is multicast. */
  lemma AllHandedOver(sys: nat -> System, ev: nat -> Event, id: nat, n: nat, i: nat)
    requires Execution(sys, ev, id) && FairLinks(sys, ev, id) && Beats(sys, ev) && Served(ev) && Drains(sys, ev, id)
    requires n <= sys(i).sender.sending
    ensures exists k: nat :: k >= i && HandedOver(sys, id, n, k)
  {
    var k1 := Reaches(sys, ev, id, n, i);
    HandsOver(sys, ev, id, n, k1);
  }

  /* ----- a lone receiver, from `send` on ----- */

  ghost predicate LoneStepAt(sys: nat -> System, ev: nat -> Event, i: nat)
  {
    Enabled(sys(i), ev(i)) && sys(i + 1) == Apply(sys(i), ev(i)) && [] !in sys(i).sent
  }

  /** Any execution of a fresh system with one receiver, again without empty packets. */
  ghost predicate LoneExecution(sys: nat -> System, ev: nat -> Event, id: nat)
  {
    Initial(sys(0)) && sys(0).nodes.Keys == {id} && forall i: nat :: LoneStepAt(sys, ev, i)
  }

  lemma {:induction false} LoneMoment(sys: nat -> System, ev: nat -> Event, id: nat, n: nat)
    requires LoneExecution(sys, ev, id)
    ensures Inv(sys(n)) && sys(n).nodes.Keys == {id} && Tracked(sys(n), id)
    decreases n
  {
    if n == 0 {
      InitialInv(sys(0));
    } else {
      LoneMoment(sys, ev, id, n - 1);
      assert LoneStepAt(sys, ev, n - 1);
      StepInv(sys(n - 1), ev(n - 1));
      LoneStep(sys(n - 1), ev(n - 1), id);
    }
  }

  lemma LoneExecutes(sys: nat -> System, ev: nat -> Event, id: nat)
    requires LoneExecution(sys, ev, id)
    ensures Execution(sys, ev, id)
  {
    LoneMoment(sys, ev, id, 0);
    assert id in sys(0).nodes.Keys;
    InitialTracked(sys(0), id);
    forall j: nat ensures StepAt(sys, ev, id, j) {
      LoneMoment(sys, ev, id, j);
      assert LoneStepAt(sys, ev, j);
    }
  }

  /** A lone receiver needs no hypothesis about the table. */
  lemma AllHandedOverLone(sys: nat -> System, ev: nat -> Event, id: nat, n: nat, i: nat)
    requires LoneExecution(sys, ev, id) && FairLinks(sys, ev, id) && Beats(sys, ev) && Served(ev) && Drains(sys, ev, id)
    requires n <= sys(i).sender.sending
    ensures exists k: nat :: k >= i && HandedOver(sys, id, n, k)
  {
    LoneExecutes(sys, ev, id);
    AllHandedOver(sys, ev, id, n, i);
  }

  /** The sender's output thread is called with room, later than the heartbeat interval
      after the reading it remembers. */
  ghost predicate SendsAt(sys: nat -> System, ev: nat -> Event, m: nat)
  {
    && ev(m).SenderCanSend? && ev(m).accept > 0 && sys(m).sender.lastHbTime > 0
    && Sub(ev(m).now, sys(m).sender.lastHbTime) > sys(m).sender.hbInterval
  }

  ghost predicate SendsAgain(sys: nat -> System, ev: nat -> Event, n: nat)
  {
    exists m: nat :: m >= n && SendsAt(sys, ev, m)
  }

  ghost predicate SendsOn(sys: nat -> System, ev: nat -> Event)
  {
    forall n: nat :: SendsAgain(sys, ev, n)
  }

  /** The receiver's timer is called later than the interval of forced acknowledgements
      after the reading it remembers. */
  ghost predicate ForcesAt(sys: nat -> System, ev: nat -> Event, id: nat, m: nat)
  {
    && ev(m).RecverCanSend? && ev(m).id == id && id in sys(m).nodes && sys(m).nodes[id].rcv.lastAckTime > 0
    && Sub(ev(m).now, sys(m).nodes[id].rcv.lastAckTime) > SEND_ACK_INTERVAL
  }

  ghost predicate ForcesAgain(sys: nat -> System, ev: nat -> Event, id: nat, n: nat)
  {
    exists m: nat :: m >= n && ForcesAt(sys, ev, id, m)
  }

  ghost predicate ForcesOn(sys: nat -> System, ev: nat -> Event, id: nat)
  {
    forall n: nat :: ForcesAgain(sys, ev, id, n)
  }

  /** With room, the loop multicasts nothing only when it is blocked, and then a heartbeat
      that is due goes out. */
  lemma MovesOrBeats(s: Sender, sent: seq<Packet>, accept: nat, now: nat)
    requires IndicesOrdered(s) && Retains(s, sent) && accept > 0
    requires s.lastHbTime > 0 && Sub(now, s.lastHbTime) > s.hbInterval
    ensures var (s', out) := OnCanSend(s, accept, now);
            if Blocked(s) then s' == s && out == [Heartbeat(s.sending, s.head)] else s'.sending > s.sending
  {
    if !Blocked(s) {
      assert Ring.At(s.win, s.sending + 1) == Some(Data(s.sending + 1, sent[s.sending]));
      CanSendKeeps(s.(sending := s.sending + 1), sent, accept - 1, now);
    }
  }

  /** At rest the sender is blocked, and its heartbeats go out for ever. */
  lemma BeatsAtRest(sys: nat -> System, ev: nat -> Event, id: nat, l: nat, h: nat, m: nat, t: nat)
    requires Execution(sys, ev, id) && SendsOn(sys, ev) && RestsFrom(sys, id, l, h, m, t)
    ensures EmittedForEver(sys, ev, Heartbeat(m, h))
    ensures exists j: nat :: j >= t && BlockedAt(sys, j)
  {
    forall n: nat
      ensures EmittedAgain(sys, ev, Heartbeat(m, h), n)
      ensures exists j: nat :: j >= t && BlockedAt(sys, j)
    {
      var from := if n > t then n else t;
      assert SendsAgain(sys, ev, from);
      var j: nat :| j >= from && SendsAt(sys, ev, j);
      AtMoment(sys, ev, id, j);
      MovesOrBeats(sys(j).sender, sys(j).sent, ev(j).accept, ev(j).now);
      assert RestAt(sys, id, l, h, m, j) && RestAt(sys, id, l, h, m, j + 1);
      assert BlockedAt(sys, j) && Out(sys(j), ev(j))[0] == Heartbeat(m, h);
      assert EmittedAt(sys, ev, Heartbeat(m, h), j);
    }
    assert EmittedAgain(sys, ev, Heartbeat(m, h), 0);
  }

  predicate BlockedAt(sys: nat -> System, j: nat)
  {
    Blocked(sys(j).sender)
  }

  /** At rest the forced acknowledgement goes out for ever, */
  lemma AcksAgain(sys: nat -> System, ev: nat -> Event, id: nat, l: nat, h: nat, m: nat, t: nat)
    requires Execution(sys, ev, id) && ForcesOn(sys, ev, id) && RestsFrom(sys, id, l, h, m, t) && l > 0
    ensures EmittedForEver(sys, ev, Ack(l, id))
  {
    forall n: nat ensures EmittedAgain(sys, ev, Ack(l, id), n) {
      var from := if n > t then n else t;
      assert ForcesAgain(sys, ev, id, from);
      var j: nat :| j >= from && ForcesAt(sys, ev, id, j);
      AtMoment(sys, ev, id, j);
      assert RestAt(sys, id, l, h, m, j) && NodeBounded(sys(j).nodes[id], id, sys(j).sender.sending);
      assert Out(sys(j), ev(j))[0] == Ack(l, id);
      assert EmittedAt(sys, ev, Ack(l, id), j);
    }
  }

  /** and when it arrives the head is past everything the lone receiver has got. */
  lemma AckMovesHead(sys: System, e: Event, id: nat)
    requires Inv(sys) && Enabled(sys, e) && sys.nodes.Keys == {id} && e.DeliverAck?
    ensures Apply(sys, e).sender.head > e.ackNo
  {
    var (s, s') := (sys.sender, Apply(sys, e).sender);
    assert Truthful(sys, Ack(e.ackNo, e.id)) && e.id in sys.nodes.Keys;
    assert forall k :: k in s.recvers ==> k in sys.nodes.Keys;
    if s.head <= e.ackNo {
      AckHead(s, e.ackNo, e.id, e.now, e.order);
      assert forall k :: k in e.order ==> k == id;
    }
  }

  /** So an idle lone receiver stops its sender: a number that it acknowledges once more
      meets the assertion against repeated acknowledgements. */
  lemma RepeatedAckStops(sys: System, e: Event, again: Event, id: nat)
    requires Inv(sys) && sys.nodes.Keys == {id} && Enabled(sys, e) && Enabled(Apply(sys, e), again)
    requires e.DeliverAck? && again.DeliverAck? && again.ackNo <= e.ackNo
    ensures !RmpGroup.Passes(Apply(sys, e), again)
  {
    AckMovesHead(sys, e, id);
  }

  lemma HeadPassesAll(sys: nat -> System, ev: nat -> Event, id: nat, l: nat, h: nat, m: nat, t: nat)
    requires LoneExecution(sys, ev, id) && Execution(sys, ev, id) && FairLinks(sys, ev, id) && ForcesOn(sys, ev, id)
    requires RestsFrom(sys, id, l, h, m, t) && l > 0
    ensures h > l
  {
    AcksAgain(sys, ev, id, l, h, m, t);
    assert FairTo(sys, ev, id, Ack(l, id)) && ArrivesAgain(ev, Ack(l, id), id, t);
    var j: nat :| j >= t && ArrivesAt(ev, Ack(l, id), id, j);
    LoneMoment(sys, ev, id, j);
    assert LoneStepAt(sys, ev, j) && RestAt(sys, id, l, h, m, j + 1);
    AckMovesHead(sys(j), ev(j), id);
  }

  /** So a lone receiver that has got everything multicast makes the sender go on, and one
      that has not gets on itself, as long as `send` has taken more than it has got. */
  lemma NeverRests(sys: nat -> System, ev: nat -> Event, id: nat, l: nat, h: nat, m: nat, t: nat)
    requires LoneExecution(sys, ev, id) && FairLinks(sys, ev, id) && Served(ev)
    requires SendsOn(sys, ev) && ForcesOn(sys, ev, id) && |sys(0).sender.win| >= 10
    requires l < |sys(t).sent|
    ensures !RestsFrom(sys, id, l, h, m, t)
  {
    if RestsFrom(sys, id, l, h, m, t) {
      LoneExecutes(sys, ev, id);
      BeatsAtRest(sys, ev, id, l, h, m, t);
      MomentOfRest(sys, ev, id, l, h, m, t, t);
      if l < m {
        var k := FetchesNext(sys, ev, id, l, h, m, t);
        MomentOfRest(sys, ev, id, l, h, m, t, k);
      } else {
        if l > 0 {
          HeadPassesAll(sys, ev, id, l, h, m, t);
        }
        var j: nat :| j >= t && BlockedAt(sys, j);
        MomentOfRest(sys, ev, id, l, h, m, t, j);
        GrowsTo(sys, ev, id, t, j);
        GrowsTo(sys, ev, id, 0, j);
      }
    }
  }

  lemma {:induction false} ReachesSent(sys: nat -> System, ev: nat -> Event, id: nat, n: nat, i: nat) returns (k: nat)
    requires LoneExecution(sys, ev, id) && FairLinks(sys, ev, id) && Served(ev)
    requires SendsOn(sys, ev) && ForcesOn(sys, ev, id) && |sys(0).sender.win| >= 10
    requires n <= |sys(i).sent|
    ensures k >= i && LatestAt(sys, id, k) >= n
    decreases n - LatestAt(sys, id, i)
  {
    var l := LatestAt(sys, id, i);
    if l >= n {
      k := i;
    } else {
      LoneExecutes(sys, ev, id);
      var k1, h, m, t := GetsOnOrRests(sys, ev, id, i);
      if t >= i {
        GrowsTo(sys, ev, id, i, t);
        NeverRests(sys, ev, id, l, h, m, t);
      }
      GrowsTo(sys, ev, id, i, k1);
      k := ReachesSent(sys, ev, id, n, k1);
    }
  }

  lemma {:induction false} SilentMoment(sys: nat -> System, ev: nat -> Event, id: nat, k: nat)
    requires LoneExecution(sys, ev, id) && |sys(0).sender.win| < 10
    ensures RmpGroup.Silent(sys(k))
    decreases k
  {
    if k == 0 {
      InitialInv(sys(0));
    } else {
      SilentMoment(sys, ev, id, k - 1);
      assert LoneStepAt(sys, ev, k - 1);
      RmpGroup.StaysSilent(sys(k - 1), ev(k - 1));
    }
  }

  /** Liveness from `send` on, exactly: with one receiver, in every execution in which links
      are fair, the sender's output thread and the receiver's timer are called again and
      again, retransmissions are not cut short and drain loops go on, every packet that
      `send` has taken is multicast, received and handed over, in order, if and only if the
      window is ten or more. */
  lemma AllSentHandedOver(sys: nat -> System, ev: nat -> Event, id: nat, n: nat, i: nat)
    requires LoneExecution(sys, ev, id) && FairLinks(sys, ev, id) && Served(ev) && Drains(sys, ev, id)
    requires SendsOn(sys, ev) && ForcesOn(sys, ev, id) && 1 <= n <= |sys(i).sent|
    ensures (exists k: nat :: k >= i && HandedOver(sys, id, n, k)) <==> |sys(0).sender.win| >= 10
  {
    if |sys(0).sender.win| >= 10 {
      LoneExecutes(sys, ev, id);
      var k1 := ReachesSent(sys, ev, id, n, i);
      HandsOver(sys, ev, id, n, k1);
    } else {
      forall k: nat | k >= i ensures !HandedOver(sys, id, n, k) {
        SilentMoment(sys, ev, id, k);
        assert id in sys(k).nodes ==> NodeBounded(sys(k).nodes[id], id, 0);
      }
    }
  }
}
