/** The sending half of the reliable multicast socket: a window of unacknowledged
    packets, retransmission on request, and a table of what each receiver has confirmed. */
module RmpSender {
  import opened Ring
  import opened Bytes
  import opened RmpWire

  datatype RecverInfo = RecverInfo(acked: nat, seen: nat)

  /** `win` holds complete datagrams: a slot carries the number it was written with. */
  datatype Sender = Sender(
    hbInterval: nat,
    keepAlive: nat,
    head: nat,
    tail: nat,
    sending: nat,
    win: seq<Option<Datagram>>,
    recvers: map<nat, RecverInfo>,
    lastHbTime: nat)

  function Fresh(size: nat, hbInterval: nat, keepAlive: nat): Sender
  {
    Sender(hbInterval, keepAlive, 0, 1, 0, seq(size, _ => None), map[], 0)
  }

  function OnSend(s: Sender, p: Packet): (res: (Sender, Code))
    requires |s.win| > 0
  {
    if (s.tail + 1) % |s.win| == s.head % |s.win| then (s, NoSpace) else
    (s.(win := Put(s.win, s.tail, Some(Data(s.tail, p))), tail := s.tail + 1), Suc)
  }

  /** Nothing more may be multicast: a tenth of the window is unacknowledged, or all is sent. */
  predicate Blocked(s: Sender)
  {
    Sub(s.sending + 1, s.head) > |s.win| / 10 || s.sending + 1 == s.tail
  }

  function HeartbeatIfDue(s: Sender, now: nat): (res: (Sender, seq<Datagram>))
  {
    var s1 := if s.lastHbTime == 0 then s.(lastHbTime := now) else s;
    (s1, if Sub(now, s1.lastHbTime) > s1.hbInterval then [Heartbeat(s1.sending, s1.head)] else [])
  }

  /** The sending loop, for a socket that takes `accept` datagrams before it refuses one.
      A NULL slot ends the run: the original would dereference it. */
  function OnCanSend(s: Sender, accept: nat, now: nat): (res: (Sender, seq<Datagram>))
    requires |s.win| > 0
    decreases accept
  {
    if Blocked(s) then HeartbeatIfDue(s, now)
    else
      var slot := At(s.win, s.sending + 1);
      if accept == 0 || slot.None? then (s, [])
      else
        var (s1, rest) := OnCanSend(s.(sending := s.sending + 1), accept - 1, now);
        (s1, [slot.value] + rest)
  }

  /** The datagrams in slots `begin`..`end`, in order, as far as the socket takes them. */
  function Resend(win: seq<Option<Datagram>>, begin: nat, end: nat, accept: nat): (out: seq<Datagram>)
    requires |win| > 0
    decreases accept
  {
    if begin > end || accept == 0 || At(win, begin).None? then []
    else [At(win, begin).value] + Resend(win, begin + 1, end, accept - 1)
  }

  function Entry(recvers: map<nat, RecverInfo>, id: nat): RecverInfo
  {
    if id in recvers then recvers[id] else RecverInfo(0, 0)
  }

  /** The lookup that creates a missing entry and stamps it with the clock. */
  function Touch(recvers: map<nat, RecverInfo>, id: nat, now: nat): map<nat, RecverInfo>
  {
    recvers[id := Entry(recvers, id).(seen := now)]
  }

  predicate InRange(s: Sender, begin: nat, end: nat)
  {
    s.head <= begin && end < s.tail
  }

  function OnNak(s: Sender, begin: nat, end: nat, id: nat, accept: nat, now: nat): (res: (Sender, seq<Datagram>))
    requires |s.win| > 0
  {
    var s1 := s.(recvers := Touch(s.recvers, id, now));
    (s1, if InRange(s, begin, end) then Resend(s.win, begin, end, accept) else [])
  }

  predicate Expired(info: RecverInfo, now: nat, keepAlive: nat)
  {
    Sub(now, info.seen) > keepAlive
  }

  /** The loop over the table in iteration order: expired entries are erased, the
      others lower the minimum found so far. */
  function Scan(recvers: map<nat, RecverInfo>, order: seq<nat>, mini: nat, now: nat, keepAlive: nat)
    : (res: (map<nat, RecverInfo>, nat))
    requires forall id :: id in order ==> id in recvers
    requires forall i, j :: 0 <= i < j < |order| ==> order[i] != order[j]
  {
    if order == [] then (recvers, mini)
    else if Expired(recvers[order[0]], now, keepAlive)
    then Scan(recvers - {order[0]}, order[1..], mini, now, keepAlive)
    else
      var info := recvers[order[0]];
      Scan(recvers, order[1..], if mini > info.acked then info.acked else mini, now, keepAlive)
  }

  /** `order` lists the keys of the table, each once. */
  ghost predicate Enumerates(order: seq<nat>, keys: set<nat>)
  {
    && (forall id :: id in keys <==> id in order)
    && (forall i, j :: 0 <= i < j < |order| ==> order[i] != order[j])
  }

  function Record(recvers: map<nat, RecverInfo>, id: nat, ackNo: nat): map<nat, RecverInfo>
    requires id in recvers
  {
    recvers[id := recvers[id].(acked := if recvers[id].acked > ackNo then recvers[id].acked else ackNo)]
  }

  /** `order` is the iteration order of the table once the acknowledging receiver is in it. */
  function OnAck(s: Sender, ackNo: nat, id: nat, now: nat, order: seq<nat>): (s': Sender)
    requires Enumerates(order, s.recvers.Keys + {id})
  {
    var touched := Touch(s.recvers, id, now);
    if ackNo < s.head then s.(recvers := touched)
    else
      var recorded := Record(touched, id, ackNo);
      assert id in order && order[0] in order;
      var (kept, mini) := Scan(recorded, order, recorded[order[0]].acked, now, s.keepAlive);
      if mini < s.head then s.(recvers := kept)
      else s.(recvers := kept, head := mini + 1)
  }

  /** A receiver has expired exactly when it was last heard of longer ago than the keep-alive
      time; a reading ahead of the clock counts as wrapped around. */
  lemma ExpiredExactly(info: RecverInfo, now: nat, keepAlive: nat)
    ensures info.seen <= now ==> (Expired(info, now, keepAlive) <==> now - info.seen > keepAlive)
    ensures info.seen > now ==> (Expired(info, now, keepAlive) <==> now + TWO_TO_THE_64 - info.seen > keepAlive)
  {
  }

  /** A request stamps its receiver and creates it if need be, changes nothing else, and is
      answered only when all of it is in the window. */
  lemma NakMeaning(s: Sender, begin: nat, end: nat, id: nat, accept: nat, now: nat)
    requires |s.win| > 0
    ensures var (s', out) := OnNak(s, begin, end, id, accept, now);
            && s' == s.(recvers := s'.recvers) && s'.recvers.Keys == s.recvers.Keys + {id}
            && s'.recvers[id] == RecverInfo(if id in s.recvers then s.recvers[id].acked else 0, now)
            && (forall k :: k in s.recvers && k != id ==> s'.recvers[k] == s.recvers[k])
            && (begin < s.head || end >= s.tail ==> out == [])
  {
  }

  /** So does a repeated acknowledgement, which evicts nobody and moves no head. */
  lemma StaleAck(s: Sender, ackNo: nat, id: nat, now: nat, order: seq<nat>)
    requires Enumerates(order, s.recvers.Keys + {id}) && ackNo < s.head
    ensures var s' := OnAck(s, ackNo, id, now, order);
            && s' == s.(recvers := s'.recvers) && s'.recvers.Keys == s.recvers.Keys + {id}
            && s'.recvers[id] == RecverInfo(if id in s.recvers then s.recvers[id].acked else 0, now)
            && forall k :: k in s.recvers && k != id ==> s'.recvers[k] == s.recvers[k]
  {
  }

  /** Heard of within the keep-alive time. */
  predicate HeardOf(info: RecverInfo, now: nat, keepAlive: nat)
  {
    (if info.seen <= now then now - info.seen else now + TWO_TO_THE_64 - info.seen) <= keepAlive
  }

  /** Erase-while-scanning: exactly the unexpired entries stay, unchanged, and the
      minimum is the least of the start value and of every entry that stays. */
  lemma {:induction false} ScanMeaning(recvers: map<nat, RecverInfo>, order: seq<nat>, mini: nat,
                                       now: nat, keepAlive: nat)
    requires forall id :: id in order ==> id in recvers
    requires forall i, j :: 0 <= i < j < |order| ==> order[i] != order[j]
    ensures var (kept, least) := Scan(recvers, order, mini, now, keepAlive);
            && (forall id :: id in kept <==> id in recvers && (id in order ==> HeardOf(recvers[id], now, keepAlive)))
            && (forall id :: id in kept ==> kept[id] == recvers[id])
            && least <= mini
            && (forall id :: id in order && id in kept ==> least <= kept[id].acked)
            && (least == mini || exists id :: id in order && id in kept && kept[id].acked == least)
  {
    if order != [] {
      var id := order[0];
      ExpiredExactly(recvers[id], now, keepAlive);
      assert forall x :: x in order <==> x == id || x in order[1..];
      if Expired(recvers[id], now, keepAlive) {
        ScanMeaning(recvers - {id}, order[1..], mini, now, keepAlive);
      } else {
        var m := if mini > recvers[id].acked then recvers[id].acked else mini;
        ScanMeaning(recvers, order[1..], m, now, keepAlive);
        var (kept, least) := Scan(recvers, order[1..], m, now, keepAlive);
        assert id !in order[1..];
        assert id in kept && kept[id] == recvers[id];
      }
    }
  }

  /** The number on record for receiver `k` while an acknowledgement of `id` is handled. */
  function Confirmed(s: Sender, ackNo: nat, id: nat, k: nat): nat
  {
    var known := Entry(s.recvers, k).acked;
    if k == id && known <= ackNo then ackNo else known
  }

  /** What an acknowledgement does to the table: the acknowledging receiver always
      stays and its number never falls; of the others exactly the unexpired stay, unchanged. */
  lemma AckTable(s: Sender, ackNo: nat, id: nat, now: nat, order: seq<nat>)
    requires Enumerates(order, s.recvers.Keys + {id}) && s.head <= ackNo
    ensures var kept := OnAck(s, ackNo, id, now, order).recvers;
            && id in kept && kept[id].seen == now
            && (forall k :: k in kept <==> k == id || (k in s.recvers && HeardOf(s.recvers[k], now, s.keepAlive)))
            && (forall k :: k in kept ==> kept[k].acked == Confirmed(s, ackNo, id, k))
  {
    var recorded := Record(Touch(s.recvers, id, now), id, ackNo);
    assert id in order && order[0] in order;
    ScanMeaning(recorded, order, recorded[order[0]].acked, now, s.keepAlive);
    assert forall k :: k in recorded <==> k in order;
  }

  /** What an acknowledgement does to the head: it moves only forward, to one past the
      least number on record, which is no more than any remaining receiver has confirmed. */
  lemma AckHead(s: Sender, ackNo: nat, id: nat, now: nat, order: seq<nat>)
    requires Enumerates(order, s.recvers.Keys + {id}) && s.head <= ackNo
    ensures var s' := OnAck(s, ackNo, id, now, order);
            && s' == s.(recvers := s'.recvers, head := s'.head)
            && s.head <= s'.head
            && (s'.head != s.head ==> forall k :: k in s'.recvers ==> s'.head <= Confirmed(s, ackNo, id, k) + 1)
            && (s'.head != s.head ==> exists k :: k in order && s'.head == Confirmed(s, ackNo, id, k) + 1)
            && (s'.head == s.head ==> exists k :: k in order && Confirmed(s, ackNo, id, k) < s.head)
  {
    var recorded := Record(Touch(s.recvers, id, now), id, ackNo);
    assert id in order && order[0] in order;
    ScanMeaning(recorded, order, recorded[order[0]].acked, now, s.keepAlive);
    assert forall k :: k in order ==> k in recorded && recorded[k].acked == Confirmed(s, ackNo, id, k);
    assert order[0] in order;
  }

  /** Exactly how far: the least number of those who stay and of the first in the order of
      iteration, who counts even if it is evicted; the head goes one past it, unless it is
      there already. */
  lemma HeadExactly(s: Sender, ackNo: nat, id: nat, now: nat, order: seq<nat>) returns (least: nat)
    requires Enumerates(order, s.recvers.Keys + {id}) && s.head <= ackNo
    ensures var s' := OnAck(s, ackNo, id, now, order);
            && order != [] && s'.head == (if least < s.head then s.head else least + 1)
            && least <= Confirmed(s, ackNo, id, order[0])
            && (forall k :: k in s'.recvers ==> least <= Confirmed(s, ackNo, id, k))
            && (least == Confirmed(s, ackNo, id, order[0])
                || exists k :: k in s'.recvers && least == Confirmed(s, ackNo, id, k))
  {
    var recorded := Record(Touch(s.recvers, id, now), id, ackNo);
    assert id in order && order[0] in order;
    least := Scan(recorded, order, recorded[order[0]].acked, now, s.keepAlive).1;
    ScanMeaning(recorded, order, recorded[order[0]].acked, now, s.keepAlive);
    assert forall k :: k in order ==> k in recorded && recorded[k].acked == Confirmed(s, ackNo, id, k);
  }

  /** The socket object: every method is proved to do what the functions above say. */
  class SendSock {
    const hbInterval: nat
    const keepAlive: nat
    const win: array<Option<Datagram>>
    var head: nat
    var tail: nat
    var sending: nat
    var recvers: map<nat, RecverInfo>
    var lastHbTime: nat

    function State(): Sender
      reads this, win
    {
      Sender(hbInterval, keepAlive, head, tail, sending, win[..], recvers, lastHbTime)
    }

    constructor (size: nat, hbInterval: nat, keepAlive: nat)
      ensures fresh(win) && win.Length == size
      ensures State() == Fresh(size, hbInterval, keepAlive)
      ensures head == sending == lastHbTime == 0 && tail == 1 && recvers == map[]
      ensures forall i :: 0 <= i < size ==> win[i] == None
    {
      this.hbInterval, this.keepAlive := hbInterval, keepAlive;
      win := new Option<Datagram>[size](_ => None);
      head, tail, sending, recvers, lastHbTime := 0, 1, 0, map[], 0;
      new;
      assert win[..] == seq(size, _ => None);
    }

    method Send(p: Packet) returns (code: Code)
      requires win.Length > 0
      modifies this, win
      ensures (State(), code) == OnSend(old(State()), p)
    {
      if (tail + 1) % win.Length == head % win.Length {
        return NoSpace;
      }
      win[tail % win.Length] := Some(Data(tail, p));
      assert win[..] == Put(old(win[..]), tail, Some(Data(tail, p)));
      tail := tail + 1;
      code := Suc;
    }

    method HandleCanSend(accept: nat, now: nat) returns (out: seq<Datagram>)
      requires win.Length > 0
      modifies this
      ensures (State(), out) == OnCanSend(old(State()), accept, now)
    {
      out := [];
      var left := accept;
      ghost var s0 := State();
      ghost var final := OnCanSend(s0, accept, now);
      while Sub(sending + 1, head) <= win.Length / 10 && sending + 1 != tail
        invariant State() == s0.(sending := sending)
        invariant final.0 == OnCanSend(State(), left, now).0
        invariant final.1 == out + OnCanSend(State(), left, now).1
        decreases left
      {
        var datagram := win[(sending + 1) % win.Length];
        assert datagram == At(s0.win, sending + 1);
        if left == 0 || datagram.None? {
          assert OnCanSend(State(), left, now) == (State(), []);
          out := out + [];
          return;
        }
        assert final.1 == out + [datagram.value] + OnCanSend(State().(sending := sending + 1), left - 1, now).1;
        left := left - 1;
        out := out + [datagram.value];
        sending := sending + 1;
      }
      assert OnCanSend(State(), left, now) == HeartbeatIfDue(State(), now);
      if lastHbTime == 0 {
        lastHbTime := now;
      }
      if Sub(now, lastHbTime) > hbInterval {
        out := out + [Heartbeat(sending, head)];
      } else {
        out := out + [];
      }
    }

    method HandleNak(begin: nat, end: nat, id: nat, accept: nat, now: nat) returns (out: seq<Datagram>)
      requires win.Length > 0
      modifies this
      ensures (State(), out) == OnNak(old(State()), begin, end, id, accept, now)
    {
      out := [];
      recvers := Touch(recvers, id, now);
      if begin < head || end >= tail {
        return;
      }
      var next, left := begin, accept;
      assert out + Resend(win[..], begin, end, accept) == Resend(win[..], begin, end, accept);
      while next <= end && left > 0
        invariant begin <= next && left >= 0
        invariant Resend(win[..], begin, end, accept) == out + Resend(win[..], next, end, left)
        decreases left
      {
        var datagram := win[next % win.Length];
        assert datagram == At(win[..], next);
        if datagram.None? {
          break;
        }
        assert out + ([datagram.value] + Resend(win[..], next + 1, end, left - 1))
            == out + [datagram.value] + Resend(win[..], next + 1, end, left - 1);
        out := out + [datagram.value];
        next, left := next + 1, left - 1;
      }
      assert Resend(win[..], next, end, left) == [] && out + [] == out;
    }

    method HandleAck(ackNo: nat, id: nat, now: nat, order: seq<nat>)
      requires Enumerates(order, recvers.Keys + {id})
      modifies this
      ensures State() == OnAck(old(State()), ackNo, id, now, order)
    {
      recvers := Touch(recvers, id, now);
      if ackNo < head {
        return;
      }
      recvers := Record(recvers, id, ackNo);
      assert id in order && forall j :: 0 <= j < |order| ==> order[j] in order;
      var mini := EvictExpired(order, recvers[order[0]].acked, now);
      if mini >= head {
        head := mini + 1;
      }
    }

    method EvictExpired(order: seq<nat>, seed: nat, now: nat) returns (mini: nat)
      requires forall id :: id in order ==> id in recvers
      requires forall i, j :: 0 <= i < j < |order| ==> order[i] != order[j]
      modifies `recvers
      ensures (recvers, mini) == Scan(old(recvers), order, seed, now, keepAlive)
    {
      mini := seed;
      var i := 0;
      assert order[0..] == order;
      while i < |order|
        invariant 0 <= i <= |order|
        invariant forall j :: i <= j < |order| ==> order[j] in recvers
        invariant Scan(old(recvers), order, seed, now, keepAlive) == Scan(recvers, order[i..], mini, now, keepAlive)
      {
        assert order[i..][0] == order[i] && order[i..][1..] == order[i + 1..];
        if Expired(recvers[order[i]], now, keepAlive) {
          recvers := recvers - {order[i]};
        } else {
          mini := if mini > recvers[order[i]].acked then recvers[order[i]].acked else mini;
        }
        i := i + 1;
      }
    }
  }
}
