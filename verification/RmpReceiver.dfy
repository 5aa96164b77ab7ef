/** The receiving half of the reliable multicast socket: in-order delivery out of
    a reorder buffer that is a vector indexed modulo its size. */
module RmpReceiver {
  import opened Ring
  import opened Bytes
  import opened RmpWire

  /** `block` is the receive block: None when it is absent or reset, Some(p) when it
      still holds the payload p of an in-order datagram behind its headers. */
  datatype Receiver = Receiver(
    id: nat,
    ackCnt: nat,
    latest: nat,
    unvalidBegin: nat,
    unvalidEnd: nat,
    validBegin: nat,
    validEnd: nat,
    slots: seq<Option<Packet>>,
    block: Option<Packet>,
    confirmed: nat,
    lastAckTime: nat,
    lastNakTime: nat)

  /** What one call for the next received data yields. */
  datatype Next = Got(data: Option<Packet>) | NoData

  const SEND_ACK_INTERVAL := 10000
  const SEND_NAK_INTERVAL := 1000

  function Fresh(id: nat, ackCnt: nat, size: nat): Receiver
  {
    Receiver(id, ackCnt, 0, 0, 0, 0, 0, seq(size, _ => None), None, 0, 0, 0)
  }

  /** The end of the run of filled slots that starts at `ve`, looking no further than `ue`. */
  function ScanValidEnd(slots: seq<Option<Packet>>, ve: nat, ue: nat): (e: nat)
    requires |slots| > 0
    ensures ve <= e && (ve <= ue ==> e <= ue)
    ensures forall i :: ve < i <= e ==> At(slots, i).Some?
    ensures e < ue ==> At(slots, e + 1).None?
    decreases ue - ve
  {
    if ve < ue && At(slots, ve + 1).Some? then ScanValidEnd(slots, ve + 1, ue) else ve
  }

  /** The first filled slot from `ub` on, or `ue`. */
  function ScanUnvalidBegin(slots: seq<Option<Packet>>, ub: nat, ue: nat): (b: nat)
    requires |slots| > 0
    ensures ub <= b && (ub <= ue ==> b <= ue)
    ensures forall i :: ub <= i < b ==> At(slots, i).None?
    ensures b < ue ==> At(slots, b).Some?
    decreases ue - ub
  {
    if ub < ue && At(slots, ub).None? then ScanUnvalidBegin(slots, ub + 1, ue) else ub
  }

  /** Moves the buffered run that now follows `latest` into the range to hand over. */
  function Activate(r: Receiver): (r': Receiver)
    requires |r.slots| > 0
  {
    if r.latest + 1 == r.unvalidBegin then
      var ve := ScanValidEnd(r.slots, r.unvalidBegin, r.unvalidEnd);
      var r1 := r.(validBegin := r.unvalidBegin, validEnd := ve, latest := ve);
      if ve < r.unvalidEnd
      then r1.(unvalidBegin := ScanUnvalidBegin(r.slots, ve + 1, r.unvalidEnd))
      else r1.(unvalidBegin := 0, unvalidEnd := 0)
    else r
  }

  /** A datagram ahead of the next number is kept unless it lies beyond the buffer;
      the bound is looked at only when it extends the far end. */
  predicate Keeps(r: Receiver, s: nat)
  {
    r.unvalidBegin == 0 || s < r.unvalidBegin || s <= r.unvalidEnd || s - r.latest <= |r.slots|
  }

  function Buffer(r: Receiver, s: nat, p: Packet): (r': Receiver)
    requires |r.slots| > 0
  {
    if !Keeps(r, s) then r.(block := None) else
    r.(unvalidBegin := if r.unvalidBegin == 0 || s < r.unvalidBegin then s else r.unvalidBegin,
       unvalidEnd := if r.unvalidBegin == 0 || (r.unvalidBegin <= s && r.unvalidEnd < s) then s else r.unvalidEnd,
       slots := Put(r.slots, s, Some(p)),
       block := None)
  }

  function OnData(r: Receiver, s: nat, p: Packet): (res: (Receiver, Code))
    requires |r.slots| > 0
  {
    if s == r.latest + 1 then (Activate(r.(latest := s, block := Some(p))), OdataReady)
    else if s <= r.latest then (r.(block := None), Suc)
    else (Buffer(r, s, p), Suc)
  }

  /** Exactly the next number in order makes data ready, and a repeated one changes nothing. */
  lemma ReadyExactly(r: Receiver, s: nat, p: Packet)
    requires |r.slots| > 0
    ensures var (r', code) := OnData(r, s, p);
            && code == (if s == r.latest + 1 then OdataReady else Suc)
            && r'.block == (if s == r.latest + 1 then Some(p) else None)
            && (s == r.latest + 1 ==> r'.slots == r.slots && r'.latest >= s)
            && (s <= r.latest ==> r' == r.(block := None))
  {
  }

  /** A number ahead of the next is discarded exactly when something is buffered, it lies
      behind all of it, and more than the buffer's size behind the last in-order number;
      else its slot holds it, no other slot changes, and the bounds take it in. */
  lemma KeptExactly(r: Receiver, s: nat, p: Packet)
    requires |r.slots| > 0 && s > r.latest + 1 && r.unvalidBegin <= r.unvalidEnd
    ensures var r' := OnData(r, s, p).0;
            if r.unvalidBegin > 0 && s > r.unvalidEnd && s > r.latest + |r.slots| then r' == r.(block := None)
            else
              && At(r'.slots, s) == Some(p) && |r'.slots| == |r.slots|
              && (forall i :: 0 <= i < |r.slots| && i != s % |r.slots| ==> r'.slots[i] == r.slots[i])
              && r' == r.(slots := r'.slots, block := None,
                          unvalidBegin := r'.unvalidBegin, unvalidEnd := r'.unvalidEnd)
              && (r.unvalidBegin == 0 ==> r'.unvalidBegin == r'.unvalidEnd == s)
              && (r.unvalidBegin > 0 ==>
                    && r'.unvalidBegin == (if s < r.unvalidBegin then s else r.unvalidBegin)
                    && r'.unvalidEnd == (if s > r.unvalidEnd then s else r.unvalidEnd))
  {
  }

  /** The acknowledgement sent after a drain, or by the timer when `force`. */
  function SetAck(r: Receiver, force: bool): (res: (Receiver, seq<Datagram>))
  {
    if 0 < r.latest && (force || Sub(r.latest, r.confirmed) >= r.ackCnt)
    then (if force then r else r.(confirmed := r.latest), [Ack(r.latest, r.id)])
    else (r, [])
  }

  function NextData(r: Receiver): (res: (Receiver, Next, seq<Datagram>))
    requires |r.slots| > 0
  {
    if r.block.Some? && r.block.value != [] then
      (r.(block := None), Got(r.block), [])
    else if 0 < r.validBegin <= r.validEnd then
      var r' := r.(slots := Put(r.slots, r.validBegin, None), validBegin := r.validBegin + 1);
      (r', Got(At(r.slots, r.validBegin)), [])
    else
      var (r1, out) := SetAck(r.(validBegin := 0, validEnd := 0), false);
      (r1, NoData, out)
  }

  function OnHeartbeat(r: Receiver, latest: nat): (out: seq<Datagram>)
  {
    if latest > r.latest then [Nak(r.latest + 1, latest, r.id)] else []
  }

  /** The negative acknowledgement of the timer: the gap in front of the buffer. */
  function GapNak(r: Receiver): (out: seq<Datagram>)
    requires r.latest < r.unvalidBegin
  {
    if r.latest + 1 <= r.unvalidBegin - 1 then [Nak(r.latest + 1, r.unvalidBegin - 1, r.id)] else []
  }

  /** The periodic work of a receiver, at clock reading `now`. */
  function OnTimer(r: Receiver, now: nat): (res: (Receiver, seq<Datagram>))
  {
    var r0 := if r.lastAckTime == 0 then r.(lastAckTime := now) else r;
    var (r1, acks) := if Sub(now, r0.lastAckTime) > SEND_ACK_INTERVAL
                      then SetAck(r0.(lastAckTime := now), true) else (r0, []);
    var r2 := if r1.lastNakTime == 0 then r1.(lastNakTime := now) else r1;
    if Sub(now, r2.lastNakTime) > SEND_NAK_INTERVAL && r2.latest < r2.unvalidBegin
    then (r2.(lastNakTime := now), acks + GapNak(r2))
    else (r2, acks)
  }

  /** A drain ends with an acknowledgement exactly when enough has come since the last. */
  lemma DrainAcksExactly(r: Receiver)
    requires |r.slots| > 0 && r.confirmed <= r.latest
    ensures var (r', next, out) := NextData(r);
            if next == NoData && r.latest > 0 && r.latest - r.confirmed >= r.ackCnt
            then out == [Ack(r.latest, r.id)] && r'.confirmed == r.latest
            else out == [] && r'.confirmed == r.confirmed
  {
  }

  /** The timer acknowledges exactly when its interval has passed since the reading it
      remembers and something has been received, and asks for the gap in front of the buffer
      exactly when that interval has passed and there is one. */
  lemma TimerExactly(r: Receiver, now: nat)
    requires r.lastAckTime <= now && r.lastNakTime <= now
    ensures var (r', out) := OnTimer(r, now);
            var ackDue := r.lastAckTime > 0 && now - r.lastAckTime > SEND_ACK_INTERVAL;
            var nakDue := r.lastNakTime > 0 && now - r.lastNakTime > SEND_NAK_INTERVAL && r.latest < r.unvalidBegin;
            && out == (if ackDue && r.latest > 0 then [Ack(r.latest, r.id)] else [])
                      + (if nakDue && r.latest + 1 < r.unvalidBegin
                         then [Nak(r.latest + 1, r.unvalidBegin - 1, r.id)] else [])
            && r' == r.(lastAckTime := if r.lastAckTime == 0 || ackDue then now else r.lastAckTime,
                        lastNakTime := if r.lastNakTime == 0 || nakDue then now else r.lastNakTime)
  {
  }

  /** The socket object: every method is proved to do what the functions above say. */
  class RecvSock {
    const id: nat
    const ackCnt: nat
    const slots: array<Option<Packet>>
    var latest: nat
    var unvalidBegin: nat
    var unvalidEnd: nat
    var validBegin: nat
    var validEnd: nat
    var block: Option<Packet>
    var confirmed: nat
    var lastAckTime: nat
    var lastNakTime: nat

    function State(): Receiver
      reads this, slots
    {
      Receiver(id, ackCnt, latest, unvalidBegin, unvalidEnd, validBegin, validEnd, slots[..], block,
               confirmed, lastAckTime, lastNakTime)
    }

    constructor (id: nat, ackCnt: nat, size: nat)
      ensures fresh(slots) && slots.Length == size
      ensures State() == Fresh(id, ackCnt, size)
      ensures latest == unvalidBegin == unvalidEnd == validBegin == validEnd == 0 && block == None
      ensures confirmed == lastAckTime == lastNakTime == 0 && forall i :: 0 <= i < size ==> slots[i] == None
    {
      this.id, this.ackCnt := id, ackCnt;
      slots := new Option<Packet>[size](_ => None);
      latest, unvalidBegin, unvalidEnd, validBegin, validEnd := 0, 0, 0, 0, 0;
      block, confirmed, lastAckTime, lastNakTime := None, 0, 0, 0;
      new;
      assert slots[..] == seq(size, _ => None);
    }

    method HandleData(s: nat, p: Packet) returns (code: Code)
      requires slots.Length > 0
      modifies this, slots
      ensures (State(), code) == OnData(old(State()), s, p)
    {
      block := Some(p);
      if s == 1 + latest {
        latest := latest + 1;
        ActivateBuffered();
        code := OdataReady;
      } else if s <= latest {
        block := None;
        code := Suc;
      } else {
        KeepAhead(s, p);
        code := Suc;
      }
    }

    method ActivateBuffered()
      requires slots.Length > 0
      modifies this
      ensures State() == Activate(old(State()))
    {
      ghost var before := State();
      if latest + 1 == unvalidBegin {
        validBegin, validEnd := unvalidBegin, unvalidBegin;
        AdvanceValidEnd();
        assert slots[..] == before.slots;
        ghost var end := ScanValidEnd(before.slots, before.unvalidBegin, before.unvalidEnd);
        assert State() == before.(validBegin := before.unvalidBegin, validEnd := end);
        if validEnd < unvalidEnd {
          unvalidBegin := validEnd + 1;
          AdvanceUnvalidBegin();
          assert slots[..] == before.slots;
        } else {
          unvalidBegin, unvalidEnd := 0, 0;
        }
        latest := validEnd;
      }
    }

    method AdvanceValidEnd()
      requires slots.Length > 0
      modifies `validEnd
      ensures validEnd == ScanValidEnd(slots[..], old(validEnd), unvalidEnd)
    {
      while validEnd < unvalidEnd
        invariant ScanValidEnd(slots[..], validEnd, unvalidEnd) == ScanValidEnd(slots[..], old(validEnd), unvalidEnd)
      {
        if slots[(validEnd + 1) % slots.Length] == None {
          assert At(slots[..], validEnd + 1).None?;
          break;
        }
        assert At(slots[..], validEnd + 1).Some?;
        validEnd := validEnd + 1;
      }
    }

    method AdvanceUnvalidBegin()
      requires slots.Length > 0
      modifies `unvalidBegin
      ensures unvalidBegin == ScanUnvalidBegin(slots[..], old(unvalidBegin), unvalidEnd)
    {
      while unvalidBegin < unvalidEnd
        invariant ScanUnvalidBegin(slots[..], unvalidBegin, unvalidEnd)
                  == ScanUnvalidBegin(slots[..], old(unvalidBegin), unvalidEnd)
      {
        if slots[unvalidBegin % slots.Length] != None {
          assert At(slots[..], unvalidBegin).Some?;
          break;
        }
        assert At(slots[..], unvalidBegin).None?;
        unvalidBegin := unvalidBegin + 1;
      }
    }

    method KeepAhead(s: nat, p: Packet)
      requires slots.Length > 0 && latest < s && block == Some(p)
      modifies this, slots
      ensures State() == Buffer(old(State()), s, p)
    {
      var keep := true;
      if unvalidBegin == 0 {
        unvalidBegin, unvalidEnd := s, s;
      } else if s < unvalidBegin {
        unvalidBegin := s;
      } else if s > unvalidEnd {
        if s - latest > slots.Length {
          keep := false;
          block := None;
        } else {
          unvalidEnd := s;
        }
      }
      if keep {
        slots[s % slots.Length] := block;
        assert slots[..] == Put(old(slots[..]), s, Some(p));
        block := None;
      }
    }

    method HandleHeartbeat(latestSent: nat) returns (out: seq<Datagram>)
      ensures out == OnHeartbeat(State(), latestSent)
    {
      out := [];
      if latestSent > latest {
        out := [Nak(latest + 1, latestSent, id)];
      }
    }

    method SendAck(force: bool) returns (out: seq<Datagram>)
      modifies this
      ensures (State(), out) == SetAck(old(State()), force)
    {
      out := [];
      if 0 < latest && (force || Sub(latest, confirmed) >= ackCnt) {
        if !force {
          confirmed := latest;
        }
        out := [Ack(latest, id)];
      }
    }

    method GetNextReceivedData() returns (next: Next, out: seq<Datagram>)
      requires slots.Length > 0
      modifies this, slots
      ensures (State(), next, out) == NextData(old(State()))
    {
      if block.Some? && block.value != [] {
        next, out := Got(block), [];
        block := None;
        return;
      }
      if 0 < validBegin && validBegin <= validEnd {
        next, out := Got(slots[validBegin % slots.Length]), [];
        slots[validBegin % slots.Length] := None;
        validBegin := validBegin + 1;
        return;
      } else {
        validBegin, validEnd := 0, 0;
      }
      next := NoData;
      out := SendAck(false);
    }

    method HandleCanSend(now: nat) returns (out: seq<Datagram>)
      modifies this
      ensures (State(), out) == OnTimer(old(State()), now)
    {
      out := [];
      if lastAckTime == 0 {
        lastAckTime := now;
      }
      if Sub(now, lastAckTime) > SEND_ACK_INTERVAL {
        lastAckTime := now;
        out := SendAck(true);
      }
      if lastNakTime == 0 {
        lastNakTime := now;
      }
      if Sub(now, lastNakTime) > SEND_NAK_INTERVAL && latest < unvalidBegin {
        lastNakTime := now;
        var begin, end := latest + 1, unvalidBegin - 1;
        if begin <= end {
          out := out + [Nak(begin, end, id)];
        } else {
          out := out + [];
        }
      }
    }
  }
}
