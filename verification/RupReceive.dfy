/** The receiving half of a stream socket: bytes are received behind what the dispatcher
    left in the block, and dispatched. */
module RupReceive {
  import opened Bytes
  import opened MemBlock
  import opened Package
  import opened Framing
  import opened Dispatcher
  import opened Stream
  import RupSock

  /** How the socket answers `recv`: with the bytes that have arrived (none after an orderly
      shutdown), or not at all. */
  datatype RecvAnswer = Arrived(bytes: seq<byte>) | WouldBlock | Interrupted | Failed

  datatype RecvRet = Received | RecvPending | RecvErr

  class Inbox {
    var recved: Mem?

    ghost predicate Valid()
      reads this, recved
    {
      recved != null ==> recved.Valid() && recved.bytes.Length == MAX_MEM_SIZE
    }

    /** What has been received and not yet taken by the dispatcher. */
    ghost function Left(): seq<byte>
      reads this, recved, if recved != null then {recved.bytes} else {}
      requires Valid()
    {
      if recved == null then [] else recved.Contents()
    }

    constructor ()
      ensures Valid() && recved == null
    {
      recved := null;
    }

    /** The readable event: as much as fits is put behind what is left.  With a full block
        nothing fits, which looks like a shutdown. */
    method HandleCanRecv(answer: RecvAnswer) returns (ret: RecvRet, m: Mem, taken: nat)
      requires Valid()
      modifies this, recved, if recved != null then {recved.bytes} else {}
      ensures Valid() && m == recved
      ensures if old(recved) == null then fresh(m) && fresh(m.bytes) else m == old(recved)
      ensures answer.Arrived? ==>
                && var room := MAX_MEM_SIZE - |old(Left())|;
                && taken == (if room < |answer.bytes| then room else |answer.bytes|)
                && Left() == old(Left()) + answer.bytes[..taken]
                && ret == (if taken == 0 then RecvErr else Received)
      ensures !answer.Arrived? ==> Left() == old(Left()) && ret == (if answer == Failed then RecvErr else RecvPending)
    {
      taken := 0;
      if recved != null {
        m := recved;
        m.MoveDataAhead();
      } else {
        m := new Mem(MAX_MEM_SIZE, 0);
        recved := m;
      }
      ghost var before := m.Contents();
      match answer {
        case Arrived(bytes) =>
          var room := m.bytes.Length - (m.len + m.offset);
          var n := if room < |bytes| then room else |bytes|;
          taken := n;
          if n == 0 {
            assert before + bytes[..0] == before;
            return RecvErr, m, taken;
          }
          m.FillTail(bytes[..n]);
          ret := Received;
        case WouldBlock => ret := RecvPending;
        case Interrupted => ret := RecvPending;
        case Failed => ret := RecvErr;
      }
    }
  }

  /** Nothing has arrived yet. */
  lemma StartOfStream(look: seq<byte> -> Front, ver: byte, kinds: map<nat, Kind>, stream: seq<byte>)
    requires Progresses(look) && Describes(look, ver, kinds)
    ensures InStepUpTo(look, stream, 0, [], [])
  {
  }

  /** Parsing the data keeps the connection open and leaves less than a full block. */
  ghost predicate Healthy(look: seq<byte> -> Front, data: seq<byte>)
  {
    Progresses(look) && Open(Parse(look, data).status) && |Parse(look, data).rest| < MAX_MEM_SIZE
  }

  ghost predicate HealthyUpTo(look: seq<byte> -> Front, stream: seq<byte>, k: nat)
    requires k <= |stream|
  {
    Healthy(look, stream[..k])
  }

  /** So it is at every moment, when the peer sends packages that each fit into a block. */
  lemma AlwaysHealthy(ws: seq<seq<byte>>, ps: seq<Pkg>, ver: byte, kinds: map<nat, Kind>, stream: seq<byte>)
    requires AllSound(kinds) && AllReadable(ws, ps, ver, kinds) && stream <= Concat(ws)
    requires forall i :: 0 <= i < |ws| ==> |ws[i]| <= MAX_MEM_SIZE
    ensures forall k :: 0 <= k <= |stream| ==> HealthyUpTo(Rule(ver, kinds), stream, k)
  {
    forall k | 0 <= k <= |stream|
      ensures HealthyUpTo(Rule(ver, kinds), stream, k)
    {
      var _, _ := PrefixParsed(ws, ps, ver, kinds, stream[..k]);
      RoomIsLeft(ws, ps, ver, kinds, stream[..k], MAX_MEM_SIZE);
    }
  }

  ghost predicate HealthyWith(look: seq<byte> -> Front, data: seq<byte>, arrived: seq<byte>, k: nat)
    requires k <= |arrived|
  {
    Healthy(look, data + arrived[..k])
  }

  /** The calls made and the bytes left are those of parsing all the data taken so far. */
  ghost predicate InStep(look: seq<byte> -> Front, data: seq<byte>, calls: seq<Call>, left: seq<byte>)
  {
    Progresses(look) && Parsed(calls, left, Parse(look, data).status) == Parse(look, data)
  }

  /** Parsing one more piece behind what is left goes on with the whole. */
  lemma ArrivalStep(look: seq<byte> -> Front, data: seq<byte>, calls: seq<Call>, left: seq<byte>, chunk: seq<byte>)
    requires InStep(look, data, calls, left) && Prefixed(look) && Healthy(look, data) && Healthy(look, data + chunk)
    ensures var p := Parse(look, left + chunk); Open(p.status) && InStep(look, data + chunk, calls + p.calls, p.rest)
  {
    ParseResumes(look, data, chunk);
  }

  /** The readable event of a connection: it takes at least one byte of what has arrived,
      and never finds the block full. */
  method HandleInput(inbox: Inbox, arrived: seq<byte>, ver: byte, kinds: map<nat, Kind>, before: seq<Call>,
      ghost look: seq<byte> -> Front, ghost data: seq<byte>)
    returns (calls: seq<Call>, taken: nat)
    requires inbox.Valid() && InStep(look, data, before, inbox.Left())
    requires Prefixed(look) && Progresses(look) && Describes(look, ver, kinds) && arrived != [] && Healthy(look, data)
    requires forall k :: 0 <= k <= |arrived| ==> HealthyWith(look, data, arrived, k)
    modifies inbox, inbox.recved, if inbox.recved != null then {inbox.recved.bytes} else {}
    ensures inbox.Valid() && inbox.recved != null
    ensures if old(inbox.recved) == null then fresh(inbox.recved) && fresh(inbox.recved.bytes)
            else inbox.recved == old(inbox.recved)
    ensures 0 < taken <= |arrived| && InStep(look, data + arrived[..taken], calls, inbox.Left())
  {
    ghost var left := inbox.Left();
    var ret, m;
    ret, m, taken := inbox.HandleCanRecv(Arrived(arrived));
    assert HealthyWith(look, data, arrived, taken);
    ArrivalStep(look, data, before, left, arrived[..taken]);
    var more, _ := Dispatch(m, ver, kinds, look);
    calls := before + more;
  }

  lemma PieceHealthy(look: seq<byte> -> Front, stream: seq<byte>, from: nat, upTo: nat)
    requires from <= upTo <= |stream| && forall k :: 0 <= k <= |stream| ==> HealthyUpTo(look, stream, k)
    ensures Healthy(look, stream[..from])
    ensures forall k :: 0 <= k <= upTo - from ==> HealthyWith(look, stream[..from], stream[from..upTo], k)
  {
    assert HealthyUpTo(look, stream, from);
    forall k | 0 <= k <= upTo - from
      ensures HealthyWith(look, stream[..from], stream[from..upTo], k)
    {
      assert HealthyUpTo(look, stream, from + k);
      PieceJoins(stream, from, upTo, k);
    }
  }

  lemma PieceJoins(stream: seq<byte>, from: nat, upTo: nat, k: nat)
    requires from <= upTo <= |stream| && k <= upTo - from
    ensures stream[..from] + stream[from..upTo][..k] == stream[..from + k]
  {
  }

  ghost predicate InStepUpTo(look: seq<byte> -> Front, stream: seq<byte>, k: nat, calls: seq<Call>, left: seq<byte>)
  {
    k <= |stream| && InStep(look, stream[..k], calls, left)
  }

  lemma JoinedStep(look: seq<byte> -> Front, stream: seq<byte>, from: nat, upTo: nat, k: nat,
                   calls: seq<Call>, left: seq<byte>)
    requires from <= upTo <= |stream| && k <= upTo - from
    requires InStep(look, stream[..from] + stream[from..upTo][..k], calls, left)
    ensures InStepUpTo(look, stream, from + k, calls, left)
  {
    PieceJoins(stream, from, upTo, k);
  }

  /** The same when the first `from` bytes of the stream have been taken, and those up to
      `upTo` have arrived. */
  method HandleInputAt(inbox: Inbox, stream: seq<byte>, from: nat, upTo: nat, ver: byte, kinds: map<nat, Kind>,
      before: seq<Call>, ghost look: seq<byte> -> Front)
    returns (calls: seq<Call>, taken: nat)
    requires from < upTo <= |stream| && Prefixed(look) && Progresses(look) && Describes(look, ver, kinds)
    requires inbox.Valid() && InStepUpTo(look, stream, from, before, inbox.Left())
    requires forall k :: 0 <= k <= |stream| ==> HealthyUpTo(look, stream, k)
    modifies inbox, inbox.recved, if inbox.recved != null then {inbox.recved.bytes} else {}
    ensures inbox.Valid() && inbox.recved != null
    ensures if old(inbox.recved) == null then fresh(inbox.recved) && fresh(inbox.recved.bytes)
            else inbox.recved == old(inbox.recved)
    ensures from < taken <= upTo && InStepUpTo(look, stream, taken, calls, inbox.Left())
  {
    PieceHealthy(look, stream, from, upTo);
    var k;
    calls, k := HandleInput(inbox, stream[from..upTo], ver, kinds, before, look, stream[..from]);
    JoinedStep(look, stream, from, upTo, k, calls, inbox.Left());
    taken := from + k;
  }

  /** The event loop of a connection whose stream is healthy at every moment. */
  method Receive(inbox: Inbox, stream: seq<byte>, arrivals: seq<nat>, ver: byte, kinds: map<nat, Kind>,
                 ghost look: seq<byte> -> Front)
    returns (calls: seq<Call>, taken: nat)
    requires inbox.Valid() && inbox.recved == null && Prefixed(look) && Progresses(look) && Describes(look, ver, kinds)
    requires forall k :: 0 <= k <= |stream| ==> HealthyUpTo(look, stream, k)
    modifies inbox
    ensures inbox.Valid() && taken <= |stream|
    ensures taken >= if |arrivals| < |stream| then |arrivals| else |stream|
    ensures InStepUpTo(look, stream, taken, calls, inbox.Left())
  {
    calls, taken := [], 0;
    assert HealthyUpTo(look, stream, 0);
    StartOfStream(look, ver, kinds, stream);
    for i := 0 to |arrivals|
      invariant inbox.Valid() && (inbox.recved != null ==> fresh(inbox.recved) && fresh(inbox.recved.bytes))
      invariant taken <= |stream| && (taken < i ==> taken == |stream|)
      invariant InStepUpTo(look, stream, taken, calls, inbox.Left())
    {
      var upTo := if arrivals[i] + 1 < |stream| - taken then taken + arrivals[i] + 1 else |stream|;
      if taken < upTo {
        calls, taken := HandleInputAt(inbox, stream, taken, upTo, ver, kinds, calls, look);
      }
    }
  }

  /** When all bytes are there, all packages are. */
  lemma WholeStream(ws: seq<seq<byte>>, n: nat, t: seq<byte>)
    requires Split(ws, Concat(ws), n, t)
    ensures n == |ws|
  {
    if n < |ws| {
      assert ws == ws[..n] + ws[n..];
      ConcatAppend(ws[..n], ws[n..]);
      assert false;
    }
  }

  /** A connection that reads packages of this version: every readable event receives what
      has arrived and dispatches it.  The peer sends archived packages; the event loop is
      called once for every element of `arrivals`, which says how many more bytes have
      arrived by then.  No call fails for want of room, at least one byte is taken each
      time, and the handler is called for exactly the whole packages taken so far. */
  method Session(inbox: Inbox, stream: seq<byte>, arrivals: seq<nat>, ver: byte, kinds: map<nat, Kind>,
      ghost ws: seq<seq<byte>>, ghost ps: seq<Pkg>)
    returns (calls: seq<Call>, taken: nat, ghost n: nat, ghost t: seq<byte>)
    requires inbox.Valid() && inbox.recved == null
    requires AllSound(kinds) && AllReadable(ws, ps, ver, kinds) && stream <= Concat(ws)
    requires forall i :: 0 <= i < |ws| ==> |ws[i]| <= MAX_MEM_SIZE
    modifies inbox
    ensures inbox.Valid() && taken <= |stream|
    ensures taken >= if |arrivals| < |stream| then |arrivals| else |stream|
    ensures Split(ws, stream[..taken], n, t) && calls == AllCalls(ps[..n]) && inbox.Left() == t
    ensures stream == Concat(ws) && taken == |stream| ==> n == |ps|
  {
    RuleIsSound(ver, kinds);
    AlwaysHealthy(ws, ps, ver, kinds, stream);
    calls, taken := Receive(inbox, stream, arrivals, ver, kinds, Rule(ver, kinds));
    n, t := PrefixParsed(ws, ps, ver, kinds, stream[..taken]);
    if stream == Concat(ws) && taken == |stream| {
      assert stream[..taken] == Concat(ws);
      WholeStream(ws, n, t);
    }
  }

  /** What is sent in one use fits into a block. */
  lemma {:induction false} SendsFit(uses: seq<RupSock.Use>)
    requires RupSock.Legal(uses)
    ensures forall i :: 0 <= i < |RupSock.Sends(uses)| ==> |RupSock.Sends(uses)[i]| <= MAX_MEM_SIZE
    decreases |uses|
  {
    if uses == [] {
    } else {
      SendsFit(uses[1..]);
    }
  }

  /** Unicast end to end, both sockets at work.  One end uses its socket in any way in which
      every send keeps order, and each send hands over one archived package; the other end's
      event loop receives from the wire whatever has arrived each time.  The handler is
      called for exactly the first n packages, bodies and tags; and for all of them once
      nothing is queued at the sending end and everything has been taken at the other. */
  method UnicastEndToEnd(sock: RupSock.Sock, uses: seq<RupSock.Use>, inbox: Inbox, arrivals: seq<nat>,
      ver: byte, kinds: map<nat, Kind>, ghost ps: seq<Pkg>)
    returns (calls: seq<Call>, taken: nat, ghost n: nat, ghost t: seq<byte>)
    requires sock.Valid() && RupSock.Stream(sock.State()) == []
    requires RupSock.Legal(uses) && RupSock.InOrder(sock.State(), uses)
    requires inbox.Valid() && inbox.recved == null
    requires AllSound(kinds) && AllReadable(RupSock.Sends(uses), ps, ver, kinds)
    modifies sock, inbox
    ensures sock.Valid() && sock.State() == RupSock.After(old(sock.State()), uses)
    ensures inbox.Valid() && taken <= |sock.wire|
    ensures taken >= if |arrivals| < |sock.wire| then |arrivals| else |sock.wire|
    ensures Split(RupSock.Sends(uses), sock.wire[..taken], n, t)
    ensures n <= |ps| && calls == AllCalls(ps[..n]) && inbox.Left() == t
    ensures sock.sending == [] && sock.cache == [] && taken == |sock.wire| ==> n == |ps|
  {
    SendsFit(uses);
    RupSock.Run(sock, uses);
    ghost var ws := RupSock.Sends(uses);
    calls, taken, n, t := Session(inbox, sock.wire, arrivals, ver, kinds, ws, ps);
  }
}
