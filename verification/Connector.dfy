/** The outbound connector: a table of transitions whose handlers may put the machine into
    a state of their own choice. */
module Connector {
  import opened Bytes

  datatype State = Closed | AddingIntoTT | CheckingTimer | AddingIntoOT | Connecting
                 | DelingFromOTClose | DelingFromOTNormal | DelingFromTT

  datatype Evt =
    | Open | Close | AddedIntoTT | DeledFromTT | Connect | AddedIntoOT | DeledFromOT | Connected | InternalErr

  datatype Pending = NoEvt | CloseEvt | ErrEvt

  datatype Sock = NoSock | OpenedSock | ClosedSock

  /** What a handler asks of the engine; no handler asks for more than one thing. */
  datatype Act = NoAct | AddTimer | DelTimer | AddOutput | DelOutput

  /** The fields of a connector; `idle` are the endpoints that wait for a connection. */
  datatype Conn = Conn(state: State, pending: Pending, sock: Sock, idle: seq<nat>)

  /** What posting an event does: the new fields, the request, the result code, and the
      endpoint that got the socket. */
  datatype Posted = Posted(conn: Conn, act: Act, ret: int, handed: Option<nat>)

  /** The idle endpoints behind the first one that is willing to take the connection. */
  function Hand(idle: seq<nat>, willing: set<nat>): (res: (seq<nat>, Option<nat>))
  {
    if idle == [] then ([], None)
    else if idle[0] in willing then (idle[1..], Some(idle[0]))
    else Hand(idle[1..], willing)
  }

  /** The connection goes to the first willing endpoint and to nobody else; those in front
      of it are dropped, and those behind it keep waiting. */
  lemma {:induction false} HandMeaning(idle: seq<nat>, willing: set<nat>)
    ensures var (rest, got) := Hand(idle, willing);
            && |rest| <= |idle|
            && (got == None ==> rest == [] && forall i :: 0 <= i < |idle| ==> idle[i] !in willing)
            && (got.Some? ==> var n := |idle| - |rest| - 1;
                              && 0 <= n && idle[n] == got.value && got.value in willing && rest == idle[n + 1..]
                              && forall i :: 0 <= i < n ==> idle[i] !in willing)
  {
    if idle == [] || idle[0] in willing {
    } else {
      HandMeaning(idle[1..], willing);
      assert forall i :: 0 < i < |idle| ==> idle[i] == idle[1..][i - 1];
      var (rest, got) := Hand(idle[1..], willing);
      var n := |idle| - |rest| - 1;
      if got.Some? {
        assert idle[1..][n..] == idle[n + 1..];
      }
    }
  }

  /** What an event does in a state, case by case: the reference for the table. */
  function Post(c: Conn, e: Evt, willing: set<nat>): Posted
  {
    match (c.state, e)
    case (Closed, Open) => Posted(c.(state := AddingIntoTT, pending := NoEvt), AddTimer, 0, None)
    case (AddingIntoTT, Close) => Posted(c.(pending := CloseEvt), NoAct, 0, None)
    case (AddingIntoTT, AddedIntoTT) =>
      if c.pending != NoEvt then Posted(c.(state := DelingFromTT), DelTimer, -2, None)
      else Posted(c.(state := CheckingTimer), NoAct, 0, None)
    case (CheckingTimer, Close) => Posted(c.(state := DelingFromTT), DelTimer, 0, None)
    case (CheckingTimer, Connect) => Posted(c.(state := AddingIntoOT, sock := OpenedSock), AddOutput, 0, None)
    case (AddingIntoOT, Close) => Posted(c.(pending := CloseEvt), NoAct, 0, None)
    case (AddingIntoOT, InternalErr) => Posted(c.(pending := ErrEvt), NoAct, 0, None)
    case (AddingIntoOT, AddedIntoOT) =>
      if c.pending == NoEvt then Posted(c.(state := Connecting), NoAct, 0, None)
      else Posted(c.(sock := ClosedSock,
                     state := if c.pending == CloseEvt then DelingFromOTClose else DelingFromOTNormal),
                  DelOutput, -2, None)
    case (Connecting, Close) => Posted(c.(state := DelingFromOTClose, sock := ClosedSock), DelOutput, 0, None)
    case (Connecting, InternalErr) => Posted(c.(state := DelingFromOTNormal, sock := ClosedSock), DelOutput, 0, None)
    case (Connecting, Connected) => Posted(c.(state := DelingFromOTNormal), DelOutput, 0, None)
    case (DelingFromOTClose, DeledFromOT) => Posted(c.(state := DelingFromTT), DelTimer, 0, None)
    case (DelingFromOTNormal, Close) => Posted(c.(pending := CloseEvt), NoAct, 0, None)
    case (DelingFromOTNormal, InternalErr) => Posted(c.(sock := ClosedSock), NoAct, 0, None)
    case (DelingFromOTNormal, DeledFromOT) =>
      if c.pending != NoEvt then Posted(c.(state := DelingFromTT, sock := NoSock), DelTimer, -2, None)
      else if c.sock != OpenedSock then Posted(c.(state := CheckingTimer, sock := NoSock), NoAct, 0, None)
      else
        var (rest, got) := Hand(c.idle, willing);
        Posted(c.(state := CheckingTimer, sock := NoSock, idle := rest), NoAct, 0, got)
    case (DelingFromTT, DeledFromTT) => Posted(c.(state := Closed), NoAct, 0, None)
    case _ => Posted(c, NoAct, -1, None)
  }

  /** The assertions the handlers make about the connector. */
  predicate Asserts(c: Conn, e: Evt)
  {
    match (c.state, e)
    case (AddingIntoTT, AddedIntoTT) => c.pending != ErrEvt
    case (AddingIntoOT, AddedIntoOT) => c.pending != NoEvt ==> c.sock != NoSock
    case (Connecting, Close) => c.sock != NoSock
    case (Connecting, InternalErr) => c.sock != NoSock
    case (Connecting, Connected) => c.sock == OpenedSock
    case (DelingFromOTClose, DeledFromOT) => c.sock == ClosedSock
    case (DelingFromOTNormal, InternalErr) => c.sock != NoSock
    case (DelingFromOTNormal, DeledFromOT) => c.sock != NoSock && c.pending != ErrEvt
    case _ => true
  }

  /** The assertions that there is no socket while the timer is checked. */
  predicate NoSockAsserts(c: Conn, e: Evt)
  {
    c.state == CheckingTimer && e in {Close, Connect} ==> c.sock == NoSock
  }

  datatype Handler =
    | ClosedToAddingIntoTT | CloseWhilePending | AddingIntoTTToCheckingTimer | CloseWhileCheckingTimer
    | CheckingTimerToAddingIntoOT | InternalErrWhileAddingIntoOT | AddingIntoOTToConnecting | BreakWhileConnecting
    | HandlingConnected | DelingFromOTCloseToDelingFromTT | InternalErrWhileDelingFromOTNormal
    | DelingFromOTNormalToCheckingTimer | DelingFromTTToClosed

  datatype Entry = Entry(end: State, fun: Handler)

  function Order(s: State): nat
  {
    match s
    case Closed => 0
    case AddingIntoTT => 1
    case CheckingTimer => 2
    case AddingIntoOT => 3
    case Connecting => 4
    case DelingFromOTClose => 5
    case DelingFromOTNormal => 6
    case DelingFromTT => 7
  }

  /** The transitions that are registered for a state. */
  function RowsOf(s: State): map<Evt, Entry>
  {
    match s
    case Closed =>
      map[Open := Entry(AddingIntoTT, ClosedToAddingIntoTT)]
    case AddingIntoTT =>
      map[Close := Entry(AddingIntoTT, CloseWhilePending),
          AddedIntoTT := Entry(CheckingTimer, AddingIntoTTToCheckingTimer)]
    case CheckingTimer =>
      map[Close := Entry(DelingFromTT, CloseWhileCheckingTimer),
          Connect := Entry(AddingIntoOT, CheckingTimerToAddingIntoOT)]
    case AddingIntoOT =>
      map[Close := Entry(AddingIntoOT, CloseWhilePending),
          InternalErr := Entry(AddingIntoOT, InternalErrWhileAddingIntoOT),
          AddedIntoOT := Entry(Connecting, AddingIntoOTToConnecting)]
    case Connecting =>
      map[Close := Entry(DelingFromOTClose, BreakWhileConnecting),
          InternalErr := Entry(DelingFromOTNormal, BreakWhileConnecting),
          Connected := Entry(DelingFromOTNormal, HandlingConnected)]
    case DelingFromOTClose =>
      map[DeledFromOT := Entry(DelingFromTT, DelingFromOTCloseToDelingFromTT)]
    case DelingFromOTNormal =>
      map[Close := Entry(DelingFromOTNormal, CloseWhilePending),
          InternalErr := Entry(DelingFromOTNormal, InternalErrWhileDelingFromOTNormal),
          DeledFromOT := Entry(CheckingTimer, DelingFromOTNormalToCheckingTimer)]
    case DelingFromTT =>
      map[DeledFromTT := Entry(Closed, DelingFromTTToClosed)]
  }

  /** What a handler does on its own, whatever the table says about it. */
  predicate Handled(c: Conn, fun: Handler, willing: set<nat>, c': Conn, ok: bool, act: Act, handed: Option<nat>)
  {
    match fun
    case ClosedToAddingIntoTT => ok && act == AddTimer && handed == None && c' == c.(pending := NoEvt)
    case CloseWhilePending => ok && act == NoAct && handed == None && c' == c.(pending := CloseEvt)
    case AddingIntoTTToCheckingTimer =>
      && handed == None && ok == (c.pending == NoEvt)
      && (if ok then act == NoAct && c' == c else act == DelTimer && c' == c.(state := DelingFromTT))
    case CloseWhileCheckingTimer => ok && act == DelTimer && handed == None && c' == c
    case CheckingTimerToAddingIntoOT => ok && act == AddOutput && handed == None && c' == c.(sock := OpenedSock)
    case InternalErrWhileAddingIntoOT => ok && act == NoAct && handed == None && c' == c.(pending := ErrEvt)
    case AddingIntoOTToConnecting =>
      && handed == None && ok == (c.pending == NoEvt)
      && (if ok then act == NoAct && c' == c
          else act == DelOutput &&
               c' == c.(sock := ClosedSock,
                        state := if c.pending == CloseEvt then DelingFromOTClose else DelingFromOTNormal))
    case BreakWhileConnecting => ok && act == DelOutput && handed == None && c' == c.(sock := ClosedSock)
    case HandlingConnected => ok && act == DelOutput && handed == None && c' == c
    case DelingFromOTCloseToDelingFromTT => ok && act == DelTimer && handed == None && c' == c
    case InternalErrWhileDelingFromOTNormal => ok && act == NoAct && handed == None && c' == c.(sock := ClosedSock)
    case DelingFromOTNormalToCheckingTimer =>
      if c.pending != NoEvt then
        !ok && act == DelTimer && handed == None && c' == c.(state := DelingFromTT, sock := NoSock)
      else
        && ok && act == NoAct
        && (if c.sock == OpenedSock then
              c' == c.(sock := NoSock, idle := c'.idle) && (c'.idle, handed) == Hand(c.idle, willing)
            else
              handed == None && c' == c.(sock := NoSock))
    case DelingFromTTToClosed => ok && act == NoAct && handed == None && c' == c
  }

  /** Running the registered handler and then going to the registered state does what the
      reference says, and so does ignoring an event that is not registered. */
  lemma RowPosts(c: Conn, e: Evt, willing: set<nat>, c': Conn, ok: bool, act: Act, handed: Option<nat>)
    requires e in RowsOf(c.state) && Handled(c, RowsOf(c.state)[e].fun, willing, c', ok, act, handed)
    ensures Post(c, e, willing) ==
            if ok then Posted(c'.(state := RowsOf(c.state)[e].end), act, 0, handed) else Posted(c', act, -2, handed)
  {
  }

  lemma NoRow(c: Conn, e: Evt, willing: set<nat>)
    requires e !in RowsOf(c.state)
    ensures Post(c, e, willing) == Posted(c, NoAct, -1, None)
  {
  }

  /** The transitions of the first `n` states are registered, and no others. */
  ghost predicate Registered(table: map<State, map<Evt, Entry>>, n: nat)
  {
    forall s: State :: RegisteredState(table, s, n)
  }

  ghost predicate RegisteredState(table: map<State, map<Evt, Entry>>, s: State, n: nat)
  {
    (s in table <==> Order(s) < n) && (s in table ==> table[s] == RowsOf(s))
  }

  lemma RegisteredMore(table: map<State, map<Evt, Entry>>, s: State)
    requires Registered(table, Order(s))
    ensures Registered(table[s := RowsOf(s)], Order(s) + 1)
  {
    var n, more := Order(s) + 1, table[s := RowsOf(s)];
    forall t: State ensures RegisteredState(more, t, n) {
      assert RegisteredState(table, t, Order(s));
    }
  }

  /** The machine and the connector that owns it. */
  class RupConnector {
    var state: State
    var pending: Pending
    var sock: Sock
    var idle: seq<nat>
    var table: map<State, map<Evt, Entry>>

    function Fields(): Conn
      reads this
    {
      Conn(state, pending, sock, idle)
    }

    ghost predicate Valid()
      reads this
    {
      Registered(table, 8)
    }

    function Handlers(s: State): map<Evt, Entry>
      reads this
    {
      if s in table then table[s] else map[]
    }

    /** Registers a transition, once. */
    method RegEvtState(start: State, e: Evt, end: State, fun: Handler) returns (ret: int)
      modifies `table
      ensures ret == (if e in old(Handlers(start)) then -1 else 0)
      ensures table == if e in old(Handlers(start)) then old(table)
                       else old(table)[start := old(Handlers(start))[e := Entry(end, fun)]]
    {
      if e in Handlers(start) {
        return -1;
      }
      table := table[start := Handlers(start)[e := Entry(end, fun)]];
      ret := 0;
    }

    method RegState(s: State)
      requires Registered(table, Order(s))
      modifies `table
      ensures Registered(table, Order(s) + 1)
    {
      ghost var before := table;
      assert RegisteredState(before, s, Order(s));
      match s {
        case Closed =>
          var _ := RegEvtState(Closed, Open, AddingIntoTT, ClosedToAddingIntoTT);
        case AddingIntoTT =>
          var _ := RegEvtState(AddingIntoTT, Close, AddingIntoTT, CloseWhilePending);
          var _ := RegEvtState(AddingIntoTT, AddedIntoTT, CheckingTimer, AddingIntoTTToCheckingTimer);
        case CheckingTimer =>
          var _ := RegEvtState(CheckingTimer, Close, DelingFromTT, CloseWhileCheckingTimer);
          var _ := RegEvtState(CheckingTimer, Connect, AddingIntoOT, CheckingTimerToAddingIntoOT);
        case AddingIntoOT =>
          var _ := RegEvtState(AddingIntoOT, Close, AddingIntoOT, CloseWhilePending);
          var _ := RegEvtState(AddingIntoOT, InternalErr, AddingIntoOT, InternalErrWhileAddingIntoOT);
          var _ := RegEvtState(AddingIntoOT, AddedIntoOT, Connecting, AddingIntoOTToConnecting);
        case Connecting =>
          var _ := RegEvtState(Connecting, Close, DelingFromOTClose, BreakWhileConnecting);
          var _ := RegEvtState(Connecting, InternalErr, DelingFromOTNormal, BreakWhileConnecting);
          var _ := RegEvtState(Connecting, Connected, DelingFromOTNormal, HandlingConnected);
        case DelingFromOTClose =>
          var _ := RegEvtState(DelingFromOTClose, DeledFromOT, DelingFromTT, DelingFromOTCloseToDelingFromTT);
        case DelingFromOTNormal =>
          var _ := RegEvtState(DelingFromOTNormal, Close, DelingFromOTNormal, CloseWhilePending);
          var _ := RegEvtState(DelingFromOTNormal, InternalErr, DelingFromOTNormal, InternalErrWhileDelingFromOTNormal);
          var _ := RegEvtState(DelingFromOTNormal, DeledFromOT, CheckingTimer, DelingFromOTNormalToCheckingTimer);
        case DelingFromTT =>
          var _ := RegEvtState(DelingFromTT, DeledFromTT, Closed, DelingFromTTToClosed);
      }
      assert table == old(table)[s := RowsOf(s)];
      RegisteredMore(before, s);
    }

    constructor ()
      ensures Valid() && Fields() == Conn(Closed, NoEvt, NoSock, [])
    {
      state, pending, sock, idle, table := Closed, NoEvt, NoSock, [], map[];
      new;
      RegState(Closed);
      RegState(AddingIntoTT);
      RegState(CheckingTimer);
      RegState(AddingIntoOT);
      RegState(Connecting);
      RegState(DelingFromOTClose);
      RegState(DelingFromOTNormal);
      RegState(DelingFromTT);
    }

    /** Hands the connection to the idle endpoints, one after the other, until one takes it;
        it is closed when nobody does. */
    method HandOver(willing: set<nat>) returns (handed: Option<nat>)
      modifies `idle, `sock
      ensures (idle, handed) == Hand(old(idle), willing) && sock == NoSock
    {
      handed := None;
      while idle != []
        invariant Hand(idle, willing) == Hand(old(idle), willing)
        decreases |idle|
      {
        var ep := idle[0];
        idle := idle[1..];
        if ep in willing {
          handed := Some(ep);
          break;
        }
      }
      if handed == None {
        sock := ClosedSock;
      }
      sock := NoSock;
    }

    method DeledFromOTNormal(willing: set<nat>) returns (ok: bool, act: Act, handed: Option<nat>)
      modifies `state, `sock, `idle
      ensures pending != NoEvt ==> !ok && act == DelTimer && handed == None
      ensures pending != NoEvt ==> Fields() == old(Fields()).(state := DelingFromTT, sock := NoSock)
      ensures pending == NoEvt ==> ok && act == NoAct
      ensures pending == NoEvt && old(sock) != OpenedSock ==>
                handed == None && Fields() == old(Fields()).(sock := NoSock)
      ensures pending == NoEvt && old(sock) == OpenedSock ==>
                (idle, handed) == Hand(old(idle), willing) && Fields() == old(Fields()).(sock := NoSock, idle := idle)
    {
      handed := None;
      if pending != NoEvt {
        sock := NoSock;
        state := DelingFromTT;
        return false, DelTimer, handed;
      }
      if sock != OpenedSock {
        sock := NoSock;
        return true, NoAct, handed;
      }
      handed := HandOver(willing);
      ok, act := true, NoAct;
    }

    /** The handlers: each may fail, and then the machine stays in the state it has set. */
    method Handle(fun: Handler, willing: set<nat>) returns (ok: bool, act: Act, handed: Option<nat>)
      modifies `state, `pending, `sock, `idle
      ensures Handled(old(Fields()), fun, willing, Fields(), ok, act, handed)
    {
      ok, act, handed := true, NoAct, None;
      match fun {
        case ClosedToAddingIntoTT =>
          pending := NoEvt;
          act := AddTimer;
        case CloseWhilePending =>
          pending := CloseEvt;
        case AddingIntoTTToCheckingTimer =>
          if pending != NoEvt {
            state := DelingFromTT;
            ok, act := false, DelTimer;
          }
        case CloseWhileCheckingTimer =>
          act := DelTimer;
        case CheckingTimerToAddingIntoOT =>
          sock := OpenedSock;
          act := AddOutput;
        case InternalErrWhileAddingIntoOT =>
          pending := ErrEvt;
        case AddingIntoOTToConnecting =>
          if pending != NoEvt {
            sock := ClosedSock;
            state := if pending == CloseEvt then DelingFromOTClose else DelingFromOTNormal;
            ok, act := false, DelOutput;
          }
        case BreakWhileConnecting =>
          sock := ClosedSock;
          act := DelOutput;
        case HandlingConnected =>
          act := DelOutput;
        case DelingFromOTCloseToDelingFromTT =>
          act := DelTimer;
        case InternalErrWhileDelingFromOTNormal =>
          sock := ClosedSock;
        case DelingFromOTNormalToCheckingTimer =>
          ok, act, handed := DeledFromOTNormal(willing);
        case DelingFromTTToClosed =>
      }
    }

    /** Looks the event up for the current state, runs the handler, and goes to the state of
        the table unless the handler failed. */
    method PostEvt(e: Evt, willing: set<nat>) returns (ret: int, act: Act, handed: Option<nat>)
      requires Valid()
      modifies `state, `pending, `sock, `idle
      ensures Valid() && Posted(Fields(), act, ret, handed) == Post(old(Fields()), e, willing)
    {
      ghost var before := Fields();
      assert RegisteredState(table, state, 8);
      if state !in table || e !in table[state] {
        NoRow(before, e, willing);
        return -1, NoAct, None;
      }
      var entry := table[state][e];
      var ok;
      ok, act, handed := Handle(entry.fun, willing);
      RowPosts(before, e, willing, Fields(), ok, act, handed);
      if !ok {
        return -2, act, handed;
      }
      state := entry.end;
      ret := 0;
    }
  }
}
