/** What becomes of an attempt to connect, whatever events come in between: exactly when the
    connection is handed over, tried again, or given up. */
module ConnectorFate {
  import opened Bytes
  import opened Connector

  /** The events posted one after the other, none of which hands a connection over. */
  function Posts(c: Conn, es: seq<Evt>): Conn
    decreases |es|
  {
    if es == [] then c else Posts(Post(c, es[0], {}).conn, es[1..])
  }

  /** While it is being added to the timer task, only a close leaves a trace. */
  lemma {:induction false} WhileAddingTimer(c: Conn, es: seq<Evt>)
    requires c.state == AddingIntoTT && AddedIntoTT !in es
    ensures Posts(c, es) == if Close in es then c.(pending := CloseEvt) else c
    decreases |es|
  {
    if es == [] {
    } else {
      WhileAddingTimer(Post(c, es[0], {}).conn, es[1..]);
    }
  }

  /** So it goes on to check its timer exactly when nobody has closed it meanwhile, and asks
      to be deleted again when somebody has. */
  lemma TimerFate(c: Conn, es: seq<Evt>)
    requires c.state == AddingIntoTT && c.pending == NoEvt && AddedIntoTT !in es
    ensures Post(Posts(c, es), AddedIntoTT, {}) ==
            if Close in es then Posted(c.(state := DelingFromTT, pending := CloseEvt), DelTimer, -2, None)
            else Posted(c.(state := CheckingTimer), NoAct, 0, None)
  {
    WhileAddingTimer(c, es);
  }

  /** The last close or error of the events, if there is any. */
  function LastBreak(es: seq<Evt>): Option<Evt>
  {
    if es == [] then None
    else if es[|es| - 1] in {Close, InternalErr} then Some(es[|es| - 1])
    else LastBreak(es[..|es| - 1])
  }

  lemma {:induction false} PostsSnoc(c: Conn, es: seq<Evt>, e: Evt)
    ensures Posts(c, es + [e]) == Post(Posts(c, es), e, {}).conn
    decreases |es|
  {
    if es == [] {
      assert [e][1..] == [];
    } else {
      assert (es + [e])[0] == es[0] && (es + [e])[1..] == es[1..] + [e];
      PostsSnoc(Post(c, es[0], {}).conn, es[1..], e);
    }
  }

  /** While it is being added to the output task, the last close or error is remembered. */
  lemma {:induction false} WhileAddingOutput(c: Conn, es: seq<Evt>)
    requires c.state == AddingIntoOT && AddedIntoOT !in es
    ensures Posts(c, es) == match LastBreak(es)
                            case None => c
                            case Some(e) => c.(pending := if e == Close then CloseEvt else ErrEvt)
    decreases |es|
  {
    if es == [] {
    } else {
      var n := |es| - 1;
      assert es == es[..n] + [es[n]];
      WhileAddingOutput(c, es[..n]);
      PostsSnoc(c, es[..n], es[n]);
    }
  }

  /** So it goes on to wait for the connection exactly when neither has come, and else closes
      its socket and asks to be deleted, for good after a close. */
  lemma OutputFate(c: Conn, es: seq<Evt>)
    requires c.state == AddingIntoOT && c.pending == NoEvt && AddedIntoOT !in es
    ensures Post(Posts(c, es), AddedIntoOT, {}) ==
            match LastBreak(es)
            case None => Posted(c.(state := Connecting), NoAct, 0, None)
            case Some(e) =>
              Posted(if e == Close then c.(state := DelingFromOTClose, pending := CloseEvt, sock := ClosedSock)
                     else c.(state := DelingFromOTNormal, pending := ErrEvt, sock := ClosedSock),
                     DelOutput, -2, None)
  {
    WhileAddingOutput(c, es);
  }

  /** While the socket is being taken out of the output task, a close is remembered and an
      error closes the socket. */
  lemma {:induction false} WhileDeleting(c: Conn, es: seq<Evt>)
    requires c.state == DelingFromOTNormal && DeledFromOT !in es
    ensures Posts(c, es) == c.(pending := if Close in es then CloseEvt else c.pending,
                               sock := if InternalErr in es then ClosedSock else c.sock)
    decreases |es|
  {
    if es == [] {
    } else {
      WhileDeleting(Post(c, es[0], {}).conn, es[1..]);
    }
  }

  lemma {:induction false} WhileClosing(c: Conn, es: seq<Evt>)
    requires c.state == DelingFromOTClose && DeledFromOT !in es
    ensures Posts(c, es) == c
    decreases |es|
  {
    if es == [] {
    } else {
      WhileClosing(c, es[1..]);
    }
  }

  predicate Decides(e: Evt)
  {
    e in {Close, InternalErr, Connected}
  }

  lemma {:induction false} WhileConnecting(c: Conn, es: seq<Evt>, i: nat)
    requires c.state == Connecting && i <= |es| && forall j :: 0 <= j < i ==> !Decides(es[j])
    ensures Posts(c, es) == Posts(c, es[i..])
    decreases i
  {
    if i == 0 {
      assert es[0..] == es;
    } else {
      assert es[1..][i - 1..] == es[i..];
      WhileConnecting(c, es[1..], i - 1);
    }
  }

  /** Until it is decided, the connector waits; nothing takes it out of the output task. */
  lemma UndecidedFate(c: Conn, es: seq<Evt>)
    requires c.state == Connecting && forall j :: 0 <= j < |es| ==> !Decides(es[j])
    ensures Posts(c, es) == c
  {
    WhileConnecting(c, es, |es|);
  }

  /** The fate of a connection attempt.  The first close, error or success decides: after a
      success the first willing endpoint gets the connection, unless an error comes before the
      socket is out of the output task, which means another attempt, or a close, which takes
      the connector to its end; after an error nobody gets anything, and it is tried again
      unless closed; after a close it comes to its end in any case. */
  lemma ConnectingFate(c: Conn, es: seq<Evt>, i: nat, willing: set<nat>)
    requires c.state == Connecting && c.pending == NoEvt && c.sock == OpenedSock
    requires DeledFromOT !in es && i < |es| && Decides(es[i]) && forall j :: 0 <= j < i ==> !Decides(es[j])
    ensures Post(c, es[i], {}).act == DelOutput
    ensures var p := Post(Posts(c, es), DeledFromOT, willing);
            var (rest, got) := Hand(c.idle, willing);
            if es[i] == Close then
              p == Posted(c.(state := DelingFromTT, sock := ClosedSock), DelTimer, 0, None)
            else if Close in es[i + 1..] then
              p == Posted(c.(state := DelingFromTT, pending := CloseEvt, sock := NoSock), DelTimer, -2, None)
            else if es[i] == InternalErr || InternalErr in es[i + 1..] then
              p == Posted(c.(state := CheckingTimer, sock := NoSock), NoAct, 0, None)
            else
              p == Posted(c.(state := CheckingTimer, sock := NoSock, idle := rest), NoAct, 0, got)
  {
    WhileConnecting(c, es, i);
    var next := Post(c, es[i], {}).conn;
    assert es[i..][0] == es[i] && es[i..][1..] == es[i + 1..];
    assert Posts(c, es) == Posts(next, es[i + 1..]);
    if es[i] == Close {
      WhileClosing(next, es[i + 1..]);
    } else {
      WhileDeleting(next, es[i + 1..]);
    }
  }

  /** Endpoints leave the idle list only when a connection is handed over. */
  lemma IdleExactly(c: Conn, e: Evt, willing: set<nat>)
    ensures var p := Post(c, e, willing);
            if c.state == DelingFromOTNormal && e == DeledFromOT && c.pending == NoEvt && c.sock == OpenedSock
            then (p.conn.idle, p.handed) == Hand(c.idle, willing)
            else p.conn.idle == c.idle && p.handed == None
  {
  }
}
