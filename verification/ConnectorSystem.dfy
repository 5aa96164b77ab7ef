/** Any number of connectors, the timer task and an output task, in every interleaving: what
    the state of a connector says about its registrations. */
module ConnectorSystem {
  import opened Bytes
  import opened Connector
  import opened Notifier

  datatype Which = Timer | Output

  datatype System = System(conns: map<Id, Conn>, timer: Reg, output: Reg)

  datatype Step =
    | UserOpen(id: Id)
    | UserClose(id: Id)
    | AddIdle(id: Id, endpoint: nat)
    | DelIdle(id: Id, at: nat)
    | TimerFires(id: Id)
    | SockReady(id: Id)
    | SockError(id: Id)
    | Thread(which: Which, ok: bool, willing: set<nat>)
    | Foreign(which: Which, add: bool, id: Id)

  function RegOf(s: System, w: Which): Reg
  {
    if w == Timer then s.timer else s.output
  }

  function WithReg(s: System, w: Which, r: Reg): System
  {
    if w == Timer then s.(timer := r) else s.(output := r)
  }

  function Perform(s: System, act: Act, c: Id): System
  {
    match act
    case NoAct => s
    case AddTimer => s.(timer := RequestAdd(s.timer, c))
    case DelTimer => s.(timer := RequestDel(s.timer, c))
    case AddOutput => s.(output := RequestAdd(s.output, c))
    case DelOutput => s.(output := RequestDel(s.output, c))
  }

  function PostTo(s: System, c: Id, e: Evt, willing: set<nat>): System
    requires c in s.conns
  {
    var p := Post(s.conns[c], e, willing);
    Perform(s.(conns := s.conns[c := p.conn]), p.act, c)
  }

  /** The event that a callback of a notifier posts. */
  function CallEvt(w: Which, call: Callback): Evt
  {
    match call
    case Added(_, ok) => if w == Timer then AddedIntoTT else if ok then AddedIntoOT else InternalErr
    case Deled(_) => if w == Timer then DeledFromTT else DeledFromOT
  }

  /** Events reach a connector from the user at any time, from a notifier only while it
      waits for events and the connector is a member.  Other objects use the notifiers too. */
  predicate Enabled(s: System, step: Step)
  {
    match step
    case UserOpen(c) => c in s.conns
    case UserClose(c) => c in s.conns
    case AddIdle(c, _) => c in s.conns
    case DelIdle(c, at) => c in s.conns && at < |s.conns[c].idle|
    case TimerFires(c) => c in s.conns && s.timer.phase == Waiting && c in s.timer.members && s.conns[c].idle != []
    case SockReady(c) => c in s.conns && s.output.phase == Waiting && c in s.output.members
    case SockError(c) => c in s.conns && s.output.phase == Waiting && c in s.output.members
    case Thread(w, ok, _) => w == Timer ==> ok
    case Foreign(_, _, c) => c !in s.conns
  }

  function Apply(s: System, step: Step): System
    requires Enabled(s, step)
  {
    match step
    case UserOpen(c) => PostTo(s, c, Open, {})
    case UserClose(c) => PostTo(s, c, Close, {})
    case AddIdle(c, ep) => s.(conns := s.conns[c := s.conns[c].(idle := s.conns[c].idle + [ep])])
    case DelIdle(c, at) =>
      s.(conns := s.conns[c := s.conns[c].(idle := s.conns[c].idle[..at] + s.conns[c].idle[at + 1..])])
    case TimerFires(c) => PostTo(s, c, Connect, {})
    case SockReady(c) => PostTo(s, c, Connected, {})
    case SockError(c) => PostTo(s, c, InternalErr, {})
    case Thread(w, ok, willing) =>
      var r := RegOf(s, w);
      var s' := WithReg(s, w, Advance(r, ok));
      if r.call.Some? && r.call.value.id in s.conns
      then PostTo(s', r.call.value.id, CallEvt(w, r.call.value), willing)
      else s'
    case Foreign(w, add, c) =>
      WithReg(s, w, if add then RequestAdd(RegOf(s, w), c) else RequestDel(RegOf(s, w), c))
  }

  /** The kernel refuses the socket of this connector. */
  predicate Refuses(s: System, step: Step, c: Id)
  {
    && step.Thread? && !step.ok
    && var r := RegOf(s, step.which);
    r.call == None && r.phase == Inserting && r.todo != [] && r.todo[0] == c
  }

  ghost predicate ValidRun(s: System, run: seq<Step>)
    decreases |run|
  {
    run == [] || (Enabled(s, run[0]) && ValidRun(Apply(s, run[0]), run[1..]))
  }

  function After(s: System, run: seq<Step>): System
    requires ValidRun(s, run)
    decreases |run|
  {
    if run == [] then s else After(Apply(s, run[0]), run[1..])
  }

  ghost predicate NeverRefused(s: System, run: seq<Step>, c: Id)
    requires ValidRun(s, run)
    decreases |run|
  {
    run != [] ==> !Refuses(s, run[0], c) && NeverRefused(Apply(s, run[0]), run[1..], c)
  }

  /* ----- what a state says about the registrations ----- */

  predicate Absent(p: Place)
  {
    p == Place(false, 0, false, 0, false)
  }

  predicate Present(p: Place)
  {
    p == Place(true, 0, false, 0, false)
  }

  predicate BeingAdded(p: Place)
  {
    p == Place(false, 1, false, 0, false) || p == Place(true, 0, true, 0, false)
  }

  predicate BeingDeleted(p: Place)
  {
    p == Place(true, 0, false, 1, false) || p == Place(false, 0, false, 0, true)
  }

  /** Where the connector is registered, and what its fields are, is decided by its state. */
  predicate Agrees(c: Conn, timer: Place, output: Place)
  {
    match c.state
    case Closed => Absent(timer) && Absent(output)
    case AddingIntoTT => BeingAdded(timer) && Absent(output) && c.pending != ErrEvt
    case CheckingTimer => Present(timer) && Absent(output) && c.pending == NoEvt
    case AddingIntoOT => Present(timer) && BeingAdded(output) && c.pending != ErrEvt && c.sock == OpenedSock
    case Connecting => Present(timer) && Present(output) && c.pending == NoEvt && c.sock == OpenedSock
    case DelingFromOTClose => Present(timer) && BeingDeleted(output) && c.sock == ClosedSock
    case DelingFromOTNormal => Present(timer) && BeingDeleted(output) && c.pending != ErrEvt && c.sock != NoSock
    case DelingFromTT => BeingDeleted(timer) && Absent(output)
  }

  predicate AgreesAt(s: System, c: Id)
    requires c in s.conns
  {
    Agrees(s.conns[c], View(s.timer, c), View(s.output, c))
  }

  /** No callback is due while a notifier waits, and none tells the connector of a refusal. */
  predicate Tidy(s: System, w: Which, c: Id)
  {
    var r := RegOf(s, w);
    && (r.phase == Waiting ==> r.call == None && r.todo == [])
    && r.call != Some(Added(c, false))
  }

  /** The invariant of one connector; it does not depend on any other. */
  predicate Inv(s: System, c: Id)
  {
    c in s.conns && AgreesAt(s, c) && Tidy(s, Timer, c) && Tidy(s, Output, c)
  }

  function ActTimer(act: Act, p: Place): Place
  {
    match act
    case AddTimer => p.(adding := p.adding + 1)
    case DelTimer => p.(deling := p.deling + 1)
    case _ => p
  }

  function ActOutput(act: Act, p: Place): Place
  {
    match act
    case AddOutput => p.(adding := p.adding + 1)
    case DelOutput => p.(deling := p.deling + 1)
    case _ => p
  }

  /** When an event can come: a callback has to be due, events of the socket need a member. */
  predicate Due(e: Evt, timer: Place, output: Place)
  {
    match e
    case AddedIntoTT => timer.added
    case DeledFromTT => timer.deled
    case AddedIntoOT => output.added
    case DeledFromOT => output.deled
    case Connected => output.member && !output.added
    case InternalErr => output.member && !output.added
    case _ => true
  }

  /** What is known about the connector once the callback has been taken off its notifier. */
  function Taken(e: Evt, timer: Place, output: Place): (Place, Place)
  {
    match e
    case AddedIntoTT => (timer.(added := false), output)
    case DeledFromTT => (timer.(deled := false), output)
    case AddedIntoOT => (timer, output.(added := false))
    case DeledFromOT => (timer, output.(deled := false))
    case _ => (timer, output)
  }

  /** Posting an event to one connector: the table and the overriding handlers keep state
      and registrations in agreement, and the assertions of the handlers hold. */
  lemma PostKeeps(c: Conn, e: Evt, willing: set<nat>, timer: Place, output: Place)
    requires Agrees(c, timer, output) && Due(e, timer, output)
    ensures Asserts(c, e)
    ensures var p := Post(c, e, willing);
            var (t, o) := Taken(e, timer, output);
            Agrees(p.conn, ActTimer(p.act, t), ActOutput(p.act, o))
  {
  }

  lemma PerformView(s: System, act: Act, c: Id, d: Id)
    ensures View(Perform(s, act, c).timer, d) == if d == c then ActTimer(act, View(s.timer, d)) else View(s.timer, d)
    ensures View(Perform(s, act, c).output, d)
            == if d == c then ActOutput(act, View(s.output, d)) else View(s.output, d)
  {
    RequestView(s.timer, c, d);
    RequestView(s.output, c, d);
  }

  lemma PerformTidy(s: System, act: Act, d: Id, c: Id)
    ensures Tidy(s, Timer, c) && Tidy(s, Output, c) ==>
              Tidy(Perform(s, act, d), Timer, c) && Tidy(Perform(s, act, d), Output, c)
    ensures Perform(s, act, d).conns == s.conns
  {
  }

  /** Posting to another connector changes nothing that is known about this one. */
  lemma PostOther(s: System, d: Id, e: Evt, willing: set<nat>, c: Id)
    requires d in s.conns && c in s.conns && d != c
    ensures var s' := PostTo(s, d, e, willing);
            && s'.conns.Keys == s.conns.Keys && s'.conns[c] == s.conns[c]
            && View(s'.timer, c) == View(s.timer, c) && View(s'.output, c) == View(s.output, c)
            && (Tidy(s, Timer, c) && Tidy(s, Output, c) ==> Tidy(s', Timer, c) && Tidy(s', Output, c))
  {
    var p := Post(s.conns[d], e, willing);
    var mid := s.(conns := s.conns[d := p.conn]);
    PerformView(mid, p.act, d, c);
    PerformTidy(mid, p.act, d, c);
    assert PostTo(s, d, e, willing).conns == mid.conns;
  }

  /** Posting to this one: `timer` and `output` are its views before the callback was taken. */
  lemma PostSelf(s: System, c: Id, e: Evt, willing: set<nat>, timer: Place, output: Place)
    requires c in s.conns && Tidy(s, Timer, c) && Tidy(s, Output, c)
    requires Agrees(s.conns[c], timer, output) && Due(e, timer, output)
    requires (View(s.timer, c), View(s.output, c)) == Taken(e, timer, output)
    ensures Inv(PostTo(s, c, e, willing), c) && Asserts(s.conns[c], e)
    ensures PostTo(s, c, e, willing).conns == s.conns[c := Post(s.conns[c], e, willing).conn]
  {
    PostKeeps(s.conns[c], e, willing, timer, output);
    var p := Post(s.conns[c], e, willing);
    PerformView(s.(conns := s.conns[c := p.conn]), p.act, c, c);
  }

  lemma InitialInv(s: System, c: Id)
    requires s.timer == Fresh() && s.output == Fresh() && c in s.conns && s.conns[c].state == Closed
    ensures Inv(s, c)
  {
  }

  /** The connector and the event of a step that posts one. */
  function EventOf(s: System, step: Step): Option<(Id, Evt)>
  {
    match step
    case UserOpen(c) => Some((c, Open))
    case UserClose(c) => Some((c, Close))
    case TimerFires(c) => Some((c, Connect))
    case SockReady(c) => Some((c, Connected))
    case SockError(c) => Some((c, InternalErr))
    case Thread(w, _, _) =>
      var call := RegOf(s, w).call;
      if call.Some? && call.value.id in s.conns then Some((call.value.id, CallEvt(w, call.value))) else None
    case _ => None
  }

  function WillingAt(step: Step): set<nat>
  {
    if step.Thread? then step.willing else {}
  }

  /** The system an event is posted in: a callback has been taken off its notifier. */
  function Before(s: System, step: Step): System
  {
    if step.Thread? then WithReg(s, step.which, Advance(RegOf(s, step.which), step.ok)) else s
  }

  lemma ApplyPosts(s: System, step: Step)
    requires Enabled(s, step) && EventOf(s, step).Some?
    ensures var (c, e) := EventOf(s, step).value;
            c in s.conns && Apply(s, step) == PostTo(Before(s, step), c, e, WillingAt(step))
  {
  }

  /** An event is due at its connector, and nothing but its own callback has been taken. */
  lemma EventDue(s: System, step: Step, c: Id)
    requires Inv(s, c) && Enabled(s, step) && EventOf(s, step).Some? && EventOf(s, step).value.0 == c
    ensures var e := EventOf(s, step).value.1;
            && Due(e, View(s.timer, c), View(s.output, c))
            && (View(Before(s, step).timer, c), View(Before(s, step).output, c))
               == Taken(e, View(s.timer, c), View(s.output, c))
  {
    if step.Thread? {
      AdvanceView(RegOf(s, step.which), step.ok, c);
    }
  }

  lemma BeforeTidy(s: System, step: Step, c: Id)
    requires Inv(s, c) && Enabled(s, step) && !Refuses(s, step, c)
    ensures Tidy(Before(s, step), Timer, c) && Tidy(Before(s, step), Output, c)
  {
  }

  /** An event of the connector itself: its invariant is kept, its handler's assertions hold. */
  lemma EventKeeps(s: System, step: Step, c: Id)
    requires Inv(s, c) && Enabled(s, step) && EventOf(s, step).Some? && EventOf(s, step).value.0 == c
    ensures Inv(Apply(s, step), c) && Asserts(s.conns[c], EventOf(s, step).value.1)
    ensures Apply(s, step).conns[c] == Post(s.conns[c], EventOf(s, step).value.1, WillingAt(step)).conn
  {
    EventDue(s, step, c);
    BeforeTidy(s, step, c);
    ApplyPosts(s, step);
    PostSelf(Before(s, step), c, EventOf(s, step).value.1, WillingAt(step), View(s.timer, c), View(s.output, c));
  }

  /** A request comes due: the object is erased or inserted, and its callback is to run. */
  predicate ComesDue(p: Place, p': Place)
  {
    || (p.deling > 0 && p' == p.(member := false, deling := p.deling - 1, deled := true))
    || (p.adding > 0 && p' == p.(member := true, adding := p.adding - 1, added := true))
  }

  lemma DueAgrees(c: Conn, timer: Place, output: Place, p: Place)
    requires Agrees(c, timer, output)
    ensures ComesDue(timer, p) ==> Agrees(c, p, output)
    ensures ComesDue(output, p) ==> Agrees(c, timer, p)
  {
  }

  /** A step of a notifier that runs no callback of the connector: nothing happens to it, or
      a request of it comes due. */
  lemma BeforeView(s: System, step: Step, c: Id)
    requires Inv(s, c) && Enabled(s, step) && step.Thread? && !Refuses(s, step, c)
    requires RegOf(s, step.which).call.Some? ==> RegOf(s, step.which).call.value.id != c
    ensures var v, v' := View(RegOf(s, step.which), c), View(RegOf(Before(s, step), step.which), c);
            v' == v || ComesDue(v, v')
  {
    AdvanceView(RegOf(s, step.which), step.ok, c);
  }

  lemma BeforeKeeps(s: System, step: Step, c: Id)
    requires Inv(s, c) && Enabled(s, step) && !Refuses(s, step, c)
    requires step.Thread? && RegOf(s, step.which).call.Some? ==> RegOf(s, step.which).call.value.id != c
    ensures Inv(Before(s, step), c) && Before(s, step).conns == s.conns
  {
    BeforeTidy(s, step, c);
    if step.Thread? {
      BeforeView(s, step, c);
      DueAgrees(s.conns[c], View(s.timer, c), View(s.output, c), View(RegOf(Before(s, step), step.which), c));
    }
  }

  /** An event of another connector. */
  lemma OtherEventKeeps(s: System, step: Step, c: Id)
    requires Inv(s, c) && Enabled(s, step) && !Refuses(s, step, c)
    requires EventOf(s, step).Some? && EventOf(s, step).value.0 != c
    ensures Inv(Apply(s, step), c) && Apply(s, step).conns[c] == s.conns[c]
  {
    var (d, e) := EventOf(s, step).value;
    BeforeKeeps(s, step, c);
    ApplyPosts(s, step);
    PostOther(Before(s, step), d, e, WillingAt(step), c);
  }

  /** A step of anybody else. */
  lemma OtherKeeps(s: System, step: Step, c: Id)
    requires Inv(s, c) && Enabled(s, step) && !Refuses(s, step, c)
    requires EventOf(s, step).Some? ==> EventOf(s, step).value.0 != c
    ensures Inv(Apply(s, step), c)
    ensures var (k, k') := (s.conns[c], Apply(s, step).conns[c]);
            k' == k.(idle := k'.idle) && (step.Thread? ==> k' == k)
  {
    if EventOf(s, step).Some? {
      OtherEventKeeps(s, step, c);
    } else if step.Foreign? {
      RequestView(RegOf(s, step.which), step.id, c);
    } else if step.Thread? {
      BeforeKeeps(s, step, c);
    }
  }

  /** Every step keeps state and registrations of a connector in agreement, unless it is the
      kernel's refusal of that connector. */
  lemma StepInv(s: System, step: Step, c: Id)
    requires Inv(s, c) && Enabled(s, step) && !Refuses(s, step, c)
    ensures Inv(Apply(s, step), c)
  {
    if EventOf(s, step).Some? && EventOf(s, step).value.0 == c {
      EventKeeps(s, step, c);
    } else {
      OtherKeeps(s, step, c);
    }
  }

  /** The registration invariant over every run in which the kernel does not refuse the
      connector, whatever it does with others. */
  lemma {:induction false} RunInv(s: System, run: seq<Step>, c: Id)
    requires Inv(s, c) && ValidRun(s, run) && NeverRefused(s, run, c)
    ensures Inv(After(s, run), c)
    decreases |run|
  {
    if run == [] {
    } else {
      StepInv(s, run[0], c);
      RunInv(Apply(s, run[0]), run[1..], c);
    }
  }

  /** In every reachable state a closed connector is in no set, no cache and no round of
      either notifier, and one that checks its timer is a member of the timer set alone. */
  lemma ClosedIsNowhere(s: System, run: seq<Step>, c: Id)
    requires s.timer == Fresh() && s.output == Fresh() && c in s.conns && s.conns[c].state == Closed
    requires ValidRun(s, run) && NeverRefused(s, run, c)
    ensures var e := After(s, run);
            && c in e.conns
            && (e.conns[c].state == Closed ==>
                  forall w :: var r := RegOf(e, w); c !in r.members && c !in r.adds && c !in r.dels && c !in r.todo)
            && (e.conns[c].state == CheckingTimer <==>
                  && c in e.timer.members && c !in e.output.members
                  && !View(e.timer, c).added && View(e.timer, c).deling == 0
                  && View(e.output, c) == Place(false, 0, false, 0, false))
  {
    InitialInv(s, c);
    RunInv(s, run, c);
    var e := After(s, run);
    forall w
      ensures var r := RegOf(e, w); (c in r.adds ==> View(r, c).adding > 0) && (c in r.dels ==> View(r, c).deling > 0)
      ensures var r := RegOf(e, w); c in r.todo ==> View(r, c).adding > 0 || View(r, c).deling > 0
    {
      CountIn(RegOf(e, w).todo, c);
      CountIn(RegOf(e, w).adds, c);
      CountIn(RegOf(e, w).dels, c);
    }
  }

  /** The assertions hold: those of the handlers about their connector, and those of the
      notifiers about a connector they erase or insert. */
  lemma AssertionsHold(s: System, step: Step, c: Id)
    requires Inv(s, c) && Enabled(s, step)
    ensures EventOf(s, step).Some? && EventOf(s, step).value.0 == c ==> Asserts(s.conns[c], EventOf(s, step).value.1)
    ensures step.Thread? && RegOf(s, step.which).todo != [] && RegOf(s, step.which).todo[0] == c ==>
              ThreadAsserts(RegOf(s, step.which), step.ok)
  {
    if EventOf(s, step).Some? && EventOf(s, step).value.0 == c {
      EventKeeps(s, step, c);
    }
    if step.Thread? && RegOf(s, step.which).todo != [] && RegOf(s, step.which).todo[0] == c {
      CountHead(RegOf(s, step.which).todo, c);
    }
  }
}
