/** Closing a connector: at most three callbacks complete it, and they come exactly when the
    kernel does not refuse the socket. */
module ConnectorClose {
  import opened Bytes
  import opened Connector
  import opened Notifier
  import opened ConnectorSystem

  /** A close has been accepted and is on its way. */
  predicate Closing(c: Conn)
  {
    match c.state
    case DelingFromTT => true
    case DelingFromOTClose => true
    case AddingIntoTT => c.pending == CloseEvt
    case AddingIntoOT => c.pending == CloseEvt
    case DelingFromOTNormal => c.pending == CloseEvt
    case _ => false
  }

  /** The number of callbacks that are still to come. */
  function Rank(c: Conn): nat
  {
    match c.state
    case DelingFromTT => 1
    case DelingFromOTClose => 2
    case DelingFromOTNormal => 2
    case AddingIntoTT => 2
    case AddingIntoOT => 3
    case _ => 0
  }

  predicate Completion(e: Evt)
  {
    e in {AddedIntoTT, DeledFromTT, AddedIntoOT, DeledFromOT}
  }

  /** A close is either accepted, and then on its way, or there is nothing left to close. */
  lemma CloseTakes(c: Conn, timer: Place, output: Place)
    requires Agrees(c, timer, output)
    ensures var p := Post(c, Close, {});
            && (p.conn.state == Closed <==> c.state == Closed)
            && (p.conn.state != Closed ==> Closing(p.conn) && Rank(p.conn) <= 3)
            && (p.ret != 0 ==> p.conn == c && (c.state == Closed || Closing(c)))
  {
  }

  lemma PostRank(c: Conn, e: Evt, willing: set<nat>, timer: Place, output: Place)
    requires Agrees(c, timer, output) && Due(e, timer, output) && Closing(c)
    ensures var p := Post(c, e, willing);
            if Completion(e) then Rank(p.conn) == Rank(c) - 1 && (p.conn.state == Closed || Closing(p.conn))
            else p.conn.state == c.state && Closing(p.conn)
  {
  }

  predicate Completes(s: System, step: Step, c: Id)
  {
    EventOf(s, step).Some? && EventOf(s, step).value.0 == c && Completion(EventOf(s, step).value.1)
  }

  /** Every completion of the connector lowers the rank by one, and no other step of
      anybody changes it. */
  lemma StepRank(s: System, step: Step, c: Id)
    requires Inv(s, c) && Enabled(s, step) && !Refuses(s, step, c) && Closing(s.conns[c])
    ensures var (k, s') := (s.conns[c], Apply(s, step));
            && Inv(s', c)
            && var k' := s'.conns[c];
               if Completes(s, step, c) then Rank(k') == Rank(k) - 1 && (k'.state == Closed || Closing(k'))
               else k'.state == k.state && Closing(k')
  {
    if EventOf(s, step).Some? && EventOf(s, step).value.0 == c {
      EventDue(s, step, c);
      EventKeeps(s, step, c);
      PostRank(s.conns[c], EventOf(s, step).value.1, WillingAt(step), View(s.timer, c), View(s.output, c));
    } else {
      OtherKeeps(s, step, c);
    }
  }

  /** How many callbacks of the connector a run brings. */
  ghost function Completions(s: System, run: seq<Step>, c: Id): nat
    requires ValidRun(s, run)
    decreases |run|
  {
    if run == [] then 0 else
    (if Completes(s, run[0], c) then 1 else 0) + Completions(Apply(s, run[0]), run[1..], c)
  }

  ghost predicate ClosedDuring(s: System, run: seq<Step>, c: Id)
    requires ValidRun(s, run)
    decreases |run|
  {
    || (c in s.conns && s.conns[c].state == Closed)
    || (run != [] && ClosedDuring(Apply(s, run[0]), run[1..], c))
  }

  /** Whatever else happens in a run: once as many callbacks have come as the rank says, and
      that is three at most, the connector has been closed; before that it is closing. */
  lemma {:induction false} ClosedAfterThree(s: System, run: seq<Step>, c: Id)
    requires Inv(s, c) && ValidRun(s, run) && NeverRefused(s, run, c) && Closing(s.conns[c])
    ensures Rank(s.conns[c]) <= 3
    ensures Completions(s, run, c) >= Rank(s.conns[c]) <==> ClosedDuring(s, run, c)
    ensures !ClosedDuring(s, run, c) ==>
              c in After(s, run).conns && Closing(After(s, run).conns[c]) &&
              Rank(After(s, run).conns[c]) == Rank(s.conns[c]) - Completions(s, run, c)
    decreases |run|
  {
    if run == [] {
    } else {
      StepRank(s, run[0], c);
      var s' := Apply(s, run[0]);
      if s'.conns[c].state != Closed {
        ClosedAfterThree(s', run[1..], c);
      }
    }
  }

  /* ----- the callbacks do come ----- */

  /** The connector waits for a callback. */
  predicate Transitional(c: Conn)
  {
    c.state !in {Closed, CheckingTimer, Connecting}
  }

  function WaitsFor(c: Conn): Which
  {
    if c.state in {AddingIntoTT, DelingFromTT} then Timer else Output
  }

  function Target(c: Conn): Phase
  {
    if c.state in {AddingIntoTT, AddingIntoOT} then Inserting else Erasing
  }

  /** Phases of the thread until the object is taken out of the cache. */
  function Stage(r: Reg, c: Id, target: Phase): nat
  {
    if (r.call.Some? && r.call.value.id == c) || (r.phase == target && c in r.todo) then 0
    else match (r.phase, target)
      case (Waiting, Erasing) => 1
      case (Inserting, Erasing) => 2
      case (Erasing, Inserting) => 1
      case (Waiting, Inserting) => 2
      case _ => 3
  }

  /** Steps of the thread until the phase ends. */
  function Left(r: Reg): nat
  {
    2 * |r.todo| + if r.call.Some? then 1 else 0
  }

  predicate InFlight(p: Place, target: Phase)
  {
    if target == Inserting then BeingAdded(p) else target == Erasing && BeingDeleted(p)
  }

  /** Every step of the thread brings the callback of the object closer. */
  lemma AdvanceCloser(r: Reg, ok: bool, c: Id, target: Phase)
    requires InFlight(View(r, c), target) && (r.phase == Waiting ==> r.todo == [] && r.call == None)
    requires r.call.Some? ==> r.call.value.id != c
    ensures var r' := Advance(r, ok);
            || Stage(r', c, target) < Stage(r, c, target)
            || (Stage(r', c, target) == Stage(r, c, target) && Left(r') < Left(r))
  {
  }

  function StageOf(s: System, c: Id): nat
    requires c in s.conns
  {
    Stage(RegOf(s, WaitsFor(s.conns[c])), c, Target(s.conns[c]))
  }

  function LeftOf(s: System, c: Id): nat
    requires c in s.conns
  {
    Left(RegOf(s, WaitsFor(s.conns[c])))
  }

  lemma PerformSame(s: System, act: Act, d: Id, w: Which, c: Id, target: Phase)
    ensures var r, r' := RegOf(s, w), RegOf(Perform(s, act, d), w);
            Stage(r', c, target) == Stage(r, c, target) && Left(r') == Left(r)
  {
  }

  /** Requests of others stand behind; only the thread itself moves on. */
  lemma StepMeasure(s: System, step: Step, w: Which, c: Id, target: Phase)
    requires Enabled(s, step)
    ensures var r := if step.Thread? && step.which == w then Advance(RegOf(s, w), step.ok) else RegOf(s, w);
            var r' := RegOf(Apply(s, step), w);
            Stage(r', c, target) == Stage(r, c, target) && Left(r') == Left(r)
  {
    if EventOf(s, step).Some? {
      ApplyPosts(s, step);
      var (d, e) := EventOf(s, step).value;
      var p := Post(Before(s, step).conns[d], e, WillingAt(step));
      PerformSame(Before(s, step).(conns := Before(s, step).conns[d := p.conn]), p.act, d, w, c, target);
    }
  }

  /** A waiting connector stays in its state until its callback comes. */
  lemma Stays(s: System, step: Step, c: Id)
    requires Inv(s, c) && Enabled(s, step) && !Refuses(s, step, c) && Transitional(s.conns[c]) && !Completes(s, step, c)
    ensures Inv(Apply(s, step), c) && Apply(s, step).conns[c].state == s.conns[c].state
  {
    if EventOf(s, step).Some? && EventOf(s, step).value.0 == c {
      EventDue(s, step, c);
      EventKeeps(s, step, c);
    } else {
      OtherKeeps(s, step, c);
    }
  }

  /** A step that completes nothing brings the completion closer if it is one of the thread
      the connector waits for, and otherwise leaves it where it is. */
  lemma StepCloser(s: System, step: Step, c: Id)
    requires Inv(s, c) && Enabled(s, step) && !Refuses(s, step, c) && Transitional(s.conns[c]) && !Completes(s, step, c)
    ensures var s' := Apply(s, step);
            && Inv(s', c) && s'.conns[c].state == s.conns[c].state
            && if ThreadOf(step, WaitsFor(s.conns[c]))
               then StageOf(s', c) < StageOf(s, c) || (StageOf(s', c) == StageOf(s, c) && LeftOf(s', c) < LeftOf(s, c))
               else StageOf(s', c) == StageOf(s, c) && LeftOf(s', c) == LeftOf(s, c)
  {
    var w, target := WaitsFor(s.conns[c]), Target(s.conns[c]);
    Stays(s, step, c);
    StepMeasure(s, step, w, c, target);
    if ThreadOf(step, w) {
      AdvanceCloser(RegOf(s, w), step.ok, c, target);
    }
  }

  predicate ThreadOf(step: Step, w: Which)
  {
    step.Thread? && step.which == w
  }

  lemma RunsPrepend(s: System, step: Step, run: seq<Step>, c: Id)
    requires Enabled(s, step) && !Refuses(s, step, c)
    requires ValidRun(Apply(s, step), run) && NeverRefused(Apply(s, step), run, c)
    ensures ValidRun(s, [step] + run) && After(s, [step] + run) == After(Apply(s, step), run)
    ensures NeverRefused(s, [step] + run, c)
  {
    assert ([step] + run)[1..] == run;
  }

  lemma {:induction false} RunsCompose(s: System, a: seq<Step>, b: seq<Step>, c: Id)
    requires ValidRun(s, a) && NeverRefused(s, a, c) && ValidRun(After(s, a), b) && NeverRefused(After(s, a), b, c)
    ensures ValidRun(s, a + b) && After(s, a + b) == After(After(s, a), b) && NeverRefused(s, a + b, c)
    decreases |a|
  {
    if a == [] {
      assert a + b == b;
    } else {
      RunsCompose(Apply(s, a[0]), a[1..], b, c);
      RunsPrepend(s, a[0], a[1..] + b, c);
      assert a + b == [a[0]] + (a[1..] + b);
    }
  }

  /** The callback a waiting connector waits for. */
  function Awaited(c: Conn): Evt
  {
    match c.state
    case AddingIntoTT => AddedIntoTT
    case AddingIntoOT => AddedIntoOT
    case DelingFromTT => DeledFromTT
    case _ => DeledFromOT
  }

  /** The next step of the thread brings it, or brings it closer. */
  lemma AwaitStep(s: System, c: Id)
    requires Inv(s, c) && Transitional(s.conns[c])
    ensures var step := Thread(WaitsFor(s.conns[c]), true, {});
            var s' := Apply(s, step);
            && Inv(s', c)
            && if Completes(s, step, c) then s'.conns[c] == Post(s.conns[c], Awaited(s.conns[c]), {}).conn
               else && s'.conns[c] == s.conns[c]
                    && (|| StageOf(s', c) < StageOf(s, c)
                        || (StageOf(s', c) == StageOf(s, c) && LeftOf(s', c) < LeftOf(s, c)))
  {
    var step := Thread(WaitsFor(s.conns[c]), true, {});
    if Completes(s, step, c) {
      CompletesAwaited(s, step, c);
    } else {
      StepCloser(s, step, c);
      ThreadElsewhere(s, step, c);
    }
  }

  lemma CompletesAwaited(s: System, step: Step, c: Id)
    requires Inv(s, c) && Enabled(s, step) && Transitional(s.conns[c]) && Completes(s, step, c)
    ensures Inv(Apply(s, step), c)
    ensures Apply(s, step).conns[c] == Post(s.conns[c], Awaited(s.conns[c]), WillingAt(step)).conn
  {
    EventDue(s, step, c);
    EventKeeps(s, step, c);
  }

  lemma ThreadElsewhere(s: System, step: Step, c: Id)
    requires Inv(s, c) && Enabled(s, step) && !Refuses(s, step, c) && step.Thread? && !Completes(s, step, c)
    ensures Apply(s, step).conns[c] == s.conns[c]
  {
    OtherKeeps(s, step, c);
  }

  /** The steps of one thread alone can bring it. */
  lemma {:induction false} Await(s: System, c: Id) returns (run: seq<Step>)
    requires Inv(s, c) && Transitional(s.conns[c])
    ensures ValidRun(s, run) && NeverRefused(s, run, c) && Inv(After(s, run), c)
    ensures After(s, run).conns[c] == Post(s.conns[c], Awaited(s.conns[c]), {}).conn
    decreases StageOf(s, c), LeftOf(s, c)
  {
    var step := Thread(WaitsFor(s.conns[c]), true, {});
    AwaitStep(s, c);
    run := [];
    if !Completes(s, step, c) {
      run := Await(Apply(s, step), c);
    }
    RunsPrepend(s, step, run, c);
    run := [step] + run;
  }

  /* ----- infinite executions ----- */

  ghost predicate StepAt(sys: nat -> System, steps: nat -> Step, i: nat)
  {
    Enabled(sys(i), steps(i)) && sys(i + 1) == Apply(sys(i), steps(i))
  }

  ghost predicate Execution(sys: nat -> System, steps: nat -> Step)
  {
    forall i: nat :: StepAt(sys, steps, i)
  }

  ghost predicate RunsAgain(steps: nat -> Step, w: Which, n: nat)
  {
    exists m: nat :: m >= n && ThreadOf(steps(m), w)
  }

  /** Both notifier threads keep running. */
  ghost predicate Fair(steps: nat -> Step)
  {
    forall w, n: nat :: RunsAgain(steps, w, n)
  }

  predicate ClosedAt(sys: nat -> System, c: Id, m: nat)
  {
    c in sys(m).conns && sys(m).conns[c].state == Closed
  }

  predicate RefusedAt(sys: nat -> System, steps: nat -> Step, c: Id, m: nat)
  {
    Refuses(sys(m), steps(m), c)
  }

  /** From moment `n` on, the kernel refuses the connector before it has been closed. */
  ghost predicate RefusedOpen(sys: nat -> System, steps: nat -> Step, c: Id, n: nat)
  {
    exists m: nat :: m >= n && RefusedAt(sys, steps, c, m) && forall j: nat :: n <= j <= m ==> !ClosedAt(sys, c, j)
  }

  lemma RefusedEarlier(sys: nat -> System, steps: nat -> Step, c: Id, n: nat)
    requires !ClosedAt(sys, c, n) && (RefusedAt(sys, steps, c, n) || RefusedOpen(sys, steps, c, n + 1))
    ensures RefusedOpen(sys, steps, c, n)
  {
    if RefusedAt(sys, steps, c, n) {
    } else {
      var m: nat :| m >= n + 1 && RefusedAt(sys, steps, c, m)
                    && forall j: nat :: n + 1 <= j <= m ==> !ClosedAt(sys, c, j);
      forall j: nat | n <= j <= m ensures !ClosedAt(sys, c, j) {
        assert j == n || n + 1 <= j;
      }
    }
  }

  lemma RefusedLater(sys: nat -> System, steps: nat -> Step, c: Id, n: nat)
    requires !RefusedOpen(sys, steps, c, n) && !ClosedAt(sys, c, n)
    ensures !RefusedAt(sys, steps, c, n) && !RefusedOpen(sys, steps, c, n + 1)
  {
    if RefusedAt(sys, steps, c, n) || RefusedOpen(sys, steps, c, n + 1) {
      RefusedEarlier(sys, steps, c, n);
    }
  }

  /** A step closes the connector, or brings that closer, or leaves it where it is. */
  lemma ClosingStep(s: System, step: Step, c: Id)
    requires Inv(s, c) && Enabled(s, step) && !Refuses(s, step, c) && Closing(s.conns[c])
    ensures var s' := Apply(s, step);
            && Inv(s', c)
            && (s'.conns[c].state == Closed || (
                 && Closing(s'.conns[c])
                 && var (r, r') := (Rank(s.conns[c]), Rank(s'.conns[c]));
                    || r' < r
                    || (r' == r && StageOf(s', c) < StageOf(s, c))
                    || (r' == r && StageOf(s', c) == StageOf(s, c) && LeftOf(s', c) < LeftOf(s, c))
                    || (r' == r && StageOf(s', c) == StageOf(s, c) && LeftOf(s', c) == LeftOf(s, c)
                        && s'.conns[c].state == s.conns[c].state && !ThreadOf(step, WaitsFor(s.conns[c])))))
  {
    StepRank(s, step, c);
    if !Completes(s, step, c) {
      StepCloser(s, step, c);
    }
  }

  ghost predicate ClosingAt(sys: nat -> System, c: Id, n: nat)
  {
    Inv(sys(n), c) && Closing(sys(n).conns[c])
  }

  lemma NextMoment(sys: nat -> System, steps: nat -> Step, c: Id, n: nat)
    requires Execution(sys, steps) && ClosingAt(sys, c, n) && !RefusedOpen(sys, steps, c, n)
    ensures !RefusedOpen(sys, steps, c, n + 1)
    ensures ClosedAt(sys, c, n + 1) || (
              && ClosingAt(sys, c, n + 1)
              && var (r, r') := (Rank(sys(n).conns[c]), Rank(sys(n + 1).conns[c]));
                 var (s, s') := (StageOf(sys(n), c), StageOf(sys(n + 1), c));
                 var (l, l') := (LeftOf(sys(n), c), LeftOf(sys(n + 1), c));
                 var (w, w') := (WaitsFor(sys(n).conns[c]), WaitsFor(sys(n + 1).conns[c]));
                 || r' < r || (r' == r && s' < s) || (r' == r && s' == s && l' < l)
                 || (r' == r && s' == s && l' == l && w' == w && !ThreadOf(steps(n), w)))
  {
    assert StepAt(sys, steps, n);
    RefusedLater(sys, steps, c, n);
    ClosingStep(sys(n), steps(n), c);
  }

  lemma {:induction false} ClosesBy(sys: nat -> System, steps: nat -> Step, c: Id, n: nat, m: nat) returns (k: nat)
    requires Execution(sys, steps) && Fair(steps) && ClosingAt(sys, c, n) && !RefusedOpen(sys, steps, c, n)
    requires m >= n && ThreadOf(steps(m), WaitsFor(sys(n).conns[c]))
    ensures k > n && ClosedAt(sys, c, k)
    decreases Rank(sys(n).conns[c]), StageOf(sys(n), c), LeftOf(sys(n), c), m - n
  {
    NextMoment(sys, steps, c, n);
    if ClosedAt(sys, c, n + 1) {
      return n + 1;
    }
    var w, m' := WaitsFor(sys(n + 1).conns[c]), m;
    if n == m || w != WaitsFor(sys(n).conns[c]) {
      assert RunsAgain(steps, w, n + 1);
      m' :| m' >= n + 1 && ThreadOf(steps(m'), w);
    }
    k := ClosesBy(sys, steps, c, n + 1, m');
  }

  /* ----- when the kernel refuses ----- */

  /** The connector waits for a callback that nobody owes it, or is about to be told. */
  predicate Stuck(s: System, c: Id)
  {
    && c in s.conns && s.conns[c].state == AddingIntoOT
    && var p := View(s.output, c);
    Absent(p) || (p == Place(false, 0, true, 0, false) && s.output.call == Some(Added(c, false)))
  }

  /** A refusal leaves the connector waiting. */
  lemma RefusedIsStuck(s: System, step: Step, c: Id)
    requires Inv(s, c) && Enabled(s, step) && Refuses(s, step, c)
    ensures s.conns[c].state == AddingIntoOT && Stuck(Apply(s, step), c)
  {
    AdvanceView(s.output, false, c);
  }

  lemma StuckBefore(s: System, step: Step, c: Id)
    requires Stuck(s, c) && Enabled(s, step) && (s.output.phase == Waiting ==> s.output.todo == [])
    ensures var b := Before(s, step); Stuck(b, c) && (b.output.phase == Waiting ==> b.output.todo == [])
    ensures EventOf(s, step) != Some((c, AddedIntoOT))
  {
    AdvanceView(s.output, true, c);
    AdvanceView(s.output, false, c);
  }

  lemma StuckPost(s: System, d: Id, e: Evt, willing: set<nat>, c: Id)
    requires Stuck(s, c) && d in s.conns && (d == c ==> e != AddedIntoOT)
    ensures var s' := PostTo(s, d, e, willing);
            Stuck(s', c) && s'.output.phase == s.output.phase && s'.output.todo == s.output.todo
  {
    if d == c {
      assert Post(s.conns[c], e, willing).act == NoAct;
    } else {
      PostOther(s, d, e, willing, c);
    }
  }

  lemma StuckStep(s: System, step: Step, c: Id)
    requires Stuck(s, c) && Enabled(s, step) && (s.output.phase == Waiting ==> s.output.todo == [])
    ensures Stuck(Apply(s, step), c)
    ensures Apply(s, step).output.phase == Waiting ==> Apply(s, step).output.todo == []
  {
    StuckBefore(s, step, c);
    if EventOf(s, step).Some? {
      var (d, e) := EventOf(s, step).value;
      ApplyPosts(s, step);
      StuckPost(Before(s, step), d, e, WillingAt(step), c);
    } else if step.Foreign? {
      RequestView(RegOf(s, step.which), step.id, c);
    }
  }

  /** When it is told, the error is recorded, and nothing is owed to it any more. */
  lemma RefusalTold(s: System, step: Step, c: Id)
    requires c in s.conns && s.conns[c].state == AddingIntoOT && View(s.output, c) == Place(false, 0, true, 0, false)
    requires s.output.call == Some(Added(c, false)) && ThreadOf(step, Output)
    ensures Apply(s, step).conns[c] == s.conns[c].(pending := ErrEvt) && Absent(View(Apply(s, step).output, c))
  {
    AdvanceView(s.output, step.ok, c);
  }

  /** No run whatever gets a stuck connector out of its state; a close is lost. */
  lemma {:induction false} StuckForEver(s: System, run: seq<Step>, c: Id)
    requires Stuck(s, c) && ValidRun(s, run) && (s.output.phase == Waiting ==> s.output.todo == [])
    ensures Stuck(After(s, run), c)
    decreases |run|
  {
    if run == [] {
    } else {
      StuckStep(s, run[0], c);
      StuckForEver(Apply(s, run[0]), run[1..], c);
    }
  }

  lemma {:induction false} StuckFrom(sys: nat -> System, steps: nat -> Step, c: Id, n: nat, m: nat)
    requires Execution(sys, steps) && n <= m
    requires Stuck(sys(n), c) && (sys(n).output.phase == Waiting ==> sys(n).output.todo == [])
    ensures Stuck(sys(m), c)
    decreases m - n
  {
    if n == m {
    } else {
      assert StepAt(sys, steps, n);
      StuckStep(sys(n), steps(n), c);
      StuckFrom(sys, steps, c, n + 1, m);
    }
  }

  /** Up to the first refusal the invariant holds, and from then on the connector is stuck. */
  lemma {:induction false} StuckAfter(sys: nat -> System, steps: nat -> Step, c: Id, n: nat, m: nat, k: nat)
    requires Execution(sys, steps) && Inv(sys(n), c) && n <= m < k && RefusedAt(sys, steps, c, m)
    ensures Stuck(sys(k), c)
    decreases m - n
  {
    assert StepAt(sys, steps, n);
    if RefusedAt(sys, steps, c, n) {
      RefusedIsStuck(sys(n), steps(n), c);
      StuckFrom(sys, steps, c, n + 1, k);
    } else {
      StepInv(sys(n), steps(n), c);
      StuckAfter(sys, steps, c, n + 1, m, k);
    }
  }

  /** Close completes, exactly: in every execution in which both notifier threads keep
      running, whatever happens to others, a closing connector becomes closed if and only if
      the kernel does not refuse its own socket first. */
  lemma CloseCompletesExactly(sys: nat -> System, steps: nat -> Step, c: Id, n: nat)
    requires Execution(sys, steps) && Fair(steps) && Inv(sys(n), c) && Closing(sys(n).conns[c])
    ensures (exists k: nat :: k > n && ClosedAt(sys, c, k)) <==> !RefusedOpen(sys, steps, c, n)
  {
    if RefusedOpen(sys, steps, c, n) {
      var m: nat :| m >= n && RefusedAt(sys, steps, c, m) && forall j: nat :: n <= j <= m ==> !ClosedAt(sys, c, j);
      forall k: nat | k > n
        ensures !ClosedAt(sys, c, k)
      {
        if k > m {
          StuckAfter(sys, steps, c, n, m, k);
        }
      }
    } else {
      assert RunsAgain(steps, WaitsFor(sys(n).conns[c]), n);
      var m: nat :| m >= n && ThreadOf(steps(m), WaitsFor(sys(n).conns[c]));
      var k := ClosesBy(sys, steps, c, n, m);
    }
  }

  /** A refusal can happen: from notifiers that are empty, a closed connector can be opened
      and brought to where the output task is about to insert its socket. */
  lemma RefusalReachable(s: System, c: Id) returns (run: seq<Step>)
    requires s.timer == Fresh() && s.output == Fresh() && c in s.conns && s.conns[c].state == Closed
    ensures ValidRun(s, run) && NeverRefused(s, run, c) && Inv(After(s, run), c)
    ensures After(s, run).conns[c].state == AddingIntoOT && Refuses(After(s, run), Thread(Output, false, {}), c)
  {
    var idle, open := AddIdle(c, 0), UserOpen(c);
    var s1 := Apply(s, idle);
    var s2 := Apply(s1, open);
    assert [] + [c] == [c];
    assert s2.timer == Fresh().(adds := [c]) && s2.output == Fresh();
    InitialInv(s, c);
    var up, s3 := TimerRound(s2, c);
    var down, s4 := OutputRound(s3, c);
    RunsCompose(s2, up, down, c);
    RunsPrepend(s1, open, up + down, c);
    RunsPrepend(s, idle, [open] + (up + down), c);
    run := [idle] + ([open] + (up + down));
    RunInv(s, run, c);
  }

  /** The timer task takes the only new timer. */
  lemma TimerRound(s: System, c: Id) returns (run: seq<Step>, s': System)
    requires c in s.conns && s.timer == Fresh().(adds := [c])
    requires s.conns[c].state == AddingIntoTT && s.conns[c].pending == NoEvt
    ensures ValidRun(s, run) && NeverRefused(s, run, c) && s' == After(s, run)
    ensures s' == s.(timer := Reg(Waiting, {c}, [], [], [], None),
                     conns := s.conns[c := s.conns[c].(state := CheckingTimer)])
  {
    var step := Thread(Timer, true, {});
    var s1 := Apply(s, step);
    var s2 := Apply(s1, step);
    var s3 := Apply(s2, step);
    var s4 := Apply(s3, step);
    s' := Apply(s4, step);
    assert {} + {c} == {c};
    run := [];
    RunsPrepend(s4, step, run, c);
    run := [step] + run;
    RunsPrepend(s3, step, run, c);
    run := [step] + run;
    RunsPrepend(s2, step, run, c);
    run := [step] + run;
    RunsPrepend(s1, step, run, c);
    run := [step] + run;
    RunsPrepend(s, step, run, c);
    run := [step] + run;
  }

  /** The timer fires, and the output task takes the only new socket out of its cache. */
  lemma OutputRound(s: System, c: Id) returns (run: seq<Step>, s': System)
    requires c in s.conns && s.timer == Reg(Waiting, {c}, [], [], [], None) && s.output == Fresh()
    requires s.conns[c].state == CheckingTimer && s.conns[c].idle != []
    ensures ValidRun(s, run) && NeverRefused(s, run, c) && s' == After(s, run)
    ensures c in s'.conns && s'.conns[c].state == AddingIntoOT && s'.output == Reg(Inserting, {}, [], [], [c], None)
  {
    var fire, step := TimerFires(c), Thread(Output, true, {});
    var s1 := Apply(s, fire);
    assert [] + [c] == [c];
    assert s1.output == Fresh().(adds := [c]);
    var s2 := Apply(s1, step);
    s' := Apply(s2, step);
    run := [];
    RunsPrepend(s2, step, run, c);
    run := [step] + run;
    RunsPrepend(s1, step, run, c);
    run := [step] + run;
    RunsPrepend(s, fire, run, c);
    run := [fire] + run;
  }

  /* ----- the socket that is left behind ----- */

  /** A connector without an output registration still holds a socket. */
  predicate HoldsSock(c: Conn)
  {
    c.state in {Closed, AddingIntoTT, CheckingTimer, DelingFromTT} && c.sock != NoSock
  }

  /** The deletion from the output task that a close has caused leaves the socket behind,
      and nothing else does; the next connect, and nothing else, drops it. */
  lemma LeftBehindExactly(c: Conn, e: Evt, willing: set<nat>, timer: Place, output: Place)
    requires Agrees(c, timer, output) && Due(e, timer, output)
    ensures HoldsSock(Post(c, e, willing).conn) <==>
            || (HoldsSock(c) && !(c.state == CheckingTimer && e == Connect))
            || (c.state == DelingFromOTClose && e == DeledFromOT)
  {
  }

  predicate PostsIn(s: System, step: Step, c: Id, state: State, e: Evt)
  {
    c in s.conns && s.conns[c].state == state && EventOf(s, step) == Some((c, e))
  }

  /** A close has deleted the socket from the output task since the last connect; `was` tells
      whether one had before the run. */
  ghost predicate ClosedSinceConnect(s: System, run: seq<Step>, c: Id, was: bool)
    requires ValidRun(s, run)
    decreases |run|
  {
    if run == [] then was else
    var now := || (was && !PostsIn(s, run[0], c, CheckingTimer, Connect))
               || PostsIn(s, run[0], c, DelingFromOTClose, DeledFromOT);
    ClosedSinceConnect(Apply(s, run[0]), run[1..], c, now)
  }

  lemma {:induction false} LeftBehindInRuns(s: System, run: seq<Step>, c: Id)
    requires Inv(s, c) && ValidRun(s, run) && NeverRefused(s, run, c)
    ensures c in After(s, run).conns
    ensures HoldsSock(After(s, run).conns[c]) <==> ClosedSinceConnect(s, run, c, HoldsSock(s.conns[c]))
    decreases |run|
  {
    if run == [] {
    } else {
      var step := run[0];
      StepInv(s, step, c);
      if EventOf(s, step).Some? && EventOf(s, step).value.0 == c {
        EventDue(s, step, c);
        EventKeeps(s, step, c);
        LeftBehindExactly(s.conns[c], EventOf(s, step).value.1, WillingAt(step), View(s.timer, c), View(s.output, c));
      } else {
        OtherKeeps(s, step, c);
      }
      LeftBehindInRuns(Apply(s, step), run[1..], c);
    }
  }

  /** The assertions that a connector which checks its timer has no socket, exactly: in every
      run from empty notifiers they fail if and only if a close has deleted the socket from
      the output task since the last connect. */
  lemma NoSockAssertsExactly(s: System, run: seq<Step>, c: Id, e: Evt)
    requires s.timer == Fresh() && s.output == Fresh()
    requires c in s.conns && s.conns[c].state == Closed && s.conns[c].sock == NoSock
    requires ValidRun(s, run) && NeverRefused(s, run, c) && e in {Close, Connect}
    ensures c in After(s, run).conns
    ensures After(s, run).conns[c].state == CheckingTimer ==>
              (!NoSockAsserts(After(s, run).conns[c], e) <==> ClosedSinceConnect(s, run, c, false))
  {
    InitialInv(s, c);
    LeftBehindInRuns(s, run, c);
  }

  /** And they do fail: a close while the socket is being added to the output task, or while
      connecting, followed by another open, can end in such a state. */
  lemma ReopenedWithSock(s: System, c: Id) returns (run: seq<Step>)
    requires Inv(s, c) && s.conns[c].state in {AddingIntoOT, Connecting}
    ensures ValidRun(s, run) && NeverRefused(s, run, c) && Inv(After(s, run), c)
    ensures After(s, run).conns[c].state == CheckingTimer
    ensures forall e :: e in {Close, Connect} ==> !NoSockAsserts(After(s, run).conns[c], e)
  {
    var close := UserClose(c);
    StepInv(s, close, c);
    EventKeeps(s, close, c);
    var s1 := Apply(s, close);
    run := [];
    if s.conns[c].state == AddingIntoOT {
      run := Await(s1, c);
    }
    var s2 := After(s1, run);
    assert s2.conns[c].state == DelingFromOTClose;
    var rest := ReopenedFrom(s2, c);
    RunsCompose(s1, run, rest, c);
    RunsPrepend(s, close, run + rest, c);
    run := [close] + (run + rest);
  }

  lemma ReopenedFrom(s: System, c: Id) returns (run: seq<Step>)
    requires Inv(s, c) && s.conns[c].state == DelingFromOTClose
    ensures ValidRun(s, run) && NeverRefused(s, run, c) && Inv(After(s, run), c)
    ensures After(s, run).conns[c].state == CheckingTimer && After(s, run).conns[c].sock == ClosedSock
  {
    var down := ClosedFrom(s, c);
    var up := OpenedFrom(After(s, down), c);
    RunsCompose(s, down, up, c);
    run := down + up;
  }

  lemma ClosedFrom(s: System, c: Id) returns (run: seq<Step>)
    requires Inv(s, c) && s.conns[c].state == DelingFromOTClose
    ensures ValidRun(s, run) && NeverRefused(s, run, c) && Inv(After(s, run), c)
    ensures After(s, run).conns[c].state == Closed && After(s, run).conns[c].sock == ClosedSock
  {
    var first := Await(s, c);
    var second := Await(After(s, first), c);
    RunsCompose(s, first, second, c);
    run := first + second;
  }

  lemma OpenedFrom(s: System, c: Id) returns (run: seq<Step>)
    requires Inv(s, c) && s.conns[c].state == Closed
    ensures ValidRun(s, run) && NeverRefused(s, run, c) && Inv(After(s, run), c)
    ensures After(s, run).conns[c].state == CheckingTimer && After(s, run).conns[c].sock == s.conns[c].sock
  {
    var open := UserOpen(c);
    EventKeeps(s, open, c);
    var rest := Await(Apply(s, open), c);
    RunsPrepend(s, open, rest, c);
    run := [open] + rest;
  }
}
