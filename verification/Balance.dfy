/** The engine gives a new object to the task that has the fewest. */
module Balance {
  import opened Bytes
  import opened Notifier

  /** The first of the smallest. */
  ghost predicate FirstLeast(counts: seq<int>, k: nat)
  {
    && k < |counts|
    && (forall j :: 0 <= j < |counts| ==> counts[k] <= counts[j])
    && (forall j :: 0 <= j < k ==> counts[k] < counts[j])
  }

  /** What the loop over the tasks picks: it stops at the first task that reports zero, and
      else takes the first of the smallest.  A count that has wrapped around is negative. */
  ghost predicate Picks(counts: seq<int>, k: nat)
  {
    if 0 in counts then k < |counts| && counts[k] == 0 && forall j :: 0 <= j < k ==> counts[j] != 0
    else FirstLeast(counts, k)
  }

  /** The early stop at zero finds a smallest one exactly when no count is negative. */
  lemma PicksLeastExactly(counts: seq<int>, k: nat)
    requires Picks(counts, k)
    ensures FirstLeast(counts, k) <==> (0 in counts ==> forall j :: 0 <= j < |counts| ==> counts[j] >= 0)
  {
    if 0 in counts {
      var z :| 0 <= z < |counts| && counts[z] == 0;
      assert counts[k] <= counts[z];
    }
  }

  /* ----- whole runs ----- */

  /** What a task reports, at any moment of its round. */
  function Seen(r: Reg): int
  {
    |r.members| + |r.adds| - |r.dels|
  }

  /** What its thread has taken out of the cache and not yet inserted: no count has it. */
  function Hidden(r: Reg): nat
  {
    if r.phase == Inserting then |r.todo| else 0
  }

  /** What a task has been given, as long as nothing is deleted. */
  function Load(r: Reg): int
  {
    Seen(r) + Hidden(r)
  }

  function Seens(tasks: seq<Reg>): (counts: seq<int>)
    ensures |counts| == |tasks| && forall i :: 0 <= i < |tasks| ==> counts[i] == Seen(tasks[i])
  {
    seq(|tasks|, i requires 0 <= i < |tasks| => Seen(tasks[i]))
  }

  datatype Step = AddEndpoint(id: Id, k: nat) | Thread(k: nat)

  /** A task to which objects are only added, each at most once. */
  ghost predicate Proper(r: Reg)
  {
    && r.dels == [] && (r.phase != Inserting ==> r.todo == [])
    && forall c :: View(r, c).adding + (if View(r, c).member then 1 else 0) <= 1
  }

  ghost predicate Stranger(r: Reg, c: Id)
  {
    View(r, c).adding == 0 && !View(r, c).member
  }

  /** A new object goes to the task that reports the fewest; a thread takes its next step,
      and the kernel accepts what it inserts. */
  ghost predicate Enabled(tasks: seq<Reg>, step: Step)
  {
    match step
    case AddEndpoint(c, k) => Picks(Seens(tasks), k) && forall i :: 0 <= i < |tasks| ==> Stranger(tasks[i], c)
    case Thread(k) => k < |tasks|
  }

  function Apply(tasks: seq<Reg>, step: Step): seq<Reg>
    requires step.k < |tasks|
  {
    match step
    case AddEndpoint(c, k) => tasks[k := RequestAdd(tasks[k], c)]
    case Thread(k) => tasks[k := Advance(tasks[k], true)]
  }

  ghost predicate ValidRun(tasks: seq<Reg>, run: seq<Step>)
    decreases |run|
  {
    run == [] || (Enabled(tasks, run[0]) && run[0].k < |tasks| && ValidRun(Apply(tasks, run[0]), run[1..]))
  }

  ghost function After(tasks: seq<Reg>, run: seq<Step>): seq<Reg>
    requires ValidRun(tasks, run)
    decreases |run|
  {
    if run == [] then tasks else After(Apply(tasks, run[0]), run[1..])
  }

  /** The loads of any two tasks differ by at most one. */
  predicate Balanced(tasks: seq<Reg>)
  {
    forall i, j :: 0 <= i < |tasks| && 0 <= j < |tasks| ==> Load(tasks[i]) <= Load(tasks[j]) + 1
  }

  /** A step of a thread changes no load: what leaves the cache becomes a member. */
  lemma AdvanceKeeps(r: Reg)
    requires Proper(r)
    ensures Proper(Advance(r, true)) && Load(Advance(r, true)) == Load(r)
  {
    var r' := Advance(r, true);
    forall c ensures View(r', c).adding + (if View(r', c).member then 1 else 0) <= 1 {
      AdvanceView(r, true, c);
    }
    if r.call == None && r.todo != [] {
      CountHead(r.todo, r.todo[0]);
      assert View(r, r.todo[0]).adding > 0;
    }
  }

  lemma RequestKeeps(r: Reg, c: Id)
    requires Proper(r) && Stranger(r, c)
    ensures Proper(RequestAdd(r, c)) && Load(RequestAdd(r, c)) == Load(r) + 1
  {
    var r' := RequestAdd(r, c);
    forall d ensures View(r', d).adding + (if View(r', d).member then 1 else 0) <= 1 {
      RequestView(r, c, d);
    }
  }

  ghost predicate AllProper(tasks: seq<Reg>)
  {
    forall i :: 0 <= i < |tasks| ==> Proper(tasks[i])
  }

  lemma StepProper(tasks: seq<Reg>, step: Step)
    requires AllProper(tasks) && Enabled(tasks, step)
    ensures AllProper(Apply(tasks, step))
    ensures forall i :: 0 <= i < |tasks| ==>
              Load(Apply(tasks, step)[i]) == Load(tasks[i]) + if step.AddEndpoint? && i == step.k then 1 else 0
  {
    match step
    case AddEndpoint(c, k) => RequestKeeps(tasks[k], c);
    case Thread(k) => AdvanceKeeps(tasks[k]);
  }

  /** The task that reports the fewest has the fewest, also with what the counts omit. */
  predicate ChoosesLeast(tasks: seq<Reg>, k: nat)
    requires k < |tasks|
  {
    forall i :: 0 <= i < |tasks| ==> Seen(tasks[k]) + Hidden(tasks[k]) <= Seen(tasks[i]) + Hidden(tasks[i])
  }

  /** A step keeps the loads within one of each other exactly when it is a thread's, or the
      new object goes to a least loaded task. */
  lemma StepBalancedExactly(tasks: seq<Reg>, step: Step)
    requires AllProper(tasks) && Balanced(tasks) && Enabled(tasks, step) && step.k < |tasks|
    ensures Balanced(Apply(tasks, step)) <==> (step.AddEndpoint? ==> ChoosesLeast(tasks, step.k))
  {
    StepProper(tasks, step);
    if step.AddEndpoint? && Balanced(Apply(tasks, step)) {
      forall i | 0 <= i < |tasks|
        ensures Load(tasks[step.k]) <= Load(tasks[i])
      {
        assert i != step.k ==> Load(Apply(tasks, step)[step.k]) <= Load(Apply(tasks, step)[i]) + 1;
      }
    }
  }

  /** In every state of the run. */
  ghost predicate AlwaysBalanced(tasks: seq<Reg>, run: seq<Step>)
    requires ValidRun(tasks, run)
    decreases |run|
  {
    Balanced(tasks) && (run != [] ==> AlwaysBalanced(Apply(tasks, run[0]), run[1..]))
  }

  ghost predicate AlwaysChoosesLeast(tasks: seq<Reg>, run: seq<Step>)
    requires ValidRun(tasks, run)
    decreases |run|
  {
    run != [] ==>
      && (run[0].AddEndpoint? ==> ChoosesLeast(tasks, run[0].k))
      && AlwaysChoosesLeast(Apply(tasks, run[0]), run[1..])
  }

  /** Balanced assignment, exactly: a run of additions and thread steps is balanced at every
      point if and only if every addition goes to a least loaded task. */
  lemma {:induction false} RunBalancedExactly(tasks: seq<Reg>, run: seq<Step>)
    requires AllProper(tasks) && Balanced(tasks) && ValidRun(tasks, run)
    ensures AlwaysBalanced(tasks, run) <==> AlwaysChoosesLeast(tasks, run)
    decreases |run|
  {
    if run == [] {
    } else {
      StepProper(tasks, run[0]);
      StepBalancedExactly(tasks, run[0]);
      if Balanced(Apply(tasks, run[0])) {
        RunBalancedExactly(Apply(tasks, run[0]), run[1..]);
      }
    }
  }

  /** New objects come only while no thread has taken out more than it has inserted. */
  ghost predicate Calm(tasks: seq<Reg>, run: seq<Step>)
    requires ValidRun(tasks, run)
    decreases |run|
  {
    run != [] ==>
      && (run[0].AddEndpoint? ==> forall i :: 0 <= i < |tasks| ==> Hidden(tasks[i]) == 0)
      && Calm(Apply(tasks, run[0]), run[1..])
  }

  /** The engine compares counts, so it chooses right while they omit nothing. */
  lemma CalmChoosesLeast(tasks: seq<Reg>, step: Step)
    requires AllProper(tasks) && Enabled(tasks, step) && step.AddEndpoint?
    requires forall i :: 0 <= i < |tasks| ==> Hidden(tasks[i]) == 0
    ensures step.k < |tasks| && ChoosesLeast(tasks, step.k)
  {
    assert forall i :: 0 <= i < |tasks| ==> Proper(tasks[i]) && Seen(tasks[i]) >= 0;
    PicksLeastExactly(Seens(tasks), step.k);
    assert forall i :: 0 <= i < |tasks| ==> Seens(tasks)[step.k] <= Seens(tasks)[i];
  }

  lemma {:induction false} CalmRun(tasks: seq<Reg>, run: seq<Step>)
    requires AllProper(tasks) && ValidRun(tasks, run) && Calm(tasks, run)
    ensures AlwaysChoosesLeast(tasks, run)
    decreases |run|
  {
    if run == [] {
    } else {
      if run[0].AddEndpoint? {
        CalmChoosesLeast(tasks, run[0]);
      }
      StepProper(tasks, run[0]);
      CalmRun(Apply(tasks, run[0]), run[1..]);
    }
  }

  /** So runs in which objects arrive between rounds are balanced at every point. */
  lemma RunBalanced(tasks: seq<Reg>, run: seq<Step>)
    requires AllProper(tasks) && Balanced(tasks) && ValidRun(tasks, run) && Calm(tasks, run)
    ensures AlwaysBalanced(tasks, run) && Balanced(After(tasks, run))
  {
    CalmRun(tasks, run);
    RunBalancedExactly(tasks, run);
    AlwaysAtEnd(tasks, run);
  }

  lemma {:induction false} AlwaysAtEnd(tasks: seq<Reg>, run: seq<Step>)
    requires ValidRun(tasks, run) && AlwaysBalanced(tasks, run)
    ensures Balanced(After(tasks, run))
    decreases |run|
  {
    if run == [] {
    } else {
      AlwaysAtEnd(Apply(tasks, run[0]), run[1..]);
    }
  }

  /** Nothing is lost: the loads add up to the number of objects that were given out. */
  function Total(tasks: seq<Reg>): int
  {
    if tasks == [] then 0 else Load(tasks[0]) + Total(tasks[1..])
  }

  function Given(run: seq<Step>): nat
  {
    if run == [] then 0 else (if run[0].AddEndpoint? then 1 else 0) + Given(run[1..])
  }

  lemma {:induction false} TotalUpdate(tasks: seq<Reg>, k: nat, r: Reg)
    requires k < |tasks|
    ensures Total(tasks[k := r]) == Total(tasks) - Load(tasks[k]) + Load(r)
    decreases |tasks|
  {
    if k == 0 {
      assert tasks[k := r][1..] == tasks[1..];
    } else {
      assert tasks[k := r][1..] == tasks[1..][k - 1 := r];
      TotalUpdate(tasks[1..], k - 1, r);
    }
  }

  lemma {:induction false} RunTotal(tasks: seq<Reg>, run: seq<Step>)
    requires AllProper(tasks) && ValidRun(tasks, run)
    ensures var tasks' := After(tasks, run);
            |tasks'| == |tasks| && AllProper(tasks') && Total(tasks') == Total(tasks) + Given(run)
    decreases |run|
  {
    if run == [] {
    } else {
      StepProper(tasks, run[0]);
      TotalUpdate(tasks, run[0].k, Apply(tasks, run[0])[run[0].k]);
      RunTotal(Apply(tasks, run[0]), run[1..]);
    }
  }

  lemma OneMore(n: nat, x: int)
    ensures (n + 1) * x == x + n * x
  {
  }

  lemma {:induction false} TotalBounds(tasks: seq<Reg>, lo: int, hi: int)
    requires forall i :: 0 <= i < |tasks| ==> lo <= Load(tasks[i]) <= hi
    ensures |tasks| * lo <= Total(tasks) <= |tasks| * hi
    decreases |tasks|
  {
    if tasks == [] {
    } else {
      TotalBounds(tasks[1..], lo, hi);
      OneMore(|tasks| - 1, lo);
      OneMore(|tasks| - 1, hi);
    }
  }

  /** One of `n` tasks has `load` out of `total` objects: `total / n`, rounded down or up. */
  predicate Share(n: nat, load: int, total: int)
  {
    n * (load - 1) < total < n * (load + 1)
  }

  lemma {:induction false} RestBounds(tasks: seq<Reg>, k: nat, l: int)
    requires k < |tasks| && Load(tasks[k]) == l
    requires forall i :: 0 <= i < |tasks| ==> l - 1 <= Load(tasks[i]) <= l + 1
    ensures Share(|tasks|, l, Total(tasks))
    decreases |tasks|
  {
    var rest := tasks[1..];
    if k == 0 {
      TotalBounds(rest, l - 1, l + 1);
    } else {
      RestBounds(rest, k - 1, l);
    }
    OneMore(|rest|, l - 1);
    OneMore(|rest|, l + 1);
  }

  /** Tasks that have nothing to do. */
  function Start(n: nat): (tasks: seq<Reg>)
    ensures |tasks| == n && forall i :: 0 <= i < n ==> tasks[i] == Fresh()
  {
    seq(n, i => Fresh())
  }

  lemma StartBalanced(n: nat)
    ensures AllProper(Start(n)) && Balanced(Start(n)) && Total(Start(n)) == 0
  {
    assert forall c :: View(Fresh(), c) == Place(false, 0, false, 0, false);
    TotalBounds(Start(n), 0, 0);
  }

  /** So after a calm run every task has its share of the objects, rounded down or up. */
  lemma EvenShares(n: nat, run: seq<Step>, k: nat)
    requires k < n && ValidRun(Start(n), run) && Calm(Start(n), run)
    ensures var tasks := After(Start(n), run);
            |tasks| == n && Share(n, Load(tasks[k]), Given(run))
  {
    StartBalanced(n);
    RunBalanced(Start(n), run);
    RunTotal(Start(n), run);
    SharesOf(After(Start(n), run), k);
  }

  lemma SharesOf(tasks: seq<Reg>, k: nat)
    requires k < |tasks| && Balanced(tasks)
    ensures Share(|tasks|, Load(tasks[k]), Total(tasks))
  {
    assert forall i :: 0 <= i < |tasks| ==> Load(tasks[k]) - 1 <= Load(tasks[i]) <= Load(tasks[k]) + 1;
    RestBounds(tasks, k, Load(tasks[k]));
  }

  lemma Prepend(tasks: seq<Reg>, step: Step, next: seq<Reg>, run: seq<Step>)
    requires Enabled(tasks, step) && step.k < |tasks| && Apply(tasks, step) == next && ValidRun(next, run)
    ensures ValidRun(tasks, [step] + run) && After(tasks, [step] + run) == After(next, run)
    ensures Given([step] + run) == Given(run) + if step.AddEndpoint? then 1 else 0
  {
  }

  lemma AddToPair(x: Reg, y: Reg, c: Id, k: nat)
    requires k < 2 && Stranger(x, c) && Stranger(y, c) && 0 <= Seen(x) && 0 <= Seen(y)
    requires if k == 0 then Seen(x) <= Seen(y) else Seen(y) < Seen(x)
    ensures Enabled([x, y], AddEndpoint(c, k))
    ensures Apply([x, y], AddEndpoint(c, k)) == if k == 0 then [RequestAdd(x, c), y] else [x, RequestAdd(y, c)]
  {
  }

  /** A task whose thread has just taken object 0 out of the cache. */
  function MidRound(adds: seq<Id>): Reg
  {
    Reg(Inserting, {}, adds, [], [0], None)
  }

  lemma LastTwo() returns (run: seq<Step>)
    ensures var b := Fresh().(adds := [1]);
             ValidRun([MidRound([]), b], run) && Given(run) == 2
             && After([MidRound([]), b], run) == [MidRound([2, 3]), b]
  {
    var b := Fresh().(adds := [1]);
    assert RequestAdd(MidRound([2]), 3) == MidRound([2, 3]);
    AddToPair(MidRound([2]), b, 3, 0);
    Prepend([MidRound([2]), b], AddEndpoint(3, 0), [MidRound([2, 3]), b], []);
    assert RequestAdd(MidRound([]), 2) == MidRound([2]);
    AddToPair(MidRound([]), b, 2, 0);
    run := [AddEndpoint(3, 0)];
    assert [AddEndpoint(3, 0)] + [] == run;
    Prepend([MidRound([]), b], AddEndpoint(2, 0), [MidRound([2]), b], run);
    run := [AddEndpoint(2, 0)] + run;
  }

  lemma TakeCache() returns (run: seq<Step>)
    ensures var a, b := Fresh().(adds := [0]), Fresh().(adds := [1]);
            ValidRun([a, b], run) && Given(run) == 2 && After([a, b], run) == [MidRound([2, 3]), b]
  {
    var a, b := Fresh().(adds := [0]), Fresh().(adds := [1]);
    run := LastTwo();
    Prepend([a.(phase := Erasing), b], Thread(0), [MidRound([]), b], run);
    run := [Thread(0)] + run;
    Prepend([a, b], Thread(0), [a.(phase := Erasing), b], run);
    run := [Thread(0)] + run;
  }

  /** When objects arrive while a thread has taken its cache and not yet inserted from it,
      its task looks idle: four objects end up three to one. */
  lemma UnevenMidRound() returns (run: seq<Step>)
    ensures ValidRun(Start(2), run) && Given(run) == 4 && !Balanced(After(Start(2), run))
  {
    var f, a, b := Fresh(), Fresh().(adds := [0]), Fresh().(adds := [1]);
    run := TakeCache();
    assert f.adds + [1] == [1] && f.adds + [0] == [0];
    AddToPair(a, f, 1, 1);
    Prepend([a, f], AddEndpoint(1, 1), [a, b], run);
    run := [AddEndpoint(1, 1)] + run;
    AddToPair(f, f, 0, 0);
    Prepend([f, f], AddEndpoint(0, 0), [a, f], run);
    run := [AddEndpoint(0, 0)] + run;
    assert Start(2) == [f, f];
    var end := [MidRound([2, 3]), b];
    assert Load(end[0]) == 3 && Load(end[1]) == 1;
  }

  /* ----- the engine ----- */

  /** Between rounds, with some of the first `n` objects in the add cache. */
  ghost predicate GivenFrom(r: Reg, cs: seq<Id>, n: nat)
    requires n <= |cs|
  {
    r == Reg(Waiting, {}, r.adds, [], [], None) && forall c :: c in r.adds ==> c in cs[..n]
  }

  /** One object more, given out between rounds. */
  lemma GivenOut(tasks: seq<Reg>, cs: seq<Id>, n: nat, k: nat)
    requires AllProper(tasks) && Balanced(tasks) && Picks(Seens(tasks), k) && n < |cs| && Distinct(cs)
    requires forall i :: 0 <= i < |tasks| ==> GivenFrom(tasks[i], cs, n)
    ensures k < |tasks|
    ensures var tasks' := Apply(tasks, AddEndpoint(cs[n], k));
            && AllProper(tasks') && Balanced(tasks') && Total(tasks') == Total(tasks) + 1
            && forall i :: 0 <= i < |tasks'| ==> GivenFrom(tasks'[i], cs, n + 1)
  {
    var step := AddEndpoint(cs[n], k);
    forall i | 0 <= i < |tasks|
      ensures Stranger(tasks[i], cs[n]) && Hidden(tasks[i]) == 0
    {
      assert GivenFrom(tasks[i], cs, n);
      CountIn(tasks[i].adds, cs[n]);
    }
    CalmChoosesLeast(tasks, step);
    StepProper(tasks, step);
    StepBalancedExactly(tasks, step);
    TotalUpdate(tasks, k, RequestAdd(tasks[k], cs[n]));
    assert cs[..n + 1] == cs[..n] + [cs[n]];
  }

  class Engine {
    const tasks: seq<Epoll>

    ghost predicate Valid()
      reads this
    {
      tasks != [] && forall i, j :: 0 <= i < j < |tasks| ==> tasks[i] != tasks[j]
    }

    /** What the tasks report. */
    ghost function Counts(): (counts: seq<int>)
      reads this, tasks
      ensures |counts| == |tasks|
    {
      seq(|tasks|, i requires 0 <= i < |tasks| reads tasks => tasks[i].GetIoObjCnt())
    }

    /** The tasks as other threads see them between their rounds. */
    ghost function Regs(): (regs: seq<Reg>)
      reads this, tasks
      ensures |regs| == |tasks| && forall i :: 0 <= i < |tasks| ==> regs[i] == tasks[i].AsReg()
    {
      seq(|tasks|, i requires 0 <= i < |tasks| reads tasks => tasks[i].AsReg())
    }

    constructor (tasks: seq<Epoll>)
      requires tasks != [] && forall i, j :: 0 <= i < j < |tasks| ==> tasks[i] != tasks[j]
      ensures Valid() && this.tasks == tasks
    {
      this.tasks := tasks;
    }

    /** The counts are what the steps of the tasks are said to see. */
    lemma CountsSeen()
      ensures Counts() == Seens(Regs())
    {
    }

    method SelectLeast() returns (k: nat)
      requires Valid()
      ensures Picks(Counts(), k) && Picks(Seens(Regs()), k)
    {
      k := 0;
      var min := tasks[0].GetIoObjCnt();
      var i := 0;
      while i < |tasks|
        invariant i <= |tasks| && k < |tasks| && min == tasks[k].GetIoObjCnt()
        invariant forall j :: 0 <= j < i ==> tasks[j].GetIoObjCnt() != 0 && min <= tasks[j].GetIoObjCnt()
        invariant forall j :: 0 <= j < k ==> min < tasks[j].GetIoObjCnt()
        invariant k == 0 || k < i
      {
        var cnt := tasks[i].GetIoObjCnt();
        if cnt == 0 {
          k := i;
          assert Counts()[i] == 0;
          assert forall j :: 0 <= j < i ==> Counts()[j] != 0;
          CountsSeen();
          return;
        } else if min > cnt {
          min := cnt;
          k := i;
        }
        i := i + 1;
      }
      assert forall j :: 0 <= j < |tasks| ==> Counts()[j] == tasks[j].GetIoObjCnt();
      CountsSeen();
    }

    method AddEndpoint(c: Id) returns (ghost k: nat)
      requires Valid()
      modifies tasks
      ensures Picks(old(Counts()), k) && Picks(Seens(old(Regs())), k)
      ensures Regs() == Apply(old(Regs()), Step.AddEndpoint(c, k))
      ensures forall i :: 0 <= i < |tasks| ==>
                && tasks[i].adds == old(tasks[i].adds) + (if i == k then [c] else [])
                && tasks[i].members == old(tasks[i].members) && tasks[i].dels == old(tasks[i].dels)
    {
      var least := SelectLeast();
      k := least;
      tasks[least].AddIoObj(c, true);
      assert Regs() == Apply(old(Regs()), Step.AddEndpoint(c, k));
    }

    /** Given out between rounds to tasks that had nothing, any number of objects end up in
        the add caches in equal shares, rounded down or up. */
    method AddEndpoints(cs: seq<Id>)
      requires Valid() && Distinct(cs)
      requires forall i :: 0 <= i < |tasks| ==> tasks[i].members == {} && tasks[i].adds == [] && tasks[i].dels == []
      modifies tasks
      ensures forall i :: 0 <= i < |tasks| ==>
                && tasks[i].members == {} && tasks[i].dels == []
                && Share(|tasks|, |tasks[i].adds|, |cs|)
    {
      assert Regs() == Start(|tasks|);
      StartBalanced(|tasks|);
      for n := 0 to |cs|
        invariant AllProper(Regs()) && Balanced(Regs()) && Total(Regs()) == n
        invariant forall i :: 0 <= i < |tasks| ==> GivenFrom(Regs()[i], cs, n)
      {
        ghost var before := Regs();
        ghost var k := AddEndpoint(cs[n]);
        GivenOut(before, cs, n, k);
      }
      forall i | 0 <= i < |tasks| ensures Share(|tasks|, |tasks[i].adds|, |cs|) {
        SharesOf(Regs(), i);
        assert Load(Regs()[i]) == |tasks[i].adds|;
      }
    }
  }
}
