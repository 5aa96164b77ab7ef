/** The read/write lock: readers take one permit of a semaphore, a writer takes them all,
    one by one, under a mutex that it gives up once it has them. */
module RwLock {
  import opened Bytes

  type Tid = nat

  /** Where a thread is: `Acquiring` holds the mutex, `Releasing` no longer does. */
  datatype Thread = Idle | Reading | Acquiring(k: nat) | Writing | Releasing(k: nat)

  /** The lock for `n` concurrent readers and the threads that use it. */
  datatype Lock = Lock(n: nat, permits: nat, mutex: Option<Tid>, threads: seq<Thread>)

  datatype Step =
    | LockRead(t: Tid) | UnlockRead(t: Tid)
    | LockMutex(t: Tid) | AcquireOne(t: Tid) | UnlockMutex(t: Tid)
    | UnlockWrite(t: Tid) | ReleaseOne(t: Tid) | Leave(t: Tid)

  predicate Enabled(s: Lock, step: Step)
  {
    && step.t < |s.threads|
    && var th := s.threads[step.t];
    match step
    case LockRead(_) => th == Idle && s.permits > 0
    case UnlockRead(_) => th == Reading
    case LockMutex(_) => th == Idle && s.mutex == None
    case AcquireOne(_) => th.Acquiring? && th.k < s.n && s.permits > 0
    case UnlockMutex(_) => th.Acquiring? && th.k >= s.n
    case UnlockWrite(_) => th == Writing
    case ReleaseOne(_) => th.Releasing? && th.k > 0
    case Leave(_) => th == Releasing(0)
  }

  function Apply(s: Lock, step: Step): Lock
    requires Enabled(s, step)
  {
    var t := step.t;
    match step
    case LockRead(_) => s.(permits := s.permits - 1, threads := s.threads[t := Reading])
    case UnlockRead(_) => s.(permits := s.permits + 1, threads := s.threads[t := Idle])
    case LockMutex(_) => s.(mutex := Some(t), threads := s.threads[t := Acquiring(0)])
    case AcquireOne(_) => s.(permits := s.permits - 1, threads := s.threads[t := Acquiring(s.threads[t].k + 1)])
    case UnlockMutex(_) => s.(mutex := None, threads := s.threads[t := Writing])
    case UnlockWrite(_) => s.(threads := s.threads[t := Releasing(s.n)])
    case ReleaseOne(_) => s.(permits := s.permits + 1, threads := s.threads[t := Releasing(s.threads[t].k - 1)])
    case Leave(_) => s.(threads := s.threads[t := Idle])
  }

  function Initial(n: nat, threads: nat): Lock
  {
    Lock(n, n, None, seq(threads, i => Idle))
  }

  predicate ValidRun(s: Lock, run: seq<Step>)
    decreases |run|
  {
    run == [] || (Enabled(s, run[0]) && ValidRun(Apply(s, run[0]), run[1..]))
  }

  function After(s: Lock, run: seq<Step>): Lock
    requires ValidRun(s, run)
    decreases |run|
  {
    if run == [] then s else After(Apply(s, run[0]), run[1..])
  }

  /** The permits a thread holds. */
  function Held(n: nat, th: Thread): nat
  {
    match th
    case Idle => 0
    case Reading => 1
    case Acquiring(k) => k
    case Writing => n
    case Releasing(k) => k
  }

  function Sum(n: nat, threads: seq<Thread>): nat
  {
    if threads == [] then 0 else Held(n, threads[0]) + Sum(n, threads[1..])
  }

  lemma {:induction false} SumUpdate(n: nat, threads: seq<Thread>, t: Tid, th: Thread)
    requires t < |threads|
    ensures Sum(n, threads[t := th]) == Sum(n, threads) - Held(n, threads[t]) + Held(n, th)
    decreases |threads|
  {
    if t == 0 {
      assert threads[t := th][1..] == threads[1..];
    } else {
      assert threads[t := th][1..] == threads[1..][t - 1 := th];
      SumUpdate(n, threads[1..], t - 1, th);
    }
  }

  lemma {:induction false} SumZero(n: nat, threads: seq<Thread>)
    requires forall t :: 0 <= t < |threads| ==> Held(n, threads[t]) == 0
    ensures Sum(n, threads) == 0
    decreases |threads|
  {
    if threads == [] {
    } else {
      assert forall t :: 0 <= t < |threads[1..]| ==> threads[1..][t] == threads[t + 1];
      SumZero(n, threads[1..]);
    }
  }

  ghost predicate Inv(s: Lock)
  {
    && s.permits + Sum(s.n, s.threads) == s.n
    && (s.mutex.Some? ==> s.mutex.value < |s.threads| && s.threads[s.mutex.value].Acquiring?)
    && (forall t :: 0 <= t < |s.threads| && s.threads[t].Acquiring? ==> s.mutex == Some(t))
  }

  /** Conservation: whatever the threads do, the free permits and those held by readers and
      by acquiring, writing and releasing writers add up to the number of permits. */
  lemma StepInv(s: Lock, step: Step)
    requires Inv(s) && Enabled(s, step)
    ensures Inv(Apply(s, step)) && Apply(s, step).n == s.n && |Apply(s, step).threads| == |s.threads|
  {
    var t := step.t;
    SumUpdate(s.n, s.threads, t, Apply(s, step).threads[t]);
    HeldAtMost(s, t);
  }

  lemma HeldAtMost(s: Lock, t: Tid)
    requires Inv(s) && t < |s.threads|
    ensures Held(s.n, s.threads[t]) <= s.n
  {
    SumUpdate(s.n, s.threads, t, Idle);
  }

  lemma {:induction false} RunInv(s: Lock, run: seq<Step>)
    requires Inv(s) && ValidRun(s, run)
    ensures Inv(After(s, run)) && After(s, run).n == s.n && |After(s, run).threads| == |s.threads|
    decreases |run|
  {
    if run == [] {
    } else {
      StepInv(s, run[0]);
      RunInv(Apply(s, run[0]), run[1..]);
    }
  }

  lemma InitialInv(n: nat, threads: nat)
    ensures Inv(Initial(n, threads))
  {
    SumZero(n, Initial(n, threads).threads);
  }

  /** While a writer is inside, nobody else is, and nobody else holds a permit. */
  predicate Excludes(s: Lock, w: Tid)
    requires w < |s.threads|
  {
    s.threads[w] == Writing ==>
      forall t :: 0 <= t < |s.threads| && t != w ==>
        s.threads[t] != Reading && s.threads[t] != Writing && Held(s.n, s.threads[t]) == 0
  }

  lemma Exclusion(s: Lock, w: Tid)
    requires Inv(s) && s.n > 0 && w < |s.threads|
    ensures Excludes(s, w)
  {
    if s.threads[w] == Writing {
      forall t | 0 <= t < |s.threads| && t != w
        ensures Held(s.n, s.threads[t]) == 0
      {
        SumUpdate(s.n, s.threads, w, Idle);
        SumUpdate(s.n, s.threads[w := Idle], t, Idle);
      }
    }
  }

  ghost predicate AlwaysExcludes(n: nat, threads: nat, run: seq<Step>)
  {
    var s := Initial(n, threads);
    ValidRun(s, run) ==> forall w :: 0 <= w < |After(s, run).threads| ==> Excludes(After(s, run), w)
  }

  /** Two writers inside at once, which needs a lock without permits. */
  lemma TwoWriters(threads: nat)
    requires threads >= 2
    ensures !AlwaysExcludes(0, threads, [LockMutex(0), UnlockMutex(0), LockMutex(1), UnlockMutex(1)])
  {
    var s := Initial(0, threads);
    var s1 := Apply(s, LockMutex(0));
    var s2 := Apply(s1, UnlockMutex(0));
    var s3 := Apply(s2, LockMutex(1));
    var s4 := Apply(s3, UnlockMutex(1));
    assert After(s3, [UnlockMutex(1)]) == After(s4, []);
    assert After(s2, [LockMutex(1), UnlockMutex(1)]) == s4;
    assert After(s1, [UnlockMutex(0), LockMutex(1), UnlockMutex(1)]) == s4;
    var run := [LockMutex(0), UnlockMutex(0), LockMutex(1), UnlockMutex(1)];
    assert run[1..] == [UnlockMutex(0), LockMutex(1), UnlockMutex(1)];
    assert ValidRun(s, run) && After(s, run) == s4;
    assert s4.threads[0] == Writing && s4.threads[1] == Writing;
    assert !Excludes(s4, 0);
  }

  /** A writer inside excludes all others, for any number of threads and in every run,
      exactly when the lock has at least one permit. */
  lemma ExcludesExactly(n: nat, threads: nat)
    requires threads >= 2
    ensures (forall run :: AlwaysExcludes(n, threads, run)) <==> n > 0
  {
    if n > 0 {
      forall run ensures AlwaysExcludes(n, threads, run) {
        var s := Initial(n, threads);
        if ValidRun(s, run) {
          InitialInv(n, threads);
          RunInv(s, run);
          forall w | 0 <= w < |After(s, run).threads| ensures Excludes(After(s, run), w) {
            Exclusion(After(s, run), w);
          }
        }
      }
    } else {
      TwoWriters(threads);
    }
  }

  /** A reader gets in exactly while not all permits are held, a writer comes first exactly
      while no other is acquiring, and it gets its next permit exactly while one is free. */
  lemma EntersExactly(s: Lock, t: Tid)
    requires Inv(s) && t < |s.threads|
    ensures s.threads[t] == Idle ==> (Enabled(s, LockRead(t)) <==> Sum(s.n, s.threads) < s.n)
    ensures s.threads[t] == Idle ==>
              (Enabled(s, LockMutex(t)) <==> forall u :: 0 <= u < |s.threads| ==> !s.threads[u].Acquiring?)
    ensures s.threads[t].Acquiring? ==>
              (Enabled(s, AcquireOne(t)) <==> s.threads[t].k < s.n && Sum(s.n, s.threads) < s.n)
  {
  }

  /** The next thing a thread does on its own account; none when it is idle, or when it is
      a writer that waits for a permit. */
  function Next(s: Lock, t: Tid): Option<Step>
    requires t < |s.threads|
  {
    match s.threads[t]
    case Idle => None
    case Reading => Some(UnlockRead(t))
    case Acquiring(k) => if k >= s.n then Some(UnlockMutex(t)) else if s.permits > 0 then Some(AcquireOne(t)) else None
    case Writing => Some(UnlockWrite(t))
    case Releasing(k) => if k > 0 then Some(ReleaseOne(t)) else Some(Leave(t))
  }

  lemma NextMeaning(s: Lock, t: Tid)
    requires t < |s.threads|
    ensures Next(s, t).Some? ==> Next(s, t).value.t == t && Enabled(s, Next(s, t).value)
    ensures Next(s, t) == None && s.threads[t] != Idle ==> forall step: Step :: step.t == t ==> !Enabled(s, step)
  {
  }

  /** An acquiring writer waits for a permit only while another thread holds one and can
      go on, so the permit it waits for is given back. */
  lemma BlockedByRunning(s: Lock, w: Tid) returns (t: Tid)
    requires Inv(s) && w < |s.threads| && s.threads[w].Acquiring? && s.threads[w].k < s.n && s.permits == 0
    ensures t < |s.threads| && t != w && Held(s.n, s.threads[t]) > 0 && Next(s, t).Some?
  {
    if forall u :: 0 <= u < |s.threads| && u != w ==> Held(s.n, s.threads[u]) == 0 {
      SumUpdate(s.n, s.threads, w, Idle);
      var others := s.threads[w := Idle];
      assert forall u :: 0 <= u < |others| ==> Held(s.n, others[u]) == 0;
      SumZero(s.n, others);
      assert false;
    }
    t :| 0 <= t < |s.threads| && t != w && Held(s.n, s.threads[t]) > 0;
  }

  /** The work left in the threads that have entered: each of their steps lowers it. */
  function Work(n: nat, th: Thread): nat
  {
    match th
    case Idle => 0
    case Reading => 1
    case Acquiring(k) => 2 * n + 3 + (if k < n then n - k else 0)
    case Writing => n + 2
    case Releasing(k) => k + 1
  }

  /** No deadlock: while anybody is in the lock, somebody in it can go on, and gets closer
      to leaving it. */
  lemma NoDeadlock(s: Lock, t: Tid) returns (u: Tid)
    requires Inv(s) && t < |s.threads| && s.threads[t] != Idle
    ensures u < |s.threads| && Next(s, u).Some? && Enabled(s, Next(s, u).value)
    ensures Work(s.n, Apply(s, Next(s, u).value).threads[u]) < Work(s.n, s.threads[u])
  {
    u := t;
    if Next(s, t) == None {
      u := BlockedByRunning(s, t);
    }
    NextMeaning(s, u);
    HeldAtMost(s, u);
  }

  /* ----- who can be in the lock ----- */

  lemma RunPrepends(s: Lock, step: Step, run: seq<Step>)
    requires Enabled(s, step) && ValidRun(Apply(s, step), run)
    ensures ValidRun(s, [step] + run) && After(s, [step] + run) == After(Apply(s, step), run)
  {
  }

  /** Threads `from` on are idle, those before are reading. */
  ghost predicate ReadersIn(s: Lock, from: nat)
  {
    && from <= |s.threads| && s.permits + from == s.n
    && (forall t :: 0 <= t < from ==> s.threads[t] == Reading)
    && (forall t :: from <= t < |s.threads| ==> s.threads[t] == Idle)
  }

  lemma {:induction false} MoreReaders(s: Lock, from: nat, k: nat) returns (run: seq<Step>)
    requires ReadersIn(s, from) && from <= k <= |s.threads| && k <= s.n
    ensures ValidRun(s, run) && ReadersIn(After(s, run), k)
    decreases k - from
  {
    if from == k {
      run := [];
    } else {
      var step := LockRead(from);
      var rest := MoreReaders(Apply(s, step), from + 1, k);
      RunPrepends(s, step, rest);
      run := [step] + rest;
    }
  }

  ghost predicate LetsIn(n: nat, threads: nat, k: nat, run: seq<Step>)
  {
    && ValidRun(Initial(n, threads), run)
    && var e := After(Initial(n, threads), run);
       k <= |e.threads| && forall t :: 0 <= t < k ==> e.threads[t] == Reading
  }

  /** As many readers can be in the lock together as it has permits, and no more. */
  lemma ReadersExactly(n: nat, threads: nat, k: nat)
    requires k <= threads
    ensures k <= n <==> exists run :: LetsIn(n, threads, k, run)
  {
    if k <= n {
      var run := MoreReaders(Initial(n, threads), 0, k);
      InitialInv(n, threads);
      RunInv(Initial(n, threads), run);
      assert LetsIn(n, threads, k, run);
    } else {
      forall run ensures !LetsIn(n, threads, k, run) {
        if LetsIn(n, threads, k, run) {
          InitialInv(n, threads);
          RunInv(Initial(n, threads), run);
          SumReaders(n, After(Initial(n, threads), run).threads, k);
        }
      }
    }
  }

  lemma {:induction false} SumReaders(n: nat, threads: seq<Thread>, k: nat)
    requires k <= |threads| && forall t :: 0 <= t < k ==> threads[t] == Reading
    ensures Sum(n, threads) >= k
    decreases |threads|
  {
    if k == 0 {
    } else {
      assert forall t :: 0 <= t < k - 1 ==> threads[1..][t] == threads[t + 1];
      SumReaders(n, threads[1..], k - 1);
    }
  }

  function WorkLeft(n: nat, threads: seq<Thread>): nat
  {
    if threads == [] then 0 else Work(n, threads[0]) + WorkLeft(n, threads[1..])
  }

  lemma {:induction false} WorkUpdate(n: nat, threads: seq<Thread>, t: Tid, th: Thread)
    requires t < |threads|
    ensures WorkLeft(n, threads[t := th]) == WorkLeft(n, threads) - Work(n, threads[t]) + Work(n, th)
    decreases |threads|
  {
    if t == 0 {
      assert threads[t := th][1..] == threads[1..];
    } else {
      assert threads[t := th][1..] == threads[1..][t - 1 := th];
      WorkUpdate(n, threads[1..], t - 1, th);
    }
  }

  /** An acquiring writer gets in, by its own steps and those with which the others leave. */
  lemma {:induction false} WriterGetsIn(s: Lock, w: Tid) returns (run: seq<Step>)
    requires Inv(s) && w < |s.threads| && s.threads[w].Acquiring?
    ensures ValidRun(s, run) && w < |After(s, run).threads| && After(s, run).threads[w] == Writing
    decreases WorkLeft(s.n, s.threads)
  {
    var u := NoDeadlock(s, w);
    if Next(s, w).Some? {
      u := w;
      NextMeaning(s, w);
    }
    var step := Next(s, u).value;
    HeldAtMost(s, u);
    StepInv(s, step);
    WorkUpdate(s.n, s.threads, u, Apply(s, step).threads[u]);
    run := [];
    if step != UnlockMutex(w) {
      run := WriterGetsIn(Apply(s, step), w);
    }
    RunPrepends(s, step, run);
    run := [step] + run;
  }
}
