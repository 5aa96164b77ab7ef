/** The two notifiers, timer task and epoll task: a set of registered objects, with caches
    for what is to be added and deleted at the next round of the thread that owns it. */
module Notifier {
  import opened Bytes

  type Id = nat

  /** The call an object gets once it has been added (or refused) or deleted. */
  datatype Callback = Added(id: Id, ok: bool) | Deled(id: Id)

  datatype Phase = Erasing | Inserting | Waiting

  /** A notifier as other threads can see it between any two steps of its own thread:
      `todo` is the cache taken for this round, `call` a callback that is about to run. */
  datatype Reg = Reg(phase: Phase, members: set<Id>, adds: seq<Id>, dels: seq<Id>,
                     todo: seq<Id>, call: Option<Callback>)

  function Fresh(): Reg
  {
    Reg(Waiting, {}, [], [], [], None)
  }

  function RequestAdd(r: Reg, c: Id): Reg
  {
    r.(adds := r.adds + [c])
  }

  function RequestDel(r: Reg, c: Id): Reg
  {
    r.(dels := r.dels + [c])
  }

  /** The next step of the thread: deletions first, then additions, then waiting for events.
      `ok` says whether the kernel accepts the object, should the step insert one. */
  function Advance(r: Reg, ok: bool): Reg
  {
    if r.call.Some? then r.(call := None)
    else match r.phase
      case Waiting => r.(phase := Erasing, todo := r.dels, dels := [])
      case Erasing =>
        if r.todo == [] then r.(phase := Inserting, todo := r.adds, adds := [])
        else r.(members := r.members - {r.todo[0]}, todo := r.todo[1..], call := Some(Deled(r.todo[0])))
      case Inserting =>
        if r.todo == [] then r.(phase := Waiting)
        else r.(members := if ok then r.members + {r.todo[0]} else r.members,
                todo := r.todo[1..], call := Some(Added(r.todo[0], ok)))
  }

  /** The assertions of the thread: what is deleted was a member, what is added was not. */
  predicate ThreadAsserts(r: Reg, ok: bool)
  {
    r.call == None && r.todo != [] ==>
      && (r.phase == Erasing ==> r.todo[0] in r.members)
      && (r.phase == Inserting && ok ==> r.todo[0] !in r.members)
  }

  /** What a notifier knows about one object. */
  datatype Place = Place(member: bool, adding: nat, added: bool, deling: nat, deled: bool)

  function Count(q: seq<Id>, c: Id): nat
  {
    multiset(q)[c]
  }

  function View(r: Reg, c: Id): Place
  {
    Place(c in r.members,
          Count(r.adds, c) + if r.phase == Inserting then Count(r.todo, c) else 0,
          r.call.Some? && r.call.value.Added? && r.call.value.id == c,
          Count(r.dels, c) + if r.phase == Erasing then Count(r.todo, c) else 0,
          r.call == Some(Deled(c)))
  }

  lemma CountHead(q: seq<Id>, c: Id)
    requires q != []
    ensures Count(q, c) == Count(q[1..], c) + if q[0] == c then 1 else 0
  {
    assert q == [q[0]] + q[1..];
  }

  lemma CountIn(q: seq<Id>, c: Id)
    ensures c in q <==> Count(q, c) > 0
  {
  }

  /** A request changes one count, of one object. */
  lemma RequestView(r: Reg, c: Id, d: Id)
    ensures View(RequestAdd(r, c), d) == View(r, d).(adding := View(r, d).adding + if d == c then 1 else 0)
    ensures View(RequestDel(r, c), d) == View(r, d).(deling := View(r, d).deling + if d == c then 1 else 0)
  {
  }

  /** What a step of the thread does to one object: taking a cache over does not count, an
      object is erased or inserted as its callback becomes due, and the callback runs. */
  lemma AdvanceView(r: Reg, ok: bool, c: Id)
    requires r.call == None && r.phase == Waiting ==> r.todo == []
    ensures var v, v' := View(r, c), View(Advance(r, ok), c);
            if r.call.Some? then v' == v.(added := false, deled := false)
            else if r.todo == [] || r.todo[0] != c then v' == v
            else if r.phase == Erasing then
              v.deling > 0 && v' == v.(member := false, deling := v.deling - 1, deled := true)
            else v.adding > 0 && v' == v.(member := v.member || ok, adding := v.adding - 1, added := true)
  {
    if r.call == None && r.todo != [] {
      CountHead(r.todo, c);
    }
  }

  /** One round of the thread with nobody else at work, on the members alone. */
  function EraseAll(members: set<Id>, todo: seq<Id>): set<Id>
    decreases |todo|
  {
    if todo == [] then members else EraseAll(members - {todo[0]}, todo[1..])
  }

  function InsertAll(members: set<Id>, todo: seq<Id>, refused: set<Id>): set<Id>
    decreases |todo|
  {
    if todo == [] then members
    else InsertAll(if todo[0] in refused then members else members + {todo[0]}, todo[1..], refused)
  }

  function DeledAll(todo: seq<Id>): (calls: seq<Callback>)
  {
    seq(|todo|, i requires 0 <= i < |todo| => Deled(todo[i]))
  }

  function AddedAll(todo: seq<Id>, refused: set<Id>): (calls: seq<Callback>)
  {
    seq(|todo|, i requires 0 <= i < |todo| => Added(todo[i], todo[i] !in refused))
  }

  predicate Distinct(q: seq<Id>)
  {
    forall i, j :: 0 <= i < j < |q| ==> q[i] != q[j]
  }

  /** Erasing distinct members removes exactly them. */
  lemma {:induction false} EraseAllMeans(members: set<Id>, todo: seq<Id>)
    ensures EraseAll(members, todo) == members - set c | c in todo
    ensures Distinct(todo) && (forall c :: c in todo ==> c in members) ==>
              |EraseAll(members, todo)| == |members| - |todo|
    decreases |todo|
  {
    if todo == [] {
    } else {
      assert todo == [todo[0]] + todo[1..];
      EraseAllMeans(members - {todo[0]}, todo[1..]);
    }
  }

  /** Inserting adds exactly those that are not refused. */
  lemma {:induction false} InsertAllMeans(members: set<Id>, todo: seq<Id>, refused: set<Id>)
    ensures InsertAll(members, todo, refused) == members + set c | c in todo && c !in refused
    decreases |todo|
  {
    if todo == [] {
    } else {
      assert todo == [todo[0]] + todo[1..];
      InsertAllMeans(if todo[0] in refused then members else members + {todo[0]}, todo[1..], refused);
    }
  }

  /** So distinct strangers that are all accepted make as many new members. */
  lemma {:induction false} InsertAllSize(members: set<Id>, todo: seq<Id>)
    requires Distinct(todo) && forall c :: c in todo ==> c !in members
    ensures |InsertAll(members, todo, {})| == |members| + |todo|
    decreases |todo|
  {
    if todo == [] {
    } else {
      InsertAllSize(members + {todo[0]}, todo[1..]);
    }
  }

  /** What a callback asks of the notifier it runs in. */
  datatype Requests = Requests(adds: seq<Id>, dels: seq<Id>)

  /** What the callbacks of a round ask for, one after the other; `asks` gives the answer of
      the call at a position. */
  function Asked(calls: seq<Callback>, asks: (nat, Callback) -> Requests): (r: Requests)
  {
    if calls == [] then Requests([], []) else
    var n := |calls| - 1;
    var r := Asked(calls[..n], asks);
    Requests(r.adds + asks(n, calls[n]).adds, r.dels + asks(n, calls[n]).dels)
  }

  /** The caches hold what the callbacks have asked for so far: `front` was there before
      them, `skip` has been taken out since. */
  ghost predicate Kept(adds: seq<Id>, dels: seq<Id>, calls: seq<Callback>, asks: (nat, Callback) -> Requests,
      front: seq<Id>, skip: seq<Id>)
  {
    skip + adds == front + Asked(calls, asks).adds && dels == Asked(calls, asks).dels
  }

  lemma KeptMore(adds: seq<Id>, dels: seq<Id>, calls: seq<Callback>, call: Callback, asks: (nat, Callback) -> Requests,
      front: seq<Id>, skip: seq<Id>)
    requires Kept(adds, dels, calls, asks, front, skip)
    ensures var r := asks(|calls|, call); Kept(adds + r.adds, dels + r.dels, calls + [call], asks, front, skip)
  {
    var r := asks(|calls|, call);
    assert (calls + [call])[..|calls|] == calls;
    assert skip + (adds + r.adds) == (skip + adds) + r.adds;
    assert front + (Asked(calls, asks).adds + r.adds) == (front + Asked(calls, asks).adds) + r.adds;
  }

  /** Whoever asks for nothing in all has asked for nothing before. */
  lemma {:induction false} AskedPrefix(calls: seq<Callback>, asks: (nat, Callback) -> Requests, n: nat)
    requires n <= |calls| && Asked(calls, asks) == Requests([], [])
    ensures Asked(calls[..n], asks) == Requests([], [])
    decreases |calls|
  {
    if n == |calls| {
      assert calls[..n] == calls;
    } else {
      var m := |calls| - 1;
      assert |Asked(calls[..m], asks).adds| == 0 && |Asked(calls[..m], asks).dels| == 0;
      AskedPrefix(calls[..m], asks, n);
      assert calls[..m][..n] == calls[..n];
    }
  }

  lemma DeledMore(todo: seq<Id>, i: nat)
    requires i < |todo|
    ensures DeledAll(todo[..i + 1]) == DeledAll(todo[..i]) + [Deled(todo[i])]
  {
  }

  lemma AddedMore(todo: seq<Id>, refused: set<Id>, i: nat)
    requires i < |todo|
    ensures AddedAll(todo[..i + 1], refused) == AddedAll(todo[..i], refused) + [Added(todo[i], todo[i] !in refused)]
  {
  }

  class Epoll {
    var members: set<Id>
    var adds: seq<Id>
    var dels: seq<Id>

    constructor ()
      ensures members == {} && adds == [] && dels == []
    {
      members, adds, dels := {}, [], [];
    }

    /** Queues an object, unless it has no events of this type. */
    method AddIoObj(c: Id, hasEvents: bool)
      modifies `adds
      ensures adds == old(adds) + if hasEvents then [c] else []
    {
      if hasEvents {
        adds := adds + [c];
      }
    }

    method DelIoObj(c: Id, hasEvents: bool)
      modifies `dels
      ensures dels == old(dels) + if hasEvents then [c] else []
    {
      if hasEvents {
        dels := dels + [c];
      }
    }

    /** The number of objects that the engine compares. */
    function GetIoObjCnt(): int
      reads this
    {
      |members| + |adds| - |dels|
    }

    /** The notifier as other threads see it between two rounds. */
    ghost function AsReg(): Reg
      reads this
    {
      Reg(Waiting, members, adds, dels, [], None)
    }

    /** One callback, and what it asks for. */
    method Call(before: seq<Callback>, call: Callback, asks: (nat, Callback) -> Requests,
                ghost front: seq<Id>, ghost skip: seq<Id>)
      returns (calls: seq<Callback>)
      requires Kept(adds, dels, before, asks, front, skip)
      modifies `adds, `dels
      ensures calls == before + [call] && Kept(adds, dels, calls, asks, front, skip)
    {
      KeptMore(adds, dels, before, call, asks, front, skip);
      var r := asks(|before|, call);
      adds, dels := adds + r.adds, dels + r.dels;
      calls := before + [call];
    }

    /** The delete loop, over the cache as it was found. */
    method EraseQueued(asks: (nat, Callback) -> Requests) returns (calls: seq<Callback>)
      modifies this
      ensures members == EraseAll(old(members), old(dels)) && calls == DeledAll(old(dels))
      ensures Kept(adds, dels, calls, asks, old(adds), [])
    {
      calls := [];
      ghost var goal, front := EraseAll(members, dels), adds;
      var tmp := dels;
      dels := [];
      assert [] + adds == front + [];
      for i := 0 to |tmp|
        invariant EraseAll(members, tmp[i..]) == goal && calls == DeledAll(tmp[..i])
        invariant Kept(adds, dels, calls, asks, front, [])
      {
        assert tmp[i..][1..] == tmp[i + 1..];
        DeledMore(tmp, i);
        members := members - {tmp[i]};
        calls := Call(calls, Deled(tmp[i]), asks, front, []);
      }
      assert tmp[..|tmp|] == tmp;
    }

    /** The add loop, over the cache as it was found, after the callbacks `before`. */
    method InsertQueued(refused: set<Id>, asks: (nat, Callback) -> Requests, before: seq<Callback>)
      returns (calls: seq<Callback>)
      requires dels == Asked(before, asks).dels
      modifies this
      ensures members == InsertAll(old(members), old(adds), refused) && calls == before + AddedAll(old(adds), refused)
      ensures Kept(adds, dels, calls, asks, [], Asked(before, asks).adds)
    {
      calls := before;
      ghost var goal, first := InsertAll(members, adds, refused), Asked(before, asks).adds;
      var tmp := adds;
      adds := [];
      assert first + [] == [] + first;
      for i := 0 to |tmp|
        invariant InsertAll(members, tmp[i..], refused) == goal && calls == before + AddedAll(tmp[..i], refused)
        invariant Kept(adds, dels, calls, asks, [], first)
      {
        assert tmp[i..][1..] == tmp[i + 1..];
        AddedMore(tmp, refused, i);
        var call := Added(tmp[i], tmp[i] !in refused);
        if call.ok {
          members := members + {tmp[i]};
        }
        assert before + AddedAll(tmp[..i + 1], refused) == calls + [call];
        calls := Call(calls, call, asks, [], first);
      }
      assert tmp[..|tmp|] == tmp;
    }

    /** One round: what was to be deleted is deleted, what was to be added is added unless
        the kernel refuses it, and every one of them gets its callback, in that order.  What
        the callbacks of deleted objects add is added in the same round; all else that is
        asked for during the round waits for the next. */
    method Exec(refused: set<Id>, asks: (nat, Callback) -> Requests) returns (calls: seq<Callback>)
      modifies this
      ensures var first := Asked(DeledAll(old(dels)), asks).adds;
              && members == InsertAll(EraseAll(old(members), old(dels)), old(adds) + first, refused)
              && calls == DeledAll(old(dels)) + AddedAll(old(adds) + first, refused)
              && first + adds == Asked(calls, asks).adds && dels == Asked(calls, asks).dels
      ensures old(Orderly(members, adds, dels)) && refused == {} && Asked(calls, asks) == Requests([], []) ==>
                GetIoObjCnt() == |members| == old(GetIoObjCnt())
    {
      ghost var (members0, adds0, dels0) := (members, adds, dels);
      if Orderly(members, adds, dels) {
        CountKept(members, adds, dels);
      }
      calls := EraseQueued(asks);
      assert [] + adds == old(adds) + Asked(calls, asks).adds;
      assert adds == old(adds) + Asked(calls, asks).adds;
      var first := |calls|;
      calls := InsertQueued(refused, asks, calls);
      if Asked(calls, asks) == Requests([], []) {
        AskedPrefix(calls, asks, first);
        assert calls[..first] == DeledAll(dels0) && adds0 + [] == adds0;
      }
    }
  }

  /** Only members are to be deleted, only strangers to be added, and each once. */
  ghost predicate Orderly(members: set<Id>, adds: seq<Id>, dels: seq<Id>)
  {
    && Distinct(adds) && Distinct(dels)
    && (forall c :: c in dels ==> c in members)
    && (forall c :: c in adds ==> c !in members || c in dels)
  }

  /** The number the engine compares is what a round without refusals leaves. */
  lemma CountKept(members: set<Id>, adds: seq<Id>, dels: seq<Id>)
    requires Orderly(members, adds, dels)
    ensures |InsertAll(EraseAll(members, dels), adds, {})| == |members| + |adds| - |dels|
  {
    EraseAllMeans(members, dels);
    InsertAllSize(EraseAll(members, dels), adds);
  }

  /** `n` steps of the thread with nobody else at work. */
  function Alone(r: Reg, refused: set<Id>, n: nat): Reg
    decreases n
  {
    if n == 0 then r else Alone(Advance(r, r.todo == [] || r.todo[0] !in refused), refused, n - 1)
  }

  /** The callbacks that run in them. */
  function AloneCalls(r: Reg, refused: set<Id>, n: nat): seq<Callback>
    decreases n
  {
    if n == 0 then [] else
    (if r.call.Some? then [r.call.value] else [])
    + AloneCalls(Advance(r, r.todo == [] || r.todo[0] !in refused), refused, n - 1)
  }

  lemma {:induction false} AloneErases(r: Reg, refused: set<Id>, n: nat)
    requires r.phase == Erasing && r.call == None
    ensures var r' := r.(members := EraseAll(r.members, r.todo), todo := []);
            && Alone(r, refused, 2 * |r.todo| + n) == Alone(r', refused, n)
            && AloneCalls(r, refused, 2 * |r.todo| + n) == DeledAll(r.todo) + AloneCalls(r', refused, n)
    decreases |r.todo|
  {
    if r.todo == [] {
    } else {
      var next := r.(members := r.members - {r.todo[0]}, todo := r.todo[1..]);
      AloneErases(next, refused, n);
      assert DeledAll(r.todo) == [Deled(r.todo[0])] + DeledAll(r.todo[1..]);
      assert Advance(Advance(r, r.todo[0] !in refused), true) == next;
    }
  }

  lemma {:induction false} AloneInserts(r: Reg, refused: set<Id>, n: nat)
    requires r.phase == Inserting && r.call == None
    ensures var r' := r.(members := InsertAll(r.members, r.todo, refused), todo := []);
            && Alone(r, refused, 2 * |r.todo| + n) == Alone(r', refused, n)
            && AloneCalls(r, refused, 2 * |r.todo| + n) == AddedAll(r.todo, refused) + AloneCalls(r', refused, n)
    decreases |r.todo|
  {
    if r.todo == [] {
    } else {
      var members := if r.todo[0] in refused then r.members else r.members + {r.todo[0]};
      var next := r.(members := members, todo := r.todo[1..]);
      AloneInserts(next, refused, n);
      assert AddedAll(r.todo, refused) == [Added(r.todo[0], r.todo[0] !in refused)] + AddedAll(r.todo[1..], refused);
      assert Advance(Advance(r, r.todo[0] !in refused), true) == next;
    }
  }

  /** The steps of the thread, taken without interruption, are the round that Exec runs, with
      the same callbacks in the same order. */
  lemma AloneIsExec(r: Reg, refused: set<Id>)
    requires r.phase == Waiting && r.todo == [] && r.call == None
    ensures var n := 2 * |r.dels| + 2 * |r.adds| + 3;
            && Alone(r, refused, n)
               == Reg(Waiting, InsertAll(EraseAll(r.members, r.dels), r.adds, refused), [], [], [], None)
            && AloneCalls(r, refused, n) == DeledAll(r.dels) + AddedAll(r.adds, refused)
  {
    AloneErases(Advance(r, true), refused, 2 * |r.adds| + 2);
    var erased := r.(phase := Erasing, members := EraseAll(r.members, r.dels), dels := []);
    AloneInserts(Advance(erased, true), refused, 1);
    assert AddedAll(r.adds, refused) + [] == AddedAll(r.adds, refused);
  }
}
