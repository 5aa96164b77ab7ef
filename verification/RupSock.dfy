/** The sending half of a stream socket: two queues of blocks in front of a socket that may
    take any number of bytes, refuse, be interrupted or fail. */
module RupSock {
  import opened Bytes
  import opened MemBlock

  /** How the socket answers one call of `send`: it has room for some bytes (none means the
      call would block), it is interrupted, or it fails. */
  datatype SendAnswer = Room(n: nat) | Interrupted | Failed

  /** What a member reports: the number of bytes of the last call, that something is left to
      be sent later, or that the connection has failed. */
  datatype SendRet = Sent(n: nat) | Pending | IoErr

  function Min(a: nat, b: nat): nat
  {
    if a < b then a else b
  }

  /** What is queued: blocks that have something left to be sent. */
  predicate Queue(q: seq<Block>)
  {
    forall i :: 0 <= i < |q| ==> Fits(q[i]) && q[i].data != []
  }

  function Queued(q: seq<Block>): seq<byte>
  {
    if q == [] then [] else q[0].data + Queued(q[1..])
  }

  function Lens(q: seq<Block>): (lens: seq<nat>)
    ensures |lens| == |q| && forall i :: 0 <= i < |q| ==> lens[i] == |q[i].data|
  {
    seq(|q|, i requires 0 <= i < |q| => |q[i].data|)
  }

  lemma {:induction false} QueuedAppend(a: seq<Block>, b: seq<Block>)
    ensures Queued(a + b) == Queued(a) + Queued(b)
    decreases |a|
  {
    if a == [] {
      assert a + b == b;
    } else {
      assert (a + b)[1..] == a[1..] + b;
      QueuedAppend(a[1..], b);
    }
  }

  lemma QueuedOne(b: Block)
    ensures Queued([b]) == b.data
  {
  }

  /** Taking the front block off the queue, and taking bytes off the front block. */
  lemma QueuedFront(q: seq<Block>, rest: seq<Block>, n: nat)
    requires q != [] && Queue(q + rest) && n < |q[0].data|
    ensures Queue(q[1..] + rest) && Queued(q + rest) == q[0].data + Queued(q[1..] + rest)
    ensures Lens(q[1..] + rest) == Lens(q + rest)[1..]
    ensures var cut := [DecHead(q[0], n)] + q[1..];
            Queue(cut + rest) && Queued(q + rest) == q[0].data[..n] + Queued(cut + rest)
  {
    assert q[1..] + rest == (q + rest)[1..];
    var cut := [DecHead(q[0], n)] + q[1..];
    assert (cut + rest)[1..] == (q + rest)[1..];
    assert q[0].data == q[0].data[..n] + q[0].data[n..];
  }

  /** The queue with data put behind it: into its last block if that has room. */
  function Behind(q: seq<Block>, data: Block): seq<Block>
  {
    if q == [] then [data] else
    var n := |q| - 1;
    var (back, ok) := Append(q[n], data.data);
    if ok then q[..n] + [back] else q + [data]
  }

  /** The last block takes the data exactly when it has room for all of it. */
  lemma CoalescesExactly(q: seq<Block>, data: Block)
    requires Queue(q)
    ensures var n := |q| - 1;
            if q != [] && |q[n].data| + |data.data| <= q[n].size then
              var q' := Behind(q, data);
              && |q'| == |q| && q'[..n] == q[..n]
              && q'[n].data == q[n].data + data.data && q'[n].size == q[n].size && Fits(q'[n])
            else Behind(q, data) == q + [data]
  {
    if q != [] {
      AppendMeaning(q[|q| - 1], data.data);
    }
  }

  lemma QueuedBack(front: seq<Block>, a: Block, b: Block, data: seq<byte>)
    requires b.data == a.data + data
    ensures Queued(front + [b]) == Queued(front + [a]) + data
  {
    QueuedAppend(front, [a]);
    QueuedAppend(front, [b]);
    QueuedOne(a);
    QueuedOne(b);
  }

  lemma QueuedBehind(front: seq<Block>, q: seq<Block>, data: Block)
    requires Queue(front + q) && Fits(data) && data.data != []
    ensures Queue(front + Behind(q, data))
    ensures Queued(front + Behind(q, data)) == Queued(front + q) + data.data
  {
    if q != [] && Append(q[|q| - 1], data.data).1 {
      var n := |q| - 1;
      assert (front + q)[|front| + n] == q[n];
      AppendMeaning(q[n], data.data);
      var back := Append(q[n], data.data).0;
      assert front + q == (front + q[..n]) + [q[n]];
      assert front + Behind(q, data) == (front + q[..n]) + [back];
      assert forall i :: 0 <= i < |front| + n ==> (front + Behind(q, data))[i] == (front + q)[i];
      QueuedBack(front + q[..n], q[n], back, data.data);
    } else {
      assert front + Behind(q, data) == (front + q) + [data];
      QueuedAppend(front + q, [data]);
      QueuedOne(data);
    }
  }

  /** How many bytes a pass over blocks of these lengths gets rid of, and how it ends: block
      after block until one is taken in part or not at all.  The socket answers as listed,
      and would block from then on. */
  function Answered(answers: seq<SendAnswer>, lens: seq<nat>, last: nat): (res: (nat, SendRet))
    decreases |answers|
  {
    if lens == [] then (0, Sent(last))
    else if answers == [] then (0, Pending)
    else match answers[0]
      case Interrupted => Answered(answers[1..], lens, last)
      case Failed => (0, IoErr)
      case Room(n) =>
        if n < lens[0] then (n, Pending)
        else
          var (more, ret) := Answered(answers[1..], lens[1..], lens[0]);
          (lens[0] + more, ret)
  }

  /** The first answer that is not an interruption. */
  function FirstAnswer(answers: seq<SendAnswer>): SendAnswer
  {
    if answers == [] then Room(0)
    else if answers[0] == Interrupted then FirstAnswer(answers[1..])
    else answers[0]
  }

  function Total(lens: seq<nat>): nat
  {
    if lens == [] then 0 else lens[0] + Total(lens[1..])
  }

  /** A pass makes progress exactly when its first answer has room, and reports that all is
      sent exactly when it is. */
  lemma {:induction false} ProgressExactly(answers: seq<SendAnswer>, lens: seq<nat>, last: nat)
    requires forall i :: 0 <= i < |lens| ==> lens[i] > 0
    ensures var (sent, ret) := Answered(answers, lens, last);
            && sent <= Total(lens)
            && (sent > 0 <==> lens != [] && FirstAnswer(answers).Room? && FirstAnswer(answers).n > 0)
            && (ret.Sent? <==> sent == Total(lens))
    decreases |answers|
  {
    if lens == [] || answers == [] {
    } else {
      match answers[0] {
        case Interrupted => ProgressExactly(answers[1..], lens, last);
        case Failed =>
        case Room(n) =>
          assert lens[0] > 0 && FirstAnswer(answers) == Room(n);
          if n >= lens[0] {
            ProgressExactly(answers[1..], lens[1..], lens[0]);
            assert Answered(answers, lens, last).0 == lens[0] + Answered(answers[1..], lens[1..], lens[0]).0;
            assert FirstAnswer(answers).n > 0;
            assert Answered(answers, lens, last).0 > 0;
          }
      }
    }
  }

  /** The answers that are no interruptions. */
  function Uninterrupted(answers: seq<SendAnswer>): seq<SendAnswer>
  {
    if answers == [] then []
    else if answers[0] == Interrupted then Uninterrupted(answers[1..])
    else [answers[0]] + Uninterrupted(answers[1..])
  }

  /** Block by block: the first `j` blocks are taken whole, by as many answers with room for
      them; then everything has been sent, or the answers are at an end, or the next one has
      failed, or it has room for less than the next block and takes that much. */
  lemma {:induction false} AnsweredExactly(answers: seq<SendAnswer>, lens: seq<nat>, last: nat) returns (j: nat)
    ensures j <= |lens| && j <= |Uninterrupted(answers)|
    ensures forall i :: 0 <= i < j ==> Uninterrupted(answers)[i].Room? && Uninterrupted(answers)[i].n >= lens[i]
    ensures var (sent, ret) := Answered(answers, lens, last);
            var done := Uninterrupted(answers);
            if j == |lens| then sent == Total(lens) && ret == Sent(if j == 0 then last else lens[j - 1])
            else if j == |done| then sent == Total(lens[..j]) && ret == Pending
            else if done[j] == Failed then sent == Total(lens[..j]) && ret == IoErr
            else done[j].Room? && done[j].n < lens[j] && sent == Total(lens[..j]) + done[j].n && ret == Pending
    decreases |answers|
  {
    j := 0;
    if lens == [] || answers == [] {
    } else if answers[0] == Interrupted {
      j := AnsweredExactly(answers[1..], lens, last);
    } else if answers[0].Room? && answers[0].n >= lens[0] {
      var k := AnsweredExactly(answers[1..], lens[1..], lens[0]);
      j := k + 1;
      assert lens[..j][1..] == lens[1..][..k];
      assert lens[..|lens|] == lens && lens[1..][..|lens| - 1] == lens[1..];
    }
  }

  /** The socket: the queue being sent, the cache behind it, and the bytes on the wire. */
  datatype SockState = SockState(sending: seq<Block>, cache: seq<Block>, wire: seq<byte>)

  predicate Proper(s: SockState)
  {
    Queue(s.sending + s.cache)
  }

  /** Everything sent so far: on the wire, in the queue being sent, and behind it. */
  function Stream(s: SockState): seq<byte>
  {
    s.wire + Queued(s.sending + s.cache)
  }

  /** The cache takes the place of the queue being sent once that is empty. */
  function Swapped(s: SockState): SockState
  {
    if s.sending == [] then s.(sending := s.cache, cache := []) else s
  }

  /** The front block leaves the queue for the wire, whole or its first `n` bytes. */
  function Popped(s: SockState): SockState
    requires s.sending != []
  {
    s.(sending := s.sending[1..], wire := s.wire + s.sending[0].data)
  }

  function Cut(s: SockState, n: nat): SockState
    requires s.sending != [] && n <= |s.sending[0].data|
  {
    s.(sending := [DecHead(s.sending[0], n)] + s.sending[1..], wire := s.wire + s.sending[0].data[..n])
  }

  /** A pass over the blocks, after `last` bytes in the call before. */
  function Drained(s: SockState, answers: seq<SendAnswer>, last: nat): (res: (SockState, SendRet))
    decreases |answers|
  {
    if s.sending == [] then (s, Sent(last))
    else if answers == [] then (s, Pending)
    else match answers[0]
      case Interrupted => Drained(s, answers[1..], last)
      case Failed => (s, IoErr)
      case Room(n) =>
        if n >= |s.sending[0].data| then Drained(Swapped(Popped(s)), answers[1..], |s.sending[0].data|)
        else (if n > 0 then Cut(s, n) else s, Pending)
  }

  lemma SwappedKeeps(s: SockState)
    ensures var s' := Swapped(s);
            s'.sending + s'.cache == s.sending + s.cache && s'.wire == s.wire && (s'.sending == [] ==> s'.cache == [])
  {
    assert [] + s.cache == s.cache + [];
  }

  lemma CutKeeps(s: SockState, n: nat)
    requires Proper(s) && s.sending != [] && n < |s.sending[0].data|
    ensures Proper(Cut(s, n)) && Stream(Cut(s, n)) == Stream(s) && s.wire <= Cut(s, n).wire
  {
    QueuedFront(s.sending, s.cache, n);
  }

  lemma PoppedKeeps(s: SockState)
    requires Proper(s) && s.sending != []
    ensures var s' := Swapped(Popped(s));
            && Proper(s') && Stream(s') == Stream(s) && s'.wire == s.wire + s.sending[0].data
            && (s'.sending == [] ==> s'.cache == [])
            && Lens(s'.sending + s'.cache) == Lens(s.sending + s.cache)[1..]
  {
    assert (s.sending + s.cache)[0] == s.sending[0];
    QueuedFront(s.sending, s.cache, 0);
    SwappedKeeps(Popped(s));
  }

  /** Byte conservation: a pass leaves every byte where the stream has it, puts as many onto
      the wire as the answers allow, and reports success exactly when nothing is left. */
  lemma {:induction false} DrainedKeeps(s: SockState, answers: seq<SendAnswer>, last: nat)
    requires Proper(s) && (s.sending == [] ==> s.cache == [])
    ensures var (s', ret) := Drained(s, answers, last);
            && Proper(s') && Stream(s') == Stream(s) && s.wire <= s'.wire
            && (|s'.wire| - |s.wire|, ret) == Answered(answers, Lens(s.sending + s.cache), last)
            && (ret.Sent? <==> s'.sending == []) && (s'.sending == [] ==> s'.cache == [])
    decreases |answers|
  {
    if s.sending == [] || answers == [] {
      assert s.sending == [] ==> s.sending + s.cache == [];
    } else {
      assert (s.sending + s.cache)[0] == s.sending[0];
      match answers[0] {
        case Interrupted => DrainedKeeps(s, answers[1..], last);
        case Failed =>
        case Room(n) =>
          if n >= |s.sending[0].data| {
            PoppedKeeps(s);
            DrainedKeeps(Swapped(Popped(s)), answers[1..], |s.sending[0].data|);
          } else {
            CutKeeps(s, n);
          }
      }
    }
  }

  /** Where the bytes in the socket and in the queues end up when `data` is sent past the
      queue with `queued` still in front of it: what the socket refuses outright is lost. */
  function SentDirectly(wire: seq<byte>, queued: seq<byte>, data: seq<byte>, answer: SendAnswer): seq<byte>
  {
    if answer.Room? then
      var k := Min(answer.n, |data|);
      if k == 0 then wire + queued else wire + data[..k] + queued + data[k..]
    else wire + queued
  }

  /** Sending past the queue keeps the order of all data exactly when the queue being sent
      is empty and the socket takes at least one byte. */
  lemma DirectInOrderExactly(wire: seq<byte>, queued: seq<byte>, answer: SendAnswer)
    ensures (forall data :: data != [] ==> SentDirectly(wire, queued, data, answer) == wire + queued + data)
            <==> queued == [] && answer.Room? && answer.n > 0
  {
    if queued == [] && answer.Room? && answer.n > 0 {
      forall data | data != [] ensures SentDirectly(wire, queued, data, answer) == wire + queued + data {
        var k := Min(answer.n, |data|);
        assert wire + data[..k] + queued + data[k..] == wire + queued + data;
      }
    } else if !answer.Room? || answer.n == 0 {
      assert |SentDirectly(wire, queued, [0], answer)| < |wire + queued + [0]|;
    } else {
      var b: byte := if queued[0] == 0 then 1 else 0;
      var sent := SentDirectly(wire, queued, [b], answer);
      assert sent[|wire|] == b && (wire + queued + [b])[|wire|] == queued[0];
    }
  }

  /** Sending one block.  While somebody else is sending (`locked` is false), or data waits
      in the cache, it is queued; otherwise it goes to the socket directly, past the queue
      being sent, and what a full or failing socket refuses is not kept. */
  function SendTo(s: SockState, data: Block, locked: bool, answer: SendAnswer): (res: (SockState, SendRet))
  {
    if !locked || s.cache != [] then (s.(cache := Behind(s.cache, data)), Pending)
    else if !answer.Room? then (s, IoErr)
    else
      var k := Min(answer.n, |data.data|);
      var s1 := s.(wire := s.wire + data.data[..k]);
      if k == 0 then (s, Pending)
      else if k < |data.data| then (s1.(cache := [DecHead(data, k)]), Pending)
      else (s1, Sent(0))
  }

  lemma SendToMeaning(s: SockState, data: Block, locked: bool, answer: SendAnswer)
    requires Proper(s) && Fits(data) && data.data != []
    ensures var (s', ret) := SendTo(s, data, locked, answer);
            && Proper(s') && s'.sending == s.sending
            && (!locked || s.cache != [] ==> ret == Pending && s'.wire == s.wire && Stream(s') == Stream(s) + data.data)
            && (locked && s.cache == [] ==>
                 && Stream(s') == SentDirectly(s.wire, Queued(s.sending), data.data, answer)
                 && |s'.wire| == |s.wire| + (if answer.Room? then Min(answer.n, |data.data|) else 0)
                 && ret == if !answer.Room? then IoErr else if answer.n < |data.data| then Pending else Sent(0))
  {
    if !locked || s.cache != [] {
      QueuedBehind(s.sending, s.cache, data);
    } else {
      assert s.sending + [] == s.sending;
      if answer.Room? && 0 < answer.n < |data.data| {
        var rest := DecHead(data, answer.n);
        QueuedAppend(s.sending, [rest]);
        QueuedOne(rest);
      }
    }
  }

  /** When a send keeps its data, behind everything sent before. */
  predicate KeepsOrder(s: SockState, locked: bool, answer: SendAnswer)
  {
    !locked || s.cache != [] || (s.sending == [] && answer.Room? && answer.n > 0)
  }

  lemma SendToInOrder(s: SockState, data: Block, locked: bool, answer: SendAnswer)
    requires Proper(s) && Fits(data) && data.data != [] && KeepsOrder(s, locked, answer)
    ensures Stream(SendTo(s, data, locked, answer).0) == Stream(s) + data.data
  {
    SendToMeaning(s, data, locked, answer);
    if locked && s.cache == [] {
      DirectInOrderExactly(s.wire, [], answer);
      assert s.wire + [] + data.data == s.wire + Queued(s.sending + s.cache) + data.data;
    }
  }

  /** One use of the socket: by a thread that sends, or by the writable event. */
  datatype Use = Sending(bytes: seq<byte>, locked: bool, answer: SendAnswer) | Writable(answers: seq<SendAnswer>)

  /** A block holds what is sent, and something is. */
  predicate Legal(uses: seq<Use>)
  {
    forall i :: 0 <= i < |uses| && uses[i].Sending? ==> 0 < |uses[i].bytes| <= MAX_MEM_SIZE
  }

  function NewBlock(bytes: seq<byte>): Block
  {
    Block([], bytes, MAX_MEM_SIZE)
  }

  function Used(s: SockState, use: Use): SockState
  {
    match use
    case Sending(bytes, locked, answer) => SendTo(s, NewBlock(bytes), locked, answer).0
    case Writable(answers) => Drained(Swapped(s), answers, 0).0
  }

  function After(s: SockState, uses: seq<Use>): SockState
    decreases |uses|
  {
    if uses == [] then s else After(Used(s, uses[0]), uses[1..])
  }

  /** Every send of the run is made in a situation that keeps the order of data. */
  predicate InOrder(s: SockState, uses: seq<Use>)
    decreases |uses|
  {
    uses != [] ==>
      && (uses[0].Sending? ==> KeepsOrder(s, uses[0].locked, uses[0].answer))
      && InOrder(Used(s, uses[0]), uses[1..])
  }

  /** What was given to the sends, one after the other. */
  function Sends(uses: seq<Use>): seq<seq<byte>>
  {
    if uses == [] then [] else (if uses[0].Sending? then [uses[0].bytes] else []) + Sends(uses[1..])
  }

  lemma UsedKeeps(s: SockState, use: Use)
    requires Proper(s) && Legal([use])
    ensures Proper(Used(s, use)) && |s.wire| <= |Used(s, use).wire|
    ensures use.Writable? ==> Stream(Used(s, use)) == Stream(s)
    ensures use.Sending? && KeepsOrder(s, use.locked, use.answer) ==> Stream(Used(s, use)) == Stream(s) + use.bytes
  {
    assert [use][0] == use;
    match use
    case Sending(bytes, locked, answer) =>
      SendToMeaning(s, NewBlock(bytes), locked, answer);
      if KeepsOrder(s, locked, answer) {
        SendToInOrder(s, NewBlock(bytes), locked, answer);
      }
    case Writable(answers) =>
      SwappedKeeps(s);
      DrainedKeeps(Swapped(s), answers, 0);
  }

  /** Conservation over whole runs: when every send keeps order, the bytes on the wire and in
      the queues are all the bytes sent, behind what was there before. */
  lemma {:induction false} RunConserves(s: SockState, uses: seq<Use>)
    requires Proper(s) && Legal(uses)
    ensures Proper(After(s, uses))
    ensures InOrder(s, uses) ==> Stream(After(s, uses)) == Stream(s) + Concat(Sends(uses))
    decreases |uses|
  {
    if uses == [] {
      assert Stream(s) + [] == Stream(s);
    } else {
      UsedKeeps(s, uses[0]);
      RunConserves(Used(s, uses[0]), uses[1..]);
      if InOrder(s, uses) && uses[0].Sending? {
        var rest := Sends(uses[1..]);
        assert Concat([uses[0].bytes] + rest) == uses[0].bytes + Concat(rest) by {
          assert ([uses[0].bytes] + rest)[1..] == rest;
        }
        assert Stream(s) + uses[0].bytes + Concat(rest) == Stream(s) + (uses[0].bytes + Concat(rest));
      } else {
        assert uses[0].Writable? ==> Sends(uses) == Sends(uses[1..]);
      }
    }
  }

  /** From an empty socket: the peer sees a first part of all the bytes sent, and all of
      them once the queues are empty. */
  lemma RunFromEmpty(s: SockState, uses: seq<Use>)
    requires Proper(s) && Legal(uses) && Stream(s) == [] && InOrder(s, uses)
    ensures var s' := After(s, uses);
            && s'.wire <= Stream(s') == Concat(Sends(uses))
            && (s'.sending == [] && s'.cache == [] ==> s'.wire == Concat(Sends(uses)))
  {
    RunConserves(s, uses);
    assert Stream(s) + Concat(Sends(uses)) == Concat(Sends(uses));
    var s' := After(s, uses);
    if s'.sending == [] && s'.cache == [] {
      assert Stream(s') == s'.wire + [];
    }
  }

  class Sock {
    var sending: seq<Block>
    var cache: seq<Block>
    var wire: seq<byte>

    function State(): SockState
      reads this
    {
      SockState(sending, cache, wire)
    }

    ghost predicate Valid()
      reads this
    {
      Proper(State())
    }

    constructor ()
      ensures Valid() && State() == SockState([], [], [])
    {
      sending, cache, wire := [], [], [];
    }

    method SwapWhenEmpty()
      modifies `sending, `cache
      ensures State() == Swapped(old(State()))
    {
      if sending == [] {
        sending, cache := cache, sending;
      }
    }

    /** The writable event: every byte stays where the stream has it, and as many of them
        move onto the wire as the socket takes. */
    method HandleCanSend(answers: seq<SendAnswer>) returns (ret: SendRet)
      requires Valid()
      modifies this
      ensures Valid() && (State(), ret) == Drained(Swapped(old(State())), answers, 0)
      ensures Stream(State()) == Stream(old(State())) && old(wire) <= wire
      ensures (|wire| - |old(wire)|, ret) == Answered(answers, old(Lens(sending + cache)), 0)
      ensures ret.Sent? <==> sending == []
      ensures sending == [] ==> cache == []
    {
      SwappedKeeps(State());
      SwapWhenEmpty();
      DrainedKeeps(State(), answers, 0);
      ret := Sent(0);
      var i := 0;
      ghost var goal := Drained(State(), answers, 0);
      assert answers[0..] == answers;
      while sending != []
        invariant i <= |answers| && ret.Sent? && Drained(State(), answers[i..], ret.n) == goal
        decreases |answers| - i
      {
        if i == |answers| {
          return Pending;
        }
        var answer := answers[i];
        assert answers[i..][1..] == answers[i + 1..];
        i := i + 1;
        match answer {
          case Interrupted =>
          case Failed =>
            return IoErr;
          case Room(n) =>
            if n < |sending[0].data| {
              if n > 0 {
                wire := wire + sending[0].data[..n];
                sending := [DecHead(sending[0], n)] + sending[1..];
              }
              return Pending;
            }
            ret := Sent(|sending[0].data|);
            wire := wire + sending[0].data;
            sending := sending[1..];
            SwapWhenEmpty();
        }
      }
    }

    /** Puts data behind everything in the cache: into its last block if that has room. */
    method Enqueue(data: Block)
      requires Valid() && Fits(data) && data.data != []
      modifies `cache
      ensures Valid() && cache == Behind(old(cache), data)
      ensures Stream(State()) == Stream(old(State())) + data.data
    {
      QueuedBehind(sending, cache, data);
      if cache == [] {
        cache := [data];
      } else {
        var n := |cache| - 1;
        var (back, ok) := Append(cache[n], data.data);
        cache := if ok then cache[..n] + [back] else cache + [data];
      }
    }

    /** Sends a block: queued, or directly, past the queue being sent. */
    method Send(data: Block, locked: bool, answer: SendAnswer) returns (ret: SendRet)
      requires Valid() && Fits(data) && data.data != []
      modifies this
      ensures Valid() && sending == old(sending) && (State(), ret) == SendTo(old(State()), data, locked, answer)
      ensures !locked || old(cache) != [] ==>
                ret == Pending && wire == old(wire) && Stream(State()) == Stream(old(State())) + data.data
      ensures locked && old(cache) == [] ==>
                && Stream(State()) == SentDirectly(old(wire), Queued(sending), data.data, answer)
                && |wire| == |old(wire)| + (if answer.Room? then Min(answer.n, |data.data|) else 0)
                && ret == if !answer.Room? then IoErr else if answer.n < |data.data| then Pending else Sent(0)
    {
      SendToMeaning(State(), data, locked, answer);
      if !locked || cache != [] {
        Enqueue(data);
        return Pending;
      }
      match answer {
        case Interrupted => return IoErr;
        case Failed => return IoErr;
        case Room(n) =>
          if n == 0 {
            return Pending;
          }
          var k := Min(n, |data.data|);
          wire := wire + data.data[..k];
          if k < |data.data| {
            cache := [DecHead(data, k)] + cache;
            assert cache == [DecHead(data, k)];
            return Pending;
          }
          return Sent(0);
      }
    }

    /** The same for bytes: they are put into a new block first. */
    method SendBytes(bytes: seq<byte>, locked: bool, answer: SendAnswer) returns (ret: SendRet)
      requires Valid() && 0 < |bytes| <= MAX_MEM_SIZE
      modifies this
      ensures Valid() && sending == old(sending)
      ensures (State(), ret) == SendTo(old(State()), NewBlock(bytes), locked, answer)
      ensures !locked || old(cache) != [] ==>
                ret == Pending && wire == old(wire) && Stream(State()) == Stream(old(State())) + bytes
      ensures locked && old(cache) == [] ==>
                && Stream(State()) == SentDirectly(old(wire), Queued(sending), bytes, answer)
                && |wire| == |old(wire)| + (if answer.Room? then Min(answer.n, |bytes|) else 0)
                && ret == if !answer.Room? then IoErr else if answer.n < |bytes| then Pending else Sent(0)
      ensures KeepsOrder(old(State()), locked, answer) ==> Stream(State()) == Stream(old(State())) + bytes
    {
      if KeepsOrder(State(), locked, answer) {
        SendToInOrder(State(), NewBlock(bytes), locked, answer);
      }
      ret := Send(NewBlock(bytes), locked, answer);
    }
  }

  /** Any uses of a socket, one after the other: its state is the one the uses lead to.  When
      every send is made in a situation that keeps order, the bytes on the wire are a first
      part of all the bytes sent, and all of them once the queues are empty. */
  method Run(sock: Sock, uses: seq<Use>)
    requires sock.Valid() && Legal(uses)
    modifies sock
    ensures sock.Valid() && sock.State() == After(old(sock.State()), uses)
    ensures InOrder(old(sock.State()), uses) ==> Stream(sock.State()) == Stream(old(sock.State())) + Concat(Sends(uses))
    ensures Stream(old(sock.State())) == [] && InOrder(old(sock.State()), uses) ==>
              && sock.wire <= Concat(Sends(uses))
              && (sock.sending == [] && sock.cache == [] ==> sock.wire == Concat(Sends(uses)))
  {
    RunConserves(sock.State(), uses);
    if Stream(sock.State()) == [] && InOrder(sock.State(), uses) {
      RunFromEmpty(sock.State(), uses);
    }
    ghost var end := After(sock.State(), uses);
    assert uses[0..] == uses;
    for i := 0 to |uses|
      invariant sock.Valid() && After(sock.State(), uses[i..]) == end
    {
      assert uses[i..][1..] == uses[i + 1..];
      match uses[i] {
        case Sending(bytes, locked, answer) =>
          var _ := sock.SendBytes(bytes, locked, answer);
        case Writable(answers) =>
          var _ := sock.HandleCanSend(answers);
      }
    }
  }
}
