/** The reader of packages: it takes whole packages off the front of the received block,
    hands each body to its handler, and leaves an unfinished package for the next time. */
module Dispatcher {
  import opened Bytes
  import opened MemBlock
  import opened Package
  import opened Framing

  /** The bodies in the first `size` bytes, each as long as it says it is; None when one
      says it is empty or reaches past them. */
  function Bodies(k: Kind, data: seq<byte>, size: nat): Option<seq<seq<byte>>>
    requires size <= |data|
    decreases size
  {
    if size == 0 then Some([]) else
    var n := k.realSize(data);
    if n == 0 || n > size then None else
    match Bodies(k, data[n..], size - n)
    case None => None
    case Some(bs) => Some([data[..n]] + bs)
  }

  function Calls(opcode: nat, tag: nat, bodies: seq<seq<byte>>): seq<Call>
  {
    if bodies == [] then []
    else Calls(opcode, tag, bodies[..|bodies| - 1]) + [Call(opcode, tag, bodies[|bodies| - 1])]
  }

  lemma CallsSnoc(opcode: nat, tag: nat, bodies: seq<seq<byte>>, b: seq<byte>)
    ensures Calls(opcode, tag, bodies + [b]) == Calls(opcode, tag, bodies) + [Call(opcode, tag, b)]
  {
  }

  /** What a package that is all there allows. */
  function Whole(h: Header, data: seq<byte>, k: Kind): (f: Front)
    requires HDR_SIZE <= h.len <= |data|
    ensures f.Take? ==> f.size == h.len
  {
    match Bodies(k, data[HDR_SIZE..], h.len - HDR_SIZE)
    case None => Stop(BadBody)
    case Some(bs) => Take(h.len, Calls(h.opcode, h.tag, bs))
  }

  /** The rule of the framing loop for the front of the block. */
  function Look(data: seq<byte>, ver: byte, kinds: map<nat, Kind>): (f: Front)
    ensures f.Take? ==> HDR_SIZE <= f.size <= |data|
  {
    if |data| < HDR_SIZE then Stop(Drained) else
    var h := Decode(data);
    if h.ver != ver || h.len < HDR_SIZE then Stop(BadHeader)
    else if h.len == HDR_SIZE then Take(HDR_SIZE, [])
    else if h.len > |data| then Stop(Incomplete)
    else if h.opcode !in kinds then Stop(UnknownPkg)
    else Whole(h, data, kinds[h.opcode])
  }

  function Rule(ver: byte, kinds: map<nat, Kind>): seq<byte> -> Front
  {
    d => Look(d, ver, kinds)
  }

  /** `look` is that rule; stated point by point, so that what follows need not know more. */
  ghost predicate Describes(look: seq<byte> -> Front, ver: byte, kinds: map<nat, Kind>)
  {
    forall d :: DescribesAt(look, ver, kinds, d)
  }

  ghost predicate DescribesAt(look: seq<byte> -> Front, ver: byte, kinds: map<nat, Kind>, d: seq<byte>)
  {
    look(d) == Look(d, ver, kinds)
  }

  ghost predicate AllSound(kinds: map<nat, Kind>)
  {
    forall op :: op in kinds ==> Sound(kinds[op])
  }

  /** Bytes behind the package do not change its bodies, and do not repair them. */
  lemma {:induction false} BodiesExtend(k: Kind, data: seq<byte>, size: nat, more: seq<byte>)
    requires Sound(k) && size <= |data|
    ensures Bodies(k, data + more, size) == Bodies(k, data, size)
    decreases size
  {
    if size == 0 {
    } else {
      var n, m := k.realSize(data), k.realSize(data + more);
      if 0 < n <= |data| {
        SoundExtends(k, data, more);
      }
      if 0 < m <= |data| {
        assert (data + more)[..m] + data[m..] == data;
      }
      if 0 < n <= size {
        assert (data + more)[n..] == data[n..] + more && (data + more)[..n] == data[..n];
        BodiesExtend(k, data[n..], size - n, more);
      }
    }
  }

  lemma WholeExtends(h: Header, k: Kind, a: seq<byte>, b: seq<byte>)
    requires Sound(k) && HDR_SIZE <= h.len <= |a|
    ensures Whole(h, a + b, k) == Whole(h, a, k)
  {
    assert (a + b)[HDR_SIZE..] == a[HDR_SIZE..] + b;
    BodiesExtend(k, a[HDR_SIZE..], h.len - HDR_SIZE, b);
  }

  lemma LookExtends(a: seq<byte>, b: seq<byte>, ver: byte, kinds: map<nat, Kind>)
    requires AllSound(kinds)
    requires Look(a, ver, kinds).Take? || !Open(Look(a, ver, kinds).status)
    ensures Look(a + b, ver, kinds) == Look(a, ver, kinds)
  {
    var h := Decode(a);
    assert Decode(a + b) == h by {
      DecodePrefix(a, b);
    }
    if h.ver == ver && HDR_SIZE < h.len <= |a| && h.opcode in kinds {
      WholeExtends(h, kinds[h.opcode], a, b);
    }
  }

  /** The rule of the dispatcher is decided by the front of the stream alone. */
  lemma RuleIsSound(ver: byte, kinds: map<nat, Kind>)
    requires AllSound(kinds)
    ensures Progresses(Rule(ver, kinds)) && Prefixed(Rule(ver, kinds)) && Describes(Rule(ver, kinds), ver, kinds)
  {
    var look := Rule(ver, kinds);
    forall d ensures DescribesAt(look, ver, kinds, d) {
    }
    forall a, b ensures PrefixedAt(look, a, b) {
      if look(a).Take? || !Open(look(a).status) {
        LookExtends(a, b, ver, kinds);
      }
    }
  }

  /** With `calls` made and `size` bytes of `data` left, the pass over the bodies is on its
      way to make the calls `whole` and to leave `rest`. */
  ghost predicate Owes(k: Kind, opcode: nat, tag: nat, data: seq<byte>, size: nat,
                       calls: seq<Call>, whole: seq<Call>, rest: seq<byte>)
  {
    && size <= |data| && data[size..] == rest && Bodies(k, data, size).Some?
    && exists taken ::
         calls == Calls(opcode, tag, taken) && whole == Calls(opcode, tag, taken + Bodies(k, data, size).value)
  }

  lemma OwesStart(k: Kind, opcode: nat, tag: nat, data: seq<byte>, size: nat)
    requires size <= |data| && Bodies(k, data, size).Some?
    ensures Owes(k, opcode, tag, data, size, [], Calls(opcode, tag, Bodies(k, data, size).value), data[size..])
  {
    assert [] + Bodies(k, data, size).value == Bodies(k, data, size).value;
    assert [] == Calls(opcode, tag, []);
  }

  lemma OwesStep(k: Kind, opcode: nat, tag: nat, data: seq<byte>, size: nat,
                 calls: seq<Call>, whole: seq<Call>, rest: seq<byte>)
    requires Owes(k, opcode, tag, data, size, calls, whole, rest)
    ensures size == 0 ==> calls == whole && data == rest
    ensures size > 0 ==>
              var n := k.realSize(data);
              0 < n <= size
              && Owes(k, opcode, tag, data[n..], size - n, calls + [Call(opcode, tag, data[..n])], whole, rest)
  {
    var taken :| calls == Calls(opcode, tag, taken) && whole == Calls(opcode, tag, taken + Bodies(k, data, size).value);
    if size > 0 {
      var n := k.realSize(data);
      var later := Bodies(k, data[n..], size - n).value;
      assert taken + ([data[..n]] + later) == (taken + [data[..n]]) + later;
      CallsSnoc(opcode, tag, taken, data[..n]);
    } else {
      assert taken + [] == taken;
    }
  }

  /** The loop over the bodies of one package, in place on the block. */
  method DispatchBodies(k: Kind, mem: Mem, size: nat, opcode: nat, tag: nat) returns (calls: seq<Call>)
    requires mem.Valid() && size <= mem.len && Bodies(k, mem.Contents(), size).Some?
    modifies mem`offset, mem`len
    ensures mem.Valid() && mem.Contents() == old(mem.Contents())[size..]
    ensures calls == Calls(opcode, tag, Bodies(k, old(mem.Contents()), size).value)
  {
    calls := [];
    var left := size;
    ghost var whole, rest := Calls(opcode, tag, Bodies(k, mem.Contents(), size).value), mem.Contents()[size..];
    OwesStart(k, opcode, tag, mem.Contents(), size);
    while left > 0
      invariant mem.Valid() && left >= 0
      invariant Owes(k, opcode, tag, mem.Contents(), left, calls, whole, rest)
    {
      OwesStep(k, opcode, tag, mem.Contents(), left, calls, whole, rest);
      var n := k.realSize(mem.Contents());
      calls := calls + [Call(opcode, tag, mem.Contents()[..n])];
      mem.DecHeadData(n);
      left := left - n;
    }
    OwesStep(k, opcode, tag, mem.Contents(), left, calls, whole, rest);
  }

  /** What the rule says, read off the header. */
  lemma RuleCases(look: seq<byte> -> Front, data: seq<byte>, ver: byte, kinds: map<nat, Kind>)
    requires Describes(look, ver, kinds)
    ensures var f := look(data);
            && (|data| < HDR_SIZE ==> f == Stop(Drained))
            && (|data| >= HDR_SIZE ==>
                 var h := Decode(data);
                 && (h.ver != ver || h.len < HDR_SIZE ==> f == Stop(BadHeader))
                 && (h.ver == ver && h.len == HDR_SIZE ==> f == Take(HDR_SIZE, []))
                 && (h.ver == ver && h.len > HDR_SIZE && h.len > |data| ==> f == Stop(Incomplete))
                 && (h.ver == ver && HDR_SIZE < h.len <= |data| && h.opcode !in kinds ==> f == Stop(UnknownPkg))
                 && (h.ver == ver && HDR_SIZE < h.len <= |data| && h.opcode in kinds ==>
                      f == Whole(h, data, kinds[h.opcode])))
  {
    assert DescribesAt(look, ver, kinds, data);
  }

  /** The front of the block cannot be read: a header of another version or shorter than a
      header, or a whole package with bodies of an unknown kind. */
  predicate Unreadable(data: seq<byte>, ver: byte, kinds: map<nat, Kind>)
  {
    && |data| >= HDR_SIZE
    && (|| Decode(data).ver != ver || Decode(data).len < HDR_SIZE
        || (HDR_SIZE < Decode(data).len <= |data| && Decode(data).opcode !in kinds))
  }

  /** The front of the block is the first part of a package. */
  predicate Unfinished(data: seq<byte>, ver: byte)
  {
    |data| < HDR_SIZE || (Decode(data).ver == ver && Decode(data).len > |data|)
  }

  /** A pass ends where the connection must be closed or more must arrive, unless it meets a
      body that cannot be taken. */
  lemma EndsExactly(look: seq<byte> -> Front, data: seq<byte>, ver: byte, kinds: map<nat, Kind>)
    requires Progresses(look) && Describes(look, ver, kinds) && Parse(look, data).status != BadBody
    ensures var p := Parse(look, data);
            && (!Open(p.status) <==> Unreadable(p.rest, ver, kinds))
            && (Open(p.status) <==> Unfinished(p.rest, ver))
  {
    RestStops(look, data);
    RuleCases(look, Parse(look, data).rest, ver, kinds);
  }

  /** One round of the framing loop: it takes the package at the front, or stops. */
  method DispatchFront(mem: Mem, ver: byte, kinds: map<nat, Kind>, ghost look: seq<byte> -> Front)
    returns (calls: seq<Call>, stop: bool, closed: bool)
    requires mem.Valid() && mem.len >= HDR_SIZE && Describes(look, ver, kinds)
    requires look(mem.Contents()) != Stop(BadBody)
    modifies mem, mem.bytes
    ensures mem.Valid()
    ensures var data := old(mem.Contents());
            match look(data)
            case Take(size, cs) =>
              !stop && !closed && 0 < size <= |data| && calls == cs && mem.Contents() == data[size..]
            case Stop(s) =>
              && stop && (closed <==> !Open(s)) && calls == []
              && mem.Contents() == data && (s == Incomplete ==> mem.offset == 0)
  {
    calls, stop, closed := [], true, false;
    RuleCases(look, mem.Contents(), ver, kinds);
    ghost var data := mem.Contents();
    var h := Decode(mem.Contents());
    if h.ver != ver || h.len < HDR_SIZE {
      closed := true;
    } else if h.len == HDR_SIZE {
      mem.DecHeadData(HDR_SIZE);
      stop := false;
    } else if h.len > mem.len {
      mem.MoveDataAhead();
    } else if h.opcode !in kinds {
      closed := true;
    } else {
      mem.DecHeadData(HDR_SIZE);
      calls := DispatchBodies(kinds[h.opcode], mem, h.len - HDR_SIZE, h.opcode, h.tag);
      assert mem.Contents() == data[h.len..];
      stop := false;
    }
  }

  /** The same round within a pass that is on its way to `whole`. */
  method DispatchRound(mem: Mem, ver: byte, kinds: map<nat, Kind>, before: seq<Call>,
      ghost look: seq<byte> -> Front, ghost whole: Parsed)
    returns (calls: seq<Call>, stop: bool, closed: bool)
    requires mem.Valid() && mem.len >= HDR_SIZE && Progresses(look) && Describes(look, ver, kinds)
    requires Remains(look, mem.Contents(), before, whole) && whole.status != BadBody
    modifies mem, mem.bytes
    ensures mem.Valid()
    ensures !stop ==> !closed && mem.len < old(mem.len) && Remains(look, mem.Contents(), calls, whole)
    ensures stop ==> && whole.calls == calls && whole.rest == mem.Contents() && (closed <==> !Open(whole.status))
                     && (whole.status == Incomplete ==> mem.offset == 0)
  {
    RemainsStep(look, mem.Contents(), before, whole);
    var more;
    more, stop, closed := DispatchFront(mem, ver, kinds, look);
    assert before + [] == before;
    calls := before + more;
    assert mem.len == |mem.Contents()|;
  }

  /** The framing loop: `closed` tells whether the connection is closed for a package
      that cannot be read. */
  method Dispatch(mem: Mem, ver: byte, kinds: map<nat, Kind>, ghost look: seq<byte> -> Front)
    returns (calls: seq<Call>, closed: bool)
    requires mem.Valid() && Progresses(look) && Describes(look, ver, kinds)
    requires Parse(look, mem.Contents()).status != BadBody
    modifies mem, mem.bytes
    ensures var p := Parse(look, old(mem.Contents()));
            && mem.Valid() && calls == p.calls && mem.Contents() == p.rest && (closed <==> !Open(p.status))
            && (p.status == Incomplete ==> mem.offset == 0)
    ensures if closed then Unreadable(mem.Contents(), ver, kinds) else Unfinished(mem.Contents(), ver)
  {
    calls, closed := [], false;
    EndsExactly(look, mem.Contents(), ver, kinds);
    ghost var whole := Parse(look, mem.Contents());
    RemainsStart(look, mem.Contents());
    while mem.len >= HDR_SIZE
      invariant mem.Valid() && !closed && Remains(look, mem.Contents(), calls, whole)
      decreases mem.len
    {
      var stop;
      calls, stop, closed := DispatchRound(mem, ver, kinds, calls, look, whole);
      if stop {
        return;
      }
    }
    RuleCases(look, mem.Contents(), ver, kinds);
    RemainsStep(look, mem.Contents(), calls, whole);
  }
}
