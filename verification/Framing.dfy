/** Taking packages off the front of a byte stream, for any rule that says what the
    front of the stream allows. */
module Framing {
  import opened Bytes

  /** One call of the connection's package handler. */
  datatype Call = Call(opcode: nat, tag: nat, body: seq<byte>)

  /** How a pass over the block ends.  With BadBody the original would loop for ever on a
      body of size zero, or run past the package on one that is too large. */
  datatype Status = Drained | Incomplete | BadHeader | UnknownPkg | BadBody

  predicate Open(s: Status)
  {
    s == Drained || s == Incomplete
  }

  /** What the front of the block allows: taking a whole package off it, or stopping. */
  datatype Front = Stop(status: Status) | Take(size: nat, calls: seq<Call>)

  datatype Parsed = Parsed(calls: seq<Call>, rest: seq<byte>, status: Status)

  ghost predicate Progresses(look: seq<byte> -> Front)
  {
    forall d :: look(d).Take? ==> 0 < look(d).size <= |d|
  }

  /** Bytes behind do not change what is found at the front, once it is decided. */
  ghost predicate Prefixed(look: seq<byte> -> Front)
  {
    forall a, b :: PrefixedAt(look, a, b)
  }

  ghost predicate PrefixedAt(look: seq<byte> -> Front, a: seq<byte>, b: seq<byte>)
  {
    look(a).Take? || !Open(look(a).status) ==> look(a + b) == look(a)
  }

  /** The outcome of a pass with calls made before it. */
  function After(calls: seq<Call>, r: Parsed): Parsed
  {
    r.(calls := calls + r.calls)
  }

  lemma AfterBoth(first: seq<Call>, second: seq<Call>, r: Parsed)
    ensures After(first, After(second, r)) == After(first + second, r)
    ensures After([], r) == r
  {
  }

  function Parse(look: seq<byte> -> Front, data: seq<byte>): (r: Parsed)
    requires Progresses(look)
    decreases |data|
  {
    match look(data)
    case Stop(status) => Parsed([], data, status)
    case Take(size, calls) => After(calls, Parse(look, data[size..]))
  }

  /** With `calls` made and `data` left, the pass is on its way to `whole`. */
  ghost predicate Remains(look: seq<byte> -> Front, data: seq<byte>, calls: seq<Call>, whole: Parsed)
    requires Progresses(look)
  {
    whole == After(calls, Parse(look, data))
  }

  lemma RemainsStart(look: seq<byte> -> Front, data: seq<byte>)
    requires Progresses(look)
    ensures Remains(look, data, [], Parse(look, data))
  {
  }

  lemma RemainsStep(look: seq<byte> -> Front, data: seq<byte>, calls: seq<Call>, whole: Parsed)
    requires Progresses(look) && Remains(look, data, calls, whole)
    ensures match look(data)
            case Take(size, more) => Remains(look, data[size..], calls + more, whole)
            case Stop(status) => whole == Parsed(calls, data, status)
  {
  }

  /** The piece `w` in front of `more` is taken whole and makes the calls `cs`. */
  ghost predicate TakenWhole(look: seq<byte> -> Front, w: seq<byte>, cs: seq<Call>, more: seq<byte>)
  {
    look(w + more) == Take(|w|, cs)
  }

  lemma PieceParsed(look: seq<byte> -> Front, w: seq<byte>, cs: seq<Call>, more: seq<byte>)
    requires Progresses(look) && TakenWhole(look, w, cs, more)
    ensures Parse(look, w + more) == After(cs, Parse(look, more))
  {
  }

  /** Parsing is incremental: what a first part leaves, put in front of a second part,
      yields the rest of what both together yield. */
  lemma {:induction false} ParseResumes(look: seq<byte> -> Front, a: seq<byte>, b: seq<byte>)
    requires Progresses(look) && Prefixed(look) && Open(Parse(look, a).status)
    ensures var first := Parse(look, a);
            Parse(look, a + b) == After(first.calls, Parse(look, first.rest + b))
    decreases |a|
  {
    assert PrefixedAt(look, a, b);
    match look(a) {
      case Stop(_) => AfterBoth([], [], Parse(look, a + b));
      case Take(size, calls) =>
        assert (a + b)[size..] == a[size..] + b;
        ParseResumes(look, a[size..], b);
        var first := Parse(look, a[size..]);
        AfterBoth(calls, first.calls, Parse(look, first.rest + b));
    }
  }

  /** A stream that has gone wrong stays wrong, whatever follows. */
  lemma {:induction false} ParseStaysClosed(look: seq<byte> -> Front, a: seq<byte>, b: seq<byte>)
    requires Progresses(look) && Prefixed(look) && !Open(Parse(look, a).status)
    ensures Parse(look, a + b) == Parse(look, a).(rest := Parse(look, a).rest + b)
    decreases |a|
  {
    assert PrefixedAt(look, a, b);
    match look(a) {
      case Stop(_) =>
      case Take(size, calls) =>
        assert (a + b)[size..] == a[size..] + b;
        ParseStaysClosed(look, a[size..], b);
    }
  }

  /** Chunk after chunk is put behind what the previous pass left, and parsed; nothing is
      parsed any more once the connection is closed. */
  function Feed(look: seq<byte> -> Front, rest: seq<byte>, chunks: seq<seq<byte>>): (r: Parsed)
    requires Progresses(look)
    decreases |chunks|
  {
    if chunks == [] then Parse(look, rest) else
    var first := Parse(look, rest + chunks[0]);
    if !Open(first.status) then first else
    After(first.calls, Feed(look, first.rest, chunks[1..]))
  }

  /** What a pass leaves when it stays open is not parsed any further by another pass. */
  lemma {:induction false} RestStops(look: seq<byte> -> Front, data: seq<byte>)
    requires Progresses(look)
    ensures var p := Parse(look, data);
            look(p.rest) == Stop(p.status) && Parse(look, p.rest) == Parsed([], p.rest, p.status)
    decreases |data|
  {
    match look(data) {
      case Stop(_) =>
      case Take(size, _) => RestStops(look, data[size..]);
    }
  }

  /** Fragmentation independence: however the bytes are cut into chunks, the same calls are
      made and the same bytes are left as when they arrive all at once. */
  lemma {:induction false} FragmentationIndependent(look: seq<byte> -> Front, rest: seq<byte>, chunks: seq<seq<byte>>)
    requires Progresses(look) && Prefixed(look) && Open(Parse(look, rest).status)
    ensures var whole := Parse(look, rest + Concat(chunks));
            var fed := Feed(look, rest, chunks);
            && fed.calls == whole.calls && fed.status == whole.status
            && (Open(whole.status) ==> fed.rest == whole.rest)
    decreases |chunks|
  {
    if chunks == [] {
      assert rest + Concat(chunks) == rest;
    } else {
      var tail := Concat(chunks[1..]);
      assert rest + Concat(chunks) == (rest + chunks[0]) + tail;
      var first := Parse(look, rest + chunks[0]);
      if Open(first.status) {
        ParseResumes(look, rest + chunks[0], tail);
        RestStops(look, rest + chunks[0]);
        FragmentationIndependent(look, first.rest, chunks[1..]);
      } else {
        ParseStaysClosed(look, rest + chunks[0], tail);
      }
    }
  }

  /** Pieces that are each taken whole, whatever follows them, make their calls in order,
      and what follows them is parsed next. */
  lemma {:induction false} PiecesParsed(look: seq<byte> -> Front, ws: seq<seq<byte>>,
                                        css: seq<seq<Call>>, tail: seq<byte>)
    requires Progresses(look) && |ws| == |css|
    requires forall i, more :: 0 <= i < |ws| ==> TakenWhole(look, ws[i], css[i], more)
    ensures Parse(look, Concat(ws) + tail) == After(Concat(css), Parse(look, tail))
    decreases |ws|
  {
    if ws == [] {
      assert Concat(ws) + tail == tail;
      AfterBoth([], [], Parse(look, tail));
    } else {
      var rest := Concat(ws[1..]) + tail;
      assert Concat(ws) + tail == ws[0] + rest;
      PieceParsed(look, ws[0], css[0], rest);
      forall i, more | 0 <= i < |ws[1..]|
        ensures TakenWhole(look, ws[1..][i], css[1..][i], more)
      {
        assert TakenWhole(look, ws[i + 1], css[i + 1], more);
      }
      PiecesParsed(look, ws[1..], css[1..], tail);
      AfterBoth(css[0], Concat(css[1..]), Parse(look, tail));
    }
  }
}
