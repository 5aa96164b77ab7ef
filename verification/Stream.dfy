/** The round trip over the byte stream: archived packages, concatenated, cut anywhere and
    parsed again, give back their bodies with their tags, in order. */
module Stream {
  import opened Bytes
  import opened Package
  import opened Framing
  import opened Dispatcher

  /** The bytes `w` are package `p` as a connection of this version with these handlers can
      read it; a package without bodies needs no handler. */
  ghost predicate Readable(w: seq<byte>, p: Pkg, ver: byte, kinds: map<nat, Kind>)
  {
    && |w| >= HDR_SIZE && p.ver == ver
    && Decode(w) == Header(|w|, p.opcode, p.tag, NORMAL_PKG, p.ver)
    && w[HDR_SIZE..] == Concat(p.bodies)
    && (p.bodies != [] ==>
          && p.opcode in kinds
          && forall i :: 0 <= i < |p.bodies| ==> IsBody(kinds[p.opcode], p.bodies[i]))
  }

  ghost predicate AllReadable(ws: seq<seq<byte>>, ps: seq<Pkg>, ver: byte, kinds: map<nat, Kind>)
  {
    |ws| == |ps| && forall i :: 0 <= i < |ws| ==> Readable(ws[i], ps[i], ver, kinds)
  }

  /** What an archive serializes is readable where its kind is registered. */
  lemma ArchivedIsReadable(w: seq<byte>, p: Pkg, kinds: map<nat, Kind>)
    requires p.opcode in kinds && IsPackage(w, p, kinds[p.opcode])
    ensures Readable(w, p, p.ver, kinds)
  {
  }

  /** The handler calls that packages stand for, one for each body. */
  function CallLists(ps: seq<Pkg>): seq<seq<Call>>
  {
    seq(|ps|, i requires 0 <= i < |ps| => Calls(ps[i].opcode, ps[i].tag, ps[i].bodies))
  }

  function AllCalls(ps: seq<Pkg>): seq<Call>
  {
    Concat(CallLists(ps))
  }

  /** One body in front of others is found first. */
  lemma BodyFirst(k: Kind, b: seq<byte>, rest: seq<byte>, size: nat)
    requires Sound(k) && IsBody(k, b) && size <= |rest|
    ensures Bodies(k, b + rest, |b| + size) ==
            match Bodies(k, rest, size)
            case None => None
            case Some(bs) => Some([b] + bs)
  {
    SoundExtends(k, b, rest);
    assert (b + rest)[..|b|] == b && (b + rest)[|b|..] == rest;
  }

  lemma {:induction false} BodiesOfConcat(k: Kind, bodies: seq<seq<byte>>, more: seq<byte>)
    requires Sound(k) && forall i :: 0 <= i < |bodies| ==> IsBody(k, bodies[i])
    ensures Bodies(k, Concat(bodies) + more, |Concat(bodies)|) == Some(bodies)
    decreases |bodies|
  {
    if bodies == [] {
    } else {
      var later := Concat(bodies[1..]);
      assert Concat(bodies) + more == bodies[0] + (later + more);
      BodiesOfConcat(k, bodies[1..], more);
      BodyFirst(k, bodies[0], later + more, |later|);
      assert [bodies[0]] + bodies[1..] == bodies;
    }
  }

  lemma PackageBodies(w: seq<byte>, p: Pkg, k: Kind, more: seq<byte>)
    requires Sound(k) && |w| >= HDR_SIZE && w[HDR_SIZE..] == Concat(p.bodies)
    requires forall i :: 0 <= i < |p.bodies| ==> IsBody(k, p.bodies[i])
    ensures Bodies(k, (w + more)[HDR_SIZE..], |w| - HDR_SIZE) == Some(p.bodies)
    ensures |w| > HDR_SIZE <==> p.bodies != []
  {
    assert (w + more)[HDR_SIZE..] == Concat(p.bodies) + more;
    BodiesOfConcat(k, p.bodies, more);
  }

  /** A whole package at the front is taken, with exactly its calls. */
  lemma PackageTaken(w: seq<byte>, p: Pkg, ver: byte, kinds: map<nat, Kind>, more: seq<byte>)
    requires AllSound(kinds) && Readable(w, p, ver, kinds)
    ensures TakenWhole(Rule(ver, kinds), w, Calls(p.opcode, p.tag, p.bodies), more)
  {
    DecodePrefix(w, more);
    RuleCases(Rule(ver, kinds), w + more, ver, kinds);
    if p.bodies != [] {
      PackageBodies(w, p, kinds[p.opcode], more);
    }
  }

  /** An unfinished package at the front stops the pass and keeps the connection open. */
  lemma UnfinishedStops(w: seq<byte>, p: Pkg, ver: byte, kinds: map<nat, Kind>, t: seq<byte>)
    requires Readable(w, p, ver, kinds) && t < w
    ensures Rule(ver, kinds)(t).Stop? && Open(Rule(ver, kinds)(t).status)
  {
  }

  /** Round trip: whole packages give their calls, and what follows them is parsed next. */
  lemma RoundTrip(ws: seq<seq<byte>>, ps: seq<Pkg>, ver: byte, kinds: map<nat, Kind>, tail: seq<byte>)
    requires AllSound(kinds) && AllReadable(ws, ps, ver, kinds) && Progresses(Rule(ver, kinds))
    ensures Parse(Rule(ver, kinds), Concat(ws) + tail) == After(AllCalls(ps), Parse(Rule(ver, kinds), tail))
  {
    var look, css := Rule(ver, kinds), CallLists(ps);
    forall i, more | 0 <= i < |ws|
      ensures TakenWhole(look, ws[i], css[i], more)
    {
      PackageTaken(ws[i], ps[i], ver, kinds, more);
    }
    PiecesParsed(look, ws, css, tail);
  }

  /** Any first part of the stream is some whole packages and an unfinished one. */
  ghost predicate Split(ws: seq<seq<byte>>, data: seq<byte>, n: nat, t: seq<byte>)
  {
    n <= |ws| && data == Concat(ws[..n]) + t && (if n == |ws| then t == [] else t < ws[n])
  }

  lemma {:induction false} SplitExists(ws: seq<seq<byte>>, data: seq<byte>) returns (n: nat, t: seq<byte>)
    requires data <= Concat(ws) && forall i :: 0 <= i < |ws| ==> ws[i] != []
    ensures Split(ws, data, n, t)
    decreases |ws|
  {
    if ws == [] {
      n, t := 0, [];
    } else if |data| < |ws[0]| {
      n, t := 0, data;
      assert data < ws[0];
    } else {
      var rest := data[|ws[0]|..];
      assert data == ws[0] + rest;
      assert rest <= Concat(ws[1..]) by {
        assert Concat(ws)[|ws[0]|..] == Concat(ws[1..]);
      }
      n, t := SplitExists(ws[1..], rest);
      assert ws[..n + 1] == [ws[0]] + ws[1..][..n];
      assert Concat(ws[..n + 1]) == ws[0] + Concat(ws[1..][..n]) by {
        assert ws[..n + 1][1..] == ws[1..][..n];
      }
      n := n + 1;
    }
  }

  /** However much of the stream has arrived, the calls are those of the whole packages in
      it, and what is left is exactly the unfinished package behind them. */
  lemma PrefixParsed(ws: seq<seq<byte>>, ps: seq<Pkg>, ver: byte, kinds: map<nat, Kind>, data: seq<byte>)
    returns (n: nat, t: seq<byte>)
    requires AllSound(kinds) && AllReadable(ws, ps, ver, kinds) && data <= Concat(ws)
    ensures Progresses(Rule(ver, kinds)) && Prefixed(Rule(ver, kinds)) && Split(ws, data, n, t)
    ensures var p := Parse(Rule(ver, kinds), data);
            p.calls == AllCalls(ps[..n]) && p.rest == t && Open(p.status)
  {
    RuleIsSound(ver, kinds);
    n, t := SplitExists(ws, data);
    RoundTrip(ws[..n], ps[..n], ver, kinds, t);
    if n < |ws| {
      UnfinishedStops(ws[n], ps[n], ver, kinds, t);
    } else {
      RuleCases(Rule(ver, kinds), t, ver, kinds);
    }
    assert AllCalls(ps[..n]) + [] == AllCalls(ps[..n]);
  }

  /** Round trip and fragmentation independence together: any first part of the stream, cut
      into any chunks, makes exactly the calls of its whole packages. */
  lemma ChunksParsed(ws: seq<seq<byte>>, ps: seq<Pkg>, ver: byte, kinds: map<nat, Kind>, chunks: seq<seq<byte>>)
    returns (n: nat, t: seq<byte>)
    requires AllSound(kinds) && AllReadable(ws, ps, ver, kinds) && Concat(chunks) <= Concat(ws)
    ensures Progresses(Rule(ver, kinds)) && Split(ws, Concat(chunks), n, t)
    ensures var fed := Feed(Rule(ver, kinds), [], chunks);
            fed.calls == AllCalls(ps[..n]) && fed.rest == t && Open(fed.status)
  {
    n, t := PrefixParsed(ws, ps, ver, kinds, Concat(chunks));
    assert [] + Concat(chunks) == Concat(chunks);
    RuleCases(Rule(ver, kinds), [], ver, kinds);
    FragmentationIndependent(Rule(ver, kinds), [], chunks);
  }

  /** Receive never stalls: what is left is shorter than the block, if every package was
      built inside one block. */
  lemma RoomIsLeft(ws: seq<seq<byte>>, ps: seq<Pkg>, ver: byte, kinds: map<nat, Kind>, data: seq<byte>, size: nat)
    requires AllSound(kinds) && AllReadable(ws, ps, ver, kinds) && data <= Concat(ws) && size > 0
    requires forall i :: 0 <= i < |ws| ==> |ws[i]| <= size
    ensures Progresses(Rule(ver, kinds)) && |Parse(Rule(ver, kinds), data).rest| < size
  {
    var n, t := PrefixParsed(ws, ps, ver, kinds, data);
  }
}
