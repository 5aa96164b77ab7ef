/** The reorder buffer refines a set: the numbers a receiver has accepted.  `latest`,
    `unvalidBegin`, `unvalidEnd` and the vector of slots are a function of that set. */
module ReorderBuffer {
  import opened Ring
  import opened Bytes
  import opened RmpWire
  import opened RmpReceiver

  /** The first number whose slot may be in use. */
  function Base(r: Receiver): nat
  {
    if r.validBegin > 0 then r.validBegin else r.latest + 2
  }

  /** Number `i` waits in the buffer, either to be handed over or ahead of a gap. */
  predicate Live(r: Receiver, accepted: set<nat>, i: nat)
  {
    (r.validBegin > 0 && r.validBegin <= i <= r.validEnd) || (r.latest < i && i in accepted)
  }

  /** `latest` is the largest k such that 1..k were all accepted. */
  ghost predicate LatestIsPrefix(r: Receiver, accepted: set<nat>)
  {
    && (forall k :: 1 <= k <= r.latest ==> k in accepted)
    && r.latest + 1 !in accepted
  }

  /** `unvalidBegin` and `unvalidEnd` are the least and the greatest number accepted
      above `latest`, and both zero when there is none. */
  ghost predicate BoundsAreExtremes(r: Receiver, accepted: set<nat>)
  {
    if r.unvalidBegin == 0
    then r.unvalidEnd == 0 && forall a :: a in accepted ==> a <= r.latest
    else && r.latest < r.unvalidBegin && r.unvalidBegin in accepted && r.unvalidEnd in accepted
         && forall a :: a in accepted && r.latest < a ==> r.unvalidBegin <= a <= r.unvalidEnd
  }

  /** The slots of the window hold exactly the live packets. */
  ghost predicate SlotsHoldLive(r: Receiver, accepted: set<nat>, sent: seq<Packet>)
  {
    && |r.slots| > 0
    && forall i :: Base(r) <= i < Base(r) + |r.slots| ==>
         At(r.slots, i) == if Live(r, accepted, i) && 0 < i <= |sent| then Some(sent[i - 1]) else None
  }

  /** Packets are numbered from one: packet k is `sent[k - 1]`. */
  ghost predicate Represents(r: Receiver, accepted: set<nat>, sent: seq<Packet>)
  {
    && (forall a :: a in accepted ==> 1 <= a <= |sent| && a < Base(r) + |r.slots|)
    && LatestIsPrefix(r, accepted)
    && BoundsAreExtremes(r, accepted)
    && SlotsHoldLive(r, accepted, sent)
    && (if r.validBegin == 0 then r.validEnd == 0
        else r.validEnd == r.latest && 2 <= r.validBegin <= r.latest + 1)
  }

  /** The representation does not look at the block, the acknowledgements or the clocks. */
  lemma SameBuffer(r: Receiver, r': Receiver, accepted: set<nat>, sent: seq<Packet>)
    requires Represents(r, accepted, sent)
    requires r' == r.(block := r'.block, confirmed := r'.confirmed,
                      lastAckTime := r'.lastAckTime, lastNakTime := r'.lastNakTime)
    ensures Represents(r', accepted, sent)
  {
  }

  /** The accepted numbers once datagram `s` has been handled. */
  function Accept(r: Receiver, accepted: set<nat>, s: nat): set<nat>
  {
    if s <= r.latest + |r.slots| || forall a :: a in accepted ==> a <= r.latest then accepted + {s} else accepted
  }

  lemma FreshRepresents(id: nat, ackCnt: nat, size: nat)
    requires size > 0
    ensures Represents(Fresh(id, ackCnt, size), {}, [])
  {
  }

  /** Packets sent later do not disturb the representation. */
  lemma MoreSent(r: Receiver, accepted: set<nat>, sent: seq<Packet>, p: Packet)
    requires Represents(r, accepted, sent)
    ensures Represents(r, accepted, sent + [p])
  {
    forall i | Base(r) <= i < Base(r) + |r.slots|
      ensures At(r.slots, i)
              == if Live(r, accepted, i) && 0 < i <= |sent + [p]| then Some((sent + [p])[i - 1]) else None
    {
      if Live(r, accepted, i) {
        assert i in accepted;
      }
    }
  }

  /** The window moves up by one when its first number is not live: the slot it frees
      serves the number one full turn ahead. */
  lemma WindowStep(slots: seq<Option<Packet>>, base: nat)
    requires |slots| > 0
    ensures At(slots, base + |slots|) == At(slots, base)
  {
    SameSlot(base, |slots|);
  }

  /** The in-order datagram when the buffer does not continue it. */
  lemma InOrderAlone(r: Receiver, accepted: set<nat>, sent: seq<Packet>, b: Option<Packet>)
    requires Represents(r, accepted, sent) && r.validBegin == 0
    requires r.latest + 1 <= |sent| && r.latest + 2 != r.unvalidBegin
    ensures Represents(r.(latest := r.latest + 1, block := b), accepted + {r.latest + 1}, sent)
  {
    WindowStep(r.slots, r.latest + 2);
    assert r.latest + 2 !in accepted;
  }

  /** The first scan stops at the end of the accepted run. */
  lemma RunEnd(r: Receiver, accepted: set<nat>, sent: seq<Packet>)
    requires Represents(r, accepted, sent) && r.validBegin == 0 && r.latest + 2 == r.unvalidBegin
    ensures var ve := ScanValidEnd(r.slots, r.unvalidBegin, r.unvalidEnd);
            && r.unvalidBegin <= ve <= r.unvalidEnd && ve + 1 !in accepted
            && forall i :: r.unvalidBegin <= i <= ve ==> i in accepted
  {
    var ve := ScanValidEnd(r.slots, r.unvalidBegin, r.unvalidEnd);
    forall i | r.unvalidBegin < i <= ve
      ensures i in accepted
    {
      assert At(r.slots, i).Some?;
    }
    if ve < r.unvalidEnd {
      assert At(r.slots, ve + 1).None?;
    }
  }

  /** The second scan stops at the next accepted number. */
  lemma NextIsland(r: Receiver, accepted: set<nat>, sent: seq<Packet>, ve: nat)
    requires Represents(r, accepted, sent) && r.validBegin == 0
    requires r.unvalidBegin <= ve < r.unvalidEnd && ve + 1 !in accepted
    ensures var ub := ScanUnvalidBegin(r.slots, ve + 1, r.unvalidEnd);
            && ve < ub <= r.unvalidEnd && ub in accepted
            && forall i :: ve < i < ub ==> i !in accepted
  {
    var ub := ScanUnvalidBegin(r.slots, ve + 1, r.unvalidEnd);
    forall i | ve < i < ub
      ensures i !in accepted
    {
      assert At(r.slots, i).None?;
    }
    if ub < r.unvalidEnd {
      assert At(r.slots, ub).Some?;
    }
  }

  /** Handing a run over leaves the slots as they are, and the same numbers live. */
  lemma SlotsKept(r: Receiver, r': Receiver, accepted: set<nat>, accepted': set<nat>, sent: seq<Packet>)
    requires SlotsHoldLive(r, accepted, sent) && r.slots == r'.slots && Base(r) == Base(r')
    requires forall i :: i >= Base(r) ==> (Live(r', accepted', i) <==> Live(r, accepted, i))
    ensures SlotsHoldLive(r', accepted', sent)
  {
  }

  /** What activating the buffered run leaves: the bounds enclose what is still ahead. */
  lemma ActivateShape(r: Receiver, accepted: set<nat>, sent: seq<Packet>, r': Receiver)
    requires Represents(r, accepted, sent) && r.validBegin == 0
    requires r.latest + 2 == r.unvalidBegin && r' == Activate(r.(latest := r.latest + 1))
    ensures r' == r.(validBegin := r.unvalidBegin, validEnd := r'.latest, latest := r'.latest,
                     unvalidBegin := r'.unvalidBegin, unvalidEnd := r'.unvalidEnd)
    ensures r.unvalidBegin <= r'.latest <= r.unvalidEnd && r'.latest + 1 !in accepted
    ensures forall i :: r.unvalidBegin <= i <= r'.latest ==> i in accepted
    ensures BoundsAreExtremes(r', accepted)
  {
    var ve := ScanValidEnd(r.slots, r.unvalidBegin, r.unvalidEnd);
    RunEnd(r, accepted, sent);
    if ve < r.unvalidEnd {
      NextIsland(r, accepted, sent, ve);
    }
  }

  /** The in-order datagram when a buffered run continues it. */
  lemma InOrderActivates(r: Receiver, accepted: set<nat>, sent: seq<Packet>, b: Option<Packet>)
    requires Represents(r, accepted, sent) && r.validBegin == 0
    requires r.latest + 1 <= |sent| && r.latest + 2 == r.unvalidBegin
    ensures Represents(Activate(r.(latest := r.latest + 1, block := b)), accepted + {r.latest + 1}, sent)
  {
    var r1 := Activate(r.(latest := r.latest + 1));
    ActivateShape(r, accepted, sent, r1);
    var r' := r1.(block := b);
    assert r' == Activate(r.(latest := r.latest + 1, block := b));
    var accepted' := accepted + {r.latest + 1};
    assert BoundsAreExtremes(r', accepted') && LatestIsPrefix(r', accepted');
    SlotsKept(r, r', accepted, accepted', sent);
  }

  /** A datagram ahead of a gap, inside the window: it goes into a slot of its own, which
      is empty or already holds this very packet. */
  lemma AheadKept(r: Receiver, accepted: set<nat>, sent: seq<Packet>, s: nat)
    requires Represents(r, accepted, sent) && r.validBegin == 0
    requires r.latest + 1 < s <= |sent| && s <= r.latest + 1 + |r.slots| && Keeps(r, s)
    ensures At(r.slots, s) == None || At(r.slots, s) == Some(sent[s - 1])
    ensures Represents(Buffer(r, s, sent[s - 1]), accepted + {s}, sent)
  {
    PutFrame(r.slots, s, Some(sent[s - 1]), Base(r));
    var r' := Buffer(r, s, sent[s - 1]);
    assert Base(r') == Base(r);
    assert At(r'.slots, s) == Some(sent[s - 1]);
  }

  /** The in-order datagram. */
  lemma InOrder(r: Receiver, accepted: set<nat>, sent: seq<Packet>, p: Packet)
    requires Represents(r, accepted, sent) && r.validBegin == 0 && r.latest + 1 <= |sent|
    ensures Represents(Activate(r.(latest := r.latest + 1, block := Some(p))), accepted + {r.latest + 1}, sent)
  {
    if r.latest + 2 == r.unvalidBegin {
      InOrderActivates(r, accepted, sent, Some(p));
    } else {
      InOrderAlone(r, accepted, sent, Some(p));
    }
  }

  /** Every number of the window ahead of the next is kept, in its slot and within the bounds. */
  lemma WindowKept(r: Receiver, accepted: set<nat>, sent: seq<Packet>, s: nat)
    requires Represents(r, accepted, sent) && r.validBegin == 0
    requires r.latest + 1 < s <= |sent| && s <= r.latest + |r.slots|
    ensures var r' := OnData(r, s, sent[s - 1]).0;
            At(r'.slots, s) == Some(sent[s - 1]) && r'.latest < r'.unvalidBegin <= s <= r'.unvalidEnd
  {
    KeptExactly(r, s, sent[s - 1]);
  }

  /** What is kept is what joins the accepted numbers. */
  lemma AcceptsWhatIsKept(r: Receiver, accepted: set<nat>, sent: seq<Packet>, s: nat)
    requires Represents(r, accepted, sent) && 1 <= s <= r.latest + 1 + |r.slots|
    ensures Accept(r, accepted, s)
            == if s == r.latest + 1 || (s > r.latest && Keeps(r, s)) then accepted + {s} else accepted
  {
    if s <= r.latest {
      assert accepted + {s} == accepted;
    } else if s > r.latest + |r.slots| && s in accepted {
      assert accepted + {s} == accepted;
    }
  }

  /** One data datagram within the window: the buffer represents the set with the number
      added when it is accepted, and the unchanged set when it is not. */
  lemma DataStep(r: Receiver, accepted: set<nat>, sent: seq<Packet>, s: nat)
    requires Represents(r, accepted, sent) && r.validBegin == 0
    requires 1 <= s <= |sent| && s <= r.latest + 1 + |r.slots|
    ensures Represents(OnData(r, s, sent[s - 1]).0, Accept(r, accepted, s), sent)
  {
    AcceptsWhatIsKept(r, accepted, sent, s);
    if s == r.latest + 1 {
      InOrder(r, accepted, sent, sent[s - 1]);
    } else if s > r.latest && Keeps(r, s) {
      AheadKept(r, accepted, sent, s);
    } else {
      SameBuffer(r, r.(block := None), accepted, sent);
    }
  }

  /** Taking the first live number out of its slot moves the window up by one. */
  lemma SlotTaken(r: Receiver, accepted: set<nat>, sent: seq<Packet>)
    requires Represents(r, accepted, sent) && 0 < r.validBegin <= r.validEnd
    ensures Represents(r.(slots := Put(r.slots, r.validBegin, None), validBegin := r.validBegin + 1), accepted, sent)
  {
    var r' := r.(slots := Put(r.slots, r.validBegin, None), validBegin := r.validBegin + 1);
    PutFrame(r.slots, r.validBegin, None, r.validBegin);
    WindowStep(r'.slots, r.validBegin);
    assert r.validBegin + |r.slots| !in accepted;
  }

  /** Ending the drain moves the window past the missing number. */
  lemma DrainEnded(r: Receiver, accepted: set<nat>, sent: seq<Packet>)
    requires Represents(r, accepted, sent) && (r.validBegin == 0 || r.validEnd < r.validBegin)
    ensures Represents(r.(validBegin := 0, validEnd := 0), accepted, sent)
  {
    if r.validBegin > 0 {
      WindowStep(r.slots, r.latest + 1);
    }
  }

  /** A buffered packet that is handed over is the one with the number it stands for. */
  lemma NextHandsOver(r: Receiver, accepted: set<nat>, sent: seq<Packet>)
    requires Represents(r, accepted, sent)
    requires NextData(r).1.Got? && !(r.block.Some? && r.block.value != [])
    ensures 0 < r.validBegin <= r.latest <= |sent| && NextData(r).1.data == Some(sent[r.validBegin - 1])
  {
    assert r.latest in accepted && Live(r, accepted, r.validBegin);
  }

  /** One call for the next received data keeps the representation, and reports the end
      only when nothing is left to hand over. */
  lemma NextStep(r: Receiver, accepted: set<nat>, sent: seq<Packet>)
    requires Represents(r, accepted, sent)
    ensures Represents(NextData(r).0, accepted, sent)
    ensures NextData(r).1.NoData? ==>
              NextData(r).0.validBegin == 0 && (r.validBegin == 0 || r.validBegin == r.latest + 1)
  {
    if r.block.Some? && r.block.value != [] {
      SameBuffer(r, NextData(r).0, accepted, sent);
    } else if 0 < r.validBegin <= r.validEnd {
      SlotTaken(r, accepted, sent);
    } else {
      DrainEnded(r, accepted, sent);
      var r0 := r.(validBegin := 0, validEnd := 0);
      SameBuffer(r0, NextData(r).0, accepted, sent);
    }
  }
}
