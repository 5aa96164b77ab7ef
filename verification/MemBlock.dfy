/** The fixed-size memory block that every layer reads and writes in place: an offset,
    a length, and bytes before the offset that can be taken back as headers. */
module MemBlock {
  import opened Bytes

  const MAX_MEM_SIZE := 32768

  /** What a block is worth to its users: the bytes in front of the offset, the
      contents, and the size of the whole block. */
  datatype Block = Block(front: seq<byte>, data: seq<byte>, size: nat)

  predicate Fits(b: Block)
  {
    |b.front| + |b.data| <= b.size
  }

  function TailFree(b: Block): int
  {
    b.size - (|b.data| + |b.front|)
  }

  function MoveAhead(b: Block): Block
  {
    b.(front := [])
  }

  function Append(b: Block, bytes: seq<byte>): (res: (Block, bool))
  {
    if b.size - |b.data| < |bytes| then (b, false)
    else ((if TailFree(b) < |bytes| then MoveAhead(b) else b).(data := b.data + bytes), true)
  }

  function DecHead(b: Block, n: nat): Block
    requires n <= |b.data|
  {
    b.(front := b.front + b.data[..n], data := b.data[n..])
  }

  function IncHead(b: Block, n: nat): (res: (Block, bool))
  {
    if n > |b.front| then (b, false)
    else (b.(front := b.front[..|b.front| - n], data := b.front[|b.front| - n..] + b.data), true)
  }

  /** `append` succeeds exactly when the whole free space suffices, and then yields the
      old contents followed by the new, also when it has to move the contents first. */
  lemma AppendMeaning(b: Block, bytes: seq<byte>)
    requires Fits(b)
    ensures var (b', ok) := Append(b, bytes);
            && (ok <==> |b.data| + |bytes| <= b.size)
            && (ok ==> b'.data == b.data + bytes) && (!ok ==> b' == b)
            && Fits(b') && b'.size == b.size
            && (b'.front == b.front || (ok && b'.front == [] && |b.front| + |b.data| + |bytes| > b.size))
  {
  }

  /** Taking bytes off the head can be undone, as long as the contents were not moved:
      data appended in between stays behind what comes back. */
  lemma IncUndoesDec(b: Block, n: nat, bytes: seq<byte>)
    requires Fits(b) && n <= |b.data| && |b.front| + |b.data| + |bytes| <= b.size
    ensures IncHead(Append(DecHead(b, n), bytes).0, n) == (b.(data := b.data + bytes), true)
  {
    var d := DecHead(b, n);
    assert d.front[..|d.front| - n] == b.front;
    assert d.front[|d.front| - n..] + (d.data + bytes) == b.data + bytes;
  }

  /** After a move nothing can be taken back. */
  lemma MoveForgets(b: Block, n: nat)
    ensures IncHead(MoveAhead(b), n).1 <==> n == 0
  {
  }

  class Mem {
    const bytes: array<byte>
    var initOffset: nat
    var offset: nat
    var len: nat

    ghost predicate Valid()
      reads this
    {
      offset + len <= bytes.Length
    }

    function Contents(): seq<byte>
      reads this, bytes
      requires Valid()
    {
      bytes[offset..offset + len]
    }

    function View(): Block
      reads this, bytes
      requires Valid()
    {
      Block(bytes[..offset], Contents(), bytes.Length)
    }

    constructor (size: nat, start: nat)
      requires start <= size
      ensures Valid() && fresh(bytes) && bytes.Length == size
      ensures initOffset == offset == start && len == 0
    {
      bytes := new byte[size];
      initOffset, offset, len := start, start, 0;
    }

    method MoveDataAhead()
      requires Valid()
      modifies `offset, bytes
      ensures Valid() && View() == MoveAhead(old(View()))
    {
      if offset > 0 {
        forall i | 0 <= i < len {
          bytes[i] := bytes[offset + i];
        }
        offset := 0;
      }
    }

    method DecHeadData(n: nat)
      requires Valid() && n <= len
      modifies `offset, `len
      ensures Valid() && View() == DecHead(old(View()), n) && Contents() == old(Contents())[n..]
    {
      assert bytes[..offset + n] == bytes[..offset] + Contents()[..n];
      offset := offset + n;
      len := len - n;
    }

    method IncHeadData(n: nat) returns (ok: bool)
      requires Valid()
      modifies `offset, `len
      ensures Valid() && (View(), ok) == IncHead(old(View()), n)
    {
      if n > offset {
        return false;
      }
      ghost var front := bytes[..offset];
      assert front[..offset - n] == bytes[..offset - n] && front[offset - n..] == bytes[offset - n..offset];
      assert bytes[offset - n..offset + len] == bytes[offset - n..offset] + bytes[offset..offset + len];
      offset := offset - n;
      len := len + n;
      ok := true;
    }

    method AppendBytes(more: seq<byte>) returns (ok: bool)
      requires Valid()
      modifies `offset, `len, bytes
      ensures Valid() && (View(), ok) == Append(old(View()), more)
    {
      if bytes.Length - len < |more| {
        return false;
      }
      if bytes.Length - (len + offset) < |more| {
        MoveDataAhead();
      }
      FillTail(more);
      ok := true;
    }

    /** The memory behind the contents. */
    function Tail(): seq<byte>
      reads this, bytes
      requires Valid()
    {
      bytes[offset + len..]
    }

    /** Writes over part of the contents. */
    method Overwrite(at: nat, more: seq<byte>)
      requires Valid() && at + |more| <= len
      modifies bytes
      ensures Contents() == old(Contents()[..at]) + more + old(Contents()[at + |more|..])
      ensures Tail() == old(Tail())
    {
      ghost var before, tail := Contents(), Tail();
      forall i | 0 <= i < |more| {
        bytes[offset + at + i] := more[i];
      }
      assert Contents() == before[..at] + more + before[at + |more|..];
      assert Tail() == tail;
    }

    /** Writes into the memory behind the contents, without making it part of them. */
    method WriteTail(more: seq<byte>)
      requires Valid() && |more| <= bytes.Length - (len + offset)
      modifies bytes
      ensures bytes[..offset] == old(bytes[..offset])
      ensures Contents() == old(Contents()) && Tail() == more + old(Tail()[|more|..])
    {
      ghost var before, tail := Contents(), Tail();
      forall i | 0 <= i < |more| {
        bytes[offset + len + i] := more[i];
      }
      assert Contents() == before;
      assert Tail() == more + tail[|more|..];
    }

    /** Takes `n` bytes of the memory behind the contents into them. */
    method IncLen(n: nat)
      requires Valid() && n <= bytes.Length - (len + offset)
      modifies `len
      ensures Valid() && len == old(len) + n && Contents() == old(Contents()) + old(Tail())[..n]
    {
      ghost var before, tail := Contents(), Tail();
      len := len + n;
      assert Contents() == before + tail[..n];
    }

    /** The receiving thread has `more` written behind the contents and extends the length. */
    method FillTail(more: seq<byte>)
      requires Valid() && |more| <= bytes.Length - (len + offset)
      modifies `len, bytes
      ensures Valid() && View() == old(View()).(data := old(Contents()) + more)
    {
      ghost var front := bytes[..offset];
      WriteTail(more);
      assert bytes[..offset] == front;
      IncLen(|more|);
    }

    method Reset(useInitOffset: bool)
      requires Valid() && initOffset <= bytes.Length
      modifies `offset, `len
      ensures Valid() && offset == (if useInitOffset then initOffset else 0) && Contents() == []
    {
      offset := if useInitOffset then initOffset else 0;
      len := 0;
    }
  }
}
