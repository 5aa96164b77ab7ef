/** The writer of packages: header first, then body after body in the same block, the
    length filled in at the end. */
module Archive {
  import opened Bytes
  import opened MemBlock
  import opened Package

  /** The setters of a header that lies at the front of a block: each changes its own
      field in place and nothing behind the header. */
  method SetHdrLen(m: Mem, v: nat)
    requires m.Valid() && m.len >= HDR_SIZE && v < 0x1_0000_0000
    modifies m.bytes
    ensures |m.Contents()| == |old(m.Contents())| && m.Contents()[HDR_SIZE..] == old(m.Contents())[HDR_SIZE..]
    ensures Decode(m.Contents()) == Decode(old(m.Contents())).(len := v)
  {
    ghost var before := m.Contents();
    m.Overwrite(0, ToU32(v));
    assert m.Contents() == ToU32(v) + before[4..];
    SetLen(before, m.Contents(), v);
  }

  method SetHdrTag(m: Mem, v: nat)
    requires m.Valid() && m.len >= HDR_SIZE && v < 0x1_0000_0000
    modifies m.bytes
    ensures |m.Contents()| == |old(m.Contents())| && m.Contents()[HDR_SIZE..] == old(m.Contents())[HDR_SIZE..]
    ensures Decode(m.Contents()) == Decode(old(m.Contents())).(tag := v) && m.Tail() == old(m.Tail())
  {
    ghost var before := m.Contents();
    m.Overwrite(8, ToHost32(v));
    SetTag(before, m.Contents(), v);
  }

  method SetHdrKind(m: Mem, v: byte)
    requires m.Valid() && m.len >= HDR_SIZE
    modifies m.bytes
    ensures |m.Contents()| == |old(m.Contents())| && m.Contents()[HDR_SIZE..] == old(m.Contents())[HDR_SIZE..]
    ensures Decode(m.Contents()) == Decode(old(m.Contents())).(kind := v)
  {
    ghost var before := m.Contents();
    m.Overwrite(12, [v]);
    SetKind(before, m.Contents(), v);
  }

  /** Constructs a header in the free memory of an empty block. */
  method WriteHdr(m: Mem, h: Header)
    requires m.Valid() && m.len == 0 && m.offset + HDR_SIZE <= m.bytes.Length && Encodable(h)
    modifies m, m.bytes
    ensures m.Valid() && m.offset == old(m.offset)
    ensures |m.Contents()| == HDR_SIZE && Decode(m.Contents()) == h
  {
    ghost var raw := m.Tail()[..HDR_SIZE];
    var hdr := Encode(h, m.Tail()[..HDR_SIZE]);
    m.WriteTail(hdr);
    m.IncLen(HDR_SIZE);
    assert m.Contents() == hdr + [];
    HeaderRoundTrip(h, raw, []);
  }

  class Archiver {
    const opcode: nat
    const ver: byte
    const kind: Kind
    const initOffset: nat
    var mem: Mem?
    var pending: bool
    ghost var pkg: Pkg

    /** What is committed so far is a package but for its length field. */
    ghost predicate Valid()
      reads this, mem, if mem != null then {mem.bytes} else {}
    {
      && opcode < 0x1_0000 && initOffset + HDR_SIZE <= MAX_MEM_SIZE && Sound(kind)
      && pkg.opcode == opcode && pkg.ver == ver
      && (mem == null ==> !pending && pkg == Pkg(opcode, 0, ver, []))
      && (mem != null ==> Filled(mem))
      && (pending ==> mem != null && kind.maxSize <= mem.bytes.Length - (mem.len + mem.offset))
    }

    ghost predicate Filled(m: Mem)
      reads this, m, m.bytes
    {
      && m.Valid() && m.bytes.Length == MAX_MEM_SIZE && m.offset == initOffset
      && Holds(m.Contents(), pkg, kind)
    }

    /** The body being written: as much of the free memory as it says it takes. */
    ghost function PendingBody(): seq<byte>
      reads this, mem, if mem != null then {mem.bytes} else {}
      requires Valid() && pending
    {
      mem.Tail()[..kind.realSize(mem.Tail())]
    }

    ghost function Committed(): seq<seq<byte>>
      reads this, mem, if mem != null then {mem.bytes} else {}
      requires Valid()
    {
      if pending then WithBody(pkg.bodies, PendingBody()) else pkg.bodies
    }

    constructor (opcode: nat, ver: byte, kind: Kind, initOffset: nat)
      requires opcode < 0x1_0000 && initOffset + HDR_SIZE <= MAX_MEM_SIZE && Sound(kind)
      ensures Valid() && mem == null && !pending && pkg == Pkg(opcode, 0, ver, [])
    {
      this.opcode, this.ver, this.kind, this.initOffset := opcode, ver, kind, initOffset;
      mem, pending, pkg := null, false, Pkg(opcode, 0, ver, []);
    }

    method GetHdr()
      requires Valid()
      modifies this
      ensures Valid() && mem != null && pkg == old(pkg) && pending == old(pending)
      ensures old(mem) != null ==> mem == old(mem)
      ensures old(mem) == null ==> fresh(mem) && fresh(mem.bytes)
    {
      if mem != null {
        return;
      }
      var m := new Mem(MAX_MEM_SIZE, initOffset);
      WriteHdr(m, Header(0, opcode, 0, NORMAL_PKG, ver));
      HoldsHeader(m.Contents(), pkg, kind);
      mem := m;
    }

    /** The tag can be set at any time, also while a body is being written. */
    method SetTag(tag: nat)
      requires Valid() && mem != null && tag < 0x1_0000_0000
      modifies this, mem.bytes
      ensures Valid() && mem == old(mem) && pending == old(pending) && pkg == old(pkg).(tag := tag)
      ensures pending ==> PendingBody() == old(PendingBody())
    {
      ghost var before := mem.Contents();
      SetHdrTag(mem, tag);
      HoldsRewritten(before, mem.Contents(), pkg, kind, tag);
      pkg := pkg.(tag := tag);
    }

    /** Commits the body that was being written. */
    method BodyReady()
      requires Valid()
      modifies this, mem
      ensures Valid() && mem == old(mem) && !pending && pkg == old(pkg).(bodies := old(Committed()))
    {
      if !pending {
        return;
      }
      ghost var before, tail := mem.Contents(), mem.Tail();
      var size := kind.realSize(mem.Tail());
      HoldsMore(before, pkg, kind, tail);
      mem.IncLen(size);
      pkg := pkg.(bodies := WithBody(pkg.bodies, tail[..size]));
      pending := false;
    }

    /** Room for one more body, or false when the largest would not fit. */
    method GetNextBody() returns (ok: bool)
      requires Valid()
      modifies this, mem
      ensures Valid() && mem != null && pkg == old(pkg).(bodies := old(Committed())) && ok == pending
      ensures old(mem) != null ==> mem == old(mem)
      ensures old(mem) == null ==> fresh(mem) && fresh(mem.bytes)
      ensures ok <==> kind.maxSize <= MAX_MEM_SIZE - initOffset - HDR_SIZE - |Concat(pkg.bodies)|
    {
      if mem == null {
        GetHdr();
      }
      BodyReady();
      assert mem.len == |mem.Contents()| == HDR_SIZE + |mem.Contents()[HDR_SIZE..]|;
      if kind.maxSize > mem.bytes.Length - (mem.len + mem.offset) {
        return false;
      }
      pending := true;
      ok := true;
    }

    /** The application fills in the body it was given room for. */
    method WriteBody(b: seq<byte>)
      requires Valid() && pending && IsBody(kind, b)
      modifies mem.bytes
      ensures Valid() && PendingBody() == b
    {
      ghost var tail := mem.Tail();
      mem.WriteTail(b);
      assert mem.Tail() == b[..kind.realSize(b)] + tail[|b|..];
    }

    /** The finished package: exactly the committed bodies behind a header with the tag. */
    method Serialize() returns (m: Mem)
      requires Valid() && mem != null
      modifies this, mem, mem.bytes
      ensures Valid() && m == mem == old(mem) && !pending
      ensures pkg == old(pkg).(bodies := old(Committed()))
      ensures m.Valid() && IsPackage(m.Contents(), pkg, kind)
    {
      BodyReady();
      ghost var before := mem.Contents();
      SetHdrLen(mem, mem.len);
      SetHdrKind(mem, NORMAL_PKG);
      HoldsRewritten(before, mem.Contents(), pkg, kind, pkg.tag);
      m := mem;
    }
  }
}
