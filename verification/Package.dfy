/** Packages on the byte stream: a 16-byte header, then bodies of one kind. */
module Package {
  import opened Bytes

  const HDR_SIZE := 16
  const NORMAL_PKG: byte := 0

  /** The header fields; two bytes after the opcode and two at the end are padding. */
  datatype Header = Header(len: nat, opcode: nat, tag: nat, kind: byte, ver: byte)

  predicate Encodable(h: Header)
  {
    h.len < 0x1_0000_0000 && h.opcode < 0x1_0000 && h.tag < 0x1_0000_0000
  }

  /** Network byte order, most significant byte first. */
  function U16(a: byte, b: byte): nat
  {
    0x100 * a as nat + b as nat
  }

  function U32(a: byte, b: byte, c: byte, d: byte): nat
  {
    0x100_0000 * a as nat + 0x1_0000 * b as nat + 0x100 * c as nat + d as nat
  }

  function ToU16(v: nat): (bs: seq<byte>)
    requires v < 0x1_0000
    ensures |bs| == 2
  {
    [(v / 0x100) as byte, (v % 0x100) as byte]
  }

  function ToU32(v: nat): (bs: seq<byte>)
    requires v < 0x1_0000_0000
    ensures |bs| == 4
  {
    [(v / 0x100_0000) as byte, (v / 0x1_0000 % 0x100) as byte, (v / 0x100 % 0x100) as byte, (v % 0x100) as byte]
  }

  /** The order of the host, least significant byte first. */
  function ToHost32(v: nat): (bs: seq<byte>)
    requires v < 0x1_0000_0000
    ensures |bs| == 4
  {
    [ToU32(v)[3], ToU32(v)[2], ToU32(v)[1], ToU32(v)[0]]
  }

  lemma RoundTrip16(v: nat)
    requires v < 0x1_0000
    ensures U16(ToU16(v)[0], ToU16(v)[1]) == v
  {
  }

  lemma RoundTrip32(v: nat)
    requires v < 0x1_0000_0000
    ensures U32(ToU32(v)[0], ToU32(v)[1], ToU32(v)[2], ToU32(v)[3]) == v
  {
    var q := v / 0x100;
    assert v == 0x100 * q + v % 0x100;
    assert q == 0x100 * (q / 0x100) + q % 0x100;
    assert q / 0x100 == v / 0x1_0000 && q / 0x1_0000 == v / 0x100_0000;
  }

  /** Length and opcode travel in network byte order, the tag in the order of the host. */
  function Decode(bs: seq<byte>): Header
    requires |bs| >= HDR_SIZE
  {
    Header(U32(bs[0], bs[1], bs[2], bs[3]), U16(bs[4], bs[5]), U32(bs[11], bs[10], bs[9], bs[8]), bs[12], bs[13])
  }

  /** The header as it is written over sixteen bytes of a block: padding stays as it was. */
  function Encode(h: Header, raw: seq<byte>): (bs: seq<byte>)
    requires |raw| == HDR_SIZE && Encodable(h)
    ensures |bs| == HDR_SIZE
  {
    ToU32(h.len) + ToU16(h.opcode) + raw[6..8] + ToHost32(h.tag) + [h.kind, h.ver] + raw[14..]
  }

  /** Byte by byte: length and opcode most significant byte first, the tag least significant
      byte first, and the padding untouched. */
  lemma LayoutExactly(h: Header, raw: seq<byte>)
    requires |raw| == HDR_SIZE && Encodable(h)
    ensures var bs := Encode(h, raw);
            && h.len == 0x100_0000 * bs[0] as nat + 0x1_0000 * bs[1] as nat + 0x100 * bs[2] as nat + bs[3] as nat
            && h.opcode == 0x100 * bs[4] as nat + bs[5] as nat
            && h.tag == bs[8] as nat + 0x100 * bs[9] as nat + 0x1_0000 * bs[10] as nat + 0x100_0000 * bs[11] as nat
            && bs[12] == h.kind && bs[13] == h.ver
            && bs[6..8] == raw[6..8] && bs[14..] == raw[14..]
  {
    RoundTrip32(h.len);
    RoundTrip16(h.opcode);
    RoundTrip32(h.tag);
  }

  lemma HeaderRoundTrip(h: Header, raw: seq<byte>, rest: seq<byte>)
    requires |raw| == HDR_SIZE && Encodable(h)
    ensures Decode(Encode(h, raw) + rest) == h
  {
    RoundTrip32(h.len);
    RoundTrip16(h.opcode);
    RoundTrip32(h.tag);
  }

  /** The header is decided by its own bytes. */
  lemma DecodePrefix(bs: seq<byte>, more: seq<byte>)
    requires |bs| >= HDR_SIZE
    ensures Decode(bs + more) == Decode(bs)
  {
  }

  /** Overwriting one field in place changes that field and no other. */
  lemma SetLen(bs: seq<byte>, bs': seq<byte>, v: nat)
    requires |bs| == |bs'| >= HDR_SIZE && v < 0x1_0000_0000 && bs' == ToU32(v) + bs[4..]
    ensures Decode(bs') == Decode(bs).(len := v)
  {
    RoundTrip32(v);
  }

  lemma SetTag(bs: seq<byte>, bs': seq<byte>, v: nat)
    requires |bs| == |bs'| >= HDR_SIZE && v < 0x1_0000_0000 && bs' == bs[..8] + ToHost32(v) + bs[12..]
    ensures Decode(bs') == Decode(bs).(tag := v)
  {
    RoundTrip32(v);
  }

  lemma SetKind(bs: seq<byte>, bs': seq<byte>, v: byte)
    requires |bs| == |bs'| >= HDR_SIZE && bs' == bs[..12] + [v] + bs[13..]
    ensures Decode(bs') == Decode(bs).(kind := v)
  {
  }

  /** A kind of body: the largest size one may have, and the size a body says it has,
      read from the memory it starts at. */
  datatype Kind = Kind(maxSize: nat, realSize: seq<byte> -> nat)

  /** The size is found inside the body, and never exceeds the maximum once there is
      room for the largest body. */
  ghost predicate Sound(k: Kind)
  {
    && (forall mem, more :: 0 < k.realSize(mem) <= |mem| ==>
          k.realSize(mem[..k.realSize(mem)] + more) == k.realSize(mem))
    && (forall mem :: k.maxSize <= |mem| ==> k.realSize(mem) <= k.maxSize)
  }

  /** Bytes that follow do not change the size of what is complete. */
  lemma SoundExtends(k: Kind, mem: seq<byte>, more: seq<byte>)
    requires Sound(k) && 0 < k.realSize(mem) <= |mem|
    ensures k.realSize(mem + more) == k.realSize(mem)
    ensures k.realSize(mem[..k.realSize(mem)]) == k.realSize(mem)
  {
    var n := k.realSize(mem);
    assert mem + more == mem[..n] + (mem[n..] + more);
    assert mem[..n] + [] == mem[..n];
  }

  /** The bytes are one body of this kind. */
  predicate IsBody(k: Kind, b: seq<byte>)
  {
    0 < |b| <= k.maxSize && k.realSize(b) == |b|
  }

  /** A package: what an archive holds when it is serialized. */
  datatype Pkg = Pkg(opcode: nat, tag: nat, ver: byte, bodies: seq<seq<byte>>)

  /** The bytes are the package but for the length in the header, whatever the padding. */
  ghost predicate Holds(bs: seq<byte>, p: Pkg, k: Kind)
  {
    && |bs| >= HDR_SIZE
    && Decode(bs) == Header(Decode(bs).len, p.opcode, p.tag, NORMAL_PKG, p.ver)
    && bs[HDR_SIZE..] == Concat(p.bodies)
    && forall i :: 0 <= i < |p.bodies| ==> IsBody(k, p.bodies[i])
  }

  /** The bytes are the package. */
  ghost predicate IsPackage(bs: seq<byte>, p: Pkg, k: Kind)
  {
    Holds(bs, p, k) && Decode(bs).len == |bs|
  }

  /** The bodies with one more, unless it is empty. */
  function WithBody(bodies: seq<seq<byte>>, body: seq<byte>): seq<seq<byte>>
  {
    if body == [] then bodies else bodies + [body]
  }

  /** Memory behind a package that starts with a body becomes part of the package by
      taking as many bytes of it as the body says it has. */
  lemma HoldsMore(bs: seq<byte>, p: Pkg, k: Kind, free: seq<byte>)
    requires Holds(bs, p, k) && Sound(k) && k.maxSize <= |free|
    ensures k.realSize(free) <= |free|
    ensures var body := free[..k.realSize(free)];
            Holds(bs + body, p.(bodies := WithBody(p.bodies, body)), k)
  {
    var body := free[..k.realSize(free)];
    assert (bs + body)[HDR_SIZE..] == bs[HDR_SIZE..] + body;
    assert Decode(bs + body) == Decode(bs) by {
      DecodePrefix(bs, body);
    }
    if body != [] {
      SoundExtends(k, free, []);
      ConcatSnoc(p.bodies, body);
    }
  }

  /** A header with nothing behind it holds no bodies. */
  lemma HoldsHeader(bs: seq<byte>, p: Pkg, k: Kind)
    requires |bs| == HDR_SIZE && Decode(bs) == Header(0, p.opcode, p.tag, NORMAL_PKG, p.ver) && p.bodies == []
    ensures Holds(bs, p, k)
  {
  }

  /** A header rewritten in front of the same bodies. */
  lemma HoldsRewritten(bs: seq<byte>, bs': seq<byte>, p: Pkg, k: Kind, tag: nat)
    requires Holds(bs, p, k) && |bs| == |bs'| && bs'[HDR_SIZE..] == bs[HDR_SIZE..]
    requires Decode(bs') == Decode(bs).(tag := tag, len := Decode(bs').len)
    ensures Holds(bs', p.(tag := tag), k)
  {
  }
}
