/** Frames as bytes, IPv6 frames as header fields, and the buffer the data plane rewrites in place. */
module Packet {

  type Byte = x: int | 0 <= x < 256
  type U16 = x: int | 0 <= x < 0x1_0000
  type Bytes = seq<Byte>

  const ETH_LEN := 14
  const IP6_LEN := 40
  const PLEN_OFF := 18
  const NH_OFF := 20
  const HOP_OFF := 21
  const SRC_OFF := 22
  const DST_OFF := 38
  const SRH_OFF := 54
  const SL_OFF := 57
  const SEGLIST_OFF := 62
  const ETHERTYPE_OFF := 12
  const TTL_OFF := 22
  const CHECK_OFF := 24

  const ET_IPV4 := 0x0800
  const ET_IPV6 := 0x86dd
  const PROTO_IPIP: Byte := 4
  const PROTO_IPV6: Byte := 41
  const PROTO_ROUTING: Byte := 43

  function Be16(v: U16): (bs: Bytes)
    ensures |bs| == 2
  {
    [v / 256, v % 256]
  }

  function FromBe16(a: Byte, b: Byte): (v: U16)
    ensures Be16(v) == [a, b]
  {
    a * 256 + b
  }

  function Zeros(n: nat): (bs: Bytes)
    ensures |bs| == n && forall i | 0 <= i < n :: bs[i] == 0
  {
    seq(n, i => 0)
  }

  /** Overwrite `|bs|` bytes at `off`. */
  function Put(s: Bytes, off: nat, bs: Bytes): (r: Bytes)
    requires off + |bs| <= |s|
    ensures |r| == |s|
  {
    s[..off] + bs + s[off + |bs|..]
  }

  /** A write inside the middle part of a frame. */
  lemma PutAt(pre: Bytes, mid: Bytes, post: Bytes, bs: Bytes)
    requires |mid| == |bs|
    ensures Put(pre + mid + post, |pre|, bs) == pre + bs + post
  {
  }

  /** A write inside the middle part that leaves its ends. */
  lemma PutInside(pre: Bytes, mid: Bytes, post: Bytes, off: nat, bs: Bytes)
    requires off + |bs| <= |mid|
    ensures Put(pre + mid + post, |pre| + off, bs) == pre + Put(mid, off, bs) + post
  {
    assert mid == mid[..off] + mid[off..off + |bs|] + mid[off + |bs|..];
    assert pre + mid + post == (pre + mid[..off]) + mid[off..off + |bs|] + (mid[off + |bs|..] + post);
    PutAt(pre + mid[..off], mid[off..off + |bs|], mid[off + |bs|..] + post, bs);
  }

  lemma SliceOfDrop(s: Bytes, n: nat, off: nat, w: nat)
    requires n <= off && off + w <= |s|
    ensures s[off..off + w] == s[n..][off - n..off - n + w]
  {
  }

  lemma PutBytes(s: Bytes, off: nat, bs: Bytes)
    requires off + |bs| <= |s|
    ensures Put(s, off, bs)[off..off + |bs|] == bs
    ensures forall i | 0 <= i < |s| && !(off <= i < off + |bs|) :: Put(s, off, bs)[i] == s[i]
  {
  }

  lemma SliceOfSlice(s: Bytes, at: nat, n: nat, off: nat, w: nat)
    requires at + n <= |s| && off + w <= n
    ensures s[at..at + n][off..off + w] == s[at + off..at + off + w]
  {
    var x, y := s[at..at + n][off..off + w], s[at + off..at + off + w];
    assert |x| == |y|;
    forall i | 0 <= i < w ensures x[i] == y[i] {
      assert s[at..at + n][off + i] == s[at + off + i];
    }
  }

  /** Writing left to right: the next bytes of a region follow those already written. */
  lemma PutNext(written: Bytes, bs: Bytes, rest: Bytes)
    requires |bs| <= |rest|
    ensures Put(written + rest, |written|, bs) == written + bs + rest[|bs|..]
  {
  }

  // ---- an IPv6 frame by its fields ----

  datatype Ip6 = Ip6(l2: Bytes, vtf: Bytes, plen: U16, nh: Byte, hop: Byte, src: Bytes, dst: Bytes, payload: Bytes)
  {
    predicate Ok() { |l2| == 14 && |vtf| == 4 && |src| == 16 && |dst| == 16 }

    function Frame(): (d: Bytes)
      requires Ok()
      ensures |d| == 54 + |payload|
    {
      l2 + vtf + Be16(plen) + [nh] + [hop] + src + dst + payload
    }
  }

  function Parse(d: Bytes): (f: Ip6)
    requires |d| >= 54
    ensures f.Ok()
  {
    Ip6(d[..14], d[14..18], FromBe16(d[18], d[19]), d[20], d[21], d[22..38], d[38..54], d[54..])
  }

  lemma FrameParse(d: Bytes)
    requires |d| >= 54
    ensures Parse(d).Frame() == d
  {
  }

  lemma FieldsAt(f: Ip6)
    requires f.Ok()
    ensures var d := f.Frame();
      && d[..14] == f.l2 && d[14..18] == f.vtf && d[18..20] == Be16(f.plen) && d[18] == f.plen / 256
      && d[19] == f.plen % 256
      && d[20] == f.nh && d[21] == f.hop && d[22..38] == f.src && d[38..54] == f.dst && d[54..] == f.payload
      && forall i | 0 <= i < |f.payload| :: d[54 + i] == f.payload[i]
  {
  }

  lemma ParseFrame(f: Ip6)
    requires f.Ok()
    ensures Parse(f.Frame()) == f
  {
    FieldsAt(f);
  }

  lemma PutNh(f: Ip6, x: Byte)
    requires f.Ok()
    ensures Put(f.Frame(), NH_OFF, [x]) == f.(nh := x).Frame()
  {
    PutAt(f.l2 + f.vtf + Be16(f.plen), [f.nh], [f.hop] + f.src + f.dst + f.payload, [x]);
    assert f.Frame() == f.l2 + f.vtf + Be16(f.plen) + [f.nh] + ([f.hop] + f.src + f.dst + f.payload);
    assert f.(nh := x).Frame() == f.l2 + f.vtf + Be16(f.plen) + [x] + ([f.hop] + f.src + f.dst + f.payload);
  }

  lemma PutHop(f: Ip6, x: Byte)
    requires f.Ok()
    ensures Put(f.Frame(), HOP_OFF, [x]) == f.(hop := x).Frame()
  {
    PutAt(f.l2 + f.vtf + Be16(f.plen) + [f.nh], [f.hop], f.src + f.dst + f.payload, [x]);
    assert f.Frame() == f.l2 + f.vtf + Be16(f.plen) + [f.nh] + [f.hop] + (f.src + f.dst + f.payload);
    assert f.(hop := x).Frame() == f.l2 + f.vtf + Be16(f.plen) + [f.nh] + [x] + (f.src + f.dst + f.payload);
  }

  lemma PutPlen(f: Ip6, v: U16)
    requires f.Ok()
    ensures Put(f.Frame(), PLEN_OFF, Be16(v)) == f.(plen := v).Frame()
  {
    var post := [f.nh] + [f.hop] + f.src + f.dst + f.payload;
    PutAt(f.l2 + f.vtf, Be16(f.plen), post, Be16(v));
    assert f.Frame() == f.l2 + f.vtf + Be16(f.plen) + post;
    assert f.(plen := v).Frame() == f.l2 + f.vtf + Be16(v) + post;
  }

  lemma PutDst(f: Ip6, a: Bytes)
    requires f.Ok() && |a| == 16
    ensures Put(f.Frame(), DST_OFF, a) == f.(dst := a).Frame()
  {
    PutAt(f.l2 + f.vtf + Be16(f.plen) + [f.nh] + [f.hop] + f.src, f.dst, f.payload, a);
  }

  lemma PutInDst(f: Ip6, off: nat, bs: Bytes)
    requires f.Ok() && off + |bs| <= 16
    ensures Put(f.Frame(), DST_OFF + off, bs) == f.(dst := Put(f.dst, off, bs)).Frame()
  {
    PutInside(f.l2 + f.vtf + Be16(f.plen) + [f.nh] + [f.hop] + f.src, f.dst, f.payload, off, bs);
  }

  lemma PutPayload(f: Ip6, off: nat, bs: Bytes)
    requires f.Ok() && off + |bs| <= |f.payload|
    ensures Put(f.Frame(), 54 + off, bs) == f.(payload := Put(f.payload, off, bs)).Frame()
  {
    var h := f.(payload := []).Frame();
    assert f.Frame() == h + f.payload;
    assert f.(payload := Put(f.payload, off, bs)).Frame() == h + Put(f.payload, off, bs);
    assert Put(h + f.payload, |h| + off, bs) == h + Put(f.payload, off, bs);
  }

  // ---- IPv4 frames by their fields ----

  /** `head` is the first eight header bytes, `rest` what follows the header. */
  datatype Ip4 = Ip4(l2: Bytes, head: Bytes, ttl: Byte, proto: Byte, ck: U16, src: Bytes, dst: Bytes, rest: Bytes)
  {
    predicate Ok() { |l2| == 14 && |head| == 8 && |src| == 4 && |dst| == 4 }

    function Frame(): (d: Bytes)
      requires Ok()
      ensures |d| == 34 + |rest|
    {
      l2 + head + [ttl] + [proto] + Be16(ck) + src + dst + rest
    }

    function Header(): (h: Bytes)
      requires Ok()
      ensures |h| == 20
    {
      head + [ttl, proto] + Be16(ck) + src + dst
    }
  }

  function Parse4(d: Bytes): (f: Ip4)
    requires |d| >= 34
    ensures f.Ok()
  {
    Ip4(d[..14], d[14..22], d[22], d[23], FromBe16(d[24], d[25]), d[26..30], d[30..34], d[34..])
  }

  lemma FrameParse4(d: Bytes)
    requires |d| >= 34
    ensures Parse4(d).Frame() == d
  {
  }

  lemma PutTtl4(f: Ip4, x: Byte)
    requires f.Ok()
    ensures Put(f.Frame(), TTL_OFF, [x]) == f.(ttl := x).Frame()
  {
    var post := [f.proto] + Be16(f.ck) + f.src + f.dst + f.rest;
    PutAt(f.l2 + f.head, [f.ttl], post, [x]);
    assert f.Frame() == f.l2 + f.head + [f.ttl] + post;
    assert f.(ttl := x).Frame() == f.l2 + f.head + [x] + post;
  }

  lemma PutCheck4(f: Ip4, v: U16)
    requires f.Ok()
    ensures Put(f.Frame(), CHECK_OFF, Be16(v)) == f.(ck := v).Frame()
  {
    var pre, post := f.l2 + f.head + [f.ttl] + [f.proto], f.src + f.dst + f.rest;
    PutAt(pre, Be16(f.ck), post, Be16(v));
    assert f.Frame() == pre + Be16(f.ck) + post;
    assert f.(ck := v).Frame() == pre + Be16(v) + post;
  }

  /** A new Ethernet header and hop limit: all that forwarding between two nodes changes. */
  function Transit(f: Ip6, l2: Bytes, hop: Byte): (g: Ip6)
    requires f.Ok() && |l2| == 14
    ensures g.Ok()
  {
    f.(l2 := l2, hop := hop)
  }

  // ---- the buffer ----

  class Buffer {
    var data: Bytes

    constructor (d: Bytes)
      ensures data == d
    {
      data := d;
    }

    /** A bounds-checked write through a packet pointer. */
    method Store(off: nat, bs: Bytes) returns (ok: bool)
      modifies this
      ensures ok == (off + |bs| <= |old(data)|)
      ensures data == if ok then Put(old(data), off, bs) else old(data)
    {
      ok := off + |bs| <= |data|;
      if ok {
        data := data[..off] + bs + data[off + |bs|..];
      }
    }

    /** `bpf_xdp_adjust_head` by a positive amount: trim leading bytes, but not into an Ethernet header's
        worth of the last ones. */
    method Trim(n: nat) returns (ok: bool)
      modifies this
      ensures ok == (n + ETH_LEN <= |old(data)|)
      ensures data == if ok then old(data)[n..] else old(data)
    {
      ok := n + ETH_LEN <= |data|;
      if ok {
        data := data[n..];
      }
    }

    /** Grow the frame by inserting `room` at `off`: `adjust_head` with a negative amount, or
        `adjust_room` behind the Ethernet header or the IPv6 header. What the kernel leaves in the room
        is not specified, so it is a parameter. */
    method Grow(off: nat, room: Bytes)
      requires off <= |data|
      modifies this
      ensures data == old(data)[..off] + room + old(data)[off..]
    {
      data := data[..off] + room + data[off..];
    }
  }

  /** Store into the first bytes of `rest`, which begins at `off`. */
  method Next(p: Buffer, off: nat, bs: Bytes, ghost written: Bytes, ghost rest: Bytes)
    requires p.data == written + rest && |written| == off && |bs| <= |rest|
    modifies p
    ensures p.data == written + bs + rest[|bs|..]
  {
    PutNext(written, bs, rest);
    var ok := p.Store(off, bs);
  }
}
