/** BFD Echo on bytes: `decrement_ttl`, `swap_macs`, `swap_ip6`, the reflectors, and the frames being built. */
module BfdInPlace {
  import opened Packet
  import opened Wrappers
  import opened Checksum
  import opened Bfd

  /** `decrement_ttl`. */
  method DecrementTtl(p: Buffer) returns (ok: bool)
    requires |p.data| >= 34
    modifies p
    ensures var f := Parse4(old(p.data));
      && ok == (f.ttl > 0)
      && p.data == (if ok then f.(ttl := f.ttl - 1, ck := Patched(f.ck)) else f).Frame()
  {
    ghost var f := Parse4(p.data);
    FrameParse4(p.data);
    var ttl := p.data[TTL_OFF];
    if ttl == 0 {
      return false;
    }
    var sum := Patched(FromBe16(p.data[CHECK_OFF], p.data[CHECK_OFF + 1]));
    PutTtl4(f, ttl - 1);
    ok := p.Store(TTL_OFF, [ttl - 1]);
    PutCheck4(f.(ttl := ttl - 1), sum);
    ok := p.Store(CHECK_OFF, Be16(sum));
  }

  lemma PutOne(s: Bytes, i: nat, x: Byte)
    requires i < |s|
    ensures Put(s, i, [x]) == s[i := x]
  {
  }

  /** `swap_byte`. */
  method SwapByte(p: Buffer, i: nat, j: nat)
    requires i < |p.data| && j < |p.data|
    modifies p
    ensures p.data == old(p.data)[i := old(p.data)[j]][j := old(p.data)[i]]
  {
    var tmp, other := p.data[i], p.data[j];
    PutOne(p.data, i, other);
    var ok := p.Store(i, [other]);
    PutOne(p.data, j, tmp);
    ok := p.Store(j, [tmp]);
  }

  /** The first `n` bytes of two ranges have changed places. */
  predicate Traded(d: Bytes, e: Bytes, a: nat, b: nat, n: nat)
    requires a + n <= b && b + n <= |d| && |e| == |d|
  {
    forall k {:trigger e[k]} | 0 <= k < |d| ::
      e[k] == if a <= k < a + n then d[k - a + b] else if b <= k < b + n then d[k - b + a] else d[k]
  }

  lemma TradedParts(d: Bytes, e: Bytes, a: nat, b: nat, n: nat)
    requires a + n <= b && b + n <= |d| && |e| == |d| && Traded(d, e, a, b, n)
    ensures e[..a] == d[..a] && e[a..a + n] == d[b..b + n] && e[a + n..b] == d[a + n..b] &&
      e[b..b + n] == d[a..a + n] && e[b + n..] == d[b + n..]
  {
  }

  lemma FiveParts(e: Bytes, i: nat, j: nat, k: nat, l: nat)
    requires i <= j <= k <= l <= |e|
    ensures e == e[..i] + e[i..j] + e[j..k] + e[k..l] + e[l..]
  {
  }

  /** Byte by byte, as the swaps of `swap_macs` and `swap_ip6` go. */
  method SwapRanges(p: Buffer, a: nat, b: nat, n: nat)
    requires a + n <= b && b + n <= |p.data|
    modifies p
    ensures var d := old(p.data);
      p.data == d[..a] + d[b..b + n] + d[a + n..b] + d[a..a + n] + d[b + n..]
  {
    ghost var d := p.data;
    for i := 0 to n
      invariant |p.data| == |d| && Traded(d, p.data, a, b, i)
    {
      SwapByte(p, a + i, b + i);
    }
    TradedParts(d, p.data, a, b, n);
    FiveParts(p.data, a, a + n, b, b + n);
  }

  lemma MacsTurned(l2: Bytes, tail: Bytes)
    requires |l2| == 14
    ensures var d := l2 + tail;
      d[..0] + d[6..12] + d[6..6] + d[0..6] + d[12..] == Swapped(l2) + tail
  {
    var d := l2 + tail;
    assert d[6..12] == l2[6..12] && d[0..6] == l2[..6] && d[12..] == l2[12..] + tail;
  }

  lemma Tail4(f: Ip4)
    requires f.Ok()
    ensures f.Frame() == f.l2 + (f.head + [f.ttl] + [f.proto] + Be16(f.ck) + f.src + f.dst + f.rest)
  {
  }

  lemma Tail6(f: Ip6)
    requires f.Ok()
    ensures f.Frame() == f.l2 + (f.vtf + Be16(f.plen) + [f.nh] + [f.hop] + f.src + f.dst + f.payload)
  {
  }

  method TurnMacs4(p: Buffer, ghost f: Ip4)
    requires f.Ok() && p.data == f.Frame()
    modifies p
    ensures p.data == f.(l2 := Swapped(f.l2)).Frame()
  {
    Tail4(f);
    Tail4(f.(l2 := Swapped(f.l2)));
    MacsTurned(f.l2, f.head + [f.ttl] + [f.proto] + Be16(f.ck) + f.src + f.dst + f.rest);
    SwapRanges(p, 0, 6, 6);
  }

  method TurnMacs6(p: Buffer, ghost f: Ip6)
    requires f.Ok() && p.data == f.Frame()
    modifies p
    ensures p.data == f.(l2 := Swapped(f.l2)).Frame()
  {
    Tail6(f);
    Tail6(f.(l2 := Swapped(f.l2)));
    MacsTurned(f.l2, f.vtf + Be16(f.plen) + [f.nh] + [f.hop] + f.src + f.dst + f.payload);
    SwapRanges(p, 0, 6, 6);
  }

  lemma AddressesTurned(h: Bytes, src: Bytes, dst: Bytes, rest: Bytes)
    requires |h| == 22 && |src| == 16 && |dst| == 16
    ensures var d := h + src + dst + rest;
      d[..22] + d[38..54] + d[38..38] + d[22..38] + d[54..] == h + dst + src + rest
  {
    var d := h + src + dst + rest;
    assert d[..22] == h && d[22..38] == src && d[38..54] == dst && d[54..] == rest;
  }

  /** `swap_ip6`. */
  method TurnAddresses(p: Buffer, ghost f: Ip6)
    requires f.Ok() && p.data == f.Frame()
    modifies p
    ensures p.data == f.(src := f.dst, dst := f.src).Frame()
  {
    AddressesTurned(f.l2 + f.vtf + Be16(f.plen) + [f.nh] + [f.hop], f.src, f.dst, f.payload);
    SwapRanges(p, SRC_OFF, DST_OFF, 16);
  }

  // ---- the reflectors ----

  datatype Served = Error | Dropped(rearmed: Option<Bytes>) | Sent

  /** `record_return`, with the payload at `off`. */
  method RecordReturn(p: Buffer, off: nat, timers: set<Bytes>) returns (r: Served)
    requires off >= 8 && off - 8 <= |p.data|
    ensures match Return<Bytes>(p.data[off - 8..], timers)
            case Failed => r == Error
            case Returned(t) => r == Dropped(t)
            case Bounced(_) => false
  {
    ghost var udp := p.data[off - 8..];
    if off + 4 > |p.data| {
      return Error;
    }
    SliceOfDrop(p.data, off - 8, off, 4);
    if p.data[off..off + 4] != MAGIC {
      return Dropped(None);
    }
    if off + 8 > |p.data| {
      return Error;
    }
    SliceOfDrop(p.data, off - 8, off + 4, 4);
    var discr := p.data[off + 4..off + 8];
    return Dropped(if discr in timers then Some(discr) else None);
  }

  /** `reflect_v4`, on a frame the dispatcher has found to be IPv4 without options and UDP. */
  method ReflectV4Head(p: Buffer, ours: set<Bytes>, timers: set<Bytes>) returns (r: Served)
    requires |p.data| >= 42
    modifies p
    ensures match ReflectV4(Parse4(old(p.data)), ours, timers)
            case Failed => r == Error
            case Returned(t) => r == Dropped(t) && p.data == old(p.data)
            case Bounced(g) => r == Sent && p.data == g.Frame()
  {
    ghost var f := Parse4(p.data);
    FrameParse4(p.data);
    if p.data[26..30] in ours {
      r := RecordReturn(p, 42, timers);
      return;
    }
    var ok := DecrementTtl(p);
    if !ok {
      return Error;
    }
    TurnMacs4(p, f.(ttl := f.ttl - 1, ck := Patched(f.ck)));
    return Sent;
  }

  /** `reflect_v6`. */
  method ReflectV6Head(p: Buffer, ours: set<Bytes>, timers: set<Bytes>) returns (r: Served)
    requires |p.data| >= 62
    modifies p
    ensures match ReflectV6(Parse(old(p.data)), ours, timers)
            case Failed => r == Error
            case Returned(t) => r == Dropped(t) && p.data == old(p.data)
            case Bounced(g) => r == Sent && p.data == g.Frame()
  {
    ghost var f := Parse(p.data);
    FrameParse(p.data);
    if p.data[SRC_OFF..SRC_OFF + 16] in ours {
      r := RecordReturn(p, 62, timers);
      return;
    }
    var hop := p.data[HOP_OFF];
    if hop == 0 {
      return Error;
    }
    PutHop(f, hop - 1);
    var ok := p.Store(HOP_OFF, [hop - 1]);
    TurnAddresses(p, f.(hop := hop - 1));
    TurnMacs6(p, f.(hop := hop - 1, src := f.dst, dst := f.src));
    return Sent;
  }

  // ---- building the frames ----

  /** A write at the end of what is written leaves the zeros behind it. */
  method Fill(s: Bytes, off: nat, bs: Bytes, ghost written: Bytes, ghost n: nat)
      returns (r: Bytes, ghost w: Bytes, ghost left: nat)
    requires s == written + Zeros(n) && off == |written| && |bs| <= n
    ensures r == w + Zeros(left) && w == written + bs && left == n - |bs| && |w| == off + |bs|
  {
    PutNext(written, bs, Zeros(n));
    r, w, left := Put(s, off, bs), written + bs, n - |bs|;
    assert Zeros(n)[|bs|..] == Zeros(left);
  }

  lemma Skipped(written: Bytes, k: nat, n: nat)
    requires k <= n
    ensures written + Zeros(n) == (written + Zeros(k)) + Zeros(n - k)
  {
  }

  lemma NoZeros(s: Bytes)
    ensures s + Zeros(0) == s
  {
  }

  /** A field set in the middle. */
  lemma SetField(pre: Bytes, mid: Bytes, post: Bytes, whole: Bytes, bs: Bytes)
    requires whole == pre + mid + post && |mid| == |bs|
    ensures |pre| + |bs| <= |whole| && Put(whole, |pre|, bs) == pre + bs + post
  {
    PutAt(pre, mid, post, bs);
  }

  /** The fields of the datagram with a zero checksum. */
  method FillUdp(discr: Bytes, number: Bytes, stamp: Bytes) returns (u: Bytes)
    requires |discr| == 4 && |number| == 4 && |stamp| == 8
    ensures u == Udp(0, Payload(discr, number, stamp))
  {
    ghost var w: Bytes, n := [], 28;
    u := Zeros(28);
    u, w, n := Fill(u, 0, Be16(ECHO_PORT), w, n);
    u, w, n := Fill(u, 2, Be16(ECHO_PORT), w, n);
    u, w, n := Fill(u, 4, Be16(28), w, n);
    ghost var a := w;
    assert a == Be16(ECHO_PORT) + Be16(ECHO_PORT) + Be16(28);
    Skipped(w, 2, n);
    u, w, n := Fill(u, 8, MAGIC, w + Zeros(2), n - 2);
    u, w, n := Fill(u, 12, discr, w, n);
    u, w, n := Fill(u, 16, number, w, n);
    u, w, n := Fill(u, 20, stamp, w, n);
    NoZeros(w);
    assert w == a + Zeros(2) + MAGIC + discr + number + stamp;
    UdpAssembled(a, discr, number, stamp);
  }

  lemma UdpAssembled(a: Bytes, discr: Bytes, number: Bytes, stamp: Bytes)
    requires |discr| == 4 && |number| == 4 && |stamp| == 8 && a == Be16(ECHO_PORT) + Be16(ECHO_PORT) + Be16(28)
    ensures a + Zeros(2) + MAGIC + discr + number + stamp == Udp(0, Payload(discr, number, stamp))
  {
    assert Zeros(2) == Be16(0);
  }

  lemma UdpParts(ck: U16, payload: Bytes)
    requires |payload| == 20
    ensures Udp(ck, payload) == (Be16(ECHO_PORT) + Be16(ECHO_PORT) + Be16(28)) + Be16(ck) + payload
  {
  }

  /** The UDP datagram of both frames; its checksum goes in last. */
  method BuildUdp(src: Bytes, dst: Bytes, discr: Bytes, number: Bytes, stamp: Bytes) returns (u: Bytes)
    requires |src| <= 16 && |dst| <= 16 && |discr| == 4 && |number| == 4 && |stamp| == 8
    ensures var payload := Payload(discr, number, stamp); u == Udp(UdpCk(src, dst, payload), payload)
  {
    ghost var payload := Payload(discr, number, stamp);
    u := FillUdp(discr, number, stamp);
    SumBounded(src);
    SumBounded(dst);
    SumBounded(u);
    var pseudo := SumBytes(src) + SumBytes(dst) + PROTO_UDP + |u|;
    var ck := ChecksumLoop(u, pseudo);
    ck := if ck == 0 then 0xffff else ck;
    UdpParts(0, payload);
    UdpParts(ck, payload);
    SetField(Be16(ECHO_PORT) + Be16(ECHO_PORT) + Be16(28), Be16(0), payload, u, Be16(ck));
    u := Put(u, 6, Be16(ck));
  }

  /** The fields of the IPv4 header with a zero checksum. */
  method FillHeader(local: Bytes) returns (ip: Bytes)
    requires |local| == 4
    ensures ip == EchoHead() + [ECHO_TTL] + [PROTO_UDP] + Be16(0) + local + local
  {
    ghost var w: Bytes, n := [], 20;
    ip := Zeros(20);
    ip, w, n := Fill(ip, 0, [0x45], w, n);
    ip, w, n := Fill(ip, 1, [0xc0], w, n);
    ip, w, n := Fill(ip, 2, Be16(48), w, n);
    Skipped(w, 4, n);
    w := w + Zeros(4);
    assert w == EchoHead();
    ip, w, n := Fill(ip, 8, [ECHO_TTL], w, n - 4);
    ip, w, n := Fill(ip, 9, [PROTO_UDP], w, n);
    Skipped(w, 2, n);
    w := w + Zeros(2);
    assert Zeros(2) == Be16(0);
    ip, w, n := Fill(ip, 12, local, w, n - 2);
    ip, w, n := Fill(ip, 16, local, w, n);
    NoZeros(w);
  }

  /** The IPv4 header of `build_echo`, its checksum computed over the rest of it. */
  method BuildHeader(local: Bytes) returns (ip: Bytes, ck: U16)
    requires |local| == 4
    ensures ip == EchoHead() + [ECHO_TTL] + [PROTO_UDP] + Be16(ck) + local + local
    ensures ck == Complement(Folded(SumBytes(EchoHead() + [ECHO_TTL] + [PROTO_UDP] + Be16(0) + local + local)))
  {
    ip := FillHeader(local);
    SumBounded(ip);
    ck := ChecksumLoop(ip, 0);
    ghost var pre := EchoHead() + [ECHO_TTL] + [PROTO_UDP];
    assert ip == pre + Be16(0) + (local + local);
    SetField(pre, Be16(0), local + local, ip, Be16(ck));
    ip := Put(ip, 10, Be16(ck));
    assert ip == pre + Be16(ck) + local + local;
  }

  /** `build_echo`. */
  method BuildEcho(ifMac: Bytes, dstMac: Bytes, local: Bytes, discr: Bytes, number: Bytes, stamp: Bytes)
      returns (d: Bytes)
    requires |ifMac| == 6 && |dstMac| == 6 && |local| == 4 && |discr| == 4 && |number| == 4 && |stamp| == 8
    ensures d == EchoV4(ifMac, dstMac, local, Payload(discr, number, stamp)).Frame()
  {
    ghost var f := EchoV4(ifMac, dstMac, local, Payload(discr, number, stamp));
    var ip, ck := BuildHeader(local);
    EchoCk(f, ck);
    var udp := BuildUdp(local, local, discr, number, stamp);
    d := dstMac + ifMac + Be16(ET_IPV4) + ip + udp;
    assert d == f.l2 + (f.head + [f.ttl] + [f.proto] + Be16(f.ck) + f.src + f.dst + f.rest);
    Tail4(f);
  }

  lemma EchoCk(f: Ip4, ck: U16)
    requires f.Ok() && f.head == EchoHead() && f.ttl == ECHO_TTL && f.proto == PROTO_UDP && f.src == f.dst
    requires f.ck == Complement(Folded(SumBytes(f.(ck := 0).Header())))
    requires ck == Complement(Folded(SumBytes(EchoHead() + [ECHO_TTL] + [PROTO_UDP] + Be16(0) + f.src + f.src)))
    ensures f.ck == ck
  {
    assert f.(ck := 0).Header() == EchoHead() + [ECHO_TTL] + [PROTO_UDP] + Be16(0) + f.src + f.src;
  }

  /** `build_echo_v6`. */
  method BuildEchoV6(ifMac: Bytes, dstMac: Bytes, local: Bytes, discr: Bytes, number: Bytes, stamp: Bytes)
      returns (d: Bytes)
    requires |ifMac| == 6 && |dstMac| == 6 && |local| == 16 && |discr| == 4 && |number| == 4 && |stamp| == 8
    ensures d == EchoV6(ifMac, dstMac, local, Payload(discr, number, stamp)).Frame()
  {
    ghost var w: Bytes, n := [], 40;
    var ip := Zeros(40);
    ip, w, n := Fill(ip, 0, [0x60], w, n);
    Skipped(w, 3, n);
    w := w + Zeros(3);
    assert w == [0x60, 0, 0, 0];
    ip, w, n := Fill(ip, 4, Be16(28), w, n - 3);
    ip, w, n := Fill(ip, 6, [PROTO_UDP], w, n);
    ip, w, n := Fill(ip, 7, [ECHO_TTL], w, n);
    ip, w, n := Fill(ip, 8, local, w, n);
    ip, w, n := Fill(ip, 24, local, w, n);
    NoZeros(w);
    var udp := BuildUdp(local, local, discr, number, stamp);
    d := dstMac + ifMac + Be16(ET_IPV6) + ip + udp;
  }
}
