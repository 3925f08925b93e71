/** BFD Echo: the frames, the reflector, and the way back (RFC 5880 section 6.4, RFC 1141). */
module Bfd {
  import opened Packet
  import opened Wrappers
  import opened Checksum
  import opened NodeWalk

  const ECHO_PORT: U16 := 3785
  const ECHO_TTL: Byte := 255
  const PROTO_UDP: Byte := 17
  const MAGIC: Bytes := [0x7a, 0x62, 0x66, 0x64]

  /** The UDP datagram's sum with its pseudo-header. */
  function UdpSum(src: Bytes, dst: Bytes, udp: Bytes): nat
  {
    SumBytes(src) + SumBytes(dst) + PROTO_UDP + |udp| + SumBytes(udp)
  }

  // ---- the reflector ----

  datatype Reflected<F> = Failed | Returned(rearmed: Option<Bytes>) | Bounced(frame: F)

  function Swapped(l2: Bytes): (s: Bytes)
    requires |l2| == 14
    ensures |s| == 14
  {
    l2[6..12] + l2[..6] + l2[12..]
  }

  lemma SwappedTwice(l2: Bytes)
    requires |l2| == 14
    ensures Swapped(Swapped(l2)) == l2
  {
  }

  /** `record_return`: which session's timer our own frame re-arms, reading `udp` past its header. */
  function Return<F>(udp: Bytes, timers: set<Bytes>): Reflected<F>
  {
    if |udp| < 12 then Failed
    else if udp[8..12] != MAGIC then Returned(None)
    else if |udp| < 16 then Failed
    else Returned(if udp[12..16] in timers then Some(udp[12..16]) else None)
  }

  /** RFC 1141: the checksum of a header whose TTL is one less. */
  function Patched(ck: U16): U16
  {
    Fold(ck + 0x100)
  }

  /** `reflect_v4`. */
  function ReflectV4(f: Ip4, ours: set<Bytes>, timers: set<Bytes>): (r: Reflected<Ip4>)
    requires f.Ok()
    ensures r.Bounced? ==> r.frame.Ok()
  {
    if f.src in ours then Return(f.rest, timers)
    else if f.ttl == 0 then Failed
    else Bounced(f.(l2 := Swapped(f.l2), ttl := f.ttl - 1, ck := Patched(f.ck)))
  }

  /** `reflect_v6`. */
  function ReflectV6(f: Ip6, ours: set<Bytes>, timers: set<Bytes>): (r: Reflected<Ip6>)
    requires f.Ok()
    ensures r.Bounced? ==> r.frame.Ok()
  {
    if f.src in ours then Return(f.payload, timers)
    else if f.hop == 0 then Failed
    else Bounced(f.(l2 := Swapped(f.l2), hop := f.hop - 1, src := f.dst, dst := f.src))
  }

  /** Bytes 8 to 12 of a UDP datagram are the Echo magic, and 12 to 16 its discriminator. */
  predicate EchoOf(udp: Bytes, discr: Bytes)
  {
    |udp| >= 16 && udp[8..12] == [0x7a, 0x62, 0x66, 0x64] && udp[12..16] == discr
  }

  /** A frame re-arms a session's timer exactly when it comes from an address of ours, carries the magic, and the
      discriminator is the session's; it is bounced exactly when it comes from elsewhere with hops left. */
  lemma RearmsExactly(f: Ip4, g: Ip6, ours: set<Bytes>, timers: set<Bytes>, discr: Bytes)
    requires f.Ok() && g.Ok()
    ensures ReflectV4(f, ours, timers) == Returned(Some(discr)) <==>
      f.src in ours && EchoOf(f.rest, discr) && discr in timers
    ensures ReflectV6(g, ours, timers) == Returned(Some(discr)) <==>
      g.src in ours && EchoOf(g.payload, discr) && discr in timers
    ensures ReflectV4(f, ours, timers).Bounced? <==> f.src !in ours && f.ttl > 0
    ensures ReflectV6(g, ours, timers).Bounced? <==> g.src !in ours && g.hop > 0
  {
  }

  /** A bounced frame goes back: the Ethernet addresses trade places, the hop count is one less; between IPv6
      addresses the other way, within IPv4 addresses as it came. */
  lemma BouncesBack(f: Ip4, g: Ip6, ours: set<Bytes>, timers: set<Bytes>)
    requires f.Ok() && g.Ok()
    ensures match ReflectV4(f, ours, timers)
            case Bounced(r) => r == f.(l2 := f.l2[6..12] + f.l2[..6] + f.l2[12..], ttl := f.ttl - 1, ck := r.ck)
            case _ => true
    ensures match ReflectV6(g, ours, timers)
            case Bounced(r) =>
              r == g.(l2 := g.l2[6..12] + g.l2[..6] + g.l2[12..], hop := g.hop - 1, src := g.dst, dst := g.src)
            case _ => true
  {
  }

  lemma PatchedIs(ck: U16)
    ensures Patched(ck) == if ck + 0x100 >= 0x1_0000 then ck + 0x100 - 0xffff else ck + 0x100
  {
  }

  lemma OneLess(f: Ip4, ck: U16)
    requires f.Ok() && f.ttl > 0
    ensures HeaderSum(f.(ttl := f.ttl - 1, ck := ck)) == HeaderSum(f) - 0x100 - f.ck + ck
  {
    assert FromBe16(f.ttl - 1, f.proto) == FromBe16(f.ttl, f.proto) - 0x100;
  }

  /** The patch keeps the header's sum modulo 65535: a valid header stays valid. */
  lemma PatchKeepsSum(f: Ip4)
    requires f.Ok() && f.ttl > 0
    ensures HeaderSum(f.(ttl := f.ttl - 1, ck := Patched(f.ck))) % 0xffff == HeaderSum(f) % 0xffff
  {
    PatchedIs(f.ck);
    OneLess(f, Patched(f.ck));
    if f.ck + 0x100 >= 0x1_0000 {
      Shift(HeaderSum(f), -1);
    }
  }

  // ---- any number of reflectors ----

  function HopV4(f: Ip4, ours: set<Bytes>): Option<Ip4>
  {
    if !f.Ok() then None
    else
      match ReflectV4(f, ours, {})
      case Bounced(g) => Some(g)
      case _ => None
  }

  function HopV6(f: Ip6, ours: set<Bytes>): Option<Ip6>
  {
    if !f.Ok() then None
    else
      match ReflectV6(f, ours, {})
      case Bounced(g) => Some(g)
      case _ => None
  }

  /** No reflector takes the frame for its own. */
  predicate Strangers(nodes: seq<set<Bytes>>, a: Bytes, b: Bytes)
  {
    forall i | 0 <= i < |nodes| :: a !in nodes[i] && b !in nodes[i]
  }

  /** The Ethernet header after `n` swaps. */
  function Turned(l2: Bytes, n: nat): (s: Bytes)
    requires |l2| == 14
    ensures |s| == 14
  {
    if n == 0 then l2 else Swapped(Turned(l2, n - 1))
  }

  /** After an even number of reflections the addresses are as sent, after an odd number the other way. */
  lemma {:induction false} TurnedParity(l2: Bytes, n: nat)
    requires |l2| == 14
    ensures Turned(l2, n) == if n % 2 == 0 then l2 else Swapped(l2)
  {
    if n > 0 {
      TurnedParity(l2, n - 1);
      SwappedTwice(l2);
    }
  }

  /** A bounced frame: all that changed is the TTL, its patch, and the direction. */
  predicate AfterV4(f: Ip4, g: Ip4, n: nat)
    requires f.Ok() && n <= f.ttl
  {
    g == f.(l2 := Turned(f.l2, n), ttl := f.ttl - n, ck := g.ck)
  }

  /** A frame between IPv4 reflectors is bounced once for each unit of its TTL and not once more: at most 255
      times. */
  lemma {:induction false} BouncesV4(f: Ip4, nodes: seq<set<Bytes>>)
    requires f.Ok() && Strangers(nodes, f.src, f.src)
    ensures Walk(HopV4, f, nodes).Some? <==> |nodes| <= f.ttl
    ensures |nodes| <= f.ttl ==> AfterV4(f, Walk(HopV4, f, nodes).value, |nodes|)
    decreases |nodes|
  {
    if nodes != [] {
      BouncesV4(f, nodes[..|nodes| - 1]);
    }
  }

  lemma HopKeepsSum(f: Ip4, ours: set<Bytes>)
    requires f.Ok() && HopV4(f, ours).Some?
    ensures var g := HopV4(f, ours).value; g.Ok() && HeaderSum(g) % 0xffff == HeaderSum(f) % 0xffff
  {
    PatchKeepsSum(f);
  }

  /** The header sum is kept modulo 65535 all the way. */
  lemma {:induction false} BouncesKeepSum(f: Ip4, nodes: seq<set<Bytes>>)
    requires f.Ok() && Walk(HopV4, f, nodes).Some?
    ensures var g := Walk(HopV4, f, nodes).value; g.Ok() && HeaderSum(g) % 0xffff == HeaderSum(f) % 0xffff
    decreases |nodes|
  {
    if nodes != [] {
      BouncesKeepSum(f, nodes[..|nodes| - 1]);
      HopKeepsSum(Walk(HopV4, f, nodes[..|nodes| - 1]).value, nodes[|nodes| - 1]);
    }
  }

  predicate AfterV6(f: Ip6, g: Ip6, n: nat)
    requires f.Ok() && n <= f.hop
  {
    var back := n % 2 == 1;
    g == f.(l2 := Turned(f.l2, n), hop := f.hop - n,
      src := if back then f.dst else f.src, dst := if back then f.src else f.dst)
  }

  /** The IPv6 twin: source and destination trade places each time. */
  lemma {:induction false} BouncesV6(f: Ip6, nodes: seq<set<Bytes>>)
    requires f.Ok() && Strangers(nodes, f.src, f.dst)
    ensures Walk(HopV6, f, nodes).Some? <==> |nodes| <= f.hop
    ensures |nodes| <= f.hop ==> AfterV6(f, Walk(HopV6, f, nodes).value, |nodes|)
    decreases |nodes|
  {
    if nodes != [] {
      BouncesV6(f, nodes[..|nodes| - 1]);
    }
  }

  /** So the datagram's sum stays what it was. */
  lemma BouncedUdpSum(f: Ip6, g: Ip6, n: nat)
    requires f.Ok() && n <= f.hop && AfterV6(f, g, n)
    ensures UdpSum(g.src, g.dst, g.payload) == UdpSum(f.src, f.dst, f.payload)
  {
  }

  // ---- the originator ----

  /** Magic, discriminator, sequence number, time stamp. */
  function Payload(discr: Bytes, number: Bytes, stamp: Bytes): (p: Bytes)
    requires |discr| == 4 && |number| == 4 && |stamp| == 8
    ensures |p| == 20
  {
    MAGIC + discr + number + stamp
  }

  function Udp(ck: U16, payload: Bytes): (u: Bytes)
    requires |payload| == 20
    ensures |u| == 28
  {
    Be16(ECHO_PORT) + Be16(ECHO_PORT) + Be16(28) + Be16(ck) + payload
  }

  lemma UdpBytes(ck: U16, payload: Bytes)
    requires |payload| == 20
    ensures SumBytes(Udp(ck, payload)) == 2 * ECHO_PORT as int + 28 + ck + SumBytes(payload)
  {
    var a, b, c := Be16(ECHO_PORT), Be16(28), Be16(ck);
    SumSplits(a + a + b + c, payload);
    SumSplits(a + a + b, c);
    SumSplits(a + a, b);
    SumSplits(a, a);
    TwoBytes(ECHO_PORT);
    TwoBytes(28);
    TwoBytes(ck);
  }

  /** A UDP checksum of zero is sent as all ones. */
  function UdpCk(src: Bytes, dst: Bytes, payload: Bytes): U16
    requires |payload| == 20
  {
    var ck := Complement(Folded(UdpSum(src, dst, Udp(0, payload))));
    if ck == 0 then 0xffff else ck
  }

  function EchoHead(): Bytes
  {
    [0x45, 0xc0] + Be16(48) + [0, 0, 0, 0]
  }

  /** What `build_echo` makes. */
  function EchoV4(ifMac: Bytes, dstMac: Bytes, local: Bytes, payload: Bytes): (f: Ip4)
    requires |ifMac| == 6 && |dstMac| == 6 && |local| == 4 && |payload| == 20
    ensures f.Ok()
  {
    var f := Ip4(dstMac + ifMac + Be16(ET_IPV4), EchoHead(), ECHO_TTL, PROTO_UDP, 0, local, local,
      Udp(UdpCk(local, local, payload), payload));
    f.(ck := Complement(Folded(SumBytes(f.Header()))))
  }

  /** What `build_echo_v6` makes. */
  function EchoV6(ifMac: Bytes, dstMac: Bytes, local: Bytes, payload: Bytes): (f: Ip6)
    requires |ifMac| == 6 && |dstMac| == 6 && |local| == 16 && |payload| == 20
    ensures f.Ok()
  {
    Ip6(dstMac + ifMac + Be16(ET_IPV6), [0x60, 0, 0, 0], 28, PROTO_UDP, ECHO_TTL, local, local,
      Udp(UdpCk(local, local, payload), payload))
  }

  /** The frame on the wire: port 3785 both ways, the magic, and the session's numbers behind it. */
  lemma EchoLayoutV4(ifMac: Bytes, dstMac: Bytes, local: Bytes, discr: Bytes, number: Bytes, stamp: Bytes)
    requires |ifMac| == 6 && |dstMac| == 6 && |local| == 4 && |discr| == 4 && |number| == 4 && |stamp| == 8
    ensures var f := EchoV4(ifMac, dstMac, local, Payload(discr, number, stamp));
      && f.l2 == dstMac + ifMac + [0x08, 0x00] && f.head == [0x45, 0xc0, 0, 48, 0, 0, 0, 0]
      && f.ttl == 255 && f.proto == 17 && f.src == local && f.dst == local
      && |f.rest| == 28 && f.rest[..6] == [0x0e, 0xc9, 0x0e, 0xc9, 0, 28]
      && f.rest[8..] == [0x7a, 0x62, 0x66, 0x64] + discr + number + stamp
  {
    UdpLayout(UdpCk(local, local, Payload(discr, number, stamp)), Payload(discr, number, stamp));
    assert Be16(48) == [0, 48] && Be16(ET_IPV4) == [0x08, 0x00];
  }

  lemma UdpLayout(ck: U16, payload: Bytes)
    requires |payload| == 20
    ensures var u := Udp(ck, payload); u[..6] == [0x0e, 0xc9, 0x0e, 0xc9, 0, 28] && u[8..] == payload
  {
    assert Be16(3785) == [0x0e, 0xc9] && Be16(28) == [0, 28];
  }

  /** The IPv6 frame. */
  lemma EchoLayoutV6(ifMac: Bytes, dstMac: Bytes, local: Bytes, discr: Bytes, number: Bytes, stamp: Bytes)
    requires |ifMac| == 6 && |dstMac| == 6 && |local| == 16 && |discr| == 4 && |number| == 4 && |stamp| == 8
    ensures var f := EchoV6(ifMac, dstMac, local, Payload(discr, number, stamp));
      && f.l2 == dstMac + ifMac + [0x86, 0xdd] && f.vtf == [0x60, 0, 0, 0] && f.plen == 28
      && f.nh == 17 && f.hop == 255 && f.src == local && f.dst == local
      && |f.payload| == 28 && f.payload[..6] == [0x0e, 0xc9, 0x0e, 0xc9, 0, 28]
      && f.payload[8..] == [0x7a, 0x62, 0x66, 0x64] + discr + number + stamp
  {
    UdpLayout(UdpCk(local, local, Payload(discr, number, stamp)), Payload(discr, number, stamp));
    assert Be16(ET_IPV6) == [0x86, 0xdd];
  }

  lemma UdpCkValid(src: Bytes, dst: Bytes, payload: Bytes)
    requires |payload| == 20
    ensures UdpCk(src, dst, payload) != 0
    ensures UdpSum(src, dst, Udp(UdpCk(src, dst, payload), payload)) % 0xffff == 0
  {
    var sum, ck := UdpSum(src, dst, Udp(0, payload)), UdpCk(src, dst, payload);
    UdpBytes(0, payload);
    UdpBytes(ck, payload);
    assert UdpSum(src, dst, Udp(ck, payload)) == sum + ck;
    FoldedIsResidue(sum);
    ResidueMod(sum);
    Congruent(sum, Residue(sum));
    var k := (sum - Residue(sum)) / 0xffff;
    if Complement(Folded(sum)) == 0 {
      assert sum + ck == (k + 2) * 0xffff;
      Shift(0, k + 2);
    } else {
      assert sum + ck == (k + 1) * 0xffff;
      Shift(0, k + 1);
    }
  }

  lemma EchoHeaderValid(ifMac: Bytes, dstMac: Bytes, local: Bytes, payload: Bytes)
    requires |ifMac| == 6 && |dstMac| == 6 && |local| == 4 && |payload| == 20
    ensures Folded(SumBytes(EchoV4(ifMac, dstMac, local, payload).Header())) == 0xffff
    ensures HeaderSum(EchoV4(ifMac, dstMac, local, payload)) % 0xffff == 0
  {
    var f := EchoV4(ifMac, dstMac, local, payload);
    var g := f.(ck := 0);
    HeaderSumIsSum(f);
    HeaderSumIsSum(g);
    var sum := HeaderSum(g);
    assert HeaderSum(f) == sum + Complement(Folded(sum));
    assert FromBe16(g.ttl, g.proto) > 0;
    SelfChecks(sum);
    FoldedIsResidue(HeaderSum(f));
    ResidueMod(HeaderSum(f));
  }

  lemma PayloadReadsBack(ck: U16, discr: Bytes, number: Bytes, stamp: Bytes)
    requires |discr| == 4 && |number| == 4 && |stamp| == 8
    ensures var udp := Udp(ck, Payload(discr, number, stamp)); udp[8..12] == MAGIC && udp[12..16] == discr
  {
    var udp, p := Udp(ck, Payload(discr, number, stamp)), Payload(discr, number, stamp);
    assert udp[8..] == p;
    SliceOfDrop(udp, 8, 8, 4);
    SliceOfDrop(udp, 8, 12, 4);
    assert p[0..4] == MAGIC && p[4..8] == discr;
  }

  /** The Echo loop over IPv4: from one to 255 reflections by nodes that do not take the frame for theirs,
      then home. Both checksums are valid on the way out and, modulo 65535, on the way back, and the
      originator reads the discriminator it wrote. */
  lemma EchoLoopV4(ifMac: Bytes, dstMac: Bytes, local: Bytes, discr: Bytes, number: Bytes, stamp: Bytes,
      nodes: seq<set<Bytes>>, ours: set<Bytes>, timers: set<Bytes>)
    requires |ifMac| == 6 && |dstMac| == 6 && |local| == 4 && |discr| == 4 && |number| == 4 && |stamp| == 8
    requires Strangers(nodes, local, local) && local in ours && discr in timers
    ensures var f := EchoV4(ifMac, dstMac, local, Payload(discr, number, stamp));
      var home := Walk(HopV4, f, nodes);
      && (home.Some? <==> |nodes| <= 255)
      && (home.Some? ==>
            var g := home.value;
            && g.Ok() && g.ttl == 255 - |nodes|
            && HeaderSum(g) % 0xffff == 0 && UdpSum(g.src, g.dst, g.rest) % 0xffff == 0
            && ReflectV4(g, ours, timers) == Returned(Some(discr)))
  {
    var payload := Payload(discr, number, stamp);
    EchoHeaderValid(ifMac, dstMac, local, payload);
    UdpCkValid(local, local, payload);
    var f := EchoV4(ifMac, dstMac, local, payload);
    BouncesV4(f, nodes);
    if |nodes| <= 255 {
      BouncesKeepSum(f, nodes);
    }
    PayloadReadsBack(UdpCk(local, local, payload), discr, number, stamp);
  }

  /** The IPv6 loop. */
  lemma EchoLoopV6(ifMac: Bytes, dstMac: Bytes, local: Bytes, discr: Bytes, number: Bytes, stamp: Bytes,
      nodes: seq<set<Bytes>>, ours: set<Bytes>, timers: set<Bytes>)
    requires |ifMac| == 6 && |dstMac| == 6 && |local| == 16 && |discr| == 4 && |number| == 4 && |stamp| == 8
    requires Strangers(nodes, local, local) && local in ours && discr in timers
    ensures var f := EchoV6(ifMac, dstMac, local, Payload(discr, number, stamp));
      var home := Walk(HopV6, f, nodes);
      && (home.Some? <==> |nodes| <= 255)
      && (home.Some? ==>
            var g := home.value;
            && g.Ok() && g.hop == 255 - |nodes| && UdpSum(g.src, g.dst, g.payload) % 0xffff == 0
            && ReflectV6(g, ours, timers) == Returned(Some(discr)))
  {
    var payload := Payload(discr, number, stamp);
    UdpCkValid(local, local, payload);
    BouncesV6(EchoV6(ifMac, dstMac, local, payload), nodes);
    PayloadReadsBack(UdpCk(local, local, payload), discr, number, stamp);
  }
}
