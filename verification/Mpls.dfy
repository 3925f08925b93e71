/** EVPN over MPLS (section 2.1 of RFC 3032, section 8.3 of RFC 7432): label stack imposition, the local
    disposition loop, and the frame that comes out. */
module Mpls {
  import opened Packet
  import opened Wrappers
  import opened EsBits
  import opened IpTtl

  const MAX_LABELS := 3
  const ET_MPLS := 0x8847
  const PIPE_TTL: Byte := 255

  type Label = x: int | 0 <= x < 0x10_0000
  type Tc = x: int | 0 <= x < 8

  // ---- label stack entries ----

  datatype Lse = Lse(value: Label, tc: Tc, bottom: bool, ttl: Byte)

  function Pack(e: Lse): (bs: Bytes)
    ensures |bs| == 4
  {
    [e.value / 4096, e.value / 16 % 256, e.value % 16 * 16 + e.tc * 2 + (if e.bottom then 1 else 0), e.ttl]
  }

  function Unpack(bs: Bytes): Lse
    requires |bs| == 4
  {
    var a: int, b: int := bs[0], bs[1];
    Lse(a * 4096 + b * 16 + bs[2] / 16, bs[2] / 2 % 8, bs[2] % 2 == 1, bs[3])
  }

  lemma ThirdByte(low: nat, tc: Tc, s: nat)
    requires low < 16 && s < 2
    ensures var b := low * 16 + tc * 2 + s; b / 16 == low && b / 2 % 8 == tc && b % 2 == s
  {
  }

  lemma UnpackPack(e: Lse)
    ensures Unpack(Pack(e)) == e
  {
    var low, s := e.value % 16, if e.bottom then 1 else 0;
    ThirdByte(low, e.tc, s);
    var mid := e.value / 16;
    assert mid / 256 == e.value / 4096 && mid == mid / 256 * 256 + mid % 256;
  }

  lemma PackUnpack(bs: Bytes)
    requires |bs| == 4
    ensures Pack(Unpack(bs)) == bs
  {
    var l := bs[0] as int * 4096 + bs[1] as int * 16 + bs[2] / 16;
    assert l / 4096 == bs[0] && l / 16 % 256 == bs[1] && l % 16 == bs[2] / 16;
  }

  /** Only 20 bits of a configured label reach the wire. */
  function LabelOf(x: nat): Label
  {
    x % 0x10_0000
  }

  /** An imposed entry. */
  function Imposed(x: nat, bottom: bool): Lse
  {
    Lse(LabelOf(x), 0, bottom, PIPE_TTL)
  }

  /** Transport entries: none of them the bottom. */
  function Transport(labels: seq<nat>): (bs: Bytes)
    ensures |bs| == 4 * |labels|
  {
    if labels == [] then [] else Pack(Imposed(labels[0], false)) + Transport(labels[1..])
  }

  lemma {:induction false} TransportSnoc(labels: seq<nat>, x: nat)
    ensures Transport(labels + [x]) == Transport(labels) + Pack(Imposed(x, false))
  {
    if labels == [] {
      assert [x][1..] == [];
      assert Transport([]) == [];
    } else {
      assert (labels + [x])[1..] == labels[1..] + [x];
      TransportSnoc(labels[1..], x);
    }
  }

  /** An imposed stack: the last entry is the bottom. */
  function Stack(labels: seq<nat>): (bs: Bytes)
    ensures |bs| == 4 * |labels|
  {
    if labels == [] then [] else Pack(Imposed(labels[0], |labels| == 1)) + Stack(labels[1..])
  }

  lemma {:induction false} StackSplits(transport: seq<nat>, tail: seq<nat>)
    requires tail != []
    ensures Stack(transport + tail) == Transport(transport) + Stack(tail)
  {
    if transport == [] {
      assert transport + tail == tail;
    } else {
      assert (transport + tail)[1..] == transport[1..] + tail;
      StackSplits(transport[1..], tail);
    }
  }

  /** Any label stack: entries up to and including the first bottom one, and what lies behind it. */
  function Unstack(d: Bytes): Option<(seq<Lse>, Bytes)>
    decreases |d|
  {
    if |d| < 4 then None
    else
      var e := Unpack(d[..4]);
      if e.bottom then Some(([e], d[4..]))
      else
        match Unstack(d[4..])
        case None => None
        case Some((es, rest)) => Some(([e] + es, rest))
  }

  lemma UnstackEntry(e: Lse, below: Bytes, behind: Bytes)
    ensures Unstack(Pack(e) + below + behind) ==
      if e.bottom then Some(([e], below + behind))
      else match Unstack(below + behind) case None => None case Some((es, rest)) => Some(([e] + es, rest))
  {
    UnpackPack(e);
    var d := Pack(e) + below + behind;
    assert d[..4] == Pack(e) && d[4..] == below + behind;
  }

  function Entries(labels: seq<nat>): (es: seq<Lse>)
    ensures |es| == |labels|
    ensures forall i | 0 <= i < |labels| :: es[i] == Imposed(labels[i], i == |labels| - 1)
  {
    seq(|labels|, i requires 0 <= i < |labels| => Imposed(labels[i], i == |labels| - 1))
  }

  /** Reading an imposed stack ends at its last entry: it alone is marked bottom. */
  lemma {:induction false} OneBottom(labels: seq<nat>, rest: Bytes)
    requires labels != []
    ensures Unstack(Stack(labels) + rest) == Some((Entries(labels), rest))
  {
    var e := Imposed(labels[0], |labels| == 1);
    UnstackEntry(e, Stack(labels[1..]), rest);
    if |labels| > 1 {
      OneBottom(labels[1..], rest);
      assert Entries(labels) == [e] + Entries(labels[1..]);
    } else {
      assert Stack(labels[1..]) + rest == rest;
      assert Entries(labels) == [e];
    }
  }

  // ---- tables ----

  datatype Op = Swap | PopL3 | Pop | PopL2 | PopXc | PopXcVlan | Unknown

  datatype MplsEntry = MplsEntry(op: Op, nexthop: nat, id: nat, uniform: bool)

  /** `macs` are the resolved Ethernet addresses, when there are any. */
  datatype NextHop = NextHop(labels: seq<nat>, oif: nat, macs: Option<Bytes>)

  datatype Tables = Tables(fib: map<nat, MplsEntry>, nexthops: map<nat, NextHop>, esi: map<nat, nat>, leaf: set<nat>)

  /** What becomes of a frame: up the stack, dropped, out a port, bridged with the `es_bits` set, routed in a
      VRF, or handed to the cross-connect, which is outside this model. */
  datatype Verdict =
    | Up
    | Drop
    | Redirect(oif: nat)
    | Bridge(domain: nat, esBits: set<nat>)
    | Route(vrf: nat)
    | CrossConnect(id: nat, vlan: bool)

  datatype Outcome = Error | Out(verdict: Verdict, frame: Bytes)

  // ---- imposition ----

  /** An Ethernet header, a label stack and what it carries. */
  function Labeled(macs: Bytes, labels: seq<nat>, inner: Bytes): (d: Bytes)
    requires |macs| == 12
    ensures |d| == 14 + 4 * |labels| + |inner|
  {
    macs + Be16(ET_MPLS) + Stack(labels) + inner
  }

  /** The service label, and the ESI or leaf label under it when there is one. */
  function ServiceLabels(service: nat, extra: nat): (tail: seq<nat>)
    ensures 1 <= |tail| <= 2
  {
    if LabelOf(extra) == 0 then [service] else [service, LabelOf(extra)]
  }

  /** `l2_mpls_encap`, the adjacency resolved. */
  function Encap(d: Bytes, adj: Option<NextHop>, service: nat, extra: nat): Outcome
    requires adj.Some? && adj.value.macs.Some? ==> |adj.value.macs.value| == 12
  {
    if adj == None || adj.value.macs == None || |adj.value.labels| > MAX_LABELS then Out(Up, d)
    else Out(Redirect(adj.value.oif),
      Labeled(adj.value.macs.value, adj.value.labels + ServiceLabels(service, extra), d))
  }

  // ---- disposition ----

  /** `pop_head`: the top entry goes, the addresses stay. */
  function PopHead(d: Bytes, et: U16): Option<Bytes>
  {
    if |d| < 18 then None else Some(d[..12] + Be16(et) + d[18..])
  }

  function Strip(d: Bytes, n: nat, bd: nat, esBits: set<nat>): Outcome
  {
    if |d| < n + ETH_LEN then Error else Out(Bridge(bd, esBits), d[n..])
  }

  /** `pop_decap_l2`. */
  function PopDecapL2(d: Bytes, bottom: bool, bd: nat, t: Tables): Outcome
  {
    if bottom then Strip(d, 18, bd, {})
    else if |d| < 22 then Error
    else
      var e := Unpack(d[18..22]);
      if !e.bottom then Out(Drop, d)
      else if e.value in t.esi then Strip(d, 22, bd, {t.esi[e.value] % 64})
      else if e.value in t.leaf then Strip(d, 22, bd, {LEAF_BIT})
      else Out(Drop, d)
  }

  /** The EtherType a bottom pop exposes, from the payload's version. */
  function PoppedType(d: Bytes): Option<U16>
  {
    if |d| < 19 then None
    else if d[18] / 16 == 4 then Some(ET_IPV4)
    else if d[18] / 16 == 6 then Some(ET_IPV6)
    else None
  }

  /** `pop_decap_local`: to IP, for local routing. */
  function PopDecapLocal(d: Bytes, vrf: nat, ttl: Byte, uniform: bool): Outcome
  {
    var et := PoppedType(d);
    if et == None then Out(Drop, d)
    else
      var g := PopHead(d, et.value).value;
      var h := if uniform then Uniform(g, et.value, ttl) else Some(g);
      if h == None then Error else Out(if vrf != 0 then Route(vrf) else Up, h.value)
  }

  /** `pop_and_forward`: the rest of the stack, or the IP packet, out the nexthop. */
  function PopAndForward(d: Bytes, nh: NextHop, bottom: bool, ttl: Byte, uniform: bool): Outcome
    requires ttl > 0
  {
    var et := if bottom then PoppedType(d) else Some(ET_MPLS);
    if nh.macs == None || |nh.macs.value| != 12 then Out(Up, d)
    else if et == None then Out(Drop, d)
    else if |d| < 18 then Error
    else
      var g := PopHead(d, et.value).value;
      var h := if uniform && bottom then Uniform(g, et.value, ttl - 1) else Some(g);
      if h == None then Error else Out(Redirect(nh.oif), nh.macs.value + h.value[12..])
  }

  function PackAll(es: seq<Lse>): (bs: Bytes)
    ensures |bs| == 4 * |es|
  {
    if es == [] then [] else Pack(es[0]) + PackAll(es[1..])
  }

  lemma {:induction false} PackAllSnoc(es: seq<Lse>, e: Lse)
    ensures PackAll(es + [e]) == PackAll(es) + Pack(e)
  {
    if es == [] {
      assert [e][1..] == [];
      assert PackAll([]) == [];
    } else {
      assert (es + [e])[1..] == es[1..] + [e];
      PackAllSnoc(es[1..], e);
    }
  }

  /** The entries a swap imposes: the bottom mark stays with the innermost if the incoming label had it. */
  function SwapEntries(labels: seq<nat>, bottom: bool, ttl: Byte): (es: seq<Lse>)
    ensures |es| == |labels|
  {
    seq(|labels|, i requires 0 <= i < |labels| => Lse(LabelOf(labels[i]), 0, bottom && i == |labels| - 1, ttl))
  }

  /** `grow_swap`: the incoming label gives way to the nexthop's. */
  function GrowSwap(d: Bytes, nh: NextHop, bottom: bool, ttl: Byte): Outcome
    requires |d| >= 18 && ttl > 0
  {
    if |nh.labels| < 2 || |nh.labels| > MAX_LABELS || nh.macs == None || |nh.macs.value| != 12 then Out(Up, d)
    else
      Out(Redirect(nh.oif), nh.macs.value + Be16(ET_MPLS) + PackAll(SwapEntries(nh.labels, bottom, ttl - 1)) + d[18..])
  }

  /** What one iteration of `try_mpls_xdp` finds: a verdict, or a local pop that exposes the next label. */
  datatype Turn = Done(out: Outcome) | Next(frame: Bytes)

  function OneLabel(d: Bytes, t: Tables): Turn
  {
    if |d| < 14 then Done(Error)
    else if d[12..14] != Be16(ET_MPLS) then Done(Out(Up, d))
    else if |d| < 18 then Done(Error)
    else
      var e := Unpack(d[14..18]);
      if e.ttl <= 1 || e.value !in t.fib then Done(Out(Up, d)) else ByEntry(d, t, e, t.fib[e.value])
  }

  function ByEntry(d: Bytes, t: Tables, e: Lse, ent: MplsEntry): Turn
    requires |d| >= 18 && e.ttl > 1
  {
    if ent.op.PopL2? then Done(PopDecapL2(d, e.bottom, ent.id, t))
    else if ent.op.PopXc? || ent.op.PopXcVlan? then Done(Out(CrossConnect(ent.id, ent.op.PopXcVlan?), d))
    else if ent.nexthop !in t.nexthops then Done(Out(Up, d))
    else
      var nh := t.nexthops[ent.nexthop];
      if ent.op.PopL3? && e.bottom then Done(PopDecapLocal(d, ent.id, e.ttl, ent.uniform))
      else if (ent.op.Swap? || ent.op.Pop?) && nh.labels == [] then
        if nh.oif != 0 then Done(PopAndForward(d, nh, e.bottom, e.ttl, ent.uniform))
        else if e.bottom then Done(PopDecapLocal(d, ent.id, e.ttl, ent.uniform))
        else Next(PopHead(d, ET_MPLS).value)
      else if ent.op.Swap? && |nh.labels| > 1 then Done(GrowSwap(d, nh, e.bottom, e.ttl))
      else Done(Out(Up, d))
  }

  /** `try_mpls_xdp`: at most `rounds` labels of one frame. */
  function Disposition(d: Bytes, t: Tables, rounds: nat): Outcome
    decreases rounds
  {
    if rounds == 0 then Out(Up, d)
    else
      match OneLabel(d, t)
      case Done(out) => out
      case Next(g) => Disposition(g, t, rounds - 1)
  }
}
