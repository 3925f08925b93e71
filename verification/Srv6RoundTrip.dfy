/** A packet through an SRv6 path: imposition, the segment endpoints in order, and what comes out. */
module Srv6RoundTrip {
  import opened Packet
  import opened Wrappers
  import opened Srv6
  import opened Srv6Impose
  import opened Srv6Laws
  import opened NodeWalk

  /** One endpoint on the path, and the Ethernet header and hop limit its forwarding leaves. */
  datatype Node = Node(sid: LocalSid, l2: Bytes, hop: Byte)
  {
    predicate Ok()
    {
      |l2| == 14 && Endpoint(sid.behavior)
    }
  }

  predicate Path(nodes: seq<Node>)
  {
    forall i | 0 <= i < |nodes| :: nodes[i].Ok()
  }

  /** What one endpoint sends on, the way its behavior says. `None` when it does anything else. */
  function Visit(f: Ip6, node: Node): Option<Ip6>
  {
    if !f.Ok() || !node.Ok() then None
    else
      match EndStep(f, node.sid)
      case Kept(v, g) => if v == Way(node.sid) && g.Ok() then Some(Transit(g, node.l2, node.hop)) else None
      case _ => None
  }

  // ---- any frame with segments left ----

  /** A frame whose SRH holds the next segments down to entry 0. */
  predicate OnPath(f: Ip6)
  {
    && f.Ok() && f.nh == PROTO_ROUTING && |f.payload| >= 8
    && f.payload[3] <= MAX_SEGS && 8 + 16 * f.payload[3] as int <= |f.payload|
  }

  /** The frame with `left` segments left, the segment of entry `left` active. */
  function Arrived(f: Ip6, left: nat, l2: Bytes, hop: Byte): (g: Ip6)
    requires OnPath(f) && left < f.payload[3] && |l2| == 14
    ensures g.Ok()
  {
    f.(l2 := l2, hop := hop, dst := Entry(f.payload, left).value, payload := f.payload[3 := left])
  }

  lemma SlAside(payload: Bytes, x: Byte, i: nat)
    requires |payload| >= 8
    ensures Entry(payload[3 := x], i) == Entry(payload, i)
  {
    if 8 + 16 * i + 16 <= |payload| {
      assert payload[3 := x][8 + 16 * i..8 + 16 * i + 16] == payload[8 + 16 * i..8 + 16 * i + 16];
    }
  }

  /** What enters endpoint `i`: `i` segments fewer are left. */
  function Entering(f: Ip6, nodes: seq<Node>, i: nat): (g: Ip6)
    requires OnPath(f) && Path(nodes) && i <= |nodes| <= f.payload[3]
    ensures g.Ok()
  {
    if i == 0 then f else Arrived(f, f.payload[3] - i, nodes[i - 1].l2, nodes[i - 1].hop)
  }

  lemma EnteringPath(f: Ip6, nodes: seq<Node>, i: nat)
    requires OnPath(f) && Path(nodes) && i <= |nodes| <= f.payload[3]
    ensures var g := Entering(f, nodes, i);
      && OnPath(g) && g.payload[3] == f.payload[3] - i
      && forall k: nat :: Entry(g.payload, k) == Entry(f.payload, k)
  {
    forall k: nat ensures Entry(Entering(f, nodes, i).payload, k) == Entry(f.payload, k) {
      SlAside(f.payload, f.payload[3] - i, k);
    }
  }

  lemma VisitEntering(f: Ip6, nodes: seq<Node>, i: nat)
    requires OnPath(f) && Path(nodes) && i < |nodes| <= f.payload[3]
    ensures var g := Entering(f, nodes, i + 1);
      Visit(Entering(f, nodes, i), nodes[i]) ==
        if i + 1 == f.payload[3] && nodes[i].sid.psp then PopSrh(g) else Some(g)
  {
    var e, left := Entering(f, nodes, i), f.payload[3] - i - 1;
    EnteringPath(f, nodes, i);
    var next := Entry(f.payload, left);
    assert Entry(e.payload, left) == next;
    assert f.payload[3 := left + 1][3 := left] == f.payload[3 := left];
    assert Transit(Advance(e, next.value), nodes[i].l2, nodes[i].hop) == Entering(f, nodes, i + 1);
  }

  lemma VisitMiddle(f: Ip6, nodes: seq<Node>, i: nat)
    requires OnPath(f) && Path(nodes) && i + 1 < |nodes| <= f.payload[3]
    ensures Visit(Entering(f, nodes, i), nodes[i]) == Some(Entering(f, nodes, i + 1))
  {
    VisitEntering(f, nodes, i);
  }

  lemma {:induction false} WalkPrefix(f: Ip6, nodes: seq<Node>, i: nat)
    requires OnPath(f) && Path(nodes) && i < |nodes| <= f.payload[3]
    ensures Walk(Visit, f, nodes[..i]) == Some(Entering(f, nodes, i))
  {
    if i > 0 {
      WalkPrefix(f, nodes, i - 1);
      assert nodes[..i][..i - 1] == nodes[..i - 1];
      VisitMiddle(f, nodes, i - 1);
    }
  }

  /** The end of a path: as many segments fewer left as it has endpoints, the next one the destination;
      the last endpoint also pops the SRH when none is left and its SID says so. Nothing else but the
      Ethernet header and the hop limit has changed. */
  function PathEnd(f: Ip6, nodes: seq<Node>): Option<Ip6>
    requires OnPath(f) && Path(nodes) && 1 <= |nodes| <= f.payload[3]
  {
    var left, end := f.payload[3] - |nodes|, nodes[|nodes| - 1];
    var g := Arrived(f, left, end.l2, end.hop);
    if left == 0 && end.sid.psp then PopSrh(g) else Some(g)
  }

  lemma VisitLast(f: Ip6, nodes: seq<Node>)
    requires OnPath(f) && Path(nodes) && 1 <= |nodes| <= f.payload[3]
    ensures Visit(Entering(f, nodes, |nodes| - 1), nodes[|nodes| - 1]) == PathEnd(f, nodes)
  {
    VisitEntering(f, nodes, |nodes| - 1);
  }

  /** Endpoints in order take the packet to the end of the path. */
  lemma WalkArrives(f: Ip6, nodes: seq<Node>)
    requires OnPath(f) && Path(nodes) && 1 <= |nodes| <= f.payload[3]
    ensures Walk(Visit, f, nodes) == PathEnd(f, nodes)
  {
    WalkPrefix(f, nodes, |nodes| - 1);
    VisitLast(f, nodes);
  }

  // ---- a segment list in the SRH ----

  lemma SliceInside(a: Bytes, b: Bytes, c: Bytes, i: nat, j: nat)
    requires i <= j <= |b|
    ensures (a + b + c)[|a| + i..|a| + j] == b[i..j]
  {
  }

  lemma EntryOfList(nh: Byte, ext: Byte, sl: Byte, last: Byte, list: Bytes, rest: Bytes, i: nat)
    requires 16 * i + 16 <= |list|
    ensures Entry(SrhBytes(nh, ext, sl, last, list) + rest, i) == Some(list[16 * i..16 * i + 16])
  {
    SliceInside([nh, ext, 4, sl, last, 0, 0, 0], list, rest, 16 * i, 16 * i + 16);
  }

  /** Entry `i` of the list is the `i`-th segment from the end. */
  lemma EntryIsSegment(nh: Byte, ext: Byte, sl: Byte, last: Byte, segs: seq<Bytes>, rest: Bytes, i: nat)
    requires Segments(segs) && i < |segs|
    ensures Entry(SrhBytes(nh, ext, sl, last, Reversed(segs)) + rest, i) == Some(segs[|segs| - 1 - i])
  {
    ReversedAt(segs, i);
    EntryOfList(nh, ext, sl, last, Reversed(segs), rest, i);
  }

  lemma SrhEnds(nh: Byte, ext: Byte, sl: Byte, last: Byte, list: Bytes, rest: Bytes)
    ensures var h := SrhBytes(nh, ext, sl, last, list);
      && (h + rest)[0] == nh && (h + rest)[1] == ext && (h + rest)[3] == sl
      && (h + rest)[|h|..] == rest && (h + rest)[3 := 0][|h|..] == rest
  {
  }

  // ---- H.Encaps ----

  lemma OuterEntry(l2: Bytes, plen: U16, src: Bytes, segs: seq<Bytes>, proto: Byte, inner: Bytes, k: nat)
    requires |l2| == 14 && |src| == 16 && Segments(segs) && 2 <= |segs| <= MAX_SEGS && 1 <= k < |segs|
    ensures var f, n := OuterFrame(l2, plen, 64, src, segs, 0, proto, inner), |segs|;
      OnPath(f) && f.payload[3] == n - 1 && f.dst == segs[0] && Entry(f.payload, n - 1 - k) == Some(segs[k])
  {
    var n := |segs|;
    SrhEnds(proto, 2 * (n - 1), n - 1, n - 2, Reversed(segs[1..]), inner);
    EntryIsSegment(proto, 2 * (n - 1), n - 1, n - 2, segs[1..], inner, n - 1 - k);
  }

  /** The endpoint of segment `k` is handed the frame with segment `k` as its destination. */
  lemma HEncapsVisits(l2: Bytes, plen: U16, src: Bytes, segs: seq<Bytes>, proto: Byte, inner: Bytes, nodes: seq<Node>,
      k: nat)
    requires |l2| == 14 && |src| == 16 && Segments(segs) && 2 <= |segs| <= MAX_SEGS
    requires Path(nodes) && |nodes| == |segs| - 1 && k < |nodes|
    ensures var at := Walk(Visit, OuterFrame(l2, plen, 64, src, segs, 0, proto, inner), nodes[..k]);
      at.Some? && at.value.Ok() && at.value.dst == segs[k] && at.value.src == src
  {
    OuterEntry(l2, plen, src, segs, proto, inner, if k == 0 then 1 else k);
    WalkPrefix(OuterFrame(l2, plen, 64, src, segs, 0, proto, inner), nodes, k);
  }

  /** An SRH of `len` bytes with no segment left, over `inner`. */
  predicate ExhaustedSrh(f: Ip6, len: nat, proto: Byte, inner: Bytes)
  {
    && f.nh == PROTO_ROUTING && 8 <= len <= 104 && len <= |f.payload|
    && f.payload[0] == proto && len == 8 * (f.payload[1] as int + 1) && f.payload[3] == 0 && f.payload[len..] == inner
  }

  /** The family a decapsulating SID is for, by EtherType. */
  predicate Uncovers(sid: LocalSid, et: U16)
  {
    || (et == 0x0800 && sid.behavior in {EndDT4, EndDT46})
    || (et == 0x86dd && sid.behavior in {EndDT6, EndDT46})
  }

  /** The last endpoint strips the outer header and an exhausted SRH, or the outer header alone. */
  lemma DecapExposes(f: Ip6, sid: LocalSid, et: U16, srhLen: nat, inner: Bytes)
    requires f.Ok() && Uncovers(sid, et)
    requires srhLen == 0 ==> f.nh == InnerProto(et) && f.payload == inner
    requires srhLen > 0 ==> ExhaustedSrh(f, srhLen, InnerProto(et), inner)
    ensures DecapStep(f, sid) == Stripped(ToTable(sid.vrf), f.l2[..12] + Be16(et) + inner)
  {
  }

  /** The outer frame at its last endpoint, and what a pop makes of it. */
  lemma OuterArrived(l2: Bytes, plen: U16, src: Bytes, segs: seq<Bytes>, proto: Byte, inner: Bytes, l2': Bytes,
      hop': Byte)
    requires |l2| == 14 && |l2'| == 14 && |src| == 16 && Segments(segs) && 2 <= |segs| <= MAX_SEGS
    ensures var f, n := OuterFrame(l2, plen, 64, src, segs, 0, proto, inner), |segs|;
      && OnPath(f) && f.payload[3] == n - 1
      && var g := Arrived(f, 0, l2', hop');
      && ExhaustedSrh(g, SrhLen(n), proto, inner) && g.l2 == l2'
      && g.dst == segs[n - 1]
      && PopSrh(g) ==
        if plen < SrhLen(n) then None else Some(g.(nh := proto, plen := plen - SrhLen(n), payload := inner))
  {
    var n := |segs|;
    SrhEnds(proto, 2 * (n - 1), n - 1, n - 2, Reversed(segs[1..]), inner);
    EntryIsSegment(proto, 2 * (n - 1), n - 1, n - 2, segs[1..], inner, 0);
  }

  /** The path gives the inner packet back byte for byte under its EtherType - unless its last endpoint
      pops an SRH of `len` bytes that the payload length does not cover. */
  ghost predicate Recovers(f: Ip6, nodes: seq<Node>, last: LocalSid, et: U16, len: nat, inner: Bytes)
    requires f.Ok() && Path(nodes)
  {
    var pops := nodes != [] && nodes[|nodes| - 1].sid.psp;
    var out := Walk(Visit, f, nodes);
    && (out == None <==> pops && f.plen < len)
    && (out.Some? ==>
      out.value.Ok()
      && DecapStep(out.value, last) == Stripped(ToTable(last.vrf), out.value.l2[..12] + Be16(et) + inner))
  }

  /** The end of a path over an SRH of `len` bytes. */
  lemma PathDecap(f: Ip6, nodes: seq<Node>, last: LocalSid, et: U16, len: nat, inner: Bytes)
    requires Path(nodes) && nodes != [] && OnPath(f) && f.payload[3] == |nodes|
    requires Uncovers(last, et)
    requires var end := nodes[|nodes| - 1];
      var g := Arrived(f, 0, end.l2, end.hop);
      && ExhaustedSrh(g, len, InnerProto(et), inner)
      && PopSrh(g) ==
        if f.plen < len then None else Some(g.(nh := InnerProto(et), plen := f.plen - len, payload := inner))
    ensures Recovers(f, nodes, last, et, len, inner)
  {
    var end := nodes[|nodes| - 1];
    var g := Arrived(f, 0, end.l2, end.hop);
    WalkArrives(f, nodes);
    if !end.sid.psp {
      DecapExposes(g, last, et, len, inner);
    } else if f.plen >= len {
      DecapExposes(g.(nh := InnerProto(et), plen := f.plen - len, payload := inner), last, et, 0, inner);
    }
  }

  lemma SingleSegment(l2: Bytes, plen: U16, src: Bytes, segs: seq<Bytes>, et: U16, inner: Bytes, last: LocalSid)
    requires |l2| == 14 && |src| == 16 && Segments(segs) && |segs| == 1
    requires Uncovers(last, et)
    ensures Recovers(OuterFrame(l2, plen, 64, src, segs, 0, InnerProto(et), inner), [], last, et, 0, inner)
  {
    DecapExposes(OuterFrame(l2, plen, 64, src, segs, 0, InnerProto(et), inner), last, et, 0, inner);
  }

  /** H.Encaps round trip: one to six segments, the endpoints in order with any flavors, and the decap at
      the last segment recover the inner packet; without exception when the outer length fits 16 bits. */
  lemma HEncapsRoundTrip(l2: Bytes, src: Bytes, segs: seq<Bytes>, et: U16, inner: Bytes, nodes: seq<Node>,
      last: LocalSid)
    requires |l2| == 14 && |src| == 16 && Segments(segs) && 1 <= |segs| <= 6
    requires Path(nodes) && |nodes| == |segs| - 1
    requires Uncovers(last, et)
    ensures var n, plen := |segs|, OuterPlen(14 + |inner|, |segs|);
      var f := OuterFrame(l2, plen, 64, src, segs, 0, InnerProto(et), inner);
      && Recovers(f, nodes, last, et, |f.payload| - |inner|, inner)
      && f.dst == segs[0] && f.src == src && f.hop == 64 && f.vtf == [0x60, 0, 0, 0] && f.l2 == l2
      && f.plen == |f.payload| % 0x1_0000 && |f.payload| == |inner| + if n == 1 then 0 else 8 + 16 * (n - 1)
  {
    var plen := OuterPlen(14 + |inner|, |segs|);
    if |segs| == 1 {
      SingleSegment(l2, plen, src, segs, et, inner, last);
    } else {
      var end := nodes[|nodes| - 1];
      OuterArrived(l2, plen, src, segs, InnerProto(et), inner, end.l2, end.hop);
      PathDecap(OuterFrame(l2, plen, 64, src, segs, 0, InnerProto(et), inner), nodes, last, et, SrhLen(|segs|), inner);
    }
  }

  /** The outer packet as RFC 8754 section 2 lays it out: one segment needs no SRH; of more the first is the
      destination alone, and the SRH lists the others, the last one first, with one fewer left than segments. */
  lemma HEncapsLayout(l2: Bytes, plen: U16, src: Bytes, segs: seq<Bytes>, proto: Byte, inner: Bytes, i: nat)
    requires |l2| == 14 && |src| == 16 && Segments(segs) && 1 <= |segs| <= 6 && i < |segs|
    ensures var f, n := OuterFrame(l2, plen, 64, src, segs, 0, proto, inner), |segs|;
      && f.dst == segs[0] && f.src == src
      && if n == 1 then f.nh == proto && f.payload == inner
         else
           && f.nh == 43 && f.payload[..8] == [proto, 2 * (n - 1), 4, n - 1, n - 2, 0, 0, 0]
           && (i > 0 ==> f.payload[8 + 16 * (n - 1 - i)..24 + 16 * (n - 1 - i)] == segs[i])
           && f.payload[8 + 16 * (n - 1)..] == inner
  {
    var n := |segs|;
    if n > 1 {
      SrhEnds(proto, 2 * (n - 1), n - 1, n - 2, Reversed(segs[1..]), inner);
      if i > 0 {
        EntryIsSegment(proto, 2 * (n - 1), n - 1, n - 2, segs[1..], inner, n - 1 - i);
      }
    }
  }

  // ---- H.Insert ----

  /** The repair's SRH: all its segments and, as entry 0, the destination they displace; the packet's own next
      header and payload follow. */
  lemma HInsertLayout(f: Ip6, segs: seq<Bytes>, i: nat)
    requires f.Ok() && Segments(segs) && 1 <= |segs| <= 6 && i < |segs|
    ensures var g, n := InsertedFrame(f, segs, 0), |segs|;
      && g.dst == segs[0] && g.nh == 43 && g.payload[..8] == [f.nh, 2 * (n + 1), 4, n, n, 0, 0, 0]
      && g.payload[8..24] == f.dst && g.payload[8 + 16 * (n - i)..24 + 16 * (n - i)] == segs[i]
      && g.payload[8 + 16 * (n + 1)..] == f.payload
      && g == f.(nh := 43, plen := (f.plen + 8 + 16 * (n + 1)) % 0x1_0000, dst := segs[0], payload := g.payload)
  {
    var n, all := |segs|, segs + [f.dst];
    SrhEnds(f.nh, 2 * (n + 1), n, n, Reversed(all), f.payload);
    EntryIsSegment(f.nh, 2 * (n + 1), n, n, all, f.payload, 0);
    EntryIsSegment(f.nh, 2 * (n + 1), n, n, all, f.payload, n - i);
    assert all[n] == f.dst && all[i] == segs[i] && all[0] == segs[0];
  }

  /** The inserted frame at the end of the repair path, and the pop there: it restores the packet, unless
      the SRH is too long for `pop_srh` - six repair segments and the destination - or the grown payload
      length did not fit 16 bits. */
  lemma InsertedArrived(f: Ip6, segs: seq<Bytes>, l2: Bytes, hop: Byte)
    requires f.Ok() && |l2| == 14 && Segments(segs) && 1 <= |segs| <= MAX_SEGS
    ensures var g, n := InsertedFrame(f, segs, 0), |segs|;
      && OnPath(g) && g.payload[3] == n
      && var end := Arrived(g, 0, l2, hop);
      && end.dst == f.dst && end.payload[1] == 2 * (n + 1)
      && PopSrh(end) == if n <= 5 && f.plen + 8 + 16 * (n + 1) < 0x1_0000 then Some(f.(l2 := l2, hop := hop)) else None
  {
    var n := |segs|;
    var all := segs + [f.dst];
    SrhEnds(f.nh, 2 * (n + 1), n, n, Reversed(all), f.payload);
    EntryIsSegment(f.nh, 2 * (n + 1), n, n, all, f.payload, 0);
    assert all[n] == f.dst;
  }

  /** H.Insert round trip: the repair endpoints in order and the pop at the last of them restore the
      original packet - destination, next header, payload length and payload - but for the hop limit and
      the Ethernet header, exactly when there are at most five segments and the grown length fits. */
  lemma HInsertRoundTrip(f: Ip6, segs: seq<Bytes>, nodes: seq<Node>)
    requires f.Ok() && f.hop > 1 && Segments(segs) && 1 <= |segs| <= MAX_SEGS
    requires Path(nodes) && |nodes| == |segs| && nodes[|nodes| - 1].sid.psp
    ensures var out := Walk(Visit, InsertedFrame(f.(hop := f.hop - 1), segs, 0), nodes);
      && (out.Some? <==> |segs| <= 5 && f.plen + 8 + 16 * (|segs| + 1) < 0x1_0000)
      && (out.Some? ==> out.value == f.(l2 := nodes[|nodes| - 1].l2, hop := nodes[|nodes| - 1].hop))
  {
    var end := nodes[|nodes| - 1];
    InsertedArrived(f.(hop := f.hop - 1), segs, end.l2, end.hop);
    WalkArrives(InsertedFrame(f.(hop := f.hop - 1), segs, 0), nodes);
  }

  /** Six repair segments: the walk itself delivers the destination, the pop is what refuses. */
  lemma SixSegmentsAreNotPopped(f: Ip6, segs: seq<Bytes>, l2: Bytes, hop: Byte)
    requires f.Ok() && |l2| == 14 && Segments(segs) && |segs| == 6
    ensures OnPath(InsertedFrame(f, segs, 0)) && InsertedFrame(f, segs, 0).payload[3] == 6
    ensures var end := Arrived(InsertedFrame(f, segs, 0), 0, l2, hop);
      end.payload[1] == 14 && PopSrh(end) == None && end.dst == f.dst
  {
    InsertedArrived(f, segs, l2, hop);
  }
}
