/** SRv6 imposition: H.Encaps (reduced) and H.Insert, written field by field into a grown frame. */
module Srv6Impose {
  import opened Packet
  import opened Wrappers
  import opened Srv6

  lemma {:induction false} ReversedSnoc(segs: seq<Bytes>, seg: Bytes)
    requires Segments(segs) && |seg| == 16
    ensures Reversed(segs + [seg]) == seg + Reversed(segs)
  {
    if segs == [] {
      assert [seg][1..] == [];
      assert Reversed([]) == [];
    } else {
      assert (segs + [seg])[1..] == segs[1..] + [seg];
      ReversedSnoc(segs[1..], seg);
      assert seg + Reversed(segs[1..]) + segs[0] == seg + Reversed(segs);
    }
  }

  /** The segments `from` up to, not including, `to`. */
  function Slice(segs: seq<Bytes>, from: nat, to: nat): (r: seq<Bytes>)
    requires from <= to <= |segs| && Segments(segs)
    ensures Segments(r)
  {
    segs[from..to]
  }

  /** The last 16 free bytes of the list region take the next segment. */
  lemma SegmentStep(before: Bytes, left: Bytes, seg: Bytes, list: Bytes, after: Bytes)
    requires |seg| == 16 && |left| >= 16
    ensures Put(before + left + list + after, |before| + |left| - 16, seg) ==
      before + left[..|left| - 16] + (seg + list) + after
  {
    var keep := |left| - 16;
    assert left == left[..keep] + left[keep..];
    assert before + left + list + after == (before + left[..keep]) + left[keep..] + (list + after);
    PutAt(before + left[..keep], left[keep..], list + after, seg);
  }

  /** Store the segments `from..n` of a wire list of `n - from + extra` entries, whose entry `extra` is
      the last segment: segment `j` goes to entry `extra + n - 1 - j`. */
  method StoreSegments(p: Buffer, base: nat, segs: seq<Bytes>, from: nat, ghost before: Bytes, ghost room: Bytes,
      ghost after: Bytes)
    requires Segments(segs) && from <= |segs|
    requires p.data == before + room + after && |before| == base && |room| == 16 * (|segs| - from)
    modifies p
    ensures p.data == before + Reversed(Slice(segs, from, |segs|)) + after
  {
    var n := |segs|;
    assert room[..16 * (n - from)] == room;
    assert Slice(segs, from, from) == [];
    for j := from to n
      invariant p.data == before + room[..16 * (n - j)] + Reversed(Slice(segs, from, j)) + after
    {
      ghost var left, list := room[..16 * (n - j)], Reversed(Slice(segs, from, j));
      SegmentStep(before, left, segs[j], list, after);
      var ok := p.Store(base + 16 * (n - 1 - j), segs[j]);
      ReversedSnoc(Slice(segs, from, j), segs[j]);
      assert Slice(segs, from, j + 1) == Slice(segs, from, j) + [segs[j]];
      assert left[..16 * (n - 1 - j)] == room[..16 * (n - 1 - j)];
    }
    assert room[..0] == [];
  }

  /** The outer payload length, cut to 16 bits as the code cuts it. */
  function OuterPlen(frameLen: nat, n: nat): U16
  {
    ((if frameLen >= ETH_LEN then frameLen - ETH_LEN else 0) + SrhLen(n)) % 0x1_0000
  }

  /** `apply_hencap`. Nothing is written when the segment count is out of range or no encap source is set. */
  method ApplyHencap(p: Buffer, segs: seq<Bytes>, source: Option<Bytes>, et: U16, room: Bytes) returns (written: bool)
    requires Segments(segs) && (source.Some? ==> |source.value| == 16)
    requires |p.data| >= ETH_LEN && |room| == IP6_LEN + SrhLen(|segs|)
    modifies p
    ensures written == (1 <= |segs| <= MAX_SEGS && source.Some?)
    ensures !written ==> p.data == old(p.data)
    ensures written ==>
      var l2, inner := old(p.data)[..14], old(p.data)[14..];
      p.data == OuterFrame(l2, OuterPlen(|old(p.data)|, |segs|), 64, source.value, segs, 0, InnerProto(et),
        inner).Frame()
  {
    var n := |segs|;
    if n == 0 || n > MAX_SEGS {
      return false;
    }
    if source == None {
      return false;
    }
    var src := source.value;
    var proto := InnerProto(et);
    var srhLen := if n == 1 then 0 else 8 + 16 * (n - 1);
    var plen := ((if |p.data| >= ETH_LEN then |p.data| - ETH_LEN else 0) + srhLen) % 0x1_0000;
    var nh := if n == 1 then proto else PROTO_ROUTING;
    var l2, inner := p.data[..14], p.data[14..];
    p.Grow(ETH_LEN, room);
    var f := Ip6(l2, [0x60, 0, 0, 0], plen, nh, 64, src, segs[0], room[IP6_LEN..] + inner);
    BaseHeader(p, f, room[..IP6_LEN]);
    HeaderAndPayload(f);
    if n > 1 {
      ghost var h := f.(payload := []).Frame();
      OuterSrh(p, proto, segs, h, room[IP6_LEN..], inner);
      HeaderAndPayload(f.(payload := SrhBytes(proto, 2 * (n - 1), n - 1, n - 2, Reversed(segs[1..])) + inner));
    } else {
      assert room[IP6_LEN..] + inner == inner;
    }
    return true;
  }

  /** The SRH of an encapsulation: all segments but the first. */
  method OuterSrh(p: Buffer, proto: Byte, segs: seq<Bytes>, ghost h: Bytes, ghost room: Bytes, ghost inner: Bytes)
    requires Segments(segs) && 2 <= |segs| <= MAX_SEGS
    requires |h| == 54 && |room| == 8 + 16 * (|segs| - 1) && p.data == h + (room + inner)
    modifies p
    ensures p.data == h + (SrhBytes(proto, 2 * (|segs| - 1), |segs| - 1, |segs| - 2, Reversed(segs[1..])) + inner)
  {
    var n := |segs|;
    ghost var fixed: Bytes := [proto, 2 * (n - 1), 4, n - 1, n - 2, 0, 0, 0];
    SrhHeader(p, proto, 2 * (n - 1), n - 1, n - 2, h, room, inner);
    StoreSegments(p, SEGLIST_OFF, segs, 1, h + fixed, room[8..], inner);
    assert Slice(segs, 1, n) == segs[1..];
    assert (h + fixed) + Reversed(segs[1..]) + inner == h + ((fixed + Reversed(segs[1..])) + inner);
  }

  /** The forty bytes of an IPv6 header, field by field. */
  method BaseHeader(p: Buffer, f: Ip6, ghost room: Bytes)
    requires f.Ok() && |room| == IP6_LEN && p.data == f.l2 + room + f.payload
    modifies p
    ensures p.data == f.Frame()
  {
    ghost var r, w := room + f.payload, f.l2;
    assert p.data == w + r;
    Next(p, ETH_LEN, f.vtf, w, r);
    w, r := w + f.vtf, r[4..];
    Next(p, PLEN_OFF, Be16(f.plen), w, r);
    w, r := w + Be16(f.plen), r[2..];
    Next(p, NH_OFF, [f.nh], w, r);
    w, r := w + [f.nh], r[1..];
    Next(p, HOP_OFF, [f.hop], w, r);
    w, r := w + [f.hop], r[1..];
    Next(p, SRC_OFF, f.src, w, r);
    w, r := w + f.src, r[16..];
    Next(p, DST_OFF, f.dst, w, r);
    assert r[16..] == f.payload;
  }

  /** The eight fixed bytes of an SRH, behind the header bytes `h`. */
  method SrhHeader(p: Buffer, nh: Byte, ext: Byte, sl: Byte, last: Byte, ghost h: Bytes, ghost room: Bytes,
      ghost after: Bytes)
    requires |h| == 54 && |room| >= 8 && p.data == h + (room + after)
    modifies p
    ensures p.data == h + [nh, ext, 4, sl, last, 0, 0, 0] + room[8..] + after
  {
    ghost var w, r := h, room + after;
    Next(p, SRH_OFF, [nh], w, r);
    w, r := w + [nh], r[1..];
    Next(p, SRH_OFF + 1, [ext], w, r);
    w, r := w + [ext], r[1..];
    Next(p, SRH_OFF + 2, [4], w, r);
    w, r := w + [4], r[1..];
    Next(p, SL_OFF, [sl], w, r);
    w, r := w + [sl], r[1..];
    Next(p, SRH_OFF + 4, [last], w, r);
    w, r := w + [last], r[1..];
    Next(p, SRH_OFF + 5, [0], w, r);
    w, r := w + [0], r[1..];
    Next(p, SRH_OFF + 6, [0, 0], w, r);
    assert r[2..] == room[8..] + after;
    assert w + [0, 0] == h + [nh, ext, 4, sl, last, 0, 0, 0];
  }

  /** The base header of an insertion: next header, payload length, hop limit. */
  method PatchBase(p: Buffer, ghost g: Ip6, plen: U16, hop: Byte)
    requires g.Ok() && p.data == g.Frame()
    modifies p
    ensures p.data == g.(nh := PROTO_ROUTING, plen := plen, hop := hop).Frame()
  {
    PutNh(g, PROTO_ROUTING);
    var ok := p.Store(NH_OFF, [PROTO_ROUTING]);
    PutPlen(g.(nh := PROTO_ROUTING), plen);
    ok := p.Store(PLEN_OFF, Be16(plen));
    PutHop(g.(nh := PROTO_ROUTING, plen := plen), hop);
    ok := p.Store(HOP_OFF, [hop]);
  }

  lemma HeaderAndPayload(f: Ip6)
    requires f.Ok()
    ensures |f.(payload := []).Frame()| == 54 && f.Frame() == f.(payload := []).Frame() + f.payload
  {
  }

  /** The room behind the base header, and the base header patched. */
  method GrowBase(p: Buffer, ghost f: Ip6, plen: U16, hop: Byte, room: Bytes)
    requires f.Ok() && p.data == f.Frame()
    modifies p
    ensures p.data == f.(nh := PROTO_ROUTING, plen := plen, hop := hop, payload := []).Frame() + (room + f.payload)
  {
    HeaderAndPayload(f);
    p.Grow(SRH_OFF, room);
    ghost var g := f.(payload := room + f.payload);
    HeaderAndPayload(g);
    assert p.data == g.Frame();
    PatchBase(p, g, plen, hop);
    HeaderAndPayload(g.(nh := PROTO_ROUTING, plen := plen, hop := hop));
  }

  lemma InsertedBytes(f: Ip6, segs: seq<Bytes>)
    requires f.Ok() && Segments(segs) && 1 <= |segs| <= MAX_SEGS
    ensures var n := |segs|;
      var srh := SrhBytes(f.nh, 2 * (n + 1), n, n, Reversed(segs + [f.dst]));
      var g := f.(nh := PROTO_ROUTING, plen := (f.plen + 8 + 16 * (n + 1)) % 0x1_0000);
      var d := g.(payload := []).Frame() + (srh + f.payload);
      |d| >= 54 && InsertedFrame(f, segs, 0).Frame() == Put(d, DST_OFF, segs[0])
  {
    var n := |segs|;
    var srh := SrhBytes(f.nh, 2 * (n + 1), n, n, Reversed(segs + [f.dst]));
    var g := f.(nh := PROTO_ROUTING, plen := (f.plen + 8 + 16 * (n + 1)) % 0x1_0000, payload := srh + f.payload);
    HeaderAndPayload(g);
    PutDst(g, segs[0]);
    assert (segs + [f.dst])[0] == segs[0];
  }

  /** `srv6_insert`, up to the transmission. `written` is false when the hop limit is exhausted. */
  method Srv6Insert(p: Buffer, segs: seq<Bytes>, room: Bytes) returns (written: bool)
    requires Segments(segs) && 1 <= |segs| <= MAX_SEGS && |p.data| >= 54 && |room| == 8 + 16 * (|segs| + 1)
    modifies p
    ensures var f := Parse(old(p.data));
      && written == (f.hop > 1)
      && p.data == if written then InsertedFrame(f.(hop := f.hop - 1), segs, 0).Frame() else old(p.data)
  {
    ghost var f := Parse(p.data);
    FrameParse(p.data);
    var hop := p.data[HOP_OFF];
    if hop <= 1 {
      return false;
    }
    var origDa, origNh := p.data[DST_OFF..DST_OFF + 16], p.data[NH_OFF];
    var plen := FromBe16(p.data[PLEN_OFF], p.data[PLEN_OFF + 1]);
    var srhLen := 8 + 16 * (|segs| + 1);
    var newPlen := (plen + srhLen) % 0x1_0000;
    ghost var h := f.(nh := PROTO_ROUTING, plen := newPlen, hop := hop - 1, payload := []).Frame();
    GrowBase(p, f, newPlen, hop - 1, room);
    HeaderAndPayload(f.(nh := PROTO_ROUTING, plen := newPlen, hop := hop - 1));
    ListAndSegments(p, origNh, origDa, segs, h, room, f.payload);
    InsertedBytes(f.(hop := hop - 1), segs);
    var ok := p.Store(DST_OFF, segs[0]);
    return true;
  }

  /** The inserted SRH: its fixed bytes, the original destination as entry 0, the repair segments above. */
  method ListAndSegments(p: Buffer, nh: Byte, orig: Bytes, segs: seq<Bytes>, ghost h: Bytes, ghost room: Bytes,
      ghost after: Bytes)
    requires Segments(segs) && 1 <= |segs| <= MAX_SEGS && |orig| == 16
    requires |h| == 54 && |room| == 8 + 16 * (|segs| + 1) && p.data == h + (room + after)
    modifies p
    ensures p.data == h + (SrhBytes(nh, 2 * (|segs| + 1), |segs|, |segs|, Reversed(segs + [orig])) + after)
  {
    var n := |segs|;
    ghost var fixed: Bytes := [nh, 2 * (n + 1), 4, n, n, 0, 0, 0];
    SrhHeader(p, nh, 2 * (n + 1), n, n, h, room, after);
    ghost var list := room[8..];
    assert p.data == (h + fixed) + (list + after);
    Next(p, SEGLIST_OFF, orig, h + fixed, list + after);
    assert (list + after)[16..] == list[16..] + after;
    StoreSegments(p, SEGLIST_OFF + 16, segs, 0, h + fixed + orig, list[16..], after);
    assert Slice(segs, 0, n) == segs;
    ReversedSnoc(segs, orig);
    assert fixed + (orig + Reversed(segs)) == SrhBytes(nh, 2 * (n + 1), n, n, Reversed(segs + [orig]));
  }
}
