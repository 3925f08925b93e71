/** The MPLS code on bytes: `l2_mpls_encap`, `pop_head`, `pop_decap_l2`, `pop_and_forward`, `try_mpls_xdp`. */
module MplsInPlace {
  import opened Packet
  import opened Wrappers
  import opened EsBits
  import opened IpTtl
  import opened Mpls

  datatype Served = Failed | Final(verdict: Verdict) | Again

  /** The bytes and the result are those of the outcome; an error leaves the bytes open. */
  predicate Performs(o: Outcome, r: Option<Verdict>, data: Bytes)
  {
    match o
    case Error => r == None
    case Out(v, frame) => r == Some(v) && data == frame
  }

  predicate TurnPerforms(turn: Turn, r: Served, data: Bytes)
  {
    match turn
    case Done(Error) => r == Failed
    case Done(Out(v, frame)) => r == Final(v) && data == frame
    case Next(frame) => r == Again && data == frame
  }

  // ---- imposition ----

  /** Transport entries, outermost first, into the first bytes of `rest`. */
  method StoreTransport(p: Buffer, labels: seq<nat>, ghost before: Bytes, ghost rest: Bytes)
    requires |before| == ETH_LEN && p.data == before + rest && 4 * |labels| <= |rest|
    modifies p
    ensures p.data == before + Transport(labels) + rest[4 * |labels|..]
  {
    assert before + Transport(labels[..0]) + rest[0..] == before + rest;
    for i := 0 to |labels|
      invariant p.data == before + Transport(labels[..i]) + rest[4 * i..]
    {
      var entry := Pack(Imposed(labels[i], false));
      Packet.Next(p, ETH_LEN + 4 * i, entry, before + Transport(labels[..i]), rest[4 * i..]);
      TransportSnoc(labels[..i], labels[i]);
      assert labels[..i + 1] == labels[..i] + [labels[i]];
      assert rest[4 * i..][4..] == rest[4 * (i + 1)..];
    }
    assert labels[..|labels|] == labels;
  }

  /** The service entry, and the ESI or leaf entry under it. */
  method StoreService(p: Buffer, service: nat, extra: nat, off: nat, ghost before: Bytes, ghost rest: Bytes)
    requires |before| == off && p.data == before + rest && |rest| >= 4 * |ServiceLabels(service, extra)|
    modifies p
    ensures p.data == before + Stack(ServiceLabels(service, extra)) + rest[4 * |ServiceLabels(service, extra)|..]
  {
    var esi := LabelOf(extra);
    var entry := Pack(Imposed(service, esi == 0));
    Packet.Next(p, off, entry, before, rest);
    if esi != 0 {
      var last := Pack(Imposed(esi, true));
      Packet.Next(p, off + 4, last, before + entry, rest[4..]);
      ghost var tail := ServiceLabels(service, extra);
      assert tail[1..] == [esi] && [esi][1..] == [];
      assert Stack([esi]) == last;
      assert rest[4..][4..] == rest[8..];
      assert before + entry + last == before + Stack(tail);
    } else {
      assert [service][1..] == [];
    }
  }

  /** `l2_mpls_encap`. */
  method L2MplsEncap(p: Buffer, adj: Option<NextHop>, service: nat, extra: nat, room: Bytes)
      returns (r: Option<Verdict>)
    requires adj.Some? && adj.value.macs.Some? ==> |adj.value.macs.value| == 12
    requires adj.Some? ==> |room| == ETH_LEN + 4 * (|adj.value.labels| + |ServiceLabels(service, extra)|)
    modifies p
    ensures Performs(Encap(old(p.data), adj, service, extra), r, p.data)
  {
    if adj == None || adj.value.macs == None || |adj.value.labels| > MAX_LABELS {
      return Some(Up);
    }
    var macs, labels := adj.value.macs.value, adj.value.labels;
    var n := |labels|;
    ghost var inner := p.data;
    p.Grow(0, room);
    assert p.data == room + inner;
    OuterEthernet(p, macs);
    assert (room + inner)[14..] == room[14..] + inner;
    ghost var before := macs + Be16(ET_MPLS);
    StoreTransport(p, labels, before, room[14..] + inner);
    ghost var rest := (room[14..] + inner)[4 * n..];
    StoreService(p, service, extra, ETH_LEN + 4 * n, before + Transport(labels), rest);
    FrameBuilt(macs, labels, ServiceLabels(service, extra), room, inner);
    return Some(Redirect(adj.value.oif));
  }

  lemma FrameBuilt(macs: Bytes, labels: seq<nat>, tail: seq<nat>, room: Bytes, inner: Bytes)
    requires |macs| == 12 && tail != [] && |room| == ETH_LEN + 4 * (|labels| + |tail|)
    ensures var rest := (room[14..] + inner)[4 * |labels|..];
      macs + Be16(ET_MPLS) + Transport(labels) + Stack(tail) + rest[4 * |tail|..] ==
        Labeled(macs, labels + tail, inner)
  {
    var rest := (room[14..] + inner)[4 * |labels|..];
    StackSplits(labels, tail);
    assert rest[4 * |tail|..] == inner;
    assert macs + Be16(ET_MPLS) + (Transport(labels) + Stack(tail)) ==
      macs + Be16(ET_MPLS) + Transport(labels) + Stack(tail);
  }

  /** New addresses and EtherType over the first bytes. */
  method OuterEthernet(p: Buffer, macs: Bytes)
    requires |macs| == 12 && |p.data| >= ETH_LEN
    modifies p
    ensures p.data == macs + Be16(ET_MPLS) + old(p.data)[14..]
  {
    ghost var d := p.data;
    assert d == [] + d;
    Packet.Next(p, 0, macs[..6], [], d);
    Packet.Next(p, 6, macs[6..], macs[..6], d[6..]);
    assert macs[..6] + macs[6..] == macs;
    assert d[6..][6..] == d[12..];
    Packet.Next(p, 12, Be16(ET_MPLS), macs, d[12..]);
    assert d[12..][2..] == d[14..];
  }

  // ---- disposition ----

  lemma PopBytes(d: Bytes, et: U16)
    requires |d| >= 18
    ensures Put(Put(d, 4, d[..12]), 4 + ETHERTYPE_OFF, Be16(et))[4..] == PopHead(d, et).value
  {
    var d1 := Put(d, 4, d[..12]);
    assert d1[4..16] == d[..12] && d1[18..] == d[18..];
    assert Put(d1, 16, Be16(et))[4..] == d1[4..16] + Be16(et) + d1[18..];
  }

  /** `pop_head`. */
  method PopHeadInPlace(p: Buffer, et: U16) returns (ok: bool)
    modifies p
    ensures ok == PopHead(old(p.data), et).Some?
    ensures ok ==> p.data == PopHead(old(p.data), et).value
  {
    if |p.data| < 12 {
      return false;
    }
    if |p.data| >= 18 {
      PopBytes(p.data, et);
    }
    var macs := p.data[..12];
    ok := p.Store(4, macs);
    if ok {
      ok := p.Store(4 + ETHERTYPE_OFF, Be16(et));
    }
    if ok {
      ok := p.Trim(4);
    }
  }

  method StripHead(p: Buffer, n: nat, bd: nat, esBits: set<nat>) returns (r: Option<Verdict>)
    modifies p
    ensures Performs(Strip(old(p.data), n, bd, esBits), r, p.data)
  {
    var ok := p.Trim(n);
    return if ok then Some(Bridge(bd, esBits)) else None;
  }

  /** `pop_decap_l2`. */
  method PopDecapL2Head(p: Buffer, bottom: bool, bd: nat, t: Tables) returns (r: Option<Verdict>)
    modifies p
    ensures Performs(PopDecapL2(old(p.data), bottom, bd, t), r, p.data)
  {
    if bottom {
      r := StripHead(p, ETH_LEN + 4, bd, {});
      return;
    }
    if |p.data| < 22 {
      return None;
    }
    var e := Unpack(p.data[18..22]);
    if !e.bottom {
      return Some(Drop);
    }
    if e.value in t.esi {
      r := StripHead(p, ETH_LEN + 8, bd, {t.esi[e.value] % 64});
    } else if e.value in t.leaf {
      r := StripHead(p, ETH_LEN + 8, bd, {LEAF_BIT});
    } else {
      r := Some(Drop);
    }
  }

  /** New Ethernet addresses. */
  method NewMacs(p: Buffer, macs: Bytes)
    requires |macs| == 12 && |p.data| >= 12
    modifies p
    ensures p.data == macs + old(p.data)[12..]
  {
    ghost var d := p.data;
    assert d == [] + d;
    Packet.Next(p, 0, macs[..6], [], d);
    Packet.Next(p, 6, macs[6..], macs[..6], d[6..]);
    assert d[6..][6..] == d[12..];
    assert macs[..6] + macs[6..] == macs;
  }

  method PoppedTypeOf(p: Buffer) returns (et: Option<U16>)
    ensures et == PoppedType(p.data)
  {
    if |p.data| < 19 {
      return None;
    }
    match p.data[18] / 16 {
      case 4 => et := Some(ET_IPV4);
      case 6 => et := Some(ET_IPV6);
      case _ => et := None;
    }
  }

  /** `pop_decap_local`. */
  method PopDecapLocalHead(p: Buffer, vrf: nat, ttl: Byte, uniform: bool) returns (r: Option<Verdict>)
    modifies p
    ensures Performs(PopDecapLocal(old(p.data), vrf, ttl, uniform), r, p.data)
  {
    var et := PoppedTypeOf(p);
    if et == None {
      return Some(Drop);
    }
    var ok := PopHeadInPlace(p, et.value);
    if uniform {
      ok := UniformToIp(p, et.value, ttl);
      if !ok {
        return None;
      }
    }
    return Some(if vrf != 0 then Route(vrf) else Up);
  }

  /** `pop_and_forward`. */
  method PopAndForwardHead(p: Buffer, nh: NextHop, bottom: bool, ttl: Byte, uniform: bool) returns (r: Option<Verdict>)
    requires ttl > 0
    modifies p
    ensures Performs(PopAndForward(old(p.data), nh, bottom, ttl, uniform), r, p.data)
  {
    if nh.macs == None || |nh.macs.value| != 12 {
      return Some(Up);
    }
    var et := Some(ET_MPLS);
    if bottom {
      et := PoppedTypeOf(p);
      if et == None {
        return Some(Drop);
      }
    }
    var ok := PopHeadInPlace(p, et.value);
    if !ok {
      return None;
    }
    if uniform && bottom {
      ok := UniformToIp(p, et.value, ttl - 1);
      if !ok {
        return None;
      }
    }
    NewMacs(p, nh.macs.value);
    return Some(Redirect(nh.oif));
  }

  /** Label stack entries into the first bytes of `rest`. */
  method StoreEntries(p: Buffer, es: seq<Lse>, ghost before: Bytes, ghost rest: Bytes)
    requires |before| == ETH_LEN && p.data == before + rest && 4 * |es| <= |rest|
    modifies p
    ensures p.data == before + PackAll(es) + rest[4 * |es|..]
  {
    assert before + PackAll(es[..0]) + rest[0..] == before + rest;
    for i := 0 to |es|
      invariant p.data == before + PackAll(es[..i]) + rest[4 * i..]
    {
      Packet.Next(p, ETH_LEN + 4 * i, Pack(es[i]), before + PackAll(es[..i]), rest[4 * i..]);
      PackAllSnoc(es[..i], es[i]);
      assert es[..i + 1] == es[..i] + [es[i]];
      assert rest[4 * i..][4..] == rest[4 * (i + 1)..];
    }
    assert es[..|es|] == es;
  }

  /** `grow_swap`, the frame grown by one entry for each label but the first. */
  method GrowSwapHead(p: Buffer, nh: NextHop, bottom: bool, ttl: Byte, room: Bytes) returns (r: Option<Verdict>)
    requires |p.data| >= 18 && ttl > 0 && (|nh.labels| >= 2 ==> |room| == 4 * (|nh.labels| - 1))
    modifies p
    ensures Performs(GrowSwap(old(p.data), nh, bottom, ttl), r, p.data)
  {
    var n := |nh.labels|;
    if n < 2 || n > MAX_LABELS || nh.macs == None || |nh.macs.value| != 12 {
      return Some(Up);
    }
    ghost var d := p.data;
    p.Grow(0, room);
    assert p.data == room + d;
    OuterEthernet(p, nh.macs.value);
    ghost var before, rest := nh.macs.value + Be16(ET_MPLS), (room + d)[14..];
    StoreEntries(p, SwapEntries(nh.labels, bottom, ttl - 1), before, rest);
    assert rest[4 * n..] == d[18..];
    return Some(Redirect(nh.oif));
  }

  /** What the kernel leaves in the room a swap of `n` labels makes. */
  predicate Rooms(room: nat -> Bytes)
  {
    |room(2)| == 4 && |room(3)| == 8
  }

  /** One iteration of the loop. */
  method ServeLabel(p: Buffer, t: Tables, room: nat -> Bytes) returns (r: Served)
    requires Rooms(room)
    modifies p
    ensures TurnPerforms(OneLabel(old(p.data), t), r, p.data)
  {
    if |p.data| < 14 {
      return Failed;
    }
    if p.data[12..14] != Be16(ET_MPLS) {
      return Final(Up);
    }
    if |p.data| < 18 {
      return Failed;
    }
    var e := Unpack(p.data[14..18]);
    if e.ttl <= 1 || e.value !in t.fib {
      return Final(Up);
    }
    var ent := t.fib[e.value];
    if ent.op.PopL2? {
      var v := PopDecapL2Head(p, e.bottom, ent.id, t);
      return FinalOf(v);
    }
    r := ServeEntry(p, t, e, ent, room);
  }

  function FinalOf(v: Option<Verdict>): Served
  {
    if v == None then Failed else Final(v.value)
  }

  method ServeEntry(p: Buffer, t: Tables, e: Lse, ent: MplsEntry, room: nat -> Bytes) returns (r: Served)
    requires |p.data| >= 18 && e.ttl > 1 && !ent.op.PopL2? && Rooms(room)
    modifies p
    ensures TurnPerforms(ByEntry(old(p.data), t, e, ent), r, p.data)
  {
    if ent.op.PopXc? || ent.op.PopXcVlan? {
      return Final(CrossConnect(ent.id, ent.op.PopXcVlan?));
    }
    if ent.nexthop !in t.nexthops {
      return Final(Up);
    }
    var nh := t.nexthops[ent.nexthop];
    if ent.op.PopL3? && e.bottom {
      var v := PopDecapLocalHead(p, ent.id, e.ttl, ent.uniform);
      return FinalOf(v);
    }
    if (ent.op.Swap? || ent.op.Pop?) && nh.labels == [] && nh.oif != 0 {
      var v := PopAndForwardHead(p, nh, e.bottom, e.ttl, ent.uniform);
      return FinalOf(v);
    }
    if (ent.op.Swap? || ent.op.Pop?) && nh.labels == [] {
      if e.bottom {
        var v := PopDecapLocalHead(p, ent.id, e.ttl, ent.uniform);
        return FinalOf(v);
      }
      var ok := PopHeadInPlace(p, ET_MPLS);
      return Again;
    }
    if ent.op.Swap? && |nh.labels| > 1 {
      if |nh.labels| > MAX_LABELS {
        return Final(Up);
      }
      var v := GrowSwapHead(p, nh, e.bottom, e.ttl, room(|nh.labels|));
      return FinalOf(v);
    }
    return Final(Up);
  }

  /** `try_mpls_xdp`. */
  method TryMplsXdp(p: Buffer, t: Tables, room: nat -> Bytes) returns (r: Option<Verdict>)
    requires Rooms(room)
    modifies p
    ensures Performs(Disposition(old(p.data), t, MAX_LABELS + 1), r, p.data)
  {
    for turn := 0 to MAX_LABELS + 1
      invariant Disposition(old(p.data), t, MAX_LABELS + 1) == Disposition(p.data, t, MAX_LABELS + 1 - turn)
    {
      ghost var d := p.data;
      var served := ServeLabel(p, t, room);
      match served {
        case Failed => return None;
        case Final(v) => return Some(v);
        case Again =>
      }
    }
    return Some(Up);
  }
}
