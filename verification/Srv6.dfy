/** SRv6 headers and endpoint behaviours (RFC 8754, RFC 8986) on header fields, and the byte-level code
    that performs them in place. */
module Srv6 {
  import opened Packet
  import opened Wrappers

  const MAX_SEGS := 6

  datatype Behavior = End | EndX | UA | UALib | EndT | UN | EndDT4 | EndDT6 | EndDT46

  datatype LocalSid = LocalSid(behavior: Behavior, psp: bool, usp: bool, usd: bool, vrf: nat, nexthop: nat)

  /** How the packet goes on: to the next stage, dropped, to a table, or out an adjacency. */
  datatype Verdict = Pass | Drop | ToTable(vrf: nat) | Via(nexthop: nat)

  /** `Failed` is the error return: a read or write out of bounds, or a header that cannot be popped. */
  datatype Result =
    | Failed
    | Kept(verdict: Verdict, packet: Ip6)       // still the IPv6 packet, perhaps rewritten
    | Stripped(verdict: Verdict, frame: Bytes)  // the inner packet under a new Ethernet header

  // ---- the segment routing header ----

  /** Eight fixed bytes and the segment list. */
  function SrhBytes(nh: Byte, ext: Byte, sl: Byte, last: Byte, list: Bytes): (h: Bytes)
    ensures |h| == 8 + |list|
  {
    [nh, ext, 4, sl, last, 0, 0, 0] + list
  }

  predicate Segments(segs: seq<Bytes>)
  {
    forall i | 0 <= i < |segs| :: |segs[i]| == 16
  }

  /** A segment list on the wire: the last segment first. */
  function Reversed(segs: seq<Bytes>): (list: Bytes)
    requires Segments(segs)
    ensures |list| == 16 * |segs|
  {
    if segs == [] then [] else Reversed(segs[1..]) + segs[0]
  }

  /** Entry `i` of the wire list is the `i`-th segment from the end. */
  lemma {:induction false} ReversedAt(segs: seq<Bytes>, i: nat)
    requires Segments(segs) && i < |segs|
    ensures Reversed(segs)[16 * i..16 * i + 16] == segs[|segs| - 1 - i]
  {
    var rest := Reversed(segs[1..]);
    assert Reversed(segs) == rest + segs[0];
    if i < |segs| - 1 {
      ReversedAt(segs[1..], i);
      assert (rest + segs[0])[16 * i..16 * i + 16] == rest[16 * i..16 * i + 16];
    } else {
      assert (rest + segs[0])[16 * i..16 * i + 16] == segs[0];
    }
  }

  // ---- decapsulation and the SRH pop, as what they leave behind ----

  /** Strip `strip` bytes between the Ethernet addresses and the inner packet, under a new EtherType. */
  function Decap(f: Ip6, strip: nat, et: U16, verdict: Verdict): Result
    requires f.Ok()
  {
    if strip < IP6_LEN || strip > IP6_LEN + 104 || strip - IP6_LEN > |f.payload| then Failed
    else Stripped(verdict, f.l2[..12] + Be16(et) + f.payload[strip - IP6_LEN..])
  }

  /** Remove the SRH behind the base header. `None` when it is oversized, longer than the payload length
      says, or longer than the frame. */
  function PopSrh(f: Ip6): (g: Option<Ip6>)
    requires f.Ok()
    ensures g.Some? ==> g.value.Ok()
  {
    if |f.payload| < 2 then None
    else
      var ext := f.payload[1];
      var len := 8 * (ext + 1);
      if ext > 12 || f.plen < len || len > |f.payload| then None
      else Some(f.(nh := f.payload[0], plen := f.plen - len, payload := f.payload[len..]))
  }

  /** Removing an SRH undoes having put one there. */
  lemma PopInserted(f: Ip6, srh: Bytes, nh: Byte)
    requires f.Ok() && |srh| >= 8 && |srh| == 8 * (srh[1] as int + 1) && srh[1] <= 12 && srh[0] == nh
    requires f.plen + |srh| < 0x1_0000
    ensures PopSrh(f.(nh := PROTO_ROUTING, plen := f.plen + |srh|, payload := srh + f.payload)) == Some(f.(nh := nh))
  {
    var g := f.(nh := PROTO_ROUTING, plen := f.plen + |srh|, payload := srh + f.payload);
    assert g.payload[0] == nh && g.payload[1] == srh[1];
    assert g.payload[|srh|..] == f.payload;
  }

  function InnerType(proto: Byte): Option<U16>
  {
    if proto == PROTO_IPIP then Some(ET_IPV4)
    else if proto == PROTO_IPV6 then Some(ET_IPV6)
    else None
  }

  // ---- End, End.X, End.T and the uSID fallback ----

  predicate UltimateOk(sid: LocalSid)
  {
    !sid.behavior.EndX? && !sid.behavior.UA? && !sid.behavior.UALib?
  }

  /** RFC 8986 section 4.3: scope the coming lookup to the SID's table. */
  function TableVerdict(sid: LocalSid, decap: bool): Verdict
  {
    var scoped := sid.vrf != 0 && (sid.behavior.EndT? || sid.behavior.UN?);
    if scoped then ToTable(sid.vrf) else if decap then ToTable(0) else Pass
  }

  /** The segment list's entry `i`, when the frame holds it. */
  function Entry(payload: Bytes, i: nat): (e: Option<Bytes>)
    ensures e.Some? ==> |e.value| == 16
  {
    if 8 + 16 * i + 16 <= |payload| then Some(payload[8 + 16 * i..8 + 16 * i + 16]) else None
  }

  /** The End transit step: one segment left fewer, and the next segment in the destination. */
  function Advance(f: Ip6, next: Bytes): (g: Ip6)
    requires f.Ok() && |f.payload| >= 4 && f.payload[3] > 0 && |next| == 16
    ensures g.Ok()
  {
    f.(dst := next, payload := f.payload[3 := f.payload[3] - 1])
  }

  function EndStep(f: Ip6, sid: LocalSid): Result
    requires f.Ok()
  {
    if f.nh != PROTO_ROUTING then
      if sid.usd && UltimateOk(sid) && InnerType(f.nh).Some? then
        Decap(f, IP6_LEN, InnerType(f.nh).value, TableVerdict(sid, true))
      else Kept(Pass, f)
    else if |f.payload| < 4 then Failed
    else if f.payload[3] == 0 then UltimateSegment(f, sid)
    else if f.payload[3] > MAX_SEGS then Kept(Pass, f)
    else
      match Entry(f.payload, f.payload[3] - 1)
      case None => Failed
      case Some(next) =>
        var g := Advance(f, next);
        var popped := if g.payload[3] == 0 && sid.psp then PopSrh(g) else Some(g);
        if popped == None then Failed
        else if sid.behavior.EndX? || sid.behavior.UA? then Kept(Via(sid.nexthop), popped.value)
        else Kept(TableVerdict(sid, false), popped.value)
  }

  function UltimateSegment(f: Ip6, sid: LocalSid): Result
    requires f.Ok() && |f.payload| >= 4
  {
    var ext := f.payload[1];
    if ext > 12 then Kept(Pass, f)
    else if sid.usd && UltimateOk(sid) && InnerType(f.payload[0]).Some? then
      Decap(f, IP6_LEN + 8 * (ext + 1), InnerType(f.payload[0]).value, TableVerdict(sid, true))
    else if sid.usp && UltimateOk(sid) then
      match PopSrh(f)
      case None => Failed
      case Some(g) => Kept(Pass, g)
    else Kept(Pass, f)
  }

  // ---- End.DT4, End.DT6, End.DT46 ----

  predicate FamilyOk(proto: Byte, b: Behavior)
  {
    || (proto == PROTO_IPIP && (b.EndDT4? || b.EndDT46?))
    || (proto == PROTO_IPV6 && (b.EndDT6? || b.EndDT46?))
  }

  function DecapStep(f: Ip6, sid: LocalSid): Result
    requires f.Ok()
  {
    if f.nh == PROTO_ROUTING then
      if |f.payload| < 4 then Failed
      else if f.payload[3] != 0 || f.payload[1] > 12 then Kept(Pass, f)
      else if !FamilyOk(f.payload[0], sid.behavior) then Kept(Drop, f)
      else Decap(f, IP6_LEN + 8 * (f.payload[1] + 1), InnerType(f.payload[0]).value, ToTable(sid.vrf))
    else if !FamilyOk(f.nh, sid.behavior) then Kept(Drop, f)
    else Decap(f, IP6_LEN, InnerType(f.nh).value, ToTable(sid.vrf))
  }

  // ---- imposition ----

  datatype Encap = Encap(segs: seq<Bytes>)
  {
    predicate Ok() { Segments(segs) }
  }

  function SrhLen(n: nat): nat
  {
    if n <= 1 then 0 else 8 + 16 * (n - 1)
  }

  function InnerProto(et: U16): Byte
  {
    if et == ET_IPV6 then PROTO_IPV6 else PROTO_IPIP
  }

  /** H.Encaps: the outer header, the SRH when there is more than one segment, and the inner packet. */
  function OuterFrame(l2: Bytes, plen: U16, hop: Byte, src: Bytes, segs: seq<Bytes>, at: nat, proto: Byte,
      inner: Bytes): (f: Ip6)
    requires |l2| == 14 && |src| == 16 && Segments(segs) && at < |segs| <= MAX_SEGS
    ensures f.Ok()
  {
    var n := |segs|;
    if n == 1 then Ip6(l2, [0x60, 0, 0, 0], plen, proto, hop, src, segs[0], inner)
    else Ip6(l2, [0x60, 0, 0, 0], plen, PROTO_ROUTING, hop, src, segs[at],
             SrhBytes(proto, 2 * (n - 1), n - 1 - at, n - 2, Reversed(segs[1..])) + inner)
  }

  /** H.Insert: the packet's own header, an SRH that ends with its destination, and its payload. */
  function InsertedFrame(f: Ip6, segs: seq<Bytes>, at: nat): (g: Ip6)
    requires f.Ok() && Segments(segs) && at <= |segs| <= MAX_SEGS
    ensures g.Ok()
  {
    var n := |segs|;
    var all := segs + [f.dst];
    f.(nh := PROTO_ROUTING,
       plen := (f.plen + 8 + 16 * (n + 1)) % 0x1_0000,
       dst := all[at],
       payload := SrhBytes(f.nh, 2 * (n + 1), n - at, n, Reversed(all)) + f.payload)
  }

  // ---- the code that does it, byte by byte ----

  /** The strip on bytes: the 12 address bytes copied forward, the EtherType behind them, the rest trimmed. */
  lemma DecapBytes(d: Bytes, strip: nat, et: U16)
    requires |d| >= 54
    ensures var o := Decap(Parse(d), strip, et, Pass);
      && (o.Stripped? <==> IP6_LEN <= strip <= IP6_LEN + 104 && strip + 14 <= |d|)
      && (o.Stripped? ==> o.frame == Put(Put(d, strip, d[..12]), strip + ETHERTYPE_OFF, Be16(et))[strip..])
  {
    var f := Parse(d);
    if IP6_LEN <= strip <= IP6_LEN + 104 && strip + 14 <= |d| {
      var d1 := Put(d, strip, d[..12]);
      assert d1[strip..strip + 12] == d[..12];
      assert Put(d1, strip + 12, Be16(et))[strip..] == d1[strip..strip + 12] + Be16(et) + d1[strip + 14..];
      assert d1[strip + 14..] == d[strip + 14..] == f.payload[strip - IP6_LEN..];
    }
  }

  /** `decap_head`: slide the addresses forward over the outer headers and trim. */
  method DecapHead(p: Buffer, strip: nat, et: U16) returns (ok: bool)
    requires |p.data| >= 54
    modifies p
    ensures var o := Decap(Parse(old(p.data)), strip, et, Pass);
      ok == o.Stripped? && (ok ==> p.data == o.frame)
    ensures ok == (40 <= strip <= 144 && strip + 14 <= |old(p.data)|)
  {
    DecapBytes(p.data, strip, et);
    if strip < IP6_LEN || strip > IP6_LEN + 104 {
      return false;
    }
    var macs := p.data[..12];
    ok := p.Store(strip, macs);
    if ok {
      ok := p.Store(strip + ETHERTYPE_OFF, Be16(et));
    }
    if ok {
      ok := p.Trim(strip);
    }
  }

  /** The pop on bytes: two header fields patched, the 54 header bytes copied `len` forward - overlapping
      or not - and `len` leading bytes trimmed. */
  function Popped(d: Bytes, nh: Byte, plen: U16, len: nat): Bytes
    requires |d| >= 54 + len
  {
    var d2 := Put(Put(d, NH_OFF, [nh]), PLEN_OFF, Be16(plen));
    Put(d2, len, d2[..54])[len..]
  }

  lemma PoppedFrame(f: Ip6, nh: Byte, plen: U16, len: nat)
    requires f.Ok() && len <= |f.payload|
    ensures Popped(f.Frame(), nh, plen, len) == f.(nh := nh, plen := plen, payload := f.payload[len..]).Frame()
  {
    PutNh(f, nh);
    PutPlen(f.(nh := nh), plen);
    SlideOver(f.(nh := nh, plen := plen), len);
  }

  /** The header bytes copied forward leave the header and the rest of the payload. */
  lemma SlideOver(f: Ip6, len: nat)
    requires f.Ok() && len <= |f.payload|
    ensures Put(f.Frame(), len, f.Frame()[..54])[len..] == f.(payload := f.payload[len..]).Frame()
  {
    var d := f.Frame();
    var h := f.(payload := []).Frame();
    assert d == h + f.payload && d[..54] == h;
    assert Put(d, len, h)[len..] == h + d[len + 54..];
    assert d[len + 54..] == f.payload[len..];
    assert f.(payload := f.payload[len..]).Frame() == h + f.payload[len..];
  }

  predicate Poppable(d: Bytes)
  {
    && |d| >= SRH_OFF + 2 && d[SRH_OFF + 1] <= 12
    && var len := 8 * (d[SRH_OFF + 1] as int + 1);
    && FromBe16(d[PLEN_OFF], d[PLEN_OFF + 1]) >= len && 54 + len <= |d|
  }

  lemma PopBytes(d: Bytes)
    requires |d| >= 54
    ensures PopSrh(Parse(d)).Some? <==> Poppable(d)
    ensures Poppable(d) ==>
      var len := 8 * (d[SRH_OFF + 1] as int + 1);
      PopSrh(Parse(d)).value.Frame() == Popped(d, d[SRH_OFF], FromBe16(d[PLEN_OFF], d[PLEN_OFF + 1]) - len, len)
  {
    var f := Parse(d);
    FrameParse(d);
    if Poppable(d) {
      var len := 8 * (d[SRH_OFF + 1] as int + 1);
      PoppedFrame(f, d[SRH_OFF], FromBe16(d[PLEN_OFF], d[PLEN_OFF + 1]) - len, len);
    }
  }

  /** `pop_srh`: patch the base header, copy the 54 header bytes forward over the SRH through a copy, and
      trim. */
  method PopSrhHead(p: Buffer) returns (ok: bool)
    requires |p.data| >= 54
    modifies p
    ensures ok == PopSrh(Parse(old(p.data))).Some?
    ensures ok ==> p.data == PopSrh(Parse(old(p.data))).value.Frame()
  {
    PopBytes(p.data);
    if |p.data| < SRH_OFF + 2 {
      return false;
    }
    var srhNh, ext := p.data[SRH_OFF], p.data[SRH_OFF + 1];
    if ext > 12 {
      return false;
    }
    var len := 8 * (ext + 1);
    var plen := FromBe16(p.data[PLEN_OFF], p.data[PLEN_OFF + 1]);
    if plen < len {
      return false;
    }
    ok := Slide(p, srhNh, plen - len, len);
  }

  method Slide(p: Buffer, nh: Byte, plen: U16, len: nat) returns (ok: bool)
    requires |p.data| >= 54
    modifies p
    ensures ok == (54 + len <= |old(p.data)|)
    ensures ok ==> p.data == Popped(old(p.data), nh, plen, len)
  {
    ok := p.Store(NH_OFF, [nh]);
    ok := p.Store(PLEN_OFF, Be16(plen));
    var hdr := p.data[..54];
    ok := p.Store(len, hdr);
    if ok {
      ok := p.Trim(len);
    }
  }

  /** The ultimate segment's part of `srv6_end`: decapsulate, pop, or deliver as is. */
  method UltimateHead(p: Buffer, sid: LocalSid) returns (r: Option<Verdict>)
    requires |p.data| >= SL_OFF + 1
    modifies p
    ensures match UltimateSegment(Parse(old(p.data)), sid)
            case Failed => r == None
            case Kept(v, packet) => r == Some(v) && packet.Ok() && p.data == packet.Frame()
            case Stripped(v, frame) => r == Some(v) && p.data == frame
  {
    FrameParse(p.data);
    var ext := p.data[SRH_OFF + 1];
    if ext > 12 {
      return Some(Pass);
    }
    if sid.usd && UltimateOk(sid) && InnerType(p.data[SRH_OFF]).Some? {
      var ok := DecapHead(p, IP6_LEN + 8 * (ext + 1), InnerType(p.data[SRH_OFF]).value);
      return if ok then Some(TableVerdict(sid, true)) else None;
    }
    if sid.usp && UltimateOk(sid) {
      var ok := PopSrhHead(p);
      return if ok then Some(Pass) else None;
    }
    return Some(Pass);
  }

  lemma EntryBytes(d: Bytes, i: nat)
    requires |d| >= 54
    ensures var e, off := Entry(Parse(d).payload, i), SEGLIST_OFF + 16 * i;
      (e.Some? <==> off + 16 <= |d|) && (e.Some? ==> e.value == d[off..off + 16])
  {
    var off := SEGLIST_OFF + 16 * i;
    if off + 16 <= |d| {
      assert d[54..][off - 54..off - 54 + 16] == d[off..off + 16];
    }
  }

  lemma AdvanceFrame(f: Ip6, next: Bytes)
    requires f.Ok() && |f.payload| >= 4 && f.payload[3] > 0 && |next| == 16
    ensures Advance(f, next).Frame() == Put(Put(f.Frame(), SL_OFF, [f.payload[3] - 1]), DST_OFF, next)
  {
    var sl := f.payload[3];
    PutPayload(f, 3, [sl - 1]);
    assert Put(f.payload, 3, [sl - 1]) == f.payload[3 := sl - 1];
    PutDst(f.(payload := f.payload[3 := sl - 1]), next);
  }

  /** The segment step of `srv6_end`: Segments Left, then the destination. */
  method AdvanceHead(p: Buffer, sl: Byte) returns (ok: bool)
    requires |p.data| >= SL_OFF + 1 && sl > 0 && p.data[SL_OFF] == sl
    modifies p
    ensures var f := Parse(old(p.data));
      match Entry(f.payload, sl - 1)
      case None => !ok
      case Some(next) => ok && p.data == Advance(f, next).Frame()
  {
    ghost var f := Parse(p.data);
    EntryBytes(p.data, sl - 1);
    assert |f.payload| >= 4 && f.payload[3] == sl;
    var off := SEGLIST_OFF + 16 * (sl - 1);
    if off + 16 > |p.data| {
      return false;
    }
    var next := p.data[off..off + 16];
    FrameParse(p.data);
    AdvanceFrame(f, next);
    ok := p.Store(SL_OFF, [sl - 1]);
    ok := p.Store(DST_OFF, next);
  }

  /** `srv6_end`. */
  method Srv6End(p: Buffer, sid: LocalSid) returns (r: Option<Verdict>)
    requires |p.data| >= 54
    modifies p
    ensures match EndStep(Parse(old(p.data)), sid)
            case Failed => r == None
            case Kept(v, packet) => r == Some(v) && packet.Ok() && p.data == packet.Frame()
            case Stripped(v, frame) => r == Some(v) && p.data == frame
  {
    ghost var f := Parse(p.data);
    FrameParse(p.data);
    var nh := p.data[NH_OFF];
    if nh != PROTO_ROUTING {
      if sid.usd && UltimateOk(sid) && InnerType(nh).Some? {
        var ok := DecapHead(p, IP6_LEN, InnerType(nh).value);
        return if ok then Some(TableVerdict(sid, true)) else None;
      }
      return Some(Pass);
    }
    if |p.data| < SL_OFF + 1 {
      return None;
    }
    var sl := p.data[SL_OFF];
    if sl == 0 {
      r := UltimateHead(p, sid);
      return;
    }
    if sl > MAX_SEGS {
      return Some(Pass);
    }
    var ok := AdvanceHead(p, sl);
    if !ok {
      return None;
    }
    if sl - 1 == 0 && sid.psp {
      ghost var g := Advance(f, Entry(f.payload, sl - 1).value);
      ParseFrame(g);
      ok := PopSrhHead(p);
      if !ok {
        return None;
      }
    }
    if sid.behavior.EndX? || sid.behavior.UA? {
      return Some(Via(sid.nexthop));
    }
    return Some(TableVerdict(sid, false));
  }

  /** The decapsulating part of `try_srv6_xdp`. */
  method Srv6Decap(p: Buffer, sid: LocalSid) returns (r: Option<Verdict>)
    requires |p.data| >= 54
    modifies p
    ensures match DecapStep(Parse(old(p.data)), sid)
            case Failed => r == None
            case Kept(v, packet) => r == Some(v) && packet.Ok() && p.data == packet.Frame()
            case Stripped(v, frame) => r == Some(v) && p.data == frame
  {
    FrameParse(p.data);
    var proto, strip := p.data[NH_OFF], IP6_LEN;
    if proto == PROTO_ROUTING {
      if |p.data| < SL_OFF + 1 {
        return None;
      }
      if p.data[SL_OFF] != 0 || p.data[SRH_OFF + 1] > 12 {
        return Some(Pass);
      }
      proto, strip := p.data[SRH_OFF], IP6_LEN + 8 * (p.data[SRH_OFF + 1] + 1);
    }
    if !FamilyOk(proto, sid.behavior) {
      return Some(Drop);
    }
    var ok := DecapHead(p, strip, InnerType(proto).value);
    return if ok then Some(ToTable(sid.vrf)) else None;
  }
}
