/** The REPLACE-C-SID code on bytes: `replace_pos`, `write_csid`, `srv6_replace_once`, `srv6_replace`. */
module ReplaceInPlace {
  import opened Packet
  import opened Wrappers
  import opened Srv6
  import opened ReplaceCsid

  /** An error return, a verdict, or another lookup of the rewritten destination. */
  datatype Outcome = Error | Done(verdict: Verdict) | Again

  /** The bytes and the outcome are the ones the step describes; an error leaves the bytes open. */
  predicate Performs(s: Step, r: Outcome, data: Bytes)
  {
    match s
    case Act(Failed) => r == Error
    case Act(Kept(v, g)) => r == Done(v) && g.Ok() && data == g.Frame()
    case Act(Stripped(v, frame)) => r == Done(v) && data == frame
    case Redispatch(g) => r == Again && g.Ok() && data == g.Frame()
  }

  lemma PositionBytes(d: Bytes, geo: Geometry, entry: nat, pos: nat)
    requires |d| >= 56 && InSrh(Parse(d), entry) && pos < geo.K()
    ensures var c, off := Position(Parse(d), geo, entry, pos), SEGLIST_OFF + 16 * entry + geo.Width() * pos;
      (c.Some? <==> off + geo.Width() <= |d|) && (c.Some? ==> c.value == d[off..off + geo.Width()])
  {
    var off, w := SEGLIST_OFF + 16 * entry + geo.Width() * pos, geo.Width();
    if off + w <= |d| {
      assert d[54..][off - 54..off - 54 + w] == d[off..off + w];
    }
  }

  method ReadPosition(p: Buffer, geo: Geometry, entry: nat, pos: nat) returns (c: Option<Bytes>)
    requires |p.data| >= 56 && InSrh(Parse(p.data), entry) && pos < geo.K()
    ensures c == Position(Parse(p.data), geo, entry, pos)
  {
    PositionBytes(p.data, geo, entry, pos);
    var off := SEGLIST_OFF + 16 * entry + geo.Width() * pos;
    return if off + geo.Width() <= |p.data| then Some(p.data[off..off + geo.Width()]) else None;
  }

  lemma LastDstByte(f: Ip6)
    requires f.Ok()
    ensures f.Frame()[DST_OFF + 15] == f.dst[15]
  {
    FieldsAt(f);
    assert f.Frame()[38..54][15] == f.Frame()[53];
  }

  lemma PutLastDst(f: Ip6, x: Byte)
    requires f.Ok()
    ensures Put(f.Frame(), DST_OFF + 15, [x]) == f.(dst := f.dst[15 := x]).Frame()
  {
    PutInDst(f, 15, [x]);
    assert Put(f.dst, 15, [x]) == f.dst[15 := x];
  }

  /** The C-SID bytes, then the index bits of the last byte. */
  method WriteCsid(p: Buffer, geo: Geometry, csid: Bytes, index: nat)
    requires |p.data| >= 54 && geo.Ok() && |csid| == geo.Width() && index < geo.K()
    modifies p
    ensures var f := Parse(old(p.data));
      p.data == f.(dst := Rewrite(f.dst, geo, csid, index)).Frame()
  {
    ghost var f := Parse(p.data);
    FrameParse(p.data);
    PutInDst(f, geo.Block(), csid);
    var ok := p.Store(DST_OFF + geo.Block(), csid);
    ghost var g := f.(dst := Put(f.dst, geo.Block(), csid));
    LastDstByte(g);
    var last := p.data[DST_OFF + 15];
    PutLastDst(g, last - geo.Low(last) + index);
    ok := p.Store(DST_OFF + 15, [last - geo.Low(last) + index]);
  }

  /** What follows a C-SID rewrite. */
  method ForwardHead(p: Buffer, sid: RepSid, pop: bool) returns (r: Outcome)
    requires |p.data| >= 54
    modifies p
    ensures Performs(Forward(Parse(old(p.data)), sid, pop), r, p.data)
  {
    FrameParse(p.data);
    if pop {
      var ok := PopSrhHead(p);
      if !ok {
        return Error;
      }
    }
    return Done(if sid.isX then Via(sid.nexthop) else Pass);
  }

  method UltimateHead(p: Buffer, sid: RepSid) returns (r: Outcome)
    requires |p.data| >= 56
    modifies p
    ensures Performs(Act(Ultimate(Parse(old(p.data)), sid)), r, p.data)
  {
    FrameParse(p.data);
    var proto, ext := p.data[SRH_OFF], p.data[SRH_OFF + 1];
    if sid.usd && !sid.isX && InnerType(proto).Some? {
      var ok := DecapHead(p, IP6_LEN + 8 * (ext as int + 1), InnerType(proto).value);
      return if ok then Done(ToTable(0)) else Error;
    }
    if sid.usp && !sid.isX {
      var ok := PopSrhHead(p);
      return if ok then Done(Pass) else Error;
    }
    return Done(Pass);
  }

  /** Is there nothing left below `index` of the last container? Errors when the read is out of the frame. */
  method NoneAfterHead(p: Buffer, geo: Geometry, index: nat) returns (r: Option<bool>)
    requires |p.data| >= 56 && InSrh(Parse(p.data), 0) && index < geo.K()
    ensures r == None <==> index != 0 && Position(Parse(p.data), geo, 0, index - 1) == None
    ensures r.Some? ==> r.value == NoneAfter(Parse(p.data), geo, index)
  {
    if index == 0 {
      return Some(true);
    }
    var c := ReadPosition(p, geo, 0, index - 1);
    return if c == None then None else Some(Zero(c.value));
  }

  /** The destination and Segments Left lie outside the containers. */
  lemma PositionKept(f: Ip6, g: Ip6, geo: Geometry, entry: nat, pos: nat)
    requires |f.payload| >= 8 && InSrh(f, entry) && pos < geo.K()
    requires |g.payload| == |f.payload| && g.payload[1] == f.payload[1] && g.payload[8..] == f.payload[8..]
    ensures InSrh(g, entry) && Position(g, geo, entry, pos) == Position(f, geo, entry, pos)
  {
    var off, w := 8 + 16 * entry + geo.Width() * pos, geo.Width();
    if off + w <= |f.payload| {
      SliceOfDrop(f.payload, 8, off, w);
      SliceOfDrop(g.payload, 8, off, w);
    }
  }

  method FullSidHead(p: Buffer, sid: RepSid) returns (r: Outcome)
    requires |p.data| >= 59 && Sl(Parse(p.data)) > 0
    modifies p
    ensures Performs(FullSid(Parse(old(p.data)), sid), r, p.data)
  {
    var sl := p.data[SL_OFF];
    ghost var f := Parse(p.data);
    assert f.payload[3] == sl;
    var ok := AdvanceHead(p, sl);
    if !ok {
      return Error;
    }
    if sl == 1 && sid.psp {
      ParseFrame(Advance(f, Entry(f.payload, sl - 1).value));
      ok := PopSrhHead(p);
      if !ok {
        return Error;
      }
    }
    return Again;
  }

  /** The penultimate test and the forward, on the rewritten packet. */
  method Finish(p: Buffer, sid: RepSid, sl: nat, index: nat) returns (r: Outcome)
    requires |p.data| >= 56 && InSrh(Parse(p.data), 0) && index < sid.geo.K()
    modifies p
    ensures var g := Parse(old(p.data));
      Performs(if sl != 0 || !sid.psp then Forward(g, sid, false)
               else if index != 0 && Position(g, sid.geo, 0, index - 1) == None then Act(Failed)
               else Forward(g, sid, NoneAfter(g, sid.geo, index)), r, p.data)
  {
    var pop := false;
    if sl == 0 && sid.psp {
      var none := NoneAfterHead(p, sid.geo, index);
      if none == None {
        return Error;
      }
      pop := none.value;
    }
    r := ForwardHead(p, sid, pop);
  }

  method NextPositionHead(p: Buffer, sid: RepSid, index: nat) returns (r: Outcome)
    requires |p.data| >= 59 && sid.geo.Ok() && InSrh(Parse(p.data), Sl(Parse(p.data))) && index < sid.geo.K()
    requires var f := Parse(p.data);
      Sl(f) == 0 ==> Position(f, sid.geo, 0, index).Some? && !Zero(Position(f, sid.geo, 0, index).value)
    modifies p
    ensures Performs(NextPosition(Parse(old(p.data)), sid, index), r, p.data)
  {
    ghost var f := Parse(p.data);
    var sl := p.data[SL_OFF];
    assert Sl(f) == sl;
    var c := ReadPosition(p, sid.geo, sl, index);
    if c == None {
      return Error;
    }
    if Zero(c.value) {
      r := FullSidHead(p, sid);
      return;
    }
    WriteCsid(p, sid.geo, c.value, index);
    ghost var g := f.(dst := Rewrite(f.dst, sid.geo, c.value, index));
    ParseFrame(g);
    r := Finish(p, sid, sl, index);
  }

  method StoreSl(p: Buffer, sl: Byte)
    requires |p.data| >= 58
    modifies p
    ensures |p.data| >= 58
    ensures var f := Parse(old(p.data)); Parse(p.data) == f.(payload := f.payload[3 := sl])
  {
    ghost var f := Parse(p.data);
    FrameParse(p.data);
    PutPayload(f, 3, [sl]);
    assert Put(f.payload, 3, [sl]) == f.payload[3 := sl];
    var ok := p.Store(SL_OFF, [sl]);
    ParseFrame(f.(payload := f.payload[3 := sl]));
  }

  method NextContainerHead(p: Buffer, sid: RepSid) returns (r: Outcome)
    requires |p.data| >= 59 && sid.geo.Ok() && Sl(Parse(p.data)) > 0 && InSrh(Parse(p.data), Sl(Parse(p.data)) - 1)
    modifies p
    ensures Performs(NextContainer(Parse(old(p.data)), sid), r, p.data)
  {
    ghost var f := Parse(p.data);
    var sl, index := p.data[SL_OFF] - 1, sid.geo.K() - 1;
    assert Sl(f) - 1 == sl;
    var c := ReadPosition(p, sid.geo, sl, index);
    if c == None {
      return Error;
    }
    StoreSl(p, sl);
    WriteCsid(p, sid.geo, c.value, index);
    ghost var g := f.(dst := Rewrite(f.dst, sid.geo, c.value, index), payload := f.payload[3 := sl]);
    ParseFrame(g);
    PositionKept(f, g, sid.geo, 0, index - 1);
    r := Finish(p, sid, sl, index);
  }

  /** `srv6_replace_once`. */
  method ReplaceOnceHead(p: Buffer, sid: RepSid) returns (r: Outcome)
    requires |p.data| >= 54
    modifies p
    ensures Performs(ReplaceOnce(Parse(old(p.data)), sid), r, p.data)
  {
    FrameParse(p.data);
    if !sid.geo.Ok() {
      return Done(Pass);
    }
    var proto := p.data[NH_OFF];
    if proto != PROTO_ROUTING {
      if sid.usd && !sid.isX && InnerType(proto).Some? {
        var ok := DecapHead(p, IP6_LEN, InnerType(proto).value);
        return if ok then Done(ToTable(0)) else Error;
      }
      return Done(Pass);
    }
    if |p.data| < SRH_OFF + 2 {
      return Error;
    }
    var ext := p.data[SRH_OFF + 1];
    if ext > 12 {
      return Done(Pass);
    }
    if |p.data| < SL_OFF + 1 {
      return Error;
    }
    var sl, index := p.data[SL_OFF], sid.geo.Low(p.data[DST_OFF + 15]);
    if sl == 0 {
      var last := index == 0;
      if index != 0 && ext >= 2 {
        var none := NoneAfterHead(p, sid.geo, index);
        if none == None {
          return Error;
        }
        last := none.value;
      }
      if last {
        r := UltimateHead(p, sid);
        return;
      }
    }
    if ext < 2 || sl > MAX_SEGS {
      return Done(Pass);
    }
    if |p.data| < SL_OFF + 2 {
      return Error;
    }
    var lastEntry := p.data[SL_OFF + 1];
    if index != 0 {
      if lastEntry as int > ext / 2 - 1 || sl > lastEntry {
        return Done(Pass);
      }
      r := NextPositionHead(p, sid, index - 1);
    } else {
      if lastEntry as int > ext / 2 - 1 || sl as int > lastEntry + 1 || sl == 0 {
        return Done(Pass);
      }
      r := NextContainerHead(p, sid);
    }
  }

  /** `srv6_replace`: at most two passes. */
  method ReplaceHead(p: Buffer, sid: RepSid, serves: Bytes -> Option<RepSid>) returns (r: Option<Verdict>)
    requires |p.data| >= 54
    modifies p
    ensures match Replace(Parse(old(p.data)), sid, serves)
            case Failed => r == None
            case Kept(v, packet) => r == Some(v) && packet.Ok() && p.data == packet.Frame()
            case Stripped(v, frame) => r == Some(v) && p.data == frame
  {
    var own := sid;
    ghost var f := Parse(p.data);
    for pass := 0 to 2
      invariant |p.data| >= 54
      invariant pass == 0 ==> p.data == old(p.data) && own == sid
      invariant pass > 0 ==> Redispatched(f, sid, serves, Parse(p.data), own, pass)
    {
      ghost var g := Parse(p.data);
      var step := ReplaceOnceHead(p, own);
      match step {
        case Error => return None;
        case Done(v) => return Some(v);
        case Again =>
          ParseFrame(ReplaceOnce(g, own).packet);
          var next := serves(p.data[DST_OFF..DST_OFF + 16]);
          if next == None {
            return Some(if own.isX then Via(own.nexthop) else Pass);
          }
          own := next.value;
      }
    }
    FrameParse(p.data);
    return Some(Pass);
  }

  /** The state of `srv6_replace` between its passes. */
  predicate Redispatched(f: Ip6, sid: RepSid, serves: Bytes -> Option<RepSid>, g: Ip6, own: RepSid, passes: nat)
    requires f.Ok()
  {
    var first := ReplaceOnce(f, sid);
    && first.Redispatch? && serves(first.packet.dst).Some?
    && var again := serves(first.packet.dst).value;
    if passes == 1 then g == first.packet && own == again
    else
      var second := ReplaceOnce(first.packet, again);
      second.Redispatch? && g == second.packet && serves(g.dst) == Some(own)
  }
}
