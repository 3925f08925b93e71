/** REPLACE-C-SID endpoints (RFC 9800 section 4.2): the walk through packed containers of compressed SIDs. */
module ReplaceCsid {
  import opened Packet
  import opened Wrappers
  import opened Srv6

  /** Where a domain keeps its C-SIDs. */
  datatype Geometry = Geometry(blockBits: nat, csidBits: nat)
  {
    /** Byte-aligned block, 16- or 32-bit C-SIDs, clear of the destination's last byte. */
    predicate Ok()
    {
      (csidBits == 32 || csidBits == 16) && blockBits % 8 == 0 && blockBits + csidBits <= 120
    }

    function Block(): nat { blockBits / 8 }

    /** Bytes of a C-SID, and C-SIDs in a 16-byte container. */
    function Width(): nat { if csidBits == 32 then 4 else 2 }
    function K(): nat { if csidBits == 32 then 4 else 8 }

    /** The index bits of the destination's last byte. */
    function Low(b: Byte): nat { if csidBits == 32 then b % 4 else b % 8 }

    /** All containers on one line: position `pos` of container `entry` is number `At(entry, pos)`. */
    function At(entry: nat, pos: nat): nat { if csidBits == 32 then 4 * entry + pos else 8 * entry + pos }
    function EntryOf(t: nat): nat { if csidBits == 32 then t / 4 else t / 8 }
    function PosOf(t: nat): nat { if csidBits == 32 then t % 4 else t % 8 }
  }

  datatype RepSid = RepSid(geo: Geometry, isX: bool, psp: bool, usp: bool, usd: bool, nexthop: nat)

  datatype Step = Act(result: Result) | Redispatch(packet: Ip6)

  // ---- reading the state ----

  function Ext(f: Ip6): nat
    requires |f.payload| >= 2
  {
    f.payload[1]
  }

  function Sl(f: Ip6): nat
    requires |f.payload| >= 4
  {
    f.payload[3]
  }

  /** The index of the active C-SID: the destination's last bits. */
  function Index(f: Ip6, geo: Geometry): nat
    requires f.Ok()
  {
    geo.Low(f.dst[15])
  }

  /** The entry lies inside the SRH the header length announces. */
  predicate InSrh(f: Ip6, entry: nat)
    requires |f.payload| >= 2
  {
    8 + 16 * entry + 16 <= 8 * (Ext(f) + 1)
  }

  /** The C-SID at a position of a container. The precondition is the walk's bounds check: no read leaves
      the SRH. `None` when the frame is cut short of it. */
  function Position(f: Ip6, geo: Geometry, entry: nat, pos: nat): (c: Option<Bytes>)
    requires |f.payload| >= 2 && InSrh(f, entry) && pos < geo.K()
    ensures c.Some? ==> |c.value| == geo.Width()
  {
    var off := 8 + 16 * entry + geo.Width() * pos;
    if off + geo.Width() <= |f.payload| then Some(f.payload[off..off + geo.Width()]) else None
  }

  predicate Zero(c: Bytes)
  {
    forall i | 0 <= i < |c| :: c[i] == 0
  }

  /** A C-SID in the destination's block-relative place and a new index; every other bit as before. */
  function Rewrite(dst: Bytes, geo: Geometry, csid: Bytes, index: nat): (d: Bytes)
    requires |dst| == 16 && geo.Ok() && |csid| == geo.Width() && index < geo.K()
    ensures |d| == 16
  {
    Put(dst, geo.Block(), csid)[15 := dst[15] - geo.Low(dst[15]) + index]
  }

  /** What the next position test of the penultimate pop and of the ultimate segment share. */
  predicate NoneAfter(f: Ip6, geo: Geometry, index: nat)
    requires |f.payload| >= 2 && InSrh(f, 0) && index < geo.K()
  {
    index == 0 || (Position(f, geo, 0, index - 1).Some? && Zero(Position(f, geo, 0, index - 1).value))
  }

  // ---- one endpoint pass ----

  /** The bare packet or the ultimate segment: decapsulate when the SID says so and the payload is IP. */
  function Deliver(f: Ip6, sid: RepSid, proto: Byte, strip: nat): Option<Result>
    requires f.Ok()
  {
    if sid.usd && !sid.isX && InnerType(proto).Some? then Some(Decap(f, strip, InnerType(proto).value, ToTable(0)))
    else None
  }

  function Ultimate(f: Ip6, sid: RepSid): Result
    requires f.Ok() && |f.payload| >= 2
  {
    var decap := Deliver(f, sid, f.payload[0], IP6_LEN + 8 * (Ext(f) + 1));
    if decap.Some? then decap.value
    else if sid.usp && !sid.isX then
      match PopSrh(f)
      case None => Failed
      case Some(g) => Kept(Pass, g)
    else Kept(Pass, f)
  }

  /** After a C-SID rewrite: pop when this was the penultimate segment, then go on. */
  function Forward(f: Ip6, sid: RepSid, pop: bool): Step
    requires f.Ok()
  {
    var g := if pop then PopSrh(f) else Some(f);
    if g == None then Act(Failed)
    else Act(Kept(if sid.isX then Via(sid.nexthop) else Pass, g.value))
  }

  function ReplaceOnce(f: Ip6, sid: RepSid): (s: Step)
    requires f.Ok()
    ensures s.Redispatch? ==> s.packet.Ok()
  {
    var pass := Act(Kept(Pass, f));
    if !sid.geo.Ok() then pass
    else if f.nh != PROTO_ROUTING then
      var decap := Deliver(f, sid, f.nh, IP6_LEN);
      if decap.Some? then Act(decap.value) else pass
    else if |f.payload| < 2 then Act(Failed)
    else if Ext(f) > 12 then pass
    else if |f.payload| < 4 then Act(Failed)
    else
      var sl, index := Sl(f), Index(f, sid.geo);
      if sl == 0 && index == 0 then Act(Ultimate(f, sid))
      else if sl == 0 && Ext(f) >= 2 && Position(f, sid.geo, 0, index - 1) == None then Act(Failed)
      else if sl == 0 && Ext(f) >= 2 && NoneAfter(f, sid.geo, index) then Act(Ultimate(f, sid))
      else if Ext(f) < 2 || sl > MAX_SEGS then pass
      else if |f.payload| < 5 then Act(Failed)
      else if f.payload[4] > Ext(f) / 2 - 1 || sl > f.payload[4] + 1 then pass
      else if index != 0 then
        if sl > f.payload[4] then pass else NextPosition(f, sid, index - 1)
      else NextContainer(f, sid)
  }

  /** A non-zero index: the next position of the current container, or, past its end, the full SID below.
      With no container below, a zero position was the ultimate segment already. */
  function NextPosition(f: Ip6, sid: RepSid, index: nat): (s: Step)
    requires f.Ok() && sid.geo.Ok() && |f.payload| >= 5 && InSrh(f, Sl(f)) && index < sid.geo.K()
    requires Sl(f) == 0 ==> Position(f, sid.geo, 0, index).Some? && !Zero(Position(f, sid.geo, 0, index).value)
    ensures s.Redispatch? ==> s.packet.Ok()
  {
    var sl := Sl(f);
    match Position(f, sid.geo, sl, index)
    case None => Act(Failed)
    case Some(csid) =>
      if Zero(csid) then FullSid(f, sid)
      else
        var g := f.(dst := Rewrite(f.dst, sid.geo, csid, index));
        if sl != 0 || !sid.psp then Forward(g, sid, false)
        else if index != 0 && Position(f, sid.geo, 0, index - 1) == None then Act(Failed)
        else Forward(g, sid, NoneAfter(f, sid.geo, index))
  }

  function FullSid(f: Ip6, sid: RepSid): (s: Step)
    requires f.Ok() && |f.payload| >= 5 && Sl(f) > 0
    ensures s.Redispatch? ==> s.packet.Ok()
  {
    match Entry(f.payload, Sl(f) - 1)
    case None => Act(Failed)
    case Some(next) =>
      var g := Advance(f, next);
      var popped := if Sl(f) == 1 && sid.psp then PopSrh(g) else Some(g);
      if popped == None then Act(Failed) else Redispatch(popped.value)
  }

  /** An exhausted container: the next one, from its last position. */
  function NextContainer(f: Ip6, sid: RepSid): Step
    requires f.Ok() && sid.geo.Ok() && |f.payload| >= 5 && Sl(f) > 0 && InSrh(f, Sl(f) - 1)
  {
    var sl, index := Sl(f) - 1, sid.geo.K() - 1;
    match Position(f, sid.geo, sl, index)
    case None => Act(Failed)
    case Some(csid) =>
      var g := f.(dst := Rewrite(f.dst, sid.geo, csid, index), payload := f.payload[3 := sl]);
      if sl != 0 || !sid.psp then Forward(g, sid, false)
      else if Position(f, sid.geo, 0, index - 1) == None then Act(Failed)
      else Forward(g, sid, NoneAfter(f, sid.geo, index))
  }

  /** `srv6_replace`: a full SID may be served here too; it is looked up and processed once more. */
  function Replace(f: Ip6, sid: RepSid, serves: Bytes -> Option<RepSid>): Result
    requires f.Ok()
  {
    match ReplaceOnce(f, sid)
    case Act(r) => r
    case Redispatch(g) =>
      match serves(g.dst)
      case None => Kept(if sid.isX then Via(sid.nexthop) else Pass, g)
      case Some(own) =>
        match ReplaceOnce(g, own)
        case Act(r) => r
        case Redispatch(h) => Kept(if serves(h.dst) == None && own.isX then Via(own.nexthop) else Pass, h)
  }
}
