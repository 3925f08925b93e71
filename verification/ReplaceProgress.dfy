/** What a REPLACE-C-SID pass does to any packet at all: nothing, or progress. */
module ReplaceProgress {
  import opened Packet
  import opened Wrappers
  import opened Srv6
  import opened ReplaceCsid
  import opened ReplaceWalk
  import opened Srv6Laws

  // ---- when a pass leaves the packet alone ----

  /** The frame is cut short of the position the ultimate test reads. */
  predicate CutShort(f: Ip6, sid: RepSid)
    requires f.Ok() && |f.payload| >= 4
  {
    Sl(f) == 0 && Index(f, sid.geo) > 0 && Ext(f) >= 2 && Position(f, sid.geo, 0, Index(f, sid.geo) - 1) == None
  }

  /** The walk has come to its ultimate segment. */
  predicate UltimateHere(f: Ip6, sid: RepSid)
    requires f.Ok() && |f.payload| >= 4
  {
    Sl(f) == 0 && (Index(f, sid.geo) == 0 ||
      (Ext(f) >= 2 && !CutShort(f, sid) && NoneAfter(f, sid.geo, Index(f, sid.geo))))
  }

  /** Header fields that leave the walk no container to read. */
  predicate Malformed(f: Ip6, sid: RepSid)
    requires f.Ok() && |f.payload| >= 4
  {
    || Ext(f) < 2 || Sl(f) > MAX_SEGS
    || (|f.payload| >= 5 && f.payload[4] > Ext(f) / 2 - 1)
    || (|f.payload| >= 5 && Sl(f) > f.payload[4] + if Index(f, sid.geo) > 0 then 0 else 1)
  }

  /** The ultimate segment of a SID that neither decapsulates nor pops. */
  predicate Delivers(f: Ip6, sid: RepSid)
    requires f.Ok() && |f.payload| >= 4
  {
    !(sid.usp && !sid.isX) && Deliver(f, sid, f.payload[0], IP6_LEN + 8 * (Ext(f) + 1)) == None
  }

  /** A geometry the code does not handle, a packet without an SRH that it does not decapsulate, an oversized
      SRH, an ultimate segment delivered as it is, or header fields out of bounds. */
  predicate Stays(f: Ip6, sid: RepSid)
    requires f.Ok()
  {
    if !sid.geo.Ok() then true
    else if f.nh != PROTO_ROUTING then Deliver(f, sid, f.nh, IP6_LEN) == None
    else if |f.payload| < 2 then false
    else if Ext(f) > 12 then true
    else if |f.payload| < 4 || CutShort(f, sid) then false
    else if UltimateHere(f, sid) then Delivers(f, sid)
    else Malformed(f, sid)
  }

  /** What is left of the ultimate segment to End: USD uncovers an IP packet for the main table, else USP takes the
      SRH off, else the packet is the host's. End.X with REPLACE-C-SID has neither flavor. */
  lemma UltimateIs(f: Ip6, sid: RepSid)
    requires f.Ok() && |f.payload| >= 2 && f.payload[1] <= 12
    ensures var len := 8 * (f.payload[1] as int + 1);
      Ultimate(f, sid) ==
        if !sid.isX && sid.usd && f.payload[0] in {4, 41} then
          if |f.payload| < len then Failed
          else Stripped(ToTable(0), f.l2[..12] + TypeBytes(f.payload[0]) + f.payload[len..])
        else if !sid.isX && sid.usp then
          if f.plen < len || |f.payload| < len then Failed
          else Kept(Pass, f.(nh := f.payload[0], plen := f.plen - len, payload := f.payload[len..]))
        else Kept(Pass, f)
  {
  }

  /** Without an SRH there is only USD. Blocks and C-SIDs off byte boundaries, or over the last byte, are not
      handled. */
  lemma BareIs(f: Ip6, sid: RepSid)
    requires f.Ok() && f.nh != 43
    ensures var handled := sid.geo.csidBits in {16, 32} && sid.geo.blockBits % 8 == 0
        && sid.geo.blockBits + sid.geo.csidBits <= 120;
      ReplaceOnce(f, sid) ==
        if handled && !sid.isX && sid.usd && f.nh in {4, 41} then
          Act(Stripped(ToTable(0), f.l2[..12] + TypeBytes(f.nh) + f.payload))
        else Act(Kept(Pass, f))
  {
  }

  // ---- otherwise it makes progress ----

  /** A count that every geometry lowers: the frame's length, then Segments Left, then the three low bits that
      hold an index of either width. */
  function Fuel(f: Ip6): nat
    requires f.Ok()
  {
    2048 * |f.payload| + if |f.payload| >= 4 then 8 * Sl(f) + f.dst[15] % 8 else 0
  }

  predicate Lowered(f: Ip6, g: Ip6, geo: Geometry)
  {
    && f.Ok() && g.Ok() && |f.payload| >= 4 && |g.payload| == |f.payload|
    && Remaining(g, geo) < Remaining(f, geo) && Fuel(g) < Fuel(f)
  }

  /** The SRH is gone, or fewer C-SIDs are left. */
  predicate Moved(f: Ip6, g: Ip6, geo: Geometry)
  {
    f.Ok() && g.Ok() && (|g.payload| < |f.payload| || Lowered(f, g, geo))
  }

  lemma MovedFuel(f: Ip6, g: Ip6, geo: Geometry)
    requires Moved(f, g, geo)
    ensures Fuel(g) < Fuel(f) && g != f
  {
  }

  predicate Progress(f: Ip6, s: Step, geo: Geometry)
  {
    match s
    case Act(Failed) => true
    case Act(Stripped(_, _)) => true
    case Act(Kept(_, g)) => Moved(f, g, geo)
    case Redispatch(g) => Moved(f, g, geo)
  }

  lemma IndexFuel(dst: Bytes, geo: Geometry, csid: Bytes, index: nat)
    requires |dst| == 16 && geo.Ok() && |csid| == geo.Width() && index < geo.K()
    ensures var d := Rewrite(dst, geo, csid, index);
      && geo.Low(d[15]) == index
      && (index < geo.Low(dst[15]) ==> d[15] % 8 < dst[15] % 8)
      && d[15] % 8 < dst[15] % 8 + 8
  {
    RewriteBits(dst, geo, csid, index);
    var x, y := dst[15], Rewrite(dst, geo, csid, index)[15];
    if geo.csidBits == 32 {
      assert x % 8 == x / 4 % 2 * 4 + x % 4;
      assert y / 4 == x / 4;
    }
  }

  lemma RewriteLowers(f: Ip6, geo: Geometry, csid: Bytes)
    requires f.Ok() && geo.Ok() && |f.payload| >= 4 && |csid| == geo.Width() && Index(f, geo) > 0
    ensures Lowered(f, f.(dst := Rewrite(f.dst, geo, csid, Index(f, geo) - 1)), geo)
  {
    IndexFuel(f.dst, geo, csid, Index(f, geo) - 1);
    RewrittenFuel(f, f.(dst := Rewrite(f.dst, geo, csid, Index(f, geo) - 1)), geo);
  }

  lemma NextPositionProgress(f: Ip6, sid: RepSid)
    requires f.Ok() && sid.geo.Ok() && |f.payload| >= 5 && InSrh(f, Sl(f)) && Index(f, sid.geo) > 0
    requires var c := Position(f, sid.geo, 0, Index(f, sid.geo) - 1); Sl(f) == 0 ==> c.Some? && !Zero(c.value)
    ensures Progress(f, NextPosition(f, sid, Index(f, sid.geo) - 1), sid.geo)
  {
    var index := Index(f, sid.geo) - 1;
    var c := Position(f, sid.geo, Sl(f), index);
    if c.Some? && !Zero(c.value) {
      RewriteLowers(f, sid.geo, c.value);
    } else if c.Some? {
      FullSidProgress(f, sid);
    }
  }

  lemma RewrittenFuel(f: Ip6, g: Ip6, geo: Geometry)
    requires f.Ok() && g.Ok() && |f.payload| >= 4 && |g.payload| == |f.payload|
    requires Sl(g) < Sl(f) || (Sl(g) == Sl(f) && Index(g, geo) < Index(f, geo) && g.dst[15] % 8 < f.dst[15] % 8)
    ensures Lowered(f, g, geo)
  {
  }

  lemma FullSidProgress(f: Ip6, sid: RepSid)
    requires f.Ok() && |f.payload| >= 5 && Sl(f) > 0 && Index(f, sid.geo) > 0
    ensures Progress(f, FullSid(f, sid), sid.geo)
  {
    var next := Entry(f.payload, Sl(f) - 1);
    if next.Some? {
      RewrittenFuel(f, Advance(f, next.value), sid.geo);
    }
  }

  lemma NextContainerProgress(f: Ip6, sid: RepSid)
    requires f.Ok() && sid.geo.Ok() && |f.payload| >= 5 && Sl(f) > 0 && InSrh(f, Sl(f) - 1) && Index(f, sid.geo) == 0
    ensures Progress(f, NextContainer(f, sid), sid.geo)
  {
    var sl, index := Sl(f) - 1, sid.geo.K() - 1;
    var c := Position(f, sid.geo, sl, index);
    if c.Some? {
      RewrittenFuel(f, f.(dst := Rewrite(f.dst, sid.geo, c.value, index), payload := f.payload[3 := sl]), sid.geo);
    }
  }

  lemma UltimateMoves(f: Ip6, sid: RepSid)
    requires f.Ok() && |f.payload| >= 4 && !Delivers(f, sid)
    ensures Progress(f, Act(Ultimate(f, sid)), sid.geo)
  {
  }

  /** The tests of a pass, in its order. */
  lemma PassGates(f: Ip6, sid: RepSid)
    requires f.Ok() && sid.geo.Ok() && f.nh == PROTO_ROUTING && |f.payload| >= 4 && Ext(f) <= 12 && !CutShort(f, sid)
    ensures UltimateHere(f, sid) ==> ReplaceOnce(f, sid) == Act(Ultimate(f, sid))
    ensures !UltimateHere(f, sid) && Malformed(f, sid) ==> ReplaceOnce(f, sid) == Act(Kept(Pass, f))
    ensures !UltimateHere(f, sid) && !Malformed(f, sid) && |f.payload| < 5 ==> ReplaceOnce(f, sid) == Act(Failed)
    ensures !UltimateHere(f, sid) && !Malformed(f, sid) && |f.payload| >= 5 && Index(f, sid.geo) > 0 ==>
      && InSrh(f, Sl(f))
      && (var c := Position(f, sid.geo, 0, Index(f, sid.geo) - 1); Sl(f) == 0 ==> c.Some? && !Zero(c.value))
      && ReplaceOnce(f, sid) == NextPosition(f, sid, Index(f, sid.geo) - 1)
    ensures !UltimateHere(f, sid) && !Malformed(f, sid) && |f.payload| >= 5 && Index(f, sid.geo) == 0 ==>
      Sl(f) > 0 && InSrh(f, Sl(f) - 1) && ReplaceOnce(f, sid) == NextContainer(f, sid)
  {
  }

  /** A pass leaves the packet alone exactly when `Stays` says so; any other error-free pass strips it, takes
      its SRH off, or strictly lowers `SL * K + index`, a full-SID load included. */
  lemma PassProgresses(f: Ip6, sid: RepSid)
    requires f.Ok()
    ensures Stays(f, sid) ==> ReplaceOnce(f, sid) == Act(Kept(Pass, f))
    ensures !Stays(f, sid) ==> Progress(f, ReplaceOnce(f, sid), sid.geo)
  {
    if sid.geo.Ok() && f.nh == PROTO_ROUTING && |f.payload| >= 4 && Ext(f) <= 12 && !CutShort(f, sid) {
      PassGates(f, sid);
      if UltimateHere(f, sid) {
        if !Delivers(f, sid) {
          UltimateMoves(f, sid);
        }
      } else if !Malformed(f, sid) && |f.payload| >= 5 {
        if Index(f, sid.geo) > 0 {
          NextPositionProgress(f, sid);
        } else {
          NextContainerProgress(f, sid);
        }
      }
    }
  }

  // ---- any endpoints, any geometries ----

  /** One endpoint changes the packet and keeps it: it goes on with `g`, perhaps under a new Ethernet header
      and hop limit. */
  predicate Changes(f: Ip6, sid: RepSid, serves: Bytes -> Option<RepSid>, g: Ip6)
  {
    && f.Ok() && g.Ok() && !Stays(f, sid)
    && match Replace(f, sid, serves)
       case Kept(_, h) => h.Ok() && g == Transit(h, g.l2, g.hop)
       case _ => false
  }

  lemma ChangesLower(f: Ip6, sid: RepSid, serves: Bytes -> Option<RepSid>, g: Ip6)
    requires Changes(f, sid, serves, g)
    ensures Fuel(g) < Fuel(f)
  {
    PassProgresses(f, sid);
    match ReplaceOnce(f, sid)
    case Act(Kept(_, h)) => MovedFuel(f, h, sid.geo);
    case Redispatch(h) =>
      MovedFuel(f, h, sid.geo);
      if serves(h.dst).Some? {
        var own := serves(h.dst).value;
        PassProgresses(h, own);
        match ReplaceOnce(h, own)
        case Act(Kept(_, k)) => if k != h { MovedFuel(h, k, own.geo); }
        case Redispatch(k) => MovedFuel(h, k, own.geo);
        case _ =>
      }
    case _ =>
  }

  /** No endpoints of any geometries can pass a packet on, changed each time, for ever: its fuel bounds how
      often. */
  lemma {:induction false} NoEndlessWalk(run: seq<Ip6>, sids: seq<RepSid>, serves: seq<Bytes -> Option<RepSid>>)
    requires |run| == |sids| + 1 == |serves| + 1 && run[0].Ok()
    requires forall i | 0 <= i < |sids| :: Changes(run[i], sids[i], serves[i], run[i + 1])
    ensures |sids| <= Fuel(run[0])
    decreases |sids|
  {
    if sids != [] {
      assert Changes(run[0], sids[0], serves[0], run[0 + 1]);
      ChangesLower(run[0], sids[0], serves[0], run[1]);
      forall i | 0 <= i < |sids[1..]| ensures Changes(run[1..][i], sids[1..][i], serves[1..][i], run[1..][i + 1]) {
        assert Changes(run[i + 1], sids[i + 1], serves[i + 1], run[i + 1 + 1]);
      }
      NoEndlessWalk(run[1..], sids[1..], serves[1..]);
    }
  }
}
