/** The REPLACE-C-SID walk as a countdown over one line of C-SIDs, `SL * K + index` of them left. */
module ReplaceWalk {
  import opened Packet
  import opened Wrappers
  import opened Srv6
  import opened ReplaceCsid

  /** C-SIDs left after the active one. */
  function Remaining(f: Ip6, geo: Geometry): nat
    requires f.Ok() && |f.payload| >= 4
  {
    geo.At(Sl(f), Index(f, geo))
  }

  /** A complete SRH of containers, in range of the walk. */
  predicate Walkable(f: Ip6, geo: Geometry)
  {
    && f.Ok() && geo.Ok() && f.nh == PROTO_ROUTING
    && |f.payload| >= 24 && 2 <= Ext(f) <= 12 && 8 * (Ext(f) + 1) <= |f.payload|
    && f.payload[4] <= Ext(f) / 2 - 1 && Sl(f) <= MAX_SEGS
    && (if Index(f, geo) == 0 then Sl(f) <= f.payload[4] + 1 else Sl(f) <= f.payload[4])
  }

  /** The C-SIDs of all containers on one line: container 0 position 0 first. */
  function Csid(f: Ip6, geo: Geometry, t: nat): (c: Bytes)
    requires |f.payload| >= 2 && 8 * (Ext(f) + 1) <= |f.payload| && InSrh(f, geo.EntryOf(t))
    ensures |c| == geo.Width()
  {
    Position(f, geo, geo.EntryOf(t), geo.PosOf(t)).value
  }

  lemma Countdown(f: Ip6, geo: Geometry)
    requires Walkable(f, geo) && Remaining(f, geo) > 0
    ensures var t := Remaining(f, geo) - 1;
      && geo.EntryOf(t) == (if Index(f, geo) == 0 then Sl(f) - 1 else Sl(f))
      && geo.PosOf(t) == (if Index(f, geo) == 0 then geo.K() - 1 else Index(f, geo) - 1)
      && InSrh(f, geo.EntryOf(t)) && InSrh(f, 0)
  {
  }

  /** The DA holds the last C-SID of the last container: the test the next endpoint makes first. */
  predicate AtEnd(f: Ip6, geo: Geometry)
    requires f.Ok() && |f.payload| >= 4 && InSrh(f, 0)
  {
    Sl(f) == 0 && NoneAfter(f, geo, Index(f, geo))
  }

  /** The packet with the C-SID at `t` active. */
  function Active(f: Ip6, geo: Geometry, t: nat): (g: Ip6)
    requires Walkable(f, geo) && InSrh(f, geo.EntryOf(t)) && geo.EntryOf(t) < 256
    ensures g.Ok()
  {
    f.(dst := Rewrite(f.dst, geo, Csid(f, geo, t), geo.PosOf(t)), payload := f.payload[3 := geo.EntryOf(t)])
  }

  /** What a rewrite leaves of the destination: the C-SID bytes and the index bits are new, nothing else. */
  lemma RewriteBits(dst: Bytes, geo: Geometry, csid: Bytes, index: nat)
    requires |dst| == 16 && geo.Ok() && |csid| == geo.Width() && index < geo.K()
    ensures var d, b, w := Rewrite(dst, geo, csid, index), geo.Block(), geo.Width();
      && b + w <= 15 && d[b..b + w] == csid
      && geo.Low(d[15]) == index && d[15] - geo.Low(d[15]) == dst[15] - geo.Low(dst[15])
      && forall i | 0 <= i < 15 && !(b <= i < b + w) :: d[i] == dst[i]
  {
    var b, w := geo.Block(), geo.Width();
    var e, d := Put(dst, b, csid), Rewrite(dst, geo, csid, index);
    LastBits(dst[15], geo, index);
    PutBytes(dst, b, csid);
    assert d[b..b + w] == e[b..b + w];
  }

  lemma LastBits(x: Byte, geo: Geometry, index: nat)
    requires index < geo.K()
    ensures var y := x - geo.Low(x) + index;
      0 <= y < 256 && geo.Low(y) == index && y - geo.Low(y) == x - geo.Low(x)
  {
  }

  /** Segments Left is not part of a container. */
  lemma PositionAside(f: Ip6, geo: Geometry, dst: Bytes, x: Byte, entry: nat, pos: nat)
    requires f.Ok() && |dst| == 16 && |f.payload| >= 8 && InSrh(f, entry) && pos < geo.K()
    ensures var g := f.(dst := dst, payload := f.payload[3 := x]);
      InSrh(g, entry) && Position(g, geo, entry, pos) == Position(f, geo, entry, pos)
  {
    var off := 8 + 16 * entry + geo.Width() * pos;
    if off + geo.Width() <= |f.payload| {
      assert f.payload[3 := x][off..off + geo.Width()] == f.payload[off..off + geo.Width()];
    }
  }

  lemma PositionThere(f: Ip6, geo: Geometry, entry: nat, pos: nat)
    requires |f.payload| >= 2 && 8 * (Ext(f) + 1) <= |f.payload| && InSrh(f, entry) && pos < geo.K()
    ensures Position(f, geo, entry, pos).Some?
  {
  }

  lemma ActiveState(f: Ip6, geo: Geometry, t: nat)
    requires Walkable(f, geo) && t < Remaining(f, geo)
    ensures InSrh(f, 0) && InSrh(f, geo.EntryOf(t)) && geo.EntryOf(t) < 256
    ensures var g := Active(f, geo, t);
      && Walkable(g, geo) && Remaining(g, geo) == t && InSrh(g, 0)
      && Index(g, geo) == geo.PosOf(t) && Sl(g) == geo.EntryOf(t)
  {
    Countdown(f, geo);
    assert geo.EntryOf(t) <= geo.EntryOf(Remaining(f, geo) - 1);
    RewriteBits(f.dst, geo, Csid(f, geo, t), geo.PosOf(t));
  }

  lemma EndAside(f: Ip6, geo: Geometry, dst: Bytes, x: Byte)
    requires Walkable(f, geo) && |dst| == 16 && InSrh(f, 0)
    ensures var g := f.(dst := dst, payload := f.payload[3 := x]);
      InSrh(g, 0) && (AtEnd(g, geo) <==> x == 0 && NoneAfter(f, geo, Index(g, geo)))
  {
    var index := Index(f.(dst := dst), geo);
    if index > 0 {
      PositionAside(f, geo, dst, x, 0, index - 1);
    }
  }

  /** A step inside a container. */
  lemma StepInContainer(f: Ip6, sid: RepSid, index: nat, g: Ip6, pop: bool)
    requires Walkable(f, sid.geo) && Index(f, sid.geo) == index + 1 && InSrh(f, Sl(f)) && InSrh(f, 0)
    requires !Zero(Position(f, sid.geo, Sl(f), index).value)
    requires g == f.(dst := Rewrite(f.dst, sid.geo, Position(f, sid.geo, Sl(f), index).value, index))
    requires pop == (sid.psp && Sl(f) == 0 && NoneAfter(f, sid.geo, index))
    ensures ReplaceOnce(f, sid) == Forward(g, sid, pop)
  {
    PositionThere(f, sid.geo, Sl(f), index);
    PositionThere(f, sid.geo, 0, index);
    if index > 0 {
      PositionThere(f, sid.geo, 0, index - 1);
    }
    assert ReplaceOnce(f, sid) == NextPosition(f, sid, index);
  }

  /** A step to the next container. */
  lemma StepToContainer(f: Ip6, sid: RepSid, sl: nat, index: nat, g: Ip6, pop: bool)
    requires Walkable(f, sid.geo) && Index(f, sid.geo) == 0 && Sl(f) == sl + 1 && index == sid.geo.K() - 1
    requires InSrh(f, sl) && InSrh(f, 0)
    requires g == f.(dst := Rewrite(f.dst, sid.geo, Position(f, sid.geo, sl, index).value, index),
      payload := f.payload[3 := sl])
    requires pop == (sid.psp && sl == 0 && NoneAfter(f, sid.geo, index))
    ensures ReplaceOnce(f, sid) == Forward(g, sid, pop)
  {
    PositionThere(f, sid.geo, sl, index);
    PositionThere(f, sid.geo, 0, index - 1);
    assert ReplaceOnce(f, sid) == NextContainer(f, sid);
  }

  lemma StepForwards(f: Ip6, sid: RepSid, t: nat, pop: bool)
    requires Walkable(f, sid.geo) && Remaining(f, sid.geo) == t + 1
    requires InSrh(f, sid.geo.EntryOf(t)) && (Index(f, sid.geo) > 0 ==> !Zero(Csid(f, sid.geo, t)))
    requires InSrh(f, 0) && pop == (sid.psp && sid.geo.EntryOf(t) == 0 && NoneAfter(f, sid.geo, sid.geo.PosOf(t)))
    ensures sid.geo.EntryOf(t) < 256
    ensures ReplaceOnce(f, sid) == Forward(Active(f, sid.geo, t), sid, pop)
  {
    Countdown(f, sid.geo);
    if Index(f, sid.geo) > 0 {
      assert f.payload[3 := Sl(f)] == f.payload;
      StepInContainer(f, sid, sid.geo.PosOf(t), Active(f, sid.geo, t), pop);
    } else {
      StepToContainer(f, sid, sid.geo.EntryOf(t), sid.geo.PosOf(t), Active(f, sid.geo, t), pop);
    }
  }

  /** One endpoint on a next position that does not end a container: the C-SID before the active one on the
      line becomes active, and the SRH is popped exactly when the next visit would find the ultimate segment. */
  lemma StepRewrites(f: Ip6, sid: RepSid)
    requires Walkable(f, sid.geo) && Remaining(f, sid.geo) > 0
    requires InSrh(f, sid.geo.EntryOf(Remaining(f, sid.geo) - 1))
    requires Index(f, sid.geo) > 0 ==> !Zero(Csid(f, sid.geo, Remaining(f, sid.geo) - 1))
    ensures sid.geo.EntryOf(Remaining(f, sid.geo) - 1) < 256
    ensures var g := Active(f, sid.geo, Remaining(f, sid.geo) - 1);
      InSrh(g, 0) && ReplaceOnce(f, sid) == Forward(g, sid, sid.psp && AtEnd(g, sid.geo))
  {
    var t := Remaining(f, sid.geo) - 1;
    ActiveState(f, sid.geo, t);
    EndAside(f, sid.geo, Active(f, sid.geo, t).dst, sid.geo.EntryOf(t));
    StepForwards(f, sid, t, sid.psp && AtEnd(Active(f, sid.geo, t), sid.geo));
  }

  /** The ultimate segment, read off the line. */
  lemma AtEndMeans(f: Ip6, geo: Geometry)
    requires Walkable(f, geo) && InSrh(f, 0)
    ensures AtEnd(f, geo) <==>
      Remaining(f, geo) == 0 ||
        (Sl(f) == 0 && InSrh(f, geo.EntryOf(Remaining(f, geo) - 1)) && Zero(Csid(f, geo, Remaining(f, geo) - 1)))
  {
    if Remaining(f, geo) > 0 {
      Countdown(f, geo);
    }
    if Sl(f) == 0 && Index(f, geo) > 0 {
      PositionThere(f, geo, 0, Index(f, geo) - 1);
    }
  }

  /** A zero position with a list entry below it ends the container: that entry, a full SID, becomes the
      whole destination and is looked up again. At the last list entry it is the ultimate segment. */
  lemma ZeroEndsContainer(f: Ip6, sid: RepSid)
    requires Walkable(f, sid.geo) && Index(f, sid.geo) > 0 && InSrh(f, Sl(f))
    requires Zero(Csid(f, sid.geo, Remaining(f, sid.geo) - 1))
    ensures Sl(f) == 0 ==> ReplaceOnce(f, sid) == Act(Ultimate(f, sid))
    ensures Sl(f) > 0 ==>
      var full := Entry(f.payload, Sl(f) - 1);
      && full.Some?
      && var g := Advance(f, full.value);
      var popped := if Sl(f) == 1 && sid.psp then PopSrh(g) else Some(g);
      ReplaceOnce(f, sid) == (if popped == None then Act(Failed) else Redispatch(popped.value))
  {
    Countdown(f, sid.geo);
    PositionThere(f, sid.geo, Sl(f), Index(f, sid.geo) - 1);
    if Sl(f) == 0 {
      PositionThere(f, sid.geo, 0, Index(f, sid.geo) - 1);
    }
  }
}
