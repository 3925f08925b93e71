/** The whole REPLACE-C-SID walk: the destinations an SRH announces, and the endpoints that see them. */
module ReplaceList {
  import opened Packet
  import opened Wrappers
  import opened Srv6
  import opened NodeWalk
  import opened ReplaceCsid
  import opened ReplaceWalk

  // ---- a segment list, and what it announces ----

  /** The entries of a segment list and how its C-SIDs are packed. */
  datatype SegList = SegList(geo: Geometry, entries: seq<Bytes>)
  {
    predicate Ok() { geo.Ok() && forall i | 0 <= i < |entries| :: |entries[i]| == 16 }

    /** Positions of all containers. */
    function Size(): nat { geo.At(|entries|, 0) }
  }

  lemma SlotInEntry(list: SegList, t: nat)
    requires list.Ok() && t < list.Size()
    ensures list.geo.EntryOf(t) < |list.entries|
    ensures list.geo.Width() * list.geo.PosOf(t) + list.geo.Width() <= 16
  {
  }

  /** The C-SID at number `t` of the line of all containers. */
  function Slot(list: SegList, t: nat): (c: Bytes)
    requires list.Ok() && t < list.Size()
    ensures |c| == list.geo.Width()
  {
    SlotInEntry(list, t);
    var off := list.geo.Width() * list.geo.PosOf(t);
    list.entries[list.geo.EntryOf(t)][off..off + list.geo.Width()]
  }

  /** A step of the walk, and how many C-SIDs are left after it: the next compressed SID, or the full SID below
      a container that a zero position has ended. */
  datatype Hop = Short(csid: Bytes, left: nat) | Full(sid: Bytes, left: nat)

  /** With `m` C-SIDs left. `None` at the ultimate segment. A container is entered at its last position,
      whatever that holds; a zero at any other ends it. */
  function NextHop(list: SegList, m: nat): (h: Option<Hop>)
    requires list.Ok() && m <= list.Size()
    ensures h.Some? ==> h.value.left < m
  {
    var geo := list.geo;
    if m == 0 then None
    else if geo.PosOf(m) == 0 || !Zero(Slot(list, m - 1)) then Some(Short(Slot(list, m - 1), m - 1))
    else if geo.EntryOf(m) == 0 then None
    else
      EntryBelow(list, m);
      var full := list.entries[geo.EntryOf(m) - 1];
      FullBelow(list, m, geo.Low(full[15]));
      Some(Full(full, geo.At(geo.EntryOf(m) - 1, geo.Low(full[15]))))
  }

  lemma EntryBelow(list: SegList, m: nat)
    requires list.Ok() && m <= list.Size() && list.geo.EntryOf(m) > 0
    ensures list.geo.EntryOf(m) - 1 < |list.entries|
  {
  }

  lemma FullBelow(list: SegList, m: nat, low: nat)
    requires list.Ok() && list.geo.PosOf(m) > 0 && list.geo.EntryOf(m) > 0 && low < list.geo.K()
    ensures var left := list.geo.At(list.geo.EntryOf(m) - 1, low);
      left < m && list.geo.EntryOf(left) == list.geo.EntryOf(m) - 1 && list.geo.PosOf(left) == low
  {
  }

  /** All the steps from there to the ultimate segment. */
  function Announced(list: SegList, m: nat): seq<Hop>
    requires list.Ok() && m <= list.Size()
    decreases m
  {
    match NextHop(list, m)
    case None => []
    case Some(h) => [h] + Announced(list, h.left)
  }

  /** The steps after the first `i` are those announced from where they lead. */
  lemma {:induction false} AnnouncedTail(list: SegList, m: nat, i: nat)
    requires list.Ok() && m <= list.Size() && i < |Announced(list, m)|
    ensures var h := Announced(list, m)[i];
      h.left < m && Announced(list, m)[i + 1..] == Announced(list, h.left)
    decreases m
  {
    var h := NextHop(list, m).value;
    if i > 0 {
      AnnouncedTail(list, h.left, i - 1);
      assert Announced(list, m)[i + 1..] == Announced(list, h.left)[i..];
    }
  }

  /** What is left before step `i`. */
  function LeftBefore(list: SegList, m: nat, i: nat): (n: nat)
    requires list.Ok() && m <= list.Size() && i <= |Announced(list, m)|
    ensures n <= m
  {
    if i == 0 then m
    else
      AnnouncedTail(list, m, i - 1);
      Announced(list, m)[i - 1].left
  }

  lemma StepIs(list: SegList, m: nat, i: nat)
    requires list.Ok() && m <= list.Size() && i < |Announced(list, m)|
    ensures NextHop(list, LeftBefore(list, m, i)) == Some(Announced(list, m)[i])
    ensures LeftBefore(list, m, i + 1) == Announced(list, m)[i].left
  {
    if i > 0 {
      AnnouncedTail(list, m, i - 1);
      assert Announced(list, m)[i..][0] == Announced(list, m)[i];
    }
  }

  // ---- the penultimate pop ----

  predicate ZeroSlot(list: SegList, t: nat)
  {
    list.Ok() && t < list.Size() && Zero(Slot(list, t))
  }

  /** Where a SID with the flavor pops: at the last C-SID of the last container, or at a full SID loaded from
      entry 0. */
  predicate Pops(list: SegList, h: Hop)
  {
    match h
    case Short(_, left) => left == 0 || (list.geo.EntryOf(left) == 0 && ZeroSlot(list, left - 1))
    case Full(_, left) => list.geo.EntryOf(left) == 0
  }

  /** After a compressed SID the pop comes exactly at the end of the walk. A full SID loaded from entry 0 also
      pops - which is the end too, unless its last bits index positions of that same entry. */
  lemma PopsAtEnd(list: SegList, m: nat, i: nat)
    requires list.Ok() && m <= list.Size() && i < |Announced(list, m)|
    ensures var h := Announced(list, m)[i];
      Pops(list, h) <==> i == |Announced(list, m)| - 1 || (h.Full? && list.geo.EntryOf(h.left) == 0)
  {
    AnnouncedTail(list, m, i);
    var h := Announced(list, m)[i];
    assert i == |Announced(list, m)| - 1 <==> Announced(list, h.left) == [];
  }

  // ---- packets that carry the list ----

  predicate HasEntry(f: Ip6, e: nat, entry: Bytes)
    requires |f.payload| >= 2
  {
    InSrh(f, e) && Entry(f.payload, e) == Some(entry)
  }

  ghost predicate Carries(f: Ip6, list: SegList)
  {
    && list.Ok() && Walkable(f, list.geo) && Remaining(f, list.geo) <= list.Size()
    && forall e {:trigger HasEntry(f, e, list.entries[e])} | 0 <= e < |list.entries| :: HasEntry(f, e, list.entries[e])
  }

  lemma SlotIsCsid(f: Ip6, list: SegList, t: nat)
    requires Carries(f, list) && t < list.Size()
    ensures InSrh(f, list.geo.EntryOf(t)) && Csid(f, list.geo, t) == Slot(list, t)
  {
    var geo := list.geo;
    var e, off := geo.EntryOf(t), geo.Width() * geo.PosOf(t);
    SlotInEntry(list, t);
    assert HasEntry(f, e, list.entries[e]);
    SliceOfSlice(f.payload, 8 + 16 * e, 16, off, geo.Width());
  }

  /** The packet after a step, before any pop: Segments Left and the destination, nothing else. */
  function Taken(f: Ip6, geo: Geometry, h: Hop): (g: Ip6)
    requires f.Ok() && geo.Ok() && |f.payload| >= 4 && geo.EntryOf(h.left) < 256
    requires match h case Short(c, _) => |c| == geo.Width() case Full(s, _) => |s| == 16
    ensures g.Ok()
  {
    var dst := match h
      case Short(c, left) => Rewrite(f.dst, geo, c, geo.PosOf(left))
      case Full(s, _) => s;
    f.(dst := dst, payload := f.payload[3 := geo.EntryOf(h.left)])
  }

  /** The step can be taken. */
  predicate Leads(f: Ip6, geo: Geometry, h: Hop)
  {
    && f.Ok() && geo.Ok() && |f.payload| >= 4 && geo.EntryOf(h.left) < 256
    && match h case Short(c, _) => |c| == geo.Width() case Full(s, _) => |s| == 16
  }

  lemma EntryAside(payload: Bytes, x: Byte, e: nat)
    requires |payload| >= 8
    ensures Entry(payload[3 := x], e) == Entry(payload, e)
  {
    if 8 + 16 * e + 16 <= |payload| {
      assert payload[3 := x][8 + 16 * e..8 + 16 * e + 16] == payload[8 + 16 * e..8 + 16 * e + 16];
    }
  }

  /** A packet that differs in Segments Left, the destination and the forwarding fields carries the same list. */
  lemma StillCarries(f: Ip6, list: SegList, g: Ip6, sl: Byte)
    requires Carries(f, list) && g.Ok() && g.payload == f.payload[3 := sl] && g.nh == f.nh
    requires Walkable(g, list.geo) && Remaining(g, list.geo) <= list.Size()
    ensures Carries(g, list)
  {
    forall e | 0 <= e < |list.entries| ensures HasEntry(g, e, list.entries[e]) {
      assert HasEntry(f, e, list.entries[e]);
      EntryAside(f.payload, sl, e);
    }
  }

  lemma NextShort(list: SegList, m: nat, h: Hop)
    requires list.Ok() && m <= list.Size() && NextHop(list, m) == Some(h) && h.Short?
    ensures m == h.left + 1 && h.csid == Slot(list, h.left) && (list.geo.PosOf(m) > 0 ==> !Zero(h.csid))
  {
  }

  lemma Place(f: Ip6, geo: Geometry)
    requires f.Ok() && |f.payload| >= 4
    ensures geo.EntryOf(Remaining(f, geo)) == Sl(f) && geo.PosOf(Remaining(f, geo)) == Index(f, geo)
  {
  }

  lemma ShortIsActive(f: Ip6, list: SegList, h: Hop)
    requires Carries(f, list) && NextHop(list, Remaining(f, list.geo)) == Some(h) && h.Short?
    ensures Remaining(f, list.geo) == h.left + 1 && InSrh(f, list.geo.EntryOf(h.left)) &&
      Csid(f, list.geo, h.left) == h.csid
    ensures Index(f, list.geo) > 0 ==> !Zero(h.csid)
    ensures Leads(f, list.geo, h) && Taken(f, list.geo, h) == Active(f, list.geo, h.left)
  {
    NextShort(list, Remaining(f, list.geo), h);
    Place(f, list.geo);
    SlotIsCsid(f, list, h.left);
    ActiveState(f, list.geo, h.left);
  }

  /** The test of the pop, on a packet that carries the list. */
  lemma EndTest(g: Ip6, list: SegList)
    requires Carries(g, list) && InSrh(g, 0)
    ensures var m := Remaining(g, list.geo);
      AtEnd(g, list.geo) <==> m == 0 || (list.geo.EntryOf(m) == 0 && Zero(Slot(list, m - 1)))
  {
    AtEndMeans(g, list.geo);
    var m := Remaining(g, list.geo);
    Place(g, list.geo);
    if m > 0 {
      SlotIsCsid(g, list, m - 1);
    }
  }

  lemma ShortPops(f: Ip6, list: SegList, h: Hop)
    requires Carries(f, list) && NextHop(list, Remaining(f, list.geo)) == Some(h) && h.Short?
    ensures Leads(f, list.geo, h) && InSrh(Taken(f, list.geo, h), 0)
    ensures AtEnd(Taken(f, list.geo, h), list.geo) <==> Pops(list, h)
  {
    ShortTaken(f, list, h);
    EndPops(Taken(f, list.geo, h), list, h);
  }

  lemma EndPops(g: Ip6, list: SegList, h: Hop)
    requires Carries(g, list) && Remaining(g, list.geo) == h.left && h.Short?
    ensures InSrh(g, 0) && (AtEnd(g, list.geo) <==> Pops(list, h))
  {
    EndTest(g, list);
  }

  /** A compressed step. */
  lemma ShortStep(f: Ip6, list: SegList, sid: RepSid, h: Hop)
    requires Carries(f, list) && sid.geo == list.geo && NextHop(list, Remaining(f, list.geo)) == Some(h) && h.Short?
    ensures Leads(f, list.geo, h) &&
      ReplaceOnce(f, sid) == Forward(Taken(f, list.geo, h), sid, sid.psp && Pops(list, h))
  {
    ShortIsActive(f, list, h);
    ShortPops(f, list, h);
    StepRewrites(f, sid);
  }

  lemma ShortTaken(f: Ip6, list: SegList, h: Hop)
    requires Carries(f, list) && NextHop(list, Remaining(f, list.geo)) == Some(h) && h.Short?
    ensures Leads(f, list.geo, h)
    ensures Carries(Taken(f, list.geo, h), list) && Remaining(Taken(f, list.geo, h), list.geo) == h.left
  {
    ShortIsActive(f, list, h);
    ActiveState(f, list.geo, h.left);
    StillCarries(f, list, Taken(f, list.geo, h), list.geo.EntryOf(h.left));
  }

  /** A full step. */
  lemma FullStep(f: Ip6, list: SegList, sid: RepSid, h: Hop)
    requires Carries(f, list) && sid.geo == list.geo && NextHop(list, Remaining(f, list.geo)) == Some(h) && h.Full?
    ensures Leads(f, list.geo, h)
    ensures var g := Taken(f, list.geo, h);
      ReplaceOnce(f, sid) ==
        if sid.psp && Pops(list, h) then (match PopSrh(g) case None => Act(Failed) case Some(x) => Redispatch(x))
        else Redispatch(g)
  {
    var geo, m := list.geo, Remaining(f, list.geo);
    FullState(f, list, h);
    SlotIsCsid(f, list, m - 1);
    ZeroEndsContainer(f, sid);
    assert Advance(f, h.sid) == Taken(f, geo, h);
  }

  lemma FullState(f: Ip6, list: SegList, h: Hop)
    requires Carries(f, list) && NextHop(list, Remaining(f, list.geo)) == Some(h) && h.Full?
    ensures Leads(f, list.geo, h) && Index(f, list.geo) > 0 && Sl(f) > 0
    ensures list.geo.EntryOf(h.left) == Sl(f) - 1 && list.geo.PosOf(h.left) == list.geo.Low(h.sid[15])
    ensures Entry(f.payload, Sl(f) - 1) == Some(h.sid) && InSrh(f, Sl(f))
  {
    var geo, m := list.geo, Remaining(f, list.geo);
    Place(f, geo);
    EntryBelow(list, m);
    FullBelow(list, m, geo.Low(h.sid[15]));
    assert HasEntry(f, Sl(f) - 1, list.entries[Sl(f) - 1]);
  }

  lemma FullTaken(f: Ip6, list: SegList, h: Hop)
    requires Carries(f, list) && NextHop(list, Remaining(f, list.geo)) == Some(h) && h.Full?
    ensures Leads(f, list.geo, h)
    ensures Carries(Taken(f, list.geo, h), list) && Remaining(Taken(f, list.geo, h), list.geo) == h.left
  {
    FullState(f, list, h);
    StillCarries(f, list, Taken(f, list.geo, h), Sl(f) - 1);
  }

  /** With no step left the pass is the ultimate segment's. */
  lemma UltimateLast(f: Ip6, list: SegList, sid: RepSid)
    requires Carries(f, list) && sid.geo == list.geo && NextHop(list, Remaining(f, list.geo)) == None
    ensures ReplaceOnce(f, sid) == Act(Ultimate(f, sid))
  {
    var m := Remaining(f, list.geo);
    if m > 0 {
      SlotIsCsid(f, list, m - 1);
      ZeroEndsContainer(f, sid);
    }
  }

  // ---- the walk ----

  /** An endpoint: its SID, the SIDs it serves, the way its neighbour on the path lies, and the Ethernet header
      and hop limit it forwards with. */
  datatype Node = Node(sid: RepSid, serves: Bytes -> Option<RepSid>, way: Verdict, l2: Bytes, hop: Byte)

  /** Where a SID sends its packets: End.X out its adjacency, End by the main table. */
  function Way(sid: RepSid): Verdict { if sid.isX then Via(sid.nexthop) else Pass }

  /** The packet one endpoint sends on. `None` when it fails, strips the packet or sends it another way. */
  function Visit(f: Ip6, node: Node): Option<Ip6>
  {
    if !f.Ok() || |node.l2| != 14 then None
    else
      match Replace(f, node.sid, node.serves)
      case Kept(v, g) => if v == node.way && g.Ok() then Some(Transit(g, node.l2, node.hop)) else None
      case _ => None
  }

  /** The endpoint packs C-SIDs as the list does, its neighbour lies where its SID sends to, and it does not
      itself serve a full SID it loads. */
  predicate Takes(node: Node, list: SegList, h: Hop)
  {
    && |node.l2| == 14 && node.sid.geo == list.geo && node.way == Way(node.sid)
    && (h.Full? ==> node.serves(h.sid) == None)
  }

  /** What the node sends on of the packet its step made: the packet, or what a pop leaves. */
  function SentOn(node: Node, list: SegList, h: Hop, g: Ip6): Option<Ip6>
    requires g.Ok()
  {
    if node.sid.psp && Pops(list, h) then PopSrh(g) else Some(g)
  }

  lemma VisitTakes(f: Ip6, node: Node, list: SegList, h: Hop, g: Ip6)
    requires Carries(f, list) && NextHop(list, Remaining(f, list.geo)) == Some(h) && Takes(node, list, h)
    requires Leads(f, list.geo, h) && g == Transit(Taken(f, list.geo, h), node.l2, node.hop)
    ensures Visit(f, node) == SentOn(node, list, h, g)
  {
    if h.Short? {
      ShortStep(f, list, node.sid, h);
    } else {
      FullStep(f, list, node.sid, h);
    }
  }

  lemma TakenCarries(f: Ip6, list: SegList, h: Hop, l2: Bytes, hop: Byte)
    requires Carries(f, list) && NextHop(list, Remaining(f, list.geo)) == Some(h) && |l2| == 14
    ensures Leads(f, list.geo, h)
    ensures var g := Transit(Taken(f, list.geo, h), l2, hop);
      Carries(g, list) && Remaining(g, list.geo) == h.left
  {
    if h.Short? {
      ShortTaken(f, list, h);
    } else {
      FullTaken(f, list, h);
    }
    var g := Taken(f, list.geo, h);
    assert g.payload[3 := Sl(g)] == g.payload;
    StillCarries(g, list, Transit(g, l2, hop), Sl(g));
  }

  /** The packet that enters node `i`. */
  function Entering(f: Ip6, geo: Geometry, hops: seq<Hop>, nodes: seq<Node>, i: nat): (g: Ip6)
    requires f.Ok() && i <= |hops| && i <= |nodes|
    ensures g.Ok()
  {
    if i == 0 then f
    else
      var e := Entering(f, geo, hops, nodes, i - 1);
      if Leads(e, geo, hops[i - 1]) && |nodes[i - 1].l2| == 14 then
        Transit(Taken(e, geo, hops[i - 1]), nodes[i - 1].l2, nodes[i - 1].hop)
      else e
  }

  /** Each node takes its step of the list. */
  predicate Path(nodes: seq<Node>, list: SegList, hops: seq<Hop>)
  {
    |nodes| <= |hops| && forall i | 0 <= i < |nodes| :: Takes(nodes[i], list, hops[i])
  }

  lemma {:induction false} EnteringCarries(f: Ip6, list: SegList, nodes: seq<Node>, i: nat)
    requires Carries(f, list) && Path(nodes, list, Announced(list, Remaining(f, list.geo))) && i <= |nodes|
    ensures var hops := Announced(list, Remaining(f, list.geo));
      var g := Entering(f, list.geo, hops, nodes, i);
      && Carries(g, list) && Remaining(g, list.geo) == LeftBefore(list, Remaining(f, list.geo), i)
      && (i < |nodes| ==> Leads(g, list.geo, hops[i]))
  {
    var m := Remaining(f, list.geo);
    var hops := Announced(list, m);
    if i > 0 {
      EnteringCarries(f, list, nodes, i - 1);
      StepIs(list, m, i - 1);
      assert Takes(nodes[i - 1], list, hops[i - 1]);
      TakenCarries(Entering(f, list.geo, hops, nodes, i - 1), list, hops[i - 1], nodes[i - 1].l2, nodes[i - 1].hop);
    }
    if i < |nodes| {
      StepIs(list, m, i);
      assert Takes(nodes[i], list, hops[i]);
      TakenCarries(Entering(f, list.geo, hops, nodes, i), list, hops[i], nodes[i].l2, nodes[i].hop);
    }
  }

  lemma VisitEntering(f: Ip6, list: SegList, nodes: seq<Node>, hops: seq<Hop>, i: nat, next: nat)
    requires Carries(f, list) && hops == Announced(list, Remaining(f, list.geo)) && Path(nodes, list, hops)
    requires i < |nodes| && next == i + 1
    ensures Visit(Entering(f, list.geo, hops, nodes, i), nodes[i]) ==
      SentOn(nodes[i], list, hops[i], Entering(f, list.geo, hops, nodes, next))
  {
    EnteringCarries(f, list, nodes, i);
    StepIs(list, Remaining(f, list.geo), i);
    assert Takes(nodes[i], list, hops[i]);
    VisitTakes(Entering(f, list.geo, hops, nodes, i), nodes[i], list, hops[i],
      Entering(f, list.geo, hops, nodes, next));
  }

  /** No node before the last pops. */
  predicate NoEarlyPop(nodes: seq<Node>, list: SegList, hops: seq<Hop>)
    requires |nodes| <= |hops|
  {
    forall i | 0 <= i < |nodes| - 1 :: !(nodes[i].sid.psp && Pops(list, hops[i]))
  }

  /** Which is to say: none with the flavor loads a full SID from entry 0 that goes on indexing that entry. */
  lemma EarlyPops(list: SegList, m: nat, nodes: seq<Node>)
    requires list.Ok() && m <= list.Size() && |nodes| <= |Announced(list, m)|
    ensures var hops := Announced(list, m);
      NoEarlyPop(nodes, list, hops) <==>
        forall i | 0 <= i < |nodes| - 1 :: !(nodes[i].sid.psp && hops[i].Full? && list.geo.EntryOf(hops[i].left) == 0)
  {
    forall i | 0 <= i < |nodes| - 1 ensures
      Pops(list, Announced(list, m)[i]) <==>
        Announced(list, m)[i].Full? && list.geo.EntryOf(Announced(list, m)[i].left) == 0
    {
      PopsAtEnd(list, m, i);
    }
  }

  lemma LastSidLeavesNone(list: SegList, m: nat, h: Hop)
    requires list.Ok() && m <= list.Size() && NextHop(list, m) == Some(h)
    requires list.entries != [] && list.geo.Low(list.entries[0][15]) == 0
    ensures h.Full? && list.geo.EntryOf(h.left) == 0 ==> h.left == 0
  {
    if h.Full? {
      EntryBelow(list, m);
      FullBelow(list, m, list.geo.Low(h.sid[15]));
    }
  }

  /** So a list whose entry 0 carries no index, as a last full SID does not, is never popped early. */
  lemma LastSidEnds(list: SegList, m: nat, nodes: seq<Node>)
    requires list.Ok() && m <= list.Size() && |nodes| <= |Announced(list, m)|
    requires list.entries != [] && list.geo.Low(list.entries[0][15]) == 0
    ensures NoEarlyPop(nodes, list, Announced(list, m))
  {
    var hops := Announced(list, m);
    EarlyPops(list, m, nodes);
    forall i | 0 <= i < |nodes| - 1 ensures !(hops[i].Full? && list.geo.EntryOf(hops[i].left) == 0) {
      StepIs(list, m, i);
      AnnouncedTail(list, m, i);
      assert |Announced(list, hops[i].left)| == |hops| - i - 1 > 0;
      LastSidLeavesNone(list, LeftBefore(list, m, i), hops[i]);
    }
  }

  lemma VisitMiddle(f: Ip6, list: SegList, nodes: seq<Node>, hops: seq<Hop>, i: nat)
    requires Carries(f, list) && hops == Announced(list, Remaining(f, list.geo)) && Path(nodes, list, hops)
    requires i < |nodes| - 1 && NoEarlyPop(nodes, list, hops)
    ensures Visit(Entering(f, list.geo, hops, nodes, i), nodes[i]) == Some(Entering(f, list.geo, hops, nodes, i + 1))
  {
    VisitEntering(f, list, nodes, hops, i, i + 1);
  }

  lemma {:induction false} WalkPrefix(f: Ip6, list: SegList, nodes: seq<Node>, hops: seq<Hop>, i: nat)
    requires Carries(f, list) && hops == Announced(list, Remaining(f, list.geo)) && Path(nodes, list, hops)
    requires i < |nodes| && NoEarlyPop(nodes, list, hops)
    ensures Walk(Visit, f, nodes[..i]) == Some(Entering(f, list.geo, hops, nodes, i))
  {
    if i > 0 {
      WalkPrefix(f, list, nodes, hops, i - 1);
      assert nodes[..i][..i - 1] == nodes[..i - 1];
      VisitMiddle(f, list, nodes, hops, i - 1);
    }
  }

  /** What the last node of a path sends on. */
  function PathEnd(f: Ip6, list: SegList, nodes: seq<Node>, hops: seq<Hop>): Option<Ip6>
    requires f.Ok() && 1 <= |nodes| <= |hops|
  {
    var n := |nodes|;
    SentOn(nodes[n - 1], list, hops[n - 1], Entering(f, list.geo, hops, nodes, n))
  }

  /** The walk. The endpoints on a path see exactly the destinations the list announces, in order: C-SIDs
      down a container, the full SID below a zero position, the next container below position 0. The pop comes
      with the last of them; `PopsAtEnd` says when it could come before. */
  lemma ContainersReadInOrder(f: Ip6, list: SegList, nodes: seq<Node>, hops: seq<Hop>)
    requires Carries(f, list) && hops == Announced(list, Remaining(f, list.geo)) && Path(nodes, list, hops)
    requires nodes != [] && NoEarlyPop(nodes, list, hops)
    ensures Walk(Visit, f, nodes) == PathEnd(f, list, nodes, hops)
  {
    WalkPrefix(f, list, nodes, hops, |nodes| - 1);
    VisitEntering(f, list, nodes, hops, |nodes| - 1, |nodes|);
  }

  /** Nothing has changed but the destination, Segments Left, the Ethernet header and the hop limit. */
  predicate OnlyMoved(f: Ip6, g: Ip6)
  {
    && g.Ok() && |f.payload| >= 4 && |g.payload| >= 4
    && g == f.(l2 := g.l2, hop := g.hop, dst := g.dst, payload := f.payload[3 := Sl(g)])
  }

  /** The destination shows the step: the compressed SID in the block's place and its position in the index,
      every other bit as before, or the full SID. */
  predicate Shows(e: Ip6, g: Ip6, geo: Geometry, h: Hop)
  {
    && e.Ok() && g.Ok() && geo.Ok()
    && match h
       case Full(sid, _) => g.dst == sid
       case Short(csid, left) =>
         && geo.Block() + geo.Width() <= 15 && g.dst[geo.Block()..geo.Block() + geo.Width()] == csid
         && geo.Low(g.dst[15]) == geo.PosOf(left)
         && g.dst[15] - geo.Low(g.dst[15]) == e.dst[15] - geo.Low(e.dst[15])
         && forall k | 0 <= k < 15 && !(geo.Block() <= k < geo.Block() + geo.Width()) :: g.dst[k] == e.dst[k]
  }

  lemma TakenShows(f: Ip6, geo: Geometry, h: Hop, l2: Bytes, hop: Byte)
    requires Leads(f, geo, h) && |l2| == 14
    ensures var g := Transit(Taken(f, geo, h), l2, hop);
      Shows(f, g, geo, h) && OnlyMoved(f, g)
  {
    if h.Short? {
      RewriteBits(f.dst, geo, h.csid, geo.PosOf(h.left));
    }
  }

  lemma MovedOn(f: Ip6, e: Ip6, g: Ip6)
    requires OnlyMoved(f, e) && OnlyMoved(e, g)
    ensures OnlyMoved(f, g)
  {
  }

  /** Every packet on the path shows its step and is otherwise the packet sent. */
  lemma {:induction false} EnteringShows(f: Ip6, list: SegList, nodes: seq<Node>, hops: seq<Hop>, i: nat)
    requires Carries(f, list) && hops == Announced(list, Remaining(f, list.geo)) && Path(nodes, list, hops)
    requires i <= |nodes|
    ensures var g := Entering(f, list.geo, hops, nodes, i);
      && OnlyMoved(f, g)
      && (i > 0 ==> Shows(Entering(f, list.geo, hops, nodes, i - 1), g, list.geo, hops[i - 1]))
  {
    if i == 0 {
      assert f.payload[3 := Sl(f)] == f.payload;
    } else {
      var e := Entering(f, list.geo, hops, nodes, i - 1);
      EnteringCarries(f, list, nodes, i - 1);
      EnteringShows(f, list, nodes, hops, i - 1);
      assert Takes(nodes[i - 1], list, hops[i - 1]);
      TakenShows(e, list.geo, hops[i - 1], nodes[i - 1].l2, nodes[i - 1].hop);
      MovedOn(f, e, Entering(f, list.geo, hops, nodes, i));
    }
  }

  /** After the last announced step the next pass finds the ultimate segment, and not before. */
  lemma WalkEnds(f: Ip6, list: SegList, nodes: seq<Node>, sid: RepSid)
    requires Carries(f, list) && Path(nodes, list, Announced(list, Remaining(f, list.geo))) && sid.geo == list.geo
    requires |nodes| == |Announced(list, Remaining(f, list.geo))|
    ensures var g := Entering(f, list.geo, Announced(list, Remaining(f, list.geo)), nodes, |nodes|);
      g.Ok() && |g.payload| >= 2 && ReplaceOnce(g, sid) == Act(Ultimate(g, sid))
  {
    var m := Remaining(f, list.geo);
    EnteringCarries(f, list, nodes, |nodes|);
    if nodes != [] {
      AnnouncedTail(list, m, |nodes| - 1);
    }
    UltimateLast(Entering(f, list.geo, Announced(list, m), nodes, |nodes|), list, sid);
  }
}
