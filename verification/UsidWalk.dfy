/** The whole micro-SID walk: carrier after carrier of a segment list, through nodes that shift, nodes that also
    use up an adjacency micro-SID of their own, and the End fallback in between. */
module UsidWalk {
  import opened Packet
  import opened Wrappers
  import opened Srv6
  import opened NodeWalk
  import opened Usid
  import Srv6Laws

  // ---- a segment list of carriers ----

  /** A segment: micro-SIDs behind a block, or a plain destination such as the one a repair restores. */
  datatype Segment = Pack(block: Bytes, us: seq<Bytes>) | Plain(dst: Bytes)
  {
    predicate Ok()
    {
      match this
      case Pack(block, us) => Micros(us) && us != [] && |block| in {2, 4, 6} && |block| + 2 * |us| <= 16
      case Plain(dst) => |dst| == 16
    }

    function Dst(): (d: Bytes)
      requires Ok()
      ensures |d| == 16
    {
      match this
      case Pack(block, us) => Carrier(block, us)
      case Plain(dst) => dst
    }
  }

  /** Where a packet is: the segment its destination holds, the segments its SRH has left, next first, and
      whether it has no SRH, or none any more. */
  datatype State = State(now: Segment, left: seq<Segment>, bare: bool)
  {
    predicate Ok()
    {
      now.Ok() && (bare ==> left == []) && |left| <= MAX_SEGS && forall i | 0 <= i < |left| :: left[i].Ok()
    }
  }

  /** Entry `i` from the next of the segments left. */
  predicate EntryIs(f: Ip6, left: seq<Segment>, i: nat)
  {
    i < |left| && left[i].Ok() && Entry(f.payload, |left| - 1 - i) == Some(left[i].Dst())
  }

  /** The packet's SRH has these segments left. */
  ghost predicate Lists(f: Ip6, left: seq<Segment>)
  {
    && f.nh == PROTO_ROUTING && |f.payload| >= 8 && f.payload[3] == |left|
    && forall i | 0 <= i < |left| :: EntryIs(f, left, i)
  }

  ghost predicate Holds(f: Ip6, s: State)
  {
    f.Ok() && s.Ok() && f.dst == s.now.Dst() && (s.bare || Lists(f, s.left))
  }

  // ---- a node ----

  /** An endpoint entered by its uN or, with `adj`, by its uA, and the way its neighbour on the path lies. */
  datatype Node = Node(u: MicroSid, adj: bool, own: Bytes -> Option<MicroSid>, way: Verdict, l2: Bytes, hop: Byte)

  function Serve(f: Ip6, node: Node): Result
    requires f.Ok()
  {
    if node.adj then UaStep(f, node.u) else UnStep(f, node.u, node.own)
  }

  /** The packet the node sends that way. */
  function SentOn(r: Result, way: Verdict, l2: Bytes, hop: Byte): Option<Ip6>
    requires |l2| == 14
  {
    match r
    case Kept(v, g) => if v == way && g.Ok() then Some(Transit(g, l2, hop)) else None
    case _ => None
  }

  function Visit(f: Ip6, node: Node): Option<Ip6>
  {
    if !f.Ok() || |node.l2| != 14 then None else SentOn(Serve(f, node), node.way, node.l2, node.hop)
  }

  /** Behind its uN the carrier holds an adjacency micro-SID of the same node. */
  predicate Both(node: Node, s: Segment)
    requires s.Ok()
  {
    s.Pack? && !node.adj && |s.us| > 1 && ServesAdjacency(node.own, Carrier(s.block, s.us[1..]))
  }

  /** Micro-SIDs the node uses up. */
  function Used(node: Node, s: Segment): nat
    requires s.Ok()
  {
    if Both(node, s) then 2 else 1
  }

  /** The SID that acts as End when the carrier is at its end. */
  function Acting(node: Node, s: Segment): LocalSid
    requires s.Ok()
  {
    if Both(node, s) then node.own(Carrier(s.block, s.us[1..])).value.sid.(behavior := UA)
    else if node.adj then node.u.sid.(behavior := UA)
    else node.u.sid
  }

  /** Where the node sends the packet: an adjacency micro-SID out its adjacency, the uN by the destination's
      route, and at the end of a carrier as its behavior says. */
  function Way(node: Node, s: Segment): Verdict
    requires s.Ok()
  {
    if Both(node, s) then Via(node.own(Carrier(s.block, s.us[1..])).value.sid.nexthop)
    else if node.adj then Via(node.u.sid.nexthop)
    else if s.Pack? && |s.us| > 1 then Pass
    else Srv6Laws.Way(node.u.sid)
  }

  predicate ShiftsBlock(u: MicroSid, s: Segment)
  {
    s.Pack? && u.nodeBits == 16 && u.blockBits == 8 * |s.block|
  }

  /** The node's SIDs are of the carrier's block length. */
  predicate Fits(node: Node, s: Segment)
  {
    && s.Ok() && |node.l2| == 14 && ShiftsBlock(node.u, s) && node.way == Way(node, s)
    && (Both(node, s) ==> ShiftsBlock(node.own(Carrier(s.block, s.us[1..])).value, s))
  }

  /** The state a visit leads to. `None` when it is the last: End's ultimate segment. */
  function Next(node: Node, s: State): (n: Option<State>)
    requires s.Ok() && Fits(node, s.now)
    ensures n.Some? ==> n.value.Ok()
  {
    var used := Used(node, s.now);
    if used < |s.now.us| then Some(s.(now := Pack(s.now.block, s.now.us[used..])))
    else if s.left == [] then None
    else Some(State(s.left[0], s.left[1..], |s.left| == 1 && Acting(node, s.now).psp))
  }

  // ---- one visit ----

  /** Inside a carrier. */
  lemma ServeInside(f: Ip6, s: State, node: Node)
    requires Holds(f, s) && Fits(node, s.now) && Used(node, s.now) < |s.now.us|
    ensures Serve(f, node).Kept? && Serve(f, node).verdict == Way(node, s.now)
    ensures Serve(f, node).packet == f.(dst := Carrier(s.now.block, s.now.us[Used(node, s.now)..]))
  {
    var block, us := s.now.block, s.now.us;
    if Both(node, s.now) {
      UnThenUa(f, block, us, node.u, node.own(Carrier(block, us[1..])).value, node.own);
    } else {
      CarrierMoves(block, us, node.u);
      OneMove(f, node.u, node.own, Carrier(block, us[1..]));
    }
  }

  /** At the end of one: the node's last micro-SID acts as End on the packet that shows it. */
  lemma ServeEnds(f: Ip6, s: State, node: Node)
    requires Holds(f, s) && Fits(node, s.now) && Used(node, s.now) == |s.now.us|
    ensures var g := f.(dst := Carrier(s.now.block, s.now.us[|s.now.us| - 1..]));
      Serve(f, node) == EndStep(g, Acting(node, s.now))
  {
    var block, us := s.now.block, s.now.us;
    if Both(node, s.now) {
      UnThenUa(f, block, us, node.u, node.own(Carrier(block, us[1..])).value, node.own);
    } else {
      assert us[0..] == us;
      ExhaustedCarrier(block, us, node.u);
    }
  }

  /** The packet a state shows: its segment in the destination, its Segments Left, and the SRH gone once popped.
      `None` when the pop is refused. `from` is the state that `f` itself is in. */
  function Shown(f: Ip6, from: State, to: State, l2: Bytes, hop: Byte): (g: Option<Ip6>)
    requires f.Ok() && to.Ok() && |l2| == 14 && (from.bare || |f.payload| >= 4)
    ensures g.Some? ==> g.value.Ok()
  {
    var payload := if from.bare then f.payload else f.payload[3 := |to.left|];
    var g := f.(l2 := l2, hop := hop, dst := to.now.Dst(), payload := payload);
    if to.bare && !from.bare then PopSrh(g) else Some(g)
  }

  lemma EntryAside(f: Ip6, g: Ip6, left: seq<Segment>, x: Byte)
    requires Lists(f, left) && left != [] && g.nh == f.nh && g.payload == f.payload[3 := x] && x == |left| - 1
    ensures Lists(g, left[1..])
  {
    forall i | 0 <= i < |left| - 1 ensures EntryIs(g, left[1..], i) {
      assert EntryIs(f, left, i + 1);
      var off := 8 + 16 * (|left| - 2 - i);
      assert g.payload[off..off + 16] == f.payload[off..off + 16];
    }
  }

  /** One visit: what is sent shows the next state, and holds it. */
  lemma VisitShows(f: Ip6, s: State, node: Node)
    requires Holds(f, s) && Fits(node, s.now) && Next(node, s).Some?
    ensures s.bare || |f.payload| >= 4
    ensures var n := Next(node, s).value;
      && Visit(f, node) == Shown(f, s, n, node.l2, node.hop)
      && (Visit(f, node).Some? ==> Holds(Visit(f, node).value, n))
  {
    var n := Next(node, s).value;
    if Used(node, s.now) < |s.now.us| {
      ServeInside(f, s, node);
      if !s.bare {
        assert f.payload[3 := |s.left|] == f.payload;
        SameLists(f, Transit(f.(dst := n.now.Dst()), node.l2, node.hop), s.left);
      }
    } else {
      EndServes(f, s, node);
      EndShows(f, s, n, Serve(f, node), node.way, node.l2, node.hop);
    }
  }

  lemma SameLists(f: Ip6, g: Ip6, left: seq<Segment>)
    requires Lists(f, left) && g.nh == f.nh && g.payload == f.payload
    ensures Lists(g, left)
  {
    forall i | 0 <= i < |left| ensures EntryIs(g, left, i) {
      assert EntryIs(f, left, i);
    }
  }

  /** The packet with the next segment active, before any pop. */
  function Taken(f: Ip6, n: State): (g: Ip6)
    requires f.Ok() && n.Ok() && |f.payload| >= 4
    ensures g.Ok()
  {
    f.(dst := n.now.Dst(), payload := f.payload[3 := |n.left|])
  }

  predicate Serves(f: Ip6, n: State, r: Result, way: Verdict)
    requires f.Ok() && n.Ok() && |f.payload| >= 4
  {
    match if n.bare then PopSrh(Taken(f, n)) else Some(Taken(f, n))
    case None => r == Failed
    case Some(p) => r == Kept(way, p)
  }

  /** The End fallback takes the next segment of the list. */
  lemma EndGoesOn(f: Ip6, left: seq<Segment>, n: State, sid: LocalSid)
    requires f.Ok() && Lists(f, left) && 0 < |left| <= MAX_SEGS
    requires n.Ok() && n == State(left[0], left[1..], |left| == 1 && sid.psp)
    ensures Serves(f, n, EndStep(f, sid), Srv6Laws.Way(sid))
  {
    assert EntryIs(f, left, 0);
  }

  /** Whatever is left of the carrier in the destination. */
  lemma EndFrom(f: Ip6, dst: Bytes, left: seq<Segment>, n: State, sid: LocalSid)
    requires f.Ok() && |dst| == 16 && Lists(f, left) && 0 < |left| <= MAX_SEGS
    requires n.Ok() && n == State(left[0], left[1..], |left| == 1 && sid.psp)
    ensures Serves(f, n, EndStep(f.(dst := dst), sid), Srv6Laws.Way(sid))
  {
    var g := f.(dst := dst);
    SameLists(f, g, left);
    EndGoesOn(g, left, n, sid);
    SameTaken(f, g, n, EndStep(g, sid), Srv6Laws.Way(sid));
  }

  lemma WayAtEnd(node: Node, s: Segment)
    requires Fits(node, s) && Used(node, s) == |s.us|
    ensures node.way == Srv6Laws.Way(Acting(node, s))
  {
  }

  lemma EndServes(f: Ip6, s: State, node: Node)
    requires Holds(f, s) && Fits(node, s.now) && Used(node, s.now) == |s.now.us| && s.left != []
    ensures |f.payload| >= 4 && Serves(f, Next(node, s).value, Serve(f, node), node.way)
  {
    ServeEnds(f, s, node);
    WayAtEnd(node, s.now);
    EndFrom(f, Carrier(s.now.block, s.now.us[|s.now.us| - 1..]), s.left, Next(node, s).value, Acting(node, s.now));
  }

  lemma SameTaken(f: Ip6, g: Ip6, n: State, r: Result, way: Verdict)
    requires f.Ok() && g.Ok() && n.Ok() && |f.payload| >= 4 && g == f.(dst := g.dst)
    ensures Serves(g, n, r, way) == Serves(f, n, r, way)
  {
  }

  lemma EndShows(f: Ip6, s: State, n: State, r: Result, way: Verdict, l2: Bytes, hop: Byte)
    requires Holds(f, s) && !s.bare && s.left != [] && n.Ok() && n.now == s.left[0] && n.left == s.left[1..]
    requires |l2| == 14 && Serves(f, n, r, way)
    ensures SentOn(r, way, l2, hop) == Shown(f, s, n, l2, hop)
    ensures SentOn(r, way, l2, hop).Some? ==> Holds(SentOn(r, way, l2, hop).value, n)
  {
    if !n.bare {
      EntryAside(f, Transit(Taken(f, n), l2, hop), s.left, |n.left|);
    }
  }

  // ---- the walk ----

  /** The state after these nodes. `None` when a node does not fit or the list ends before them. */
  ghost function Trail(s: State, nodes: seq<Node>): (t: Option<State>)
    requires s.Ok()
    ensures t.Some? ==> t.value.Ok()
    decreases |nodes|
  {
    if |nodes| == 0 then Some(s)
    else
      var n := |nodes| - 1;
      var t := Trail(s, nodes[..n]);
      if t.None? || !Fits(nodes[n], t.value.now) then None else Next(nodes[n], t.value)
  }

  /** What the nodes make of a packet: nothing but its destination, its Segments Left, the Ethernet header and
      the hop limit change until the pop. */
  ghost function PathEnd(f: Ip6, s: State, nodes: seq<Node>): Option<Ip6>
    requires Holds(f, s) && Trail(s, nodes).Some? && |nodes| > 0
  {
    var end := nodes[|nodes| - 1];
    if |end.l2| == 14 then Shown(f, s, Trail(s, nodes).value, end.l2, end.hop) else None
  }

  /** Showing a state and then a later one is showing the later one. */
  lemma ShownThen(f: Ip6, from: State, via: State, to: State, node: Node, last: Node)
    requires f.Ok() && via.Ok() && to.Ok() && |node.l2| == 14 && |last.l2| == 14 && (from.bare || |f.payload| >= 4)
    requires (from.bare ==> via.bare) && (via.bare ==> to.bare) && (via.bare ==> via.left == [] && to.left == [])
    requires Shown(f, from, via, node.l2, node.hop).Some?
    requires via.bare || |Shown(f, from, via, node.l2, node.hop).value.payload| >= 4
    ensures Shown(Shown(f, from, via, node.l2, node.hop).value, via, to, last.l2, last.hop) ==
      Shown(f, from, to, last.l2, last.hop)
  {
    if !via.bare {
      assert f.payload[3 := |via.left|][3 := |to.left|] == f.payload[3 := |to.left|];
    }
  }

  /** A refused pop stays refused: no state beyond it is shown. */
  lemma NothingThen(f: Ip6, from: State, via: State, to: State, node: Node, last: Node)
    requires f.Ok() && via.Ok() && to.Ok() && |node.l2| == 14 && |last.l2| == 14 && (from.bare || |f.payload| >= 4)
    requires via.bare && to.bare && via.left == [] && to.left == []
    requires Shown(f, from, via, node.l2, node.hop) == None
    ensures Shown(f, from, to, last.l2, last.hop) == None
  {
  }

  lemma NextBare(node: Node, s: State)
    requires s.Ok() && Fits(node, s.now) && Next(node, s).Some?
    ensures s.bare ==> Next(node, s).value.bare
  {
  }

  lemma {:induction false} TrailBare(s: State, nodes: seq<Node>)
    requires s.Ok() && Trail(s, nodes).Some?
    ensures s.bare ==> Trail(s, nodes).value.bare
    decreases |nodes|
  {
    if |nodes| > 0 {
      TrailBare(s, nodes[..|nodes| - 1]);
    }
  }

  /** The walk: carrier after carrier, whichever micro-SIDs a node takes and wherever End comes in between, the
      packet is the one that shows the state its nodes have led to, and it holds that state. */
  lemma {:induction false} CarriersWalk(f: Ip6, s: State, nodes: seq<Node>)
    requires Holds(f, s) && Trail(s, nodes).Some? && |nodes| > 0
    ensures Walk(Visit, f, nodes) == PathEnd(f, s, nodes)
    ensures Walk(Visit, f, nodes).Some? ==> Holds(Walk(Visit, f, nodes).value, Trail(s, nodes).value)
    decreases |nodes|
  {
    var n := |nodes| - 1;
    var before, last := nodes[..n], nodes[n];
    var t := Trail(s, before).value;
    NextBare(last, t);
    if n == 0 {
      assert Walk(Visit, f, before) == Some(f);
      VisitShows(f, s, last);
    } else {
      CarriersWalk(f, s, before);
      TrailBare(s, before);
      WalkOn(f, s, before, last, t, Next(last, t).value);
    }
  }

  lemma WalkOn(f: Ip6, s: State, before: seq<Node>, last: Node, t: State, n: State)
    requires Holds(f, s) && |before| > 0 && Trail(s, before) == Some(t) && Fits(last, t.now) && Next(last, t) == Some(n)
    requires Walk(Visit, f, before) == PathEnd(f, s, before) && (s.bare ==> t.bare) && (t.bare ==> n.bare)
    requires Walk(Visit, f, before).Some? ==> Holds(Walk(Visit, f, before).value, t)
    ensures var sent := match Walk(Visit, f, before) case None => None case Some(g) => Visit(g, last);
      sent == Shown(f, s, n, last.l2, last.hop) && (sent.Some? ==> Holds(sent.value, n))
  {
    var end := before[|before| - 1];
    assert |end.l2| == 14;
    match Walk(Visit, f, before)
    case None => NothingThen(f, s, t, n, end, last);
    case Some(g) =>
      VisitShows(g, t, last);
      ShownThen(f, s, t, n, end, last);
  }

  // ---- nothing skipped ----

  function MicrosOf(s: Segment): seq<Bytes> { if s.Pack? then s.us else [] }

  function MicrosIn(left: seq<Segment>): seq<Bytes>
  {
    if left == [] then [] else MicrosOf(left[0]) + MicrosIn(left[1..])
  }

  /** All the micro-SIDs a packet has before it. */
  function Ahead(s: State): seq<Bytes> { MicrosOf(s.now) + MicrosIn(s.left) }

  /** How many of them the nodes use up. */
  ghost function UsedBy(s: State, nodes: seq<Node>): nat
    requires s.Ok()
    decreases |nodes|
  {
    if |nodes| == 0 then 0
    else
      var n := |nodes| - 1;
      var t := Trail(s, nodes[..n]);
      UsedBy(s, nodes[..n]) + if t.None? then 0 else Used(nodes[n], t.value.now)
  }

  lemma NextAhead(node: Node, s: State)
    requires s.Ok() && Fits(node, s.now) && Next(node, s).Some?
    ensures Used(node, s.now) <= |Ahead(s)| && Ahead(Next(node, s).value) == Ahead(s)[Used(node, s.now)..]
  {
    var used := Used(node, s.now);
    assert used <= |s.now.us|;
    assert (s.now.us + MicrosIn(s.left))[used..] == s.now.us[used..] + MicrosIn(s.left);
  }

  /** The last node's part of it. */
  lemma LastAhead(s: State, nodes: seq<Node>, before: seq<Node>) returns (used: nat)
    requires s.Ok() && Trail(s, nodes).Some? && |nodes| > 0 && before == nodes[..|nodes| - 1]
    ensures Trail(s, before).Some? && 1 <= used <= |Ahead(Trail(s, before).value)|
    ensures UsedBy(s, nodes) == UsedBy(s, before) + used
    ensures Ahead(Trail(s, nodes).value) == Ahead(Trail(s, before).value)[used..]
  {
    var t := Trail(s, before).value;
    used := Used(nodes[|nodes| - 1], t.now);
    NextAhead(nodes[|nodes| - 1], t);
  }

  /** What `used` micro-SIDs leave of those ahead. */
  predicate Left(ahead: seq<Bytes>, used: nat, left: seq<Bytes>, nodes: nat)
  {
    nodes <= used <= |ahead| && left == ahead[used..]
  }

  lemma LeftThen(ahead: seq<Bytes>, a: nat, mid: seq<Bytes>, b: nat, left: seq<Bytes>, n: nat)
    requires Left(ahead, a, mid, n) && 1 <= b <= |mid| && left == mid[b..]
    ensures Left(ahead, a + b, left, n + 1)
  {
  }

  /** The micro-SIDs of all carriers are used up in order, each node's own one or two and no other. */
  lemma {:induction false} UsedInOrder(s: State, nodes: seq<Node>)
    requires s.Ok() && Trail(s, nodes).Some?
    ensures Left(Ahead(s), UsedBy(s, nodes), Ahead(Trail(s, nodes).value), |nodes|)
    decreases |nodes|
  {
    if |nodes| > 0 {
      var before := nodes[..|nodes| - 1];
      var used := LastAhead(s, nodes, before);
      UsedInOrder(s, before);
      LeftThen(Ahead(s), UsedBy(s, before), Ahead(Trail(s, before).value), used, Ahead(Trail(s, nodes).value),
        |before|);
    }
  }

  /** The last node of the list acts as End at the ultimate segment, on its last micro-SID. */
  lemma LastActs(f: Ip6, s: State, nodes: seq<Node>, last: Node)
    requires Holds(f, s) && Trail(s, nodes).Some? && |nodes| > 0 && Walk(Visit, f, nodes).Some?
    requires var t := Trail(s, nodes).value; Fits(last, t.now) && Next(last, t) == None
    ensures var g, t := Walk(Visit, f, nodes).value, Trail(s, nodes).value;
      && g.Ok() && t.now.Ok() && (t.bare || (|g.payload| >= 4 && g.payload[3] == 0))
      && Serve(g, last) ==
        EndStep(g.(dst := Carrier(t.now.block, t.now.us[|t.now.us| - 1..])), Acting(last, t.now))
  {
    CarriersWalk(f, s, nodes);
    ServeEnds(Walk(Visit, f, nodes).value, Trail(s, nodes).value, last);
  }

  /** A repair of one carrier, a node's uN and its own uA: that node alone restores the original destination
      and takes the SRH off if its uA says so. */
  lemma Repair(f: Ip6, now: Segment, original: Bytes, node: Node)
    requires Holds(f, State(now, [Plain(original)], false)) && |original| == 16
    requires Fits(node, now) && Both(node, now) && |now.us| == 2
    ensures var g := f.(l2 := node.l2, hop := node.hop, dst := original, payload := f.payload[3 := 0]);
      Visit(f, node) == if Acting(node, now).psp then PopSrh(g) else Some(g)
  {
    var s := State(now, [Plain(original)], false);
    assert s.left[1..] == [];
    VisitShows(f, s, node);
  }
}
