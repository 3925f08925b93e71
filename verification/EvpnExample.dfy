/** Two PEs with a customer on both and a leaf on each: a network that meets every assumption of the delivery
    theorem. */
module EvpnExample {
  import opened Packet
  import opened Wrappers
  import opened EsBits
  import opened Flood
  import opened Mpls
  import opened EvpnNet
  import opened EvpnDelivery

  const SEGMENT := 7
  const SHARED: Port := 1
  const OWN: Port := 2
  const PLAIN_SLOT: Port := 10
  const SEGMENT_SLOT: Port := 11
  const LEAF_SLOT: Port := 12

  function Direct(): Transport
  {
    Transport(NextHop([], 1, Some([2, 0, 0, 0, 0, 1, 2, 0, 0, 0, 0, 2])), [])
  }

  /** Port 1 is on the shared segment, port 2 a single-homed leaf; slot 10 is plain, slot 11 carries the peer's
      ESI label 100, slot 12 its leaf label 200. The segment's id here is `id`. */
  function Pe(peer: nat, id: nat, forwards: bool): Site
  {
    Site(
      Bridge.Bridge(
        5, map[0 := SHARED, 1 := OWN, 2 := PLAIN_SLOT, 3 := SEGMENT_SLOT, 4 := LEAF_SLOT], map[SHARED := id],
        if forwards then {} else {SHARED}, {}, {OWN}, Rows(id), Targets(peer)),
      Tables(map[16 := MplsEntry(PopL2, 0, 5, false)], map[], map[100 := id], {200}), 5, map[],
      map[PLAIN_SLOT := Direct(), SEGMENT_SLOT := Direct(), LEAF_SLOT := Direct()],
      {SHARED, OWN}, map[SHARED := SEGMENT], map[SEGMENT := id], Roles(), 99, true)
  }

  function Rows(id: nat): map<Port, SlotEs>
  {
    map[PLAIN_SLOT := SlotEs(0, false, true, {id}), SEGMENT_SLOT := SlotEs(id + 1, false, true, {}),
        LEAF_SLOT := SlotEs(0, true, false, {})]
  }

  function Targets(peer: nat): map<Port, Target>
  {
    map[PLAIN_SLOT := Target(peer, 16, 0), SEGMENT_SLOT := Target(peer, 16, 100), LEAF_SLOT := Target(peer, 16, 200)]
  }

  function Roles(): map<Port, Role>
  {
    map[PLAIN_SLOT := Plain, SEGMENT_SLOT := ForSegment(SEGMENT), LEAF_SLOT := ForLeaves]
  }

  function Two(): Net
  {
    [Pe(1, 3, true), Pe(0, 4, false)]
  }

  lemma MembersAre(m: map<nat, Port>)
    requires m == map[0 := SHARED, 1 := OWN, 2 := PLAIN_SLOT, 3 := SEGMENT_SLOT, 4 := LEAF_SLOT]
    ensures m.Values == {SHARED, OWN, PLAIN_SLOT, SEGMENT_SLOT, LEAF_SLOT}
    ensures forall i, j | i in m && j in m && i != j :: m[i] != m[j]
  {
    assert m[0] == SHARED && m[1] == OWN && m[2] == PLAIN_SLOT && m[3] == SEGMENT_SLOT && m[4] == LEAF_SLOT;
  }

  lemma MembersFine(peer: nat, id: nat, forwards: bool)
    ensures MembersOk(Pe(peer, id, forwards))
  {
    var s := Pe(peer, id, forwards);
    var m, all := s.bridge.members, {SHARED, OWN, PLAIN_SLOT, SEGMENT_SLOT, LEAF_SLOT};
    MembersAre(m);
    assert s.bridge.repl.Keys == {PLAIN_SLOT, SEGMENT_SLOT, LEAF_SLOT};
    assert s.acs + s.bridge.repl.Keys == all;
  }

  lemma SegmentsFine(peer: nat, id: nat, forwards: bool)
    requires id <= MAX_ES_ID
    ensures SegmentsOk(Pe(peer, id, forwards)) && LeavesOk(Pe(peer, id, forwards))
  {
    var s := Pe(peer, id, forwards);
    assert s.segOf.Keys == {SHARED} && s.idOf.Keys == {SEGMENT};
  }

  lemma TargetsFine(peer: nat, id: nat, forwards: bool)
    ensures var b := Pe(peer, id, forwards).bridge;
      b.slotEs.Keys == b.repl.Keys && forall p | p in b.repl :: b.repl[p].pe == peer
  {
    assert Rows(id).Keys == {PLAIN_SLOT, SEGMENT_SLOT, LEAF_SLOT} == Targets(peer).Keys;
  }

  /** What a peer must have given out. */
  predicate Peer(t: Site, id: nat)
  {
    && t.idOf == map[SEGMENT := id] && t.leafLabel && t.domain == 5
    && t.mpls == Tables(map[16 := MplsEntry(PopL2, 0, 5, false)], map[], map[100 := id], {200})
  }

  lemma SlotFine(peer: nat, id: nat, forwards: bool, t: Site, peerId: nat, p: Port)
    requires Peer(t, peerId) && Toward(Pe(peer, id, forwards), p, peer)
    ensures var s := Pe(peer, id, forwards);
      p in s.role && RoleOk(s, t, s.role[p]) && RowOk(s, t, p, s.role[p]) && Reaches(s, t, p)
  {
    var s := Pe(peer, id, forwards);
    assert p == PLAIN_SLOT || p == SEGMENT_SLOT || p == LEAF_SLOT;
    assert LabelOf(100) == 100 && LabelOf(200) == 200 && LabelOf(16) == 16 && LabelOf(0) == 0;
    assert s.bridge.slotEs == Rows(id) && s.bridge.repl == Targets(peer) && s.role == Roles();
  }

  lemma RolesFine(peer: nat, id: nat, forwards: bool)
    ensures var s := Pe(peer, id, forwards);
      && HasRole(s, PLAIN_SLOT, peer, Plain) && HasRole(s, SEGMENT_SLOT, peer, ForSegment(SEGMENT))
      && HasRole(s, LEAF_SLOT, peer, ForLeaves)
      && s.idOf == map[SEGMENT := id]
  {
    var s := Pe(peer, id, forwards);
    assert s.bridge.repl == Targets(peer) && s.role == Roles();
  }

  lemma SlotsFine(peer: nat, id: nat, forwards: bool, t: Site, peerId: nat)
    requires Peer(t, peerId)
    ensures SlotsOk(Pe(peer, id, forwards), t, peer)
  {
    var s := Pe(peer, id, forwards);
    RolesFine(peer, id, forwards);
    forall p | Toward(s, p, peer)
      ensures p in s.role && RoleOk(s, t, s.role[p]) && RowOk(s, t, p, s.role[p]) && Reaches(s, t, p)
    {
      SlotFine(peer, id, forwards, t, peerId, p);
    }
  }

  lemma SiteFine(net: Net, a: nat, peer: nat)
    requires |net| == 2 && a < 2 && peer == 1 - a && MembersOk(net[a]) && SegmentsOk(net[a]) && LeavesOk(net[a])
    requires net[a].bridge.slotEs.Keys == net[a].bridge.repl.Keys
    requires forall p | p in net[a].bridge.repl :: net[a].bridge.repl[p].pe == peer
    requires SlotsOk(net[a], net[peer], peer)
    ensures SiteOk(net, a)
  {
  }

  predicate Shape(net: Net)
  {
    && |net| == 2 && net[0].segOf == map[SHARED := SEGMENT] && net[1].segOf == map[SHARED := SEGMENT]
    && net[0].bridge.nonDf == {} && net[1].bridge.nonDf == {SHARED}
    && net[0].bridge.leaves == {OWN} && net[1].bridge.leaves == {OWN}
  }

  lemma OnlyShared(net: Net, a: nat, p: Port, seg: nat)
    requires Shape(net)
    ensures On(net, a, p, seg) <==> a < 2 && p == SHARED && seg == SEGMENT
    ensures Forwards(net, a, p, seg) <==> a == 0 && p == SHARED && seg == SEGMENT
    ensures a < 2 ==> SHARED !in net[a].bridge.leaves
  {
  }

  lemma NetFine(net: Net)
    requires Shape(net) && SiteOk(net, 0) && SiteOk(net, 1)
    ensures NetOk(net)
  {
    forall a: nat, p, seg | On(net, a, p, seg)
      ensures (exists b: nat, q :: Forwards(net, b, q, seg)) && p !in net[a].bridge.leaves
    {
      OnlyShared(net, a, p, seg);
      OnlyShared(net, 0, SHARED, SEGMENT);
    }
    forall a: nat, p, b: nat, q, seg | Forwards(net, a, p, seg) && Forwards(net, b, q, seg) ensures a == b && p == q {
      OnlyShared(net, a, p, seg);
      OnlyShared(net, b, q, seg);
    }
  }

  lemma TwoShape()
    ensures Shape(Two()) && Two()[0] == Pe(1, 3, true) && Two()[1] == Pe(0, 4, false)
  {
  }

  lemma PeIsPeer(peer: nat, id: nat, forwards: bool)
    ensures Peer(Pe(peer, id, forwards), id)
  {
  }

  lemma TwoIsOk()
    ensures NetOk(Two())
  {
    TwoShape();
    PeIsPeer(1, 3, true);
    PeIsPeer(0, 4, false);
    PeFine(Two(), 0, 1, 3, true, 4);
    PeFine(Two(), 1, 0, 4, false, 3);
    NetFine(Two());
  }

  lemma PeFine(net: Net, a: nat, peer: nat, id: nat, forwards: bool, peerId: nat)
    requires |net| == 2 && a < 2 && peer == 1 - a && net[a] == Pe(peer, id, forwards) && id <= MAX_ES_ID
    requires Peer(net[peer], peerId)
    ensures SiteOk(net, a)
  {
    MembersFine(peer, id, forwards);
    SegmentsFine(peer, id, forwards);
    TargetsFine(peer, id, forwards);
    SlotsFine(peer, id, forwards, net[peer], peerId);
    SiteFine(net, a, peer);
  }

  lemma PortFacts(a: nat)
    requires a < 2
    ensures var s := Two()[a];
      && s.acs == {SHARED, OWN} && s.bridge.blocked == {} && s.bridge.leaves == {OWN}
      && CeOf(Two(), a, SHARED) == OnSegment(SEGMENT) && CeOf(Two(), a, OWN) == Single(a, OWN)
  {
  }

  /** The shared customer's frame reaches both leaves and, through either PE, never itself. */
  lemma SharedCustomer(a: nat, frame: Bytes)
    requires a < 2 && Multicast(frame)
    ensures Times(Two(), Broadcast(Two(), a, SHARED, frame), OnSegment(SEGMENT)) == 0
    ensures Times(Two(), Broadcast(Two(), a, SHARED, frame), Single(0, OWN)) == 1
    ensures Times(Two(), Broadcast(Two(), a, SHARED, frame), Single(1, OWN)) == 1
  {
    TwoIsOk();
    PortFacts(0);
    PortFacts(1);
    BumDelivery(Two(), a, SHARED, frame, 0, SHARED);
    BumDelivery(Two(), a, SHARED, frame, 0, OWN);
    BumDelivery(Two(), a, SHARED, frame, 1, OWN);
  }

  /** A leaf's frame reaches the shared customer once, and neither leaf. */
  lemma LeafCustomer(a: nat, frame: Bytes)
    requires a < 2 && Multicast(frame)
    ensures Times(Two(), Broadcast(Two(), a, OWN, frame), OnSegment(SEGMENT)) == 1
    ensures Times(Two(), Broadcast(Two(), a, OWN, frame), Single(0, OWN)) == 0
    ensures Times(Two(), Broadcast(Two(), a, OWN, frame), Single(1, OWN)) == 0
  {
    TwoIsOk();
    PortFacts(0);
    PortFacts(1);
    BumDelivery(Two(), a, OWN, frame, 0, SHARED);
    BumDelivery(Two(), a, OWN, frame, 0, OWN);
    BumDelivery(Two(), a, OWN, frame, 1, OWN);
  }
}
