/** A segment list on which the REPLACE-C-SID penultimate pop comes before the end of the walk. */
module ReplaceEarlyPop {
  import opened Packet
  import opened Wrappers
  import opened Srv6
  import opened ReplaceCsid
  import opened ReplaceWalk
  import opened ReplaceList

  const GEO := Geometry(32, 32)

  /** A full SID whose last bits index its own position 1... */
  const LAST: Bytes := [0xfc, 0, 0, 1, 0, 0, 0, 0, 0, 0, 0, 0, 0, 0, 0, 1]

  /** ...below a container that a zero at position 1 ends. */
  const CONTAINER: Bytes := [0, 0, 0, 7, 0, 0, 0, 0, 0, 0, 0, 9, 0, 0, 0, 8]

  const LIST := SegList(GEO, [LAST, CONTAINER])

  const HOPS := [Full(LAST, 1), Short([0xfc, 0, 0, 1], 0)]

  lemma Steps()
    ensures LIST.Ok() && LIST.Size() == 8
    ensures NextHop(LIST, 6) == Some(HOPS[0]) && NextHop(LIST, 1) == Some(HOPS[1]) && NextHop(LIST, 0) == None
  {
    assert Slot(LIST, 5) == CONTAINER[4..8] == [0, 0, 0, 0];
    assert Slot(LIST, 0) == LAST[0..4] == [0xfc, 0, 0, 1];
    assert [0xfc, 0, 0, 1][0] != 0;
  }

  lemma TwoSteps()
    ensures LIST.Ok() && Announced(LIST, 6) == HOPS && Pops(LIST, HOPS[0])
  {
    Steps();
    assert Announced(LIST, 0) == [];
    assert Announced(LIST, 1) == [HOPS[1]] + Announced(LIST, 0);
    assert Announced(LIST, 6) == [HOPS[0]] + Announced(LIST, 1);
  }

  /** A packet with index 2 of the container active, and a next header that is not IP. */
  function Start(l2: Bytes, src: Bytes): (f: Ip6)
    requires |l2| == 14 && |src| == 16
  {
    Ip6(l2, [0x60, 0, 0, 0], 40, PROTO_ROUTING, 64, src, [0xfc, 0, 0, 2, 0, 0, 0, 9, 0, 0, 0, 0, 0, 0, 0, 2],
      SrhBytes(59, 4, 1, 1, LAST + CONTAINER))
  }

  lemma StartCarries(l2: Bytes, src: Bytes)
    requires |l2| == 14 && |src| == 16
    ensures var f := Start(l2, src); Carries(f, LIST) && Remaining(f, GEO) == 6
  {
    var f := Start(l2, src);
    assert f.payload[8..24] == LAST && f.payload[24..40] == CONTAINER;
    forall e | 0 <= e < 2 ensures HasEntry(f, e, LIST.entries[e]) {
    }
  }

  /** The early pop: the first of two announced steps takes the SRH off, so the second C-SID, which `LAST`
      indexes, is never read - the next endpoint finds no SRH and leaves the packet as it is. */
  lemma EarlyPop(l2: Bytes, src: Bytes, node: Node, next: RepSid)
    requires |l2| == 14 && |src| == 16 && |node.l2| == 14 && node.sid.geo == GEO && node.sid.psp
    requires node.way == Way(node.sid)
    requires node.serves(LAST) == None
    ensures var f := Start(l2, src);
      && Carries(f, LIST) && Announced(LIST, Remaining(f, GEO)) == HOPS
      && Visit(f, node).Some?
    ensures var g := Visit(Start(l2, src), node).value;
      && g.Ok() && g.dst == LAST && g.nh == 59 && g.payload == []
      && ReplaceOnce(g, next) == Act(Kept(Pass, g))
  {
    var f, h := Start(l2, src), HOPS[0];
    StartCarries(l2, src);
    TwoSteps();
    Steps();
    TakenCarries(f, LIST, h, node.l2, node.hop);
    VisitTakes(f, node, LIST, h, Transit(Taken(f, GEO, h), node.l2, node.hop));
  }
}
