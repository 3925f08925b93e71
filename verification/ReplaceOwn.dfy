/** REPLACE-C-SID endpoints that serve the full SID they load: one visit, two steps of the walk. */
module ReplaceOwn {
  import opened Packet
  import opened Wrappers
  import opened NodeWalk
  import opened ReplaceCsid
  import opened ReplaceWalk
  import opened ReplaceList

  /** The two endpoints such a node stands for: the SID it was entered by, and its own that it loads. */
  function Parts(node: Node, own: RepSid): (parts: seq<Node>)
    ensures |parts| == 2
  {
    [node.(serves := _ => None, way := Way(node.sid)), node.(sid := own, serves := _ => None)]
  }

  /** What a node stands for at a step: itself, or its parts at a full SID that it serves. A third SID it serves
      would lose its second one's adjacency: the code passes at most twice. */
  ghost predicate StandsFor(node: Node, parts: seq<Node>, hops: seq<Hop>, k: nat)
    requires k < |hops|
  {
    parts == [node]
    || (&& hops[k].Full? && node.serves(hops[k].sid).Some? && parts == Parts(node, node.serves(hops[k].sid).value)
        && (k + 1 < |hops| ==> KeepsWay(node, node.serves(hops[k].sid).value, hops[k + 1])))
  }

  predicate KeepsWay(node: Node, own: RepSid, next: Hop)
  {
    next.Full? && own.isX ==> node.serves(next.sid) == None
  }

  /** A visit with two passes is the second endpoint's visit to the packet the first has loaded. */
  lemma SecondPass(f: Ip6, g: Ip6, node: Node, own: RepSid)
    requires f.Ok() && g.Ok() && |node.l2| == 14
    requires ReplaceOnce(f, node.sid) == Redispatch(g) && node.serves(g.dst) == Some(own)
    requires var s := ReplaceOnce(g, own); s.Redispatch? && own.isX ==> node.serves(s.packet.dst) == None
    ensures Visit(f, node) == Visit(g, Parts(node, own)[1])
  {
  }

  /** What the second pass loads is the next step's SID. */
  lemma SecondLoads(g: Ip6, list: SegList, own: RepSid, node: Node, next: Hop)
    requires Carries(g, list) && own.geo == list.geo && NextHop(list, Remaining(g, list.geo)) == Some(next)
    requires KeepsWay(node, own, next)
    ensures var s := ReplaceOnce(g, own); s.Redispatch? && own.isX ==> node.serves(s.packet.dst) == None
  {
    if next.Short? {
      ShortStep(g, list, own, next);
    } else {
      FullStep(g, list, own, next);
    }
  }

  /** The first pass loads the full SID. */
  lemma FirstPass(f: Ip6, list: SegList, node: Node, own: RepSid, h: Hop)
    requires Carries(f, list) && NextHop(list, Remaining(f, list.geo)) == Some(h) && h.Full?
    requires |node.l2| == 14 && node.sid.geo == list.geo && !(node.sid.psp && Pops(list, h))
    ensures Leads(f, list.geo, h)
    ensures var g := Taken(f, list.geo, h);
      && ReplaceOnce(f, node.sid) == Redispatch(g) && g.dst == h.sid
      && Visit(f, Parts(node, own)[0]) == Some(Transit(g, node.l2, node.hop))
  {
    FullStep(f, list, node.sid, h);
    VisitTakes(f, Parts(node, own)[0], list, h, Transit(Taken(f, list.geo, h), node.l2, node.hop));
  }

  /** A visit neither reads nor keeps the Ethernet header and the hop limit it finds. */
  lemma FreshHeader(g: Ip6, list: SegList, node: Node, h: Hop, l2: Bytes, hop: Byte)
    requires |l2| == 14 && Carries(g, list) && Carries(Transit(g, l2, hop), list)
    requires NextHop(list, Remaining(g, list.geo)) == Some(h) && Takes(node, list, h)
    ensures Visit(Transit(g, l2, hop), node) == Visit(g, node)
  {
    var t := Transit(g, l2, hop);
    TakenCarries(g, list, h, node.l2, node.hop);
    TakenCarries(t, list, h, node.l2, node.hop);
    var x := Transit(Taken(g, list.geo, h), node.l2, node.hop);
    VisitTakes(g, node, list, h, x);
    VisitTakes(t, node, list, h, x);
  }

  /** The node's one visit is the visits of its two parts. */
  lemma TwoSteps(f: Ip6, list: SegList, node: Node, own: RepSid, h: Hop, next: Hop)
    requires Carries(f, list) && NextHop(list, Remaining(f, list.geo)) == Some(h) && h.Full?
    requires node.serves(h.sid) == Some(own) && !(node.sid.psp && Pops(list, h))
    requires Takes(Parts(node, own)[0], list, h) && Takes(Parts(node, own)[1], list, next)
    requires h.left <= list.Size() && NextHop(list, h.left) == Some(next) && KeepsWay(node, own, next)
    ensures Visit(f, Parts(node, own)[0]).Some?
    ensures Visit(f, node) == Visit(Visit(f, Parts(node, own)[0]).value, Parts(node, own)[1])
  {
    FirstPass(f, list, node, own, h);
    FullTaken(f, list, h);
    TakenCarries(f, list, h, node.l2, node.hop);
    var g := Taken(f, list.geo, h);
    SecondLoads(g, list, own, node, next);
    SecondPass(f, g, node, own);
    FreshHeader(g, list, Parts(node, own)[1], next, node.l2, node.hop);
  }

  /** A node that serves the last SID of the list gives it its ultimate treatment in the same visit. */
  lemma OwnSidEnds(f: Ip6, list: SegList, node: Node, own: RepSid, h: Hop)
    requires Carries(f, list) && NextHop(list, Remaining(f, list.geo)) == Some(h) && h.Full?
    requires node.serves(h.sid) == Some(own) && !(node.sid.psp && Pops(list, h))
    requires |node.l2| == 14 && node.sid.geo == list.geo && own.geo == list.geo
    requires h.left <= list.Size() && NextHop(list, h.left) == None
    ensures Leads(f, list.geo, h)
    ensures var g := Taken(f, list.geo, h);
      |g.payload| >= 2 && Replace(f, node.sid, node.serves) == Ultimate(g, own)
  {
    FirstPass(f, list, node, own, h);
    FullTaken(f, list, h);
    UltimateLast(Taken(f, list.geo, h), list, own);
  }

  // ---- whole walks ----

  function Flat(parts: seq<seq<Node>>): seq<Node>
  {
    if |parts| == 0 then [] else Flat(parts[..|parts| - 1]) + parts[|parts| - 1]
  }

  /** Each node stands for its part of the path. */
  ghost predicate Stand(nodes: seq<Node>, parts: seq<seq<Node>>, hops: seq<Hop>)
    decreases |nodes|
  {
    |nodes| == |parts| &&
    (|nodes| == 0 ||
      var n := |nodes| - 1;
      && Stand(nodes[..n], parts[..n], hops)
      && |Flat(parts[..n])| < |hops| && StandsFor(nodes[n], parts[n], hops, |Flat(parts[..n])|))
  }

  lemma LastPart(f: Ip6, list: SegList, node: Node, path: seq<Node>, k: nat, hops: seq<Hop>)
    requires Carries(f, list) && hops == Announced(list, Remaining(f, list.geo)) && Path(path, list, hops)
    requires k < |path| && NoEarlyPop(path, list, hops) && StandsFor(node, path[k..], hops, k)
    ensures Walk(Visit, f, path[..k]).Some?
    ensures Visit(Walk(Visit, f, path[..k]).value, node) == Walk(Visit, f, path)
  {
    WalkPrefix(f, list, path, hops, k);
    if |path| == k + 1 {
      assert path[k..] == [path[k]];
    } else {
      OwnPart(f, list, node, path, k, hops);
    }
  }

  lemma OwnPart(f: Ip6, list: SegList, node: Node, path: seq<Node>, k: nat, hops: seq<Hop>)
    requires Carries(f, list) && hops == Announced(list, Remaining(f, list.geo)) && Path(path, list, hops)
    requires k + 2 == |path| && NoEarlyPop(path, list, hops) && StandsFor(node, path[k..], hops, k)
    ensures Walk(Visit, f, path[..k]).Some?
    ensures Visit(Walk(Visit, f, path[..k]).value, node) == Walk(Visit, f, path)
  {
    var m := Remaining(f, list.geo);
    var e := Entering(f, list.geo, hops, path, k);
    var own := node.serves(hops[k].sid).value;
    WalkPrefix(f, list, path, hops, k);
    EnteringCarries(f, list, path, k);
    StepIs(list, m, k);
    StepIs(list, m, k + 1);
    assert path[k] == Parts(node, own)[0] && path[k + 1] == Parts(node, own)[1];
    TwoSteps(e, list, node, own, hops[k], hops[k + 1]);
    assert path[..k + 1][..k] == path[..k];
  }

  /** A walk through nodes some of which serve full SIDs they load is the walk through their parts: so
      `ContainersReadInOrder` says what it ends with. */
  lemma {:induction false} OwnSidsWalk(f: Ip6, list: SegList, nodes: seq<Node>, parts: seq<seq<Node>>, hops: seq<Hop>)
    requires Carries(f, list) && hops == Announced(list, Remaining(f, list.geo)) && Stand(nodes, parts, hops)
    requires Path(Flat(parts), list, hops) && NoEarlyPop(Flat(parts), list, hops)
    ensures Walk(Visit, f, nodes) == Walk(Visit, f, Flat(parts))
    decreases |nodes|
  {
    if |nodes| > 0 {
      var n := |nodes| - 1;
      var before, path := Flat(parts[..n]), Flat(parts);
      var k := |before|;
      assert path[..k] == before && path[k..] == parts[n];
      assert forall i | 0 <= i < k :: before[i] == path[i];
      OwnSidsWalk(f, list, nodes[..n], parts[..n], hops);
      LastPart(f, list, nodes[n], path, k, hops);
    }
  }
}
