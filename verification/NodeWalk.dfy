/** A packet from node to node. */
module NodeWalk {
  import opened Wrappers

  /** What the last node sends on, seeing what the nodes before it sent on. `None` when one of them keeps
      no packet. */
  function Walk<P, Node>(visit: (P, Node) -> Option<P>, f: P, nodes: seq<Node>): Option<P>
    decreases |nodes|
  {
    if nodes == [] then Some(f)
    else
      match Walk(visit, f, nodes[..|nodes| - 1])
      case None => None
      case Some(g) => visit(g, nodes[|nodes| - 1])
  }

  /** The same from the front: the first node's packet goes through the rest. */
  lemma {:induction false} WalkFirst<P, Node>(visit: (P, Node) -> Option<P>, f: P, nodes: seq<Node>)
    requires nodes != []
    ensures Walk(visit, f, nodes) ==
      match visit(f, nodes[0])
      case None => None
      case Some(g) => Walk(visit, g, nodes[1..])
    decreases |nodes|
  {
    var n := |nodes|;
    if n == 1 {
      assert nodes[..0] == [] && nodes[1..] == [];
      assert Walk(visit, f, nodes[..0]) == Some(f);
    } else {
      WalkFirst(visit, f, nodes[..n - 1]);
      assert nodes[..n - 1][1..] == nodes[1..][..n - 2];
    }
  }
}
