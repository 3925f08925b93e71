/** A frame through an MPLS EVPN: imposed, popped on the way or all at the far end, and bridged again. */
module MplsRoundTrip {
  import opened Packet
  import opened Wrappers
  import opened EsBits
  import opened Mpls
  import opened NodeWalk

  /** The label is popped here and the one below is this node's too. */
  predicate Local(t: Tables, x: nat)
  {
    && LabelOf(x) in t.fib
    && var ent := t.fib[LabelOf(x)];
    && (ent.op.Swap? || ent.op.Pop?) && ent.nexthop in t.nexthops
    && t.nexthops[ent.nexthop].labels == [] && t.nexthops[ent.nexthop].oif == 0
  }

  /** The label is popped here and the rest of the stack belongs to the next node. */
  predicate Penultimate(t: Tables, x: nat)
  {
    && LabelOf(x) in t.fib
    && var ent := t.fib[LabelOf(x)];
    && (ent.op.Swap? || ent.op.Pop?) && ent.nexthop in t.nexthops
    && var nh := t.nexthops[ent.nexthop];
    && nh.labels == [] && nh.oif != 0 && nh.macs.Some? && |nh.macs.value| == 12
  }

  /** The label is the service label of bridge domain `bd`. */
  predicate Service(t: Tables, x: nat, bd: nat)
  {
    LabelOf(x) in t.fib && t.fib[LabelOf(x)].op.PopL2? && t.fib[LabelOf(x)].id == bd
  }

  // ---- one label ----

  lemma HeadEntry(macs: Bytes, e: Bytes, below: Bytes, inner: Bytes)
    requires |macs| == 12 && |e| == 4
    ensures var d := macs + Be16(ET_MPLS) + (e + below) + inner;
      d[..12] == macs && d[12..14] == Be16(ET_MPLS) && d[14..18] == e && d[18..] == below + inner
  {
  }

  lemma TopEntry(macs: Bytes, labels: seq<nat>, inner: Bytes)
    requires |macs| == 12 && labels != []
    ensures var d := Labeled(macs, labels, inner);
      && d[..12] == macs && d[12..14] == Be16(ET_MPLS) && Unpack(d[14..18]) == Imposed(labels[0], |labels| == 1)
      && d[18..] == Stack(labels[1..]) + inner
  {
    var e := Imposed(labels[0], |labels| == 1);
    UnpackPack(e);
    HeadEntry(macs, Pack(e), Stack(labels[1..]), inner);
  }

  lemma TopPopped(macs: Bytes, labels: seq<nat>, inner: Bytes, macs': Bytes)
    requires |macs| == 12 && labels != [] && |macs'| == 12
    ensures macs' + Be16(ET_MPLS) + Labeled(macs, labels, inner)[18..] == Labeled(macs', labels[1..], inner)
  {
    TopEntry(macs, labels, inner);
  }

  lemma LocalTurn(macs: Bytes, labels: seq<nat>, inner: Bytes, t: Tables)
    requires |macs| == 12 && |labels| >= 2 && Local(t, labels[0])
    ensures OneLabel(Labeled(macs, labels, inner), t) == Next(Labeled(macs, labels[1..], inner))
  {
    TopEntry(macs, labels, inner);
    TopPopped(macs, labels, inner, macs);
  }

  // ---- the far end ----

  /** The `es_bits` an extra label stands for at the node that gave it out: a segment's bit, the leaf bit,
      or none without a label. `None` for a label it has not given out. */
  function ExtraBits(t: Tables, extra: nat): Option<set<nat>>
  {
    var x := LabelOf(extra);
    if x == 0 then Some({})
    else if x in t.esi then Some({t.esi[x] % 64})
    else if x in t.leaf then Some({LEAF_BIT})
    else None
  }

  /** The frame bridged with those bits; a copy with an unknown extra label is dropped. */
  function Delivered(macs: Bytes, service: nat, extra: nat, inner: Bytes, bd: nat, t: Tables): Outcome
    requires |macs| == 12
  {
    match ExtraBits(t, extra)
    case Some(bits) => Out(Bridge(bd, bits), inner)
    case None => Out(Drop, Labeled(macs, ServiceLabels(service, extra), inner))
  }

  lemma SecondEntry(macs: Bytes, labels: seq<nat>, inner: Bytes)
    requires |macs| == 12 && |labels| == 2
    ensures var d := Labeled(macs, labels, inner);
      Unpack(d[18..22]) == Imposed(labels[1], true) && d[22..] == inner
  {
    var e := Imposed(labels[1], true);
    UnpackPack(e);
    TopEntry(macs, labels, inner);
    var d := Labeled(macs, labels, inner);
    assert labels[1..][0] == labels[1] && labels[1..][1..] == [];
    assert Stack(labels[1..]) == Pack(e);
    assert d[18..] == Pack(e) + inner;
    SliceOfDrop(d, 18, 18, 4);
    assert d[18..][0..4] == Pack(e);
    assert d[18..][4..] == d[22..];
  }

  lemma ServiceDecap(macs: Bytes, service: nat, extra: nat, inner: Bytes, bd: nat, t: Tables)
    requires |macs| == 12 && |inner| >= ETH_LEN
    ensures var tail := ServiceLabels(service, extra);
      PopDecapL2(Labeled(macs, tail, inner), |tail| == 1, bd, t) == Delivered(macs, service, extra, inner, bd, t)
  {
    var tail := ServiceLabels(service, extra);
    TopEntry(macs, tail, inner);
    if |tail| == 1 {
      assert Stack(tail[1..]) + inner == inner;
    } else {
      SecondEntry(macs, tail, inner);
    }
  }

  lemma ServiceTurn(macs: Bytes, service: nat, extra: nat, inner: Bytes, bd: nat, t: Tables)
    requires |macs| == 12 && |inner| >= ETH_LEN && Service(t, service, bd)
    ensures OneLabel(Labeled(macs, ServiceLabels(service, extra), inner), t) ==
      Done(Delivered(macs, service, extra, inner, bd, t))
  {
    TopEntry(macs, ServiceLabels(service, extra), inner);
    ServiceDecap(macs, service, extra, inner, bd, t);
  }

  /** Labels that are all local pops, over a service label: the loop delivers the frame exactly when it has
      an iteration for each of them and one more; otherwise it gives up with the labels left that it had no
      iteration for. */
  lemma {:induction false} LocalStack(macs: Bytes, labels: seq<nat>, service: nat, extra: nat, inner: Bytes, bd: nat,
      t: Tables, rounds: nat)
    requires |macs| == 12 && |inner| >= ETH_LEN && Service(t, service, bd)
    requires forall i | 0 <= i < |labels| :: Local(t, labels[i])
    ensures var all := labels + ServiceLabels(service, extra);
      Disposition(Labeled(macs, all, inner), t, rounds) ==
        if |labels| < rounds then Delivered(macs, service, extra, inner, bd, t)
        else Out(Up, Labeled(macs, all[rounds..], inner))
    decreases |labels|
  {
    var all := labels + ServiceLabels(service, extra);
    if rounds == 0 {
      assert all[0..] == all;
    } else if labels == [] {
      assert all == ServiceLabels(service, extra);
      ServiceTurn(macs, service, extra, inner, bd, t);
    } else {
      LocalTurn(macs, all, inner, t);
      assert all[1..] == labels[1..] + ServiceLabels(service, extra);
      LocalStack(macs, labels[1..], service, extra, inner, bd, t, rounds - 1);
      if |labels| >= rounds {
        assert all[1..][rounds - 1..] == all[rounds..];
      }
    }
  }

  // ---- nodes on the way ----

  /** The frame a node sends out a port. `None` for every other disposition. */
  function SendOn(d: Bytes, t: Tables): Option<Bytes>
  {
    match Disposition(d, t, MAX_LABELS + 1)
    case Out(Redirect(_), g) => Some(g)
    case _ => None
  }

  function MacsOf(t: Tables, x: nat): (macs: Bytes)
    requires Penultimate(t, x)
    ensures |macs| == 12
  {
    t.nexthops[t.fib[LabelOf(x)].nexthop].macs.value
  }

  lemma SendOnPops(macs: Bytes, labels: seq<nat>, inner: Bytes, t: Tables)
    requires |macs| == 12 && |labels| >= 2 && Penultimate(t, labels[0])
    ensures SendOn(Labeled(macs, labels, inner), t) == Some(Labeled(MacsOf(t, labels[0]), labels[1..], inner))
  {
    var d := Labeled(macs, labels, inner);
    TopEntry(macs, labels, inner);
    TopPopped(macs, labels, inner, MacsOf(t, labels[0]));
    PoppedTail(d);
    var ent := t.fib[LabelOf(labels[0])];
    var nh := t.nexthops[ent.nexthop];
    var m: Bytes := MacsOf(t, labels[0]);
    assert PopAndForward(d, nh, false, PIPE_TTL, ent.uniform) ==
      Out(Redirect(nh.oif), m + PopHead(d, ET_MPLS).value[12..]);
    assert m + PopHead(d, ET_MPLS).value[12..] == m + Be16(ET_MPLS) + d[18..];
    assert OneLabel(d, t) == Done(PopAndForward(d, nh, false, PIPE_TTL, ent.uniform));
  }

  lemma PoppedTail(d: Bytes)
    requires |d| >= 18
    ensures PopHead(d, ET_MPLS).value[12..] == Be16(ET_MPLS) + d[18..]
  {
    assert d[..12] + Be16(ET_MPLS) + d[18..] == d[..12] + (Be16(ET_MPLS) + d[18..]);
  }

  /** The nodes of a path, each the penultimate hop of its label. */
  predicate Path(nodes: seq<Tables>, labels: seq<nat>)
  {
    |nodes| <= |labels| && forall i | 0 <= i < |nodes| :: Penultimate(nodes[i], labels[i])
  }

  function MacsAfter(macs: Bytes, nodes: seq<Tables>, labels: seq<nat>, i: nat): (m: Bytes)
    requires |macs| == 12 && Path(nodes, labels) && i <= |nodes|
    ensures |m| == 12
  {
    if i == 0 then macs else MacsOf(nodes[i - 1], labels[i - 1])
  }

  lemma PathStep(macs: Bytes, labels: seq<nat>, tail: seq<nat>, inner: Bytes, t: Tables, i: nat)
    requires |macs| == 12 && tail != [] && i < |labels| && Penultimate(t, labels[i])
    ensures SendOn(Labeled(macs, labels[i..] + tail, inner), t) ==
      Some(Labeled(MacsOf(t, labels[i]), labels[i + 1..] + tail, inner))
  {
    var left := labels[i..] + tail;
    assert left[0] == labels[i] && left[1..] == labels[i + 1..] + tail;
    SendOnPops(macs, left, inner, t);
  }

  lemma {:induction false} PathPops(macs: Bytes, labels: seq<nat>, tail: seq<nat>, inner: Bytes, nodes: seq<Tables>,
      i: nat)
    requires |macs| == 12 && tail != [] && Path(nodes, labels) && i <= |nodes|
    ensures Walk(SendOn, Labeled(macs, labels + tail, inner), nodes[..i]) ==
      Some(Labeled(MacsAfter(macs, nodes, labels, i), labels[i..] + tail, inner))
  {
    if i == 0 {
      assert labels[0..] == labels;
    } else {
      PathPops(macs, labels, tail, inner, nodes, i - 1);
      assert nodes[..i][..i - 1] == nodes[..i - 1];
      PathStep(MacsAfter(macs, nodes, labels, i - 1), labels, tail, inner, nodes[i - 1], i - 1);
    }
  }

  /** The EVPN round trip. Up to three transport labels, any number of them popped by the nodes of a path
      and the rest by the far end itself, in one run of its loop: the far end bridges exactly the frame that
      was encapsulated, in the service label's domain, with the bit of the ESI or leaf label. */
  lemma EvpnRoundTrip(inner: Bytes, adj: NextHop, service: nat, extra: nat, nodes: seq<Tables>, t: Tables, bd: nat)
    requires adj.macs.Some? && |adj.macs.value| == 12 && |adj.labels| <= MAX_LABELS && |inner| >= ETH_LEN
    requires Path(nodes, adj.labels) && Service(t, service, bd)
    requires forall i | |nodes| <= i < |adj.labels| :: Local(t, adj.labels[i])
    ensures Encap(inner, Some(adj), service, extra).Out?
    ensures var at := Walk(SendOn, Encap(inner, Some(adj), service, extra).frame, nodes);
      && at.Some?
      && Disposition(at.value, t, MAX_LABELS + 1) ==
           Delivered(MacsAfter(adj.macs.value, nodes, adj.labels, |nodes|), service, extra, inner, bd, t)
  {
    var macs, n, tail := adj.macs.value, |nodes|, ServiceLabels(service, extra);
    PathPops(macs, adj.labels, tail, inner, nodes, n);
    assert nodes[..n] == nodes;
    LocalStack(MacsAfter(macs, nodes, adj.labels, n), adj.labels[n..], service, extra, inner, bd, t, MAX_LABELS + 1);
  }

  /** The imposed stack is one label stack: its last entry alone is the bottom, and the frame follows it. */
  lemma EncapStack(inner: Bytes, adj: NextHop, service: nat, extra: nat)
    requires adj.macs.Some? && |adj.macs.value| == 12 && |adj.labels| <= MAX_LABELS
    ensures var d := Encap(inner, Some(adj), service, extra).frame;
      var labels := adj.labels + ServiceLabels(service, extra);
      && |d| == 14 + 4 * |labels| + |inner|
      && Unstack(d[14..]) == Some((Entries(labels), inner))
  {
    var labels := adj.labels + ServiceLabels(service, extra);
    OneBottom(labels, inner);
    assert Labeled(adj.macs.value, labels, inner)[14..] == Stack(labels) + inner;
  }
}
