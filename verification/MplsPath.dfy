/** Label stacks entry by entry (RFC 3032): what each operation makes of a frame, and a path whose nodes pop and
    swap to deeper stacks. */
module MplsPath {
  import opened Packet
  import opened Wrappers
  import opened IpTtl
  import opened Mpls
  import opened MplsRoundTrip
  import opened NodeWalk

  /** A labeled frame: Ethernet addresses, EtherType 0x8847, the stack, and what it carries. */
  function Frame(macs: Bytes, es: seq<Lse>, inner: Bytes): (d: Bytes)
    requires |macs| == 12
    ensures |d| == 14 + 4 * |es| + |inner|
  {
    macs + [0x88, 0x47] + PackAll(es) + inner
  }

  /** A whole stack: its last entry alone is the bottom. */
  predicate Whole(es: seq<Lse>)
  {
    es != [] && forall i | 0 <= i < |es| :: es[i].bottom <==> i == |es| - 1
  }

  /** The upper part of one. */
  predicate Upper(es: seq<Lse>)
  {
    forall i | 0 <= i < |es| :: !es[i].bottom
  }

  /** Reading entries: those of an upper part come before whatever follows it. */
  lemma {:induction false} UpperReads(es: seq<Lse>, rest: Bytes)
    requires Upper(es)
    ensures Unstack(PackAll(es) + rest) ==
      match Unstack(rest) case None => None case Some((below, behind)) => Some((es + below, behind))
  {
    if es == [] {
      assert PackAll(es) + rest == rest;
      match Unstack(rest)
      case None =>
      case Some((below, _)) => assert es + below == below;
    } else {
      UnstackEntry(es[0], PackAll(es[1..]), rest);
      UpperReads(es[1..], rest);
      match Unstack(rest)
      case None =>
      case Some((below, behind)) => assert [es[0]] + (es[1..] + below) == es + below;
    }
  }

  /** And a whole stack ends at its bottom. */
  lemma {:induction false} WholeReads(es: seq<Lse>, rest: Bytes)
    requires Whole(es)
    ensures Unstack(PackAll(es) + rest) == Some((es, rest))
  {
    UnstackEntry(es[0], PackAll(es[1..]), rest);
    if |es| > 1 {
      assert forall i | 0 <= i < |es[1..]| :: es[1..][i] == es[i + 1];
      WholeReads(es[1..], rest);
      assert [es[0]] + es[1..] == es;
    } else {
      assert PackAll(es[1..]) + rest == rest;
      assert es == [es[0]];
    }
  }

  lemma Top(macs: Bytes, es: seq<Lse>, inner: Bytes)
    requires |macs| == 12 && es != []
    ensures var d := Frame(macs, es, inner);
      && d[..12] == macs && d[12..14] == Be16(ET_MPLS) && Unpack(d[14..18]) == es[0]
      && d[18..] == PackAll(es[1..]) + inner
  {
    UnpackPack(es[0]);
    HeadEntry(macs, Pack(es[0]), PackAll(es[1..]), inner);
    assert Be16(ET_MPLS) == [0x88, 0x47];
  }

  // ---- the swap to a deeper stack ----

  /** What takes the place of a label: the labels of the nexthop, in order, each one hop older, with the bottom
      mark on the last if the label had it. */
  predicate Replaces(top: seq<Lse>, e: Lse, labels: seq<nat>)
  {
    && |top| == |labels|
    && forall i | 0 <= i < |top| ::
      top[i].value == labels[i] % 0x10_0000 && top[i].tc == 0 && top[i].ttl == e.ttl - 1
      && (top[i].bottom <==> e.bottom && i == |top| - 1)
  }

  lemma SwapReplaces(e: Lse, labels: seq<nat>)
    requires e.ttl > 1
    ensures Replaces(SwapEntries(labels, e.bottom, e.ttl - 1), e, labels)
  {
  }

  /** The frame a swap sends, as its next node reads it: two or three new entries, and then the rest of the old
      stack or, when the old label was the bottom, what it carried. */
  lemma GrowSwapReads(d: Bytes, nh: NextHop, e: Lse)
    requires |d| >= 18 && e.ttl > 1 && 2 <= |nh.labels| <= 3 && nh.macs.Some? && |nh.macs.value| == 12
    ensures var out := GrowSwap(d, nh, e.bottom, e.ttl);
      && out.Out? && out.verdict == Redirect(nh.oif) && |out.frame| >= 14
      && out.frame[..12] == nh.macs.value && out.frame[12..14] == [0x88, 0x47]
    ensures var read := Unstack(GrowSwap(d, nh, e.bottom, e.ttl).frame[14..]);
      if e.bottom then read.Some? && Replaces(read.value.0, e, nh.labels) && read.value.1 == d[18..]
      else
        match Unstack(d[18..])
        case None => read == None
        case Some((below, rest)) =>
          && read.Some? && |read.value.0| == |nh.labels| + |below| && read.value.1 == rest
          && Replaces(read.value.0[..|nh.labels|], e, nh.labels) && read.value.0[|nh.labels|..] == below
  {
    var es := SwapEntries(nh.labels, e.bottom, e.ttl - 1);
    SwapReplaces(e, nh.labels);
    var g := GrowSwap(d, nh, e.bottom, e.ttl).frame;
    assert g == nh.macs.value + [0x88, 0x47] + (PackAll(es) + d[18..]);
    assert g[14..] == PackAll(es) + d[18..];
    if e.bottom {
      WholeReads(es, d[18..]);
    } else {
      UpperReads(es, d[18..]);
    }
  }

  // ---- nodes of a path ----

  /** What a node on the way puts in the place of the top entry, and where it sends the frame: nothing for a pop
      above the bottom, the nexthop's labels for a swap to more than one. */
  function Hop(t: Tables, e: Lse): Option<(seq<Lse>, NextHop)>
  {
    if e.ttl <= 1 || e.value !in t.fib || t.fib[e.value].nexthop !in t.nexthops then None
    else
      var ent, nh := t.fib[e.value], t.nexthops[t.fib[e.value].nexthop];
      if nh.macs == None || |nh.macs.value| != 12 then None
      else if (ent.op.Swap? || ent.op.Pop?) && nh.labels == [] && nh.oif != 0 && !e.bottom then Some(([], nh))
      else if ent.op.Swap? && 2 <= |nh.labels| <= 3 then Some((SwapEntries(nh.labels, e.bottom, e.ttl - 1), nh))
      else None
  }

  lemma HopWhole(t: Tables, es: seq<Lse>)
    requires Whole(es) && Hop(t, es[0]).Some?
    ensures Whole(Hop(t, es[0]).value.0 + es[1..])
  {
    var top := Hop(t, es[0]).value.0;
    var next := top + es[1..];
    forall i | 0 <= i < |next| ensures next[i].bottom <==> i == |next| - 1 {
      if i >= |top| {
        assert next[i] == es[1 + i - |top|];
      }
    }
  }

  /** A frame whose top entry is known, and alive. */
  predicate Shows(d: Bytes, t: Tables, e: Lse)
  {
    |d| >= 18 && d[12..14] == Be16(ET_MPLS) && Unpack(d[14..18]) == e && e.ttl > 1 && e.value in t.fib
  }

  lemma TurnIs(d: Bytes, t: Tables, e: Lse)
    requires Shows(d, t, e)
    ensures OneLabel(d, t) == ByEntry(d, t, e, t.fib[e.value])
  {
  }

  lemma PoppedFrame(d: Bytes, nh: NextHop, ttl: Byte, uniform: bool, macs: Bytes)
    requires |d| >= 18 && nh.macs == Some(macs) && |macs| == 12 && ttl > 0
    ensures PopAndForward(d, nh, false, ttl, uniform) == Out(Redirect(nh.oif), macs + (Be16(ET_MPLS) + d[18..]))
  {
    PoppedTail(d);
  }

  lemma PopSends(macs: Bytes, es: seq<Lse>, inner: Bytes, t: Tables, nh: NextHop)
    requires |macs| == 12 && Whole(es) && Hop(t, es[0]) == Some(([], nh))
    ensures OneLabel(Frame(macs, es, inner), t) == Done(Out(Redirect(nh.oif), Frame(nh.macs.value, es[1..], inner)))
  {
    var d, e, m := Frame(macs, es, inner), es[0], nh.macs.value;
    Top(macs, es, inner);
    TurnIs(d, t, e);
    PoppedFrame(d, nh, e.ttl, t.fib[e.value].uniform, m);
    Reframed(m, [], es[1..], inner);
  }

  lemma Reframed(m: Bytes, top: seq<Lse>, below: seq<Lse>, inner: Bytes)
    requires |m| == 12
    ensures m + (Be16(ET_MPLS) + (PackAll(below) + inner)) == Frame(m, below, inner)
    ensures m + Be16(ET_MPLS) + PackAll(top) + (PackAll(below) + inner) == Frame(m, top + below, inner)
  {
    PackAllConcat(top, below);
    Regroup(m, Be16(ET_MPLS), PackAll(top), PackAll(below), inner);
  }

  lemma Regroup(a: Bytes, b: Bytes, c: Bytes, d: Bytes, e: Bytes)
    ensures a + (b + (d + e)) == a + b + d + e && a + b + c + (d + e) == a + b + (c + d) + e
  {
  }

  lemma SwapSends(macs: Bytes, es: seq<Lse>, inner: Bytes, t: Tables, top: seq<Lse>, nh: NextHop)
    requires |macs| == 12 && Whole(es) && Hop(t, es[0]) == Some((top, nh)) && top != []
    ensures OneLabel(Frame(macs, es, inner), t) ==
      Done(Out(Redirect(nh.oif), Frame(nh.macs.value, top + es[1..], inner)))
  {
    var d, e, m := Frame(macs, es, inner), es[0], nh.macs.value;
    Top(macs, es, inner);
    TurnIs(d, t, e);
    Reframed(m, top, es[1..], inner);
  }

  lemma {:induction false} PackAllConcat(a: seq<Lse>, b: seq<Lse>)
    ensures PackAll(a + b) == PackAll(a) + PackAll(b)
  {
    if a == [] {
      assert a + b == b;
    } else {
      assert (a + b)[1..] == a[1..] + b;
      PackAllConcat(a[1..], b);
    }
  }

  /** A node that sends the frame out the port its nexthop names. */
  datatype Node = Node(tables: Tables, oif: nat)

  function Sends(d: Bytes, node: Node): Option<Bytes>
  {
    match Disposition(d, node.tables, MAX_LABELS + 1)
    case Out(Redirect(oif), g) => if oif == node.oif then Some(g) else None
    case _ => None
  }

  /** The stack after these nodes. `None` when one of them does anything but pop or swap, or sends another way. */
  function StackAfter(es: seq<Lse>, nodes: seq<Node>): (after: Option<seq<Lse>>)
    requires Whole(es)
    ensures after.Some? ==> Whole(after.value)
    decreases |nodes|
  {
    if nodes == [] then Some(es)
    else
      var last := nodes[|nodes| - 1];
      match StackAfter(es, nodes[..|nodes| - 1])
      case None => None
      case Some(at) =>
        match Hop(last.tables, at[0])
        case None => None
        case Some((top, nh)) =>
          HopWhole(last.tables, at);
          if nh.oif == last.oif then Some(top + at[1..]) else None
  }

  lemma NodeSends(macs: Bytes, es: seq<Lse>, inner: Bytes, node: Node) returns (macs': Bytes)
    requires |macs| == 12 && Whole(es) && StackAfter(es, [node]).Some?
    ensures |macs'| == 12
    ensures Sends(Frame(macs, es, inner), node) == Some(Frame(macs', StackAfter(es, [node]).value, inner))
  {
    assert [node][..0] == [];
    var (top, nh) := Hop(node.tables, es[0]).value;
    if top == [] {
      PopSends(macs, es, inner, node.tables, nh);
      assert top + es[1..] == es[1..];
    } else {
      SwapSends(macs, es, inner, node.tables, top, nh);
    }
    macs' := nh.macs.value;
  }

  /** Nodes of a path that pop and swap hand on the frame's inside as it is, under the stack they make. */
  lemma {:induction false} PathSends(macs: Bytes, es: seq<Lse>, inner: Bytes, nodes: seq<Node>) returns (macs': Bytes)
    requires |macs| == 12 && Whole(es) && StackAfter(es, nodes).Some?
    ensures |macs'| == 12
    ensures Walk(Sends, Frame(macs, es, inner), nodes) == Some(Frame(macs', StackAfter(es, nodes).value, inner))
    decreases |nodes|
  {
    if nodes == [] {
      macs' := macs;
    } else {
      var before, last := nodes[..|nodes| - 1], nodes[|nodes| - 1];
      var m := PathSends(macs, es, inner, before);
      assert [last][..0] == [];
      macs' := NodeSends(m, StackAfter(es, before).value, inner, last);
    }
  }

  // ---- the far end ----

  lemma PoppedAbove(d: Bytes, macs: Bytes, below: seq<Lse>, inner: Bytes)
    requires |macs| == 12 && |d| >= 18 && d[..12] == macs && d[18..] == PackAll(below) + inner
    ensures PopHead(d, ET_MPLS) == Some(Frame(macs, below, inner))
  {
    assert macs + Be16(ET_MPLS) + (PackAll(below) + inner) == macs + Be16(ET_MPLS) + PackAll(below) + inner;
    assert Be16(ET_MPLS) == [0x88, 0x47];
  }

  lemma LocalNext(macs: Bytes, es: seq<Lse>, inner: Bytes, t: Tables)
    requires |macs| == 12 && |es| >= 2 && Whole(es) && es[0].ttl > 1 && Local(t, es[0].value)
    ensures OneLabel(Frame(macs, es, inner), t) == Next(Frame(macs, es[1..], inner))
  {
    var d := Frame(macs, es, inner);
    Top(macs, es, inner);
    TurnIs(d, t, es[0]);
    PoppedAbove(d, macs, es[1..], inner);
  }

  /** What the extra entry under a service label tells: a segment's bit, or the leaf bit. */
  function Told(t: Tables, x: nat): Option<set<nat>>
  {
    if x in t.esi then Some({t.esi[x] % 64}) else if x in t.leaf then Some({63}) else None
  }

  /** The service entry, bottom or over one extra entry. */
  lemma ServiceEnds(macs: Bytes, es: seq<Lse>, inner: Bytes, t: Tables, bd: nat)
    requires |macs| == 12 && Whole(es) && |es| <= 2 && |inner| >= 14
    requires es[0].ttl > 1 && Service(t, es[0].value, bd)
    ensures var d := Frame(macs, es, inner);
      OneLabel(d, t) == Done(
        if |es| == 1 then Out(Bridge(bd, {}), inner)
        else match Told(t, es[1].value) case Some(bits) => Out(Bridge(bd, bits), inner) case None => Out(Drop, d))
  {
    var d := Frame(macs, es, inner);
    Top(macs, es, inner);
    TurnIs(d, t, es[0]);
    if |es| == 1 {
      assert PackAll(es[1..]) + inner == inner;
    } else {
      SecondRead(macs, es, inner);
    }
  }

  lemma SecondRead(macs: Bytes, es: seq<Lse>, inner: Bytes)
    requires |macs| == 12 && |es| == 2
    ensures var d := Frame(macs, es, inner); Unpack(d[18..22]) == es[1] && d[22..] == inner
  {
    var d := Frame(macs, es, inner);
    Top(macs, es, inner);
    UnpackPack(es[1]);
    assert es[1..][1..] == [] && PackAll([]) == [];
    assert PackAll(es[1..]) == Pack(es[1]) + [];
    assert d[18..] == Pack(es[1]) + inner;
    SliceOfDrop(d, 18, 18, 4);
    assert d[18..][0..4] == Pack(es[1]);
    assert d[18..][4..] == d[22..];
  }

  /** `n` local labels over the service entry. */
  predicate Ending(es: seq<Lse>, n: nat, t: Tables, bd: nat)
  {
    && Whole(es) && n < |es| <= n + 2 && es[n].ttl > 1 && Service(t, es[n].value, bd)
    && forall i | 0 <= i < n :: es[i].ttl > 1 && Local(t, es[i].value)
  }

  lemma Suffix(es: seq<Lse>, i: nat)
    requires Whole(es) && i < |es|
    ensures Whole(es[i..]) && es[i..][0] == es[i] && (i + 1 < |es| ==> es[i..][1..] == es[i + 1..])
  {
    assert forall j | 0 <= j < |es[i..]| :: es[i..][j] == es[i + j];
  }

  /** The frame after `k` iterations that each pop a local label. */
  function Turned(d: Bytes, t: Tables, k: nat): Option<Bytes>
  {
    if k == 0 then Some(d)
    else
      match Turned(d, t, k - 1)
      case None => None
      case Some(g) =>
        match OneLabel(g, t)
        case Next(h) => Some(h)
        case Done(_) => None
  }

  lemma {:induction false} TurnsThen(d: Bytes, t: Tables, k: nat, rounds: nat)
    requires Turned(d, t, k).Some? && k <= rounds
    ensures Disposition(d, t, rounds) == Disposition(Turned(d, t, k).value, t, rounds - k)
  {
    if k > 0 {
      TurnsThen(d, t, k - 1, rounds);
    }
  }

  lemma {:induction false} LocalTurns(macs: Bytes, es: seq<Lse>, inner: Bytes, t: Tables, k: nat)
    requires |macs| == 12 && Whole(es) && k < |es| && forall j | 0 <= j < k :: es[j].ttl > 1 && Local(t, es[j].value)
    ensures Turned(Frame(macs, es, inner), t, k) == Some(Frame(macs, es[k..], inner))
  {
    if k == 0 {
      assert es[0..] == es;
    } else {
      LocalTurns(macs, es, inner, t, k - 1);
      Suffix(es, k - 1);
      LocalNext(macs, es[k - 1..], inner, t);
    }
  }

  lemma LastRound(macs: Bytes, es: seq<Lse>, inner: Bytes, t: Tables, bd: nat, rounds: nat)
    requires |macs| == 12 && Ending(es, 0, t, bd) && |inner| >= 14 && rounds > 0
    ensures Disposition(Frame(macs, es, inner), t, rounds) == Arrival(macs, es, inner, t, bd)
  {
    ServiceEnds(macs, es, inner, t, bd);
  }

  /** The frame bridged with the bits of the extra entry, if there is one; its copy dropped if that is unknown. */
  function Arrival(macs: Bytes, es: seq<Lse>, inner: Bytes, t: Tables, bd: nat): Outcome
    requires |macs| == 12 && 1 <= |es| <= 2
  {
    if |es| == 1 then Out(Bridge(bd, {}), inner)
    else
      match Told(t, es[1].value)
      case Some(bits) => Out(Bridge(bd, bits), inner)
      case None => Out(Drop, Frame(macs, es, inner))
  }

  /** With an iteration for each local label and one more the frame arrives. */
  lemma FarEnd(macs: Bytes, es: seq<Lse>, n: nat, inner: Bytes, t: Tables, bd: nat, rounds: nat)
    requires |macs| == 12 && Ending(es, n, t, bd) && n < rounds && |inner| >= 14
    ensures Disposition(Frame(macs, es, inner), t, rounds) == Arrival(macs, es[n..], inner, t, bd)
  {
    LocalTurns(macs, es, inner, t, n);
    TurnsThen(Frame(macs, es, inner), t, n, rounds);
    Suffix(es, n);
    LastRound(macs, es[n..], inner, t, bd, rounds - n);
  }

  /** What is imposed: the labels cut to 20 bits, no traffic class, the full TTL of the pipe model. */
  lemma ImposedAre(labels: seq<nat>, i: nat)
    requires i < |labels|
    ensures OnImposition(labels)[i] == Lse(labels[i] % 0x10_0000, 0, i == |labels| - 1, 255)
  {
  }

  /** Without a resolved adjacency, or with more than three transport labels, nothing is imposed; the port is the
      adjacency's, and the extra label under the service label there exactly when it is not zero. */
  lemma ImposesWhen(inner: Bytes, adj: Option<NextHop>, service: nat, extra: nat)
    requires adj.Some? && adj.value.macs.Some? ==> |adj.value.macs.value| == 12
    ensures adj == None || adj.value.macs == None || |adj.value.labels| > 3 ==>
      Encap(inner, adj, service, extra) == Out(Up, inner)
    ensures adj.Some? && adj.value.macs.Some? && |adj.value.labels| <= 3 ==>
      var tail := if extra % 0x10_0000 == 0 then [service] else [service, extra % 0x10_0000];
      Encap(inner, adj, service, extra) ==
        Out(Redirect(adj.value.oif), Frame(adj.value.macs.value, OnImposition(adj.value.labels + tail), inner))
  {
    if adj.Some? && adj.value.macs.Some? && |adj.value.labels| <= 3 {
      StackIsEntries(adj.value.labels + ServiceLabels(service, extra));
      assert Be16(ET_MPLS) == [0x88, 0x47];
    }
  }

  /** A service label over more than one entry is dropped, and one over less than an Ethernet header is an error. */
  lemma ServiceRefused(macs: Bytes, es: seq<Lse>, inner: Bytes, t: Tables, bd: nat)
    requires |macs| == 12 && Whole(es) && es[0].ttl > 1 && Service(t, es[0].value, bd)
    ensures |es| >= 3 ==> OneLabel(Frame(macs, es, inner), t) == Done(Out(Drop, Frame(macs, es, inner)))
    ensures |es| == 1 && |inner| < 14 ==> OneLabel(Frame(macs, es, inner), t) == Done(Error)
    ensures |es| == 2 && |inner| < 14 && Told(t, es[1].value).Some? ==>
      OneLabel(Frame(macs, es, inner), t) == Done(Error)
  {
    var d := Frame(macs, es, inner);
    Top(macs, es, inner);
    TurnIs(d, t, es[0]);
    if |es| >= 2 {
      NextRead(macs, es, inner);
    }
  }

  lemma NextRead(macs: Bytes, es: seq<Lse>, inner: Bytes)
    requires |macs| == 12 && |es| >= 2
    ensures Unpack(Frame(macs, es, inner)[18..22]) == es[1]
  {
    var d := Frame(macs, es, inner);
    Top(macs, es, inner);
    UnpackPack(es[1]);
    assert PackAll(es[1..]) == Pack(es[1]) + PackAll(es[1..][1..]);
    SliceOfDrop(d, 18, 18, 4);
    assert d[18..][0..4] == Pack(es[1]);
  }

  /** The stack imposed on these labels. */
  function OnImposition(labels: seq<nat>): (es: seq<Lse>)
    requires labels != []
    ensures Whole(es) && |es| == |labels|
  {
    Entries(labels)
  }

  lemma {:induction false} StackIsEntries(labels: seq<nat>)
    ensures Stack(labels) == PackAll(Entries(labels))
  {
    if labels != [] {
      StackIsEntries(labels[1..]);
      assert Entries(labels)[1..] == Entries(labels[1..]);
    }
  }

  /** The round trip through any pops and swaps. The frame imposed, handed on by nodes that pop labels and swap
      them for deeper stacks, comes to a far end whose labels are what is left above the service label: it bridges
      exactly that frame, in the service's domain, with the bit of the ESI or leaf label. */
  lemma SwapRoundTrip(inner: Bytes, adj: NextHop, service: nat, extra: nat, nodes: seq<Node>, t: Tables, bd: nat,
      es: seq<Lse>, n: nat)
    requires adj.macs.Some? && |adj.macs.value| == 12 && |adj.labels| <= 3 && |inner| >= 14
    requires StackAfter(OnImposition(adj.labels + ServiceLabels(service, extra)), nodes) == Some(es)
    requires Ending(es, n, t, bd) && n <= 3
    ensures Encap(inner, Some(adj), service, extra).Out?
    ensures var at := Walk(Sends, Encap(inner, Some(adj), service, extra).frame, nodes);
      && at.Some?
      && match Disposition(at.value, t, MAX_LABELS + 1)
         case Out(Bridge(b, bits), frame) =>
           b == bd && frame == inner && Some(bits) == if |es| == n + 1 then Some({}) else Told(t, es[n + 1].value)
         case Out(Drop, _) => |es| == n + 2 && Told(t, es[n + 1].value) == None
         case _ => false
  {
    var labels := adj.labels + ServiceLabels(service, extra);
    var macs := adj.macs.value;
    StackIsEntries(labels);
    assert Be16(ET_MPLS) == [0x88, 0x47];
    assert Labeled(macs, labels, inner) == Frame(macs, OnImposition(labels), inner);
    var m := PathSends(macs, OnImposition(labels), inner, nodes);
    FarEnd(m, es, n, inner, t, bd, MAX_LABELS + 1);
  }

  // ---- the bottom of a stack that carries IP ----

  /** The EtherType of an IP packet, by its version. */
  function TypeOf(inner: Bytes): Option<Bytes>
  {
    if inner == [] then None
    else if inner[0] / 16 == 4 then Some([0x08, 0x00])
    else if inner[0] / 16 == 6 then Some([0x86, 0xdd])
    else None
  }

  /** The packet under new addresses, with the TTL of the label in the uniform model. */
  predicate Uncovers(g: Bytes, macs: Bytes, inner: Bytes, ttl: Byte, uniform: bool)
    requires |macs| == 12 && TypeOf(inner).Some?
  {
    var plain := macs + TypeOf(inner).value + inner;
    if !uniform then g == plain
    else if inner[0] / 16 == 4 then |plain| >= 34 ==> g == WithTtl(Parse4(plain), ttl).Frame()
    else |plain| >= 54 ==> g == Parse(plain).(hop := ttl).Frame()
  }

  /** The node routes what is under the label: an explicit L3 pop, or a pop without a port. */
  predicate Ends(t: Tables, e: Lse)
  {
    && e.value in t.fib && t.fib[e.value].nexthop in t.nexthops
    && var ent, nh := t.fib[e.value], t.nexthops[t.fib[e.value].nexthop];
    ent.op.PopL3? || ((ent.op.Swap? || ent.op.Pop?) && nh.labels == [] && nh.oif == 0)
  }

  lemma PoppedBottom(macs: Bytes, e: Lse, inner: Bytes)
    requires |macs| == 12 && inner != []
    ensures var d := Frame(macs, [e], inner);
      && |d| == 18 + |inner| && d[18] == inner[0] && d[12..14] == Be16(ET_MPLS) && Unpack(d[14..18]) == e
      && PopHead(d, ET_IPV4) == Some(macs + [0x08, 0x00] + inner)
      && PopHead(d, ET_IPV6) == Some(macs + [0x86, 0xdd] + inner)
  {
    var d := Frame(macs, [e], inner);
    Top(macs, [e], inner);
    assert PackAll([e][1..]) + inner == inner;
    assert d[18] == d[18..][0];
    assert Be16(ET_IPV4) == [0x08, 0x00] && Be16(ET_IPV6) == [0x86, 0xdd];
  }

  /** What the uniform model writes. */
  lemma UniformUncovers(macs: Bytes, inner: Bytes, ttl: Byte)
    requires |macs| == 12 && TypeOf(inner).Some?
    ensures var et := if inner[0] / 16 == 4 then ET_IPV4 else ET_IPV6;
      match Uniform(macs + TypeOf(inner).value + inner, et, ttl)
      case None => true
      case Some(g) => Uncovers(g, macs, inner, ttl, true)
  {
    var plain := macs + TypeOf(inner).value + inner;
    if |plain| >= 34 {
      UniformIsTtl(plain, ttl);
    }
  }

  /** A label that ends here, over an IP packet: the packet alone, under the EtherType of its own version, routed
      in the entry's VRF, or in the main table without one. What is no IP packet is dropped; a packet cut short of
      its TTL is an error. */
  lemma EndsInVrf(macs: Bytes, e: Lse, inner: Bytes, t: Tables)
    requires |macs| == 12 && e.bottom && e.ttl > 1 && Ends(t, e) && inner != []
    ensures var ent := t.fib[e.value];
      match TypeOf(inner)
      case None => OneLabel(Frame(macs, [e], inner), t) == Done(Out(Drop, Frame(macs, [e], inner)))
      case Some(_) =>
        match OneLabel(Frame(macs, [e], inner), t)
        case Done(Out(v, g)) =>
          v == (if ent.id != 0 then Route(ent.id) else Up) && Uncovers(g, macs, inner, e.ttl, ent.uniform)
        case Done(Error) => ent.uniform && |inner| < 12
        case Next(_) => false
  {
    var d := Frame(macs, [e], inner);
    PoppedBottom(macs, e, inner);
    TurnIs(d, t, e);
    if TypeOf(inner).Some? {
      UniformUncovers(macs, inner, e.ttl);
    }
  }

  /** And popped on the way to a port: the packet alone goes out that port under new addresses. */
  lemma EndsOnWay(macs: Bytes, e: Lse, inner: Bytes, t: Tables)
    requires |macs| == 12 && e.bottom && e.ttl > 1 && inner != []
    requires e.value in t.fib && t.fib[e.value].nexthop in t.nexthops
    requires var ent, nh := t.fib[e.value], t.nexthops[t.fib[e.value].nexthop];
      (ent.op.Swap? || ent.op.Pop?) && nh.labels == [] && nh.oif != 0 && nh.macs.Some? && |nh.macs.value| == 12
    ensures var ent, nh := t.fib[e.value], t.nexthops[t.fib[e.value].nexthop];
      match TypeOf(inner)
      case None => OneLabel(Frame(macs, [e], inner), t) == Done(Out(Drop, Frame(macs, [e], inner)))
      case Some(_) =>
        match OneLabel(Frame(macs, [e], inner), t)
        case Done(Out(v, g)) =>
          v == Redirect(nh.oif) && |g| >= 12 && g[..12] == nh.macs.value
          && Uncovers(macs + g[12..], macs, inner, e.ttl - 1, ent.uniform)
        case Done(Error) => ent.uniform && |inner| < 12
        case Next(_) => false
  {
    var d := Frame(macs, [e], inner);
    PoppedBottom(macs, e, inner);
    TurnIs(d, t, e);
    if TypeOf(inner).Some? {
      UniformUncovers(macs, inner, e.ttl - 1);
      UniformMacs(macs, inner, e.ttl - 1);
    }
  }

  /** A TTL written leaves the addresses. */
  lemma UniformMacs(macs: Bytes, inner: Bytes, ttl: Byte)
    requires |macs| == 12 && TypeOf(inner).Some?
    ensures var et := if inner[0] / 16 == 4 then ET_IPV4 else ET_IPV6;
      var plain := macs + TypeOf(inner).value + inner;
      && plain[..12] == macs && macs + plain[12..] == plain
      && match Uniform(plain, et, ttl)
         case None => true
         case Some(g) => |g| == |plain| && g[..12] == macs && macs + g[12..] == g
  {
  }

  /** Everything else is handed up as it is: a label at the end of its life, one this node has not given out, one
      without a nexthop, a swap to a single label or to more than three. */
  lemma HandsUp(macs: Bytes, es: seq<Lse>, inner: Bytes, t: Tables)
    requires |macs| == 12 && es != []
    ensures var e := es[0];
      Unserved(t, e) ==> OneLabel(Frame(macs, es, inner), t) == Done(Out(Up, Frame(macs, es, inner)))
  {
    Top(macs, es, inner);
  }

  predicate Unserved(t: Tables, e: Lse)
  {
    || e.ttl <= 1 || e.value !in t.fib
    || (&& t.fib[e.value].op in {Swap, Pop, PopL3, Unknown}
        && (t.fib[e.value].nexthop !in t.nexthops
            || Mismatched(t.fib[e.value].op, |t.nexthops[t.fib[e.value].nexthop].labels|, e.bottom)))
  }

  predicate Mismatched(op: Op, labels: nat, bottom: bool)
  {
    match op
    case Swap => labels == 1 || labels > 3
    case Pop => labels > 0
    case PopL3 => !bottom
    case _ => true
  }

  /** A cross-connect label goes to its circuit, raw or as a VLAN. */
  lemma CrossConnects(macs: Bytes, es: seq<Lse>, inner: Bytes, t: Tables)
    requires |macs| == 12 && es != [] && es[0].ttl > 1 && es[0].value in t.fib
    ensures var d, ent := Frame(macs, es, inner), t.fib[es[0].value];
      && (ent.op == PopXc ==> OneLabel(d, t) == Done(Out(CrossConnect(ent.id, false), d)))
      && (ent.op == PopXcVlan ==> OneLabel(d, t) == Done(Out(CrossConnect(ent.id, true), d)))
  {
    Top(macs, es, inner);
  }

  /** A frame of another EtherType is not looked at. */
  lemma NotLabeled(d: Bytes, t: Tables, rounds: nat)
    requires |d| >= 14 && d[12..14] != [0x88, 0x47]
    ensures Disposition(d, t, rounds) == Out(Up, d)
  {
    assert Be16(ET_MPLS) == [0x88, 0x47];
  }
}
