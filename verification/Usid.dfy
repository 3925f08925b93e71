/** Micro-SID carriers (NEXT-C-SID, section 4.1 of RFC 9800): uN and uA shift the destination one 16-bit
    micro-SID at a time. */
module Usid {
  import opened Packet
  import opened Wrappers
  import opened Srv6
  import opened NodeWalk

  datatype MicroSid = MicroSid(sid: LocalSid, blockBits: nat, nodeBits: nat)
  {
    /** The geometries the shift handles. */
    predicate Shifts() { nodeBits == 16 && (blockBits == 16 || blockBits == 32 || blockBits == 48) }
  }

  // ---- one endpoint ----

  /** The destination with the bytes behind the block moved up by one micro-SID. */
  function Shifted(dst: Bytes, block: nat): (d: Bytes)
    requires |dst| == 16 && block <= 14
    ensures |d| == 16
  {
    dst[..block] + dst[block + 2..] + [0, 0]
  }

  /** No micro-SID behind the active one: the carrier is at its end. */
  predicate Exhausted(dst: Bytes, u: MicroSid)
    requires |dst| == 16
  {
    var next := u.blockBits / 8 + u.nodeBits / 8;
    next + 2 <= 16 && dst[next] == 0 && dst[next + 1] == 0
  }

  /** `srv6_ua`: shift, then out the adjacency. */
  function UaStep(f: Ip6, u: MicroSid): Result
    requires f.Ok()
  {
    if Exhausted(f.dst, u) then EndStep(f, u.sid.(behavior := UA))
    else if !u.Shifts() then Kept(Pass, f)
    else Kept(Via(u.sid.nexthop), f.(dst := Shifted(f.dst, u.blockBits / 8)))
  }

  /** `srv6_un`: shift, and serve an adjacency micro-SID of this node that the shift exposes. */
  function UnStep(f: Ip6, u: MicroSid, own: Bytes -> Option<MicroSid>): Result
    requires f.Ok()
  {
    if Exhausted(f.dst, u) then EndStep(f, u.sid)
    else
      var g := if u.Shifts() then f.(dst := Shifted(f.dst, u.blockBits / 8)) else f;
      match own(g.dst)
      case Some(next) => if next.sid.behavior.UALib? then UaStep(g, next) else Kept(Pass, g)
      case None => Kept(Pass, g)
  }

  // ---- carriers ----

  predicate Micros(us: seq<Bytes>)
  {
    forall i | 0 <= i < |us| :: |us[i]| == 2 && us[i] != [0, 0]
  }

  function Flat(us: seq<Bytes>): (bs: Bytes)
    requires Micros(us)
    ensures |bs| == 2 * |us|
  {
    if us == [] then [] else us[0] + Flat(us[1..])
  }

  /** A destination that carries micro-SIDs behind a block, with a zero tail. */
  function Carrier(block: Bytes, us: seq<Bytes>): (d: Bytes)
    requires Micros(us) && |block| + 2 * |us| <= 16
    ensures |d| == 16
  {
    block + Flat(us) + Zeros(16 - |block| - 2 * |us|)
  }

  lemma FirstMicro(block: Bytes, us: seq<Bytes>)
    requires Micros(us) && |block| + 2 * |us| <= 16 && |block| <= 14
    ensures Carrier(block, us)[|block|..|block| + 2] == if us == [] then [0, 0] else us[0]
  {
    if us != [] {
      assert Carrier(block, us) == block + us[0] + (Flat(us[1..]) + Zeros(16 - |block| - 2 * |us|));
    }
  }

  /** The micro-SIDs can be read back: different ones make different carriers. */
  lemma {:induction false} CarrierInjective(block: Bytes, us: seq<Bytes>, vs: seq<Bytes>)
    requires Micros(us) && Micros(vs) && |block| + 2 * |us| <= 16 && |block| + 2 * |vs| <= 16
    requires us != vs
    ensures Carrier(block, us) != Carrier(block, vs)
    decreases |us|
  {
    FirstMicro(block, us);
    FirstMicro(block, vs);
    if us != [] && vs != [] && us[0] == vs[0] {
      assert us == [us[0]] + us[1..] && vs == [vs[0]] + vs[1..];
      CarrierInjective(block, us[1..], vs[1..]);
      ShiftCarrier(block, us);
      ShiftCarrier(block, vs);
    }
  }

  /** A shift drops the active micro-SID and keeps the block. */
  lemma ShiftCarrier(block: Bytes, us: seq<Bytes>)
    requires Micros(us) && us != [] && |block| + 2 * |us| <= 16
    ensures Shifted(Carrier(block, us), |block|) == Carrier(block, us[1..])
  {
    var z := Zeros(16 - |block| - 2 * |us|);
    assert Carrier(block, us) == block + us[0] + Flat(us[1..]) + z;
    assert Carrier(block, us)[..|block|] == block;
    assert Carrier(block, us)[|block| + 2..] == Flat(us[1..]) + z;
    assert z + [0, 0] == Zeros(16 - |block| - 2 * |us[1..]|);
  }

  /** The bytes that a shift moves next to the block. */
  lemma NextBytes(d: Bytes, b: nat)
    requires |d| == 16 && b <= 12
    ensures Shifted(d, b)[b..b + 2] == [d[b + 2], d[b + 3]]
  {
    assert Shifted(d, b)[b] == d[b + 2] && Shifted(d, b)[b + 1] == d[b + 3];
  }

  /** Only a carrier of a single micro-SID is at its end. */
  lemma ExhaustedCarrier(block: Bytes, us: seq<Bytes>, u: MicroSid)
    requires Micros(us) && us != [] && |block| + 2 * |us| <= 16 && u.Shifts() && u.blockBits == 8 * |block|
    ensures Exhausted(Carrier(block, us), u) <==> |us| == 1
  {
    var d, b := Carrier(block, us), |block|;
    NextBytes(d, b);
    ShiftCarrier(block, us);
    FirstMicro(block, us[1..]);
    assert [d[b + 2], d[b + 3]] == if |us| == 1 then [0, 0] else us[1];
  }

  /** Blocks of two, four and six bytes before micro-SIDs of two are shifted; any other geometry leaves the packet
      as it is. */
  lemma OtherGeometry(f: Ip6, u: MicroSid, own: Bytes -> Option<MicroSid>)
    requires f.Ok() && !Exhausted(f.dst, u) && !(u.nodeBits == 16 && u.blockBits in {16, 32, 48})
    ensures UaStep(f, u) == Kept(Pass, f)
    ensures own(f.dst) == None ==> UnStep(f, u, own) == Kept(Pass, f)
  {
  }

  // ---- the walk ----

  /** A uN node, the adjacency SIDs it serves, and the Ethernet header and hop limit it forwards with. */
  datatype UnNode = UnNode(u: MicroSid, own: Bytes -> Option<MicroSid>, l2: Bytes, hop: Byte)

  function Visit(f: Ip6, node: UnNode): Option<Ip6>
  {
    if !f.Ok() || |node.l2| != 14 then None
    else
      match UnStep(f, node.u, node.own)
      case Kept(v, g) => if v == Pass && g.Ok() then Some(Transit(g, node.l2, node.hop)) else None
      case _ => None
  }

  /** Does the node serve an adjacency SID that matches this destination? */
  predicate ServesAdjacency(own: Bytes -> Option<MicroSid>, dst: Bytes)
  {
    own(dst).Some? && own(dst).value.sid.behavior.UALib?
  }

  /** A uN node of the carrier's block length whose shift exposes no adjacency SID of its own. */
  predicate PlainNode(node: UnNode, block: Bytes, us: seq<Bytes>, i: nat)
    requires Micros(us) && |block| + 2 * |us| <= 16 && i < |us|
  {
    && node.u.Shifts() && node.u.blockBits == 8 * |block| && |node.l2| == 14
    && !ServesAdjacency(node.own, Carrier(block, us[i + 1..]))
  }

  predicate Plain(nodes: seq<UnNode>, block: Bytes, us: seq<Bytes>)
    requires Micros(us) && |block| + 2 * |us| <= 16 && |nodes| < |us|
  {
    forall i | 0 <= i < |nodes| :: PlainNode(nodes[i], block, us, i)
  }

  /** What enters node `i`: the first `i` micro-SIDs are gone. */
  function Entering(f: Ip6, block: Bytes, us: seq<Bytes>, nodes: seq<UnNode>, i: nat): (g: Ip6)
    requires f.Ok() && Micros(us) && |block| + 2 * |us| <= 16 && i < |us| && i <= |nodes|
    requires forall j | 0 <= j < |nodes| :: |nodes[j].l2| == 14
    ensures g.Ok()
  {
    if i == 0 then f
    else Transit(f.(dst := Carrier(block, us[i..])), nodes[i - 1].l2, nodes[i - 1].hop)
  }

  lemma VisitShifts(f: Ip6, block: Bytes, us: seq<Bytes>, nodes: seq<UnNode>, i: nat)
    requires f.Ok() && Micros(us) && |block| + 2 * |us| <= 16 && i < |nodes| < |us| && Plain(nodes, block, us)
    requires f.dst == Carrier(block, us)
    ensures Visit(Entering(f, block, us, nodes, i), nodes[i]) == Some(Entering(f, block, us, nodes, i + 1))
  {
    assert PlainNode(nodes[i], block, us, i);
    assert us[0..] == us && us[i..][1..] == us[i + 1..];
    var g := Entering(f, block, us, nodes, i);
    assert g.dst == Carrier(block, us[i..]);
    ShiftCarrier(block, us[i..]);
    ExhaustedCarrier(block, us[i..], nodes[i].u);
  }

  lemma {:induction false} WalkShifts(f: Ip6, block: Bytes, us: seq<Bytes>, nodes: seq<UnNode>, i: nat)
    requires f.Ok() && Micros(us) && |block| + 2 * |us| <= 16 && i <= |nodes| < |us| && Plain(nodes, block, us)
    requires f.dst == Carrier(block, us)
    ensures Walk(Visit, f, nodes[..i]) == Some(Entering(f, block, us, nodes, i))
  {
    if i > 0 {
      WalkShifts(f, block, us, nodes, i - 1);
      assert nodes[..i][..i - 1] == nodes[..i - 1];
      VisitShifts(f, block, us, nodes, i - 1);
    }
  }

  /** The carrier walk: under a block of two, four or six bytes, uN nodes see the micro-SIDs of a carrier
      in order - after `n` of them micro-SID `n` is active, the block is the same and nothing else has
      changed - and only the node of the last micro-SID acts as End. */
  lemma CarrierWalk(f: Ip6, block: Bytes, us: seq<Bytes>, nodes: seq<UnNode>, u: MicroSid,
      own: Bytes -> Option<MicroSid>)
    requires f.Ok() && Micros(us) && |block| + 2 * |us| <= 16 && |nodes| < |us| && Plain(nodes, block, us)
    requires f.dst == Carrier(block, us) && u.Shifts() && u.blockBits == 8 * |block|
    ensures var g := Entering(f, block, us, nodes, |nodes|);
      && Walk(Visit, f, nodes) == Some(g)
      && g.dst == Carrier(block, us[|nodes|..]) && g.payload == f.payload
      && (Exhausted(g.dst, u) <==> |nodes| == |us| - 1)
      && (|nodes| == |us| - 1 ==> UnStep(g, u, own) == EndStep(g, u.sid))
  {
    var n := |nodes|;
    assert us[0..] == us;
    ExhaustedCarrier(block, us[n..], u);
    WalkShifts(f, block, us, nodes, n);
    assert nodes[..n] == nodes;
  }

  /** A uN and a uA on destinations: `once` after the first shift, `twice` after the second. */
  lemma TwoMoves(f: Ip6, u: MicroSid, ua: MicroSid, own: Bytes -> Option<MicroSid>, once: Bytes, twice: Bytes)
    requires f.Ok() && u.Shifts() && ua.Shifts() && !Exhausted(f.dst, u) && |once| == 16
    requires once == Shifted(f.dst, u.blockBits / 8) && twice == Shifted(once, ua.blockBits / 8)
    requires own(once) == Some(ua) && ua.sid.behavior.UALib?
    ensures UnStep(f, u, own) ==
      if Exhausted(once, ua) then EndStep(f.(dst := once), ua.sid.(behavior := UA))
      else Kept(Via(ua.sid.nexthop), f.(dst := twice))
  {
  }

  /** One move: a uA goes out its adjacency, a uN by the route, unless the node serves the adjacency it exposes. */
  lemma OneMove(f: Ip6, u: MicroSid, own: Bytes -> Option<MicroSid>, next: Bytes)
    requires f.Ok() && u.Shifts() && !Exhausted(f.dst, u) && next == Shifted(f.dst, u.blockBits / 8)
    ensures UaStep(f, u) == Kept(Via(u.sid.nexthop), f.(dst := next))
    ensures !ServesAdjacency(own, next) ==> UnStep(f, u, own) == Kept(Pass, f.(dst := next))
  {
  }

  /** A shift of a carrier, and whether it was the last. */
  lemma CarrierMoves(block: Bytes, us: seq<Bytes>, u: MicroSid)
    requires Micros(us) && us != [] && |block| + 2 * |us| <= 16 && u.Shifts() && u.blockBits == 8 * |block|
    ensures Shifted(Carrier(block, us), u.blockBits / 8) == Carrier(block, us[1..])
    ensures Exhausted(Carrier(block, us), u) <==> |us| == 1
  {
    ShiftCarrier(block, us);
    ExhaustedCarrier(block, us, u);
  }

  /** A node's own adjacency micro-SID behind its uN is used up in the same visit. */
  lemma UnThenUa(f: Ip6, block: Bytes, us: seq<Bytes>, u: MicroSid, ua: MicroSid, own: Bytes -> Option<MicroSid>)
    requires f.Ok() && Micros(us) && 2 <= |us| && |block| + 2 * |us| <= 16 && f.dst == Carrier(block, us)
    requires u.Shifts() && ua.Shifts() && u.blockBits == ua.blockBits == 8 * |block|
    requires own(Carrier(block, us[1..])) == Some(ua) && ua.sid.behavior.UALib?
    ensures UnStep(f, u, own) ==
      if |us| == 2 then EndStep(f.(dst := Carrier(block, us[1..])), ua.sid.(behavior := UA))
      else Kept(Via(ua.sid.nexthop), f.(dst := Carrier(block, us[2..])))
  {
    CarrierMoves(block, us, u);
    CarrierMoves(block, us[1..], ua);
    assert us[1..][1..] == us[2..];
    TwoMoves(f, u, ua, own, Carrier(block, us[1..]), Carrier(block, us[2..]));
  }

  // ---- the code on bytes ----

  /** `srv6_usid_shift`. */
  method ShiftHead(p: Buffer, u: MicroSid) returns (ok: bool)
    requires |p.data| >= 54
    modifies p
    ensures ok == u.Shifts()
    ensures var f := Parse(old(p.data));
      p.data == (if ok then f.(dst := Shifted(f.dst, u.blockBits / 8)) else f).Frame()
  {
    FrameParse(p.data);
    ghost var f := Parse(p.data);
    var da := p.data[DST_OFF..DST_OFF + 16];
    var nda := da;
    match (u.blockBits, u.nodeBits) {
      case (16, 16) => nda := Put(nda, 2, da[4..16]);
      case (32, 16) => nda := Put(nda, 4, da[6..16]);
      case (48, 16) => nda := Put(nda, 6, da[8..16]);
      case _ => return false;
    }
    nda := nda[14 := 0][15 := 0];
    assert nda == Shifted(da, u.blockBits / 8);
    PutDst(f, nda);
    ok := p.Store(DST_OFF, nda);
  }

  /** `srv6_ua`. */
  method UaHead(p: Buffer, u: MicroSid) returns (r: Option<Verdict>)
    requires |p.data| >= 54
    modifies p
    ensures match UaStep(Parse(old(p.data)), u)
            case Failed => r == None
            case Kept(v, packet) => r == Some(v) && packet.Ok() && p.data == packet.Frame()
            case Stripped(v, frame) => r == Some(v) && p.data == frame
  {
    FrameParse(p.data);
    if Exhausted(p.data[DST_OFF..DST_OFF + 16], u) {
      r := Srv6End(p, u.sid.(behavior := UA));
      return;
    }
    var ok := ShiftHead(p, u);
    return Some(if ok then Via(u.sid.nexthop) else Pass);
  }

  /** `srv6_un`. */
  method UnHead(p: Buffer, u: MicroSid, own: Bytes -> Option<MicroSid>) returns (r: Option<Verdict>)
    requires |p.data| >= 54
    modifies p
    ensures match UnStep(Parse(old(p.data)), u, own)
            case Failed => r == None
            case Kept(v, packet) => r == Some(v) && packet.Ok() && p.data == packet.Frame()
            case Stripped(v, frame) => r == Some(v) && p.data == frame
  {
    FrameParse(p.data);
    ghost var f := Parse(p.data);
    if Exhausted(p.data[DST_OFF..DST_OFF + 16], u) {
      r := Srv6End(p, u.sid);
      return;
    }
    var ok := ShiftHead(p, u);
    ParseFrame(if ok then f.(dst := Shifted(f.dst, u.blockBits / 8)) else f);
    var next := own(p.data[DST_OFF..DST_OFF + 16]);
    if next.Some? && next.value.sid.behavior.UALib? {
      r := UaHead(p, next.value);
      return;
    }
    return Some(Pass);
  }
}
