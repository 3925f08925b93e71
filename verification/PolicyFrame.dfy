/** The policy verdict on the bytes of an IPv4 frame, and the flow tracking around it. */
module PolicyFrame {
  import opened Wrappers
  import opened Packet
  import opened Policy

  // ---- what the bytes say ----

  function Address(d: Bytes, off: nat): U32
    requires off + 4 <= |d|
  {
    ((d[off] as int * 256 + d[off + 1]) * 256 + d[off + 2]) * 256 + d[off + 3]
  }

  function Port(d: Bytes, off: nat): U16
    requires off + 2 <= |d|
  {
    d[off] as int * 256 + d[off + 1]
  }

  /** TCP or UDP right behind a header of twenty bytes. */
  predicate Ported(d: Bytes)
    requires |d| >= 34
  {
    (d[23] == 6 || d[23] == 17) && d[14] % 16 == 5
  }

  /** The header, and the ports if there are any. */
  predicate Readable(d: Bytes)
  {
    |d| >= 34 && (Ported(d) ==> |d| >= 38)
  }

  /** The frame's source and destination, protocol and ports. */
  function FlowOf(d: Bytes): Flow
    requires Readable(d)
  {
    Flow(Address(d, 26), Address(d, 30), if Ported(d) then Port(d, 34) else 0, if Ported(d) then Port(d, 36) else 0,
         d[23])
  }

  /** The same flow seen from its other end. */
  function Exchanged(x: Flow): Flow
  {
    Flow(x.dst, x.src, x.dport, x.sport, x.proto)
  }

  /** Whose identity the rules are about: the sender of what comes to the endpoint, the receiver of what it sends. */
  function Peer(d: Bytes, dir: Dir): U32
    requires |d| >= 34
  {
    match dir
    case Ingress => Address(d, 26)
    case Egress => Address(d, 30)
  }

  /** Its own binding, else its CIDR's, else the world's. */
  function Bound(peer: U32, exact: map<U32, U32>, cidr: U32 -> Option<U32>): U32
  {
    if peer in exact then exact[peer]
    else match cidr(peer) case Some(id) => id case None => 2
  }

  function Question(d: Bytes, exact: map<U32, U32>, cidr: U32 -> Option<U32>, at: Place): Query
    requires Readable(d)
  {
    Query(at.ep, Bound(Peer(d, at.dir), exact, cidr), d[23], if Ported(d) then Port(d, 36) else 0, at.dir, at.gen)
  }

  // ---- the verdict ----

  lemma AddressIs(d: Bytes, off: nat)
    requires off + 4 <= |d|
    ensures Be32(d, off) == Address(d, off)
  {
  }

  /** What the program loads is what the bytes say. */
  lemma Loads(d: Bytes, exact: map<U32, U32>, cidr: U32 -> Option<U32>, at: Place)
    ensures Load(d).Some? <==> Readable(d)
    ensures Readable(d) ==>
      Reverse(Load(d).value) == Exchanged(FlowOf(d))
      && Ask(Load(d).value, exact, cidr, at.ep, at.dir, at.gen) == Question(d, exact, cidr, at)
  {
    if |d| >= 34 {
      AddressIs(d, 26);
      AddressIs(d, 30);
    }
  }

  /** A frame passes as a reply exactly when the flow it answers is tracked; otherwise its verdict is what the
      endpoint's rules mean for the peer at the other end of it. */
  lemma FrameVerdict(d: Bytes, pct: set<Flow>, exact: map<U32, U32>, cidr: U32 -> Option<U32>, t: Table,
      rules: seq<Rule>, at: Place)
    requires NoneHere(t, at.ep, at.dir, at.gen)
    ensures var denied := Denied(d, pct, exact, cidr, Install(t, at.ep, at.dir, at.gen, rules), at);
      if !Readable(d) then denied == None
      else if Exchanged(FlowOf(d)) in pct then denied == Some(false)
      else denied.Some? && (denied.value <==> Meant(Live(rules), Question(d, exact, cidr, at)))
  {
    Loads(d, exact, cidr, at);
    if Readable(d) {
      VerdictIsMeaning(t, Question(d, exact, cidr, at), rules);
    }
  }

  // ---- flows ----

  /** The flow `pct_track` records of an IPv4 frame. `None` when it records none. */
  function Tracked(d: Bytes): Option<Flow>
  {
    if |d| < 38 || d[14] % 16 != 5 || (d[23] != PROTO_TCP && d[23] != PROTO_UDP) then None
    else
      Some(Flow(Be32(d, 26), Be32(d, 30), FromBe16(d[34], d[35]), FromBe16(d[36], d[37]), d[23]))
  }

  /** `pct_track`, past the EtherType check. A frame cut short of a field is an error, which the caller ignores. */
  method PctTrack(d: Bytes, pct: set<Flow>) returns (after: set<Flow>)
    ensures after == match Tracked(d) case Some(x) => pct + {x} case None => pct
  {
    if |d| < 15 || d[14] % 16 != 5 || |d| < 24 || (d[23] != PROTO_TCP && d[23] != PROTO_UDP) || |d| < 38 {
      return pct;
    }
    return pct + {Flow(Be32(d, 26), Be32(d, 30), FromBe16(d[34], d[35]), FromBe16(d[36], d[37]), d[23])};
  }

  /** A TCP or UDP frame without IP options is recorded, as the flow it belongs to; no other is. */
  lemma TrackedIs(d: Bytes)
    ensures Tracked(d) == if Readable(d) && Ported(d) then Some(FlowOf(d)) else None
  {
    if |d| >= 34 {
      AddressIs(d, 26);
      AddressIs(d, 30);
    }
  }

  /** One direction opens the other: once a frame has been recorded, its answers pass whatever the rules are -
      the frames with its addresses and ports exchanged - and it makes no other frame pass. */
  lemma AnswersPass(d: Bytes, answer: Bytes, pct: set<Flow>, exact: map<U32, U32>, cidr: U32 -> Option<U32>, t: Table,
      at: Place)
    requires Tracked(d).Some? && Readable(answer)
    ensures var before := Denied(answer, pct, exact, cidr, t, at);
      var after := Denied(answer, pct + {Tracked(d).value}, exact, cidr, t, at);
      after == if FlowOf(answer) == Exchanged(FlowOf(d)) then Some(false) else before
  {
    TrackedIs(d);
    Loads(answer, exact, cidr, at);
  }
}
