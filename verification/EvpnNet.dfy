/** EVPN over MPLS across any number of PEs (sections 8.3 and 8.5 of RFC 7432, section 4.2 of RFC 8317): a
    multicast frame flooded by one PE reaches every site it may reach exactly once. */
module EvpnNet {
  import opened Packet
  import opened Wrappers
  import opened EsBits
  import opened Flood
  import opened Mpls
  import opened MplsRoundTrip
  import opened NodeWalk

  /** What a replication slot is for. */
  datatype Role = Plain | ForSegment(seg: nat) | ForLeaves

  /** How a slot's copies travel: the adjacency with its transport labels, and the nodes that pop the first
      of them. */
  datatype Transport = Transport(adj: NextHop, path: seq<Tables>)

  /** A PE: its tables, and what the control plane meant by them. `stations` are the MACs it has learned,
      `segOf` names the Ethernet Segment of an attachment port, `idOf` this PE's id for a segment. */
  datatype Site = Site(
    bridge: Bridge,
    mpls: Tables,
    domain: nat,
    stations: map<Bytes, Station>,
    transport: map<Port, Transport>,
    acs: set<Port>,
    segOf: map<Port, nat>,
    idOf: map<nat, nat>,
    role: map<Port, Role>,
    underlay: Port,
    leafLabel: bool)

  /** A customer: on a segment, or behind one port. */
  datatype Ce = OnSegment(seg: nat) | Single(pe: nat, port: Port)

  type Net = seq<Site>

  function CeOf(net: Net, a: nat, p: Port): Ce
    requires a < |net|
  {
    if p in net[a].segOf then OnSegment(net[a].segOf[p]) else Single(a, p)
  }

  // ---- a well-formed network ----

  /** The domain's members: the attachment ports and the replication slots, at most 64, none twice. */
  predicate MembersOk(s: Site)
  {
    && s.bridge.count <= 64
    && s.bridge.members.Values == s.acs + s.bridge.repl.Keys && s.acs !! s.bridge.repl.Keys
    && (forall i | i in s.bridge.members :: i < s.bridge.count)
    && (forall i, j | i in s.bridge.members && j in s.bridge.members && i != j ::
      s.bridge.members[i] != s.bridge.members[j])
    && s.underlay !in s.acs + s.bridge.repl.Keys
  }

  /** Segment ports: one per segment, under an id of their own of at most 62. */
  predicate SegmentsOk(s: Site)
  {
    && s.segOf.Keys <= s.acs && s.bridge.portEs.Keys == s.segOf.Keys
    && (forall p | p in s.segOf :: s.segOf[p] in s.idOf)
    && (forall p, q | p in s.segOf && q in s.segOf && s.segOf[p] == s.segOf[q] :: p == q)
    && (forall x, y | x in s.idOf && y in s.idOf && s.idOf[x] == s.idOf[y] :: x == y)
    && (forall x | x in s.idOf :: s.idOf[x] <= MAX_ES_ID)
    && (forall p | p in s.segOf :: s.bridge.portEs[p] == s.idOf[s.segOf[p]])
    && s.bridge.nonDf <= s.segOf.Keys
  }

  predicate LeavesOk(s: Site)
  {
    s.bridge.leaves <= s.acs && (s.bridge.leaves != {} ==> s.leafLabel)
  }

  predicate Toward(s: Site, p: Port, b: nat)
  {
    p in s.bridge.repl && s.bridge.repl[p].pe == b
  }

  predicate HasRole(s: Site, p: Port, b: nat, r: Role)
  {
    Toward(s, p, b) && p in s.role && s.role[p] == r
  }

  predicate Shared(s: Site, t: Site, seg: nat)
  {
    seg in s.idOf && seg in t.idOf
  }

  /** A slot's copies reach the PE: its transport labels are popped on the way or there, and its service label
      is the PE's for its domain. */
  predicate Reaches(s: Site, t: Site, p: Port)
  {
    && p in s.bridge.repl && p in s.transport && s.transport[p].adj.macs.Some? && |s.transport[p].adj.macs.value| == 12
    && |s.transport[p].adj.labels| <= MAX_LABELS && Path(s.transport[p].path, s.transport[p].adj.labels)
    && Service(t.mpls, s.bridge.repl[p].service, t.domain)
    && forall i | |s.transport[p].path| <= i < |s.transport[p].adj.labels| ::
      Local(t.mpls, s.transport[p].adj.labels[i])
  }

  /** The slots toward a PE: a plain one, one for each shared segment, one for leaves where the PE has given
      out a leaf label; and no other. */
  ghost predicate SlotsOk(s: Site, t: Site, b: nat)
  {
    && (exists p :: HasRole(s, p, b, Plain))
    && (forall seg | Shared(s, t, seg) :: exists p :: HasRole(s, p, b, ForSegment(seg)))
    && (t.leafLabel ==> exists p :: HasRole(s, p, b, ForLeaves))
    && (forall p | Toward(s, p, b) ::
          p in s.role && RoleOk(s, t, s.role[p]) && RowOk(s, t, p, s.role[p]) && Reaches(s, t, p))
    && (forall p, q | Toward(s, p, b) && Toward(s, q, b) && s.role[p] == s.role[q] :: p == q)
  }

  predicate RoleOk(s: Site, t: Site, r: Role)
  {
    match r
    case Plain => true
    case ForSegment(seg) => Shared(s, t, seg)
    case ForLeaves => t.leafLabel
  }

  /** A slot's affinity row and extra label, as its role says. */
  predicate RowOk(s: Site, t: Site, p: Port, r: Role)
    requires p in s.bridge.repl
  {
    var row, x := RowOf(s.bridge.slotEs, p), s.bridge.repl[p].extra;
    match r
    case Plain =>
      && !row.leafOnly && row.rootOnly == t.leafLabel && row.only == 0
      && (forall seg | seg in s.idOf :: s.idOf[seg] in row.skip <==> Shared(s, t, seg))
      && LabelOf(x) == 0
    case ForSegment(seg) =>
      && !row.leafOnly && row.rootOnly == t.leafLabel && seg in s.idOf && row.only == s.idOf[seg] + 1
      && LabelOf(x) != 0 && LabelOf(x) in t.mpls.esi && seg in t.idOf && t.mpls.esi[LabelOf(x)] == t.idOf[seg]
    case ForLeaves =>
      row.leafOnly && LabelOf(x) != 0 && LabelOf(x) !in t.mpls.esi && LabelOf(x) in t.mpls.leaf
  }

  ghost predicate SiteOk(net: Net, a: nat)
    requires a < |net|
  {
    && MembersOk(net[a]) && SegmentsOk(net[a]) && LeavesOk(net[a])
    && net[a].bridge.slotEs.Keys <= net[a].bridge.repl.Keys
    && (forall p | p in net[a].bridge.repl :: net[a].bridge.repl[p].pe < |net| && net[a].bridge.repl[p].pe != a)
    && (forall b | 0 <= b < |net| && b != a :: SlotsOk(net[a], net[b], b))
  }

  predicate On(net: Net, a: nat, p: Port, seg: nat)
  {
    a < |net| && p in net[a].segOf && net[a].segOf[p] == seg
  }

  predicate Forwards(net: Net, a: nat, p: Port, seg: nat)
  {
    On(net, a, p, seg) && p !in net[a].bridge.nonDf
  }

  /** Every PE is well-formed, a segment has one Designated Forwarder, and its ports have one leaf role. */
  ghost predicate NetOk(net: Net)
  {
    && (forall a | 0 <= a < |net| :: SiteOk(net, a))
    && (forall a: nat, p, seg | On(net, a, p, seg) :: exists b: nat, q :: Forwards(net, b, q, seg))
    && (forall a: nat, p, b: nat, q, seg | Forwards(net, a, p, seg) && Forwards(net, b, q, seg) :: a == b && p == q)
    && (forall a: nat, p, b: nat, q, seg | On(net, a, p, seg) && On(net, b, q, seg) ::
          p in net[a].bridge.leaves <==> q in net[b].bridge.leaves)
  }

  // ---- delivery ----

  /** A frame handed to a port of a PE. */
  datatype Copy = Copy(pe: nat, port: Port, frame: Bytes)

  function Tagged(b: nat, ports: seq<Port>, frame: Bytes): (cs: seq<Copy>)
    ensures |cs| == |ports| && forall i | 0 <= i < |ports| :: cs[i] == Copy(b, ports[i], frame)
  {
    seq(|ports|, i requires 0 <= i < |ports| => Copy(b, ports[i], frame))
  }

  /** The switch's verdict on a frame. */
  function Switching(s: Site, frame: Bytes, iif: Port, fromOverlay: bool, esBits: set<nat>): Switched
    requires |frame| >= 6
  {
    var dst := frame[..6];
    Switch(s.bridge, dst, if dst in s.stations then Some(s.stations[dst]) else None, iif, fromOverlay, esBits)
  }

  /** The ports a switched frame goes to. */
  function Ports(v: Switched): seq<Port>
  {
    match v
    case Flooding(copies) => copies
    case Sent(oif) => [oif]
    case _ => []
  }

  /** What a PE makes of a labeled frame from the underlay: the label stack's disposition, and the switch for a
      frame bridged in the domain. */
  function Remote(net: Net, b: nat, d: Bytes): seq<Copy>
    requires b < |net|
  {
    match Disposition(d, net[b].mpls, MAX_LABELS + 1)
    case Out(Bridge(bd, bits), inner) =>
      if bd == net[b].domain && |inner| >= 6 then
        Tagged(b, Ports(Switching(net[b], inner, net[b].underlay, true, bits)), inner)
      else []
    case _ => []
  }

  /** What becomes of one copy: a local port's own, or, for a replication slot, what the far PE makes of it
      when it has come through the transport. */
  function Fate(net: Net, a: nat, p: Port, frame: Bytes): seq<Copy>
    requires a < |net|
  {
    if p !in net[a].bridge.repl then [Copy(a, p, frame)]
    else if p !in net[a].transport ||
      (net[a].transport[p].adj.macs.Some? && |net[a].transport[p].adj.macs.value| != 12) then []
    else
      var target, via := net[a].bridge.repl[p], net[a].transport[p];
      match Encap(frame, Some(via.adj), target.service, target.extra)
      case Error => []
      case Out(_, d) =>
        match Walk(SendOn, d, via.path)
        case Some(at) => if target.pe < |net| then Remote(net, target.pe, at) else []
        case None => []
  }

  function Fates(net: Net, a: nat, copies: seq<Port>, frame: Bytes): seq<Copy>
    requires a < |net|
  {
    if copies == [] then [] else Fate(net, a, copies[0], frame) + Fates(net, a, copies[1..], frame)
  }

  /** A frame a customer sends into port `iif` of PE `a`, to where it ends. */
  function Broadcast(net: Net, a: nat, iif: Port, frame: Bytes): seq<Copy>
    requires a < |net| && |frame| >= 6
  {
    Fates(net, a, Ports(Switching(net[a], frame, iif, false, {})), frame)
  }

  /** Broadcast or multicast, and no link-local control frame. */
  predicate Multicast(frame: Bytes)
  {
    |frame| >= ETH_LEN && frame[0] % 2 == 1 && !Reserved(frame[..6])
  }

  /** The PE has not learned the destination on a port of its own. */
  predicate Unlearned(s: Site, frame: Bytes)
  {
    |frame| >= 6 && (frame[..6] !in s.stations || s.stations[frame[..6]].remote)
  }

  /** BUM: broadcast, multicast, or unicast to a station that no PE has on a port of its own. */
  predicate Bum(net: Net, frame: Bytes)
  {
    |frame| >= ETH_LEN &&
    (Multicast(frame) || (frame[0] % 2 == 0 && forall b | 0 <= b < |net| :: Unlearned(net[b], frame)))
  }

  /** How many of the copies a customer gets. */
  function Times(net: Net, cs: seq<Copy>, c: Ce): nat
  {
    if cs == [] then 0
    else (if cs[0].pe < |net| && CeOf(net, cs[0].pe, cs[0].port) == c then 1 else 0) + Times(net, cs[1..], c)
  }
}
