/** Every customer that may have the frame gets it once; nobody else gets it at all. */
module EvpnDelivery {
  import opened Packet
  import opened Wrappers
  import opened EsBits
  import opened Flood
  import opened Mpls
  import opened MplsRoundTrip
  import opened EvpnNet
  import opened NodeWalk

  // ---- one pair of PEs ----

  /** The role of the one slot toward `t` that takes a frame from `iif`. */
  function Chosen(s: Site, t: Site, iif: Port): Role
  {
    if iif in s.bridge.leaves && t.leafLabel then ForLeaves
    else if iif in s.segOf && Shared(s, t, s.segOf[iif]) then ForSegment(s.segOf[iif])
    else Plain
  }

  /** A slot's copy is decided by its affinity row alone. */
  lemma SlotFilter(s: Site, iif: Port, p: Port)
    requires MembersOk(s) && SegmentsOk(s) && LeavesOk(s) && iif in s.acs && p in s.bridge.repl
    ensures Copied(s.bridge, iif, false, {}, p) <==>
      Affinity(RowOf(s.bridge.slotEs, p), InEs(s.bridge, iif), iif in s.bridge.leaves)
  {
    assert p !in s.acs && p != iif;
    assert p !in s.bridge.nonDf && p !in s.bridge.leaves;
  }

  lemma RowChoice(s: Site, t: Site, iif: Port, p: Port, r: Role)
    requires SegmentsOk(s) && p in s.bridge.repl && RoleOk(s, t, r) && RowOk(s, t, p, r)
    ensures Affinity(RowOf(s.bridge.slotEs, p), InEs(s.bridge, iif), iif in s.bridge.leaves) <==> r == Chosen(s, t, iif)
  {
    var row := RowOf(s.bridge.slotEs, p);
    if iif in s.segOf {
      assert InEs(s.bridge, iif) == s.idOf[s.segOf[iif]] + 1;
      assert s.idOf[s.segOf[iif]] % 64 == s.idOf[s.segOf[iif]];
    }
    match r
    case Plain =>
    case ForSegment(seg) => assert row.only == s.idOf[seg] + 1;
    case ForLeaves =>
  }

  lemma SlotChoice(s: Site, t: Site, iif: Port, p: Port)
    requires MembersOk(s) && SegmentsOk(s) && LeavesOk(s) && iif in s.acs
    requires p in s.bridge.repl && p in s.role && RoleOk(s, t, s.role[p]) && RowOk(s, t, p, s.role[p])
    ensures Copied(s.bridge, iif, false, {}, p) <==> s.role[p] == Chosen(s, t, iif)
  {
    SlotFilter(s, iif, p);
    RowChoice(s, t, iif, p, s.role[p]);
  }

  function BitsOf(t: Site, r: Role): set<nat>
  {
    match r
    case Plain => {}
    case ForSegment(seg) => if seg in t.idOf then {t.idOf[seg]} else {}
    case ForLeaves => {LEAF_BIT}
  }

  lemma SlotBits(s: Site, t: Site, p: Port)
    requires SegmentsOk(t) && p in s.bridge.repl && p in s.role && RoleOk(s, t, s.role[p]) && RowOk(s, t, p, s.role[p])
    ensures ExtraBits(t.mpls, s.bridge.repl[p].extra) == Some(BitsOf(t, s.role[p]))
  {
  }

  /** May a customer behind this port have the frame from here? Its Designated Forwarder's port may, unless it is the
      sender's own segment, or both are leaves. */
  predicate Gets(net: Net, a: nat, iif: Port, b: nat, q: Port)
    requires a < |net| && b < |net|
  {
    && q !in net[b].bridge.nonDf && CeOf(net, a, iif) != CeOf(net, b, q)
    && !(iif in net[a].bridge.leaves && q in net[b].bridge.leaves)
  }

  predicate SameRole(s: Site, iif: Port, t: Site, q: Port)
  {
    iif in s.segOf && q in t.segOf && s.segOf[iif] == t.segOf[q] ==> (iif in s.bridge.leaves <==> q in t.bridge.leaves)
  }

  /** What keeps an overlay copy with the bits of a role off a forwarding port. */
  predicate Withheld(t: Site, r: Role, q: Port)
    requires q in t.segOf ==> t.segOf[q] in t.idOf
  {
    match r
    case Plain => false
    case ForSegment(seg) => q in t.segOf && t.segOf[q] == seg
    case ForLeaves => q in t.bridge.leaves
  }

  lemma RemoteFilter(t: Site, r: Role, q: Port)
    requires SegmentsOk(t) && MembersOk(t) && q in t.acs && t.bridge.slotEs.Keys <= t.bridge.repl.Keys
    requires r.ForSegment? ==> r.seg in t.idOf
    ensures Copied(t.bridge, t.underlay, true, BitsOf(t, r), q) <==> q !in t.bridge.nonDf && !Withheld(t, r, q)
  {
    assert q !in t.bridge.repl && q != t.underlay;
    if q in t.segOf {
      assert t.idOf[t.segOf[q]] % 64 == t.idOf[t.segOf[q]];
    }
  }

  lemma WithheldMeans(s: Site, t: Site, iif: Port, q: Port)
    requires q in t.segOf ==> t.segOf[q] in t.idOf
    requires iif in s.segOf ==> s.segOf[iif] in s.idOf
    requires (q in t.bridge.leaves ==> t.leafLabel) && SameRole(s, iif, t, q)
    ensures Withheld(t, Chosen(s, t, iif), q) <==>
      (iif in s.segOf && q in t.segOf && s.segOf[iif] == t.segOf[q]) || (iif in s.bridge.leaves && q in t.bridge.leaves)
  {
  }

  lemma RemotePort(net: Net, a: nat, iif: Port, b: nat, q: Port)
    requires a < |net| && b < |net| && a != b && q in net[b].acs
    requires SegmentsOk(net[a]) && SegmentsOk(net[b]) && MembersOk(net[b]) && LeavesOk(net[b])
    requires net[b].bridge.slotEs.Keys <= net[b].bridge.repl.Keys && SameRole(net[a], iif, net[b], q)
    ensures Copied(net[b].bridge, net[b].underlay, true, BitsOf(net[b], Chosen(net[a], net[b], iif)), q) <==>
      Gets(net, a, iif, b, q)
  {
    RemoteFilter(net[b], Chosen(net[a], net[b], iif), q);
    WithheldMeans(net[a], net[b], iif, q);
  }

  lemma LocalPort(net: Net, a: nat, iif: Port, q: Port)
    requires a < |net| && iif in net[a].acs && q in net[a].acs
    requires SegmentsOk(net[a]) && MembersOk(net[a]) && net[a].bridge.slotEs.Keys <= net[a].bridge.repl.Keys
    ensures Copied(net[a].bridge, iif, false, {}, q) <==> Gets(net, a, iif, a, q)
  {
  }

  /** No overlay copy leaves by a replication slot. */
  lemma NeverBack(b: Bridge, iif: Port, esBits: set<nat>, p: Port)
    requires p in b.repl
    ensures !Copied(b, iif, true, esBits, p)
  {
  }

  // ---- the ports a flood reaches ----

  lemma FloodedAre(s: Site, iif: Port, localOnly: bool, esBits: set<nat>, p: Port)
    requires MembersOk(s)
    ensures p in Flooded(s.bridge, iif, localOnly, esBits) <==>
      p in s.acs + s.bridge.repl.Keys && Copied(s.bridge, iif, localOnly, esBits, p)
    ensures Distinct(Flooded(s.bridge, iif, localOnly, esBits))
  {
    CopiesAre(s.bridge, iif, localOnly, esBits, s.bridge.count, p);
    CopiesDistinct(s.bridge, iif, localOnly, esBits, s.bridge.count);
    if p in s.acs + s.bridge.repl.Keys {
      assert p in s.bridge.members.Values;
      var i :| i in s.bridge.members && s.bridge.members[i] == p;
      assert 0 <= i < s.bridge.count;
    }
  }

  lemma {:induction false} FatesHave(net: Net, a: nat, copies: seq<Port>, frame: Bytes, c: Copy)
    requires a < |net|
    ensures c in Fates(net, a, copies, frame) <==> exists p :: p in copies && c in Fate(net, a, p, frame)
  {
    if copies != [] {
      FatesHave(net, a, copies[1..], frame, c);
      assert forall p :: p in copies <==> p == copies[0] || p in copies[1..];
    }
  }

  lemma TaggedHas(b: nat, ports: seq<Port>, frame: Bytes, c: Copy)
    ensures c in Tagged(b, ports, frame) <==> c.pe == b && c.frame == frame && c.port in ports
  {
    var cs := Tagged(b, ports, frame);
    if c.pe == b && c.frame == frame && c.port in ports {
      var i :| 0 <= i < |ports| && ports[i] == c.port;
      assert cs[i] == c;
    }
  }

  lemma PortsDistinct(s: Site, frame: Bytes, iif: Port, fromOverlay: bool, esBits: set<nat>)
    requires MembersOk(s) && |frame| >= 6
    ensures Distinct(Ports(Switching(s, frame, iif, fromOverlay, esBits)))
  {
    FloodedAre(s, iif, fromOverlay, esBits, 0);
  }

  lemma RemoteDistinct(net: Net, b: nat, d: Bytes)
    requires b < |net| && MembersOk(net[b])
    ensures Distinct(Remote(net, b, d))
  {
    match Disposition(d, net[b].mpls, MAX_LABELS + 1)
    case Out(Bridge(_, bits), inner) =>
      if |inner| >= 6 {
        PortsDistinct(net[b], inner, net[b].underlay, true, bits);
      }
    case _ =>
  }

  lemma FateDistinct(net: Net, a: nat, p: Port, frame: Bytes)
    requires a < |net|
    requires p in net[a].bridge.repl ==>
      net[a].bridge.repl[p].pe < |net| && MembersOk(net[net[a].bridge.repl[p].pe])
    ensures Distinct(Fate(net, a, p, frame))
  {
    if p in net[a].bridge.repl && p in net[a].transport && net[a].transport[p].adj.macs.Some?
      && |net[a].transport[p].adj.macs.value| == 12
    {
      var target, via := net[a].bridge.repl[p], net[a].transport[p];
      var sent := Encap(frame, Some(via.adj), target.service, target.extra);
      if sent.Out? && Walk(SendOn, sent.frame, via.path).Some? {
        RemoteDistinct(net, target.pe, Walk(SendOn, sent.frame, via.path).value);
      }
    } else if p in net[a].bridge.repl && p in net[a].transport && net[a].transport[p].adj.macs == None {
      var target, via := net[a].bridge.repl[p], net[a].transport[p];
      var sent := Encap(frame, Some(via.adj), target.service, target.extra);
      if Walk(SendOn, sent.frame, via.path).Some? {
        RemoteDistinct(net, target.pe, Walk(SendOn, sent.frame, via.path).value);
      }
    }
  }

  /** A frame this PE floods: to a group, or to a station it has not learned on a port of its own. */
  predicate Floods(s: Site, frame: Bytes)
  {
    Multicast(frame) || (|frame| >= ETH_LEN && frame[0] % 2 == 0 && Unlearned(s, frame))
  }

  /** It is flooded, on a port that is not a standby one and on every overlay arrival. */
  lemma BumFloods(s: Site, frame: Bytes, iif: Port, fromOverlay: bool, esBits: set<nat>)
    requires Floods(s, frame) && (fromOverlay || iif !in s.bridge.blocked)
    ensures Switching(s, frame, iif, fromOverlay, esBits) == Flooding(Flooded(s.bridge, iif, fromOverlay, esBits))
  {
    var dst := frame[..6];
    assert dst[..5][0] == dst[0];
    FloodsUnlearned(s.bridge, dst, if dst in s.stations then Some(s.stations[dst]) else None, iif, fromOverlay, esBits);
  }

  // ---- one PE toward another ----

  lemma ChosenExists(s: Site, t: Site, b: nat, iif: Port) returns (p: Port)
    requires SlotsOk(s, t, b)
    ensures HasRole(s, p, b, Chosen(s, t, iif))
  {
    p :| HasRole(s, p, b, Chosen(s, t, iif));
  }

  /** A slot toward a PE, as the control plane set it up. */
  predicate SlotOk(s: Site, t: Site, b: nat, p: Port)
  {
    Toward(s, p, b) && p in s.role && RoleOk(s, t, s.role[p]) && RowOk(s, t, p, s.role[p]) && Reaches(s, t, p)
  }

  /** The copy a slot makes arrives at its PE unchanged, in the PE's domain and with the bits the slot's role
      stands for, whatever its path pops on the way. */
  lemma CopyArrives(s: Site, t: Site, b: nat, p: Port, frame: Bytes)
    requires SegmentsOk(t) && SlotOk(s, t, b, p) && |frame| >= ETH_LEN
    ensures var sent := Encap(frame, Some(s.transport[p].adj), s.bridge.repl[p].service, s.bridge.repl[p].extra);
      && sent.Out?
      && var at := Walk(SendOn, sent.frame, s.transport[p].path);
      && at.Some?
      && Disposition(at.value, t.mpls, MAX_LABELS + 1) == Out(Verdict.Bridge(t.domain, BitsOf(t, s.role[p])), frame)
  {
    var target, via := s.bridge.repl[p], s.transport[p];
    SlotBits(s, t, p);
    EvpnRoundTrip(frame, via.adj, target.service, target.extra, via.path, t.mpls, t.domain);
  }

  /** So what becomes of it is the far PE's switching of the frame. */
  lemma FarSwitching(net: Net, a: nat, b: nat, p: Port, frame: Bytes)
    requires a < |net| && b < |net| && SegmentsOk(net[b]) && SlotOk(net[a], net[b], b, p) && |frame| >= ETH_LEN
    ensures Fate(net, a, p, frame) ==
      Tagged(b, Ports(Switching(net[b], frame, net[b].underlay, true, BitsOf(net[b], net[a].role[p]))), frame)
  {
    CopyArrives(net[a], net[b], b, p, frame);
  }

  /** A copy at each port, if it floods it. */
  lemma SlotFate(net: Net, a: nat, b: nat, p: Port, frame: Bytes)
    requires a < |net| && b < |net| && SegmentsOk(net[b]) && SlotOk(net[a], net[b], b, p) && Floods(net[b], frame)
    ensures Fate(net, a, p, frame) ==
      Tagged(b, Flooded(net[b].bridge, net[b].underlay, true, BitsOf(net[b], net[a].role[p])), frame)
  {
    FarSwitching(net, a, b, p, frame);
    BumFloods(net[b], frame, net[b].underlay, true, BitsOf(net[b], net[a].role[p]));
  }

  /** The chosen slot's copy becomes a copy at each port of the far PE that gets the frame. */
  lemma FromSlot(net: Net, a: nat, iif: Port, b: nat, p: Port, frame: Bytes, c: Copy)
    requires a < |net| && b < |net| && a != b && SiteOk(net, a) && SiteOk(net, b) && Floods(net[b], frame)
    requires SlotOk(net[a], net[b], b, p) && net[a].role[p] == Chosen(net[a], net[b], iif)
    requires c.port in net[b].acs ==> SameRole(net[a], iif, net[b], c.port)
    ensures c in Fate(net, a, p, frame) <==>
      c.pe == b && c.frame == frame && c.port in net[b].acs && Gets(net, a, iif, b, c.port)
  {
    var t, bits := net[b], BitsOf(net[b], Chosen(net[a], net[b], iif));
    SlotFate(net, a, b, p, frame);
    TaggedHas(b, Flooded(t.bridge, t.underlay, true, bits), frame, c);
    FloodedAre(t, t.underlay, true, bits, c.port);
    if c.port in t.acs {
      RemotePort(net, a, iif, b, c.port);
    } else if c.port in t.bridge.repl {
      NeverBack(t.bridge, t.underlay, bits, c.port);
    }
  }

  /** Where a copy ends up tells the port it was made for. */
  lemma FatePlace(net: Net, a: nat, p: Port, frame: Bytes, c: Copy)
    requires a < |net| && c in Fate(net, a, p, frame)
    ensures if p in net[a].bridge.repl then c.pe == net[a].bridge.repl[p].pe && c.pe < |net| else c == Copy(a, p, frame)
  {
  }

  /** Toward each PE at most one copy is made, by the chosen slot. */
  lemma OneSlot(net: Net, a: nat, iif: Port, b: nat, p: Port)
    requires a < |net| && b < |net| && a != b && SiteOk(net, a) && iif in net[a].acs && Toward(net[a], p, b)
    ensures SlotOk(net[a], net[b], b, p)
    ensures p in Flooded(net[a].bridge, iif, false, {}) <==> net[a].role[p] == Chosen(net[a], net[b], iif)
  {
    assert SlotsOk(net[a], net[b], b);
    FloodedAre(net[a], iif, false, {}, p);
    SlotChoice(net[a], net[b], iif, p);
  }

  lemma AlikeRoles(net: Net, a: nat, p: Port, b: nat, q: Port)
    requires NetOk(net) && a < |net| && b < |net|
    ensures SameRole(net[a], p, net[b], q)
  {
    if p in net[a].segOf && q in net[b].segOf && net[a].segOf[p] == net[b].segOf[q] {
      assert On(net, a, p, net[a].segOf[p]) && On(net, b, q, net[a].segOf[p]);
    }
  }

  // ---- the whole network ----

  /** A customer sends a frame that its PE floods into an attachment port that is not a standby one. */
  predicate Sends(net: Net, a: nat, iif: Port, frame: Bytes)
  {
    a < |net| && iif in net[a].acs && iif !in net[a].bridge.blocked && Floods(net[a], frame)
  }

  lemma BroadcastIs(net: Net, a: nat, iif: Port, frame: Bytes)
    requires Sends(net, a, iif, frame)
    ensures Broadcast(net, a, iif, frame) == Fates(net, a, Flooded(net[a].bridge, iif, false, {}), frame)
  {
    BumFloods(net[a], frame, iif, false, {});
  }

  lemma LocalCopy(net: Net, a: nat, iif: Port, frame: Bytes, c: Copy)
    requires NetOk(net) && Sends(net, a, iif, frame) && c.pe == a
    ensures c in Broadcast(net, a, iif, frame) <==>
      c.frame == frame && c.port in net[a].acs && Gets(net, a, iif, a, c.port)
  {
    assert SiteOk(net, a);
    var copies := Flooded(net[a].bridge, iif, false, {});
    BroadcastIs(net, a, iif, frame);
    FatesHave(net, a, copies, frame, c);
    FloodedAre(net[a], iif, false, {}, c.port);
    if c.port in net[a].acs {
      LocalPort(net, a, iif, c.port);
      assert c.port in copies && c.frame == frame ==> c in Fate(net, a, c.port, frame);
    }
    forall p | p in copies && c in Fate(net, a, p, frame) ensures p == c.port && p in net[a].acs && c.frame == frame {
      FatePlace(net, a, p, frame, c);
      FloodedAre(net[a], iif, false, {}, p);
    }
  }

  lemma OverlayCopy(net: Net, a: nat, iif: Port, frame: Bytes, c: Copy)
    requires NetOk(net) && Sends(net, a, iif, frame) && c.pe != a && c.pe < |net| && Floods(net[c.pe], frame)
    ensures c in Broadcast(net, a, iif, frame) <==>
      c.frame == frame && c.port in net[c.pe].acs && Gets(net, a, iif, c.pe, c.port)
  {
    var b := c.pe;
    assert SiteOk(net, a) && SiteOk(net, b) && SlotsOk(net[a], net[b], b);
    var copies := Flooded(net[a].bridge, iif, false, {});
    BroadcastIs(net, a, iif, frame);
    FatesHave(net, a, copies, frame, c);
    AlikeRoles(net, a, iif, b, c.port);
    forall p | p in copies && c in Fate(net, a, p, frame)
      ensures c.frame == frame && c.port in net[b].acs && Gets(net, a, iif, b, c.port)
    {
      FatePlace(net, a, p, frame, c);
      FloodedAre(net[a], iif, false, {}, p);
      OneSlot(net, a, iif, b, p);
      FromSlot(net, a, iif, b, p, frame, c);
    }
    var p := ChosenExists(net[a], net[b], b, iif);
    OneSlot(net, a, iif, b, p);
    FromSlot(net, a, iif, b, p, frame, c);
  }

  /** The copies are the frame sent, at attachment ports - never a replication slot again - and exactly at the
      forwarding ports of customers that may have it. */
  lemma CopyReaches(net: Net, a: nat, iif: Port, frame: Bytes, c: Copy)
    requires NetOk(net) && Sends(net, a, iif, frame) && Bum(net, frame)
    ensures c in Broadcast(net, a, iif, frame) <==>
      c.frame == frame && c.pe < |net| && c.port in net[c.pe].acs && Gets(net, a, iif, c.pe, c.port)
  {
    if c.pe == a {
      LocalCopy(net, a, iif, frame, c);
    } else if c.pe < |net| {
      OverlayCopy(net, a, iif, frame, c);
    } else {
      BroadcastIs(net, a, iif, frame);
      FatesHave(net, a, Flooded(net[a].bridge, iif, false, {}), frame, c);
      forall p | c in Fate(net, a, p, frame) ensures false {
        FatePlace(net, a, p, frame, c);
      }
    }
  }

  // ---- no copy twice ----

  lemma DistinctConcat<T>(x: seq<T>, y: seq<T>)
    requires Distinct(x) && Distinct(y) && forall c :: !(c in x && c in y)
    ensures Distinct(x + y)
  {
    var z := x + y;
    forall i, j | 0 <= i < j < |z| ensures z[i] != z[j] {
      if i < |x| <= j {
        assert z[i] in x && z[j] in y;
      }
    }
  }

  ghost predicate Apart(net: Net, a: nat, copies: seq<Port>)
    requires a < |net|
  {
    && Distinct(copies)
    && (forall p | p in copies && p in net[a].bridge.repl ::
          net[a].bridge.repl[p].pe != a && net[a].bridge.repl[p].pe < |net| && MembersOk(net[net[a].bridge.repl[p].pe]))
    && (forall p, q | p in copies && q in copies && p in net[a].bridge.repl && q in net[a].bridge.repl
          && net[a].bridge.repl[p].pe == net[a].bridge.repl[q].pe :: p == q)
  }

  lemma {:induction false} FatesDistinct(net: Net, a: nat, copies: seq<Port>, frame: Bytes)
    requires a < |net| && Apart(net, a, copies)
    ensures Distinct(Fates(net, a, copies, frame))
  {
    if copies != [] {
      var p, rest := copies[0], copies[1..];
      assert p in copies;
      assert forall q | q in rest :: q in copies && q != p;
      FatesDistinct(net, a, rest, frame);
      FateDistinct(net, a, p, frame);
      forall c ensures !(c in Fate(net, a, p, frame) && c in Fates(net, a, rest, frame)) {
        FatesHave(net, a, rest, frame, c);
        if c in Fate(net, a, p, frame) && c in Fates(net, a, rest, frame) {
          var q :| q in rest && c in Fate(net, a, q, frame);
          FatePlace(net, a, p, frame, c);
          FatePlace(net, a, q, frame, c);
          assert false;
        }
      }
      DistinctConcat(Fate(net, a, p, frame), Fates(net, a, rest, frame));
    }
  }

  lemma BroadcastDistinct(net: Net, a: nat, iif: Port, frame: Bytes)
    requires NetOk(net) && Sends(net, a, iif, frame)
    ensures Distinct(Broadcast(net, a, iif, frame))
  {
    assert SiteOk(net, a);
    var copies := Flooded(net[a].bridge, iif, false, {});
    FloodedAre(net[a], iif, false, {}, 0);
    forall p | p in copies && p in net[a].bridge.repl
      ensures net[a].bridge.repl[p].pe != a && net[a].bridge.repl[p].pe < |net|
      ensures MembersOk(net[net[a].bridge.repl[p].pe])
    {
      assert SiteOk(net, net[a].bridge.repl[p].pe);
    }
    forall p, q | p in copies && q in copies && p in net[a].bridge.repl && q in net[a].bridge.repl
                  && net[a].bridge.repl[p].pe == net[a].bridge.repl[q].pe
      ensures p == q
    {
      var b := net[a].bridge.repl[p].pe;
      OneSlot(net, a, iif, b, p);
      OneSlot(net, a, iif, b, q);
      assert SlotsOk(net[a], net[b], b);
    }
    BroadcastIs(net, a, iif, frame);
    FatesDistinct(net, a, copies, frame);
  }

  lemma {:induction false} TimesNone(net: Net, cs: seq<Copy>, ce: Ce)
    requires forall c | c in cs && c.pe < |net| :: CeOf(net, c.pe, c.port) != ce
    ensures Times(net, cs, ce) == 0
  {
    if cs != [] {
      assert cs[0] in cs;
      TimesNone(net, cs[1..], ce);
    }
  }

  lemma {:induction false} TimesOne(net: Net, cs: seq<Copy>, ce: Ce, x: Copy)
    requires Distinct(cs) && x in cs && x.pe < |net| && CeOf(net, x.pe, x.port) == ce
    requires forall c | c in cs && c.pe < |net| && CeOf(net, c.pe, c.port) == ce :: c == x
    ensures Times(net, cs, ce) == 1
  {
    assert cs[0] in cs;
    if cs[0] == x {
      forall c | c in cs[1..] && c.pe < |net| ensures CeOf(net, c.pe, c.port) != ce {
        assert c in cs;
      }
      TimesNone(net, cs[1..], ce);
    } else {
      assert Distinct(cs[1..]);
      TimesOne(net, cs[1..], ce, x);
    }
  }

  /** The one forwarding port of a customer. */
  predicate ForwardsFor(net: Net, b: nat, q: Port, d: nat, r: Port)
    requires b < |net|
  {
    d < |net| && r in net[d].acs && r !in net[d].bridge.nonDf && CeOf(net, d, r) == CeOf(net, b, q)
  }

  lemma ForwardingPort(net: Net, b: nat, q: Port) returns (d: nat, r: Port)
    requires NetOk(net) && b < |net| && q in net[b].acs
    ensures ForwardsFor(net, b, q, d, r) && (q in net[b].bridge.leaves <==> r in net[d].bridge.leaves)
    ensures forall e: nat, p: Port | ForwardsFor(net, b, q, e, p) :: e == d && p == r
  {
    assert SiteOk(net, b);
    if q in net[b].segOf {
      var seg := net[b].segOf[q];
      assert On(net, b, q, seg);
      d, r :| Forwards(net, d, r, seg);
      assert SiteOk(net, d) && On(net, d, r, seg);
      forall e: nat, p: Port | ForwardsFor(net, b, q, e, p) ensures e == d && p == r {
        assert Forwards(net, e, p, seg);
      }
    } else {
      d, r := b, q;
    }
  }

  /** BUM delivery. A broadcast or multicast frame that a customer sends into any PE, or one to a station that no
      PE has learned, reaches every other customer of the domain exactly once - but no leaf if the sender is a
      leaf - and never the sender's own segment; what anybody gets is that frame, byte for byte. */
  lemma BumDelivery(net: Net, a: nat, iif: Port, frame: Bytes, b: nat, q: Port)
    requires NetOk(net) && Sends(net, a, iif, frame) && Bum(net, frame) && b < |net| && q in net[b].acs
    ensures var bothLeaves := iif in net[a].bridge.leaves && q in net[b].bridge.leaves;
      Times(net, Broadcast(net, a, iif, frame), CeOf(net, b, q)) ==
        if CeOf(net, b, q) == CeOf(net, a, iif) || bothLeaves then 0 else 1
    ensures forall c | c in Broadcast(net, a, iif, frame) :: c.frame == frame
  {
    var ce, cs := CeOf(net, b, q), Broadcast(net, a, iif, frame);
    var d, r := ForwardingPort(net, b, q);
    var x := Copy(d, r, frame);
    forall c | c in cs ensures c.frame == frame {
      CopyReaches(net, a, iif, frame, c);
    }
    forall c | c in cs && c.pe < |net| && CeOf(net, c.pe, c.port) == ce ensures c == x && Gets(net, a, iif, d, r) {
      CopyReaches(net, a, iif, frame, c);
      assert ForwardsFor(net, b, q, c.pe, c.port);
    }
    CopyReaches(net, a, iif, frame, x);
    if x in cs {
      BroadcastDistinct(net, a, iif, frame);
      TimesOne(net, cs, ce, x);
    } else {
      TimesNone(net, cs, ce);
    }
  }

  /** Nothing that crossed the overlay is flooded back into it: every copy in the end is at an attachment
      port. */
  lemma NeverReflooded(net: Net, a: nat, iif: Port, frame: Bytes)
    requires NetOk(net) && Sends(net, a, iif, frame) && Bum(net, frame)
    ensures forall c | c in Broadcast(net, a, iif, frame) ::
      c.pe < |net| && c.port in net[c.pe].acs && c.port !in net[c.pe].bridge.repl
  {
    forall c | c in Broadcast(net, a, iif, frame)
      ensures c.pe < |net| && c.port in net[c.pe].acs && c.port !in net[c.pe].bridge.repl
    {
      CopyReaches(net, a, iif, frame, c);
      assert SiteOk(net, c.pe);
    }
  }

  // ---- stations ----

  /** The port of its own on which the PE has learned the frame's destination. */
  predicate Learned(s: Site, frame: Bytes, oif: Port)
  {
    |frame| >= ETH_LEN && frame[0] % 2 == 0 && frame[..6] in s.stations
    && s.stations[frame[..6]] == Station(oif, false) && oif in s.acs
  }

  /** Known unicast: the port alone, from wherever it comes - unless it is the sender's own, both are leaves, or
      either is a standby port. */
  lemma UnicastDelivery(net: Net, a: nat, iif: Port, frame: Bytes, oif: Port)
    requires a < |net| && MembersOk(net[a]) && Learned(net[a], frame, oif)
    ensures var b := net[a].bridge;
      var withheld := oif == iif || (iif in b.leaves && oif in b.leaves) || iif in b.blocked || oif in b.blocked;
      Broadcast(net, a, iif, frame) == if withheld then [] else [Copy(a, oif, frame)]
  {
    SendsLearned(net[a].bridge, frame[..6], net[a].stations[frame[..6]], iif, false, {});
    assert Fates(net, a, [], frame) == [];
    assert [oif][1..] == [];
    assert Fates(net, a, [oif], frame) == Fate(net, a, oif, frame) + Fates(net, a, [], frame);
  }

  lemma LeafBit(t: Site, r: Role)
    requires SegmentsOk(t)
    ensures 63 in BitsOf(t, r) <==> r == ForLeaves
  {
  }

  /** What a PE makes of an overlay copy whose station it knows: that port alone, unless a leaf sends to a leaf or it
      is a standby port. */
  lemma LearnedPorts(t: Site, frame: Bytes, oif: Port, bits: set<nat>)
    requires MembersOk(t) && Learned(t, frame, oif)
    ensures Ports(Switching(t, frame, t.underlay, true, bits)) ==
      if (63 in bits && oif in t.bridge.leaves) || oif in t.bridge.blocked then [] else [oif]
  {
    SendsLearned(t.bridge, frame[..6], t.stations[frame[..6]], t.underlay, true, bits);
    assert t.underlay !in t.acs;
  }

  lemma LearnedFate(net: Net, a: nat, iif: Port, b: nat, p: Port, frame: Bytes, oif: Port)
    requires a < |net| && b < |net| && SegmentsOk(net[b]) && MembersOk(net[b]) && LeavesOk(net[b])
    requires SlotOk(net[a], net[b], b, p) && net[a].role[p] == Chosen(net[a], net[b], iif)
    requires Learned(net[b], frame, oif)
    ensures Fate(net, a, p, frame) == if Withholds(net, a, iif, b, oif) then [] else [Copy(b, oif, frame)]
  {
    FarSwitching(net, a, b, p, frame);
    LeafBit(net[b], net[a].role[p]);
    LearnedPorts(net[b], frame, oif, BitsOf(net[b], net[a].role[p]));
    assert Tagged(b, [oif], frame) == [Copy(b, oif, frame)] && Tagged(b, [], frame) == [];
  }

  predicate Withholds(net: Net, a: nat, iif: Port, b: nat, oif: Port)
    requires a < |net| && b < |net|
  {
    (iif in net[a].bridge.leaves && oif in net[b].bridge.leaves) || oif in net[b].bridge.blocked
  }

  /** A frame one PE floods and another knows the station of: there it goes to the station's port alone. What the
      others do with their copies does not matter to it. */
  lemma LearnedCopy(net: Net, a: nat, iif: Port, frame: Bytes, oif: Port, c: Copy)
    requires NetOk(net) && Sends(net, a, iif, frame) && c.pe != a && c.pe < |net| && Learned(net[c.pe], frame, oif)
    ensures c in Broadcast(net, a, iif, frame) <==>
      c == Copy(c.pe, oif, frame) && !Withholds(net, a, iif, c.pe, oif)
  {
    var b := c.pe;
    assert SiteOk(net, a) && SiteOk(net, b) && SlotsOk(net[a], net[b], b);
    var copies := Flooded(net[a].bridge, iif, false, {});
    BroadcastIs(net, a, iif, frame);
    FatesHave(net, a, copies, frame, c);
    forall p | p in copies && c in Fate(net, a, p, frame) ensures p in net[a].bridge.repl && Toward(net[a], p, b) {
      FatePlace(net, a, p, frame, c);
    }
    forall p | p in copies && Toward(net[a], p, b)
      ensures SlotOk(net[a], net[b], b, p) && net[a].role[p] == Chosen(net[a], net[b], iif)
    {
      OneSlot(net, a, iif, b, p);
    }
    var p := ChosenExists(net[a], net[b], b, iif);
    OneSlot(net, a, iif, b, p);
    LearnedFate(net, a, iif, b, p, frame, oif);
    forall r | r in copies && c in Fate(net, a, r, frame) ensures r == p {
      assert SlotsOk(net[a], net[b], b);
    }
  }
}
