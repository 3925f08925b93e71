/** The bridge's flood loop: which member ports of a domain get a copy of a frame. */
module Flood {
  import opened Packet
  import opened Wrappers
  import opened EsBits

  const MAX_L2_MEMBERS := 64

  type Port = nat

  /** A replication slot's affinity: the one segment it serves (id + 1), leaves only, roots only, and the
      segments it does not serve. */
  datatype SlotEs = SlotEs(only: nat, leafOnly: bool, rootOnly: bool, skip: set<nat>)

  /** Where a replication slot's copies go: a PE, its service label, and the ESI or leaf label beside it. */
  datatype Target = Target(pe: nat, service: nat, extra: nat)

  /** The maps one bridge domain's flooding reads. */
  datatype Bridge = Bridge(
    count: nat,
    members: map<nat, Port>,
    portEs: map<Port, nat>,
    nonDf: set<Port>,
    blocked: set<Port>,
    leaves: set<Port>,
    slotEs: map<Port, SlotEs>,
    repl: map<Port, Target>)

  /** The segment a frame entered through, as id + 1. */
  function InEs(b: Bridge, iif: Port): nat
  {
    if iif in b.portEs then b.portEs[iif] + 1 else 0
  }

  predicate Affinity(r: SlotEs, inEs: nat, fromLeaf: bool)
  {
    if r.leafOnly then fromLeaf
    else if fromLeaf && r.rootOnly then false
    else if r.only != 0 then r.only == inEs
    else inEs == 0 || (inEs - 1) % 64 !in r.skip
  }

  /** Does member port `oif` get a copy? */
  predicate Copied(b: Bridge, iif: Port, localOnly: bool, esBits: set<nat>, oif: Port)
  {
    var fromLeaf := !localOnly && iif in b.leaves;
    var fromRemoteLeaf := localOnly && LEAF_BIT in esBits;
    && (oif in b.slotEs ==> Affinity(b.slotEs[oif], InEs(b, iif), fromLeaf))
    && oif != iif
    && !(localOnly && oif in b.repl)
    && oif !in b.nonDf
    && !(fromLeaf && oif in b.leaves)
    && !(fromRemoteLeaf && oif in b.leaves)
    && !(oif in b.portEs && b.portEs[oif] % 64 in esBits)
  }

  /** The copies made for the first `n` slots of the domain, in order. */
  function Copies(b: Bridge, iif: Port, localOnly: bool, esBits: set<nat>, n: nat): seq<Port>
  {
    if n == 0 then []
    else
      var before := Copies(b, iif, localOnly, esBits, n - 1);
      if n - 1 in b.members && Copied(b, iif, localOnly, esBits, b.members[n - 1]) then before + [b.members[n - 1]]
      else before
  }

  function Flooded(b: Bridge, iif: Port, localOnly: bool, esBits: set<nat>): seq<Port>
  {
    Copies(b, iif, localOnly, esBits, if b.count < MAX_L2_MEMBERS then b.count else MAX_L2_MEMBERS)
  }

  /** `flood`: one clone per port returned, in this order. */
  method FloodLoop(b: Bridge, iif: Port, localOnly: bool, esBits: set<nat>) returns (clones: seq<Port>)
    ensures clones == Flooded(b, iif, localOnly, esBits)
  {
    var inEs := if iif in b.portEs then b.portEs[iif] + 1 else 0;
    var fromLeaf := !localOnly && iif in b.leaves;
    var fromRemoteLeaf := localOnly && LEAF_BIT in esBits;
    clones := [];
    var slot := 0;
    while slot < MAX_L2_MEMBERS
      invariant 0 <= slot <= MAX_L2_MEMBERS && (slot <= b.count)
      invariant clones == Copies(b, iif, localOnly, esBits, slot)
    {
      if slot >= b.count {
        break;
      }
      if slot in b.members {
        var oif := b.members[slot];
        var affinityOk := true;
        if oif in b.slotEs {
          var r := b.slotEs[oif];
          if r.leafOnly {
            affinityOk := fromLeaf;
          } else if fromLeaf && r.rootOnly {
            affinityOk := false;
          } else if r.only != 0 {
            affinityOk := r.only == inEs;
          } else {
            affinityOk := inEs == 0 || (inEs - 1) % 64 !in r.skip;
          }
        }
        if affinityOk && oif != iif && !(localOnly && oif in b.repl) {
          if oif in b.nonDf {
          } else if fromLeaf && oif in b.leaves {
          } else if fromRemoteLeaf && oif in b.leaves {
          } else if esBits != {} && oif in b.portEs && b.portEs[oif] % 64 in esBits {
          } else {
            clones := clones + [oif];
          }
        }
      }
      slot := slot + 1;
    }
  }

  // ---- the switch around it ----

  /** A learned station: a port, or a place behind the overlay. */
  datatype Station = Station(oif: Port, remote: bool)

  datatype Switched = ToHost | Shot | Flooding(copies: seq<Port>) | Sent(oif: Port)

  /** IEEE 802.1D reserved group addresses. */
  predicate Reserved(dst: Bytes)
    requires |dst| == 6
  {
    dst[..5] == [0x01, 0x80, 0xc2, 0, 0] && dst[5] / 16 == 0
  }

  /** `l2_switch`, with `known` the destination's station. */
  function Switch(b: Bridge, dst: Bytes, known: Option<Station>, iif: Port, fromOverlay: bool,
      esBits: set<nat>): Switched
    requires |dst| == 6
  {
    if Reserved(dst) then ToHost
    else if !fromOverlay && iif in b.blocked then Shot
    else if dst[0] % 2 == 1 || known == None || known.value.remote then Flooding(Flooded(b, iif, fromOverlay, esBits))
    else
      var oif := known.value.oif;
      if oif == iif then Shot
      else if !fromOverlay && iif in b.leaves && oif in b.leaves then Shot
      else if fromOverlay && LEAF_BIT in esBits && oif in b.leaves then Shot
      else if oif in b.blocked then Shot
      else Sent(oif)
  }

  // ---- what the switch does with a frame ----

  /** The sixteen reserved group addresses, 01-80-c2-00-00-00 to 0f: theirs go to the host and no further. */
  lemma ControlToHost(b: Bridge, dst: Bytes, known: Option<Station>, iif: Port, fromOverlay: bool, esBits: set<nat>)
    requires |dst| == 6
    ensures Reserved(dst) <==> exists x: Byte :: x < 16 && dst == [1, 128, 194, 0, 0, x]
    ensures Switch(b, dst, known, iif, fromOverlay, esBits) == ToHost <==> Reserved(dst)
  {
    if Reserved(dst) {
      assert dst == dst[..5] + [dst[5]];
      assert dst == [1, 128, 194, 0, 0, dst[5]];
    }
  }

  /** A group address, a destination not learned, and one learned behind the overlay are flooded - on every port
      but a standby one. */
  lemma FloodsUnlearned(b: Bridge, dst: Bytes, known: Option<Station>, iif: Port, fromOverlay: bool, esBits: set<nat>)
    requires |dst| == 6 && !Reserved(dst)
    requires dst[0] % 2 == 1 || known == None || known.value.remote
    ensures Switch(b, dst, known, iif, fromOverlay, esBits) ==
      if !fromOverlay && iif in b.blocked then Shot else Flooding(Flooded(b, iif, fromOverlay, esBits))
  {
  }

  /** A station learned on a local port gets the frame at that port alone, and nobody does exactly when that is the
      port it came from, both ends are leaves, or either port is a standby one. */
  lemma SendsLearned(b: Bridge, dst: Bytes, at: Station, iif: Port, fromOverlay: bool, esBits: set<nat>)
    requires |dst| == 6 && dst[0] % 2 == 0 && !at.remote
    ensures var fromLeaf := if fromOverlay then 63 in esBits else iif in b.leaves;
      var withheld := at.oif == iif || (fromLeaf && at.oif in b.leaves) || at.oif in b.blocked
        || (!fromOverlay && iif in b.blocked);
      Switch(b, dst, Some(at), iif, fromOverlay, esBits) == if withheld then Shot else Sent(at.oif)
  {
  }

  // ---- what a flood means ----

  /** A port gets a copy exactly when one of the slots looked at names it and it passes every filter. */
  lemma {:induction false} CopiesAre(b: Bridge, iif: Port, localOnly: bool, esBits: set<nat>, n: nat, p: Port)
    ensures p in Copies(b, iif, localOnly, esBits, n) <==>
      Copied(b, iif, localOnly, esBits, p) && exists i | 0 <= i < n :: i in b.members && b.members[i] == p
  {
    if n > 0 {
      CopiesAre(b, iif, localOnly, esBits, n - 1, p);
      if n - 1 in b.members && b.members[n - 1] == p {
        assert 0 <= n - 1 < n && n - 1 in b.members && b.members[n - 1] == p;
      }
    }
  }

  /** A flood looks at the domain's slots, and at no more than 64 of them. */
  lemma FloodedAt(b: Bridge, iif: Port, localOnly: bool, esBits: set<nat>, p: Port)
    ensures p in Flooded(b, iif, localOnly, esBits) <==>
      Copied(b, iif, localOnly, esBits, p)
      && exists i :: 0 <= i < b.count && i < 64 && i in b.members && b.members[i] == p
  {
    CopiesAre(b, iif, localOnly, esBits, if b.count < MAX_L2_MEMBERS then b.count else MAX_L2_MEMBERS, p);
  }

  /** No port gets two copies when the domain lists none twice. */
  lemma {:induction false} CopiesDistinct(b: Bridge, iif: Port, localOnly: bool, esBits: set<nat>, n: nat)
    requires forall i, j | i in b.members && j in b.members && i != j :: b.members[i] != b.members[j]
    ensures Distinct(Copies(b, iif, localOnly, esBits, n))
  {
    if n > 0 {
      CopiesDistinct(b, iif, localOnly, esBits, n - 1);
      if n - 1 in b.members {
        CopiesAre(b, iif, localOnly, esBits, n - 1, b.members[n - 1]);
      }
    }
  }

  /** An E-Tree leaf never reaches another leaf of its own bridge, and a remote leaf's frame - known unicast,
      unknown or multicast - no local leaf; an overlay frame goes back into no replication slot. */
  lemma SwitchKeepsLeavesApart(b: Bridge, dst: Bytes, known: Option<Station>, iif: Port, fromOverlay: bool,
      esBits: set<nat>, p: Port)
    requires |dst| == 6 && if fromOverlay then LEAF_BIT in esBits else iif in b.leaves
    requires p in b.leaves
    ensures match Switch(b, dst, known, iif, fromOverlay, esBits)
            case Sent(oif) => oif != p
            case Flooding(copies) => p !in copies
            case _ => true
  {
    CopiesAre(b, iif, fromOverlay, esBits, if b.count < MAX_L2_MEMBERS then b.count else MAX_L2_MEMBERS, p);
  }

  // ---- the affinity rows ----

  /** The row of a slot; a slot without one serves everything. */
  function RowOf(m: map<Port, SlotEs>, p: Port): SlotEs
  {
    if p in m then m[p] else SlotEs(0, false, false, {})
  }

  /** `slot_es_set`: an all-zero row is removed. */
  function SlotEsSet(m: map<Port, SlotEs>, p: Port, row: SlotEs): map<Port, SlotEs>
  {
    if row == SlotEs(0, false, false, {}) then m - {p} else m[p := row]
  }

  /** The row set is the row read back, no other row changes, and reading through `RowOf` is what the
      flood loop does with a missing row. */
  lemma RowReadsBack(m: map<Port, SlotEs>, p: Port, row: SlotEs, q: Port, inEs: nat, fromLeaf: bool)
    ensures RowOf(SlotEsSet(m, p, row), q) == if q == p then row else RowOf(m, q)
    ensures p in SlotEsSet(m, p, row) <==> row.only != 0 || row.leafOnly || row.rootOnly || row.skip != {}
    ensures Affinity(RowOf(m, q), inEs, fromLeaf) <==> (q in m ==> Affinity(m[q], inEs, fromLeaf))
  {
  }
}
