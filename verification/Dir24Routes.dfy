/** Route changes: which addresses a route concerns, and what recording or forgetting one does. */
module Dir24Routes {
  import opened Prefix
  import opened FibWord
  import opened Wrappers
  import opened Dir24
  import opened Dir24Pool
  import opened Dir24Refinement
  import opened Fib4

  predicate SameRoute(s1: Shadow, s2: Shadow, r: Route)
  {
    (r in s1 <==> r in s2) && (r in s1 && r in s2 ==> s1[r] == s2[r])
  }

  lemma {:induction false} BestFrame(s1: Shadow, s2: Shadow, addr: U32, hi: Len, lo: Len)
    requires forall l: Len | lo <= l <= hi :: SameRoute(s1, s2, Route(Net(addr, l), l))
    ensures Best(s1, addr, hi, lo) == Best(s2, addr, hi, lo)
    decreases hi
  {
    if lo <= hi {
      assert SameRoute(s1, s2, Route(Net(addr, hi), hi));
      if hi > 0 {
        BestFrame(s1, s2, addr, hi - 1, lo);
      }
    }
  }

  lemma {:induction false} BestAcross(shadow: Shadow, a: U32, b: U32, hi: Len, lo: Len)
    requires forall l: Len | lo <= l <= hi :: Net(a, l) == Net(b, l)
    ensures Best(shadow, a, hi, lo) == Best(shadow, b, hi, lo)
    decreases hi
  {
    if lo <= hi && hi > 0 {
      BestAcross(shadow, a, b, hi - 1, lo);
    }
  }

  lemma {:induction false} BestSkips(shadow: Shadow, addr: U32, hi: Len, mid: Len, lo: Len)
    requires lo <= mid <= hi
    requires forall l: Len | mid < l <= hi :: !Covers(shadow, addr, l)
    ensures Best(shadow, addr, hi, lo) == Best(shadow, addr, mid, lo)
    decreases hi
  {
    if mid < hi {
      assert !Covers(shadow, addr, hi);
      BestSkips(shadow, addr, hi - 1, mid, lo);
    }
  }

  lemma CoveringRouteIsLong(shadow: Shadow, addr: U32, len: Len)
    requires Covers(shadow, addr, len) && len > 24
    ensures Route(Net(addr, len), len) in LongRoutes(shadow, addr / 256)
  {
    MatchLong(Net(addr, len), len, addr);
  }

  /** The word a block is given is each of its addresses' longest match: a block without long routes
      forwards uniformly. */
  lemma TargetIsSlotWord(e: Engine, addr: U32)
    requires CountsOk(e) && MaskedRoutes(e.shadow)
    ensures Target(e, addr) == SlotWord(e.shadow, addr)
  {
    var blk := addr / 256;
    if !HasLong(e, blk) {
      forall l: Len | 24 < l <= 32 ensures !Covers(e.shadow, addr, l) {
        if Covers(e.shadow, addr, l) {
          CoveringRouteIsLong(e.shadow, addr, l);
          assert false;
        }
      }
      BestSkips(e.shadow, addr, 32, 24, 1);
      forall l: Len | 1 <= l <= 24 ensures Net(addr, l) == Net(blk * 256, l) {
        NetOfBlock(addr, l);
      }
      BestAcross(e.shadow, addr, blk * 256, 24, 1);
    }
  }

  /** A route changes the words of its own blocks only. */
  lemma RouteIsLocal(s1: Shadow, s2: Shadow, r: Route, addr: U32)
    requires r.len > 0 && r.net == Net(r.net, r.len)
    requires forall q | q != r :: SameRoute(s1, s2, q)
    requires !(FirstBlock(r.net) <= addr / 256 < EndBlock(r.net, r.len))
    ensures SlotWord(s1, addr) == SlotWord(s2, addr)
  {
    forall l: Len | 1 <= l <= 32 ensures SameRoute(s1, s2, Route(Net(addr, l), l)) {
      if Route(Net(addr, l), l) == r {
        if r.len <= 24 {
          MatchShort(r.net, r.len, addr);
        } else {
          MatchLong(r.net, r.len, addr);
        }
        assert false;
      }
    }
    BestFrame(s1, s2, addr, 32, 1);
  }

  /** The default route changes no slot word, and only it changes the default word. */
  lemma DefaultIsApart(s1: Shadow, s2: Shadow, r: Route, addr: U32)
    requires r.net == Net(r.net, r.len)
    requires forall q | q != r :: SameRoute(s1, s2, q)
    ensures r.len == 0 ==> SlotWord(s1, addr) == SlotWord(s2, addr)
    ensures r.len > 0 ==> DefaultWord(s1) == DefaultWord(s2)
  {
    if r.len == 0 {
      BestFrame(s1, s2, addr, 32, 1);
    } else {
      assert SameRoute(s1, s2, Route(Net(0, 0), 0));
    }
  }

  // ---- counts ----

  ghost predicate CountOk(e: Engine, b: nat)
  {
    if b in e.longCount then e.longCount[b] == |LongRoutes(e.shadow, b)| > 0 else LongRoutes(e.shadow, b) == {}
  }

  lemma InsertCount(e: Engine, r: Route, entry: FibEntry, b: nat)
    requires CountOk(e, b)
    ensures CountOk(Insert(e, r, entry), b)
  {
    var e1 := Insert(e, r, entry);
    if r.len > 24 && r.net / 256 == b {
      assert LongRoutes(e1.shadow, b) == LongRoutes(e.shadow, b) + {r};
      assert r in e.shadow ==> r in LongRoutes(e.shadow, b);
    } else {
      assert LongRoutes(e1.shadow, b) == LongRoutes(e.shadow, b);
    }
  }

  lemma RemoveCount(e: Engine, r: Route, b: nat)
    requires CountOk(e, b) && r in e.shadow
    ensures CountOk(Remove(e, r), b)
  {
    var e1 := Remove(e, r);
    if r.len > 24 && r.net / 256 == b {
      assert r in LongRoutes(e.shadow, b);
      assert LongRoutes(e1.shadow, b) == LongRoutes(e.shadow, b) - {r};
      assert |LongRoutes(e1.shadow, b)| == |LongRoutes(e.shadow, b)| - 1;
    } else {
      assert LongRoutes(e1.shadow, b) == LongRoutes(e.shadow, b);
    }
  }

  lemma CountsAre(e: Engine)
    ensures CountsOk(e) <==> forall b: nat :: CountOk(e, b)
  {
    if forall b: nat :: CountOk(e, b) {
      assert forall b: nat | b in e.longCount :: CountOk(e, b);
      assert forall b: nat | b !in e.longCount :: CountOk(e, b);
    }
  }

  lemma InsertCounts(e: Engine, r: Route, entry: FibEntry)
    requires CountsOk(e) && MaskedRoutes(e.shadow) && r.net == Net(r.net, r.len)
    ensures CountsOk(Insert(e, r, entry)) && MaskedRoutes(Insert(e, r, entry).shadow)
  {
    CountsAre(e);
    forall b: nat ensures CountOk(Insert(e, r, entry), b) {
      InsertCount(e, r, entry, b);
    }
    CountsAre(Insert(e, r, entry));
  }

  lemma RemoveCounts(e: Engine, r: Route)
    requires CountsOk(e) && MaskedRoutes(e.shadow) && r in e.shadow
    ensures CountsOk(Remove(e, r)) && MaskedRoutes(Remove(e, r).shadow)
  {
    CountsAre(e);
    forall b: nat ensures CountOk(Remove(e, r), b) {
      RemoveCount(e, r, b);
    }
    CountsAre(Remove(e, r));
  }

  // ---- synchronising after a change ----

  /** `e1` is `e` with its routes changed inside the blocks `blks` only, not yet synchronised. */
  ghost predicate Dirty(e: Engine, e1: Engine, blks: seq<nat>)
  {
    && e1.groups == e.groups && e1.free == e.free && e1.quarantine == e.quarantine
    && CountsOk(e1) && MaskedRoutes(e1.shadow)
    && InTable(blks) && Distinct(blks)
    && (forall b: nat | b !in blks :: HasLong(e1, b) <==> HasLong(e, b))
    && (forall a: U32 | a / 256 !in blks :: SlotWord(e1.shadow, a) == SlotWord(e.shadow, a))
  }

  /** The tables point at the engine's groups and hold every address's longest match. */
  ghost predicate AgreeSlots(e: Engine, t: Tables, n: nat)
  {
    && Fits(t, n) && Pointers(t, e)
    && forall a: U32 :: View(t, a) == Some(SlotWord(e.shadow, a))
  }

  ghost predicate Agree(e: Engine, t: Tables, n: nat)
  {
    AgreeSlots(e, t, n) && t.default4 == DefaultWord(e.shadow)
  }

  lemma SyncKeepsValid(e: Engine, e1: Engine, n: nat, blks: seq<nat>)
    requires Valid(e, n) && Dirty(e, e1, blks)
    ensures var o := SyncAll(e1, blks);
      && o.engine.shadow == e1.shadow
      && (o.plan.Some? ==> Valid(o.engine, n) && PlanInBounds(o.plan.value, n))
      && (o.plan.Some? ==> forall b: nat :: b in o.engine.groups <==> HasLong(e1, b))
  {
    var o := SyncAll(e1, blks);
    SyncAllPool(e1, n, blks);
    SyncAllInBounds(e1, n, blks);
    if o.plan.Some? {
      forall b: nat ensures b in o.engine.groups <==> HasLong(o.engine, b) {
        if b !in blks {
          assert b in e.groups <==> HasLong(e, b);
        }
      }
    }
  }

  /** Every word of every address is old or new at each point of the plan, and new at its end. */
  lemma SyncView(e: Engine, e1: Engine, t: Tables, n: nat, blks: seq<nat>, k: nat, addr: U32)
    requires Valid(e, n) && Dirty(e, e1, blks) && AgreeSlots(e, t, n)
    requires SyncAll(e1, blks).plan.Some? && k <= |SyncAll(e1, blks).plan.value|
    ensures var plan := SyncAll(e1, blks).plan.value;
      var t' := ApplyAll(t, plan[..k]);
      && t'.default4 == t.default4
      && (View(t', addr) == Some(SlotWord(e.shadow, addr)) || View(t', addr) == Some(SlotWord(e1.shadow, addr)))
      && (k == |plan| ==> View(t', addr) == Some(SlotWord(e1.shadow, addr)))
  {
    assert Pointers(t, e1);
    SyncAllView(e1, t, n, blks, k, addr);
    TargetIsSlotWord(e1, addr);
  }

  lemma SyncAgrees(e: Engine, e1: Engine, t: Tables, n: nat, blks: seq<nat>)
    requires Valid(e, n) && Dirty(e, e1, blks) && AgreeSlots(e, t, n)
    requires SyncAll(e1, blks).plan.Some?
    ensures var o := SyncAll(e1, blks);
      var t' := ApplyAll(t, o.plan.value);
      AgreeSlots(o.engine, t', n) && t'.default4 == t.default4
  {
    var o := SyncAll(e1, blks);
    var plan := o.plan.value;
    assert plan[..|plan|] == plan;
    SyncKeepsValid(e, e1, n, blks);
    assert Pointers(t, e1);
    SyncAllPointers(e1, t, n, blks);
    forall a: U32 ensures View(ApplyAll(t, plan), a) == Some(SlotWord(o.engine.shadow, a)) {
      SyncView(e, e1, t, n, blks, |plan|, a);
    }
    SyncView(e, e1, t, n, blks, |plan|, 0);
  }
}
