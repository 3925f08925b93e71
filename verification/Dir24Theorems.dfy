/** The engine's guarantees: atomic failure, refinement of longest-prefix match over whole runs, and
    safety of every prefix of a plan. */
module Dir24Theorems {
  import opened Prefix
  import opened FibWord
  import opened Wrappers
  import opened Dir24
  import opened Dir24Pool
  import opened Dir24Refinement
  import opened Dir24Routes
  import opened Fib4

  // ---- what each operation changes ----

  lemma RangeIsDistinct(r: Route, b: nat)
    requires r.net == Net(r.net, r.len)
    ensures var blks := AffectedBlocks(r.net, r.len);
      Distinct(blks) && (b in blks <==> FirstBlock(r.net) <= b < EndBlock(r.net, r.len))
  {
    var blks := AffectedBlocks(r.net, r.len);
    if FirstBlock(r.net) <= b < EndBlock(r.net, r.len) {
      assert blks[b - FirstBlock(r.net)] == b;
    }
  }

  lemma InsertIsDirty(e: Engine, n: nat, r: Route, entry: FibEntry)
    requires Valid(e, n) && r.len > 0 && r.net == Net(r.net, r.len)
    ensures Dirty(e, Insert(e, r, entry), AffectedBlocks(r.net, r.len))
  {
    var e1, blks := Insert(e, r, entry), AffectedBlocks(r.net, r.len);
    InsertCounts(e, r, entry);
    BlocksInTable(r.net, r.len);
    RangeIsDistinct(r, 0);
    forall b: nat | b !in blks ensures HasLong(e1, b) <==> HasLong(e, b) {
      RangeIsDistinct(r, b);
    }
    forall a: U32 | a / 256 !in blks ensures SlotWord(e1.shadow, a) == SlotWord(e.shadow, a) {
      RangeIsDistinct(r, a / 256);
      RouteIsLocal(e1.shadow, e.shadow, r, a);
    }
  }

  lemma RemoveIsDirty(e: Engine, n: nat, r: Route)
    requires Valid(e, n) && r.len > 0 && r in e.shadow
    ensures r.net == Net(r.net, r.len)
    ensures Dirty(e, Remove(e, r), AffectedBlocks(r.net, r.len))
  {
    var e1, blks := Remove(e, r), AffectedBlocks(r.net, r.len);
    RemoveCounts(e, r);
    BlocksInTable(r.net, r.len);
    RangeIsDistinct(r, 0);
    forall b: nat | b !in blks ensures HasLong(e1, b) <==> HasLong(e, b) {
      RangeIsDistinct(r, b);
    }
    forall a: U32 | a / 256 !in blks ensures SlotWord(e1.shadow, a) == SlotWord(e.shadow, a) {
      RangeIsDistinct(r, a / 256);
      RouteIsLocal(e1.shadow, e.shadow, r, a);
    }
  }

  // ---- atomic failure and the invariant ----

  predicate AddRefused(e: Engine, addr: U32, len: nat)
  {
    len > 32 || (len > 24 && Net(addr, len) / 256 !in e.groups && Exhausted(e))
  }

  /** An add fails exactly on a bad length or when it needs a group and none is left, and a failed add
      leaves the engine unchanged. A successful one records the route and keeps the invariant. */
  lemma RouteAddAtomic(e: Engine, n: nat, addr: U32, len: nat, entry: FibEntry)
    requires Valid(e, n)
    ensures var o := RouteAdd(e, addr, len, entry);
      && (o.plan == None <==> AddRefused(e, addr, len))
      && (o.plan == None ==> o.engine == e)
      && Valid(o.engine, n)
      && (o.plan.Some? ==> o.engine.shadow == e.shadow[Route(Net(addr, len), len) := entry])
      && (o.plan.Some? ==> PlanInBounds(o.plan.value, n))
  {
    if !AddRefused(e, addr, len) {
      var r := Route(Net(addr, len), len);
      NetIdempotent(addr, len);
      if len == 0 {
        DefaultKeepsValid(e, n, r, e.shadow[r := entry]);
      } else {
        var e1, blks := Insert(e, r, entry), AffectedBlocks(r.net, r.len);
        InsertIsDirty(e, n, r, entry);
        SyncKeepsValid(e, e1, n, blks);
        AddFits(e, n, r, entry);
      }
    }
  }

  lemma DefaultKeepsValid(e: Engine, n: nat, r: Route, s: Shadow)
    requires Valid(e, n) && r.len == 0 && r.net == Net(r.net, 0)
    requires forall q | q != r :: SameRoute(s, e.shadow, q)
    ensures Valid(e.(shadow := s), n)
  {
    var e1 := e.(shadow := s);
    forall b: nat ensures LongRoutes(s, b) == LongRoutes(e.shadow, b) {
      forall q: Route | q.len > 24 ensures q in s <==> q in e.shadow {
        assert SameRoute(s, e.shadow, q);
      }
    }
    forall q: Route | q in s ensures q.net == Net(q.net, q.len) {
      assert q == r || SameRoute(s, e.shadow, q);
    }
  }

  /** The pre-check is enough: synchronising after it cannot run out of groups. */
  lemma AddFits(e: Engine, n: nat, r: Route, entry: FibEntry)
    requires Valid(e, n) && r.len > 0 && r.net == Net(r.net, r.len)
    requires r.len > 24 && r.net / 256 !in e.groups ==> !Exhausted(e)
    ensures SyncAll(Insert(e, r, entry), AffectedBlocks(r.net, r.len)).plan.Some?
  {
    var e1, blks := Insert(e, r, entry), AffectedBlocks(r.net, r.len);
    var fit := e.groups.Keys + if r.len > 24 then {r.net / 256} else {};
    PoolCard(e, n);
    assert PoolOk(e1, n);
    assert |fit| <= n;
    forall b | b in blks && HasLong(e1, b) ensures b in fit {
      if b !in e.groups {
        assert !HasLong(e, b);
      }
    }
    SyncAllSucceeds(e1, n, blks, fit);
  }

  /** A delete fails only on a bad length; deleting an absent route changes nothing and writes nothing. */
  lemma RouteDelAtomic(e: Engine, n: nat, addr: U32, len: nat)
    requires Valid(e, n)
    ensures var o := RouteDel(e, addr, len);
      && (o.plan == None <==> len > 32)
      && (o.plan == None ==> o.engine == e)
      && Valid(o.engine, n)
      && (o.plan.Some? ==> o.engine.shadow == e.shadow - {Route(Net(addr, len), len)})
      && (o.plan.Some? && Route(Net(addr, len), len) !in e.shadow ==> o == Outcome(e, Some([])))
      && (o.plan.Some? ==> PlanInBounds(o.plan.value, n))
  {
    if len <= 32 {
      var r := Route(Net(addr, len), len);
      NetIdempotent(addr, len);
      if r !in e.shadow {
        assert e.shadow - {r} == e.shadow;
      } else if len == 0 {
        DefaultKeepsValid(e, n, r, e.shadow - {r});
      } else {
        var e1, blks := Remove(e, r), AffectedBlocks(r.net, r.len);
        RemoveIsDirty(e, n, r);
        SyncKeepsValid(e, e1, n, blks);
        PoolCard(e, n);
        assert PoolOk(e1, n);
        forall b | b in blks && HasLong(e1, b) ensures b in e.groups.Keys {
          assert HasLong(e, b);
        }
        SyncAllSucceeds(e1, n, blks, e.groups.Keys);
      }
    }
  }

  // ---- prefix safety and refinement of single operations ----

  /** At this point of a plan the address resolves to its old or its new longest-prefix match. */
  ghost predicate OldOrNew(before: Shadow, after: Shadow, t: Tables, addr: U32)
  {
    Fib4Lookup(t, addr) == Meaning(before, addr) || Fib4Lookup(t, addr) == Meaning(after, addr)
  }

  lemma AgreeIsMeaning(e: Engine, t: Tables, n: nat, addr: U32)
    requires Agree(e, t, n)
    ensures Fib4Lookup(t, addr) == Meaning(e.shadow, addr)
  {
    FinishIsMeaning(e.shadow, addr);
  }

  /** After every prefix of a synchronisation that left the default route alone. */
  lemma SyncOldOrNew(e: Engine, e1: Engine, t: Tables, n: nat, blks: seq<nat>, k: nat, addr: U32)
    requires Valid(e, n) && Dirty(e, e1, blks) && Agree(e, t, n)
    requires DefaultWord(e.shadow) == DefaultWord(e1.shadow)
    requires SyncAll(e1, blks).plan.Some? && k <= |SyncAll(e1, blks).plan.value|
    ensures OldOrNew(e.shadow, e1.shadow, ApplyAll(t, SyncAll(e1, blks).plan.value[..k]), addr)
  {
    SyncView(e, e1, t, n, blks, k, addr);
    FinishIsMeaning(e.shadow, addr);
    FinishIsMeaning(e1.shadow, addr);
  }

  /** A one-word default plan: nothing before it, everything after it. */
  lemma DefaultPlan(e: Engine, t: Tables, n: nat, r: Route, s: Shadow)
    requires Agree(e, t, n) && r.len == 0 && r.net == Net(r.net, 0)
    requires forall q | q != r :: SameRoute(s, e.shadow, q)
    ensures Agree(e.(shadow := s), ApplyAll(t, [Default(DefaultWord(s))]), n)
  {
    ApplyOne(t, Default(DefaultWord(s)));
    forall a: U32 ensures SlotWord(s, a) == SlotWord(e.shadow, a) {
      DefaultIsApart(s, e.shadow, r, a);
    }
  }

  lemma OneWordPrefix(w: SlotWrite, t: Tables, k: nat)
    requires k <= 1
    ensures ApplyAll(t, [w][..k]) == if k == 0 then t else ApplyAll(t, [w])
  {
    assert [w][..0] == [] && [w][..1] == [w];
  }

  /** Adding a route: agreement is re-established by the whole plan, and every prefix is safe. */
  lemma RouteAddSafe(e: Engine, t: Tables, n: nat, addr: U32, len: nat, entry: FibEntry, k: nat, a: U32)
    requires Valid(e, n) && Agree(e, t, n)
    requires RouteAdd(e, addr, len, entry).plan.Some? && k <= |RouteAdd(e, addr, len, entry).plan.value|
    ensures var o := RouteAdd(e, addr, len, entry);
      && Agree(o.engine, ApplyAll(t, o.plan.value), n)
      && OldOrNew(e.shadow, o.engine.shadow, ApplyAll(t, o.plan.value[..k]), a)
  {
    var r := Route(Net(addr, len), len);
    NetIdempotent(addr, len);
    if len == 0 {
      AddDefaultSafe(e, t, n, addr, entry, k, a);
    } else {
      var e1, blks := Insert(e, r, entry), AffectedBlocks(r.net, r.len);
      InsertIsDirty(e, n, r, entry);
      DefaultIsApart(e1.shadow, e.shadow, r, a);
      SyncKeepsValid(e, e1, n, blks);
      SyncAgrees(e, e1, t, n, blks);
      SyncOldOrNew(e, e1, t, n, blks, k, a);
    }
  }

  lemma AddDefaultSafe(e: Engine, t: Tables, n: nat, addr: U32, entry: FibEntry, k: nat, a: U32)
    requires Valid(e, n) && Agree(e, t, n) && k <= 1
    ensures var o, w := RouteAdd(e, addr, 0, entry), Default(PackEntry(entry));
      && o.plan == Some([w])
      && Agree(o.engine, ApplyAll(t, [w]), n)
      && OldOrNew(e.shadow, o.engine.shadow, ApplyAll(t, [w][..k]), a)
  {
    var o, r, w := RouteAdd(e, addr, 0, entry), Route(Net(addr, 0), 0), Default(PackEntry(entry));
    NetOfDefault(addr);
    NetOfDefault(0);
    DefaultPlan(e, t, n, r, o.engine.shadow);
    AgreeIsMeaning(e, t, n, a);
    AgreeIsMeaning(o.engine, ApplyAll(t, [w]), n, a);
    OneWordPrefix(w, t, k);
  }

  /** Deleting a route: likewise. */
  lemma RouteDelSafe(e: Engine, t: Tables, n: nat, addr: U32, len: nat, k: nat, a: U32)
    requires Valid(e, n) && Agree(e, t, n)
    requires RouteDel(e, addr, len).plan.Some? && k <= |RouteDel(e, addr, len).plan.value|
    ensures var o := RouteDel(e, addr, len);
      && Agree(o.engine, ApplyAll(t, o.plan.value), n)
      && OldOrNew(e.shadow, o.engine.shadow, ApplyAll(t, o.plan.value[..k]), a)
  {
    var r := Route(Net(addr, len), len);
    NetIdempotent(addr, len);
    if r !in e.shadow {
      AgreeIsMeaning(e, t, n, a);
    } else if len == 0 {
      DelDefaultSafe(e, t, n, addr, k, a);
    } else {
      var e1, blks := Remove(e, r), AffectedBlocks(r.net, r.len);
      RemoveIsDirty(e, n, r);
      DefaultIsApart(e1.shadow, e.shadow, r, a);
      SyncKeepsValid(e, e1, n, blks);
      SyncAgrees(e, e1, t, n, blks);
      SyncOldOrNew(e, e1, t, n, blks, k, a);
    }
  }

  lemma DelDefaultSafe(e: Engine, t: Tables, n: nat, addr: U32, k: nat, a: U32)
    requires Valid(e, n) && Agree(e, t, n) && Route(Net(addr, 0), 0) in e.shadow && k <= 1
    ensures var o := RouteDel(e, addr, 0);
      && o.plan == Some([Default(0)])
      && Agree(o.engine, ApplyAll(t, [Default(0)]), n)
      && OldOrNew(e.shadow, o.engine.shadow, ApplyAll(t, [Default(0)][..k]), a)
  {
    var o, r := RouteDel(e, addr, 0), Route(Net(addr, 0), 0);
    NetOfDefault(addr);
    NetOfDefault(0);
    DefaultPlan(e, t, n, r, o.engine.shadow);
    AgreeIsMeaning(e, t, n, a);
    AgreeIsMeaning(o.engine, ApplyAll(t, [Default(0)]), n, a);
    OneWordPrefix(Default(0), t, k);
  }
}
