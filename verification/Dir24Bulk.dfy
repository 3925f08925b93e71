/** The bulk load: one synchronisation per block, one capacity check per batch, the result of adding
    the routes one by one. */
module Dir24Bulk {
  import opened Prefix
  import opened FibWord
  import opened Wrappers
  import opened Dir24
  import opened Dir24Pool
  import opened Dir24Refinement
  import opened Dir24Routes
  import opened Dir24Theorems
  import opened Fib4

  predicate NoDefault(batch: seq<Item>)
  {
    forall i | 0 <= i < |batch| :: batch[i].len != 0
  }

  lemma InRangeSet(r: Route, b: nat)
    requires r.net == Net(r.net, r.len)
    ensures b in RangeSet(r) <==> FirstBlock(r.net) <= b < EndBlock(r.net, r.len)
  {
    BlocksInTable(r.net, r.len);
    if FirstBlock(r.net) <= b < EndBlock(r.net, r.len) {
      assert Range(FirstBlock(r.net), EndBlock(r.net, r.len))[b - FirstBlock(r.net)] == b;
    }
  }

  lemma NewGroupBlocksStep(e: Engine, batch: seq<Item>)
    requires GoodLengths(batch) && batch != []
    ensures var last := batch[|batch| - 1]; var blk := RouteOf(last).net / 256;
      NewGroupBlocks(e, batch) == NewGroupBlocks(e, batch[..|batch| - 1])
        + if last.len > 24 && blk !in e.groups then {blk} else {}
  {
    var init := batch[..|batch| - 1];
    var last := batch[|batch| - 1];
    var blk := RouteOf(last).net / 256;
    forall b | b in NewGroupBlocks(e, batch)
      ensures b in NewGroupBlocks(e, init) || (last.len > 24 && b == blk && blk !in e.groups)
    {
      var i :| 0 <= i < |batch| && batch[i].len > 24 && RouteOf(batch[i]).net / 256 !in e.groups
        && b == RouteOf(batch[i]).net / 256;
      if i < |init| {
        assert init[i] == batch[i];
      }
    }
    forall b | b in NewGroupBlocks(e, init) ensures b in NewGroupBlocks(e, batch) {
      var i :| 0 <= i < |init| && init[i].len > 24 && RouteOf(init[i]).net / 256 !in e.groups
        && b == RouteOf(init[i]).net / 256;
      assert init[i] == batch[i];
    }
  }

  /** Recording a batch: the pool is untouched, only covered blocks change, and the blocks that gain
      their first long route without a group are the ones the capacity check counted. */
  lemma {:induction false} InsertAllIsDirty(e: Engine, n: nat, batch: seq<Item>)
    requires Valid(e, n) && GoodLengths(batch)
    ensures var e1 := InsertAll(e, batch);
      && e1.groups == e.groups && e1.free == e.free && e1.quarantine == e.quarantine
      && CountsOk(e1) && MaskedRoutes(e1.shadow)
      && (forall b: nat | b !in AffectedSet(batch) :: HasLong(e1, b) <==> HasLong(e, b))
      && (forall a: U32 | a / 256 !in AffectedSet(batch) :: SlotWord(e1.shadow, a) == SlotWord(e.shadow, a))
      && (forall b: nat :: HasLong(e1, b) <==> b in e.groups || b in NewGroupBlocks(e, batch))
  {
    if batch != [] {
      var init, item := batch[..|batch| - 1], batch[|batch| - 1];
      InsertAllIsDirty(e, n, init);
      NewGroupBlocksStep(e, batch);
      if item.len == 0 {
        DefaultRecorded(InsertAll(e, init), RouteOf(item), item.entry);
      } else {
        RouteRecorded(InsertAll(e, init), RouteOf(item), item.entry);
      }
    }
  }

  /** A default route is recorded without a count, and no block changes. */
  lemma DefaultRecorded(e: Engine, r: Route, entry: FibEntry)
    requires CountsOk(e) && MaskedRoutes(e.shadow) && r.len == 0 && r.net == Net(r.net, r.len)
    ensures var e1 := e.(shadow := e.shadow[r := entry]);
      && CountsOk(e1) && MaskedRoutes(e1.shadow)
      && forall a: U32 :: SlotWord(e1.shadow, a) == SlotWord(e.shadow, a)
  {
    var e1 := e.(shadow := e.shadow[r := entry]);
    forall a: U32 ensures SlotWord(e1.shadow, a) == SlotWord(e.shadow, a) {
      DefaultIsApart(e1.shadow, e.shadow, r, a);
    }
    forall b: nat ensures LongRoutes(e1.shadow, b) == LongRoutes(e.shadow, b) {
    }
  }

  lemma RouteRecorded(e: Engine, r: Route, entry: FibEntry)
    requires CountsOk(e) && MaskedRoutes(e.shadow) && r.len > 0 && r.net == Net(r.net, r.len)
    ensures var e1 := Insert(e, r, entry);
      && CountsOk(e1) && MaskedRoutes(e1.shadow)
      && (forall b: nat | b !in RangeSet(r) :: HasLong(e1, b) <==> HasLong(e, b))
      && (forall a: U32 | a / 256 !in RangeSet(r) :: SlotWord(e1.shadow, a) == SlotWord(e.shadow, a))
      && (forall b: nat :: HasLong(e1, b) <==> HasLong(e, b) || (r.len > 24 && b == r.net / 256))
  {
    InsertCounts(e, r, entry);
    InsertOutside(e, r, entry);
    InsertLongBlocks(e, r, entry);
  }

  lemma InsertOutside(e: Engine, r: Route, entry: FibEntry)
    requires r.len > 0 && r.net == Net(r.net, r.len)
    ensures forall b: nat | b !in RangeSet(r) :: HasLong(Insert(e, r, entry), b) <==> HasLong(e, b)
    ensures forall a: U32 | a / 256 !in RangeSet(r) :: SlotWord(Insert(e, r, entry).shadow, a) == SlotWord(e.shadow, a)
  {
    var e1 := Insert(e, r, entry);
    forall b: nat | b !in RangeSet(r) ensures HasLong(e1, b) <==> HasLong(e, b) {
      InRangeSet(r, b);
    }
    forall a: U32 | a / 256 !in RangeSet(r) ensures SlotWord(e1.shadow, a) == SlotWord(e.shadow, a) {
      InRangeSet(r, a / 256);
      RouteIsLocal(e1.shadow, e.shadow, r, a);
    }
  }

  lemma InsertLongBlocks(e: Engine, r: Route, entry: FibEntry)
    requires CountsOk(e)
    ensures forall b: nat :: HasLong(Insert(e, r, entry), b) <==> HasLong(e, b) || (r.len > 24 && b == r.net / 256)
  {
    if r in e.shadow && r.len > 24 {
      assert r in LongRoutes(e.shadow, r.net / 256);
    }
  }

  lemma BulkIsDirty(e: Engine, n: nat, batch: seq<Item>)
    requires Valid(e, n) && GoodLengths(batch)
    ensures Dirty(e, InsertAll(e, batch), BulkBlocks(batch))
  {
    InsertAllIsDirty(e, n, batch);
    AscendingOrdered(AffectedSet(batch), 0, BLOCKS);
    forall b: nat ensures b in BulkBlocks(batch) <==> b in AffectedSet(batch) {
      AscendingElements(AffectedSet(batch), 0, BLOCKS, b);
    }
  }

  predicate BulkRefused(e: Engine, batch: seq<Item>)
  {
    !GoodLengths(batch) || |NewGroupBlocks(e, batch)| > Available(e)
  }

  /** The whole batch fits exactly when the distinct blocks that gain a group do. */
  lemma NewGroupBlocksFit(e: Engine, n: nat, batch: seq<Item>)
    requires Valid(e, n) && GoodLengths(batch)
    ensures |NewGroupBlocks(e, batch)| <= Available(e) <==> |e.groups.Keys + NewGroupBlocks(e, batch)| <= n
  {
    PoolCard(e, n);
    assert e.groups.Keys !! NewGroupBlocks(e, batch);
    assert |e.groups.Keys + NewGroupBlocks(e, batch)| == |e.groups.Keys| + |NewGroupBlocks(e, batch)|;
  }

  /** After the pre-check, synchronising cannot run out of groups. */
  lemma BulkFits(e: Engine, n: nat, batch: seq<Item>)
    requires Valid(e, n) && !BulkRefused(e, batch)
    ensures SyncAll(InsertAll(e, batch), BulkBlocks(batch)).plan.Some?
  {
    var e1 := InsertAll(e, batch);
    InsertAllIsDirty(e, n, batch);
    NewGroupBlocksFit(e, n, batch);
    assert PoolOk(e1, n);
    SyncAllSucceeds(e1, n, BulkBlocks(batch), e.groups.Keys + NewGroupBlocks(e, batch));
  }

  lemma SameKeys(m: map<nat, nat>, keys: set<nat>)
    requires forall b: nat :: b in m <==> b in keys
    ensures m.Keys == keys
  {
  }

  lemma BulkGroups(e: Engine, n: nat, batch: seq<Item>)
    requires Valid(e, n) && GoodLengths(batch)
    requires SyncAll(InsertAll(e, batch), BulkBlocks(batch)).plan.Some?
    ensures SyncAll(InsertAll(e, batch), BulkBlocks(batch)).engine.groups.Keys ==
      e.groups.Keys + NewGroupBlocks(e, batch)
  {
    var e1, blks := InsertAll(e, batch), BulkBlocks(batch);
    BulkIsDirty(e, n, batch);
    SyncKeepsValid(e, e1, n, blks);
    InsertAllIsDirty(e, n, batch);
    SameKeys(SyncAll(e1, blks).engine.groups, e.groups.Keys + NewGroupBlocks(e, batch));
  }

  /** A batch fails exactly when the pre-check refuses it, and then changes nothing. */
  lemma BulkAtomic(e: Engine, n: nat, batch: seq<Item>)
    requires Valid(e, n)
    ensures var o := RouteAddBulk(e, batch);
      && (o.plan == None <==> BulkRefused(e, batch))
      && (o.plan == None ==> o.engine == e)
      && Valid(o.engine, n)
      && (o.plan.Some? ==> o.engine.shadow == InsertAll(e, batch).shadow)
      && (o.plan.Some? ==> PlanInBounds(o.plan.value, n))
  {
    if !BulkRefused(e, batch) {
      BulkFits(e, n, batch);
      BulkIsDirty(e, n, batch);
      SyncKeepsValid(e, InsertAll(e, batch), n, BulkBlocks(batch));
      DefaultWritesInBounds(batch, n);
    }
  }

  lemma {:induction false} DefaultWritesInBounds(batch: seq<Item>, n: nat)
    ensures PlanInBounds(DefaultWrites(batch), n)
    ensures NoDefault(batch) ==> DefaultWrites(batch) == []
  {
    if batch != [] {
      DefaultWritesInBounds(batch[..|batch| - 1], n);
    }
  }

  // ---- the plan ----

  /** The leading default writes move only the default word, and leave it at the batch's last `/0`. */
  lemma {:induction false} DefaultWritesApply(e: Engine, t: Tables, batch: seq<Item>, k: nat)
    requires GoodLengths(batch) && k <= |DefaultWrites(batch)|
    requires t.default4 == DefaultWord(e.shadow)
    ensures var t' := ApplyAll(t, DefaultWrites(batch)[..k]);
      t'.tbl24 == t.tbl24 && t'.tbl8 == t.tbl8
    ensures ApplyAll(t, DefaultWrites(batch)).default4 == DefaultWord(InsertAll(e, batch).shadow)
  {
    if batch != [] {
      var init, item := batch[..|batch| - 1], batch[|batch| - 1];
      var p := DefaultWrites(init);
      var s1, s0, r := InsertAll(e, batch).shadow, InsertAll(e, init).shadow, RouteOf(item);
      DefaultWritesApply(e, t, init, if k <= |p| then k else |p|);
      if item.len == 0 {
        var w := Default(PackEntry(item.entry));
        assert p[..|p|] == p;
        ApplyConcat(t, p, [w]);
        ApplyOne(ApplyAll(t, p), w);
        if k <= |p| {
          assert (p + [w])[..k] == p[..k];
        } else {
          assert (p + [w])[..k] == p + [w];
        }
        NetOfDefault(item.addr);
        NetOfDefault(0);
      } else {
        DefaultIsApart(s1, s0, r, 0);
        assert DefaultWrites(batch) == p;
      }
    } else {
      assert DefaultWrites(batch)[..k] == [];
    }
  }

  /** The tables after the default writes: every slot as before. */
  lemma BulkStart(e: Engine, t: Tables, n: nat, batch: seq<Item>)
    requires GoodLengths(batch) && Agree(e, t, n)
    ensures var t1 := ApplyAll(t, DefaultWrites(batch));
      AgreeSlots(e, t1, n) && t1.default4 == DefaultWord(InsertAll(e, batch).shadow)
  {
    var p := DefaultWrites(batch);
    assert p[..|p|] == p;
    DefaultWritesApply(e, t, batch, |p|);
    SameSlots(e, t, ApplyAll(t, p), n);
  }

  /** A whole batch: the tables agree with the new routes. */
  lemma BulkAgrees(e: Engine, t: Tables, n: nat, batch: seq<Item>)
    requires Valid(e, n) && Agree(e, t, n) && RouteAddBulk(e, batch).plan.Some?
    ensures var o := RouteAddBulk(e, batch); Agree(o.engine, ApplyAll(t, o.plan.value), n)
  {
    var e1, blks := InsertAll(e, batch), BulkBlocks(batch);
    var p := DefaultWrites(batch);
    BulkIsDirty(e, n, batch);
    BulkStart(e, t, n, batch);
    SyncKeepsValid(e, e1, n, blks);
    SyncAgrees(e, e1, ApplyAll(t, p), n, blks);
    ApplyConcat(t, p, SyncAll(e1, blks).plan.value);
  }

  /** A prefix of the plan is a prefix of the default writes, or all of them and a prefix of the run. */
  lemma BulkPrefix(e: Engine, t: Tables, batch: seq<Item>, k: nat)
    requires RouteAddBulk(e, batch).plan.Some? && k <= |RouteAddBulk(e, batch).plan.value|
    ensures var plan, p := RouteAddBulk(e, batch).plan.value, DefaultWrites(batch);
      var run := SyncAll(InsertAll(e, batch), BulkBlocks(batch));
      && run.plan.Some? && |plan| == |p| + |run.plan.value|
      && (k <= |p| ==> ApplyAll(t, plan[..k]) == ApplyAll(t, p[..k]))
      && (k > |p| ==> ApplyAll(t, plan[..k]) == ApplyAll(ApplyAll(t, p), run.plan.value[..k - |p|]))
  {
    var p := DefaultWrites(batch);
    var q := SyncAll(InsertAll(e, batch), BulkBlocks(batch)).plan.value;
    ApplyPrefix(t, p, q, k);
  }

  /** After any number of a batch's writes every address's own word is its old or its new one. */
  lemma BulkView(e: Engine, t: Tables, n: nat, batch: seq<Item>, k: nat, a: U32)
    requires Valid(e, n) && Agree(e, t, n)
    requires RouteAddBulk(e, batch).plan.Some? && k <= |RouteAddBulk(e, batch).plan.value|
    ensures var o := RouteAddBulk(e, batch);
      var t' := ApplyAll(t, o.plan.value[..k]);
      && (View(t', a) == Some(SlotWord(e.shadow, a)) || View(t', a) == Some(SlotWord(InsertAll(e, batch).shadow, a)))
      && (NoDefault(batch) ==> t'.default4 == t.default4)
  {
    BulkPrefix(e, t, batch, k);
    if k <= |DefaultWrites(batch)| {
      DefaultsView(e, t, batch, k, a);
    } else {
      RunView(e, t, n, batch, k - |DefaultWrites(batch)|, a);
    }
  }

  lemma DefaultsView(e: Engine, t: Tables, batch: seq<Item>, k: nat, a: U32)
    requires GoodLengths(batch) && k <= |DefaultWrites(batch)| && t.default4 == DefaultWord(e.shadow)
    ensures var t' := ApplyAll(t, DefaultWrites(batch)[..k]);
      View(t', a) == View(t, a) && (NoDefault(batch) ==> t' == t)
  {
    DefaultWritesApply(e, t, batch, k);
    DefaultWritesInBounds(batch, 0);
    assert NoDefault(batch) ==> DefaultWrites(batch)[..k] == [];
  }

  lemma RunView(e: Engine, t: Tables, n: nat, batch: seq<Item>, j: nat, a: U32)
    requires Valid(e, n) && Agree(e, t, n) && GoodLengths(batch)
    requires var run := SyncAll(InsertAll(e, batch), BulkBlocks(batch));
      run.plan.Some? && j <= |run.plan.value|
    ensures var run := SyncAll(InsertAll(e, batch), BulkBlocks(batch));
      var t' := ApplyAll(ApplyAll(t, DefaultWrites(batch)), run.plan.value[..j]);
      && (View(t', a) == Some(SlotWord(e.shadow, a)) || View(t', a) == Some(SlotWord(InsertAll(e, batch).shadow, a)))
      && (NoDefault(batch) ==> t'.default4 == t.default4)
  {
    BulkIsDirty(e, n, batch);
    BulkStart(e, t, n, batch);
    DefaultWritesInBounds(batch, n);
    SyncView(e, InsertAll(e, batch), ApplyAll(t, DefaultWrites(batch)), n, BulkBlocks(batch), j, a);
  }

  lemma SameSlots(e: Engine, t: Tables, t1: Tables, n: nat)
    requires AgreeSlots(e, t, n) && t1.tbl24 == t.tbl24 && t1.tbl8 == t.tbl8
    ensures AgreeSlots(e, t1, n)
  {
    forall a: U32 ensures View(t1, a) == View(t, a) {
    }
  }

  /** A batch without a default route is prefix-safe: every address resolves to its old or its new
      longest-prefix match at every point. */
  lemma BulkSafe(e: Engine, t: Tables, n: nat, batch: seq<Item>, k: nat, a: U32)
    requires Valid(e, n) && Agree(e, t, n) && NoDefault(batch)
    requires RouteAddBulk(e, batch).plan.Some? && k <= |RouteAddBulk(e, batch).plan.value|
    ensures OldOrNew(e.shadow, RouteAddBulk(e, batch).engine.shadow,
      ApplyAll(t, RouteAddBulk(e, batch).plan.value[..k]), a)
  {
    var o := RouteAddBulk(e, batch);
    BulkView(e, t, n, batch, k, a);
    NoDefaultInserted(e, batch);
    BulkAtomic(e, n, batch);
    FinishIsMeaning(e.shadow, a);
    FinishIsMeaning(o.engine.shadow, a);
  }

  lemma {:induction false} NoDefaultInserted(e: Engine, batch: seq<Item>)
    requires GoodLengths(batch) && NoDefault(batch)
    ensures DefaultWord(InsertAll(e, batch).shadow) == DefaultWord(e.shadow)
  {
    if batch != [] {
      var init := batch[..|batch| - 1];
      NoDefaultInserted(e, init);
      DefaultIsApart(InsertAll(e, batch).shadow, InsertAll(e, init).shadow, RouteOf(batch[|batch| - 1]), 0);
    }
  }

  // ---- bulk against serial ----

  /** The same routes, one `RouteAdd` each, stopping at the first error. */
  function RouteAddSerial(e: Engine, batch: seq<Item>): Outcome
  {
    if batch == [] then Outcome(e, Some([]))
    else
      var before := RouteAddSerial(e, batch[..|batch| - 1]);
      if before.plan == None then before
      else
        var item := batch[|batch| - 1];
        var o := RouteAdd(before.engine, item.addr, item.len, item.entry);
        if o.plan == None then o
        else Outcome(o.engine, Some(before.plan.value + o.plan.value))
  }

  /** One add: it succeeds exactly when its block has a group or one is left for it. */
  lemma AddGroups(e: Engine, n: nat, item: Item)
    requires Valid(e, n) && item.len <= 32
    ensures var o := RouteAdd(e, item.addr, item.len, item.entry);
      var all := e.groups.Keys + if item.len > 24 then {RouteOf(item).net / 256} else {};
      && (o.plan.Some? <==> |all| <= n)
      && (o.plan.Some? ==> o.engine.groups.Keys == all)
  {
    var o, r := RouteAdd(e, item.addr, item.len, item.entry), RouteOf(item);
    RouteAddAtomic(e, n, item.addr, item.len, item.entry);
    OneMoreFits(e, n, if item.len > 24 then {r.net / 256} else {});
    if o.plan.Some? && item.len > 0 {
      AddedGroups(e, n, r, item.entry);
    }
  }

  lemma OneMoreFits(e: Engine, n: nat, long: set<nat>)
    requires PoolOk(e, n) && |long| <= 1
    ensures |e.groups.Keys + long| <= n <==> (long <= e.groups.Keys || !Exhausted(e))
    ensures long <= e.groups.Keys ==> e.groups.Keys + long == e.groups.Keys
  {
    PoolCard(e, n);
    assert |e.groups| == |e.groups.Keys|;
    if long <= e.groups.Keys {
      assert e.groups.Keys + long == e.groups.Keys;
    } else {
      var b :| b in long && b !in e.groups;
      assert |long - {b}| == 0;
      assert long == {b};
      assert |e.groups.Keys + long| == |e.groups.Keys| + 1;
    }
  }

  lemma AddedGroups(e: Engine, n: nat, r: Route, entry: FibEntry)
    requires Valid(e, n) && r.len > 0 && r.net == Net(r.net, r.len)
    requires SyncAll(Insert(e, r, entry), AffectedBlocks(r.net, r.len)).plan.Some?
    ensures SyncAll(Insert(e, r, entry), AffectedBlocks(r.net, r.len)).engine.groups.Keys
         == e.groups.Keys + if r.len > 24 then {r.net / 256} else {}
  {
    var e1, blks := Insert(e, r, entry), AffectedBlocks(r.net, r.len);
    InsertIsDirty(e, n, r, entry);
    InsertLongBlocks(e, r, entry);
    SyncKeepsValid(e, e1, n, blks);
    var long: set<nat> := if r.len > 24 then {r.net / 256} else {};
    SameKeys(SyncAll(e1, blks).engine.groups, e.groups.Keys + long);
  }

  lemma NewGroupBlocksTogether(e: Engine, batch: seq<Item>)
    requires GoodLengths(batch) && batch != []
    ensures var last := batch[|batch| - 1];
      var before := e.groups.Keys + NewGroupBlocks(e, batch[..|batch| - 1]);
      var after := e.groups.Keys + NewGroupBlocks(e, batch);
      && after == before + (if last.len > 24 then {RouteOf(last).net / 256} else {})
      && |before| <= |after|
  {
    NewGroupBlocksStep(e, batch);
    Subset(e.groups.Keys + NewGroupBlocks(e, batch[..|batch| - 1]), e.groups.Keys + NewGroupBlocks(e, batch));
  }

  /** What serial adds do: they succeed exactly when every length is good and the blocks gaining a group
      fit the pool. */
  ghost predicate SerialDoes(e: Engine, n: nat, batch: seq<Item>, o: Outcome)
  {
    && (o.plan.Some? <==> GoodLengths(batch) && |e.groups.Keys + NewGroupBlocks(e, batch)| <= n)
    && (o.plan.Some? ==> o.engine.shadow == InsertAll(e, batch).shadow)
    && (o.plan.Some? ==> o.engine.groups.Keys == e.groups.Keys + NewGroupBlocks(e, batch))
  }

  lemma {:induction false} SerialOutcome(e: Engine, n: nat, batch: seq<Item>)
    requires Valid(e, n)
    ensures Valid(RouteAddSerial(e, batch).engine, n)
    ensures SerialDoes(e, n, batch, RouteAddSerial(e, batch))
  {
    if batch == [] {
      SerialNone(e, n);
    } else {
      var init := batch[..|batch| - 1];
      SerialOutcome(e, n, init);
      var before := RouteAddSerial(e, init);
      if before.plan.Some? {
        SerialLast(e, n, batch, before);
      } else {
        SerialStops(e, n, batch, before);
      }
    }
  }

  lemma SerialNone(e: Engine, n: nat)
    requires Valid(e, n)
    ensures SerialDoes(e, n, [], Outcome(e, Some([])))
  {
    PoolCard(e, n);
    assert NewGroupBlocks(e, []) == {};
    assert e.groups.Keys + {} == e.groups.Keys;
    assert |e.groups| == |e.groups.Keys|;
  }

  lemma SerialLast(e: Engine, n: nat, batch: seq<Item>, before: Outcome)
    requires batch != [] && before.plan.Some? && Valid(before.engine, n)
    requires SerialDoes(e, n, batch[..|batch| - 1], before)
    ensures var item := batch[|batch| - 1];
      var o := RouteAdd(before.engine, item.addr, item.len, item.entry);
      && Valid(o.engine, n)
      && SerialDoes(e, n, batch, if o.plan == None then o
        else Outcome(o.engine, Some(before.plan.value + o.plan.value)))
  {
    var item := batch[|batch| - 1];
    RouteAddAtomic(before.engine, n, item.addr, item.len, item.entry);
    if item.len <= 32 {
      AddGroups(before.engine, n, item);
    }
    SerialStep(e, n, batch, before, RouteAdd(before.engine, item.addr, item.len, item.entry));
  }

  lemma SerialStops(e: Engine, n: nat, batch: seq<Item>, before: Outcome)
    requires batch != [] && before.plan == None && SerialDoes(e, n, batch[..|batch| - 1], before)
    ensures SerialDoes(e, n, batch, before)
  {
    var init := batch[..|batch| - 1];
    if GoodLengths(batch) {
      assert GoodLengths(init);
      NewGroupBlocksTogether(e, batch);
    }
  }

  lemma SerialStep(e: Engine, n: nat, batch: seq<Item>, before: Outcome, o: Outcome)
    requires batch != [] && before.plan.Some? && SerialDoes(e, n, batch[..|batch| - 1], before)
    requires var item := batch[|batch| - 1];
      && (item.len > 32 ==> o.plan == None)
      && (item.len <= 32 ==>
            var all := before.engine.groups.Keys + if item.len > 24 then {RouteOf(item).net / 256} else {};
            && (o.plan.Some? <==> |all| <= n)
            && (o.plan.Some? ==> o.engine.groups.Keys == all)
            && (o.plan.Some? ==> o.engine.shadow == before.engine.shadow[RouteOf(item) := item.entry]))
    ensures SerialDoes(e, n, batch, o)
  {
    var init, item := batch[..|batch| - 1], batch[|batch| - 1];
    if item.len <= 32 {
      assert GoodLengths(batch) by { assert batch == init + [item]; }
      NewGroupBlocksTogether(e, batch);
    }
  }

  lemma Subset(a: set<nat>, b: set<nat>)
    requires a <= b
    ensures |a| <= |b|
  {
    assert b == a + (b - a);
  }

  /** Applying the serial plans keeps the tables in agreement. */
  lemma {:induction false} SerialAgrees(e: Engine, t: Tables, n: nat, batch: seq<Item>)
    requires Valid(e, n) && Agree(e, t, n) && RouteAddSerial(e, batch).plan.Some?
    ensures var o := RouteAddSerial(e, batch);
      Valid(o.engine, n) && Agree(o.engine, ApplyAll(t, o.plan.value), n)
  {
    if batch != [] {
      var init, item := batch[..|batch| - 1], batch[|batch| - 1];
      SerialAgrees(e, t, n, init);
      var before := RouteAddSerial(e, init);
      var t1 := ApplyAll(t, before.plan.value);
      var o := RouteAdd(before.engine, item.addr, item.len, item.entry);
      RouteAddAtomic(before.engine, n, item.addr, item.len, item.entry);
      RouteAddSafe(before.engine, t1, n, item.addr, item.len, item.entry, 0, 0);
      ApplyConcat(t, before.plan.value, o.plan.value);
    }
  }

  /** A batch succeeds exactly when adding its routes one by one does. */
  lemma BulkSucceedsWithSerial(e: Engine, n: nat, batch: seq<Item>)
    requires Valid(e, n)
    ensures RouteAddBulk(e, batch).plan.Some? <==> RouteAddSerial(e, batch).plan.Some?
  {
    BulkAtomic(e, n, batch);
    SerialOutcome(e, n, batch);
    if GoodLengths(batch) {
      NewGroupBlocksFit(e, n, batch);
    }
  }

  /** Then the routes, the grouped blocks and the room left in the pool agree. */
  lemma BulkEngineEqualsSerial(e: Engine, n: nat, batch: seq<Item>)
    requires Valid(e, n) && RouteAddBulk(e, batch).plan.Some? && RouteAddSerial(e, batch).plan.Some?
    ensures var bulk, serial := RouteAddBulk(e, batch).engine, RouteAddSerial(e, batch).engine;
      bulk.shadow == serial.shadow && bulk.groups.Keys == serial.groups.Keys && Available(bulk) == Available(serial)
  {
    BulkAtomic(e, n, batch);
    BulkGroups(e, n, batch);
    SerialOutcome(e, n, batch);
    SameRoom(RouteAddBulk(e, batch).engine, RouteAddSerial(e, batch).engine, n);
  }

  lemma SameRoom(e: Engine, e': Engine, n: nat)
    requires PoolOk(e, n) && PoolOk(e', n) && e.groups.Keys == e'.groups.Keys
    ensures Available(e) == Available(e')
  {
    PoolCard(e, n);
    PoolCard(e', n);
    assert |e.groups| == |e.groups.Keys| && |e'.groups| == |e'.groups.Keys|;
  }

  /** And so does the lookup of every address, though group numbers may differ. */
  lemma BulkLookupEqualsSerial(e: Engine, t: Tables, n: nat, batch: seq<Item>, a: U32)
    requires Valid(e, n) && Agree(e, t, n)
    requires RouteAddBulk(e, batch).plan.Some? && RouteAddSerial(e, batch).plan.Some?
    ensures Fib4Lookup(ApplyAll(t, RouteAddBulk(e, batch).plan.value), a)
         == Fib4Lookup(ApplyAll(t, RouteAddSerial(e, batch).plan.value), a)
  {
    var bulk, serial := RouteAddBulk(e, batch), RouteAddSerial(e, batch);
    BulkAgrees(e, t, n, batch);
    SerialAgrees(e, t, n, batch);
    AgreeIsMeaning(bulk.engine, ApplyAll(t, bulk.plan.value), n, a);
    AgreeIsMeaning(serial.engine, ApplyAll(t, serial.plan.value), n, a);
    BulkEngineEqualsSerial(e, n, batch);
  }

  // ---- a batch that mixes the default route with longer ones ----

  const MIXED := [Item(0, 0, FibEntry(1, 0)), Item(0x0a00_0000, 8, FibEntry(2, 0))]

  /** The default word is written first, so a mixed batch shows an address a state that is neither the
      old nor the new table: here 10.0.0.1 briefly follows the new default. */
  lemma MixedBatchIsNotSafe()
    ensures var e, t := New(1), ZeroTables(1);
      var o := RouteAddBulk(e, MIXED);
      && Valid(e, 1) && Agree(e, t, 1)
      && o.plan.Some? && |o.plan.value| >= 1
      && !OldOrNew(e.shadow, o.engine.shadow, ApplyAll(t, o.plan.value[..1]), 0x0a00_0001)
  {
    var e, t, a := New(1), ZeroTables(1), 0x0a00_0001;
    var o := RouteAddBulk(e, MIXED);
    var w := Default(PackEntry(FibEntry(1, 0)));
    NewIsValid(1);
    NewAgrees(1);
    MixedBatchIsAccepted();
    assert o.plan.value[..1] == [w];
    ApplyOne(t, w);
    EntryWord(FibEntry(1, 0));
    MixedBatchShows(t, w, a);
    AgreeIsMeaning(e, t, 1, a);
    MixedBatchMeaning();
  }

  lemma MixedBatchShows(t: Tables, w: SlotWrite, a: U32)
    requires t == ZeroTables(1) && w == Default(PackEntry(FibEntry(1, 0)))
    ensures Fib4Lookup(t, a) == None
    ensures Fib4Lookup(Apply(t, w), a) == Some(FibEntry(1, 0))
  {
    EntryWord(FibEntry(1, 0));
    assert t.tbl24[a / 256] == 0;
    assert View(t, a) == Some(0) && View(Apply(t, w), a) == Some(0);
  }

  lemma MixedBatchIsAccepted()
    ensures GoodLengths(MIXED)
    ensures RouteAddBulk(New(1), MIXED).plan.Some?
    ensures RouteAddBulk(New(1), MIXED).engine.shadow == InsertAll(New(1), MIXED).shadow
    ensures DefaultWrites(MIXED) == [Default(PackEntry(FibEntry(1, 0)))]
  {
    assert GoodLengths(MIXED);
    NewIsValid(1);
    assert NewGroupBlocks(New(1), MIXED) == {};
    BulkAtomic(New(1), 1, MIXED);
    var init := [MIXED[0]];
    assert MIXED[..1] == init && init[..0] == [];
    assert DefaultWrites(init) == [Default(PackEntry(FibEntry(1, 0)))];
  }

  lemma MixedBatchMeaning()
    ensures GoodLengths(MIXED)
    ensures Meaning(InsertAll(New(1), MIXED).shadow, 0x0a00_0001) == Some(FibEntry(2, 0))
  {
    assert GoodLengths(MIXED);
    var a: U32 := 0x0a00_0001;
    var r := RouteOf(MIXED[1]);
    var init := [MIXED[0]];
    assert MIXED[..1] == init && init[..0] == [];
    var s0, s := InsertAll(New(1), init).shadow, InsertAll(New(1), MIXED).shadow;
    assert InsertAll(New(1), init[..0]).shadow == map[];
    assert s0 == map[RouteOf(MIXED[0]) := FibEntry(1, 0)];
    assert s == s0[r := FibEntry(2, 0)];
    BlocksInTable(r.net, 8);
    MatchShort(r.net, 8, 0x0a00_0000);
    assert 0x0a00_0000 / 256 == a / 256;
    MatchShort(r.net, 8, a);
    assert Covers(s, a, 8) && s[Route(Net(a, 8), 8)] == FibEntry(2, 0);
    assert LongestMatch(s, a, 32, 0, Some(FibEntry(2, 0)));
    BestIsLongestMatch(s, a, 32, 0, Some(FibEntry(2, 0)));
  }

  lemma NewAgrees(n: nat)
    requires n <= MAX_GROUPS
    ensures Agree(New(n), ZeroTables(n), n)
  {
    var e, t := New(n), ZeroTables(n);
    forall a: U32 ensures SlotWord(e.shadow, a) == 0 {
      EmptyHasNoMatch(a, 32, 1);
    }
  }

  lemma {:induction false} EmptyHasNoMatch(addr: U32, hi: Len, lo: Len)
    ensures Best(map[], addr, hi, lo) == None
    decreases hi
  {
    if hi > 0 {
      EmptyHasNoMatch(addr, hi - 1, lo);
    }
  }
}
