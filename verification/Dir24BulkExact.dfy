/** Exactly when a bulk plan is prefix-safe for an address. */
module Dir24BulkExact {
  import opened FibWord
  import opened Wrappers
  import opened Dir24
  import opened Dir24Pool
  import opened Dir24Routes
  import opened Dir24Theorems
  import opened Dir24Bulk
  import opened Fib4

  /** The batch's default routes, in order. */
  function DefaultEntries(batch: seq<Item>): seq<FibEntry>
  {
    if batch == [] then []
    else
      var item := batch[|batch| - 1];
      DefaultEntries(batch[..|batch| - 1]) + if item.len == 0 then [item.entry] else []
  }

  lemma {:induction false} DefaultWritesAre(batch: seq<Item>)
    ensures |DefaultWrites(batch)| == |DefaultEntries(batch)|
    ensures forall i | 0 <= i < |DefaultWrites(batch)|  ::
      DefaultWrites(batch)[i] == Default(PackEntry(DefaultEntries(batch)[i]))
  {
    if batch != [] {
      DefaultWritesAre(batch[..|batch| - 1]);
    }
  }

  /** The address is untouched by the early default writes, or each of them gives it what it had or will have. */
  predicate Harmless(before: Shadow, after: Shadow, batch: seq<Item>, a: U32)
  {
    || Best(before, a, 32, 1).Some?
    || forall entry | entry in DefaultEntries(batch) ::
      Some(Truncated(entry)) == Meaning(before, a) || Some(Truncated(entry)) == Meaning(after, a)
  }

  lemma {:induction false} DefaultAfter(t: Tables, batch: seq<Item>, k: nat)
    requires k <= |DefaultWrites(batch)|
    ensures |DefaultWrites(batch)| == |DefaultEntries(batch)|
    ensures ApplyAll(t, DefaultWrites(batch)[..k]).default4 ==
      if k == 0 then t.default4 else PackEntry(DefaultEntries(batch)[k - 1])
  {
    var p := DefaultWrites(batch);
    DefaultWritesAre(batch);
    if k == 0 {
      assert p[..0] == [];
    } else {
      assert p[..k] == p[..k - 1] + [p[k - 1]];
      ApplyConcat(t, p[..k - 1], [p[k - 1]]);
      ApplyOne(ApplyAll(t, p[..k - 1]), p[k - 1]);
    }
  }

  /** While the default writes go out. */
  lemma DefaultPhase(e: Engine, t: Tables, n: nat, batch: seq<Item>, k: nat, a: U32)
    requires Agree(e, t, n) && GoodLengths(batch) && k <= |DefaultWrites(batch)|
    ensures |DefaultWrites(batch)| == |DefaultEntries(batch)|
    ensures Fib4Lookup(ApplyAll(t, DefaultWrites(batch)[..k]), a) ==
      if k == 0 || Best(e.shadow, a, 32, 1).Some? then Meaning(e.shadow, a)
        else Some(Truncated(DefaultEntries(batch)[k - 1]))
  {
    DefaultsView(e, t, batch, k, a);
    DefaultAfter(t, batch, k);
    CoveredLookup(e.shadow, a, ApplyAll(t, DefaultWrites(batch)[..k]).default4);
    FinishIsMeaning(e.shadow, a);
    if k > 0 {
      EntryWord(DefaultEntries(batch)[k - 1]);
    }
  }

  /** Afterwards: the new longest match, or still what the default writes left. */
  lemma RunPhase(e: Engine, t: Tables, n: nat, batch: seq<Item>, j: nat, a: U32)
    requires Valid(e, n) && Agree(e, t, n) && GoodLengths(batch)
    requires var run := SyncAll(InsertAll(e, batch), BulkBlocks(batch)); run.plan.Some? && j <= |run.plan.value|
    ensures var t1 := ApplyAll(t, DefaultWrites(batch));
      var found := Fib4Lookup(ApplyAll(t1, SyncAll(InsertAll(e, batch), BulkBlocks(batch)).plan.value[..j]), a);
      found == Meaning(InsertAll(e, batch).shadow, a) || found == Fib4Lookup(t1, a)
  {
    var e1, t1 := InsertAll(e, batch), ApplyAll(t, DefaultWrites(batch));
    BulkIsDirty(e, n, batch);
    BulkStart(e, t, n, batch);
    SyncView(e, e1, t1, n, BulkBlocks(batch), j, a);
    FinishIsMeaning(e1.shadow, a);
  }

  /** A bulk plan shows an address only its old or its new longest match, at every point, exactly when a
      route longer than the default already covers the address, or every default route in the batch is what
      the address had or will have. Without a default route in the batch that is always so. */
  lemma BulkSafeExactly(e: Engine, t: Tables, n: nat, batch: seq<Item>, a: U32)
    requires Valid(e, n) && Agree(e, t, n) && RouteAddBulk(e, batch).plan.Some?
    ensures var o := RouteAddBulk(e, batch);
      (forall k: nat | k <= |o.plan.value| :: OldOrNew(e.shadow, o.engine.shadow, ApplyAll(t, o.plan.value[..k]), a))
        <==> Harmless(e.shadow, o.engine.shadow, batch, a)
  {
    var o := RouteAddBulk(e, batch);
    if Harmless(e.shadow, o.engine.shadow, batch, a) {
      forall k: nat | k <= |o.plan.value|
        ensures OldOrNew(e.shadow, o.engine.shadow, ApplyAll(t, o.plan.value[..k]), a)
      {
        SafeAt(e, t, n, batch, k, a);
      }
    } else {
      var i := ShownDefault(e.shadow, o.engine.shadow, batch, a);
      UnsafeAt(e, t, n, batch, i, a);
    }
  }

  lemma ShownDefault(before: Shadow, after: Shadow, batch: seq<Item>, a: U32) returns (i: nat)
    requires !Harmless(before, after, batch, a)
    ensures i < |DefaultEntries(batch)| && Best(before, a, 32, 1) == None
    ensures var shown := Some(Truncated(DefaultEntries(batch)[i]));
      shown != Meaning(before, a) && shown != Meaning(after, a)
  {
    var entry :| entry in DefaultEntries(batch) && Some(Truncated(entry)) != Meaning(before, a) &&
      Some(Truncated(entry)) != Meaning(after, a);
    i :| i < |DefaultEntries(batch)| && DefaultEntries(batch)[i] == entry;
  }

  lemma UnsafeAt(e: Engine, t: Tables, n: nat, batch: seq<Item>, i: nat, a: U32)
    requires Valid(e, n) && Agree(e, t, n) && RouteAddBulk(e, batch).plan.Some?
    requires i < |DefaultEntries(batch)| && Best(e.shadow, a, 32, 1) == None
    requires var shown := Some(Truncated(DefaultEntries(batch)[i]));
      shown != Meaning(e.shadow, a) && shown != Meaning(RouteAddBulk(e, batch).engine.shadow, a)
    ensures i + 1 <= |RouteAddBulk(e, batch).plan.value|
    ensures !OldOrNew(e.shadow, RouteAddBulk(e, batch).engine.shadow,
      ApplyAll(t, RouteAddBulk(e, batch).plan.value[..i + 1]), a)
  {
    DefaultWritesAre(batch);
    BulkPrefix(e, t, batch, 0);
    BulkPrefix(e, t, batch, i + 1);
    DefaultPhase(e, t, n, batch, i + 1, a);
  }

  /** Every state the default writes show is an old or a new one. */
  lemma SafeEarly(e: Engine, t: Tables, n: nat, batch: seq<Item>, after: Shadow, k: nat, a: U32)
    requires Agree(e, t, n) && GoodLengths(batch) && k <= |DefaultWrites(batch)| && Harmless(e.shadow, after, batch, a)
    ensures OldOrNew(e.shadow, after, ApplyAll(t, DefaultWrites(batch)[..k]), a)
  {
    DefaultPhase(e, t, n, batch, k, a);
    if k > 0 {
      assert DefaultEntries(batch)[k - 1] in DefaultEntries(batch);
    }
  }

  lemma SafeAt(e: Engine, t: Tables, n: nat, batch: seq<Item>, k: nat, a: U32)
    requires Valid(e, n) && Agree(e, t, n) && RouteAddBulk(e, batch).plan.Some? &&
      k <= |RouteAddBulk(e, batch).plan.value|
    requires Harmless(e.shadow, RouteAddBulk(e, batch).engine.shadow, batch, a)
    ensures OldOrNew(e.shadow, RouteAddBulk(e, batch).engine.shadow,
      ApplyAll(t, RouteAddBulk(e, batch).plan.value[..k]), a)
  {
    var p := DefaultWrites(batch);
    BulkAtomic(e, n, batch);
    BulkPrefix(e, t, batch, k);
    if k <= |p| {
      SafeEarly(e, t, n, batch, InsertAll(e, batch).shadow, k, a);
    } else {
      SafeLate(e, t, n, batch, k - |p|, a);
    }
  }

  /** And so is every state after them. */
  lemma SafeLate(e: Engine, t: Tables, n: nat, batch: seq<Item>, j: nat, a: U32)
    requires Valid(e, n) && Agree(e, t, n) && GoodLengths(batch)
    requires var run := SyncAll(InsertAll(e, batch), BulkBlocks(batch)); run.plan.Some? && j <= |run.plan.value|
    requires Harmless(e.shadow, InsertAll(e, batch).shadow, batch, a)
    ensures var t1, run := ApplyAll(t, DefaultWrites(batch)), SyncAll(InsertAll(e, batch), BulkBlocks(batch));
      OldOrNew(e.shadow, InsertAll(e, batch).shadow, ApplyAll(t1, run.plan.value[..j]), a)
  {
    var p := DefaultWrites(batch);
    assert p[..|p|] == p;
    SafeEarly(e, t, n, batch, InsertAll(e, batch).shadow, |p|, a);
    RunPhase(e, t, n, batch, j, a);
  }
}
