/** What a reader sees while a plan is being written, word by word. */
module Dir24Refinement {
  import opened Prefix
  import opened FibWord
  import opened Wrappers
  import opened Dir24
  import opened Dir24Pool
  import opened Fib4

  /** The table points exactly the blocks with a group at their group. */
  ghost predicate Pointers(t: Tables, e: Engine)
  {
    forall b | 0 <= b < |t.tbl24| ::
      if b in e.groups then t.tbl24[b] == PackGroup(e.groups[b]) else !IsGroup(t.tbl24[b])
  }

  /** The word a synchronised block gives an address. */
  function Target(e: Engine, addr: U32): Word
  {
    if HasLong(e, addr / 256) then SlotWord(e.shadow, addr) else CoverWord(e.shadow, addr / 256)
  }

  predicate Fits(t: Tables, n: nat)
  {
    Sized(t, n) && n <= MAX_GROUPS
  }

  // ---- plans stay inside the tables ----

  predicate PlanInBounds(plan: seq<SlotWrite>, n: nat)
  {
    forall w | w in plan ::
      match w
      case Tbl24(blk, _) => blk < BLOCKS
      case Tbl8(slot, _) => slot < n * 256
      case Default(_) => true
  }

  lemma SyncBlockInBounds(e: Engine, n: nat, blk: nat)
    requires PoolOk(e, n) && blk < BLOCKS
    ensures var o := SyncBlock(e, blk); o.plan.Some? ==> PlanInBounds(o.plan.value, n)
  {
    SyncBlockPool(e, n, blk);
  }

  lemma {:induction false} SyncAllInBounds(e: Engine, n: nat, blks: seq<nat>)
    requires PoolOk(e, n) && InTable(blks)
    ensures var o := SyncAll(e, blks); o.plan.Some? ==> PlanInBounds(o.plan.value, n)
    decreases |blks|
  {
    if blks != [] {
      SyncBlockInBounds(e, n, blks[0]);
      SyncBlockPool(e, n, blks[0]);
      SyncAllInBounds(SyncBlock(e, blks[0]).engine, n, blks[1..]);
    }
  }

  // ---- one block ----

  /** Part of a group fill: the slots below `k` are written, nothing else moves. */
  lemma {:induction false} ApplyFill(t: Tables, n: nat, shadow: Shadow, blk: nat, g: nat, k: nat)
    requires Fits(t, n) && g < n && blk < BLOCKS && k <= 256
    ensures var t' := ApplyAll(t, Fill(shadow, blk, g)[..k]);
      && t'.tbl24 == t.tbl24 && t'.default4 == t.default4
      && forall s | 0 <= s < |t.tbl8| ::
           t'.tbl8[s] == if s / 256 == g && s % 256 < k then SlotWord(shadow, blk * 256 + s % 256) else t.tbl8[s]
  {
    var plan := Fill(shadow, blk, g);
    if k > 0 {
      ApplyFill(t, n, shadow, blk, g, k - 1);
      assert plan[..k][..k - 1] == plan[..k - 1];
      assert plan[k - 1] == Tbl8(g * 256 + (k - 1), SlotWord(shadow, blk * 256 + (k - 1)));
    }
  }

  function SlotOf(n: nat, g: nat, addr: U32): (slot: nat)
    requires g < n
    ensures slot / 256 == g && slot < n * 256
  {
    g * 256 + addr % 256
  }

  lemma LoadSlot(t: Tables, n: nat, g: nat, addr: U32)
    requires g < n <= MAX_GROUPS && SlotOf(n, g, addr) < |t.tbl8|
    ensures Load8(t, PackGroup(g), addr) == Some(t.tbl8[SlotOf(n, g, addr)])
  {
    GroupWord(g);
  }

  /** One address's load through a group word, in a partly filled group `g` and in any other group. */
  lemma FillLoad(t: Tables, n: nat, shadow: Shadow, blk: nat, g: nat, k: nat, h: nat, addr: U32)
    requires Fits(t, n) && g < n && h < n && blk < BLOCKS && k <= 256
    ensures var t' := ApplyAll(t, Fill(shadow, blk, g)[..k]);
      Load8(t', PackGroup(h), addr) ==
        if h == g && addr % 256 < k then Some(SlotWord(shadow, blk * 256 + addr % 256))
        else Load8(t, PackGroup(h), addr)
  {
    var t' := ApplyAll(t, Fill(shadow, blk, g)[..k]);
    ApplyFill(t, n, shadow, blk, g, k);
    LoadSlot(t, n, h, addr);
    LoadSlot(t', n, h, addr);
    assert SlotOf(n, h, addr) % 256 == addr % 256;
  }

  /** A group that only `blk` may point at can be filled without any other address noticing. */
  lemma FillView(e: Engine, t: Tables, n: nat, blk: nat, g: nat, k: nat, addr: U32)
    requires PoolOk(e, n) && Fits(t, n) && Pointers(t, e) && blk < BLOCKS && g < n && k <= 256
    requires forall b | b in e.groups && e.groups[b] == g :: b == blk
    ensures var t' := ApplyAll(t, Fill(e.shadow, blk, g)[..k]);
      && t'.tbl24 == t.tbl24 && t'.default4 == t.default4
      && (addr / 256 != blk ==> View(t', addr) == View(t, addr))
      && (addr / 256 == blk && blk in e.groups && e.groups[blk] == g ==>
            View(t', addr) == if addr % 256 < k then Some(SlotWord(e.shadow, addr)) else View(t, addr))
      && (addr / 256 == blk && blk !in e.groups ==> View(t', addr) == View(t, addr))
      && (addr / 256 == blk && k == 256 ==> Load8(t', PackGroup(g), addr) == Some(SlotWord(e.shadow, addr)))
  {
    ApplyFill(t, n, e.shadow, blk, g, k);
    FillLoad(t, n, e.shadow, blk, g, k, g, addr);
    var b := addr / 256;
    if b in e.groups {
      FillLoad(t, n, e.shadow, blk, g, k, e.groups[b], addr);
    }
  }

  /** How a plan under way may show an address: untouched outside the affected blocks, old or target inside. */
  predicate Seen(before: Option<Word>, now: Option<Word>, target: Word, affected: bool, done: bool)
  {
    if !affected then now == before
    else now == Some(target) || (!done && now == before)
  }

  /** After any number of a block's writes, its addresses hold the old word or the target word, and no
      other address has moved. After all of them they hold the target. */
  lemma SyncBlockView(e: Engine, t: Tables, n: nat, blk: nat, k: nat, addr: U32)
    requires PoolOk(e, n) && Fits(t, n) && Pointers(t, e) && blk < BLOCKS
    requires SyncBlock(e, blk).plan.Some? && k <= |SyncBlock(e, blk).plan.value|
    ensures var plan := SyncBlock(e, blk).plan.value;
      var t' := ApplyAll(t, plan[..k]);
      && t'.default4 == t.default4
      && Seen(View(t, addr), View(t', addr), Target(e, addr), addr / 256 == blk, k == |plan|)
  {
    if HasLong(e, blk) {
      if blk in e.groups {
        FillView(e, t, n, blk, e.groups[blk], k, addr);
      } else {
        AllocFresh(e, n, blk);
        NewGroupView(e, t, n, blk, AllocGroup(e).value.0, k, addr);
      }
    } else {
      var w := Tbl24(blk, CoverWord(e.shadow, blk));
      CoverIsDirect(e.shadow, blk);
      if k == 1 {
        assert SyncBlock(e, blk).plan.value[..1] == [w];
        ApplyOne(t, w);
      }
    }
  }

  /** Fill-then-flip: nothing shows before the flip. */
  lemma NewGroupView(e: Engine, t: Tables, n: nat, blk: nat, g: nat, k: nat, addr: U32)
    requires PoolOk(e, n) && Fits(t, n) && Pointers(t, e) && blk < BLOCKS
    requires blk !in e.groups && g < n && g !in e.groups.Values && HasLong(e, blk) && k <= 257
    ensures var t' := ApplyAll(t, (Fill(e.shadow, blk, g) + [Tbl24(blk, PackGroup(g))])[..k]);
      && t'.default4 == t.default4
      && Seen(View(t, addr), View(t', addr), Target(e, addr), addr / 256 == blk, k == 257)
  {
    var fill, flip := Fill(e.shadow, blk, g), Tbl24(blk, PackGroup(g));
    if k <= 256 {
      assert (fill + [flip])[..k] == fill[..k];
      FillView(e, t, n, blk, g, k, addr);
    } else {
      assert (fill + [flip])[..k] == fill[..256] + [flip];
      FillView(e, t, n, blk, g, 256, addr);
      ApplyConcat(t, fill[..256], [flip]);
      ApplyOne(ApplyAll(t, fill[..256]), flip);
    }
  }

  lemma AllocFresh(e: Engine, n: nat, blk: nat)
    requires PoolOk(e, n) && !Exhausted(e)
    ensures AllocGroup(e).Some?
    ensures var g := AllocGroup(e).value.0; g < n && g !in e.groups.Values
  {
    if |e.free| > 0 {
      assert AllocGroup(e).value.0 in e.free;
    } else {
      assert AllocGroup(e).value.0 in e.quarantine;
    }
  }

  lemma CoverIsDirect(shadow: Shadow, blk: nat)
    requires blk < BLOCKS
    ensures !IsGroup(CoverWord(shadow, blk))
  {
    var best := Best(shadow, blk * 256, 24, 1);
    if best.Some? {
      EntryWord(best.value);
    }
  }

  /** After all of a block's writes the table points where the new engine says. */
  lemma SyncBlockPointers(e: Engine, t: Tables, n: nat, blk: nat)
    requires PoolOk(e, n) && Fits(t, n) && Pointers(t, e) && blk < BLOCKS
    requires SyncBlock(e, blk).plan.Some?
    ensures var o := SyncBlock(e, blk); Pointers(ApplyAll(t, o.plan.value), o.engine)
  {
    var o := SyncBlock(e, blk);
    SyncBlockPool(e, n, blk);
    if HasLong(e, blk) {
      var g := o.engine.groups[blk];
      if blk !in e.groups {
        AllocFresh(e, n, blk);
      }
      FillPointers(t, n, e.shadow, blk, g);
      GroupWord(g);
    } else {
      CoverIsDirect(e.shadow, blk);
      ApplyOne(t, Tbl24(blk, CoverWord(e.shadow, blk)));
    }
  }

  /** Filling a group leaves the block words; the flip after it sets one. */
  lemma FillPointers(t: Tables, n: nat, shadow: Shadow, blk: nat, g: nat)
    requires Fits(t, n) && g < n && blk < BLOCKS
    ensures ApplyAll(t, Fill(shadow, blk, g)).tbl24 == t.tbl24
    ensures ApplyAll(t, Fill(shadow, blk, g) + [Tbl24(blk, PackGroup(g))]).tbl24 == t.tbl24[blk := PackGroup(g)]
  {
    var fill, flip := Fill(shadow, blk, g), Tbl24(blk, PackGroup(g));
    ApplyFill(t, n, shadow, blk, g, 256);
    assert fill[..256] == fill;
    ApplyConcat(t, fill, [flip]);
    ApplyOne(ApplyAll(t, fill), flip);
  }

  // ---- a run of blocks ----

  lemma {:induction false} SyncAllPointers(e: Engine, t: Tables, n: nat, blks: seq<nat>)
    requires PoolOk(e, n) && Fits(t, n) && Pointers(t, e) && InTable(blks)
    requires SyncAll(e, blks).plan.Some?
    ensures var o := SyncAll(e, blks); Pointers(ApplyAll(t, o.plan.value), o.engine)
    decreases |blks|
  {
    if blks != [] {
      var first := SyncBlock(e, blks[0]);
      var rest := SyncAll(first.engine, blks[1..]);
      SyncBlockPool(e, n, blks[0]);
      SyncBlockPointers(e, t, n, blks[0]);
      SyncAllPointers(first.engine, ApplyAll(t, first.plan.value), n, blks[1..]);
      ApplyConcat(t, first.plan.value, rest.plan.value);
    }
  }

  /** A prefix of a run's plan is a prefix of the first block's plan, or all of it and a prefix of the rest. */
  lemma SyncAllPrefix(e: Engine, t: Tables, blks: seq<nat>, k: nat)
    requires InTable(blks) && blks != []
    requires SyncAll(e, blks).plan.Some? && k <= |SyncAll(e, blks).plan.value|
    ensures var plan := SyncAll(e, blks).plan.value;
      var first := SyncBlock(e, blks[0]);
      var rest := SyncAll(first.engine, blks[1..]);
      && first.plan.Some? && rest.plan.Some?
      && var p, q := first.plan.value, rest.plan.value;
      && |plan| == |p| + |q|
      && (k < |p| ==> ApplyAll(t, plan[..k]) == ApplyAll(t, p[..k]))
      && (k >= |p| ==> ApplyAll(t, plan[..k]) == ApplyAll(ApplyAll(t, p), q[..k - |p|]))
  {
    var first := SyncBlock(e, blks[0]);
    var p, q := first.plan.value, SyncAll(first.engine, blks[1..]).plan.value;
    ApplyPrefix(t, p, q, k);
  }

  /** After one block the run goes on from a state like the one it began from, towards the same targets. */
  lemma SyncHead(e: Engine, t: Tables, n: nat, blk: nat, addr: U32)
    requires PoolOk(e, n) && Fits(t, n) && Pointers(t, e) && blk < BLOCKS
    requires SyncBlock(e, blk).plan.Some?
    ensures var o := SyncBlock(e, blk);
      var t1 := ApplyAll(t, o.plan.value);
      PoolOk(o.engine, n) && Fits(t1, n) && Pointers(t1, o.engine) && Target(o.engine, addr) == Target(e, addr)
  {
    SyncBlockPool(e, n, blk);
    SyncBlockPointers(e, t, n, blk);
  }

  /** Whole writes towards a target, then some more elsewhere or some elsewhere before them. */
  lemma SeenThen(a: Option<Word>, b: Option<Word>, c: Option<Word>, target: Word, first: bool, later: bool, done: bool)
    requires Seen(a, b, target, first, true) && Seen(b, c, target, later, done) && !(first && later)
    ensures Seen(a, c, target, first || later, done)
  {
  }

  /** After any number of a run's writes: every address of the run's blocks holds the old word or the
      target, every other address is untouched; after all of them the run's addresses hold the target. */
  lemma {:induction false} SyncAllView(e: Engine, t: Tables, n: nat, blks: seq<nat>, k: nat, addr: U32)
    requires PoolOk(e, n) && Fits(t, n) && Pointers(t, e) && InTable(blks) && Distinct(blks)
    requires SyncAll(e, blks).plan.Some? && k <= |SyncAll(e, blks).plan.value|
    ensures var plan := SyncAll(e, blks).plan.value;
      var t' := ApplyAll(t, plan[..k]);
      && t'.default4 == t.default4
      && Seen(View(t, addr), View(t', addr), Target(e, addr), addr / 256 in blks, k == |plan|)
    decreases |blks|
  {
    if blks != [] {
      var blk, later := blks[0], blks[1..];
      assert blks == [blk] + later && blk !in later;
      SyncAllPrefix(e, t, blks, k);
      var p := SyncBlock(e, blk).plan.value;
      if k < |p| {
        SyncBlockView(e, t, n, blk, k, addr);
      } else {
        SyncBlockView(e, t, n, blk, |p|, addr);
        assert p[..|p|] == p;
        SyncHead(e, t, n, blk, addr);
        var t1, t' := ApplyAll(t, p), ApplyAll(t, SyncAll(e, blks).plan.value[..k]);
        SyncAllView(SyncBlock(e, blk).engine, t1, n, later, k - |p|, addr);
        SeenThen(View(t, addr), View(t1, addr), View(t', addr), Target(e, addr), addr / 256 == blk,
          addr / 256 in later, k == |SyncAll(e, blks).plan.value|);
      }
    }
  }
}
