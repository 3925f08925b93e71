/** The lock-free reader: two loads at different moments, with route operations and single-word writes
    in between. */
module TornReader {
  import opened Prefix
  import opened FibWord
  import opened Wrappers
  import opened Dir24
  import opened Dir24Pool
  import opened Dir24Refinement
  import opened Dir24Routes
  import opened Dir24Theorems
  import opened Dir24Bulk
  import opened Dir24Runs
  import opened Fib4

  /** The writer at one moment: the operation in hand, the engine and tables it began from, the engine
      after it, its plan, how many words of the plan are written, and the tables a reader can load. */
  datatype Writer = Writer(prev: Engine, op: Op, base: Tables, eng: Engine, plan: seq<SlotWrite>, done: nat,
      tabs: Tables)
  {
    predicate Busy() { done < |plan| }

    ghost predicate Ok(n: nat)
    {
      && Valid(prev, n) && Agree(prev, base, n)
      && eng == Do(prev, op).engine && plan == PlanOf(Do(prev, op)) && done <= |plan|
      && tabs == ApplyAll(base, plan[..done])
    }
  }

  /** A refused operation writes nothing. */
  function PlanOf(o: Outcome): seq<SlotWrite>
  {
    if o.plan == None then [] else o.plan.value
  }

  datatype Step = Write | Start(op: Op)

  /** One step: the next word of the plan, or, between plans, the next operation. */
  function Next(s: Writer, step: Step): Writer
  {
    match step
    case Write => if s.Busy() then s.(done := s.done + 1, tabs := Apply(s.tabs, s.plan[s.done])) else s
    case Start(op) => if s.Busy() then s else
      var o := Do(s.eng, op);
      Writer(s.eng, op, s.tabs, o.engine, PlanOf(o), 0, s.tabs)
  }

  lemma OkFacts(s: Writer, n: nat)
    requires s.Ok(n)
    ensures Valid(s.eng, n) && Fits(s.tabs, n)
    ensures !s.Busy() ==> Agree(s.eng, s.tabs, n)
  {
    DoAtomic(s.prev, n, s.op);
    assert s.plan[..|s.plan|] == s.plan;
    if Do(s.prev, s.op).plan.Some? {
      DoAgrees(s.prev, s.base, n, s.op);
    }
  }

  lemma NextOk(s: Writer, n: nat, step: Step)
    requires s.Ok(n)
    ensures Next(s, step).Ok(n)
  {
    OkFacts(s, n);
    var s1 := Next(s, step);
    if s.Busy() {
      assert s.plan[..s.done + 1][..s.done] == s.plan[..s.done];
    } else {
      assert s1.plan[..0] == [] && s.plan[..s.done] == s.plan;
    }
  }

  /** At every moment every address's word is the longest match before or after the operation in hand. */
  lemma WordIsOldOrNew(s: Writer, n: nat, a: U32)
    requires s.Ok(n)
    ensures View(s.tabs, a) == Some(SlotWord(s.prev.shadow, a)) || View(s.tabs, a) == Some(SlotWord(s.eng.shadow, a))
  {
    var o := Do(s.prev, s.op);
    if o.plan.Some? {
      DoView(s.prev, s.base, n, s.op, s.done, a);
    } else {
      assert s.plan[..s.done] == [];
    }
  }

  lemma DoView(e: Engine, t: Tables, n: nat, op: Op, k: nat, a: U32)
    requires Valid(e, n) && Agree(e, t, n) && Do(e, op).plan.Some? && k <= |Do(e, op).plan.value|
    ensures var t' := ApplyAll(t, Do(e, op).plan.value[..k]);
      View(t', a) == Some(SlotWord(e.shadow, a)) || View(t', a) == Some(SlotWord(Do(e, op).engine.shadow, a))
  {
    DoAtomic(e, n, op);
    match op
    case AddBulk(batch) =>
      BulkAtomic(e, n, batch);
      BulkView(e, t, n, batch, k, a);
    case Add(addr, len, entry) =>
      var r := Route(Net(addr, len), len);
      NetIdempotent(addr, len);
      if len == 0 {
        OneWordView(Default(PackEntry(entry)), t, k, a);
      } else {
        InsertIsDirty(e, n, r, entry);
        SyncView(e, Insert(e, r, entry), t, n, AffectedBlocks(r.net, len), k, a);
      }
    case Del(addr, len) =>
      var r := Route(Net(addr, len), len);
      NetIdempotent(addr, len);
      if r !in e.shadow {
      } else if len == 0 {
        OneWordView(Default(0), t, k, a);
      } else {
        RemoveIsDirty(e, n, r);
        SyncView(e, Remove(e, r), t, n, AffectedBlocks(r.net, len), k, a);
      }
  }

  lemma OneWordView(w: SlotWrite, t: Tables, k: nat, a: U32)
    requires w.Default? && k <= 1
    ensures View(ApplyAll(t, [w][..k]), a) == View(t, a)
  {
    OneWordPrefix(w, t, k);
    ApplyOne(t, w);
  }

  // ---- what an operation does to the pool ----

  /** A collapse's quarantine: the group goes to the back, and past 64 the oldest leaves. */
  function Pushed(q: seq<nat>, g: nat): seq<nat>
  {
    if |q| < QUARANTINE_DEPTH then q + [g] else (q + [g])[1..]
  }

  lemma {:induction false} SyncAllIdle(e: Engine, blks: seq<nat>)
    requires InTable(blks) && forall b | b in blks :: b in e.groups <==> HasLong(e, b)
    ensures SyncAll(e, blks).engine == e
    decreases |blks|
  {
    if blks != [] {
      assert SyncBlock(e, blks[0]).engine == e;
      SyncAllIdle(e, blks[1..]);
    }
  }

  /** A delete either leaves the pool alone or takes one block's group out of use, with a plan of one
      word: that block's direct word. */
  lemma DelPool(e: Engine, n: nat, addr: U32, len: nat)
    requires Valid(e, n) && len <= 32
    ensures var o := RouteDel(e, addr, len);
      var b := Net(addr, len) / 256;
      || (o.engine.groups == e.groups && o.engine.quarantine == e.quarantine)
      || (&& b < BLOCKS && b in e.groups && o.engine.groups == e.groups - {b}
          && o.engine.quarantine == Pushed(e.quarantine, e.groups[b])
          && o.plan == Some([Tbl24(b, CoverWord(o.engine.shadow, b))]))
  {
    var r := Route(Net(addr, len), len);
    NetIdempotent(addr, len);
    if len > 0 && r in e.shadow {
      if len > 24 && r.net / 256 in e.groups && !HasLong(Remove(e, r), r.net / 256) {
        DelCollapses(e, n, r);
      } else {
        DelIdle(e, n, r);
      }
    }
  }

  lemma DelCollapses(e: Engine, n: nat, r: Route)
    requires Valid(e, n) && r in e.shadow && r.len > 24 && r.net == Net(r.net, r.len)
    requires r.net / 256 in e.groups && !HasLong(Remove(e, r), r.net / 256)
    ensures var o := SyncAll(Remove(e, r), AffectedBlocks(r.net, r.len));
      var b := r.net / 256;
      && b < BLOCKS && o.engine.groups == e.groups - {b}
      && o.engine.quarantine == Pushed(e.quarantine, e.groups[b])
      && o.plan == Some([Tbl24(b, CoverWord(o.engine.shadow, b))])
  {
    var e1, b := Remove(e, r), r.net / 256;
    assert AffectedBlocks(r.net, r.len) == [b];
    DrainOnce(e1.(groups := e1.groups - {b}, quarantine := e1.quarantine + [e1.groups[b]]));
    var o := SyncBlock(e1, b);
    SyncOne(e1, b);
  }

  lemma SyncOne(e: Engine, b: nat)
    requires b < BLOCKS
    ensures SyncAll(e, [b]) == SyncBlock(e, b)
  {
    var o := SyncBlock(e, b);
    assert [b][1..] == [];
    if o.plan.Some? {
      assert o.plan.value + [] == o.plan.value;
    }
  }

  lemma DelIdle(e: Engine, n: nat, r: Route)
    requires Valid(e, n) && r in e.shadow && r.len > 0 && r.net == Net(r.net, r.len)
    requires !(r.len > 24 && r.net / 256 in e.groups && !HasLong(Remove(e, r), r.net / 256))
    ensures var o := SyncAll(Remove(e, r), AffectedBlocks(r.net, r.len));
      o.engine.groups == e.groups && o.engine.quarantine == e.quarantine
  {
    var e1, blks := Remove(e, r), AffectedBlocks(r.net, r.len);
    forall c | c in blks ensures c in e1.groups <==> HasLong(e1, c) {
      assert c in e.groups <==> HasLong(e, c);
      if r.len > 24 {
        assert blks == [r.net / 256];
      }
    }
    SyncAllIdle(e1, blks);
  }

  /** An add never takes a group out of use. */
  lemma AddPool(e: Engine, n: nat, op: Op)
    requires Valid(e, n) && !op.Del?
    ensures var e' := Do(e, op).engine;
      forall b | b in e.groups :: b in e'.groups && e'.groups[b] == e.groups[b]
  {
    var o := Do(e, op);
    if o.plan.Some? {
      match op
      case Add(addr, len, entry) =>
        var r := Route(Net(addr, len), len);
        NetIdempotent(addr, len);
        if len > 0 {
          InsertIsDirty(e, n, r, entry);
          InsertLongBlocks(e, r, entry);
          KeepsGroups(e, Insert(e, r, entry), n, AffectedBlocks(r.net, len));
        }
      case AddBulk(batch) =>
        BulkIsDirty(e, n, batch);
        InsertAllIsDirty(e, n, batch);
        KeepsGroups(e, InsertAll(e, batch), n, BulkBlocks(batch));
    } else {
      DoAtomic(e, n, op);
    }
  }

  lemma KeepsGroups(e: Engine, e1: Engine, n: nat, blks: seq<nat>)
    requires Valid(e, n) && Dirty(e, e1, blks) && SyncAll(e1, blks).plan.Some?
    requires forall b: nat | HasLong(e, b) :: HasLong(e1, b)
    ensures var e' := SyncAll(e1, blks).engine;
      forall b | b in e.groups :: b in e'.groups && e'.groups[b] == e.groups[b]
  {
    assert PoolOk(e1, n);
    SyncAllPool(e1, n, blks);
    forall b | b in e.groups ensures b in SyncAll(e1, blks).engine.groups {
      assert HasLong(e, b);
    }
  }

  /** An add reached into the quarantine: the allocator's fallback. Adds never push there, so this is
      any change of it. */
  predicate TakesFallback(e: Engine, op: Op)
  {
    !op.Del? && Do(e, op).engine.quarantine != e.quarantine
  }

  // ---- what a plan writes ----

  /** Every slot written belongs to a group in use; every block word written is the engine's. */
  ghost predicate WriteOk(e: Engine, w: SlotWrite)
  {
    match w
    case Tbl8(slot, _) => slot / 256 in e.groups.Values
    case Tbl24(b, word) => if b in e.groups then word == PackGroup(e.groups[b]) else !IsGroup(word)
    case Default(_) => true
  }

  lemma SyncBlockPlaces(e: Engine, n: nat, blk: nat)
    requires PoolOk(e, n) && blk < BLOCKS && SyncBlock(e, blk).plan.Some?
    ensures forall w | w in SyncBlock(e, blk).plan.value ::
      match w
      case Tbl24(b, _) => b == blk
      case Tbl8(slot, _) => blk in SyncBlock(e, blk).engine.groups && slot / 256 == SyncBlock(e, blk).engine.groups[blk]
      case Default(_) => false
  {
    SyncBlockPool(e, n, blk);
  }

  lemma SyncBlockWrites(e: Engine, n: nat, blk: nat)
    requires PoolOk(e, n) && blk < BLOCKS && SyncBlock(e, blk).plan.Some?
    ensures forall w | w in SyncBlock(e, blk).plan.value :: WriteOk(SyncBlock(e, blk).engine, w)
  {
    SyncBlockPool(e, n, blk);
    CoverIsDirect(e.shadow, blk);
    var o := SyncBlock(e, blk);
    if HasLong(e, blk) {
      assert o.engine.groups[blk] in o.engine.groups.Values;
    }
  }

  lemma {:induction false} SyncAllWrites(e: Engine, n: nat, blks: seq<nat>)
    requires PoolOk(e, n) && InTable(blks) && Distinct(blks) && SyncAll(e, blks).plan.Some?
    ensures forall w | w in SyncAll(e, blks).plan.value :: WriteOk(SyncAll(e, blks).engine, w)
    decreases |blks|
  {
    if blks != [] {
      var blk, later := blks[0], blks[1..];
      assert blks == [blk] + later && blk !in later;
      var first := SyncBlock(e, blk);
      var o := SyncAll(first.engine, later);
      SyncBlockPool(e, n, blk);
      SyncBlockPlaces(e, n, blk);
      SyncBlockWrites(e, n, blk);
      SyncAllPool(first.engine, n, later);
      SyncAllWrites(first.engine, n, later);
      assert blk in o.engine.groups <==> blk in first.engine.groups;
      if blk in o.engine.groups {
        assert o.engine.groups[blk] == first.engine.groups[blk];
        assert o.engine.groups[blk] in o.engine.groups.Values;
      }
      forall w | w in first.plan.value ensures WriteOk(o.engine, w) {
      }
    }
  }

  lemma {:induction false} DefaultWritesAreDefaults(batch: seq<Item>)
    ensures forall w | w in DefaultWrites(batch) :: w.Default?
  {
    if batch != [] {
      DefaultWritesAreDefaults(batch[..|batch| - 1]);
    }
  }

  lemma PlanWrites(e: Engine, n: nat, op: Op)
    requires Valid(e, n) && Do(e, op).plan.Some?
    ensures forall w | w in Do(e, op).plan.value :: WriteOk(Do(e, op).engine, w)
  {
    match op
    case Add(addr, len, entry) =>
      var r := Route(Net(addr, len), len);
      NetIdempotent(addr, len);
      if len > 0 {
        InsertIsDirty(e, n, r, entry);
        assert PoolOk(Insert(e, r, entry), n);
        SyncAllWrites(Insert(e, r, entry), n, AffectedBlocks(r.net, len));
      }
    case Del(addr, len) =>
      var r := Route(Net(addr, len), len);
      NetIdempotent(addr, len);
      if len > 0 && r in e.shadow {
        RemoveIsDirty(e, n, r);
        assert PoolOk(Remove(e, r), n);
        SyncAllWrites(Remove(e, r), n, AffectedBlocks(r.net, len));
      }
    case AddBulk(batch) =>
      BulkIsDirty(e, n, batch);
      assert PoolOk(InsertAll(e, batch), n);
      SyncAllWrites(InsertAll(e, batch), n, BulkBlocks(batch));
      DefaultWritesAreDefaults(batch);
  }

  // ---- group pointers a reader can meet ----

  lemma {:induction false} PointerWords(t: Tables, plan: seq<SlotWrite>, e: Engine, b: nat)
    requires b < |t.tbl24| && forall w | w in plan :: WriteOk(e, w)
    ensures var now := ApplyAll(t, plan).tbl24[b];
      now == t.tbl24[b] || (if b in e.groups then now == PackGroup(e.groups[b]) else !IsGroup(now))
  {
    if plan != [] {
      assert plan[|plan| - 1] in plan;
      PointerWords(t, plan[..|plan| - 1], e, b);
    }
  }

  /** A group word in the table is the current group of its block, or the block has just collapsed and
      the one word that says so is still to be written; then its group is the last quarantined. */
  lemma PointerMeans(s: Writer, n: nat, b: nat)
    requires s.Ok(n) && b < BLOCKS && IsGroup(s.tabs.tbl24[b])
    ensures var e := s.eng;
      || (b in e.groups && s.tabs.tbl24[b] == PackGroup(e.groups[b]))
      || (&& b in s.prev.groups && b !in e.groups && s.tabs.tbl24[b] == PackGroup(s.prev.groups[b])
          && s.done == 0 && |s.plan| == 1 && s.plan[0].Tbl24? && s.plan[0].blk == b && !IsGroup(s.plan[0].word)
          && |e.quarantine| > 0 && e.quarantine[|e.quarantine| - 1] == s.prev.groups[b])
  {
    TableWord(s, n, b);
    var e := s.eng;
    if b in s.prev.groups && b !in e.groups {
      if s.op.Del? {
        CollapsePending(s, n, b);
      } else {
        AddPool(s.prev, n, s.op);
        assert false;
      }
    } else if b in s.prev.groups {
      SameGroup(s, n, b);
    }
  }

  lemma SameGroup(s: Writer, n: nat, b: nat)
    requires s.Ok(n) && b in s.prev.groups && b in s.eng.groups
    ensures s.eng.groups[b] == s.prev.groups[b]
  {
    if s.op.Del? && s.op.len <= 32 {
      DelPool(s.prev, n, s.op.addr, s.op.len);
    } else if !s.op.Del? {
      AddPool(s.prev, n, s.op);
    }
  }

  lemma CollapsePending(s: Writer, n: nat, b: nat)
    requires s.Ok(n) && b < BLOCKS && s.op.Del? && b in s.prev.groups && b !in s.eng.groups
    requires |s.tabs.tbl24| == BLOCKS && IsGroup(s.tabs.tbl24[b])
    ensures s.done == 0 && |s.plan| == 1 && s.plan[0].Tbl24? && s.plan[0].blk == b && !IsGroup(s.plan[0].word)
    ensures var q := s.eng.quarantine; |q| > 0 && q[|q| - 1] == s.prev.groups[b]
  {
    assert s.op.len <= 32;
    DelPool(s.prev, n, s.op.addr, s.op.len);
    CoverIsDirect(s.eng.shadow, b);
    assert |s.plan| == 1 && s.plan[..1] == s.plan;
    ApplyOne(s.base, s.plan[0]);
  }

  /** A block's word is the one before the operation, or the engine's. */
  lemma TableWord(s: Writer, n: nat, b: nat)
    requires s.Ok(n) && b < BLOCKS
    ensures |s.base.tbl24| == BLOCKS && |s.tabs.tbl24| == BLOCKS
    ensures b in s.prev.groups ==> s.base.tbl24[b] == PackGroup(s.prev.groups[b])
    ensures b !in s.prev.groups ==> !IsGroup(s.base.tbl24[b])
    ensures var now, e := s.tabs.tbl24[b], s.eng;
      now == s.base.tbl24[b] || (if b in e.groups then now == PackGroup(e.groups[b]) else !IsGroup(now))
  {
    var e, plan := s.eng, s.plan;
    if Do(s.prev, s.op).plan.Some? {
      PlanWrites(s.prev, n, s.op);
      assert forall w | w in plan[..s.done] :: w in plan;
      PointerWords(s.base, plan[..s.done], e, b);
    } else {
      assert plan[..s.done] == [];
    }
  }

  // ---- a reader's window ----

  /** The next write turns a group pointer into a direct word: a reader sees a block collapse. */
  predicate CollapseNext(s: Writer)
  {
    && s.Busy() && s.plan[s.done].Tbl24?
    && var b := s.plan[s.done].blk;
    && b < |s.tabs.tbl24| && IsGroup(s.tabs.tbl24[b]) && !IsGroup(s.plan[s.done].word)
  }

  predicate Collapses(s: Writer, step: Step) { step == Write && CollapseNext(s) }

  /** The collapses a reader's window contains. */
  function CollapseCount(s: Writer, steps: seq<Step>): nat
    decreases |steps|
  {
    if steps == [] then 0
    else (if Collapses(s, steps[0]) then 1 else 0) + CollapseCount(Next(s, steps[0]), steps[1..])
  }

  /** No allocation in the window takes the quarantine fallback. */
  predicate NoFallback(s: Writer, steps: seq<Step>)
    decreases |steps|
  {
    steps == [] || (Cautious(s, steps[0]) && NoFallback(Next(s, steps[0]), steps[1..]))
  }

  predicate Cautious(s: Writer, step: Step)
  {
    step.Start? && !s.Busy() ==> !TakesFallback(s.eng, step.op)
  }

  function After(s: Writer, steps: seq<Step>): Writer
    decreases |steps|
  {
    if steps == [] then s else After(Next(s, steps[0]), steps[1..])
  }

  // ---- one quarantined group, as the window goes by ----

  /** What matters about a slot of a quarantined group: the queue it waits in, the word it holds, and
      whether a collapse is about to be written. */
  datatype Glimpse = Glimpse(quarantine: seq<nat>, word: Word, collapsing: bool)

  function GlimpseOf(s: Writer, slot: nat): Glimpse
    requires slot < |s.tabs.tbl8|
  {
    Glimpse(s.eng.quarantine, s.tabs.tbl8[slot], CollapseNext(s))
  }

  /** How the glimpse of group `g`'s slot moves in one step. */
  ghost predicate Evolves(x: Glimpse, y: Glimpse, collapse: bool, g: nat)
  {
    && (collapse ==> x.collapsing)
    && (x.collapsing && !collapse ==> y == x)
    && (|| (y.quarantine == x.quarantine && (g in x.quarantine ==> y.word == x.word))
        || (!x.collapsing && y.collapsing && y.word == x.word && exists h :: y.quarantine == Pushed(x.quarantine, h)))
  }

  lemma EvolvesStep(s: Writer, n: nat, step: Step, slot: nat)
    requires s.Ok(n) && Cautious(s, step) && slot < n * 256
    ensures slot < |s.tabs.tbl8| && slot < |Next(s, step).tabs.tbl8|
    ensures Evolves(GlimpseOf(s, slot), GlimpseOf(Next(s, step), slot), Collapses(s, step), slot / 256)
  {
    OkFacts(s, n);
    if s.Busy() && step == Write {
      QuarantinedIsStill(s, n, slot);
    } else if !s.Busy() && step.Start? {
      StartQuarantine(s, n, step.op);
    }
  }

  /** While a group is quarantined none of its slots is written. */
  lemma QuarantinedIsStill(s: Writer, n: nat, slot: nat)
    requires s.Ok(n) && s.Busy() && slot < |s.tabs.tbl8|
    ensures slot / 256 in s.eng.quarantine ==> Next(s, Write).tabs.tbl8[slot] == s.tabs.tbl8[slot]
  {
    PlanWrites(s.prev, n, s.op);
    OkFacts(s, n);
    assert s.plan[s.done] in s.plan;
  }

  /** An operation that starts without the fallback: the quarantine stays, or one group is pushed at its
      back and the collapse is the operation's next write. */
  lemma StartQuarantine(s: Writer, n: nat, op: Op)
    requires s.Ok(n) && !s.Busy() && !TakesFallback(s.eng, op)
    ensures var s1 := Next(s, Start(op));
      || s1.eng.quarantine == s.eng.quarantine
      || (CollapseNext(s1) && exists g :: s1.eng.quarantine == Pushed(s.eng.quarantine, g))
  {
    OkFacts(s, n);
    if op.Del? && op.len <= 32 {
      DelPool(s.eng, n, op.addr, op.len);
      var b := Net(op.addr, op.len) / 256;
      var s1 := Next(s, Start(op));
      if s1.eng.groups != s.eng.groups {
        GroupWord(s.eng.groups[b]);
        CoverIsDirect(s1.eng.shadow, b);
      }
    }
  }

  function Count(marks: seq<bool>): nat
  {
    if marks == [] then 0 else (if marks[0] then 1 else 0) + Count(marks[1..])
  }

  /** A group `d` places from the back of the quarantine keeps its slots for as long as at most `63 - d`
      further collapses are seen. One collapse may be in hand beyond those: it pushes the group out of
      the quarantine, but no allocation can follow before it is written. */
  lemma {:induction false} Rests(gs: seq<Glimpse>, marks: seq<bool>, g: nat, p: nat)
    requires |gs| == |marks| + 1
    requires forall i | 0 <= i < |marks| :: Evolves(gs[i], gs[i + 1], marks[i], g)
    requires p < |gs[0].quarantine| && gs[0].quarantine[p] == g
    requires |gs[0].quarantine| - 1 - p + Count(marks) <= 63 + (if gs[0].collapsing then 1 else 0)
    ensures gs[|marks|].word == gs[0].word
    decreases |marks|
  {
    if marks != [] {
      var x, y := gs[0], gs[1];
      assert Evolves(x, y, marks[0], g);
      if y.quarantine == x.quarantine {
        Rests(gs[1..], marks[1..], g, p);
      } else if |x.quarantine| < QUARANTINE_DEPTH {
        Rests(gs[1..], marks[1..], g, p);
      } else if p > 0 {
        Rests(gs[1..], marks[1..], g, p - 1);
      } else {
        Stuck(gs[1..], marks[1..], g);
      }
    }
  }

  /** A collapse in hand whose one word is never written: nothing more happens. */
  lemma {:induction false} Stuck(gs: seq<Glimpse>, marks: seq<bool>, g: nat)
    requires |gs| == |marks| + 1
    requires forall i | 0 <= i < |marks| :: Evolves(gs[i], gs[i + 1], marks[i], g)
    requires gs[0].collapsing && Count(marks) == 0
    ensures gs[|marks|] == gs[0]
    decreases |marks|
  {
    if marks != [] {
      assert Evolves(gs[0], gs[1], marks[0], g);
      Stuck(gs[1..], marks[1..], g);
    }
  }

  /** The glimpses of a window. */
  lemma {:induction false} Glimpses(s: Writer, n: nat, steps: seq<Step>, slot: nat)
      returns (gs: seq<Glimpse>, marks: seq<bool>)
    requires s.Ok(n) && NoFallback(s, steps) && slot < n * 256
    ensures slot < |s.tabs.tbl8| && slot < |After(s, steps).tabs.tbl8|
    ensures |marks| == |steps| && |gs| == |marks| + 1
    ensures gs[0] == GlimpseOf(s, slot) && gs[|marks|] == GlimpseOf(After(s, steps), slot)
    ensures forall i | 0 <= i < |marks| :: Evolves(gs[i], gs[i + 1], marks[i], slot / 256)
    ensures Count(marks) == CollapseCount(s, steps)
    decreases |steps|
  {
    OkFacts(s, n);
    if steps == [] {
      gs, marks := [GlimpseOf(s, slot)], [];
    } else {
      EvolvesStep(s, n, steps[0], slot);
      NextOk(s, n, steps[0]);
      var gs', marks' := Glimpses(Next(s, steps[0]), n, steps[1..], slot);
      gs, marks := [GlimpseOf(s, slot)] + gs', [Collapses(s, steps[0])] + marks';
    }
  }

  // ---- the theorem ----

  /** The word a torn lookup gets: `TBL24` loaded now, `TBL8` loaded after `steps`. */
  function TornLookup(s: Writer, steps: seq<Step>, addr: U32): Option<Word>
    requires |s.tabs.tbl24| == BLOCKS
  {
    Load8(After(s, steps).tabs, s.tabs.tbl24[addr / 256], addr)
  }

  /** A lookup torn across any operations, up to 64 of them collapsing a block, gets a word its address held at
      a moment between the loads. */
  lemma {:induction false} TornReadIsPast(s: Writer, n: nat, steps: seq<Step>, addr: U32) returns (k: nat)
    requires s.Ok(n) && NoFallback(s, steps) && CollapseCount(s, steps) <= 64
    ensures |s.tabs.tbl24| == BLOCKS
    ensures k <= |steps| && After(s, steps[..k]).Ok(n)
    ensures TornLookup(s, steps, addr) == View(After(s, steps[..k]).tabs, addr)
    decreases |steps|
  {
    OkFacts(s, n);
    k := 0;
    assert steps[..0] == [];
    if steps != [] {
      var s1, rest := Next(s, steps[0]), steps[1..];
      var w := s.tabs.tbl24[addr / 256];
      NextOk(s, n, steps[0]);
      OkFacts(s1, n);
      if !IsGroup(w) {
      } else if s1.tabs.tbl24[addr / 256] == w {
        k := TornReadIsPast(s1, n, rest, addr);
        AfterStep(s, steps, k);
        k := k + 1;
      } else {
        Flip(s, n, rest, addr);
      }
    }
  }

  lemma AfterStep(s: Writer, steps: seq<Step>, k: nat)
    requires k < |steps|
    ensures After(s, steps[..k + 1]) == After(Next(s, steps[0]), steps[1..][..k])
  {
    assert steps[..k + 1][0] == steps[0] && steps[..k + 1][1..] == steps[1..][..k];
  }

  /** The block's word is about to be turned away from its group: the group now rests. */
  lemma Flip(s: Writer, n: nat, rest: seq<Step>, addr: U32)
    requires s.Ok(n) && s.Busy() && |s.tabs.tbl24| == BLOCKS && IsGroup(s.tabs.tbl24[addr / 256])
    requires Next(s, Write).tabs.tbl24[addr / 256] != s.tabs.tbl24[addr / 256]
    requires NoFallback(Next(s, Write), rest)
    requires (if CollapseNext(s) then 1 else 0) + CollapseCount(Next(s, Write), rest) <= QUARANTINE_DEPTH
    ensures var w := s.tabs.tbl24[addr / 256];
      Load8(After(Next(s, Write), rest).tabs, w, addr) == Load8(s.tabs, w, addr)
  {
    var s1, q := Next(s, Write), s.eng.quarantine;
    FlipIsCollapse(s, n, addr / 256);
    var g := q[|q| - 1];
    var slot := SlotOf(n, g, addr);
    NextOk(s, n, Write);
    var gs, marks := Glimpses(s1, n, rest, slot);
    Rests(gs, marks, g, |q| - 1);
    LoadSlot(s.tabs, n, g, addr);
    LoadSlot(After(s1, rest).tabs, n, g, addr);
  }

  /** A write that changes a block's group word is the word of its collapse. */
  lemma FlipIsCollapse(s: Writer, n: nat, b: nat)
    requires s.Ok(n) && b < BLOCKS && s.Busy() && |s.tabs.tbl24| == BLOCKS && IsGroup(s.tabs.tbl24[b])
    requires Next(s, Write).tabs.tbl24[b] != s.tabs.tbl24[b]
    ensures CollapseNext(s) && Next(s, Write).tabs.tbl8 == s.tabs.tbl8
    ensures var q := s.eng.quarantine;
      |q| > 0 && q[|q| - 1] < n <= MAX_GROUPS && s.tabs.tbl24[b] == PackGroup(q[|q| - 1])
  {
    PointerMeans(s, n, b);
    OkFacts(s, n);
    assert s.plan[s.done] in s.plan;
    PlanWrites(s.prev, n, s.op);
    var q := s.eng.quarantine;
    if |q| > 0 {
      assert q[|q| - 1] in q;
    }
  }

  /** Torn reader: the word is the longest match in a route table that was in force, or being put in
      force, at a moment between the two loads. */
  lemma TornReadIsLongestMatch(s: Writer, n: nat, steps: seq<Step>, addr: U32) returns (k: nat)
    requires s.Ok(n) && NoFallback(s, steps) && CollapseCount(s, steps) <= 64
    ensures |s.tabs.tbl24| == BLOCKS
    ensures k <= |steps|
    ensures var at := After(s, steps[..k]);
      || TornLookup(s, steps, addr) == Some(SlotWord(at.prev.shadow, addr))
      || TornLookup(s, steps, addr) == Some(SlotWord(at.eng.shadow, addr))
  {
    k := TornReadIsPast(s, n, steps, addr);
    WordIsOldOrNew(After(s, steps[..k]), n, addr);
  }
}
