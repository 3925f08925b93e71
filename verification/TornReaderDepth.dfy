/** Why the torn reader's guarantee counts collapses: one more than the quarantine is deep can break it,
    without any fallback. */
module TornReaderDepth {
  import opened Prefix
  import opened FibWord
  import opened Wrappers
  import opened Dir24
  import opened Dir24Pool
  import opened Dir24Routes
  import opened Dir24Bulk
  import opened Dir24Runs
  import opened Fib4
  import opened TornReader
  import opened TornReaderFallback

  /** One group more than the quarantine holds. */
  const GROUPS: nat := QUARANTINE_DEPTH + 1

  const ADD := Add(256, 32, SECOND)
  const DEL := Del(256, 32)

  // ---- runs in pieces ----

  ghost predicate Ordinary(steps: seq<Step>)
  {
    forall i | 0 <= i < |steps| :: steps[i] == Write || steps[i] == Start(ADD) || steps[i] == Start(DEL)
  }

  lemma {:induction false} Pieces(s: Writer, xs: seq<Step>, ys: seq<Step>)
    ensures After(s, xs + ys) == After(After(s, xs), ys)
    ensures CollapseCount(s, xs + ys) == CollapseCount(s, xs) + CollapseCount(After(s, xs), ys)
    ensures NoFallback(s, xs + ys) <==> NoFallback(s, xs) && NoFallback(After(s, xs), ys)
    decreases |xs|
  {
    if xs == [] {
      assert xs + ys == ys;
    } else {
      assert (xs + ys)[1..] == xs[1..] + ys;
      Pieces(Next(s, xs[0]), xs[1..], ys);
    }
  }

  /** What a piece of a run leads to: this many collapses, no fallback. */
  ghost predicate Leads(s: Writer, steps: seq<Step>, s': Writer, collapses: nat)
  {
    After(s, steps) == s' && CollapseCount(s, steps) == collapses && NoFallback(s, steps)
  }

  lemma Join(s: Writer, xs: seq<Step>, m: Writer, c: nat, ys: seq<Step>, s': Writer, d: nat)
    requires Leads(s, xs, m, c) && Leads(m, ys, s', d)
    ensures Leads(s, xs + ys, s', c + d)
    ensures Ordinary(xs) && Ordinary(ys) ==> Ordinary(xs + ys)
  {
    Pieces(s, xs, ys);
  }

  lemma OneStep(s: Writer, step: Step)
    requires Cautious(s, step)
    ensures Leads(s, [step], Next(s, step), if Collapses(s, step) then 1 else 0)
  {
    assert [step][1..] == [];
    assert CollapseCount(Next(s, step), []) == 0;
  }

  /** The rest of a plan without a collapse. */
  lemma {:induction false} WritesOut(s: Writer) returns (steps: seq<Step>, s': Writer)
    requires s.Ok(GROUPS)
    requires forall i | s.done <= i < |s.plan| :: s.plan[i].Tbl24? ==> IsGroup(s.plan[i].word)
    ensures Leads(s, steps, s', 0) && Ordinary(steps)
    ensures s'.Ok(GROUPS) && !s'.Busy() && s'.prev == s.prev && s'.eng == s.eng
    decreases |s.plan| - s.done
  {
    if s.Busy() {
      NextOk(s, GROUPS, Write);
      steps, s' := WritesOut(Next(s, Write));
      OneStep(s, Write);
      Join(s, [Write], Next(s, Write), 0, steps, s', 0);
      steps := [Write] + steps;
    } else {
      steps, s' := [], s;
    }
  }

  // ---- a route that comes and goes ----

  /** The free groups `QUARANTINE_DEPTH`, and on downwards. */
  function Below(len: nat): seq<nat>
    requires len <= QUARANTINE_DEPTH
  {
    seq(len, i requires 0 <= i < len => QUARANTINE_DEPTH - i)
  }

  /** The engine between cycles: groups `0..k` have been quarantined, in that order. */
  function Idle(k: nat): Engine
    requires k <= QUARANTINE_DEPTH
  {
    Engine(map[], map[], map[],
      if k < QUARANTINE_DEPTH then Below(QUARANTINE_DEPTH - k) else [0],
      if k < QUARANTINE_DEPTH then seq(k + 1, i => i) else seq(QUARANTINE_DEPTH, i requires 0 <= i => i + 1))
  }

  function Taken(k: nat): Engine
    requires k < QUARANTINE_DEPTH
  {
    Engine(map[Route(256, 32) := SECOND], map[1 := 1], map[1 := k + 1], Idle(k).free[..QUARANTINE_DEPTH - k - 1],
      Idle(k).quarantine)
  }

  lemma Takes(k: nat)
    requires k < QUARANTINE_DEPTH
    ensures var o := Do(Idle(k), ADD);
      && o.engine == Taken(k) && o.plan.Some? && |o.plan.value| == 257
      && (forall i | 0 <= i < 257 :: o.plan.value[i].Tbl24? ==> IsGroup(o.plan.value[i].word))
      && !TakesFallback(Idle(k), ADD)
  {
    HostAdd(Idle(k), 1, SECOND);
    GroupWord(k + 1);
  }

  lemma Returns(k: nat)
    requires k < QUARANTINE_DEPTH
    ensures Do(Taken(k), DEL) == Outcome(Idle(k + 1), Some([Tbl24(1, 0)]))
  {
    HostDel(Taken(k), 1, k + 1, SECOND);
    Quarantined(k);
  }

  lemma Quarantined(k: nat)
    requires k < QUARANTINE_DEPTH
    ensures Drain(Engine(map[], map[], map[], Taken(k).free, Taken(k).quarantine + [k + 1])) == Idle(k + 1)
  {
    var free, quarantine := Taken(k).free, Idle(k).quarantine + [k + 1];
    if k + 1 < QUARANTINE_DEPTH {
      assert free == Idle(k + 1).free && quarantine == Idle(k + 1).quarantine;
    } else {
      assert free == [] && quarantine[0] == 0;
      assert free + [quarantine[0]] == Idle(k + 1).free && quarantine[1..] == Idle(k + 1).quarantine;
      assert Drain(Idle(k + 1)) == Idle(k + 1);
    }
  }

  /** The route goes: its removal is one write. */
  function Going(): seq<Step> { [Start(DEL)] + [Write] }

  /** One cycle: one more collapse, one more group quarantined, and after the last the first is free. */
  lemma OneCycle(s: Writer, k: nat) returns (steps: seq<Step>, s': Writer)
    requires s.Ok(GROUPS) && !s.Busy() && k < QUARANTINE_DEPTH && s.eng == Idle(k)
    ensures Leads(s, steps, s', 1) && Ordinary(steps)
    ensures s'.Ok(GROUPS) && !s'.Busy() && s'.eng == Idle(k + 1)
  {
    var xs, m := Comes(s, k);
    s' := Goes(m, k);
    steps := xs + Going();
    assert Leads(s, steps, s', 1) && Ordinary(steps) by {
      Join(s, xs, m, 0, Going(), s', 1);
    }
  }

  lemma Comes(s: Writer, k: nat) returns (steps: seq<Step>, s': Writer)
    requires s.Ok(GROUPS) && !s.Busy() && k < QUARANTINE_DEPTH && s.eng == Idle(k)
    ensures Leads(s, steps, s', 0) && Ordinary(steps)
    ensures s'.Ok(GROUPS) && !s'.Busy() && s'.eng == Taken(k)
  {
    Takes(k);
    var m := Next(s, Start(ADD));
    NextOk(s, GROUPS, Start(ADD));
    OneStep(s, Start(ADD));
    steps, s' := WritesOut(m);
    Join(s, [Start(ADD)], m, 0, steps, s', 0);
    steps := [Start(ADD)] + steps;
  }

  lemma Goes(s: Writer, k: nat) returns (s': Writer)
    requires s.Ok(GROUPS) && !s.Busy() && k < QUARANTINE_DEPTH && s.eng == Taken(k)
    ensures Leads(s, Going(), s', 1) && Ordinary(Going())
    ensures s'.Ok(GROUPS) && !s'.Busy() && s'.eng == Idle(k + 1)
  {
    Returns(k);
    var m := Next(s, Start(DEL));
    NextOk(s, GROUPS, Start(DEL));
    OneStep(s, Start(DEL));
    s' := Next(m, Write);
    NextOk(m, GROUPS, Write);
    OneStep(m, Write);
    Collapsing(s);
    Join(s, [Start(DEL)], m, 0, [Write], s', 1);
  }

  lemma Collapsing(s: Writer)
    requires s.Ok(GROUPS) && !s.Busy() && 1 in s.eng.groups && s.eng.groups[1] < MAX_GROUPS
    requires Do(s.eng, DEL).plan == Some([Tbl24(1, 0)])
    ensures CollapseNext(Next(s, Start(DEL)))
  {
    GroupPointer(s, 1);
    FlipNext(Next(s, Start(DEL)), 1, s.eng.groups[1]);
  }

  lemma GroupPointer(s: Writer, b: nat)
    requires s.Ok(GROUPS) && !s.Busy() && b in s.eng.groups && b < BLOCKS
    ensures |s.tabs.tbl24| == BLOCKS && s.tabs.tbl24[b] == PackGroup(s.eng.groups[b])
  {
    OkFacts(s, GROUPS);
  }

  /** A plan of one word that turns a block away from its group. */
  lemma FlipNext(s: Writer, b: nat, g: nat)
    requires s.done == 0 && s.plan == [Tbl24(b, 0)] && b < BLOCKS
    requires |s.tabs.tbl24| == BLOCKS && s.tabs.tbl24[b] == PackGroup(g)
    ensures CollapseNext(s)
  {
    GroupWord(g);
    assert !IsGroup(0);
  }

  lemma {:induction false} ManyCycles(s: Writer, k: nat) returns (steps: seq<Step>, s': Writer)
    requires s.Ok(GROUPS) && !s.Busy() && k <= QUARANTINE_DEPTH && s.eng == Idle(0)
    ensures Leads(s, steps, s', k) && Ordinary(steps)
    ensures s'.Ok(GROUPS) && !s'.Busy() && s'.eng == Idle(k)
  {
    if k == 0 {
      steps, s' := [], s;
    } else {
      var xs, m := ManyCycles(s, k - 1);
      var ys;
      ys, s' := OneCycle(m, k - 1);
      steps := xs + ys;
      assert Leads(s, steps, s', k) && Ordinary(steps) by {
        Join(s, xs, m, k - 1, ys, s', 1);
      }
    }
  }

  // ---- what the address held ----

  /** Every route but 0.0.1.0/32 leads to the first nexthop. */
  ghost predicate Tame(shadow: Shadow)
  {
    forall r | r in shadow :: r != Route(256, 32) ==> shadow[r] == FIRST
  }

  lemma {:induction false} TameBest(shadow: Shadow, hi: Len)
    requires Tame(shadow)
    ensures Best(shadow, 0, hi, 1) in {None, Some(FIRST)}
    decreases hi
  {
    if hi == 32 {
      HostRoute(0);
    }
    if hi > 0 {
      TameBest(shadow, hi - 1);
    }
  }

  lemma TameWord(shadow: Shadow)
    requires Tame(shadow)
    ensures SlotWord(shadow, 0) != PackEntry(SECOND)
  {
    TameBest(shadow, 32);
  }

  lemma TameStep(e: Engine, op: Op)
    requires Tame(e.shadow) && Valid(e, GROUPS) && (op == ADD || op == DEL)
    ensures Tame(Do(e, op).engine.shadow)
  {
    DoAtomic(e, GROUPS, op);
    HostRoute(256);
    assert Do(e, op).engine.shadow == e.shadow || Do(e, op).engine.shadow == e.shadow[Route(256, 32) := SECOND]
      || Do(e, op).engine.shadow == e.shadow - {Route(256, 32)};
  }

  lemma {:induction false} NeverSecond(s: Writer, steps: seq<Step>)
    requires s.Ok(GROUPS) && Tame(s.prev.shadow) && Tame(s.eng.shadow) && Ordinary(steps)
    ensures View(After(s, steps).tabs, 0) != Some(PackEntry(SECOND))
    decreases |steps|
  {
    if steps == [] {
      WordIsOldOrNew(s, GROUPS, 0);
      TameWord(s.prev.shadow);
      TameWord(s.eng.shadow);
    } else {
      OkFacts(s, GROUPS);
      NextOk(s, GROUPS, steps[0]);
      if steps[0].Start? {
        TameStep(s.eng, steps[0].op);
      }
      NeverSecond(Next(s, steps[0]), steps[1..]);
    }
  }

  // ---- the run ----

  /** The writer about to remove 0.0.0.0/32, whose group is group 0. */
  lemma Removing() returns (s: Writer)
    ensures s.Ok(GROUPS) && s.done == 0 && s.plan == [Tbl24(0, 0)] && s.eng == Idle(0)
    ensures |s.tabs.tbl24| == BLOCKS && s.tabs.tbl24[0] == PackGroup(0)
    ensures Tame(s.prev.shadow)
  {
    var e, t := Added();
    HostDel(e, 0, 0, FIRST);
    FirstIdle();
    s := Writer(e, Del(0, 32), t, Idle(0), [Tbl24(0, 0)], 0, t);
    assert s.plan[..0] == [];
  }

  lemma Added() returns (e: Engine, t: Tables)
    ensures Valid(e, GROUPS) && Agree(e, t, GROUPS)
    ensures var free := New(GROUPS).free;
      |free| == GROUPS
      && e == Engine(map[Route(0, 32) := FIRST], map[0 := 1], map[0 := 0], free[..GROUPS - 1], [])
  {
    var first := Add(0, 32, FIRST);
    var o := Do(New(GROUPS), first);
    HostAdd(New(GROUPS), 0, FIRST);
    NewIsValid(GROUPS);
    NewAgrees(GROUPS);
    DoAtomic(New(GROUPS), GROUPS, first);
    DoAgrees(New(GROUPS), ZeroTables(GROUPS), GROUPS, first);
    e, t := o.engine, ApplyAll(ZeroTables(GROUPS), o.plan.value);
  }

  lemma FirstIdle()
    ensures var free := New(GROUPS).free;
      && |free| == GROUPS && free[GROUPS - 1] == 0
      && Drain(Engine(map[], map[], map[], free[..GROUPS - 1], [0])) == Idle(0)
  {
    assert New(GROUPS).free[..GROUPS - 1] == Idle(0).free;
    assert Idle(0).quarantine == [0];
    assert Drain(Idle(0)) == Idle(0);
  }

  /** The first group is free again, and the next route takes it. */
  lemma Retaken(s: Writer) returns (s': Writer)
    requires s.Ok(GROUPS) && !s.Busy() && s.eng == Idle(QUARANTINE_DEPTH)
    ensures Leads(s, [Start(ADD)] + [Write], s', 0)
    ensures Load8(s'.tabs, PackGroup(0), 0) == Some(PackEntry(SECOND))
  {
    var m := Next(s, Start(ADD));
    Retakes(s);
    s' := Next(m, Write);
    FirstSlot(m);
    Join(s, [Start(ADD)], m, 0, [Write], s', 0);
  }

  lemma Retakes(s: Writer)
    requires s.Ok(GROUPS) && !s.Busy() && s.eng == Idle(QUARANTINE_DEPTH)
    ensures var m := Next(s, Start(ADD));
      && Leads(s, [Start(ADD)], m, 0)
      && m.done == 0 && |m.plan| > 0 && m.plan[0] == Tbl8(0, PackEntry(SECOND)) && |m.tabs.tbl8| > 0
  {
    HostAdd(s.eng, 1, SECOND);
    OkFacts(s, GROUPS);
    OneStep(s, Start(ADD));
  }

  lemma FirstSlot(m: Writer)
    requires m.done == 0 && |m.plan| > 0 && m.plan[0] == Tbl8(0, PackEntry(SECOND)) && |m.tabs.tbl8| > 0
    ensures Leads(m, [Write], Next(m, Write), 0)
    ensures Load8(Next(m, Write).tabs, PackGroup(0), 0) == Some(PackEntry(SECOND))
  {
    GroupWord(0);
    OneStep(m, Write);
  }

  /** The theorem's count is exact: one collapse more, and a reader of 0.0.0.0 can be handed the nexthop
      of 0.0.1.0, which no table ever gave it, although no allocation took the fallback. */
  lemma OneCollapseMore() returns (s: Writer, steps: seq<Step>)
    ensures s.Ok(GROUPS) && |s.tabs.tbl24| == BLOCKS
    ensures NoFallback(s, steps) && CollapseCount(s, steps) == 65
    ensures TornLookup(s, steps, 0) == Some(PackEntry(SECOND))
    ensures forall k | 0 <= k <= |steps| :: View(After(s, steps[..k]).tabs, 0) != Some(PackEntry(SECOND))
  {
    s := Removing();
    var s';
    steps, s' := Run(s);
    forall k | 0 <= k <= |steps| ensures View(After(s, steps[..k]).tabs, 0) != Some(PackEntry(SECOND)) {
      NeverSecond(s, steps[..k]);
    }
  }

  lemma FirstFlip(s: Writer) returns (s': Writer)
    requires s.Ok(GROUPS) && s.done == 0 && s.plan == [Tbl24(0, 0)]
    requires |s.tabs.tbl24| == BLOCKS && s.tabs.tbl24[0] == PackGroup(0)
    ensures Leads(s, [Write], s', 1)
    ensures s'.Ok(GROUPS) && !s'.Busy() && s'.eng == s.eng
  {
    s' := Next(s, Write);
    FlipNext(s, 0, 0);
    OneStep(s, Write);
    NextOk(s, GROUPS, Write);
  }

  lemma Run(s: Writer) returns (steps: seq<Step>, s': Writer)
    requires s.Ok(GROUPS) && s.done == 0 && s.plan == [Tbl24(0, 0)] && s.eng == Idle(0)
    requires |s.tabs.tbl24| == BLOCKS && s.tabs.tbl24[0] == PackGroup(0)
    ensures Leads(s, steps, s', QUARANTINE_DEPTH + 1) && Ordinary(steps)
    ensures Load8(s'.tabs, PackGroup(0), 0) == Some(PackEntry(SECOND))
  {
    var s1 := FirstFlip(s);
    var xs, s2 := ManyCycles(s1, QUARANTINE_DEPTH);
    Join(s, [Write], s1, 1, xs, s2, QUARANTINE_DEPTH);
    s' := Retaken(s2);
    Join(s, [Write] + xs, s2, QUARANTINE_DEPTH + 1, [Start(ADD)] + [Write], s', 0);
    steps := [Write] + xs + ([Start(ADD)] + [Write]);
  }
}
