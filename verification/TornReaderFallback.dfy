/** Why the torn reader's guarantee excludes the allocator's fallback: a run that breaks it. */
module TornReaderFallback {
  import opened Prefix
  import opened FibWord
  import opened Wrappers
  import opened Dir24
  import opened Dir24Pool
  import opened Dir24Refinement
  import opened Dir24Routes
  import opened Dir24Bulk
  import opened Dir24Runs
  import opened Fib4
  import opened TornReader

  const FIRST := FibEntry(1, 0)
  const SECOND := FibEntry(2, 0)

  lemma HostRoute(addr: U32)
    ensures Net(addr, 32) == addr
    ensures AffectedBlocks(Net(addr, 32), 32) == [addr / 256]
  {
    assert Shr(addr, 0) == addr && Shl(addr, 0) == addr;
    NetIdempotent(addr, 32);
  }

  /** The one route of an engine, at the first address of block `b`: its group is the last free one. */
  lemma HostAdd(e: Engine, b: nat, entry: FibEntry)
    requires b < BLOCKS && e.shadow == map[] && e.longCount == map[] && e.groups == map[] && e.free != []
    ensures var o, g, last := Do(e, Add(b * 256, 32, entry)), e.free[|e.free| - 1], |e.free| - 1;
      && o.engine == Engine(map[Route(b * 256, 32) := entry], map[b := 1], map[b := g], e.free[..last], e.quarantine)
      && o.plan == Some(Fill(o.engine.shadow, b, g) + [Tbl24(b, PackGroup(g))])
      && Fill(o.engine.shadow, b, g)[0] == Tbl8(g * 256, PackEntry(entry))
  {
    var r := Route(b * 256, 32);
    HostRoute(b * 256);
    var e1 := Insert(e, r, entry);
    assert e1.shadow == map[r := entry] && e1.longCount == map[b := 1];
    SyncOne(e1, b);
    HostWord(b, entry);
    assert SyncBlock(e1, b).engine.groups == map[b := e.free[|e.free| - 1]];
  }

  lemma HostWord(b: nat, entry: FibEntry)
    requires b < BLOCKS
    ensures SlotWord(map[Route(b * 256, 32) := entry], b * 256) == PackEntry(entry)
  {
    HostRoute(b * 256);
    assert Best(map[Route(b * 256, 32) := entry], b * 256, 32, 1) == Some(entry);
  }

  /** Its removal quarantines the group. */
  lemma HostDel(e: Engine, b: nat, g: nat, entry: FibEntry)
    requires b < BLOCKS && e.shadow == map[Route(b * 256, 32) := entry]
    requires e.longCount == map[b := 1] && e.groups == map[b := g]
    ensures var o := Do(e, Del(b * 256, 32));
      && o.plan == Some([Tbl24(b, 0)])
      && o.engine == Drain(Engine(map[], map[], map[], e.free, e.quarantine + [g]))
  {
    var r := Route(b * 256, 32);
    HostRoute(b * 256);
    var e1 := Remove(e, r);
    assert e1.shadow == map[] && e1.longCount == map[] && e1.groups - {b} == map[];
    EmptyHasNoMatch(b * 256, 24, 1);
    SyncOne(e1, b);
  }

  /** A pool of one group: 0.0.0.0/32 owns it... */
  lemma OneGroup()
    ensures var o := Do(New(1), Add(0, 32, FIRST));
      && o.plan.Some?
      && o.engine == Engine(map[Route(0, 32) := FIRST], map[0 := 1], map[0 := 0], [], [])
  {
    assert New(1).free == [0];
    HostAdd(New(1), 0, FIRST);
  }

  /** ...its removal quarantines the group... */
  lemma GroupFreed(e: Engine)
    requires e == Engine(map[Route(0, 32) := FIRST], map[0 := 1], map[0 := 0], [], [])
    ensures var o := Do(e, Del(0, 32));
      && o.plan == Some([Tbl24(0, 0)]) && o.engine == Engine(map[], map[], map[], [], [0])
  {
    HostDel(e, 0, 0, FIRST);
  }

  /** ...and 0.0.1.0/32 takes it straight back. */
  lemma GroupReused()
    ensures var e := Engine(map[], map[], map[], [], [0]);
      var o := Do(e, Add(256, 32, SECOND));
      && TakesFallback(e, Add(256, 32, SECOND))
      && o.plan.Some? && |o.plan.value| > 1 && o.plan.value[0] == Tbl8(0, PackEntry(SECOND))
  {
    var e, r := Engine(map[], map[], map[], [], [0]), Route(256, 32);
    HostRoute(256);
    var e1 := Insert(e, r, SECOND);
    SyncOne(e1, 1);
    assert HasLong(e1, 1) && 1 !in e1.groups && AllocGroup(e1).value.0 == 0;
    assert Best(e1.shadow, 256, 32, 1) == Some(SECOND);
    var fill := Fill(e1.shadow, 1, 0);
    assert SlotWord(e1.shadow, 256) == PackEntry(SECOND);
    assert fill[0] == Tbl8(0 * 256 + 0, SlotWord(e1.shadow, 1 * 256 + 0));
    assert SyncBlock(e1, 1).plan == Some(Fill(e1.shadow, 1, 0) + [Tbl24(1, PackGroup(0))]);
    assert SyncBlock(e1, 1).engine.quarantine == [];
  }

  /** The writer about to remove 0.0.0.0/32. */
  lemma Removing() returns (s: Writer)
    ensures s.Ok(1) && Fits(s.tabs, 1) && s.done == 0
    ensures s.plan == [Tbl24(0, 0)] && s.eng == Engine(map[], map[], map[], [], [0])
    ensures s.tabs.tbl24[0] == PackGroup(0)
    ensures View(s.tabs, 0) == Some(PackEntry(FIRST))
  {
    var e, t := Added();
    GroupFreed(e);
    HostLookup(e, t);
    s := Writer(e, Del(0, 32), t, Engine(map[], map[], map[], [], [0]), [Tbl24(0, 0)], 0, t);
    assert s.plan[..0] == [];
  }

  lemma Added() returns (e: Engine, t: Tables)
    ensures Valid(e, 1) && Agree(e, t, 1)
    ensures e == Engine(map[Route(0, 32) := FIRST], map[0 := 1], map[0 := 0], [], [])
  {
    var first := Add(0, 32, FIRST);
    var o := Do(New(1), first);
    OneGroup();
    NewIsValid(1);
    NewAgrees(1);
    DoAtomic(New(1), 1, first);
    DoAgrees(New(1), ZeroTables(1), 1, first);
    e, t := o.engine, ApplyAll(ZeroTables(1), o.plan.value);
  }

  /** Without the proviso on the fallback the theorem fails: with a pool of one group, a reader of
      0.0.0.0 can be handed the nexthop of 0.0.1.0, which no table ever gave it. */
  lemma FallbackTearsAReader() returns (s: Writer, steps: seq<Step>)
    ensures s.Ok(1) && CollapseCount(s, steps) == 1 && |s.tabs.tbl24| == BLOCKS
    ensures TornLookup(s, steps, 0) == Some(PackEntry(SECOND))
    ensures forall k | 0 <= k <= |steps| :: View(After(s, steps[..k]).tabs, 0) != Some(PackEntry(SECOND))
  {
    s := Removing();
    steps := [Write, Start(Add(256, 32, SECOND)), Write];
    Reallocation(s);
    forall k | 0 <= k <= 3 ensures View(After(s, steps[..k]).tabs, 0) != Some(PackEntry(SECOND)) {
      Unroll(s, steps, k);
    }
    Unroll(s, steps, 3);
    assert steps[..3] == steps;
    OneCollapse(s, steps);
  }

  /** The flip, the add that takes the group back, and its first word. */
  lemma Reallocation(s: Writer)
    requires Fits(s.tabs, 1) && s.done == 0
    requires s.plan == [Tbl24(0, 0)] && s.eng == Engine(map[], map[], map[], [], [0])
    requires s.tabs.tbl24[0] == PackGroup(0) && View(s.tabs, 0) == Some(PackEntry(FIRST))
    ensures var s1 := Next(s, Write);
      var s2 := Next(s1, Start(Add(256, 32, SECOND)));
      var s3 := Next(s2, Write);
      && CollapseNext(s) && !CollapseNext(s2)
      && View(s.tabs, 0) != Some(PackEntry(SECOND))
      && View(s1.tabs, 0) == View(s2.tabs, 0) == View(s3.tabs, 0) == Some(0)
      && Load8(s3.tabs, PackGroup(0), 0) == Some(PackEntry(SECOND))
  {
    GroupReused();
    GroupWord(0);
    var s1 := Next(s, Write);
    var s2 := Next(s1, Start(Add(256, 32, SECOND)));
    assert s1.tabs.tbl24[0] == 0 && s2.tabs == s1.tabs;
    assert s2.plan[0] == Tbl8(0, PackEntry(SECOND));
  }

  lemma OneCollapse(s: Writer, steps: seq<Step>)
    requires |steps| == 3 && steps[0] == Write && steps[1].Start? && steps[2] == Write
    requires CollapseNext(s) && !CollapseNext(Next(Next(s, steps[0]), steps[1]))
    ensures CollapseCount(s, steps) == 1
  {
    var s1 := Next(s, steps[0]);
    var s2 := Next(s1, steps[1]);
    assert steps[1..][0] == steps[1] && steps[1..][1..] == [steps[2]] && [steps[2]][1..] == [];
    assert CollapseCount(s2, [steps[2]]) == 0 + CollapseCount(Next(s2, steps[2]), []);
    assert CollapseCount(s1, steps[1..]) == 0 + CollapseCount(s2, [steps[2]]);
  }

  lemma HostLookup(e: Engine, t: Tables)
    requires Agree(e, t, 1) && e.shadow == map[Route(0, 32) := FIRST]
    ensures View(t, 0) == Some(PackEntry(FIRST))
  {
    HostRoute(0);
    assert SlotWord(e.shadow, 0) == PackEntry(FIRST);
  }

  lemma Unroll(s: Writer, steps: seq<Step>, k: nat)
    requires |steps| == 3 && k <= 3
    ensures After(s, steps[..k]) ==
      if k == 0 then s
      else if k == 1 then Next(s, steps[0])
      else if k == 2 then Next(Next(s, steps[0]), steps[1])
      else Next(Next(Next(s, steps[0]), steps[1]), steps[2])
  {
    assert steps[..0] == [];
    if k > 0 {
      AfterStep(s, steps, k - 1);
      var s1, rest := Next(s, steps[0]), steps[1..];
      assert rest[..0] == [];
      if k > 1 {
        AfterStep(s1, rest, k - 2);
        var s2, last := Next(s1, rest[0]), rest[1..];
        assert last[..0] == [];
        if k > 2 {
          AfterStep(s2, last, 0);
          assert last[1..][..0] == [];
        }
      }
    }
  }
}
