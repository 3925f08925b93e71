/** Conservation of the TBL8 group pool: every group is in use by one block, free, or quarantined. */
module Dir24Pool {
  import opened Prefix
  import opened Wrappers
  import opened Dir24

  /** The pool `0..n` is partitioned into groups in use, free groups and quarantined groups, and no
      two blocks share a group. */
  ghost predicate Partition(e: Engine, n: nat)
  {
    && Distinct(e.free) && Distinct(e.quarantine)
    && (forall g | g in e.free :: g !in e.quarantine && g !in e.groups.Values && g < n)
    && (forall g | g in e.quarantine :: g !in e.groups.Values && g < n)
    && (forall b | b in e.groups :: e.groups[b] < n && b < BLOCKS)
    && (forall b, c | b in e.groups && c in e.groups && b != c :: e.groups[b] != e.groups[c])
    && (forall g | 0 <= g < n :: g in e.free || g in e.quarantine || g in e.groups.Values)
  }

  ghost predicate PoolOk(e: Engine, n: nat)
  {
    Partition(e, n) && |e.quarantine| <= QUARANTINE_DEPTH
  }

  /** The routes longer than /24 inside a block. */
  function LongRoutes(shadow: Shadow, blk: nat): set<Route>
  {
    set r | r in shadow && r.len > 24 && r.net / 256 == blk
  }

  ghost predicate CountsOk(e: Engine)
  {
    && (forall b | b in e.longCount :: e.longCount[b] == |LongRoutes(e.shadow, b)| > 0)
    && (forall b: nat | b !in e.longCount :: LongRoutes(e.shadow, b) == {})
  }

  ghost predicate MaskedRoutes(shadow: Shadow)
  {
    forall r | r in shadow :: r.net == Net(r.net, r.len)
  }

  /** What every operation keeps. The last conjunct: a block has a group exactly when it has a route
      longer than /24. */
  ghost predicate Valid(e: Engine, n: nat)
  {
    && PoolOk(e, n)
    && CountsOk(e)
    && MaskedRoutes(e.shadow)
    && (forall b: nat :: b in e.groups <==> HasLong(e, b))
  }

  // ---- sequences without repetition ----

  lemma DistinctPush(s: seq<nat>, x: nat)
    requires Distinct(s) && x !in s
    ensures Distinct(s + [x])
    ensures forall y :: y in s + [x] <==> y in s || y == x
  {
  }

  lemma DistinctPopFront(s: seq<nat>)
    requires Distinct(s) && s != []
    ensures Distinct(s[1..]) && s[0] !in s[1..]
    ensures forall y :: y in s <==> y == s[0] || y in s[1..]
  {
    assert s == [s[0]] + s[1..];
  }

  lemma DistinctPopBack(s: seq<nat>)
    requires Distinct(s) && s != []
    ensures Distinct(s[..|s| - 1]) && s[|s| - 1] !in s[..|s| - 1]
    ensures forall y :: y in s <==> y == s[|s| - 1] || y in s[..|s| - 1]
  {
    assert s == s[..|s| - 1] + [s[|s| - 1]];
  }

  function Elements(s: seq<nat>): set<nat> { set x | x in s }

  lemma {:induction false} DistinctCard(s: seq<nat>)
    requires Distinct(s)
    ensures |Elements(s)| == |s|
  {
    if s != [] {
      DistinctPopBack(s);
      DistinctCard(s[..|s| - 1]);
      assert Elements(s) == Elements(s[..|s| - 1]) + {s[|s| - 1]};
    }
  }

  lemma ValuesAfterRemoval(m: map<nat, nat>, b: nat)
    requires b in m
    requires forall c, d | c in m && d in m && c != d :: m[c] != m[d]
    ensures (m - {b}).Values == m.Values - {m[b]}
  {
    forall g | g in m.Values - {m[b]} ensures g in (m - {b}).Values {
      var c :| c in m && m[c] == g;
      assert c in m - {b};
    }
  }

  lemma ValuesAfterUpdate(m: map<nat, nat>, b: nat, g: nat)
    requires b !in m
    ensures m[b := g].Values == m.Values + {g}
  {
    var m' := m[b := g];
    assert m'[b] == g;
    forall h | h in m.Values ensures h in m'.Values {
      var c :| c in m && m[c] == h;
      assert c in m' && m'[c] == h;
    }
  }

  lemma {:induction false} InjectiveCard(m: map<nat, nat>)
    requires forall b, c | b in m && c in m && b != c :: m[b] != m[c]
    ensures |m.Values| == |m|
    decreases |m|
  {
    if m != map[] {
      var b :| b in m;
      var rest := m - {b};
      assert m.Keys == rest.Keys + {b};
      InjectiveCard(rest);
      ValuesAfterRemoval(m, b);
      assert m[b] in m.Values;
      assert m.Values == rest.Values + {m[b]};
    }
  }

  lemma RangeElements(n: nat)
    ensures |Elements(Range(0, n))| == n
    ensures forall g: nat :: g in Elements(Range(0, n)) <==> g < n
  {
    DistinctCard(Range(0, n));
    forall g: nat | g < n ensures g in Range(0, n) {
      assert Range(0, n)[g] == g;
    }
  }

  lemma DisjointCard(a: set<nat>, b: set<nat>, c: set<nat>, all: set<nat>)
    requires a !! b && (a + b) !! c && all == a + b + c
    ensures |all| == |a| + |b| + |c|
  {
    assert |a + b| == |a| + |b|;
  }

  lemma PoolSets(e: Engine, n: nat)
    requires Partition(e, n)
    ensures Elements(e.free) !! Elements(e.quarantine)
    ensures (Elements(e.free) + Elements(e.quarantine)) !! e.groups.Values
    ensures Elements(Range(0, n)) == Elements(e.free) + Elements(e.quarantine) + e.groups.Values
  {
    RangeElements(n);
    forall g | g in e.groups.Values ensures g < n {
      var b :| b in e.groups && e.groups[b] == g;
    }
    forall g: nat
      ensures g in Elements(Range(0, n)) <==> g in Elements(e.free) + Elements(e.quarantine) + e.groups.Values
    {
    }
  }

  /** Conservation in numbers: used plus available is the pool size. */
  lemma PoolCard(e: Engine, n: nat)
    requires Partition(e, n)
    ensures |e.groups| + Available(e) == n
  {
    assert Distinct(e.free) && Distinct(e.quarantine);
    PoolSets(e, n);
    RangeElements(n);
    DisjointCard(Elements(e.free), Elements(e.quarantine), e.groups.Values, Elements(Range(0, n)));
    DistinctCard(e.free);
    DistinctCard(e.quarantine);
    InjectiveCard(e.groups);
  }

  lemma NewIsValid(n: nat)
    ensures Valid(New(n), n)
  {
    var e := New(n);
    forall g | 0 <= g < n ensures g in e.free {
      assert e.free[n - 1 - g] == g;
    }
    assert e.groups.Values == {};
  }

  // ---- one block ----

  /** `Drain` runs at most once: a collapse adds one group to a quarantine of at most 64. */
  lemma DrainOnce(e: Engine)
    requires |e.quarantine| <= QUARANTINE_DEPTH + 1
    ensures Drain(e) == if |e.quarantine| <= QUARANTINE_DEPTH then e
                        else e.(free := e.free + [e.quarantine[0]], quarantine := e.quarantine[1..])
  {
  }

  lemma AllocPool(e: Engine, n: nat, blk: nat)
    requires PoolOk(e, n) && blk !in e.groups && blk < BLOCKS && !Exhausted(e)
    ensures AllocGroup(e).Some?
    ensures var (g, e1) := AllocGroup(e).value;
      PoolOk(e1.(groups := e1.groups[blk := g]), n)
  {
    var (g, e1) := AllocGroup(e).value;
    if |e.free| > 0 {
      DistinctPopBack(e.free);
    } else {
      DistinctPopFront(e.quarantine);
    }
    GroupTaken(e, e1, n, blk, g);
  }

  /** A group that leaves the free or the quarantined ones goes to a block without one. */
  lemma GroupTaken(e: Engine, e1: Engine, n: nat, blk: nat, g: nat)
    requires PoolOk(e, n) && blk !in e.groups && blk < BLOCKS && e1.groups == e.groups
    requires Distinct(e1.free) && Distinct(e1.quarantine) && |e1.quarantine| <= |e.quarantine|
    requires g !in e1.free && g !in e1.quarantine && (g in e.free || g in e.quarantine)
    requires forall h :: h in e.free <==> h in e1.free || (h == g && g in e.free)
    requires forall h :: h in e.quarantine <==> h in e1.quarantine || (h == g && g in e.quarantine)
    ensures PoolOk(e1.(groups := e1.groups[blk := g]), n)
  {
    ValuesAfterUpdate(e.groups, blk, g);
    var e2 := e1.(groups := e1.groups[blk := g]);
    assert e2.groups.Values == e.groups.Values + {g};
    forall b | b in e.groups ensures e.groups[b] in e.groups.Values {
    }
  }

  lemma CollapsePool(e: Engine, n: nat, blk: nat)
    requires PoolOk(e, n) && blk in e.groups
    ensures PoolOk(Drain(e.(groups := e.groups - {blk}, quarantine := e.quarantine + [e.groups[blk]])), n)
  {
    var g := e.groups[blk];
    var e1 := e.(groups := e.groups - {blk}, quarantine := e.quarantine + [g]);
    ValuesAfterRemoval(e.groups, blk);
    assert g in e.groups.Values;
    DistinctPush(e.quarantine, g);
    assert Partition(e1, n);
    DrainOnce(e1);
    if |e1.quarantine| > QUARANTINE_DEPTH {
      DistinctPopFront(e1.quarantine);
      DistinctPush(e1.free, e1.quarantine[0]);
    }
  }

  /** One block's synchronisation: the pool survives, only this block's group can change, and the only
      failure is an empty pool, which leaves the engine alone. */
  lemma SyncBlockPool(e: Engine, n: nat, blk: nat)
    requires PoolOk(e, n) && blk < BLOCKS
    ensures var o := SyncBlock(e, blk);
      && PoolOk(o.engine, n)
      && o.engine.shadow == e.shadow && o.engine.longCount == e.longCount
      && (o.plan == None <==> HasLong(e, blk) && blk !in e.groups && Exhausted(e))
      && (o.plan == None ==> o.engine == e)
      && (o.plan != None ==> (blk in o.engine.groups <==> HasLong(e, blk)))
      && (blk in e.groups && blk in o.engine.groups ==> o.engine == e)
      && (forall b | b != blk :: b in o.engine.groups <==> b in e.groups)
      && (forall b | b != blk && b in e.groups :: o.engine.groups[b] == e.groups[b])
  {
    var o := SyncBlock(e, blk);
    if HasLong(e, blk) {
      if blk !in e.groups && !Exhausted(e) {
        AllocPool(e, n, blk);
      }
    } else if blk in e.groups {
      CollapsePool(e, n, blk);
      DrainOnce(e.(groups := e.groups - {blk}, quarantine := e.quarantine + [e.groups[blk]]));
    }
  }

  // ---- many blocks ----

  lemma {:induction false} SyncAllPool(e: Engine, n: nat, blks: seq<nat>)
    requires PoolOk(e, n) && InTable(blks) && Distinct(blks)
    ensures var o := SyncAll(e, blks);
      && PoolOk(o.engine, n)
      && o.engine.shadow == e.shadow && o.engine.longCount == e.longCount
      && (o.plan != None ==> forall b | b in blks :: b in o.engine.groups <==> HasLong(e, b))
      && (forall b | b !in blks :: b in o.engine.groups <==> b in e.groups)
      && (forall b | b in e.groups && b in o.engine.groups :: o.engine.groups[b] == e.groups[b])
    decreases |blks|
  {
    if blks != [] {
      var blk, rest := blks[0], blks[1..];
      assert blks == [blk] + rest && blk !in rest;
      SyncBlockPool(e, n, blk);
      var first := SyncBlock(e, blk);
      if first.plan != None {
        SyncAllPool(first.engine, n, rest);
        SyncThen(e, first.engine, SyncAll(first.engine, rest), blk, rest);
      }
    }
  }

  /** One block's effect on the groups, then that of other blocks. */
  lemma SyncThen(e: Engine, m: Engine, o: Outcome, blk: nat, rest: seq<nat>)
    requires blk !in rest && m.longCount == e.longCount && (blk in m.groups <==> HasLong(e, blk))
    requires forall b | b != blk :: b in m.groups <==> b in e.groups
    requires forall b | b in e.groups && b in m.groups :: m.groups[b] == e.groups[b]
    requires o.plan != None ==> forall b | b in rest :: b in o.engine.groups <==> HasLong(m, b)
    requires forall b | b !in rest :: b in o.engine.groups <==> b in m.groups
    requires forall b | b in m.groups && b in o.engine.groups :: o.engine.groups[b] == m.groups[b]
    ensures o.plan != None ==> forall b | b in [blk] + rest :: b in o.engine.groups <==> HasLong(e, b)
    ensures forall b | b !in [blk] + rest :: b in o.engine.groups <==> b in e.groups
    ensures forall b | b in e.groups && b in o.engine.groups :: o.engine.groups[b] == e.groups[b]
  {
    forall b | b in e.groups && b in o.engine.groups ensures o.engine.groups[b] == e.groups[b] {
      assert b != blk && b !in rest ==> b in m.groups;
    }
  }

  /** A run cannot fail when the blocks that have or will have a group fit the pool. */
  lemma {:induction false} SyncAllSucceeds(e: Engine, n: nat, blks: seq<nat>, fit: set<nat>)
    requires PoolOk(e, n) && InTable(blks)
    requires e.groups.Keys <= fit && |fit| <= n
    requires forall b | b in blks && HasLong(e, b) :: b in fit
    ensures SyncAll(e, blks).plan != None
    decreases |blks|
  {
    if blks != [] {
      var blk, rest := blks[0], blks[1..];
      SyncBlockPool(e, n, blk);
      var first := SyncBlock(e, blk);
      if first.plan == None {
        PoolCard(e, n);
        Smaller(e.groups.Keys, fit, blk);
        assert false;
      }
      assert forall b | b in first.engine.groups :: b == blk || b in e.groups;
      SyncAllSucceeds(first.engine, n, rest, fit);
    }
  }

  lemma Smaller(a: set<nat>, b: set<nat>, x: nat)
    requires a <= b && x in b && x !in a
    ensures |a| < |b|
  {
    assert b == a + (b - a);
    assert x in b - a;
  }
}
