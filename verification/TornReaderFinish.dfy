/** The torn reader's third load: the default word, for a slot that holds none. */
module TornReaderFinish {
  import opened Prefix
  import opened FibWord
  import opened Wrappers
  import opened Dir24
  import opened Fib4
  import opened TornReader

  /** `TBL24` loaded now, `TBL8` after `steps`, `DEFAULT4` after `later` still. */
  function TornFib4Lookup(s: Writer, steps: seq<Step>, later: seq<Step>, addr: U32): Option<FibEntry>
    requires |s.tabs.tbl24| == BLOCKS
  {
    Finish(TornLookup(s, steps, addr), After(After(s, steps), later).tabs.default4)
  }

  /** The routes before or after the operation in hand at a moment. */
  predicate InHand(s: Writer, routes: Shadow)
  {
    routes == s.prev.shadow || routes == s.eng.shadow
  }

  /** Does this default word give the address what the routes do? Always when a route longer than the default
      covers it; otherwise when the word decodes to their own default. */
  predicate DefaultFits(routes: Shadow, d: Word, addr: U32)
  {
    Best(routes, addr, 32, 1).Some? || Finish(Some(0), d) == Finish(Some(0), DefaultWord(routes))
  }

  lemma FinishedMeaning(routes: Shadow, d: Word, addr: U32)
    ensures Finish(Some(SlotWord(routes, addr)), d) == Meaning(routes, addr) <==> DefaultFits(routes, d, addr)
  {
    CoveredLookup(routes, addr, d);
    CoveredLookup(routes, addr, DefaultWord(routes));
    FinishIsMeaning(routes, addr);
    if Best(routes, addr, 32, 1) == None {
      assert SlotWord(routes, addr) == 0;
    }
  }

  /** A finished torn lookup pairs the longest match in a route table of a moment between the first two loads
      with the default word of the third. It is that table's own answer, `/0` included, exactly when the default
      word fits it. */
  lemma TornLookupIsPair(s: Writer, n: nat, steps: seq<Step>, later: seq<Step>, addr: U32)
    returns (k: nat, routes: Shadow)
    requires s.Ok(n) && NoFallback(s, steps) && CollapseCount(s, steps) <= 64
    ensures |s.tabs.tbl24| == BLOCKS && k <= |steps| && InHand(After(s, steps[..k]), routes)
    ensures var d := After(After(s, steps), later).tabs.default4;
      && TornFib4Lookup(s, steps, later, addr) == Finish(Some(SlotWord(routes, addr)), d)
      && (TornFib4Lookup(s, steps, later, addr) == Meaning(routes, addr) <==> DefaultFits(routes, d, addr))
  {
    k := TornReadIsLongestMatch(s, n, steps, addr);
    var at := After(s, steps[..k]);
    routes :=
      if TornLookup(s, steps, addr) == Some(SlotWord(at.prev.shadow, addr)) then at.prev.shadow else at.eng.shadow;
    FinishedMeaning(routes, After(After(s, steps), later).tabs.default4, addr);
  }

  /** No default route changes hands at this moment. */
  predicate Steady(s: Writer, d: Word)
  {
    DefaultWord(s.prev.shadow) == d && DefaultWord(s.eng.shadow) == d
  }

  /** While the default route stays as it is, a torn lookup is the longest match, `/0` included, in a route table
      in force or being put in force at a moment of the window. */
  lemma SteadyTornLookup(s: Writer, n: nat, steps: seq<Step>, later: seq<Step>, addr: U32, d: Word)
    returns (k: nat, routes: Shadow)
    requires s.Ok(n) && NoFallback(s, steps) && CollapseCount(s, steps) <= 64
    requires forall j | 0 <= j <= |steps| :: Steady(After(s, steps[..j]), d)
    requires After(After(s, steps), later).tabs.default4 == d
    ensures |s.tabs.tbl24| == BLOCKS && k <= |steps| && InHand(After(s, steps[..k]), routes)
    ensures TornFib4Lookup(s, steps, later, addr) == Meaning(routes, addr)
  {
    k, routes := TornLookupIsPair(s, n, steps, later, addr);
    assert Steady(After(s, steps[..k]), d);
  }
}
