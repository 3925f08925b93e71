/** The policy maps as the control plane updates them, one operation at a time. */
module PolicyObjects {
  import opened Wrappers
  import opened Policy
  import opened PolicySwap

  /** The maps after a call that succeeds. */
  function After(m: Maps, c: Call): Maps
  {
    Maps(map k | k in Installed(m, c) && !Swept(m, c, k) :: Installed(m, c)[k], Apply(m, Turn(m, c)).epPolicy)
  }

  /** The plan ends there, in whatever order the sweep finds its keys. */
  lemma PlanEnds(m: Maps, c: Call, keys: seq<Key>)
    requires Stale(m, c, keys)
    ensures At(m, c, keys, |Plan(m, c, keys)|) == After(m, c)
  {
    var end, after := At(m, c, keys, |Plan(m, c, keys)|), After(m, c);
    Ends(m, c, keys, Key(0, 0, 0, 0, Ingress, false));
    forall k ensures k in end.policy <==> k in after.policy
      ensures k in end.policy ==> end.policy[k] == after.policy[k]
    {
      Ends(m, c, keys, k);
    }
    assert end.policy == after.policy;
  }

  /** The rules a call has put in by its `i`-th insert, ingress first. */
  function Wrote(c: Call, i: nat, dir: Dir): (rules: seq<Rule>)
  {
    var first, second := RulesOf(c, Ingress), RulesOf(c, Egress);
    if dir.Ingress? then first[..if i < |first| then i else |first|]
    else if i < |first| then []
    else second[..if i - |first| < |second| then i - |first| else |second|]
  }

  function WroteTable(m: Maps, c: Call, i: nat): Table
  {
    var gen := NewGen(m, c.ep);
    Install(Install(m.policy, c.ep, Ingress, gen, Wrote(c, i, Ingress)), c.ep, Egress, gen, Wrote(c, i, Egress))
  }

  /** One direction's inserts. */
  function Part(m: Maps, c: Call, dir: Dir): seq<Step>
  {
    RuleSteps(c.ep, dir, NewGen(m, c.ep), RulesOf(c, dir))
  }

  lemma InsertsAre(m: Maps, c: Call)
    ensures Inserts(m, c) == Part(m, c, Ingress) + Part(m, c, Egress)
  {
  }

  /** A call cut short at any insert. */
  lemma InsertsPrefix(m: Maps, c: Call, i: nat)
    requires i <= |Inserts(m, c)|
    ensures ApplyAll(m, Inserts(m, c)[..i]) == m.(policy := WroteTable(m, c, i))
  {
    var gen := NewGen(m, c.ep);
    var first, second := Wrote(c, i, Ingress), Wrote(c, i, Egress);
    var a, b := RuleSteps(c.ep, Ingress, gen, first), RuleSteps(c.ep, Egress, gen, second);
    InsertsAre(m, c);
    assert Inserts(m, c)[..i] == a + b;
    ApplyAllConcat(m, a, b);
    RulesInstalled(m, c.ep, Ingress, gen, first);
    RulesInstalled(ApplyAll(m, a), c.ep, Egress, gen, second);
  }

  /** The inserts stop in the first direction, */
  lemma StoppedInFirst(m: Maps, c: Call, room: nat)
    requires Fitting(m, Part(m, c, Ingress), room) < |Part(m, c, Ingress)|
    ensures var a, n := Part(m, c, Ingress), Fitting(m, Part(m, c, Ingress), room);
      n < |Inserts(m, c)| && Fitting(m, Inserts(m, c), room) == n
      && ApplyAll(m, Inserts(m, c)[..n]) == ApplyAll(m, a[..n])
  {
    var a, b, n := Part(m, c, Ingress), Part(m, c, Egress), Fitting(m, Part(m, c, Ingress), room);
    InsertsAre(m, c);
    FittingConcat(m, a, b, room);
    assert (a + b)[..n] == a[..n];
  }

  /** or get past it, and so far in the second. */
  lemma PastFirst(m: Maps, c: Call, room: nat, m1: Maps, k: nat)
    requires Fitting(m, Part(m, c, Ingress), room) == |Part(m, c, Ingress)|
    requires m1 == ApplyAll(m, Part(m, c, Ingress)) && k == Fitting(m1, Part(m, c, Egress), room)
    ensures var n := |Part(m, c, Ingress)| + k;
      n <= |Inserts(m, c)| && Fitting(m, Inserts(m, c), room) == n
      && (n == |Inserts(m, c)| <==> k == |Part(m, c, Egress)|)
      && ApplyAll(m, Inserts(m, c)[..n]) == ApplyAll(m1, Part(m, c, Egress)[..k])
  {
    var a, b := Part(m, c, Ingress), Part(m, c, Egress);
    InsertsAre(m, c);
    FittingConcat(m, a, b, room);
    assert (a + b)[..|a| + k] == a + b[..k];
    ApplyAllConcat(m, a, b[..k]);
  }

  /** A row in the map is updated in place; a new one needs room. */
  predicate RowFits(m: Maps, ep: nat, rows: nat)
  {
    ep in m.epPolicy || |m.epPolicy| < rows
  }

  /** A call succeeds when it only clears, or when its table and its row have room. */
  predicate Succeeds(m: Maps, c: Call, room: nat, rows: nat)
  {
    || c.Clears()
    || ((|Installed(m, c)| <= room || Installed(m, c).Keys == m.policy.Keys) && RowFits(m, c.ep, rows))
  }

  class PolicyMaps {
    var policy: Table
    var epPolicy: map<nat, Flags>

    /** What the kernel maps hold at most. */
    const room: nat
    const rows: nat

    constructor (room: nat, rows: nat)
      ensures Now() == Maps(map[], map[]) && this.room == room && this.rows == rows && Clean(Now())
    {
      policy, epPolicy := map[], map[];
      this.room, this.rows := room, rows;
    }

    function Now(): Maps
      reads this
    {
      Maps(policy, epPolicy)
    }

    method Insert(k: Key, v: Verdict) returns (ok: bool)
      modifies this`policy
      ensures ok == (k in old(policy) || |old(policy)| < room)
      ensures policy == if ok then old(policy)[k := v] else old(policy)
    {
      ok := k in policy || |policy| < room;
      if ok {
        policy := policy[k := v];
      }
    }

    /** One direction's rules, up to the first that does not go in. */
    method InsertRules(ep: nat, dir: Dir, gen: bool, rules: seq<Rule>) returns (ok: bool)
      modifies this`policy
      ensures var steps := RuleSteps(ep, dir, gen, rules);
        var done := Fitting(old(Now()), steps, room);
        ok == (done == |steps|) && Now() == ApplyAll(old(Now()), steps[..done])
    {
      ghost var m, steps := Now(), RuleSteps(ep, dir, gen, rules);
      for i := 0 to |rules|
        invariant Fitting(m, steps[..i], room) == i && Now() == ApplyAll(m, steps[..i])
      {
        assert steps[..i + 1][..i] == steps[..i];
        ok := Insert(KeyOf(rules[i], ep, dir, gen), VerdictOf(rules[i]));
        if !ok {
          FittingStops(m, steps, room, i);
          return;
        }
      }
      assert steps[..|rules|] == steps;
      ok := true;
    }

    /** Collect the stale keys, then remove them one by one. */
    method Sweep(ep: nat, keep: Option<bool>)
      modifies this`policy
      ensures policy ==
        map k | k in old(policy) && !(k.ep == ep && (keep == None || k.gen != keep.value)) :: old(policy)[k]
    {
      var stale := set k | k in policy && k.ep == ep && (keep == None || k.gen != keep.value);
      ghost var all := stale;
      while stale != {}
        invariant stale <= all
        invariant policy == map k | k in old(policy) && k !in all - stale :: old(policy)[k]
        decreases stale
      {
        var k :| k in stale;
        policy := policy - {k};
        stale := stale - {k};
      }
    }

    /** One direction, if the call enforces it. */
    method InsertDirection(c: Call, dir: Dir, gen: bool) returns (ok: bool)
      modifies this`policy
      ensures var steps := RuleSteps(c.ep, dir, gen, RulesOf(c, dir));
        var done := Fitting(old(Now()), steps, room);
        ok == (done == |steps|) && Now() == ApplyAll(old(Now()), steps[..done])
    {
      if if dir.Ingress? then c.enforce else c.enforceEgress {
        ok := InsertRules(c.ep, dir, gen, if dir.Ingress? then c.rules else c.egressRules);
      } else {
        ok := true;
      }
    }

    /** The rules of both directions. */
    method InsertAll(c: Call, gen: bool) returns (ok: bool)
      requires gen == NewGen(Now(), c.ep)
      modifies this`policy
      ensures var steps := Inserts(old(Now()), c);
        var done := Fitting(old(Now()), steps, room);
        ok == (done == |steps|) && Now() == ApplyAll(old(Now()), steps[..done])
    {
      ghost var m := Now();
      ok := InsertDirection(c, Ingress, gen);
      if !ok {
        StoppedInFirst(m, c, room);
        return;
      }
      assert Part(m, c, Ingress)[..|Part(m, c, Ingress)|] == Part(m, c, Ingress);
      ghost var m1 := Now();
      ok := InsertDirection(c, Egress, gen);
      PastFirst(m, c, room, m1, Fitting(m1, Part(m, c, Egress), room));
    }

    /** The one word that switches the endpoint, and the sweep. */
    method SwitchAndSweep(c: Call, gen: bool, ghost m: Maps)
      requires !c.Clears() && gen == NewGen(m, c.ep) && Now() == m.(policy := Installed(m, c))
      modifies this
      ensures Now() == After(m, c)
    {
      epPolicy := epPolicy[c.ep := Flags(c.enforce, c.enforceEgress, c.audit, gen)];
      Sweep(c.ep, Some(gen));
      assert policy == After(m, c).policy;
    }

    /** `endpoint_policy_set`. */
    method EndpointPolicySet(c: Call) returns (ok: bool)
      modifies this
      ensures ok <==> Succeeds(old(Now()), c, room, rows)
      ensures ok ==> Now() == After(old(Now()), c)
      ensures !ok ==>
        Now() == ApplyAll(old(Now()), Inserts(old(Now()), c)[..Fitting(old(Now()), Inserts(old(Now()), c), room)])
      ensures ok && CleanElsewhere(old(Now()), c.ep) ==> Clean(Now())
    {
      ghost var m := Now();
      CleanAt(m, c);
      if !c.enforce && !c.enforceEgress {
        epPolicy := epPolicy - {c.ep};
        Sweep(c.ep, None);
        assert policy == After(m, c).policy;
        return true;
      }
      CallFits(m, c, room);
      InsertsInstall(m, c);
      var gen := c.ep in epPolicy && !epPolicy[c.ep].gen;
      ok := InsertAll(c, gen);
      assert Inserts(m, c)[..|Inserts(m, c)|] == Inserts(m, c);
      if !ok || !(c.ep in epPolicy || |epPolicy| < rows) {
        return false;
      }
      SwitchAndSweep(c, gen, m);
    }
  }

  lemma SomeOrder(todo: set<Key>) returns (keys: seq<Key>)
    ensures forall k :: k in keys <==> k in todo
    decreases todo
  {
    if todo == {} {
      keys := [];
    } else {
      var k :| k in todo;
      var rest := SomeOrder(todo - {k});
      keys := [k] + rest;
    }
  }

  lemma CleanAt(m: Maps, c: Call)
    ensures CleanElsewhere(m, c.ep) ==> Clean(After(m, c))
  {
    var keys := SomeOrder(set k | k in m.policy && Swept(m, c, k));
    PlanEnds(m, c, keys);
    if CleanElsewhere(m, c.ep) {
      CleanAfter(m, c, keys);
    }
  }
}
