/** A policy call that fails part-way: what it leaves, and what the next call makes of it. */
module PolicyFailure {
  import opened Wrappers
  import opened Policy
  import opened PolicyAbsorb
  import opened PolicySwap
  import opened PolicyObjects

  // ---- what is left ----

  lemma {:induction false} Untouched(m: Maps, c: Call, i: nat, ep: nat)
    requires i <= |Inserts(m, c)|
    ensures Row(ApplyAll(m, Inserts(m, c)[..i]), ep) == Row(m, ep)
  {
    if i > 0 {
      Untouched(m, c, i - 1, ep);
      InsertsAreNew(m, c, i - 1);
      assert Inserts(m, c)[..i][..i - 1] == Inserts(m, c)[..i - 1];
    }
  }

  lemma {:induction false} UntouchedKey(m: Maps, c: Call, i: nat, k: Key)
    requires i <= |Inserts(m, c)| && (k.ep != c.ep || k.gen != NewGen(m, c.ep))
    ensures Find(ApplyAll(m, Inserts(m, c)[..i]).policy, k) == Find(m.policy, k)
  {
    if i > 0 {
      UntouchedKey(m, c, i - 1, k);
      InsertsAreNew(m, c, i - 1);
      assert Inserts(m, c)[..i][..i - 1] == Inserts(m, c)[..i - 1];
    }
  }

  /** A call that stops at an insert has changed no verdict. */
  lemma FailureChangesNoVerdict(m: Maps, c: Call, i: nat, q: Query)
    requires i <= |Inserts(m, c)|
    ensures VerdictIn(ApplyAll(m, Inserts(m, c)[..i]), q) == VerdictIn(m, q)
  {
    var after := ApplyAll(m, Inserts(m, c)[..i]);
    Untouched(m, c, i, q.ep);
    var row := Row(m, q.ep);
    if row.Some? {
      var asked := Under(q, row);
      forall j | 0 <= j < |PATTERNS| ensures Hits(after.policy, asked)[j] == Hits(m.policy, asked)[j] {
        UntouchedKey(m, c, i, Probe(asked, PATTERNS[j]));
      }
      assert Hits(after.policy, asked) == Hits(m.policy, asked);
    }
  }

  /** The maps after a call that failed. */
  function Left(m: Maps, c: Call, room: nat): Maps
  {
    ApplyAll(m, Inserts(m, c)[..Fitting(m, Inserts(m, c), room)])
  }

  lemma KeysLeft(m: Maps, c: Call, i: nat)
    requires Clean(m) && i <= |Inserts(m, c)|
    ensures Clean(ApplyAll(m, Inserts(m, c)[..i])) <==> i == 0
  {
    var steps := Inserts(m, c)[..i];
    if i == 0 {
      assert steps == [];
    } else {
      var last := steps[i - 1];
      InsertsAreNew(m, c, i - 1);
      Untouched(m, c, i, c.ep);
      assert ApplyAll(m, steps) == Apply(ApplyAll(m, steps[..i - 1]), last);
      assert last.key in ApplyAll(m, steps).policy;
      assert Row(ApplyAll(m, steps), c.ep) == Row(m, c.ep);
    }
  }

  /** A failed call leaves no idle key exactly when it had no rule to insert or found the map full. */
  lemma FailureLeavesClean(m: Maps, c: Call, room: nat)
    requires Clean(m)
    ensures Clean(Left(m, c, room)) <==> Inserts(m, c) == [] || |m.policy| >= room
  {
    var steps := Inserts(m, c);
    KeysLeft(m, c, Fitting(m, steps, room));
    if steps != [] {
      InsertsAreNew(m, c, 0);
      assert steps[..1][..0] == [] && steps[..1][0] == steps[0];
      assert ApplyAll(m, []) == m;
      assert Fitting(m, steps[..1], room) == if |m.policy| < room then 1 else 0;
      FirstFits(m, steps, room);
    }
  }

  lemma {:induction false} FirstFits(m: Maps, steps: seq<Step>, room: nat)
    requires steps != []
    ensures Fitting(m, steps, room) == 0 <==> Fitting(m, steps[..1], room) == 0
    decreases |steps|
  {
    FittingLast(m, steps, room);
    if |steps| > 1 {
      assert steps[..|steps| - 1][..1] == steps[..1];
      FirstFits(m, steps[..|steps| - 1], room);
    } else {
      assert steps[..1] == steps;
    }
  }

  // ---- the next call ----

  /** The rules a call has put in come on top of what was idle. */
  lemma WroteIdles(m: Maps, c: Call, i: nat, dir: Dir, idle: seq<Rule>)
    requires i <= |Inserts(m, c)| && Idles(m, c.ep, dir, idle)
    ensures Idles(ApplyAll(m, Inserts(m, c)[..i]), c.ep, dir, idle + Wrote(c, i, dir))
  {
    var gen, wrote := NewGen(m, c.ep), Wrote(c, i, dir);
    InsertsPrefix(m, c, i);
    InstallConcat(map[], c.ep, dir, gen, idle, wrote);
    forall k: Key | k.ep == c.ep && k.dir == dir && k.gen == gen
      ensures Find(WroteTable(m, c, i), k) == Find(Install(map[], c.ep, dir, gen, idle + wrote), k)
    {
      WroteFinds(m, c, i, k);
      InstallOver(m.policy, Install(map[], c.ep, dir, gen, idle), c.ep, dir, gen, wrote, k);
    }
  }

  lemma WroteFinds(m: Maps, c: Call, i: nat, k: Key)
    requires k.ep == c.ep && k.gen == NewGen(m, c.ep)
    ensures Find(WroteTable(m, c, i), k) == Find(Install(m.policy, c.ep, k.dir, k.gen, Wrote(c, i, k.dir)), k)
  {
    var t := Install(m.policy, c.ep, Ingress, k.gen, Wrote(c, i, Ingress));
    if k.dir.Ingress? {
      InstallFinds(t, c.ep, Egress, k.gen, Wrote(c, i, Egress), k);
    } else {
      InstallFinds(m.policy, c.ep, Ingress, k.gen, Wrote(c, i, Ingress), k);
      InstallOver(t, m.policy, c.ep, Egress, k.gen, Wrote(c, i, Egress), k);
    }
  }

  /** The next call to the endpoint puts in force, with its own rules, whatever was idle and whatever rules the
      failed call had inserted by then, in that order, so that later ones replace earlier under the same key. */
  lemma NextCallMeans(m: Maps, failed: Call, i: nat, next: Call, keys: seq<Key>, q: Query, idle: seq<Rule>)
    requires i <= |Inserts(m, failed)| && failed.ep == next.ep == q.ep && q.Ok() && Idles(m, q.ep, q.dir, idle)
    requires Stale(ApplyAll(m, Inserts(m, failed)[..i]), next, keys)
    ensures var left := ApplyAll(m, Inserts(m, failed)[..i]);
      VerdictIn(At(left, next, keys, |Plan(left, next, keys)|), q) ==
        Says(next, q, idle + Wrote(failed, i, q.dir) + RulesOf(next, q.dir))
  {
    WroteIdles(m, failed, i, q.dir, idle);
    CallMeans(ApplyAll(m, Inserts(m, failed)[..i]), next, keys, q, idle + Wrote(failed, i, q.dir));
  }

  /** A call that succeeds leaves no idle key at its endpoint, whatever was there. */
  lemma NextCallCleans(m: Maps, failed: Call, i: nat, next: Call)
    requires CleanElsewhere(m, next.ep) && i <= |Inserts(m, failed)| && failed.ep == next.ep
    ensures Clean(After(ApplyAll(m, Inserts(m, failed)[..i]), next))
  {
    var left := ApplyAll(m, Inserts(m, failed)[..i]);
    forall k | k in left.policy && k.ep != next.ep ensures k.ep in left.epPolicy && left.epPolicy[k.ep].gen == k.gen {
      UntouchedKey(m, failed, i, k);
      Untouched(m, failed, i, k.ep);
    }
    CleanAt(left, next);
  }

  // ---- when that is the call alone ----

  /** The idle rules that still count beside the call's own. */
  function Leftover(idle: seq<Rule>, rules: seq<Rule>): (left: seq<Rule>)
    ensures forall r | r in left :: r in idle
  {
    if idle == [] then []
    else if Probed(idle[0]) && !Replaced(idle[0], idle[1..] + rules) then [idle[0]] + Leftover(idle[1..], rules)
    else Leftover(idle[1..], rules)
  }

  lemma {:induction false} LiveConcat(idle: seq<Rule>, rules: seq<Rule>)
    ensures Live(idle + rules) == Leftover(idle, rules) + Live(rules)
    decreases |idle|
  {
    if idle == [] {
      assert idle + rules == rules;
    } else {
      assert (idle + rules)[1..] == idle[1..] + rules;
      LiveConcat(idle[1..], rules);
    }
  }

  predicate Enforces(c: Call, dir: Dir)
  {
    if dir.Ingress? then c.enforce else c.enforceEgress
  }

  /** In a direction the call enforces, its live rules absorb what is left of the idle ones. */
  ghost predicate NoTrace(c: Call, dir: Dir, idle: seq<Rule>)
  {
    Enforces(c, dir) ==> Absorbed(Leftover(idle, RulesOf(c, dir)), Live(RulesOf(c, dir)))
  }

  lemma SaysAlone(c: Call, idle: seq<Rule>, q: Query)
    ensures var rules := RulesOf(c, q.dir);
      Says(c, q, idle + rules) == Says(c, q, rules) <==>
        (Enforces(c, q.dir) ==> Unmoved(Leftover(idle, rules), Live(rules), q))
  {
    LiveConcat(idle, RulesOf(c, q.dir));
  }

  lemma LeftoverSpare(idle: seq<Rule>, rules: seq<Rule>)
    ensures HasSpare(idle + rules) ==> HasSpare(Leftover(idle, rules) + Live(rules))
  {
    forall r | r in Leftover(idle, rules) + Live(rules) ensures r in idle + rules {
      if r in Live(rules) {
        LiveIsRule(rules, r);
      }
    }
    SpareOf(idle + rules, Leftover(idle, rules) + Live(rules));
  }

  /** From any maps, a call gives every packet of a direction the verdict its own rules mean exactly when they
      absorb the rules it found idle - a test on the two rule lists. Over all packets, or over the ordinary ones
      when the lists leave a value of each field unnamed. */
  lemma CallAloneExactly(m: Maps, c: Call, keys: seq<Key>, dir: Dir, idle: seq<Rule>, all: bool)
    requires Stale(m, c, keys) && Idles(m, c.ep, dir, idle) && (all || HasSpare(idle + RulesOf(c, dir)))
    ensures NoTrace(c, dir, idle) <==>
      forall q: Query | Counted(q, all) && q.ep == c.ep && q.dir == dir ::
        VerdictIn(At(m, c, keys, |Plan(m, c, keys)|), q) == Says(c, q, RulesOf(c, dir))
  {
    var end, rules := At(m, c, keys, |Plan(m, c, keys)|), RulesOf(c, dir);
    forall q: Query | Counted(q, all) && q.ep == c.ep && q.dir == dir
      ensures VerdictIn(end, q) == Says(c, q, rules) <==>
        (Enforces(c, dir) ==> Unmoved(Leftover(idle, rules), Live(rules), q))
    {
      CallMeans(m, c, keys, q, idle);
      SaysAlone(c, idle, q);
    }
    LeftoverSpare(idle, rules);
    AbsorbedExactly(Leftover(idle, rules), Live(rules), c.ep, dir, all);
  }

  /** So after a failed call the next one says what its own rules mean exactly when they absorb what was idle
      before and what the failed call left. */
  lemma NextCallAloneExactly(m: Maps, failed: Call, i: nat, next: Call, keys: seq<Key>, dir: Dir, idle: seq<Rule>,
      all: bool)
    requires i <= |Inserts(m, failed)| && failed.ep == next.ep && Idles(m, next.ep, dir, idle)
    requires Stale(ApplyAll(m, Inserts(m, failed)[..i]), next, keys)
    requires all || HasSpare(idle + Wrote(failed, i, dir) + RulesOf(next, dir))
    ensures var left := ApplyAll(m, Inserts(m, failed)[..i]);
      NoTrace(next, dir, idle + Wrote(failed, i, dir)) <==>
        forall q: Query | Counted(q, all) && q.ep == next.ep && q.dir == dir ::
          VerdictIn(At(left, next, keys, |Plan(left, next, keys)|), q) == Says(next, q, RulesOf(next, dir))
  {
    WroteIdles(m, failed, i, dir, idle);
    CallAloneExactly(ApplyAll(m, Inserts(m, failed)[..i]), next, keys, dir, idle + Wrote(failed, i, dir), all);
  }

  // ---- a call that fails, through the maps ----

  /** A policy of one endpoint with ingress rules alone. */
  function OnlyIngress(rules: seq<Rule>): Call
  {
    Call(1, true, false, false, rules, [])
  }

  function AllowFrom(id: U32): Rule
  {
    Rule(id, 0, 0, false)
  }

  /** An endpoint with no rules, and the one rule a failed call left under its idle generation. */
  function Idle(id: U32): Maps
  {
    Maps(map[Key(1, id, 0, 0, Ingress, true) := Allow], map[1 := Flags(true, false, false, false)])
  }

  lemma EmptyPolicy(gen: bool)
    ensures var m := Maps(map[], map[]);
      After(m, OnlyIngress([])) == Maps(map[], map[1 := Flags(true, false, false, false)]) &&
      Succeeds(m, OnlyIngress([]), 1, 1)
  {
  }

  lemma OneStep(m: Maps, s: Step)
    ensures ApplyAll(m, [s]) == Apply(m, s)
  {
    assert [s][..0] == [];
    assert ApplyAll(m, []) == m;
  }

  lemma SecondRuleFails(id: U32, other: U32)
    requires id != other
    ensures var m := Maps(map[], map[1 := Flags(true, false, false, false)]);
      var c := OnlyIngress([AllowFrom(id), AllowFrom(other)]);
      && Clean(m) && |Inserts(m, c)| == 2 && Fitting(m, Inserts(m, c), 1) == 1
      && !Succeeds(m, c, 1, 1) && ApplyAll(m, Inserts(m, c)[..1]) == Idle(id)
  {
    var m := Maps(map[], map[1 := Flags(true, false, false, false)]);
    var c := OnlyIngress([AllowFrom(id), AllowFrom(other)]);
    var first, second :=
      Insert(Key(1, id, 0, 0, Ingress, true), Allow), Insert(Key(1, other, 0, 0, Ingress, true), Allow);
    var steps := Inserts(m, c);
    assert steps == [first, second];
    assert steps[..1] == [first] && [first][..0] == [];
    OneStep(m, first);
    FittingLast(m, [first], 1);
    FittingLast(m, steps, 1);
    CallFits(m, c, 1);
  }

  lemma RetrySucceeds(id: U32)
    ensures Succeeds(Idle(id), OnlyIngress([]), 1, 1)
  {
    assert Installed(Idle(id), OnlyIngress([])) == Idle(id).policy;
  }

  /** With room for one rule: a policy without rules, one of two allows that fails at the second, and one
      without rules again. The last forbids everything, and the packet of the first allow is forwarded. */
  method FailureLeaksIntoNextCall(id: U32, other: U32) returns (failed: bool, judged: Judged)
    requires id != other && id != 0
    ensures failed && judged == Forward
    ensures Says(OnlyIngress([]), Query(1, id, PROTO_TCP, 80, Ingress, false), []) == Dropped
  {
    var q := Query(1, id, PROTO_TCP, 80, Ingress, false);
    var maps := new PolicyMaps(1, 1);
    EmptyPolicy(false);
    var ok := maps.EndpointPolicySet(OnlyIngress([]));
    ghost var m := maps.Now();
    SecondRuleFails(id, other);
    ok := maps.EndpointPolicySet(OnlyIngress([AllowFrom(id), AllowFrom(other)]));
    failed := !ok;
    RetrySucceeds(id);
    ok := maps.EndpointPolicySet(OnlyIngress([]));
    LeakedVerdict(m, id, other, q);
    judged := VerdictIn(maps.Now(), q);
  }

  lemma LeakedVerdict(m: Maps, id: U32, other: U32, q: Query)
    requires m == Maps(map[], map[1 := Flags(true, false, false, false)]) && id != other
    requires q.Ok() && q.ep == 1 && q.dir.Ingress? && q.identity == id
    ensures VerdictIn(After(Idle(id), OnlyIngress([])), q) == Forward
  {
    var failed, next := OnlyIngress([AllowFrom(id), AllowFrom(other)]), OnlyIngress([]);
    SecondRuleFails(id, other);
    var keys := SomeOrder(set k | k in Idle(id).policy && Swept(Idle(id), next, k));
    PlanEnds(Idle(id), next, keys);
    CleanIdles(m, 1, Ingress);
    NextCallMeans(m, failed, 1, next, keys, q, []);
    var rules := [AllowFrom(id)];
    assert [] + Wrote(failed, 1, Ingress) + RulesOf(next, Ingress) == rules;
    assert rules[1..] == [] && Live(rules) == rules;
    assert AllowFrom(id) in rules && Matches(AllowFrom(id), q);
  }
}
