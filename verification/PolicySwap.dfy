/** Replacing an endpoint's policy while packets are judged: rules under the idle generation, one switch,
    a sweep - and a reader whose loads fall anywhere in between. */
module PolicySwap {
  import opened Wrappers
  import opened Policy

  datatype Flags = Flags(ingress: bool, egress: bool, audit: bool, gen: bool)
  {
    predicate Enforces(dir: Dir) { if dir.Ingress? then ingress else egress }
  }

  datatype Maps = Maps(policy: Table, epPolicy: map<nat, Flags>)

  /** One map operation. */
  datatype Step = Insert(key: Key, verdict: Verdict) | Remove(key: Key) | Switch(ep: nat, flags: Flags) | Clear(ep: nat)

  function Apply(m: Maps, s: Step): Maps
  {
    match s
    case Insert(k, v) => m.(policy := m.policy[k := v])
    case Remove(k) => m.(policy := m.policy - {k})
    case Switch(ep, f) => m.(epPolicy := m.epPolicy[ep := f])
    case Clear(ep) => m.(epPolicy := m.epPolicy - {ep})
  }

  function ApplyAll(m: Maps, steps: seq<Step>): Maps
    decreases |steps|
  {
    if steps == [] then m else Apply(ApplyAll(m, steps[..|steps| - 1]), steps[|steps| - 1])
  }

  // ---- the call ----

  /** What a call asks for. */
  datatype Call = Call(ep: nat, enforce: bool, enforceEgress: bool, audit: bool, rules: seq<Rule>,
      egressRules: seq<Rule>)
  {
    predicate Clears() { !enforce && !enforceEgress }
  }

  /** The generation the new rules go under: the other one, or the first when the endpoint has none. */
  function NewGen(m: Maps, ep: nat): bool
  {
    ep in m.epPolicy && !m.epPolicy[ep].gen
  }

  function NewFlags(m: Maps, c: Call): Flags
  {
    Flags(c.enforce, c.enforceEgress, c.audit, NewGen(m, c.ep))
  }

  function RuleSteps(ep: nat, dir: Dir, gen: bool, rules: seq<Rule>): (steps: seq<Step>)
    ensures |steps| == |rules|
  {
    seq(|rules|, i requires 0 <= i < |rules| => Insert(KeyOf(rules[i], ep, dir, gen), VerdictOf(rules[i])))
  }

  function Inserts(m: Maps, c: Call): seq<Step>
  {
    if c.Clears() then []
    else
      (if c.enforce then RuleSteps(c.ep, Ingress, NewGen(m, c.ep), c.rules) else []) +
      (if c.enforceEgress then RuleSteps(c.ep, Egress, NewGen(m, c.ep), c.egressRules) else [])
  }

  /** The one word that changes the endpoint's policy. */
  function Turn(m: Maps, c: Call): Step
  {
    if c.Clears() then Clear(c.ep) else Switch(c.ep, NewFlags(m, c))
  }

  /** What the sweep removes: this endpoint's keys, of the other generation or, when it is cleared, all. */
  predicate Swept(m: Maps, c: Call, k: Key)
  {
    k.ep == c.ep && (c.Clears() || k.gen != NewGen(m, c.ep))
  }

  function Removals(keys: seq<Key>): (steps: seq<Step>)
    ensures |steps| == |keys|
  {
    seq(|keys|, i requires 0 <= i < |keys| => Remove(keys[i]))
  }

  /** The keys the sweep finds, in the order the map gives them. */
  ghost predicate Stale(m: Maps, c: Call, keys: seq<Key>)
  {
    forall k :: k in keys <==> k in m.policy && Swept(m, c, k)
  }

  /** `endpoint_policy_set`, no insert failing: the rules, the switch, the sweep. */
  function Plan(m: Maps, c: Call, keys: seq<Key>): seq<Step>
  {
    Inserts(m, c) + [Turn(m, c)] + Removals(keys)
  }

  function At(m: Maps, c: Call, keys: seq<Key>, i: nat): Maps
    requires i <= |Plan(m, c, keys)|
  {
    ApplyAll(m, Plan(m, c, keys)[..i])
  }

  // ---- the reader ----

  datatype Judged = Forward | Audited | Dropped

  /** The verdict from the endpoint's row and the probes' hits, past the conntrack check. */
  function Judge(row: Option<Flags>, dir: Dir, hits: seq<Option<Verdict>>): Judged
  {
    if row == None || !row.value.Enforces(dir) || !DeniedBy(hits) then Forward
    else if row.value.audit then Audited
    else Dropped
  }

  function Row(m: Maps, ep: nat): Option<Flags>
  {
    if ep in m.epPolicy then Some(m.epPolicy[ep]) else None
  }

  /** The query of a packet at an endpoint whose row was read. */
  function Under(q: Query, row: Option<Flags>): Query
  {
    q.(gen := row.Some? && row.value.gen)
  }

  /** The verdict of one state. */
  function VerdictIn(m: Maps, q: Query): Judged
  {
    Judge(Row(m, q.ep), q.dir, Hits(m.policy, Under(q, Row(m, q.ep))))
  }

  /** A read of the row at one moment and of each probe at another. */
  datatype Moments = Moments(row: nat, probes: seq<nat>)

  predicate InOrder(r: Moments, end: nat)
  {
    |r.probes| == |PATTERNS| && forall i | 0 <= i < |r.probes| :: r.row <= r.probes[i] <= end
  }

  function TornHits(m: Maps, c: Call, keys: seq<Key>, q: Query, r: Moments): (hits: seq<Option<Verdict>>)
    requires InOrder(r, |Plan(m, c, keys)|)
    ensures |hits| == |PATTERNS|
  {
    seq(|PATTERNS|, i requires 0 <= i < |PATTERNS| => Find(At(m, c, keys, r.probes[i]).policy, Probe(q, PATTERNS[i])))
  }

  /** The verdict of a reader torn across the call. */
  function TornVerdict(m: Maps, c: Call, keys: seq<Key>, q: Query, r: Moments): Judged
    requires r.row <= |Plan(m, c, keys)| && InOrder(r, |Plan(m, c, keys)|)
  {
    var row := Row(At(m, c, keys, r.row), q.ep);
    Judge(row, q.dir, TornHits(m, c, keys, Under(q, row), r))
  }

  // ---- what each step leaves alone ----

  lemma AtNext(m: Maps, c: Call, keys: seq<Key>, i: nat)
    requires i < |Plan(m, c, keys)|
    ensures At(m, c, keys, i + 1) == Apply(At(m, c, keys, i), Plan(m, c, keys)[i])
  {
    var plan := Plan(m, c, keys);
    assert plan[..i + 1][..i] == plan[..i] && plan[..i + 1][i] == plan[i];
  }

  lemma InsertsAreNew(m: Maps, c: Call, i: nat)
    requires i < |Inserts(m, c)|
    ensures var s := Inserts(m, c)[i]; s.Insert? && s.key.ep == c.ep && s.key.gen == NewGen(m, c.ep)
  {
  }

  lemma PlanAt(m: Maps, c: Call, keys: seq<Key>, i: nat)
    requires i < |Plan(m, c, keys)|
    ensures var n, s := |Inserts(m, c)|, Plan(m, c, keys)[i];
      if i < n then s == Inserts(m, c)[i]
      else if i == n then s == Turn(m, c)
      else i - n - 1 < |keys| && s == Remove(keys[i - n - 1])
  {
  }

  lemma RowStep(m: Maps, s: Step, ep: nat)
    ensures Row(Apply(m, s), ep) ==
      match s
      case Switch(e, f) => if e == ep then Some(f) else Row(m, ep)
      case Clear(e) => if e == ep then None else Row(m, ep)
      case _ => Row(m, ep)
  {
  }

  lemma NotTheTurn(m: Maps, c: Call, keys: seq<Key>, i: nat)
    requires i < |Plan(m, c, keys)| && i != |Inserts(m, c)|
    ensures Plan(m, c, keys)[i].Insert? || Plan(m, c, keys)[i].Remove?
  {
    PlanAt(m, c, keys, i);
    if i < |Inserts(m, c)| {
      InsertsAreNew(m, c, i);
    }
  }

  /** Rows of other endpoints never change; this one's changes at the switch and nowhere else. */
  lemma {:induction false} RowAt(m: Maps, c: Call, keys: seq<Key>, i: nat, ep: nat)
    requires i <= |Plan(m, c, keys)|
    ensures Row(At(m, c, keys, i), ep) ==
      if ep == c.ep && i > |Inserts(m, c)| then (if c.Clears() then None else Some(NewFlags(m, c))) else Row(m, ep)
  {
    if i > 0 {
      RowAt(m, c, keys, i - 1, ep);
      AtNext(m, c, keys, i - 1);
      RowStep(At(m, c, keys, i - 1), Plan(m, c, keys)[i - 1], ep);
      if i - 1 == |Inserts(m, c)| {
        PlanAt(m, c, keys, i - 1);
      } else {
        NotTheTurn(m, c, keys, i - 1);
      }
    }
  }

  /** Keys that the sweep does not touch keep what they hold from the switch on; keys that the new rules do
      not touch hold what they held until the sweep begins, and for ever when it does not touch them. */
  lemma {:induction false} KeyAt(m: Maps, c: Call, keys: seq<Key>, i: nat, k: Key)
    requires i <= |Plan(m, c, keys)| && Stale(m, c, keys)
    ensures !Swept(m, c, k) && i > |Inserts(m, c)| ==>
      Find(At(m, c, keys, i).policy, k) == Find(At(m, c, keys, |Inserts(m, c)|).policy, k)
    ensures (k.ep != c.ep || k.gen != NewGen(m, c.ep) || c.Clears()) && i <= |Inserts(m, c)| + 1 ==>
      Find(At(m, c, keys, i).policy, k) == Find(m.policy, k)
    ensures k.ep != c.ep ==> Find(At(m, c, keys, i).policy, k) == Find(m.policy, k)
  {
    if i > 0 {
      KeyAt(m, c, keys, i - 1, k);
      AtNext(m, c, keys, i - 1);
      PlanAt(m, c, keys, i - 1);
      if i - 1 < |Inserts(m, c)| {
        InsertsAreNew(m, c, i - 1);
      } else if i - 1 > |Inserts(m, c)| {
        assert keys[i - 2 - |Inserts(m, c)|] in keys;
      }
    }
  }

  /** A policy swap no reader can see half of. A packet judged in any interleaving with the call gets the
      full old policy's verdict when its row read precedes the switch, the full new one's when it follows -
      provided a reader of the old row has all its probes done when the sweep begins. Packets of other
      endpoints are judged as before and after. */
  lemma SwapIsAtomic(m: Maps, c: Call, keys: seq<Key>, q: Query, r: Moments)
    requires Stale(m, c, keys) && r.row <= |Plan(m, c, keys)| && InOrder(r, |Plan(m, c, keys)|)
    requires q.ep == c.ep && r.row <= |Inserts(m, c)| ==>
      forall i | 0 <= i < |r.probes| :: r.probes[i] <= |Inserts(m, c)| + 1
    ensures TornVerdict(m, c, keys, q, r) ==
      VerdictIn(if q.ep == c.ep && r.row > |Inserts(m, c)| then At(m, c, keys, |Plan(m, c, keys)|) else m, q)
    ensures q.ep != c.ep ==> VerdictIn(At(m, c, keys, |Plan(m, c, keys)|), q) == VerdictIn(m, q)
  {
    var n, end := |Inserts(m, c)|, |Plan(m, c, keys)|;
    RowAt(m, c, keys, r.row, q.ep);
    RowAt(m, c, keys, end, q.ep);
    var row := Row(At(m, c, keys, r.row), q.ep);
    var asked := Under(q, row);
    if row.Some? {
      forall i | 0 <= i < |PATTERNS|
        ensures TornHits(m, c, keys, asked, r)[i] ==
          (if q.ep == c.ep && r.row > n then Hits(At(m, c, keys, end).policy, asked) else Hits(m.policy, asked))[i]
        ensures q.ep != c.ep ==> Hits(At(m, c, keys, end).policy, asked)[i] == Hits(m.policy, asked)[i]
      {
        KeyAt(m, c, keys, r.probes[i], Probe(asked, PATTERNS[i]));
        KeyAt(m, c, keys, end, Probe(asked, PATTERNS[i]));
      }
      if q.ep == c.ep && r.row > n {
        assert TornHits(m, c, keys, asked, r) == Hits(At(m, c, keys, end).policy, asked);
      } else {
        assert TornHits(m, c, keys, asked, r) == Hits(m.policy, asked);
        if q.ep != c.ep {
          assert Hits(At(m, c, keys, end).policy, asked) == Hits(m.policy, asked);
        }
      }
    }
  }

  /** An endpoint whose one rule allows everything, in the given generation. */
  function Open(ep: nat, gen: bool): Maps
  {
    Maps(map[Key(ep, 0, 0, 0, Ingress, gen) := Allow], map[ep := Flags(true, false, false, gen)])
  }

  function OpenCall(ep: nat): Call
  {
    Call(ep, true, false, false, [Rule(0, 0, 0, false)], [])
  }

  const LATE := Moments(0, [3, 3, 3, 3, 3, 3])

  /** The proviso on late probes is needed: replacing a policy by itself, a reader of the old row whose probes
      come after the sweep finds nothing and drops what both the old and the new policy forward. */
  lemma LateReaderDrops(ep: nat, id: U32)
    ensures var m, c, keys := Open(ep, false), OpenCall(ep), [Key(ep, 0, 0, 0, Ingress, false)];
      var q := Query(ep, id, PROTO_TCP, 80, Ingress, false);
      && Stale(m, c, keys) && |Plan(m, c, keys)| == 3 && InOrder(LATE, 3)
      && VerdictIn(m, q) == Forward && VerdictIn(At(m, c, keys, 3), q) == Forward
      && TornVerdict(m, c, keys, q, LATE) == Dropped
  {
    var q := Query(ep, id, PROTO_TCP, 80, Ingress, false);
    OpenPlan(ep);
    OpenForwards(ep, false, q);
    OpenForwards(ep, true, q);
    LateHits(ep, q);
  }

  lemma OpenPlan(ep: nat)
    ensures var m, c, keys := Open(ep, false), OpenCall(ep), [Key(ep, 0, 0, 0, Ingress, false)];
      && Stale(m, c, keys) && |Plan(m, c, keys)| == 3
      && At(m, c, keys, 0) == m && At(m, c, keys, 3) == Open(ep, true)
  {
    var was, now := Key(ep, 0, 0, 0, Ingress, false), Key(ep, 0, 0, 0, Ingress, true);
    var m, c, keys := Open(ep, false), OpenCall(ep), [was];
    var plan := Plan(m, c, keys);
    assert was in m.policy && was in keys;
    assert plan == [Insert(now, Allow), Switch(ep, Flags(true, false, false, true)), Remove(was)];
    ThreeSteps(m, plan);
    assert plan[..0] == [] && plan[..3] == plan;
    assert Apply(Apply(Apply(m, plan[0]), plan[1]), plan[2]).policy == Open(ep, true).policy;
  }

  lemma OpenForwards(ep: nat, gen: bool, q: Query)
    requires q.ep == ep && q.dir.Ingress?
    ensures VerdictIn(Open(ep, gen), q) == Forward
  {
    AnyRuleHits(Open(ep, gen).policy, q.(gen := gen), Key(ep, 0, 0, 0, Ingress, gen));
  }

  lemma LateHits(ep: nat, q: Query)
    requires q.ep == ep && q.dir.Ingress? && !q.gen
    ensures var m, c, keys := Open(ep, false), OpenCall(ep), [Key(ep, 0, 0, 0, Ingress, false)];
      |Plan(m, c, keys)| == 3 && TornVerdict(m, c, keys, q, LATE) == Dropped
  {
    var m, c, keys := Open(ep, false), OpenCall(ep), [Key(ep, 0, 0, 0, Ingress, false)];
    OpenPlan(ep);
    var hits := TornHits(m, c, keys, q, LATE);
    forall i | 0 <= i < |PATTERNS| ensures hits[i] == None {
      NothingOld(ep, Probe(q, PATTERNS[i]));
    }
    assert Under(q, Row(m, ep)) == q;
  }

  lemma NothingOld(ep: nat, k: Key)
    requires !k.gen
    ensures Find(Open(ep, true).policy, k) == None
  {
  }

  lemma ThreeSteps(m: Maps, plan: seq<Step>)
    requires |plan| == 3
    ensures ApplyAll(m, plan) == Apply(Apply(Apply(m, plan[0]), plan[1]), plan[2])
  {
    assert plan[..2][..1] == plan[..1] && plan[..1][..0] == [];
    assert ApplyAll(m, []) == m;
    assert ApplyAll(m, plan[..1]) == Apply(m, plan[0]);
    assert ApplyAll(m, plan[..2]) == Apply(ApplyAll(m, plan[..1]), plan[1]);
  }

  /** One rule that allows everything is hit by the last probe. */
  lemma AnyRuleHits(t: Table, q: Query, key: Key)
    requires t == map[key := Allow] && key == Probe(q, 7)
    ensures !DeniedBy(Hits(t, q))
  {
    assert PATTERNS[5] == 7 && Hits(t, q)[5] == Some(Allow);
  }

  // ---- what holds between calls ----

  /** No key of an idle generation, and none without a row. */
  ghost predicate Clean(m: Maps)
  {
    forall k | k in m.policy :: k.ep in m.epPolicy && m.epPolicy[k.ep].gen == k.gen
  }

  lemma {:induction false} ApplyAllConcat(m: Maps, a: seq<Step>, b: seq<Step>)
    ensures ApplyAll(m, a + b) == ApplyAll(ApplyAll(m, a), b)
    decreases |b|
  {
    if b == [] {
      assert a + b == a;
    } else {
      var init := b[..|b| - 1];
      assert (a + b)[..|a + b| - 1] == a + init && (a + b)[|a + b| - 1] == b[|b| - 1];
      ApplyAllConcat(m, a, init);
    }
  }

  /** The rule steps install the rules, and touch nothing else. */
  lemma {:induction false} RulesInstalled(m: Maps, ep: nat, dir: Dir, gen: bool, rules: seq<Rule>)
    ensures ApplyAll(m, RuleSteps(ep, dir, gen, rules)) == m.(policy := Install(m.policy, ep, dir, gen, rules))
    decreases |rules|
  {
    var steps := RuleSteps(ep, dir, gen, rules);
    if rules != [] {
      var first := [steps[0]];
      assert steps == first + RuleSteps(ep, dir, gen, rules[1..]);
      ApplyAllConcat(m, first, RuleSteps(ep, dir, gen, rules[1..]));
      assert first[..0] == [];
      assert ApplyAll(m, first) == Apply(m, steps[0]);
      RulesInstalled(Apply(m, steps[0]), ep, dir, gen, rules[1..]);
    }
  }

  function RulesOf(c: Call, dir: Dir): seq<Rule>
  {
    if dir.Ingress? then (if c.enforce then c.rules else []) else if c.enforceEgress then c.egressRules else []
  }

  /** The table when the switch comes. */
  function Installed(m: Maps, c: Call): Table
  {
    var gen := NewGen(m, c.ep);
    if c.Clears() then m.policy
    else Install(Install(m.policy, c.ep, Ingress, gen, RulesOf(c, Ingress)), c.ep, Egress, gen, RulesOf(c, Egress))
  }

  lemma InsertsInstall(m: Maps, c: Call)
    ensures ApplyAll(m, Inserts(m, c)) == m.(policy := Installed(m, c))
  {
    if !c.Clears() {
      var gen := NewGen(m, c.ep);
      var a, b := RuleSteps(c.ep, Ingress, gen, RulesOf(c, Ingress)), RuleSteps(c.ep, Egress, gen, RulesOf(c, Egress));
      assert Inserts(m, c) == a + b;
      ApplyAllConcat(m, a, b);
      RulesInstalled(m, c.ep, Ingress, gen, RulesOf(c, Ingress));
      RulesInstalled(ApplyAll(m, a), c.ep, Egress, gen, RulesOf(c, Egress));
    }
  }

  /** What lies under an endpoint's idle generation in one direction, as a list of rules. */
  ghost predicate Idles(m: Maps, ep: nat, dir: Dir, idle: seq<Rule>)
  {
    var gen := NewGen(m, ep);
    forall k: Key | k.ep == ep && k.dir == dir && k.gen == gen ::
      Find(m.policy, k) == Find(Install(map[], ep, dir, gen, idle), k)
  }

  lemma CleanIdles(m: Maps, ep: nat, dir: Dir)
    requires Clean(m)
    ensures Idles(m, ep, dir, [])
  {
  }

  /** The table a call switches to holds, for one direction, its rules over what was there. */
  lemma InstalledFinds(m: Maps, c: Call, k: Key)
    requires !c.Clears() && k.ep == c.ep && k.gen == NewGen(m, c.ep)
    ensures Find(Installed(m, c), k) == Find(Install(m.policy, c.ep, k.dir, k.gen, RulesOf(c, k.dir)), k)
  {
    var t := Install(m.policy, c.ep, Ingress, k.gen, RulesOf(c, Ingress));
    if k.dir.Ingress? {
      InstallFinds(t, c.ep, Egress, k.gen, RulesOf(c, Egress), k);
    } else {
      InstallFinds(m.policy, c.ep, Ingress, k.gen, RulesOf(c, Ingress), k);
      InstallOver(t, m.policy, c.ep, Egress, k.gen, RulesOf(c, Egress), k);
    }
  }

  /** So the call's rules come on top of whatever idle rules it finds. */
  lemma InstalledMeans(m: Maps, c: Call, q: Query, idle: seq<Rule>)
    requires !c.Clears() && q.ep == c.ep && q.gen == NewGen(m, c.ep) && q.Ok() && Idles(m, c.ep, q.dir, idle)
    ensures DeniedBy(Hits(Installed(m, c), q)) <==> Meant(Live(idle + RulesOf(c, q.dir)), q)
  {
    var rules := RulesOf(c, q.dir);
    var below, both := Install(map[], c.ep, q.dir, q.gen, idle), Install(map[], c.ep, q.dir, q.gen, idle + rules);
    var hits, meant := Hits(Installed(m, c), q), Hits(both, q);
    InstallConcat(map[], c.ep, q.dir, q.gen, idle, rules);
    forall i | 0 <= i < |PATTERNS| ensures hits[i] == meant[i] {
      var k := Probe(q, PATTERNS[i]);
      InstalledFinds(m, c, k);
      InstallOver(m.policy, below, c.ep, q.dir, q.gen, rules, k);
    }
    assert hits == meant;
    VerdictIsMeaning(map[], q, idle + rules);
  }

  /** What a call's flags make of a packet under a rule list. */
  ghost function Says(c: Call, q: Query, rules: seq<Rule>): Judged
  {
    if (if q.dir.Ingress? then c.enforce else c.enforceEgress) && Meant(Live(rules), q) then
      if c.audit then Audited else Dropped
    else Forward
  }

  /** The verdict after a call is that of the table it switched to. */
  lemma VerdictAfter(m: Maps, c: Call, keys: seq<Key>, q: Query)
    requires Stale(m, c, keys) && q.ep == c.ep && !c.Clears()
    ensures VerdictIn(At(m, c, keys, |Plan(m, c, keys)|), q) ==
      Judge(Some(NewFlags(m, c)), q.dir, Hits(Installed(m, c), q.(gen := NewGen(m, c.ep))))
  {
    var n, size := |Inserts(m, c)|, |Plan(m, c, keys)|;
    RowAt(m, c, keys, size, q.ep);
    var asked := Under(q, Some(NewFlags(m, c)));
    assert Plan(m, c, keys)[..n] == Inserts(m, c);
    InsertsInstall(m, c);
    var hits, before := Hits(At(m, c, keys, size).policy, asked), Hits(Installed(m, c), asked);
    forall i | 0 <= i < |PATTERNS| ensures hits[i] == before[i] {
      KeyAt(m, c, keys, size, Probe(asked, PATTERNS[i]));
    }
    assert hits == before;
  }

  /** From any maps: after a call the endpoint's verdicts are what the rules already under its idle generation
      and then the call's own mean together. */
  lemma CallMeans(m: Maps, c: Call, keys: seq<Key>, q: Query, idle: seq<Rule>)
    requires Stale(m, c, keys) && q.ep == c.ep && q.Ok() && Idles(m, c.ep, q.dir, idle)
    ensures VerdictIn(At(m, c, keys, |Plan(m, c, keys)|), q) == Says(c, q, idle + RulesOf(c, q.dir))
  {
    if c.Clears() {
      RowAt(m, c, keys, |Plan(m, c, keys)|, q.ep);
    } else {
      var asked := q.(gen := NewGen(m, c.ep));
      VerdictAfter(m, c, keys, q);
      InstalledMeans(m, c, asked, idle);
      SameMeaning(Live(idle + RulesOf(c, q.dir)), q, asked);
    }
  }

  /** The new policy, whole: after the call the endpoint's verdicts are what the rules given mean, and
      nothing of the idle generation is left - here or at any other endpoint. */
  lemma SwapInstalls(m: Maps, c: Call, keys: seq<Key>, q: Query)
    requires Clean(m) && Stale(m, c, keys) && q.Ok()
    ensures var end := At(m, c, keys, |Plan(m, c, keys)|);
      Clean(end) && (q.ep == c.ep ==> VerdictIn(end, q) == Says(c, q, RulesOf(c, q.dir)))
  {
    CleanAfter(m, c, keys);
    if q.ep == c.ep {
      CleanIdles(m, c.ep, q.dir);
      CallMeans(m, c, keys, q, []);
      assert [] + RulesOf(c, q.dir) == RulesOf(c, q.dir);
    }
  }

  lemma {:induction false} RemovedAfter(m: Maps, keys: seq<Key>, k: Key)
    ensures var after := ApplyAll(m, Removals(keys));
      Find(after.policy, k) == (if k in keys then None else Find(m.policy, k)) && after.epPolicy == m.epPolicy
    decreases |keys|
  {
    if keys != [] {
      var init := keys[..|keys| - 1];
      assert Removals(keys)[..|keys| - 1] == Removals(init);
      RemovedAfter(m, init, k);
      assert keys == init + [keys[|keys| - 1]];
    }
  }

  /** The maps after the call. */
  lemma Ends(m: Maps, c: Call, keys: seq<Key>, k: Key)
    requires Stale(m, c, keys)
    ensures var end := At(m, c, keys, |Plan(m, c, keys)|);
      && Find(end.policy, k) == (if Swept(m, c, k) then None else Find(Installed(m, c), k))
      && end.epPolicy == Apply(m, Turn(m, c)).epPolicy
  {
    var plan, n := Plan(m, c, keys), |Inserts(m, c)|;
    var turned := ApplyAll(m, Inserts(m, c) + [Turn(m, c)]);
    assert plan[..|plan|] == plan;
    ApplyAllConcat(m, Inserts(m, c) + [Turn(m, c)], Removals(keys));
    assert (Inserts(m, c) + [Turn(m, c)])[..n] == Inserts(m, c);
    InsertsInstall(m, c);
    RemovedAfter(turned, keys, k);
    if Swept(m, c, k) && k !in keys {
      OnlyNewKeys(m, c, k);
    }
  }

  lemma OnlyNewKeys(m: Maps, c: Call, k: Key)
    requires Swept(m, c, k) && k !in m.policy
    ensures k !in Installed(m, c)
  {
    if !c.Clears() {
      var gen := NewGen(m, c.ep);
      InstallFinds(m.policy, c.ep, Ingress, gen, RulesOf(c, Ingress), k);
      InstallFinds(
        Install(m.policy, c.ep, Ingress, gen, RulesOf(c, Ingress)), c.ep, Egress, gen, RulesOf(c, Egress), k);
    }
  }

  lemma InstalledKeys(m: Maps, c: Call, k: Key)
    requires k in Installed(m, c)
    ensures k in m.policy || (!c.Clears() && k.ep == c.ep && k.gen == NewGen(m, c.ep))
  {
    if !c.Clears() {
      var gen := NewGen(m, c.ep);
      InstallFinds(m.policy, c.ep, Ingress, gen, RulesOf(c, Ingress), k);
      InstallFinds(
        Install(m.policy, c.ep, Ingress, gen, RulesOf(c, Ingress)), c.ep, Egress, gen, RulesOf(c, Egress), k);
    }
  }

  /** Nothing is idle at the other endpoints. */
  ghost predicate CleanElsewhere(m: Maps, ep: nat)
  {
    forall k | k in m.policy && k.ep != ep :: k.ep in m.epPolicy && m.epPolicy[k.ep].gen == k.gen
  }

  /** No key of an idle generation survives a call, whatever was left at the endpoint before it. */
  lemma CleanAfter(m: Maps, c: Call, keys: seq<Key>)
    requires CleanElsewhere(m, c.ep) && Stale(m, c, keys)
    ensures Clean(At(m, c, keys, |Plan(m, c, keys)|))
  {
    var end := At(m, c, keys, |Plan(m, c, keys)|);
    forall k | k in end.policy ensures k.ep in end.epPolicy && end.epPolicy[k.ep].gen == k.gen {
      Ends(m, c, keys, k);
      InstalledKeys(m, c, k);
    }
  }

  // ---- room ----

  /** A key in the map is updated in place; a new one needs room. */
  predicate GoesIn(t: Table, s: Step, room: nat)
  {
    s.Insert? && (s.key in t || |t| < room)
  }

  /** How many of the inserts go in before the first that does not. */
  function Fitting(m: Maps, steps: seq<Step>, room: nat): (n: nat)
    ensures n <= |steps|
    decreases |steps|
  {
    if steps == [] then 0
    else
      var last := |steps| - 1;
      var n := Fitting(m, steps[..last], room);
      if n == last && GoesIn(ApplyAll(m, steps[..last]).policy, steps[last], room) then last + 1 else n
  }

  lemma FittingLast(m: Maps, steps: seq<Step>, room: nat)
    requires steps != []
    ensures var last := |steps| - 1;
      var n := Fitting(m, steps[..last], room);
      Fitting(m, steps, room) ==
        if n == last && GoesIn(ApplyAll(m, steps[..last]).policy, steps[last], room) then last + 1 else n
  {
  }

  /** The first `i` go in and the next does not. */
  lemma {:induction false} FittingStops(m: Maps, steps: seq<Step>, room: nat, i: nat)
    requires i < |steps| && Fitting(m, steps[..i], room) == i
    requires !GoesIn(ApplyAll(m, steps[..i]).policy, steps[i], room)
    ensures Fitting(m, steps, room) == i
    decreases |steps|
  {
    var last := |steps| - 1;
    FittingLast(m, steps, room);
    if i < last {
      var init := steps[..last];
      assert init[..i] == steps[..i] && init[i] == steps[i];
      FittingStops(m, init, room, i);
    }
  }

  lemma {:induction false} FittingConcat(m: Maps, a: seq<Step>, b: seq<Step>, room: nat)
    ensures Fitting(m, a + b, room) ==
      if Fitting(m, a, room) == |a| then |a| + Fitting(ApplyAll(m, a), b, room) else Fitting(m, a, room)
    decreases |b|
  {
    if b == [] {
      assert a + b == a;
    } else {
      var last := |b| - 1;
      assert (a + b)[..|a + b| - 1] == a + b[..last] && (a + b)[|a + b| - 1] == b[last];
      FittingConcat(m, a, b[..last], room);
      ApplyAllConcat(m, a, b[..last]);
    }
  }

  ghost predicate AllInserts(steps: seq<Step>)
  {
    forall i | 0 <= i < |steps| :: steps[i].Insert?
  }

  lemma {:induction false} InsertsGrow(m: Maps, steps: seq<Step>)
    requires AllInserts(steps)
    ensures m.policy.Keys <= ApplyAll(m, steps).policy.Keys
    decreases |steps|
  {
    if steps != [] {
      InsertsGrow(m, steps[..|steps| - 1]);
    }
  }

  lemma Fewer<K>(a: set<K>, b: set<K>)
    requires a <= b
    ensures |a| <= |b| && (|a| == |b| ==> a == b)
    decreases |a|
  {
    if a != {} {
      var x :| x in a;
      Fewer(a - {x}, b - {x});
      assert a == a - {x} + {x} && b == b - {x} + {x};
    }
  }

  /** All inserts go in exactly when what they make has room, or adds no key. */
  lemma {:induction false} FitsExactly(m: Maps, steps: seq<Step>, room: nat)
    requires AllInserts(steps)
    ensures var t := ApplyAll(m, steps).policy;
      Fitting(m, steps, room) == |steps| <==> |t| <= room || t.Keys == m.policy.Keys
    decreases |steps|
  {
    if steps != [] {
      var last := |steps| - 1;
      var before, after := ApplyAll(m, steps[..last]).policy, ApplyAll(m, steps).policy;
      FitsExactly(m, steps[..last], room);
      InsertsGrow(m, steps[..last]);
      assert after == before[steps[last].key := steps[last].verdict];
      assert after.Keys == before.Keys + {steps[last].key};
      Fewer(before.Keys, after.Keys);
      assert |before| == |before.Keys| && |after| == |after.Keys|;
    }
  }

  /** A call's inserts all go in exactly when the table it switches to has room, or adds no key. */
  lemma CallFits(m: Maps, c: Call, room: nat)
    ensures Fitting(m, Inserts(m, c), room) == |Inserts(m, c)| <==>
      |Installed(m, c)| <= room || Installed(m, c).Keys == m.policy.Keys
  {
    forall i | 0 <= i < |Inserts(m, c)| ensures Inserts(m, c)[i].Insert? {
      InsertsAreNew(m, c, i);
    }
    FitsExactly(m, Inserts(m, c), room);
    InsertsInstall(m, c);
  }
}
