/** The policy verdict: six probes of one hash map, against what the rules mean. */
module Policy {
  import opened Wrappers
  import opened Packet

  datatype Dir = Ingress | Egress
  datatype Verdict = Allow | Deny

  /** `identity`, `proto` and `port` are 0 for any; `gen` is the A/B generation. */
  datatype Key = Key(ep: nat, identity: U32, proto: Byte, port: U16, dir: Dir, gen: bool)

  type Table = map<Key, Verdict>

  const PROTO_TCP := 6
  const PROTO_UDP := 17
  const IDENTITY_WORLD := 2

  // ---- what a packet asks ----

  datatype Headers = Headers(proto: Byte, ihl: nat, src: U32, dst: U32, sport: U16, dport: U16)

  datatype Flow = Flow(src: U32, dst: U32, sport: U16, dport: U16, proto: Byte)

  datatype Query = Query(ep: nat, identity: U32, proto: Byte, port: U16, dir: Dir, gen: bool)
  {
    /** Only TCP and UDP queries name a port. */
    predicate Ok() { port != 0 ==> proto == PROTO_TCP || proto == PROTO_UDP }
  }

  predicate HasPorts(h: Headers)
  {
    (h.proto == PROTO_TCP || h.proto == PROTO_UDP) && h.ihl == 5
  }

  function Reverse(h: Headers): Flow
  {
    Flow(h.dst, h.src, if HasPorts(h) then h.dport else 0, if HasPorts(h) then h.sport else 0, h.proto)
  }

  /** The peer's identity: its own, else its longest CIDR's, else the world's. */
  function Identity(peer: U32, exact: map<U32, U32>, cidr: U32 -> Option<U32>): U32
  {
    if peer in exact then exact[peer]
    else if cidr(peer).Some? then cidr(peer).value
    else IDENTITY_WORLD
  }

  function Ask(h: Headers, exact: map<U32, U32>, cidr: U32 -> Option<U32>, ep: nat, dir: Dir, gen: bool): (q: Query)
    ensures q.Ok()
  {
    var peer := if dir.Egress? then h.dst else h.src;
    Query(ep, Identity(peer, exact, cidr), h.proto, if HasPorts(h) then h.dport else 0, dir, gen)
  }

  // ---- the probes ----

  /** Bit 0: any identity; bit 1: any protocol; bit 2: any port. */
  const PATTERNS: seq<nat> := [0, 4, 6, 1, 5, 7]

  function Probe(q: Query, pattern: nat): Key
  {
    Key(q.ep, if pattern % 2 == 1 then 0 else q.identity, if pattern / 2 % 2 == 1 then 0 else q.proto,
        if pattern / 4 % 2 == 1 then 0 else q.port, q.dir, q.gen)
  }

  function Find(t: Table, k: Key): Option<Verdict>
  {
    if k in t then Some(t[k]) else None
  }

  /** What each probe finds in one state of the table. */
  function Hits(t: Table, q: Query): (hits: seq<Option<Verdict>>)
    ensures |hits| == |PATTERNS|
  {
    seq(|PATTERNS|, i requires 0 <= i < |PATTERNS| => Find(t, Probe(q, PATTERNS[i])))
  }

  /** A deny wins over any allow, and no hit at all denies. */
  predicate DeniedBy(hits: seq<Option<Verdict>>)
  {
    Some(Deny) in hits || Some(Allow) !in hits
  }

  /** `policy_denied` past the conntrack check: stop at a deny, remember an allow. */
  method ProbeAll(t: Table, q: Query) returns (denied: bool)
    ensures denied == DeniedBy(Hits(t, q))
  {
    var allowed := false;
    ghost var hits := Hits(t, q);
    for i := 0 to |PATTERNS|
      invariant Some(Deny) !in hits[..i]
      invariant allowed <==> Some(Allow) in hits[..i]
    {
      var k := Probe(q, PATTERNS[i]);
      assert hits[..i + 1] == hits[..i] + [hits[i]];
      if k in t {
        if t[k] == Deny {
          assert hits[i] in hits;
          return true;
        }
        allowed := true;
      }
    }
    assert hits[..|PATTERNS|] == hits;
    return !allowed;
  }

  /** The headers as the program loads them: protocol, addresses, version and header length, and the ports of
      TCP or UDP without IP options. `None` when the packet is cut short of one. */
  function Load(d: Bytes): Option<Headers>
  {
    if |d| < 34 then None
    else
      var h := Headers(d[23], d[14] % 16, Be32(d, 26), Be32(d, 30), 0, 0);
      if !HasPorts(h) then Some(h)
      else if |d| < 38 then None
      else Some(h.(sport := FromBe16(d[34], d[35]), dport := FromBe16(d[36], d[37])))
  }

  function Be32(d: Bytes, off: nat): U32
    requires off + 4 <= |d|
  {
    FromBe16(d[off], d[off + 1]) as nat * 0x1_0000 + FromBe16(d[off + 2], d[off + 3])
  }

  /** Where the rules are looked up: the endpoint, the direction and the active generation. */
  datatype Place = Place(ep: nat, dir: Dir, gen: bool)

  /** The verdict on a frame: a reply to a tracked flow is never denied. `None` is the error return, which the
      callers take for a denial. */
  function Denied(d: Bytes, pct: set<Flow>, exact: map<U32, U32>, cidr: U32 -> Option<U32>, t: Table, at: Place):
      Option<bool>
  {
    match Load(d)
    case None => None
    case Some(h) => Some(Reverse(h) !in pct && DeniedBy(Hits(t, Ask(h, exact, cidr, at.ep, at.dir, at.gen))))
  }

  /** `policy_denied`. */
  method PolicyDenied(d: Bytes, pct: set<Flow>, exact: map<U32, U32>, cidr: U32 -> Option<U32>, t: Table, at: Place)
    returns (denied: Option<bool>)
    ensures denied == Denied(d, pct, exact, cidr, t, at)
  {
    if |d| < 34 {
      return None;
    }
    var proto, src, dst, ihl := d[23], Be32(d, 26), Be32(d, 30), d[14] % 16;
    var sport, dport := 0, 0;
    if (proto == PROTO_TCP || proto == PROTO_UDP) && ihl == 5 {
      if |d| < 38 {
        return None;
      }
      sport, dport := FromBe16(d[34], d[35]), FromBe16(d[36], d[37]);
    }
    if Flow(dst, src, dport, sport, proto) in pct {
      return Some(false);
    }
    var peer := if at.dir.Egress? then dst else src;
    var identity := IDENTITY_WORLD;
    if peer in exact {
      identity := exact[peer];
    } else if cidr(peer).Some? {
      identity := cidr(peer).value;
    }
    var verdict := ProbeAll(t, Query(at.ep, identity, proto, dport, at.dir, at.gen));
    return Some(verdict);
  }

  // ---- what the rules mean ----

  datatype Rule = Rule(identity: U32, proto: Byte, port: U16, deny: bool)

  predicate Matches(r: Rule, q: Query)
  {
    (r.identity == 0 || r.identity == q.identity) && (r.proto == 0 || r.proto == q.proto) &&
      (r.port == 0 || r.port == q.port)
  }

  /** Denied: some matching rule denies, or none allows. */
  ghost predicate Meant(rules: seq<Rule>, q: Query)
  {
    (exists r :: r in rules && Matches(r, q) && r.deny) || !(exists r :: r in rules && Matches(r, q) && !r.deny)
  }

  lemma SameMeaning(rules: seq<Rule>, q: Query, p: Query)
    requires q.identity == p.identity && q.proto == p.proto && q.port == p.port
    ensures Meant(rules, q) <==> Meant(rules, p)
  {
    assert forall r :: Matches(r, q) <==> Matches(r, p);
  }

  function KeyOf(r: Rule, ep: nat, dir: Dir, gen: bool): Key
  {
    Key(ep, r.identity, r.proto, r.port, dir, gen)
  }

  function VerdictOf(r: Rule): Verdict
  {
    if r.deny then Deny else Allow
  }

  /** The rules inserted in order: a later one replaces an earlier one under its key. */
  function Install(t: Table, ep: nat, dir: Dir, gen: bool, rules: seq<Rule>): Table
    decreases |rules|
  {
    if rules == [] then t
    else Install(t[KeyOf(rules[0], ep, dir, gen) := VerdictOf(rules[0])], ep, dir, gen, rules[1..])
  }

  predicate SameKey(r: Rule, s: Rule)
  {
    r.identity == s.identity && r.proto == s.proto && r.port == s.port
  }

  predicate Probed(r: Rule)
  {
    r.proto != 0 || r.port == 0
  }

  /** A matching rule is among the probes exactly when it names a protocol or no port. */
  lemma MatchIsProbed(r: Rule, q: Query)
    requires q.Ok() && Matches(r, q)
    ensures Probed(r) <==> exists i | 0 <= i < |PATTERNS| :: Probe(q, PATTERNS[i]) == KeyOf(r, q.ep, q.dir, q.gen)
  {
    if Probed(r) {
      var pattern := (if r.identity == 0 then 1 else 0) + (if r.proto == 0 then 2 else 0) +
        (if r.port == 0 then 4 else 0);
      assert PATTERNS[0] == 0 && PATTERNS[1] == 4 && PATTERNS[2] == 6 && PATTERNS[3] == 1 && PATTERNS[4] == 5 &&
        PATTERNS[5] == 7;
      assert Probe(q, pattern) == KeyOf(r, q.ep, q.dir, q.gen);
      assert pattern in PATTERNS;
    } else {
      forall i | 0 <= i < |PATTERNS| ensures Probe(q, PATTERNS[i]) != KeyOf(r, q.ep, q.dir, q.gen) {
        assert PATTERNS[i] / 2 % 2 == 1 ==> PATTERNS[i] / 4 % 2 == 1;
      }
    }
  }

  /** Every probe is of a rule that would match. */
  lemma ProbeMatches(q: Query, i: nat)
    requires i < |PATTERNS|
    ensures var k := Probe(q, PATTERNS[i]);
      var r := Rule(k.identity, k.proto, k.port, false);
      k == KeyOf(r, q.ep, q.dir, q.gen) && Matches(r, q)
  {
  }

  /** The rules that count: not replaced by a later one under the same key, and looked for at all. */
  function Live(rules: seq<Rule>): seq<Rule>
  {
    if rules == [] then []
    else if Probed(rules[0]) && !Replaced(rules[0], rules[1..]) then [rules[0]] + Live(rules[1..])
    else Live(rules[1..])
  }

  predicate Replaced(r: Rule, later: seq<Rule>)
  {
    exists i | 0 <= i < |later| :: SameKey(r, later[i])
  }

  predicate NoneHere(t: Table, ep: nat, dir: Dir, gen: bool)
  {
    forall k | k in t :: !(k.ep == ep && k.dir == dir && k.gen == gen)
  }

  /** A key of this endpoint, direction and generation holds what the last rule under it says. */
  lemma {:induction false} InstallFinds(t: Table, ep: nat, dir: Dir, gen: bool, rules: seq<Rule>, k: Key)
    ensures var found := Find(Install(t, ep, dir, gen, rules), k);
      if k.ep == ep && k.dir == dir && k.gen == gen && Replaced(Rule(k.identity, k.proto, k.port, false), rules) then
        exists r :: r in rules && KeyOf(r, ep, dir, gen) == k && found == Some(VerdictOf(r))
          && (Probed(r) ==> r in Live(rules))
      else found == Find(t, k)
    decreases |rules|
  {
    if rules != [] {
      var r0, t1, rest := rules[0], t[KeyOf(rules[0], ep, dir, gen) := VerdictOf(rules[0])], rules[1..];
      InstallFinds(t1, ep, dir, gen, rest, k);
      var kr := Rule(k.identity, k.proto, k.port, false);
      if Replaced(kr, rest) {
        var i :| 0 <= i < |rest| && SameKey(kr, rest[i]);
        assert SameKey(kr, rules[i + 1]);
      } else if Replaced(kr, rules) {
        var i :| 0 <= i < |rules| && SameKey(kr, rules[i]);
        assert i == 0;
      }
    }
  }

  lemma {:induction false} InstallConcat(t: Table, ep: nat, dir: Dir, gen: bool, a: seq<Rule>, b: seq<Rule>)
    ensures Install(t, ep, dir, gen, a + b) == Install(Install(t, ep, dir, gen, a), ep, dir, gen, b)
    decreases |a|
  {
    if a == [] {
      assert a + b == b;
    } else {
      assert (a + b)[1..] == a[1..] + b;
      InstallConcat(t[KeyOf(a[0], ep, dir, gen) := VerdictOf(a[0])], ep, dir, gen, a[1..], b);
    }
  }

  lemma {:induction false} InstallOver(t: Table, u: Table, ep: nat, dir: Dir, gen: bool, rules: seq<Rule>, k: Key)
    requires Find(t, k) == Find(u, k)
    ensures Find(Install(t, ep, dir, gen, rules), k) == Find(Install(u, ep, dir, gen, rules), k)
    decreases |rules|
  {
    if rules != [] {
      var r := rules[0];
      InstallOver(t[KeyOf(r, ep, dir, gen) := VerdictOf(r)], u[KeyOf(r, ep, dir, gen) := VerdictOf(r)], ep, dir, gen,
                  rules[1..], k);
    }
  }

  lemma {:induction false} LiveIsRule(rules: seq<Rule>, r: Rule)
    requires r in Live(rules)
    ensures r in rules && Probed(r)
  {
    if r in Live(rules[1..]) {
      LiveIsRule(rules[1..], r);
    }
  }

  /** A live rule's key holds its verdict. */
  lemma {:induction false} LiveFinds(t: Table, ep: nat, dir: Dir, gen: bool, rules: seq<Rule>, r: Rule)
    requires r in Live(rules)
    ensures Find(Install(t, ep, dir, gen, rules), KeyOf(r, ep, dir, gen)) == Some(VerdictOf(r))
    decreases |rules|
  {
    var t1, rest := t[KeyOf(rules[0], ep, dir, gen) := VerdictOf(rules[0])], rules[1..];
    if r in Live(rest) {
      LiveFinds(t1, ep, dir, gen, rest, r);
    } else {
      assert r == rules[0] && !Replaced(r, rest);
      InstallFinds(t1, ep, dir, gen, rest, KeyOf(r, ep, dir, gen));
      assert !Replaced(Rule(r.identity, r.proto, r.port, false), rest);
    }
  }

  /** A probe hits a verdict exactly when a live rule that matches has it. */
  lemma HitIsRule(t: Table, q: Query, rules: seq<Rule>, v: Verdict)
    requires q.Ok() && NoneHere(t, q.ep, q.dir, q.gen)
    ensures Some(v) in Hits(Install(t, q.ep, q.dir, q.gen, rules), q) <==>
      exists r :: r in Live(rules) && Matches(r, q) && VerdictOf(r) == v
  {
    var installed := Install(t, q.ep, q.dir, q.gen, rules);
    var hits := Hits(installed, q);
    if Some(v) in hits {
      var i :| 0 <= i < |hits| && hits[i] == Some(v);
      var k := Probe(q, PATTERNS[i]);
      ProbeMatches(q, i);
      InstallFinds(t, q.ep, q.dir, q.gen, rules, k);
      var r :| r in rules && KeyOf(r, q.ep, q.dir, q.gen) == k && Some(v) == Some(VerdictOf(r)) &&
        (Probed(r) ==> r in Live(rules));
      MatchIsProbed(r, q);
    }
    if r :| r in Live(rules) && Matches(r, q) && VerdictOf(r) == v {
      LiveIsRule(rules, r);
      MatchIsProbed(r, q);
      var i :| 0 <= i < |PATTERNS| && Probe(q, PATTERNS[i]) == KeyOf(r, q.ep, q.dir, q.gen);
      LiveFinds(t, q.ep, q.dir, q.gen, rules, r);
      assert hits[i] == Some(v);
    }
  }

  /** The probe set equals the meaning: on every rule list the verdict is the meaning of its live rules. */
  lemma VerdictIsMeaning(t: Table, q: Query, rules: seq<Rule>)
    requires q.Ok() && NoneHere(t, q.ep, q.dir, q.gen)
    ensures DeniedBy(Hits(Install(t, q.ep, q.dir, q.gen, rules), q)) <==> Meant(Live(rules), q)
  {
    HitIsRule(t, q, rules, Deny);
    HitIsRule(t, q, rules, Allow);
    assert forall r :: VerdictOf(r) == Deny <==> r.deny;
  }

  /** No rule for a port of any protocol, no two rules with one key and different verdicts. */
  predicate Tidy(rules: seq<Rule>)
  {
    && (forall r | r in rules :: Probed(r))
    && (forall r, s | r in rules && s in rules && SameKey(r, s) :: r.deny == s.deny)
  }

  lemma {:induction false} LiveCovers(rules: seq<Rule>, r: Rule)
    requires Tidy(rules) && r in rules
    ensures r in Live(rules)
  {
    var rest := rules[1..];
    assert forall x | x in rest :: x in rules;
    if r in rest {
      LiveCovers(rest, r);
    } else {
      assert r == rules[0] && Probed(r);
      forall i | 0 <= i < |rest| ensures !SameKey(r, rest[i]) {
        assert rest[i] in rest && rest[i] != r;
      }
    }
  }

  /** On a tidy rule list the verdict is the meaning of the list as it stands. */
  lemma TidyVerdict(t: Table, q: Query, rules: seq<Rule>)
    requires q.Ok() && NoneHere(t, q.ep, q.dir, q.gen) && Tidy(rules)
    ensures DeniedBy(Hits(Install(t, q.ep, q.dir, q.gen, rules), q)) <==> Meant(rules, q)
  {
    VerdictIsMeaning(t, q, rules);
    forall r ensures r in Live(rules) <==> r in rules {
      if r in Live(rules) {
        LiveIsRule(rules, r);
      }
      if r in rules {
        LiveCovers(rules, r);
      }
    }
  }

  /** Without the first condition: one rule that allows port 80 of any protocol allows nothing. */
  lemma AnyProtoPortIsMissed(ep: nat, dir: Dir, gen: bool)
    ensures var rules, q := [Rule(5, 0, 80, false)], Query(ep, 5, PROTO_TCP, 80, dir, gen);
      q.Ok() && !Meant(rules, q) && DeniedBy(Hits(Install(map[], ep, dir, gen, rules), q))
  {
    var r, q := Rule(5, 0, 80, false), Query(ep, 5, PROTO_TCP, 80, dir, gen);
    assert r in [r] && Matches(r, q);
    VerdictIsMeaning(map[], q, [r]);
    assert Live([r]) == [];
  }

  /** Without the second: an allow inserted after a deny under the same key lifts it. */
  lemma LaterAllowLiftsDeny(ep: nat, dir: Dir, gen: bool)
    ensures var rules, q := [Rule(5, 6, 80, true), Rule(5, 6, 80, false)], Query(ep, 5, PROTO_TCP, 80, dir, gen);
      q.Ok() && Meant(rules, q) && !DeniedBy(Hits(Install(map[], ep, dir, gen, rules), q))
  {
    var deny, allow, q := Rule(5, 6, 80, true), Rule(5, 6, 80, false), Query(ep, 5, PROTO_TCP, 80, dir, gen);
    var rules := [deny, allow];
    assert deny in rules && Matches(deny, q) && Matches(allow, q);
    VerdictIsMeaning(map[], q, rules);
    assert SameKey(deny, rules[1..][0]);
    assert rules[1..] == [allow] && Live([allow]) == [allow];
    assert Live(rules) == [allow];
    assert allow in [allow];
  }
}
