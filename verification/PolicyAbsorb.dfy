/** When rules added to a list change no verdict: a test on the rules, exact over the queries packets ask. */
module PolicyAbsorb {
  import opened Wrappers
  import opened Packet
  import opened Policy

  // ---- rules as boxes of queries ----

  /** A rule some query matches: a port goes with TCP or UDP. Every other rule is a union of such boxes. */
  predicate Box(b: Rule)
  {
    b.port != 0 ==> b.proto == PROTO_TCP || b.proto == PROTO_UDP
  }

  /** The boxes of a rule: one, or for a port of any protocol two, or for a port of another protocol none. */
  function Boxes(r: Rule): (bs: seq<Rule>)
    ensures forall b | b in bs :: Box(b) && b.deny == r.deny
  {
    if Box(r) then [r]
    else if r.proto == 0 then [r.(proto := PROTO_TCP), r.(proto := PROTO_UDP)]
    else []
  }

  lemma MatchesBox(r: Rule, q: Query)
    requires q.Ok()
    ensures Matches(r, q) <==> exists b :: b in Boxes(r) && Matches(b, q)
  {
    if Matches(r, q) {
      assert (if Box(r) then r else r.(proto := q.proto)) in Boxes(r);
    }
  }

  /** Every query of the box matches the rule. */
  predicate Covers(r: Rule, b: Rule)
  {
    && (r.identity == 0 || r.identity == b.identity)
    && (r.proto == 0 || r.proto == b.proto)
    && (r.port == 0 || r.port == b.port)
  }

  lemma CoversMatches(r: Rule, b: Rule, q: Query)
    requires Covers(r, b) && Matches(b, q)
    ensures Matches(r, q)
  {
  }

  // ---- a query no rule was written for ----

  /** A protocol without ports, a port and an identity. */
  datatype Spare = Spare(identity: U32, proto: Byte, port: U16)
  {
    predicate Ok() { proto != PROTO_TCP && proto != PROTO_UDP }

    predicate Nonzero() { identity != 0 && proto != 0 && port != 0 }
  }

  /** No rule names any of the three. Zero is never a name: in a rule it stands for any. */
  predicate Unnamed(s: Spare, rules: seq<Rule>)
  {
    && s.Ok()
    && forall r | r in rules ::
      && (r.identity == 0 || r.identity != s.identity)
      && (r.proto == 0 || r.proto != s.proto)
      && (r.port == 0 || r.port != s.port)
  }

  lemma ZeroIsUnnamed(rules: seq<Rule>)
    ensures Unnamed(Spare(0, 0, 0), rules)
  {
  }

  ghost predicate HasSpare(rules: seq<Rule>)
  {
    exists s: Spare :: s.Nonzero() && Unnamed(s, rules)
  }

  /** A query of the box that matches only rules that cover all of it. */
  function Generic(b: Rule, s: Spare, q: Query): (g: Query)
    requires Box(b) && s.Ok()
    ensures g.Ok() && Matches(b, g) && (s.Nonzero() ==> Ordinary(g))
  {
    var proto := if b.proto == 0 then s.proto else b.proto;
    q.(identity := if b.identity == 0 then s.identity else b.identity, proto := proto,
       port := if b.port != 0 then b.port else if proto == PROTO_TCP || proto == PROTO_UDP then s.port else 0)
  }

  lemma GenericCovers(b: Rule, s: Spare, rules: seq<Rule>, q: Query, r: Rule)
    requires Box(b) && Unnamed(s, rules) && r in rules
    ensures Matches(r, Generic(b, s, q)) ==> Covers(r, b)
  {
  }

  /** A packet with a peer identity, a protocol and, for TCP and UDP, a port other than zero. */
  predicate Ordinary(q: Query)
  {
    q.Ok() && q.identity != 0 && q.proto != 0 && (q.proto == PROTO_TCP || q.proto == PROTO_UDP ==> q.port != 0)
  }

  /** The packets counted: all, or the ordinary ones. */
  predicate Counted(q: Query, all: bool)
  {
    q.Ok() && (all || Ordinary(q))
  }

  // ---- a spare is left ----

  /** A set that does not hold all numbers below `n`. */
  lemma {:induction false} Missing(n: nat, used: set<int>) returns (x: int)
    requires |used| < n
    ensures 0 <= x < n && x !in used
  {
    if n - 1 in used {
      x := Missing(n - 1, used - {n - 1});
    } else {
      x := n - 1;
    }
  }

  function Identities(rules: seq<Rule>): set<int> { set r | r in rules :: r.identity as int }
  function Protos(rules: seq<Rule>): set<int> { set r | r in rules :: r.proto as int }
  function Ports(rules: seq<Rule>): set<int> { set r | r in rules :: r.port as int }

  lemma {:induction false} NamesCard(rules: seq<Rule>)
    ensures |Identities(rules)| <= |rules| && |Protos(rules)| <= |rules| && |Ports(rules)| <= |rules|
  {
    if rules != [] {
      var first, rest := rules[0], rules[1..];
      NamesCard(rest);
      assert forall r :: r in rules <==> r == first || r in rest;
      assert Identities(rules) == Identities(rest) + {first.identity as int};
      assert Protos(rules) == Protos(rest) + {first.proto as int};
      assert Ports(rules) == Ports(rest) + {first.port as int};
    }
  }

  /** Fewer than 253 rules leave a protocol unnamed besides TCP and UDP, and so a port and an identity. */
  lemma ShortListsHaveSpare(rules: seq<Rule>)
    requires |rules| < 253
    ensures HasSpare(rules)
  {
    NamesCard(rules);
    var taken := {0, PROTO_TCP, PROTO_UDP};
    assert |Protos(rules) + taken| <= |Protos(rules)| + 3;
    var identity := Missing(0x1_0000_0000, Identities(rules) + {0});
    var proto := Missing(256, Protos(rules) + taken);
    var port := Missing(0x1_0000, Ports(rules) + {0});
    assert Unnamed(Spare(identity, proto, port), rules);
  }

  // ---- two rules at once ----

  predicate Compatible(b: Rule, c: Rule)
  {
    && (b.identity == 0 || c.identity == 0 || b.identity == c.identity)
    && (b.proto == 0 || c.proto == 0 || b.proto == c.proto)
    && (b.port == 0 || c.port == 0 || b.port == c.port)
  }

  /** The queries both boxes hold. */
  function Meet(b: Rule, c: Rule): (m: Rule)
    requires Box(b) && Box(c) && Compatible(b, c)
    ensures Box(m)
  {
    Rule(if b.identity == 0 then c.identity else b.identity, if b.proto == 0 then c.proto else b.proto,
         if b.port == 0 then c.port else b.port, true)
  }

  lemma MeetMatches(b: Rule, c: Rule, q: Query)
    requires Box(b) && Box(c)
    ensures Matches(b, q) && Matches(c, q) <==> Compatible(b, c) && Matches(Meet(b, c), q)
  {
  }

  // ---- the test ----

  /** An added allow lets nothing new through: a rule of the list, or an added deny, already decides every
      query of it. */
  ghost predicate AllowAbsorbed(x: Rule, extra: seq<Rule>, rules: seq<Rule>)
  {
    forall b | b in Boxes(x) :: exists r :: (r in rules || (r in extra && r.deny)) && Covers(r, b)
  }

  /** An added deny stops nothing: whatever an allow of the list lets through inside it, a deny of the list
      already stops. */
  ghost predicate DenyAbsorbed(x: Rule, rules: seq<Rule>)
  {
    forall a, b, c | a in rules && !a.deny && b in Boxes(x) && c in Boxes(a) && Compatible(b, c) ::
      exists d :: d in rules && d.deny && Covers(d, Meet(b, c))
  }

  ghost predicate Absorbed(extra: seq<Rule>, rules: seq<Rule>)
  {
    forall x | x in extra :: if x.deny then DenyAbsorbed(x, rules) else AllowAbsorbed(x, extra, rules)
  }

  /** Do the added rules leave this query's verdict as it is? */
  ghost predicate Unmoved(extra: seq<Rule>, rules: seq<Rule>, q: Query)
  {
    Meant(extra + rules, q) <==> Meant(rules, q)
  }

  lemma InBoth(extra: seq<Rule>, rules: seq<Rule>)
    ensures forall r :: r in extra + rules <==> r in extra || r in rules
  {
  }

  lemma AbsorbedMoves(extra: seq<Rule>, rules: seq<Rule>, q: Query)
    requires Absorbed(extra, rules) && q.Ok()
    ensures Unmoved(extra, rules, q)
  {
    InBoth(extra, rules);
    if Meant(rules, q) && !Meant(extra + rules, q) {
      var x :| x in extra + rules && Matches(x, q) && !x.deny;
      assert x in extra && AllowAbsorbed(x, extra, rules);
      MatchesBox(x, q);
      var b :| b in Boxes(x) && Matches(b, q);
      var r :| (r in rules || (r in extra && r.deny)) && Covers(r, b);
      CoversMatches(r, b, q);
    }
    if !Meant(rules, q) && Meant(extra + rules, q) {
      var a :| a in rules && Matches(a, q) && !a.deny;
      assert a in extra + rules;
      var x :| x in extra + rules && Matches(x, q) && x.deny;
      assert x in extra && DenyAbsorbed(x, rules);
      MatchesBox(x, q);
      MatchesBox(a, q);
      var b :| b in Boxes(x) && Matches(b, q);
      var c :| c in Boxes(a) && Matches(c, q);
      MeetMatches(b, c, q);
      var d :| d in rules && d.deny && Covers(d, Meet(b, c));
      CoversMatches(d, Meet(b, c), q);
    }
  }

  /** An allow that is not absorbed lets some query through. */
  lemma AllowMoves(x: Rule, extra: seq<Rule>, rules: seq<Rule>, s: Spare, any: Query) returns (q: Query)
    requires x in extra && !x.deny && !AllowAbsorbed(x, extra, rules) && Unnamed(s, extra + rules)
    ensures q.Ok() && !Unmoved(extra, rules, q) && q.ep == any.ep && q.dir == any.dir
    ensures s.Nonzero() ==> Ordinary(q)
  {
    var b :| b in Boxes(x) && forall r :: (r in rules || (r in extra && r.deny)) ==> !Covers(r, b);
    q := Generic(b, s, any);
    InBoth(extra, rules);
    forall r | r in extra + rules ensures Matches(r, q) ==> Covers(r, b) {
      GenericCovers(b, s, extra + rules, any, r);
    }
    MatchesBox(x, q);
    assert x in extra + rules && Matches(x, q) && !x.deny;
  }

  /** A deny that is not absorbed stops some query. */
  lemma DenyMoves(x: Rule, extra: seq<Rule>, rules: seq<Rule>, s: Spare, any: Query) returns (q: Query)
    requires x in extra && x.deny && !DenyAbsorbed(x, rules) && Unnamed(s, extra + rules)
    ensures q.Ok() && !Unmoved(extra, rules, q) && q.ep == any.ep && q.dir == any.dir
    ensures s.Nonzero() ==> Ordinary(q)
  {
    var a, b, c :| a in rules && !a.deny && b in Boxes(x) && c in Boxes(a) && Compatible(b, c)
      && forall d :: d in rules && d.deny ==> !Covers(d, Meet(b, c));
    q := Generic(Meet(b, c), s, any);
    InBoth(extra, rules);
    forall d | d in extra + rules ensures Matches(d, q) ==> Covers(d, Meet(b, c)) {
      GenericCovers(Meet(b, c), s, extra + rules, any, d);
    }
    MeetMatches(b, c, q);
    MatchesBox(x, q);
    MatchesBox(a, q);
    assert a in rules && Matches(a, q) && !a.deny;
    assert x in extra + rules && Matches(x, q) && x.deny;
    assert !Meant(rules, q);
  }

  /** Added rules change no verdict of an endpoint in one direction exactly when the test says so: over all
      packets, or over the ordinary ones when the lists leave a value of each field unnamed. */
  lemma AbsorbedExactly(extra: seq<Rule>, rules: seq<Rule>, ep: nat, dir: Dir, all: bool)
    requires all || HasSpare(extra + rules)
    ensures Absorbed(extra, rules) <==>
      forall q: Query | Counted(q, all) && q.ep == ep && q.dir == dir :: Unmoved(extra, rules, q)
  {
    if Absorbed(extra, rules) {
      forall q: Query | Counted(q, all) && q.ep == ep && q.dir == dir ensures Unmoved(extra, rules, q) {
        AbsorbedMoves(extra, rules, q);
      }
    } else {
      var any := Query(ep, 0, 0, 0, dir, false);
      var x :| x in extra && !(if x.deny then DenyAbsorbed(x, rules) else AllowAbsorbed(x, extra, rules));
      var s: Spare := Spare(0, 0, 0);
      ZeroIsUnnamed(extra + rules);
      if !all {
        s :| s.Nonzero() && Unnamed(s, extra + rules);
      }
      var q: Query;
      if x.deny {
        q := DenyMoves(x, extra, rules, s, any);
      } else {
        q := AllowMoves(x, extra, rules, s, any);
      }
    }
  }

  // ---- dead rules ----

  /** The rules that do not count, in order. */
  function Dead(rules: seq<Rule>): seq<Rule>
  {
    if rules == [] then []
    else if Probed(rules[0]) && !Replaced(rules[0], rules[1..]) then Dead(rules[1..])
    else [rules[0]] + Dead(rules[1..])
  }

  lemma {:induction false} DeadOrLive(rules: seq<Rule>, r: Rule)
    ensures r in rules <==> r in Dead(rules) + Live(rules)
  {
    if rules != [] {
      DeadOrLive(rules[1..], r);
      assert r in rules <==> r == rules[0] || r in rules[1..];
    }
  }

  lemma SameRules(a: seq<Rule>, b: seq<Rule>, q: Query)
    requires forall r :: r in a <==> r in b
    ensures Meant(a, q) <==> Meant(b, q)
  {
  }

  /** The probes give every packet the meaning of the rule list as it stands exactly when the dead rules are
      absorbed by the live ones. */
  lemma ListMeansWhatItSays(t: Table, ep: nat, dir: Dir, gen: bool, rules: seq<Rule>, all: bool)
    requires NoneHere(t, ep, dir, gen) && (all || HasSpare(rules))
    ensures Absorbed(Dead(rules), Live(rules)) <==>
      forall q: Query | Counted(q, all) && q.ep == ep && q.dir == dir && q.gen == gen ::
        DeniedBy(Hits(Install(t, ep, dir, gen, rules), q)) <==> Meant(rules, q)
  {
    var dead, live := Dead(rules), Live(rules);
    forall r ensures r in rules <==> r in dead + live {
      DeadOrLive(rules, r);
    }
    SpareOf(rules, dead + live);
    AbsorbedExactly(dead, live, ep, dir, all);
    forall q: Query | Counted(q, all) && q.ep == ep && q.dir == dir && q.gen == gen
      ensures (DeniedBy(Hits(Install(t, ep, dir, gen, rules), q)) <==> Meant(rules, q)) <==> Unmoved(dead, live, q)
    {
      VerdictIsMeaning(t, q, rules);
      SameRules(rules, dead + live, q);
    }
    if forall q: Query | Counted(q, all) && q.ep == ep && q.dir == dir && q.gen == gen :: Unmoved(dead, live, q) {
      forall q: Query | Counted(q, all) && q.ep == ep && q.dir == dir ensures Unmoved(dead, live, q) {
        var p := q.(gen := gen);
        assert Unmoved(dead, live, p);
        SameMeaning(dead + live, q, p);
        SameMeaning(live, q, p);
      }
    }
  }

  /** A spare of a list is one of any list of its rules. */
  lemma SpareOf(rules: seq<Rule>, some: seq<Rule>)
    requires forall r | r in some :: r in rules
    ensures HasSpare(rules) ==> HasSpare(some)
  {
    if HasSpare(rules) {
      var s: Spare :| s.Nonzero() && Unnamed(s, rules);
      assert Unnamed(s, some);
    }
  }
}
