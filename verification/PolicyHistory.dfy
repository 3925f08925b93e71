/** Policy calls one after another, any of which may fail: what every endpoint's verdicts are then. */
module PolicyHistory {
  import opened Policy
  import opened PolicyAbsorb
  import opened PolicySwap
  import opened PolicyObjects
  import opened PolicyFailure

  /** What the two kernel maps hold at most. */
  datatype Room = Room(rules: nat, rows: nat)

  /** The maps after one call, as `PolicyMaps.EndpointPolicySet` leaves them. */
  function Called(m: Maps, c: Call, room: Room): Maps
  {
    if Succeeds(m, c, room.rules, room.rows) then After(m, c) else Left(m, c, room.rules)
  }

  function Run(m: Maps, calls: seq<Call>, room: Room): Maps
    decreases |calls|
  {
    if calls == [] then m
    else Called(Run(m, calls[..|calls| - 1], room), calls[|calls| - 1], room)
  }

  // ---- what is idle ----

  /** The rules that calls at the endpoint have put in and then failed, since the last that succeeded. */
  function Pending(m: Maps, calls: seq<Call>, room: Room, ep: nat, dir: Dir): seq<Rule>
    decreases |calls|
  {
    if calls == [] then []
    else
      var init, c := calls[..|calls| - 1], calls[|calls| - 1];
      var before := Run(m, init, room);
      if c.ep != ep then Pending(m, init, room, ep, dir)
      else if Succeeds(before, c, room.rules, room.rows) then []
      else Pending(m, init, room, ep, dir) + Wrote(c, Fitting(before, Inserts(before, c), room.rules), dir)
  }

  /** A call leaves the idle rules of other endpoints as they are. */
  lemma OtherIdles(m: Maps, c: Call, room: Room, ep: nat, dir: Dir, idle: seq<Rule>)
    requires c.ep != ep && Idles(m, ep, dir, idle)
    ensures Idles(Called(m, c, room), ep, dir, idle)
  {
    var now := Called(m, c, room);
    SameElsewhere(m, c, room, ep);
    forall k: Key | k.ep == ep ensures Find(now.policy, k) == Find(m.policy, k) {
      KeyElsewhere(m, c, room, k);
    }
  }

  lemma SameElsewhere(m: Maps, c: Call, room: Room, ep: nat)
    requires c.ep != ep
    ensures Row(Called(m, c, room), ep) == Row(m, ep) && NewGen(Called(m, c, room), ep) == NewGen(m, ep)
  {
    if !Succeeds(m, c, room.rules, room.rows) {
      Untouched(m, c, Fitting(m, Inserts(m, c), room.rules), ep);
    }
  }

  lemma KeyElsewhere(m: Maps, c: Call, room: Room, k: Key)
    requires c.ep != k.ep
    ensures Find(Called(m, c, room).policy, k) == Find(m.policy, k)
  {
    if Succeeds(m, c, room.rules, room.rows) {
      var keys := SomeOrder(set j | j in m.policy && Swept(m, c, j));
      PlanEnds(m, c, keys);
      KeyAt(m, c, keys, |Plan(m, c, keys)|, k);
    } else {
      UntouchedKey(m, c, Fitting(m, Inserts(m, c), room.rules), k);
    }
  }

  /** A call that succeeds leaves its endpoint no idle rule. */
  lemma SuccessIdles(m: Maps, c: Call, dir: Dir)
    ensures Idles(After(m, c), c.ep, dir, [])
  {
    var end := After(m, c);
    forall k: Key | k.ep == c.ep && k.gen == NewGen(end, c.ep) ensures k !in end.policy {
      if k in Installed(m, c) {
        InstalledKeys(m, c, k);
      }
    }
  }

  /** At every moment of a run the pending rules are exactly what lies under each endpoint's idle generation. */
  lemma {:induction false} RunIdles(m: Maps, calls: seq<Call>, room: Room, ep: nat, dir: Dir)
    requires Clean(m)
    ensures Idles(Run(m, calls, room), ep, dir, Pending(m, calls, room, ep, dir))
    decreases |calls|
  {
    if calls == [] {
      CleanIdles(m, ep, dir);
    } else {
      var init, c := calls[..|calls| - 1], calls[|calls| - 1];
      var before := Run(m, init, room);
      RunIdles(m, init, room, ep, dir);
      if c.ep != ep {
        OtherIdles(before, c, room, ep, dir, Pending(m, init, room, ep, dir));
      } else if Succeeds(before, c, room.rules, room.rows) {
        SuccessIdles(before, c, dir);
      } else {
        WroteIdles(before, c, Fitting(before, Inserts(before, c), room.rules), dir, Pending(m, init, room, ep, dir));
      }
    }
  }

  // ---- what is in force ----

  /** The verdict that a history of calls gives a packet: that of the last call at its endpoint to succeed, over
      its own rules and those pending when it was made. */
  ghost function InForce(m: Maps, calls: seq<Call>, room: Room, q: Query): Judged
    decreases |calls|
  {
    if calls == [] then VerdictIn(m, q)
    else
      var init, c := calls[..|calls| - 1], calls[|calls| - 1];
      if c.ep != q.ep || !Succeeds(Run(m, init, room), c, room.rules, room.rows) then InForce(m, init, room, q)
      else Says(c, q, Pending(m, init, room, q.ep, q.dir) + RulesOf(c, q.dir))
  }

  lemma SameVerdict(m: Maps, c: Call, room: Room, q: Query)
    requires c.ep != q.ep || !Succeeds(m, c, room.rules, room.rows)
    ensures VerdictIn(Called(m, c, room), q) == VerdictIn(m, q)
  {
    if !Succeeds(m, c, room.rules, room.rows) {
      FailureChangesNoVerdict(m, c, Fitting(m, Inserts(m, c), room.rules), q);
    } else {
      var now := Called(m, c, room);
      SameElsewhere(m, c, room, q.ep);
      var asked := Under(q, Row(m, q.ep));
      forall i | 0 <= i < |PATTERNS| ensures Hits(now.policy, asked)[i] == Hits(m.policy, asked)[i] {
        KeyElsewhere(m, c, room, Probe(asked, PATTERNS[i]));
      }
      assert Hits(now.policy, asked) == Hits(m.policy, asked);
    }
  }

  lemma CalledMeans(m: Maps, c: Call, room: Room, q: Query, idle: seq<Rule>)
    requires c.ep == q.ep && q.Ok() && Succeeds(m, c, room.rules, room.rows) && Idles(m, q.ep, q.dir, idle)
    ensures VerdictIn(Called(m, c, room), q) == Says(c, q, idle + RulesOf(c, q.dir))
  {
    var keys := SomeOrder(set j | j in m.policy && Swept(m, c, j));
    PlanEnds(m, c, keys);
    CallMeans(m, c, keys, q, idle);
  }

  /** After any calls at any endpoints, failed or not, every packet's verdict is what the history says. */
  lemma {:induction false} RunMeans(m: Maps, calls: seq<Call>, room: Room, q: Query)
    requires Clean(m) && q.Ok()
    ensures VerdictIn(Run(m, calls, room), q) == InForce(m, calls, room, q)
    decreases |calls|
  {
    if calls != [] {
      var init, c := calls[..|calls| - 1], calls[|calls| - 1];
      RunMeans(m, init, room, q);
      if c.ep != q.ep || !Succeeds(Run(m, init, room), c, room.rules, room.rows) {
        SameVerdict(Run(m, init, room), c, room, q);
      } else {
        RunIdles(m, init, room, q.ep, q.dir);
        CalledMeans(Run(m, init, room), c, room, q, Pending(m, init, room, q.ep, q.dir));
      }
    }
  }

  /** A call that succeeds after any history gives every packet of a direction the verdict of its own rules
      exactly when these absorb the pending ones. */
  lemma RunAloneExactly(m: Maps, calls: seq<Call>, c: Call, room: Room, dir: Dir, all: bool)
    requires Clean(m) && Succeeds(Run(m, calls, room), c, room.rules, room.rows)
    requires all || HasSpare(Pending(m, calls, room, c.ep, dir) + RulesOf(c, dir))
    ensures NoTrace(c, dir, Pending(m, calls, room, c.ep, dir)) <==>
      forall q: Query | Counted(q, all) && q.ep == c.ep && q.dir == dir ::
        VerdictIn(Run(m, calls + [c], room), q) == Says(c, q, RulesOf(c, dir))
  {
    var before := Run(m, calls, room);
    assert (calls + [c])[..|calls|] == calls;
    var keys := SomeOrder(set j | j in before.policy && Swept(before, c, j));
    PlanEnds(before, c, keys);
    RunIdles(m, calls, room, c.ep, dir);
    CallAloneExactly(before, c, keys, dir, Pending(m, calls, room, c.ep, dir), all);
  }

  // ---- retries ----

  /** Every pending rule was asked for by a call at the endpoint. */
  lemma {:induction false} PendingWasAsked(m: Maps, calls: seq<Call>, room: Room, ep: nat, dir: Dir, r: Rule)
      returns (i: nat)
    requires r in Pending(m, calls, room, ep, dir)
    ensures i < |calls| && calls[i].ep == ep && r in RulesOf(calls[i], dir)
    decreases |calls|
  {
    var init, c := calls[..|calls| - 1], calls[|calls| - 1];
    if r in Pending(m, init, room, ep, dir) {
      i := PendingWasAsked(m, init, room, ep, dir, r);
    } else {
      i := |init|;
    }
  }

  /** Every idle rule is replaced by one of the call's under the same key. */
  lemma {:induction false} AllReplaced(idle: seq<Rule>, rules: seq<Rule>)
    requires forall r | r in idle :: Replaced(r, rules)
    ensures Leftover(idle, rules) == []
  {
    if idle != [] {
      assert Replaced(idle[0], rules);
      var i :| 0 <= i < |rules| && SameKey(idle[0], rules[i]);
      assert (idle[1..] + rules)[|idle[1..]| + i] == rules[i];
      AllReplaced(idle[1..], rules);
    }
  }

  /** Retrying is safe: when every earlier call at the endpoint asked only for keys that this one names too, as
      retries of one call do, this one's success puts in force what its own rules mean. */
  lemma RetryHeals(m: Maps, calls: seq<Call>, c: Call, room: Room, q: Query)
    requires Clean(m) && q.Ok() && q.ep == c.ep && Succeeds(Run(m, calls, room), c, room.rules, room.rows)
    requires forall i, r | 0 <= i < |calls| && calls[i].ep == c.ep && r in RulesOf(calls[i], q.dir) ::
      Replaced(r, RulesOf(c, q.dir))
    ensures VerdictIn(Run(m, calls + [c], room), q) == Says(c, q, RulesOf(c, q.dir))
  {
    var idle, rules := Pending(m, calls, room, q.ep, q.dir), RulesOf(c, q.dir);
    assert (calls + [c])[..|calls|] == calls;
    RunMeans(m, calls + [c], room, q);
    forall r | r in idle ensures Replaced(r, rules) {
      var i := PendingWasAsked(m, calls, room, q.ep, q.dir, r);
    }
    AllReplaced(idle, rules);
    LiveConcat(idle, rules);
    assert [] + Live(rules) == Live(rules);
  }
}
