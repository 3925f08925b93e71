/** Whole runs: any sequence of route operations, and the plain route table they must look like. */
module Dir24Runs {
  import opened Prefix
  import opened FibWord
  import opened Wrappers
  import opened Dir24
  import opened Dir24Pool
  import opened Dir24Refinement
  import opened Dir24Routes
  import opened Dir24Theorems
  import opened Dir24Bulk
  import opened Fib4

  datatype Op =
    | Add(addr: U32, len: nat, entry: FibEntry)
    | Del(addr: U32, len: nat)
    | AddBulk(batch: seq<Item>)

  function Do(e: Engine, op: Op): Outcome
  {
    match op
    case Add(addr, len, entry) => RouteAdd(e, addr, len, entry)
    case Del(addr, len) => RouteDel(e, addr, len)
    case AddBulk(batch) => RouteAddBulk(e, batch)
  }

  /** The same operation on a plain route table, when it is accepted. */
  function Routes(shadow: Shadow, op: Op): Shadow
    requires match op
      case Add(_, len, _) => len <= 32
      case Del(_, len) => len <= 32
      case AddBulk(batch) => GoodLengths(batch)
  {
    match op
    case Add(addr, len, entry) => shadow[Route(Net(addr, len), len) := entry]
    case Del(addr, len) => shadow - {Route(Net(addr, len), len)}
    case AddBulk(batch) => AllRoutes(shadow, batch)
  }

  function AllRoutes(shadow: Shadow, batch: seq<Item>): Shadow
    requires GoodLengths(batch)
  {
    if batch == [] then shadow
    else AllRoutes(shadow, batch[..|batch| - 1])[RouteOf(batch[|batch| - 1]) := batch[|batch| - 1].entry]
  }

  lemma {:induction false} InsertAllRoutes(e: Engine, batch: seq<Item>)
    requires GoodLengths(batch)
    ensures InsertAll(e, batch).shadow == AllRoutes(e.shadow, batch)
  {
    if batch != [] {
      InsertAllRoutes(e, batch[..|batch| - 1]);
    }
  }

  /** An operation is refused for a bad length or for want of groups, and for nothing else. */
  predicate Refused(e: Engine, op: Op)
  {
    match op
    case Add(addr, len, _) => AddRefused(e, addr, len)
    case Del(_, len) => len > 32
    case AddBulk(batch) => BulkRefused(e, batch)
  }

  /** One operation from a valid engine: it fails exactly when refused, a failure changes nothing, and a
      success is the plain table's step. */
  lemma DoAtomic(e: Engine, n: nat, op: Op)
    requires Valid(e, n)
    ensures var o := Do(e, op);
      && (o.plan == None <==> Refused(e, op))
      && (o.plan == None ==> o.engine == e)
      && Valid(o.engine, n)
      && (o.plan.Some? ==> o.engine.shadow == Routes(e.shadow, op))
      && (o.plan.Some? ==> PlanInBounds(o.plan.value, n))
  {
    match op
    case Add(addr, len, entry) => RouteAddAtomic(e, n, addr, len, entry);
    case Del(addr, len) => RouteDelAtomic(e, n, addr, len);
    case AddBulk(batch) =>
      BulkAtomic(e, n, batch);
      if GoodLengths(batch) {
        InsertAllRoutes(e, batch);
      }
  }

  lemma DoAgrees(e: Engine, t: Tables, n: nat, op: Op)
    requires Valid(e, n) && Agree(e, t, n) && Do(e, op).plan.Some?
    ensures Agree(Do(e, op).engine, ApplyAll(t, Do(e, op).plan.value), n)
  {
    match op
    case Add(addr, len, entry) => RouteAddSafe(e, t, n, addr, len, entry, 0, 0);
    case Del(addr, len) => RouteDelSafe(e, t, n, addr, len, 0, 0);
    case AddBulk(batch) => BulkAgrees(e, t, n, batch);
  }

  /** Run the operations in order, applying each successful plan; also the plain table beside it. */
  function Run(e: Engine, t: Tables, shadow: Shadow, ops: seq<Op>): (Engine, Tables, Shadow)
  {
    if ops == [] then (e, t, shadow)
    else
      var (e0, t0, s0) := Run(e, t, shadow, ops[..|ops| - 1]);
      var op := ops[|ops| - 1];
      var o := Do(e0, op);
      if Refused(e0, op) || o.plan == None then (o.engine, t0, s0)
      else (o.engine, ApplyAll(t0, o.plan.value), Routes(s0, op))
  }

  /** Refinement: after any operations from empty tables, the lookup of every address is longest-prefix
      match over the routes the accepted operations leave in a plain table. */
  lemma {:induction false} RunRefines(n: nat, ops: seq<Op>)
    requires n <= MAX_GROUPS
    ensures var (e, t, shadow) := Run(New(n), ZeroTables(n), map[], ops);
      && Valid(e, n) && Agree(e, t, n) && e.shadow == shadow
      && forall a: U32 :: Fib4Lookup(t, a) == Meaning(shadow, a)
  {
    if ops == [] {
      NewIsValid(n);
      NewAgrees(n);
    } else {
      RunRefines(n, ops[..|ops| - 1]);
      var (e0, t0, s0) := Run(New(n), ZeroTables(n), map[], ops[..|ops| - 1]);
      DoAtomic(e0, n, ops[|ops| - 1]);
      if !Refused(e0, ops[|ops| - 1]) {
        DoAgrees(e0, t0, n, ops[|ops| - 1]);
      }
    }
    var (e, t, shadow) := Run(New(n), ZeroTables(n), map[], ops);
    forall a: U32 ensures Fib4Lookup(t, a) == Meaning(shadow, a) {
      AgreeIsMeaning(e, t, n, a);
    }
  }
}
