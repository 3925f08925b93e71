/** The DIR-24-8 expansion engine as functions on values: each operation of the engine yields a new
    engine and an ordered plan of single-word table writes. */
module Dir24 {
  import opened Prefix
  import opened FibWord
  import opened Wrappers

  const QUARANTINE_DEPTH := 64

  datatype Route = Route(net: U32, len: Len)

  datatype SlotWrite =
    | Tbl24(blk: nat, word: Word)
    | Tbl8(slot: nat, word: Word)
    | Default(word: Word)

  type Shadow = map<Route, FibEntry>

  datatype Engine = Engine(
    shadow: Shadow,
    longCount: map<nat, nat>,
    groups: map<nat, nat>,
    free: seq<nat>,
    quarantine: seq<nat>)

  /** An operation's effect. `plan` is `None` when the operation reports an error. */
  datatype Outcome = Outcome(engine: Engine, plan: Option<seq<SlotWrite>>)

  function New(groups: nat): Engine
  {
    Engine(map[], map[], map[], seq(groups, i requires 0 <= i < groups => groups - 1 - i), [])
  }

  // ---- longest-prefix match ----

  /** The entry of the longest route covering `addr` whose length lies in `lo..=hi`. */
  function Best(shadow: Shadow, addr: U32, hi: Len, lo: Len): Option<FibEntry>
    decreases hi
  {
    if hi < lo then None
    else if Route(Net(addr, hi), hi) in shadow then Some(shadow[Route(Net(addr, hi), hi)])
    else if hi == 0 then None
    else Best(shadow, addr, hi - 1, lo)
  }

  /** The meaning of the whole table: longest-prefix match over every route, `/0` included. */
  function Lpm(shadow: Shadow, addr: U32): Option<FibEntry>
  {
    Best(shadow, addr, 32, 0)
  }

  function WordOf(e: Option<FibEntry>): Word
  {
    match e
    case None => 0
    case Some(entry) => PackEntry(entry)
  }

  function SlotWord(shadow: Shadow, addr: U32): Word
  {
    WordOf(Best(shadow, addr, 32, 1))
  }

  function CoverWord(shadow: Shadow, blk: nat): Word
    requires blk < BLOCKS
  {
    WordOf(Best(shadow, blk * 256, 24, 1))
  }

  function DefaultWord(shadow: Shadow): Word
  {
    WordOf(Best(shadow, 0, 0, 0))
  }

  // ---- group pool ----

  function AllocGroup(e: Engine): Option<(nat, Engine)>
  {
    if |e.free| > 0 then
      Some((e.free[|e.free| - 1], e.(free := e.free[..|e.free| - 1])))
    else if |e.quarantine| > 0 then
      Some((e.quarantine[0], e.(quarantine := e.quarantine[1..])))
    else
      None
  }

  /** Move the oldest quarantined groups to the free list until at most `QUARANTINE_DEPTH` remain. */
  function Drain(e: Engine): Engine
    decreases |e.quarantine|
  {
    if |e.quarantine| <= QUARANTINE_DEPTH then e
    else Drain(e.(free := e.free + [e.quarantine[0]], quarantine := e.quarantine[1..]))
  }

  // ---- block synchronisation ----

  predicate HasLong(e: Engine, blk: nat)
  {
    blk in e.longCount && e.longCount[blk] > 0
  }

  /** All 256 slot words of a block, written into group `g`. */
  function Fill(shadow: Shadow, blk: nat, g: nat): (plan: seq<SlotWrite>)
    requires blk < BLOCKS
    ensures |plan| == 256
  {
    seq(256, low requires 0 <= low < 256 => Tbl8(g * 256 + low, SlotWord(shadow, blk * 256 + low)))
  }

  function SyncBlock(e: Engine, blk: nat): Outcome
    requires blk < BLOCKS
  {
    if HasLong(e, blk) then
      if blk in e.groups then
        Outcome(e, Some(Fill(e.shadow, blk, e.groups[blk])))
      else
        match AllocGroup(e)
        case None => Outcome(e, None)
        case Some((g, e1)) =>
          Outcome(e1.(groups := e1.groups[blk := g]), Some(Fill(e.shadow, blk, g) + [Tbl24(blk, PackGroup(g))]))
    else
      var flip := [Tbl24(blk, CoverWord(e.shadow, blk))];
      if blk in e.groups then
        Outcome(Drain(e.(groups := e.groups - {blk}, quarantine := e.quarantine + [e.groups[blk]])), Some(flip))
      else
        Outcome(e, Some(flip))
  }

  predicate InTable(blks: seq<nat>)
  {
    forall i | 0 <= i < |blks| :: blks[i] < BLOCKS
  }

  /** Synchronise blocks in order; an error stops the run and keeps what was done. */
  function SyncAll(e: Engine, blks: seq<nat>): Outcome
    requires InTable(blks)
    decreases |blks|
  {
    if blks == [] then Outcome(e, Some([]))
    else
      var first := SyncBlock(e, blks[0]);
      if first.plan == None then first
      else
        var rest := SyncAll(first.engine, blks[1..]);
        if rest.plan == None then rest
        else Outcome(rest.engine, Some(first.plan.value + rest.plan.value))
  }

  function Range(lo: nat, hi: nat): (r: seq<nat>)
    requires lo <= hi
  {
    seq(hi - lo, i requires 0 <= i < hi - lo => lo + i)
  }

  /** The blocks of a masked prefix, ascending. */
  function AffectedBlocks(net: U32, len: Len): (blks: seq<nat>)
    requires net == Net(net, len)
    ensures InTable(blks)
  {
    BlocksInTable(net, len);
    Range(FirstBlock(net), EndBlock(net, len))
  }

  // ---- operations ----

  predicate Exhausted(e: Engine)
  {
    |e.free| == 0 && |e.quarantine| == 0
  }

  /** Record a route; a new route longer than /24 raises its block's count. */
  function Insert(e: Engine, r: Route, entry: FibEntry): Engine
  {
    var blk := r.net / 256;
    var count := if blk in e.longCount then e.longCount[blk] else 0;
    e.(shadow := e.shadow[r := entry],
       longCount := if r.len > 24 && r !in e.shadow then e.longCount[blk := count + 1] else e.longCount)
  }

  /** Forget a present route; the last route longer than /24 clears its block's count. */
  function Remove(e: Engine, r: Route): Engine
  {
    var blk := r.net / 256;
    e.(shadow := e.shadow - {r},
       longCount :=
         if r.len > 24 && blk in e.longCount then
           if e.longCount[blk] <= 1 then e.longCount - {blk} else e.longCount[blk := e.longCount[blk] - 1]
         else e.longCount)
  }

  function RouteAdd(e: Engine, addr: U32, len: nat, entry: FibEntry): Outcome
  {
    if len > 32 then Outcome(e, None)
    else
      var r := Route(Net(addr, len), len);
      if len == 0 then
        Outcome(e.(shadow := e.shadow[r := entry]), Some([Default(PackEntry(entry))]))
      else if len > 24 && r.net / 256 !in e.groups && Exhausted(e) then
        Outcome(e, None)
      else
        NetIdempotent(addr, len);
        SyncAll(Insert(e, r, entry), AffectedBlocks(r.net, len))
  }

  function RouteDel(e: Engine, addr: U32, len: nat): Outcome
  {
    if len > 32 then Outcome(e, None)
    else
      var r := Route(Net(addr, len), len);
      if r !in e.shadow then Outcome(e, Some([]))
      else if len == 0 then
        Outcome(e.(shadow := e.shadow - {r}), Some([Default(0)]))
      else
        NetIdempotent(addr, len);
        SyncAll(Remove(e, r), AffectedBlocks(r.net, len))
  }

  // ---- bulk load ----

  /** One element of a batch, as the caller passes it: unmasked, with an unchecked length. */
  datatype Item = Item(addr: U32, len: nat, entry: FibEntry)

  predicate GoodLengths(batch: seq<Item>)
  {
    forall i | 0 <= i < |batch| :: batch[i].len <= 32
  }

  function RouteOf(item: Item): (r: Route)
    requires item.len <= 32
    ensures r.net == Net(r.net, r.len)
  {
    NetIdempotent(item.addr, item.len);
    Route(Net(item.addr, item.len), item.len)
  }

  /** The group-less blocks that gain a route longer than /24. */
  function NewGroupBlocks(e: Engine, batch: seq<Item>): set<nat>
    requires GoodLengths(batch)
  {
    set i | 0 <= i < |batch| && batch[i].len > 24 && RouteOf(batch[i]).net / 256 !in e.groups
      :: RouteOf(batch[i]).net / 256
  }

  /** The shadow and counts after every route of the batch is recorded. */
  function InsertAll(e: Engine, batch: seq<Item>): Engine
    requires GoodLengths(batch)
  {
    if batch == [] then e
    else
      var before := InsertAll(e, batch[..|batch| - 1]);
      var item := batch[|batch| - 1];
      if item.len == 0 then before.(shadow := before.shadow[RouteOf(item) := item.entry])
      else Insert(before, RouteOf(item), item.entry)
  }

  function DefaultWrites(batch: seq<Item>): seq<SlotWrite>
  {
    if batch == [] then []
    else
      var item := batch[|batch| - 1];
      DefaultWrites(batch[..|batch| - 1]) + if item.len == 0 then [Default(PackEntry(item.entry))] else []
  }

  /** The blocks some route of the batch covers. */
  function AffectedSet(batch: seq<Item>): (blks: set<nat>)
    requires GoodLengths(batch)
    ensures forall b <- blks :: b < BLOCKS
  {
    if batch == [] then {}
    else
      var item := batch[|batch| - 1];
      AffectedSet(batch[..|batch| - 1]) + if item.len == 0 then {} else RangeSet(RouteOf(item))
  }

  function RangeSet(r: Route): (blks: set<nat>)
    requires r.net == Net(r.net, r.len)
    ensures forall b <- blks :: b < BLOCKS
  {
    BlocksInTable(r.net, r.len);
    set b <- Range(FirstBlock(r.net), EndBlock(r.net, r.len))
  }

  /** The elements of a set from `lo` up to, not including, `hi`, ascending. */
  function Ascending(s: set<nat>, lo: nat, hi: nat): seq<nat>
    requires lo <= hi
    decreases hi - lo
  {
    if lo == hi then []
    else if lo in s then [lo] + Ascending(s, lo + 1, hi)
    else Ascending(s, lo + 1, hi)
  }

  lemma {:induction false} AscendingElements(s: set<nat>, lo: nat, hi: nat, b: nat)
    requires lo <= hi
    ensures b in Ascending(s, lo, hi) <==> b in s && lo <= b < hi
    decreases hi - lo
  {
    if lo < hi {
      AscendingElements(s, lo + 1, hi, b);
    }
  }

  predicate Ordered(r: seq<nat>, lo: nat, hi: nat)
  {
    && (forall i | 0 <= i < |r| :: lo <= r[i] < hi)
    && (forall i, j | 0 <= i < j < |r| :: r[i] < r[j])
  }

  lemma {:induction false} AscendingOrdered(s: set<nat>, lo: nat, hi: nat)
    requires lo <= hi
    ensures Ordered(Ascending(s, lo, hi), lo, hi)
    decreases hi - lo
  {
    if lo < hi {
      AscendingOrdered(s, lo + 1, hi);
      var rest := Ascending(s, lo + 1, hi);
      if lo in s {
        assert forall i | 0 < i < |rest| + 1 :: ([lo] + rest)[i] == rest[i - 1];
      }
    }
  }

  /** The affected blocks of a batch, in the order they are synchronised. */
  function BulkBlocks(batch: seq<Item>): (blks: seq<nat>)
    requires GoodLengths(batch)
    ensures InTable(blks)
  {
    AscendingOrdered(AffectedSet(batch), 0, BLOCKS);
    Ascending(AffectedSet(batch), 0, BLOCKS)
  }

  function Available(e: Engine): nat
  {
    |e.free| + |e.quarantine|
  }

  function RouteAddBulk(e: Engine, batch: seq<Item>): Outcome
  {
    if !GoodLengths(batch) then Outcome(e, None)
    else if |NewGroupBlocks(e, batch)| > Available(e) then Outcome(e, None)
    else
      var synced := SyncAll(InsertAll(e, batch), BulkBlocks(batch));
      if synced.plan == None then synced
      else Outcome(synced.engine, Some(DefaultWrites(batch) + synced.plan.value))
  }
}
