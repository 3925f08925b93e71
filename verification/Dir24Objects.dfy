/** The engine object: its fields are updated in place, its plans are pushed word by word. Every method
    is the function of the same name in `Dir24` on the object's state. */
module Dir24Objects {
  import opened Prefix
  import opened FibWord
  import opened Wrappers
  import opened Dir24
  import opened Dir24Pool
  import opened Dir24Routes
  import opened Dir24Theorems
  import opened Dir24Bulk
  import opened Dir24Runs
  import opened Fib4

  class Dir24Engine {
    var shadow: Shadow
    var longCount: map<nat, nat>
    var groups: map<nat, nat>
    var free: seq<nat>
    var quarantine: seq<nat>
    ghost const poolSize: nat

    ghost function State(): Engine
      reads this
    {
      Engine(shadow, longCount, groups, free, quarantine)
    }

    ghost predicate Valid()
      reads this
    {
      Dir24Pool.Valid(State(), poolSize)
    }

    constructor (n: nat)
      ensures State() == New(n) && poolSize == n && Valid()
    {
      shadow, longCount, groups, quarantine := map[], map[], map[], [];
      free := seq(n, i requires 0 <= i < n => n - 1 - i);
      poolSize := n;
      new;
      NewIsValid(n);
    }

    /** The word of the most specific route of length 1 to `hi` covering `addr`. */
    method BestWord(addr: U32, hi: Len) returns (w: Word)
      ensures w == WordOf(Best(shadow, addr, hi, 1))
    {
      var len: int := hi;
      while len >= 1
        invariant 0 <= len <= hi
        invariant Best(shadow, addr, hi, 1) == Best(shadow, addr, len, 1)
      {
        var r := Route(Net(addr, len), len);
        if r in shadow {
          return PackEntry(shadow[r]);
        }
        len := len - 1;
      }
      return 0;
    }

    method SlotWord(blk: nat, low: nat) returns (w: Word)
      requires blk < BLOCKS && low < 256
      ensures w == Dir24.SlotWord(shadow, blk * 256 + low)
    {
      w := BestWord(blk * 256 + low, 32);
    }

    method BlockCoverWord(blk: nat) returns (w: Word)
      requires blk < BLOCKS
      ensures w == CoverWord(shadow, blk)
    {
      w := BestWord(blk * 256, 24);
    }

    method AllocGroup() returns (g: Option<nat>)
      modifies this`free, this`quarantine
      ensures match Dir24.AllocGroup(old(State()))
              case None => g == None && State() == old(State())
              case Some((h, e)) => g == Some(h) && State() == e
    {
      if |free| > 0 {
        g := Some(free[|free| - 1]);
        free := free[..|free| - 1];
      } else if |quarantine| > 0 {
        g := Some(quarantine[0]);
        quarantine := quarantine[1..];
      } else {
        g := None;
      }
    }

    method FillGroup(blk: nat, g: nat, out: seq<SlotWrite>) returns (out': seq<SlotWrite>)
      requires blk < BLOCKS
      ensures out' == out + Fill(shadow, blk, g)
    {
      out' := out;
      ghost var fill := Fill(shadow, blk, g);
      for low := 0 to 256
        invariant out' == out + fill[..low]
      {
        var w := SlotWord(blk, low);
        assert fill[..low + 1] == fill[..low] + [Tbl8(g * 256 + low, w)];
        out' := out' + [Tbl8(g * 256 + low, w)];
      }
      assert fill[..256] == fill;
    }

    /** Recompute one block and push the writes that bring the tables to it. */
    method SyncBlock(blk: nat, out: seq<SlotWrite>) returns (ok: bool, out': seq<SlotWrite>)
      requires blk < BLOCKS
      modifies this`groups, this`free, this`quarantine
      ensures var o := Dir24.SyncBlock(old(State()), blk);
        State() == o.engine && ok == o.plan.Some? && (ok ==> out' == out + o.plan.value)
    {
      ok, out' := true, out;
      var hasLong := blk in longCount && longCount[blk] > 0;
      if hasLong {
        if blk in groups {
          out' := FillGroup(blk, groups[blk], out');
        } else {
          var g := AllocGroup();
          if g == None {
            return false, out;
          }
          groups := groups[blk := g.value];
          out' := FillGroup(blk, g.value, out');
          out' := out' + [Tbl24(blk, PackGroup(g.value))];
        }
      } else {
        var cover := BlockCoverWord(blk);
        out' := out' + [Tbl24(blk, cover)];
        if blk in groups {
          var g := groups[blk];
          groups := groups - {blk};
          quarantine := quarantine + [g];
          Recycle();
        }
      }
    }

    /** Past 64 the oldest quarantined groups become allocatable again. */
    method Recycle()
      modifies this`free, this`quarantine
      ensures State() == Drain(old(State()))
    {
      while |quarantine| > QUARANTINE_DEPTH
        invariant Drain(State()) == Drain(old(State()))
        decreases |quarantine|
      {
        var g := quarantine[0];
        quarantine := quarantine[1..];
        free := free + [g];
      }
    }

    method SyncAll(blks: seq<nat>, out: seq<SlotWrite>) returns (plan: Option<seq<SlotWrite>>)
      requires InTable(blks)
      modifies this`groups, this`free, this`quarantine
      ensures var o := Dir24.SyncAll(old(State()), blks);
        State() == o.engine && plan == if o.plan == None then None else Some(out + o.plan.value)
    {
      var acc := out;
      for i := 0 to |blks|
        invariant shadow == old(shadow) && longCount == old(longCount)
        invariant var o, rest := Dir24.SyncAll(old(State()), blks), Dir24.SyncAll(State(), blks[i..]);
          && o.engine == rest.engine && (o.plan == None <==> rest.plan == None)
          && (o.plan.Some? ==> out + o.plan.value == acc + rest.plan.value)
      {
        assert blks[i..][0] == blks[i] && blks[i..][1..] == blks[i + 1..];
        var ok, acc' := SyncBlock(blks[i], acc);
        if !ok {
          return None;
        }
        acc := acc';
      }
      assert blks[|blks|..] == [] && acc + [] == acc;
      return Some(acc);
    }

    /** Record a route in the shadow; a new one longer than /24 raises its block's count. */
    method Record(r: Route, entry: FibEntry)
      modifies this`shadow, this`longCount
      ensures State() == Insert(old(State()), r, entry)
    {
      var isNew := r !in shadow;
      shadow := shadow[r := entry];
      if r.len > 24 && isNew {
        var blk := r.net / 256;
        longCount := longCount[blk := (if blk in longCount then longCount[blk] else 0) + 1];
      }
    }

    /** Install or replace a route. */
    method RouteAdd(addr: U32, len: nat, entry: FibEntry) returns (plan: Option<seq<SlotWrite>>)
      requires Valid()
      modifies this
      ensures Outcome(State(), plan) == Dir24.RouteAdd(old(State()), addr, len, entry)
      ensures Valid() && (plan == None ==> State() == old(State()))
    {
      RouteAddAtomic(State(), poolSize, addr, len, entry);
      if len > 32 {
        return None;
      }
      var r := Route(Net(addr, len), len);
      if len == 0 {
        shadow := shadow[r := entry];
        return Some([Default(PackEntry(entry))]);
      }
      NetIdempotent(addr, len);
      var blk := r.net / 256;
      if len > 24 && blk !in groups && |free| == 0 && |quarantine| == 0 {
        return None;
      }
      Record(r, entry);
      ghost var o := Dir24.SyncAll(State(), AffectedBlocks(r.net, len));
      assert o.plan.Some? ==> [] + o.plan.value == o.plan.value;
      plan := SyncAll(AffectedBlocks(r.net, len), []);
    }

    /** Remove a route; idempotent. */
    method RouteDel(addr: U32, len: nat) returns (plan: Option<seq<SlotWrite>>)
      requires Valid()
      modifies this
      ensures Outcome(State(), plan) == Dir24.RouteDel(old(State()), addr, len)
      ensures Valid() && (plan == None ==> State() == old(State()))
    {
      RouteDelAtomic(State(), poolSize, addr, len);
      if len > 32 {
        return None;
      }
      var r := Route(Net(addr, len), len);
      if r !in shadow {
        return Some([]);
      }
      shadow := shadow - {r};
      if len == 0 {
        return Some([Default(0)]);
      }
      NetIdempotent(addr, len);
      var blk := r.net / 256;
      if len > 24 && blk in longCount {
        var count := longCount[blk] - 1;
        if count == 0 {
          longCount := longCount - {blk};
        } else {
          longCount := longCount[blk := count];
        }
      }
      assert State() == Remove(old(State()), r);
      ghost var o := Dir24.SyncAll(State(), AffectedBlocks(r.net, len));
      assert o.plan.Some? ==> [] + o.plan.value == o.plan.value;
      plan := SyncAll(AffectedBlocks(r.net, len), []);
    }

    /** The whole-batch capacity check. */
    method BatchFits(batch: seq<Item>) returns (ok: bool)
      ensures ok == !BulkRefused(State(), batch)
    {
      var blocks: set<nat> := {};
      for i := 0 to |batch|
        invariant GoodLengths(batch[..i]) && blocks == NewGroupBlocks(State(), batch[..i])
      {
        var item := batch[i];
        assert batch[..i + 1] == batch[..i] + [item];
        if item.len > 32 {
          assert !GoodLengths(batch);
          return false;
        }
        NewGroupBlocksStep(State(), batch[..i + 1]);
        if item.len > 24 {
          var blk := Net(item.addr, item.len) / 256;
          if blk !in groups {
            blocks := blocks + {blk};
          }
        }
        assert batch[..i + 1][..i] == batch[..i];
      }
      assert batch[..|batch|] == batch;
      ok := |blocks| <= |free| + |quarantine|;
    }

    /** Install or replace many routes in one plan. */
    method RouteAddBulk(batch: seq<Item>) returns (plan: Option<seq<SlotWrite>>)
      requires Valid()
      modifies this
      ensures Outcome(State(), plan) == Dir24.RouteAddBulk(old(State()), batch)
      ensures Valid() && (plan == None ==> State() == old(State()))
    {
      BulkAtomic(State(), poolSize, batch);
      var fits := BatchFits(batch);
      if !fits {
        return None;
      }
      var out, affected := RecordBatch(batch);
      AscendingOrdered(affected, 0, BLOCKS);
      plan := SyncAll(Ascending(affected, 0, BLOCKS), out);
    }

    /** Record every route of a checked batch; gather the default writes and the affected blocks. */
    method RecordBatch(batch: seq<Item>) returns (out: seq<SlotWrite>, affected: set<nat>)
      requires GoodLengths(batch)
      modifies this`shadow, this`longCount
      ensures State() == InsertAll(old(State()), batch)
      ensures out == DefaultWrites(batch) && affected == AffectedSet(batch)
    {
      out, affected := [], {};
      for i := 0 to |batch|
        invariant State() == InsertAll(old(State()), batch[..i])
        invariant out == DefaultWrites(batch[..i]) && affected == AffectedSet(batch[..i])
      {
        var item := batch[i];
        var r := RouteOf(item);
        assert batch[..i + 1][..i] == batch[..i] && batch[..i + 1][i] == item;
        if item.len == 0 {
          shadow := shadow[r := item.entry];
          out := out + [Default(PackEntry(item.entry))];
        } else {
          Record(r, item.entry);
          affected := affected + RangeSet(r);
        }
      }
      assert batch[..|batch|] == batch;
    }
  }

  // ---- the data plane: the engine with the maps it drives ----

  class Dataplane {
    const engine: Dir24Engine
    const tbl24: array<Word>
    const tbl8: array<Word>
    var default4: Word

    ghost function Tables(): Tables
      reads this, tbl24, tbl8
    {
      Fib4.Tables(tbl24[..], tbl8[..], default4)
    }

    /** The tables hold what the engine's routes mean. */
    ghost predicate Synced()
      reads this, engine, tbl24, tbl8
    {
      && tbl24 != tbl8 && engine.Valid()
      && Agree(engine.State(), Tables(), engine.poolSize)
    }

    constructor (n: nat)
      requires n <= MAX_GROUPS
      ensures Synced() && fresh(engine) && fresh(tbl24) && fresh(tbl8)
      ensures engine.State() == New(n)
    {
      engine := new Dir24Engine(n);
      tbl24 := new Word[BLOCKS](_ => 0);
      tbl8 := new Word[n * 256](_ => 0);
      default4 := 0;
      new;
      NewAgrees(n);
      assert tbl24[..] == ZeroTables(n).tbl24 && tbl8[..] == ZeroTables(n).tbl8;
    }

    /** Apply a plan in order; a write out of bounds stops it with an error. */
    method Dir24Apply(plan: seq<SlotWrite>) returns (ok: bool)
      requires tbl24 != tbl8
      modifies this, tbl24, tbl8
      ensures (forall w | w in plan :: InBounds(old(Tables()), w)) ==> ok && Tables() == ApplyAll(old(Tables()), plan)
      ensures !ok ==> exists k :: 0 <= k < |plan| && !InBounds(old(Tables()), plan[k])
                               && Tables() == ApplyAll(old(Tables()), plan[..k])
    {
      for i := 0 to |plan|
        invariant Tables() == ApplyAll(old(Tables()), plan[..i])
      {
        assert plan[..i + 1][..i] == plan[..i];
        assert plan[i] in plan;
        ghost var before := Tables();
        match plan[i]
        case Tbl24(blk, word) =>
          if blk >= tbl24.Length {
            return false;
          }
          tbl24[blk] := word;
          assert tbl24[..] == before.tbl24[blk := word];
          assert tbl8[..] == before.tbl8;
        case Tbl8(slot, word) =>
          if slot >= tbl8.Length {
            return false;
          }
          tbl8[slot] := word;
          assert tbl8[..] == before.tbl8[slot := word];
          assert tbl24[..] == before.tbl24;
        case Default(word) =>
          default4 := word;
      }
      assert plan[..|plan|] == plan;
      return true;
    }

    /** The reader, with nothing in between its loads. */
    method Lookup(addr: U32) returns (r: Option<FibEntry>)
      ensures r == Fib4Lookup(Tables(), addr)
    {
      if addr / 256 >= tbl24.Length {
        return None;
      }
      var w := tbl24[addr / 256];
      if IsGroup(w) {
        var slot := IdOf(w) * 256 + addr % 256;
        if slot >= tbl8.Length {
          return None;
        }
        w := tbl8[slot];
      }
      if !IsValid(w) {
        w := default4;
        if !IsValid(w) {
          return None;
        }
      }
      return Some(Unpack(w));
    }

    /** Run one operation on the engine and program its plan. Afterwards every lookup is
        longest-prefix match again: over the new routes on success, over the old ones on an error. */
    method Perform(op: Op) returns (ok: bool)
      requires Synced()
      modifies this, engine, tbl24, tbl8
      ensures Synced() && ok == !Refused(old(engine.State()), op)
      ensures engine.shadow == if ok then Routes(old(engine.shadow), op) else old(engine.shadow)
      ensures forall a: U32 :: Fib4Lookup(Tables(), a) == Meaning(engine.shadow, a)
    {
      ghost var e, t := engine.State(), Tables();
      DoAtomic(e, engine.poolSize, op);
      var plan: Option<seq<SlotWrite>>;
      match op {
        case Add(addr, len, entry) => plan := engine.RouteAdd(addr, len, entry);
        case Del(addr, len) => plan := engine.RouteDel(addr, len);
        case AddBulk(batch) => plan := engine.RouteAddBulk(batch);
      }
      ok := plan.Some?;
      if ok {
        DoAgrees(e, t, engine.poolSize, op);
        var applied := Dir24Apply(plan.value);
      }
      forall a: U32 ensures Fib4Lookup(Tables(), a) == Meaning(engine.shadow, a) {
        AgreeIsMeaning(engine.State(), Tables(), engine.poolSize, a);
      }
    }
  }
}
