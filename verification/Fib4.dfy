/** The forwarding tables and the lock-free reader's view of them. */
module Fib4 {
  import opened Prefix
  import opened FibWord
  import opened Wrappers
  import opened Dir24

  datatype Tables = Tables(tbl24: seq<Word>, tbl8: seq<Word>, default4: Word)

  function ZeroTables(groups: nat): Tables
  {
    Tables(seq(BLOCKS, _ => 0), seq(groups * 256, _ => 0), 0)
  }

  predicate Sized(t: Tables, groups: nat)
  {
    |t.tbl24| == BLOCKS && |t.tbl8| == groups * 256
  }

  predicate InBounds(t: Tables, w: SlotWrite)
  {
    match w
    case Tbl24(blk, _) => blk < |t.tbl24|
    case Tbl8(slot, _) => slot < |t.tbl8|
    case Default(_) => true
  }

  /** One map update. A write out of bounds is refused and changes nothing. */
  function Apply(t: Tables, w: SlotWrite): Tables
  {
    if !InBounds(t, w) then t
    else
      match w
      case Tbl24(blk, word) => t.(tbl24 := t.tbl24[blk := word])
      case Tbl8(slot, word) => t.(tbl8 := t.tbl8[slot := word])
      case Default(word) => t.(default4 := word)
  }

  function ApplyAll(t: Tables, plan: seq<SlotWrite>): (t': Tables)
    ensures |t'.tbl24| == |t.tbl24| && |t'.tbl8| == |t.tbl8|
  {
    if plan == [] then t
    else Apply(ApplyAll(t, plan[..|plan| - 1]), plan[|plan| - 1])
  }

  lemma ApplyOne(t: Tables, w: SlotWrite)
    ensures ApplyAll(t, [w]) == Apply(t, w)
  {
    assert [w][..0] == [];
  }

  lemma {:induction false} ApplyConcat(t: Tables, p: seq<SlotWrite>, q: seq<SlotWrite>)
    ensures ApplyAll(t, p + q) == ApplyAll(ApplyAll(t, p), q)
    decreases |q|
  {
    if q == [] {
      assert p + q == p;
    } else {
      ApplyConcat(t, p, q[..|q| - 1]);
      assert (p + q)[..|p + q| - 1] == p + q[..|q| - 1];
    }
  }

  /** A prefix of a concatenated plan is a prefix of its first part, or all of that and a prefix of the second. */
  lemma ApplyPrefix(t: Tables, p: seq<SlotWrite>, q: seq<SlotWrite>, k: nat)
    requires k <= |p + q|
    ensures k <= |p| ==> ApplyAll(t, (p + q)[..k]) == ApplyAll(t, p[..k])
    ensures k >= |p| ==> ApplyAll(t, (p + q)[..k]) == ApplyAll(ApplyAll(t, p), q[..k - |p|])
  {
    if k <= |p| {
      assert (p + q)[..k] == p[..k];
    }
    if k >= |p| {
      assert (p + q)[..k] == p + q[..k - |p|];
      ApplyConcat(t, p, q[..k - |p|]);
    }
  }

  // ---- the reader ----

  /** The two loads: the block's word, then its group's slot when the word points at one. */
  function Load8(t: Tables, w24: Word, addr: U32): Option<Word>
  {
    if !IsGroup(w24) then Some(w24)
    else
      var slot := IdOf(w24) * 256 + addr % 256;
      if slot < |t.tbl8| then Some(t.tbl8[slot]) else None
  }

  /** The route word of `addr`: both loads from the same table state. */
  function View(t: Tables, addr: U32): Option<Word>
  {
    if addr / 256 < |t.tbl24| then Load8(t, t.tbl24[addr / 256], addr) else None
  }

  /** The fall-through of an invalid word to the default route. */
  function Finish(w: Option<Word>, default4: Word): Option<FibEntry>
  {
    if w == None then None
    else if IsValid(w.value) then Some(Unpack(w.value))
    else if IsValid(default4) then Some(Unpack(default4))
    else None
  }

  function Fib4Lookup(t: Tables, addr: U32): Option<FibEntry>
  {
    Finish(View(t, addr), t.default4)
  }

  /** The same answer, as longest-prefix match on the routes says it. */
  function Meaning(shadow: Shadow, addr: U32): Option<FibEntry>
  {
    match Lpm(shadow, addr)
    case None => None
    case Some(e) => Some(Truncated(e))
  }

  // ---- longest-prefix match means what it says ----

  predicate Covers(shadow: Shadow, addr: U32, len: Len)
  {
    Route(Net(addr, len), len) in shadow
  }

  /** `r` is the entry of the longest covering route of length `lo..=hi`, or `None` when there is none. */
  ghost predicate LongestMatch(shadow: Shadow, addr: U32, hi: Len, lo: Len, r: Option<FibEntry>)
  {
    match r
    case None => forall l: Len | lo <= l <= hi :: !Covers(shadow, addr, l)
    case Some(e) =>
      exists len: Len :: lo <= len <= hi && Covers(shadow, addr, len) && shadow[Route(Net(addr, len), len)] == e
                      && forall l: Len | len < l <= hi :: !Covers(shadow, addr, l)
  }

  /** The search finds the longest match, and nothing else is one. */
  lemma {:induction false} BestIsLongestMatch(shadow: Shadow, addr: U32, hi: Len, lo: Len, r: Option<FibEntry>)
    ensures LongestMatch(shadow, addr, hi, lo, r) <==> r == Best(shadow, addr, hi, lo)
    decreases hi
  {
    if hi < lo {
    } else if Covers(shadow, addr, hi) {
      var e := shadow[Route(Net(addr, hi), hi)];
      assert LongestMatch(shadow, addr, hi, lo, Some(e));
      if LongestMatch(shadow, addr, hi, lo, r) && r.Some? {
        var len: Len :| lo <= len <= hi && Covers(shadow, addr, len) && shadow[Route(Net(addr, len), len)] == r.value
          && forall l: Len | len < l <= hi :: !Covers(shadow, addr, l);
        assert len == hi;
      }
    } else if hi > 0 {
      BestIsLongestMatch(shadow, addr, hi - 1, lo, r);
      if r == Best(shadow, addr, hi, lo) && r.Some? {
        var len: Len :| lo <= len <= hi - 1 && Covers(shadow, addr, len) &&
          shadow[Route(Net(addr, len), len)] == r.value
          && forall l: Len | len < l <= hi - 1 :: !Covers(shadow, addr, l);
        assert forall l: Len | len < l <= hi :: !Covers(shadow, addr, l);
      }
    }
  }

  /** A search over fewer lengths followed by the rest is one search. */
  lemma {:induction false} BestSplit(shadow: Shadow, addr: U32, hi: Len, mid: Len, lo: Len)
    requires lo < mid <= hi
    ensures Best(shadow, addr, hi, mid).Some? ==> Best(shadow, addr, hi, lo) == Best(shadow, addr, hi, mid)
    ensures Best(shadow, addr, hi, mid).None? ==> Best(shadow, addr, hi, lo) == Best(shadow, addr, mid - 1, lo)
    decreases hi
  {
    if !Covers(shadow, addr, hi) && hi > mid {
      BestSplit(shadow, addr, hi - 1, mid, lo);
    }
  }

  /** Words that hold the right slot and default decode to longest-prefix match. */
  lemma FinishIsMeaning(shadow: Shadow, addr: U32)
    ensures Finish(Some(SlotWord(shadow, addr)), DefaultWord(shadow)) == Meaning(shadow, addr)
  {
    BestSplit(shadow, addr, 32, 1, 0);
    var high, low := Best(shadow, addr, 32, 1), Best(shadow, addr, 0, 0);
    assert Net(addr, 0) == Net(0, 0) by { NetOfDefault(addr); }
    assert Best(shadow, 0, 0, 0) == low;
    if high.Some? {
      EntryWord(high.value);
    }
    if low.Some? {
      EntryWord(low.value);
    }
  }

  /** A slot word decides the lookup alone exactly when a route longer than the default covers the address. */
  lemma CoveredLookup(shadow: Shadow, a: U32, d: Word)
    ensures IsValid(SlotWord(shadow, a)) <==> Best(shadow, a, 32, 1).Some?
    ensures Best(shadow, a, 32, 1).Some? ==> Finish(Some(SlotWord(shadow, a)), d) == Meaning(shadow, a)
  {
    FinishIsMeaning(shadow, a);
    match Best(shadow, a, 32, 1) {
      case None =>
      case Some(entry) => EntryWord(entry);
    }
  }

  lemma NetOfDefault(addr: U32)
    ensures Net(addr, 0) == 0
  {
    TableSizes();
    ShlBounds(0, addr, 32);
    ShlAdd(0, 1, 32);
    ShlAdd(0, 0, 32);
  }
}
