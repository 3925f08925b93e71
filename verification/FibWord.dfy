/** The packed DIR-24-8 word: VALID(1) | TBL8(1) | flags(4) | nexthop or group(26). */
module FibWord {
  import opened Wrappers

  const VALID := 0x8000_0000
  const TBL8 := 0x4000_0000
  const FLAG_UNIT := 0x400_0000 // 1 << 26, one past the id mask as well
  const MAX_GROUPS := 0x100_0000 // group * 256 + 255 still fits 32 bits

  type Word = U32

  datatype FibEntry = FibEntry(nexthopId: U32, flags: U32)

  /** What a forwarding lookup yields: the id cut to 26 bits and the flags cut to 4. */
  function Truncated(e: FibEntry): FibEntry
  {
    FibEntry(e.nexthopId % FLAG_UNIT, e.flags % 16)
  }

  function PackEntry(e: FibEntry): (w: Word)
  {
    VALID + e.flags % 16 * FLAG_UNIT + e.nexthopId % FLAG_UNIT
  }

  function PackGroup(g: nat): (w: Word)
  {
    VALID + TBL8 + g % FLAG_UNIT
  }

  predicate IsValid(w: Word) { w / VALID % 2 == 1 }

  predicate IsGroup(w: Word) { w / TBL8 % 2 == 1 }

  function IdOf(w: Word): nat { w % FLAG_UNIT }

  function Unpack(w: Word): FibEntry
  {
    FibEntry(IdOf(w), w / FLAG_UNIT % 16)
  }

  /** An entry word reads back as the entry, and is never taken for a group pointer. */
  lemma EntryWord(e: FibEntry)
    ensures var w := PackEntry(e); IsValid(w) && !IsGroup(w) && Unpack(w) == Truncated(e)
  {
    var f, i := e.flags % 16, e.nexthopId % FLAG_UNIT;
    var w := PackEntry(e);
    assert w / FLAG_UNIT == 32 + f;
  }

  /** A group word is always a group pointer, and names its group, the index cut to 26 bits. */
  lemma GroupWord(g: nat)
    ensures var w := PackGroup(g); IsValid(w) && IsGroup(w) && IdOf(w) == g % FLAG_UNIT
  {
  }
}
