/** The word fields of `FibWord`, read and written with masks and shifts on 32-bit vectors. */
module FibWordBits {
  import opened FibWord
  import opened Bits

  lemma LowBit(w: bv32)
    requires w <= 3
    ensures (w & 1 == 1) == (w as int % 2 == 1)
  {
  }

  lemma Shift30(w: bv32)
    ensures (w >> 30) as int == w as int / 0x4000_0000
  {
  }

  lemma Shift31(w: bv32)
    ensures (w >> 31) as int == w as int / 0x8000_0000
  {
  }

  lemma TestBit30(w: bv32)
    ensures w >> 30 <= 3
    ensures (w & 0x4000_0000 != 0) == ((w >> 30) & 1 == 1)
  {
  }

  lemma TestBit31(w: bv32)
    ensures w >> 31 <= 3
    ensures (w & 0x8000_0000 != 0) == ((w >> 31) & 1 == 1)
  {
  }

  /** `w & FIBW_ID_MASK` is the id field. */
  lemma MaskedId(w: bv32)
    ensures IdOf(w as int) == (w & 0x3ff_ffff) as int
  {
    SplitAt26(w);
  }

  /** `w >> FIBW_FLAGS_SHIFT & FIBW_FLAGS_MASK` is the flags field. */
  lemma MaskedFlags(w: bv32)
    ensures w as int / FLAG_UNIT % 16 == ((w >> 26) & 0xf) as int
  {
    SplitAt26(w);
    Low4(w >> 26);
  }

  /** `fibw_unpack` with its masks and shift is `Unpack`. */
  lemma MaskedUnpack(w: bv32)
    ensures Unpack(w as int) == FibEntry((w & 0x3ff_ffff) as int, ((w >> 26) & 0xf) as int)
  {
    MaskedId(w);
    MaskedFlags(w);
  }

  lemma MaskedTbl8(w: bv32)
    ensures IsGroup(w as int) == (w & 0x4000_0000 != 0)
  {
    var v := w >> 30;
    Shift30(w);
    TestBit30(w);
    LowBit(v);
  }

  lemma MaskedValid(w: bv32)
    ensures IsValid(w as int) == (w & 0x8000_0000 != 0)
  {
    var v := w >> 31;
    Shift31(w);
    TestBit31(w);
    LowBit(v);
  }

  lemma EntryBits(id: bv32, flags: bv32)
    requires flags <= 0xf && id <= 0x3ff_ffff
    ensures (0x8000_0000 | (flags << 26) | id) as int == VALID + flags as int * FLAG_UNIT + id as int
  {
  }

  lemma GroupBits(g: bv32)
    ensures (0xc000_0000 | (g & 0x3ff_ffff)) as int == VALID + TBL8 + (g & 0x3ff_ffff) as int
  {
  }

  lemma MasksBound(id: bv32, flags: bv32)
    ensures id & 0x3ff_ffff <= 0x3ff_ffff && flags & 0xf <= 0xf
  {
  }

  /** The packers' or-ed fields are the sums above. */
  lemma MaskedEntry(id: bv32, flags: bv32)
    ensures PackEntry(FibEntry(id as int, flags as int))
         == (0x8000_0000 | ((flags & 0xf) << 26) | (id & 0x3ff_ffff)) as int
  {
    var low, nibble := id & 0x3ff_ffff, flags & 0xf;
    MasksBound(id, flags);
    assert low as int == id as int % FLAG_UNIT by { SplitAt26(id); }
    assert nibble as int == flags as int % 16 by { Low4(flags); }
    EntryBits(low, nibble);
  }

  lemma MaskedGroup(g: bv32)
    ensures PackGroup(g as int) == (0xc000_0000 | (g & 0x3ff_ffff)) as int
  {
    SplitAt26(g);
    GroupBits(g);
  }
}
