/** `mpls_lse` and `mpls_lse_unpack` with masks and shifts on 32-bit vectors, against the wire bytes. */
module MplsBits {
  import opened Packet
  import opened Mpls
  import opened Bits

  function Word(value: bv32, tc: bv32, s: bv32, ttl: bv32): bv32
  {
    ((value & 0xf_ffff) << 12) | ((tc & 0x7) << 9) | ((s & 0x1) << 8) | ttl
  }

  function Field(w: bv32, shift: bv6, mask: bv32): bv32
    requires shift <= 32
  {
    (w >> shift) & mask
  }

  /** The four fields read back: the label cut to 20 bits, the class to three, the flag to one. */
  lemma WordFields(value: bv32, tc: bv32, s: bv32, ttl: bv32)
    requires ttl <= 255
    ensures var w := Word(value, tc, s, ttl);
      && (w >> 12) == (value & 0xf_ffff) && Field(w, 9, 0x7) == (tc & 0x7)
      && Field(w, 8, 0x1) == (s & 0x1) && (w & 0xff) == ttl
  {
  }

  lemma ByteBounds(w: bv32)
    ensures (w >> 24) <= 255 && Field(w, 16, 0xff) <= 255 && Field(w, 8, 0xff) <= 255 && (w & 0xff) <= 255
  {
  }

  lemma FourBytes(w: bv32)
    ensures (w >> 24) as int < 256 && Field(w, 16, 0xff) as int < 256 && Field(w, 8, 0xff) as int < 256 &&
      (w & 0xff) as int < 256
  {
    ByteBounds(w);
    EightBits(w >> 24);
    EightBits(Field(w, 16, 0xff));
    EightBits(Field(w, 8, 0xff));
    EightBits(w & 0xff);
  }

  lemma HighNibble(b: bv32)
    requires b <= 255
    ensures (b >> 4) as int == b as int / 16
  {
  }

  lemma MiddleBits(b: bv32)
    requires b <= 255
    ensures (b >> 1) as int == b as int / 2
  {
  }

  lemma LowThree(b: bv32)
    requires b <= 255
    ensures (b & 0x7) as int == b as int % 8
  {
  }

  lemma LowOne(b: bv32)
    requires b <= 255
    ensures (b & 0x1) as int == b as int % 2
  {
  }

  lemma ThirdFields(b: bv32)
    requires b <= 255
    ensures (b >> 4) as int == b as int / 16 && ((b >> 1) & 0x7) as int == b as int / 2 % 8 &&
      (b & 0x1) as int == b as int % 2
  {
    HighNibble(b);
    MiddleBits(b);
    LowThree(b >> 1);
    LowOne(b);
  }

  lemma LabelSum(x: bv32, y: bv32, a: bv32, b: bv32, c: bv32)
    requires x <= 0xf_ffff && y == (x & 0xfff) && a == (x >> 12) && b == (y >> 4) && c == (y & 0xf)
    ensures x as int == a as int * 4096 + b as int * 16 + c as int
  {
    SplitAt12(x);
    SplitAt4(y);
  }

  lemma LabelNarrow(w: bv32)
    ensures var x := w >> 12;
      && x <= 0xf_ffff && (x >> 12) == (w >> 24)
      && ((x & 0xfff) >> 4) == Field(w, 16, 0xff) && ((x & 0xfff) & 0xf) == (Field(w, 8, 0xff) >> 4)
  {
  }

  lemma LabelBits(w: bv32)
    ensures (w >> 12) as int ==
      (w >> 24) as int * 4096 + Field(w, 16, 0xff) as int * 16 + (Field(w, 8, 0xff) >> 4) as int
  {
    LabelNarrow(w);
    LabelSum(w >> 12, (w >> 12) & 0xfff, w >> 24, Field(w, 16, 0xff), Field(w, 8, 0xff) >> 4);
  }

  lemma FlagBits(w: bv32)
    ensures Field(w, 9, 0x7) == ((Field(w, 8, 0xff) >> 1) & 0x7) && Field(w, 8, 0x1) == (Field(w, 8, 0xff) & 0x1)
  {
  }

  /** The fields of a word as numbers of its bytes. */
  lemma FieldsOfBytes(w: bv32)
    ensures var third := Field(w, 8, 0xff) as int;
      && (w >> 12) as int == (w >> 24) as int * 4096 + Field(w, 16, 0xff) as int * 16 + third / 16
      && Field(w, 9, 0x7) as int == third / 2 % 8 && Field(w, 8, 0x1) as int == third % 2
  {
    LabelBits(w);
    FlagBits(w);
    ByteBounds(w);
    ThirdFields(Field(w, 8, 0xff));
  }

  lemma BottomFlag(w: bv32)
    ensures Field(w, 8, 0x1) == 1 <==> Field(w, 8, 0x1) as int == 1
  {
    BitBound(w >> 8);
    OneBit(Field(w, 8, 0x1));
  }

  /** Reading the fields of a word with shifts and masks is `Unpack` on its big-endian bytes. */
  lemma UnpackIsWord(w: bv32)
    ensures var e := Unpack(WireBytes(w));
      && e.value == (w >> 12) as int && e.tc == Field(w, 9, 0x7) as int
      && (e.bottom <==> Field(w, 8, 0x1) == 1) && e.ttl == (w & 0xff) as int
  {
    FieldsOfBytes(w);
    BottomFlag(w);
  }

  /** The big-endian bytes of a word. */
  function WireBytes(w: bv32): (bs: Bytes)
    ensures |bs| == 4
  {
    FourBytes(w);
    [(w >> 24) as int, Field(w, 16, 0xff) as int, Field(w, 8, 0xff) as int, (w & 0xff) as int]
  }

  lemma BytesPack(w: bv32, e: Lse)
    requires e.value == (w >> 12) as int && e.tc == Field(w, 9, 0x7) as int
    requires (e.bottom <==> Field(w, 8, 0x1) == 1) && e.ttl == (w & 0xff) as int
    ensures WireBytes(w) == Pack(e)
  {
    UnpackIsWord(w);
    PackUnpack(WireBytes(w));
  }

  lemma BottomBit(s: bv32)
    requires s <= 255
    ensures s & 0x1 == 1 <==> s as int % 2 == 1
  {
    LowOne(s);
    BitBound(s);
    OneBit(s & 0x1);
  }

  lemma BitBound(s: bv32)
    ensures s & 0x1 <= 1
  {
  }

  /** The entry a word's arguments describe. */
  function EntryOf(value: nat, tc: nat, s: nat, ttl: Byte): Lse
  {
    Lse(LabelOf(value), tc % 8, s % 2 == 1, ttl)
  }

  lemma LabelNumber(w: bv32, value: bv32)
    requires (w >> 12) == (value & 0xf_ffff)
    ensures (w >> 12) as int == LabelOf(value as int)
  {
    Low20(value);
  }

  lemma ClassNumber(w: bv32, tc: bv32)
    requires Field(w, 9, 0x7) == (tc & 0x7) && tc <= 255
    ensures Field(w, 9, 0x7) as int == tc as int % 8
  {
    LowThree(tc);
  }

  lemma FlagNumber(w: bv32, s: bv32)
    requires Field(w, 8, 0x1) == (s & 0x1) && s <= 255
    ensures Field(w, 8, 0x1) == 1 <==> s as int % 2 == 1
  {
    BottomBit(s);
  }

  lemma TtlNumber(w: bv32, ttl: bv32) returns (l: Byte)
    requires (w & 0xff) == ttl && ttl <= 255
    ensures l == ttl as int && l == (w & 0xff) as int
  {
    EightBits(ttl);
    l := ttl as int;
  }

  lemma BytesPackOf(w: bv32, value: nat, tc: nat, s: nat, ttl: Byte)
    requires (w >> 12) as int == LabelOf(value) && Field(w, 9, 0x7) as int == tc % 8
    requires (Field(w, 8, 0x1) == 1 <==> s % 2 == 1) && (w & 0xff) as int == ttl
    ensures WireBytes(w) == Pack(EntryOf(value, tc, s, ttl))
  {
    BytesPack(w, EntryOf(value, tc, s, ttl));
  }

  lemma NumbersPack(w: bv32, value: bv32, tc: bv32, s: bv32, ttl: bv32) returns (l: Byte)
    requires (w >> 12) == (value & 0xf_ffff) && Field(w, 9, 0x7) == (tc & 0x7)
    requires Field(w, 8, 0x1) == (s & 0x1) && (w & 0xff) == ttl && tc <= 255 && s <= 255 && ttl <= 255
    ensures l == ttl as int && WireBytes(w) == Pack(EntryOf(value as int, tc as int, s as int, l))
  {
    l := TtlNumber(w, ttl);
    LabelNumber(w, value);
    ClassNumber(w, tc);
    FlagNumber(w, s);
    BytesPackOf(w, value as int, tc as int, s as int, l);
  }

  /** The bytes of the masked and shifted word are the packed entry: the label cut to 20 bits, the class to
      three, the flag to one. */
  lemma WordIsPack(value: bv32, tc: bv32, s: bv32, ttl: bv32) returns (l: Byte)
    requires tc <= 255 && s <= 255 && ttl <= 255
    ensures l == ttl as int
    ensures WireBytes(Word(value, tc, s, ttl)) == Pack(EntryOf(value as int, tc as int, s as int, l))
  {
    WordFields(value, tc, s, ttl);
    l := NumbersPack(Word(value, tc, s, ttl), value, tc, s, ttl);
  }
}
