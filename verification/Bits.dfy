/** 32-bit vectors cut in two, as numbers: each cut narrow enough for the solver. */
module Bits {

  lemma SplitAt26(w: bv32)
    ensures (w >> 26) as int == w as int / 0x400_0000
    ensures w as int == (w >> 26) as int * 0x400_0000 + (w & 0x3ff_ffff) as int
  {
  }

  lemma SplitAt20(w: bv32)
    requires w <= 0x3ff_ffff
    ensures w as int == (w >> 20) as int * 0x10_0000 + (w & 0xf_ffff) as int
  {
  }

  lemma SplitAt12(w: bv32)
    requires w <= 0xf_ffff
    ensures w as int == (w >> 12) as int * 4096 + (w & 0xfff) as int
  {
  }

  lemma SplitAt4(w: bv32)
    requires w <= 0xfff
    ensures w as int == (w >> 4) as int * 16 + (w & 0xf) as int
  {
  }

  lemma EightBits(w: bv32)
    requires w <= 0xff
    ensures w as int < 256
  {
  }

  lemma TwelveBits(w: bv32)
    requires w <= 0xfff
    ensures w as int < 4096
  {
  }

  lemma FourBits(w: bv32)
    requires w <= 0xf
    ensures w as int < 16
  {
  }

  /** A narrower mask under a wider one. */
  lemma Narrow(w: bv32)
    ensures w & 0x3ff_ffff <= 0x3ff_ffff && (w & 0x3ff_ffff) & 0xf_ffff == w & 0xf_ffff
    ensures w & 0xf_ffff <= 0xf_ffff && (w & 0xf_ffff) & 0xfff == w & 0xfff && (w & 0xf_ffff) >> 12 <= 0xff
    ensures w & 0xfff <= 0xfff && (w & 0xfff) & 0xf == w & 0xf && w & 0xf <= 0xf
  {
  }

  lemma LastTwenty(x: nat, a: nat, b: nat, r: nat)
    requires x == a * 0x400_0000 + (b * 0x10_0000 + r) && r < 0x10_0000
    ensures x % 0x10_0000 == r
  {
    assert x == (a * 64 + b) * 0x10_0000 + r;
  }

  lemma LastFour(x: nat, a: nat, b: nat, c: nat, r: nat)
    requires x == a * 0x10_0000 + (b * 4096 + (c * 16 + r)) && r < 16
    ensures x % 16 == r
  {
    assert x == (a * 0x1_0000 + b * 256 + c) * 16 + r;
  }

  /** A vector's high twelve, middle eight and low twelve bits. */
  lemma Cut(w: bv32) returns (a: nat, b: nat, c: nat)
    ensures w as int == a * 0x10_0000 + (b * 4096 + c) && (w & 0xf_ffff) as int == b * 4096 + c
    ensures (w & 0xfff) as int == c && b < 256 && c < 4096
  {
    a := Cut26(w);
    b, c := CutMiddle(w);
  }

  lemma CutMiddle(w: bv32) returns (b: nat, c: nat)
    ensures (w & 0xf_ffff) as int == b * 4096 + c && (w & 0xfff) as int == c && b < 256 && c < 4096
  {
    Narrow(w);
    b, c := CutAt12(w & 0xf_ffff);
  }

  lemma CutAt12(v: bv32) returns (b: nat, c: nat)
    requires v <= 0xf_ffff
    ensures v as int == b * 4096 + c && (v & 0xfff) as int == c && b < 256 && c < 4096
  {
    var hi, lo := v >> 12, v & 0xfff;
    SplitAt12(v);
    assert hi <= 0xff && lo <= 0xfff;
    EightBits(hi);
    TwelveBits(lo);
    b, c := hi as int, lo as int;
  }

  lemma Cut26(w: bv32) returns (a: nat)
    ensures w as int == a * 0x10_0000 + (w & 0xf_ffff) as int
  {
    Narrow(w);
    SplitAt26(w);
    a := CutAt20(w & 0x3ff_ffff, w & 0xf_ffff, w as int, (w >> 26) as int);
  }

  lemma CutAt20(v: bv32, low: bv32, x: int, hi: nat) returns (a: nat)
    requires v <= 0x3ff_ffff && v & 0xf_ffff == low && x == hi * 0x400_0000 + v as int
    ensures x == a * 0x10_0000 + low as int
  {
    SplitAt20(v);
    var mid: nat := (v >> 20) as int;
    a := hi * 64 + mid;
    TwoCuts(x, hi, v as int, mid, low as int);
  }

  lemma TwoCuts(x: int, hi: int, rest: int, mid: int, low: int)
    requires x == hi * 0x400_0000 + rest && rest == mid * 0x10_0000 + low
    ensures x == (hi * 64 + mid) * 0x10_0000 + low
  {
  }

  lemma Low20(w: bv32)
    ensures (w & 0xf_ffff) as int == w as int % 0x10_0000
  {
    var a, b, c := Cut(w);
    LastTwenty(w as int, 0, a, b * 4096 + c);
  }

  lemma CutLow(w: bv32) returns (q: nat, r: nat)
    ensures (w & 0xfff) as int == q * 16 + r && (w & 0xf) as int == r && r < 16
  {
    q, r := ((w & 0xfff) >> 4) as int, (w & 0xf) as int;
    Narrow(w);
    SplitAt4(w & 0xfff);
    FourBits(w & 0xf);
  }

  lemma Low4(w: bv32)
    ensures (w & 0xf) as int == w as int % 16
  {
    var a, b, c := Cut(w);
    var q, r := CutLow(w);
    LastFour(w as int, a, b, q, r);
  }

  lemma OneBit(b: bv32)
    requires b <= 1
    ensures b == 1 <==> b as int == 1
  {
  }
}
