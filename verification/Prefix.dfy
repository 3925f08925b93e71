/** IPv4 prefixes over the integers: what `mask`, `addr >> 8` and `blk << 8 | low` compute. */
module Prefix {
  import opened Wrappers

  const ADDRESSES := 0x1_0000_0000
  const BLOCKS := 0x100_0000

  type Len = x: int | 0 <= x <= 32

  /** `x >> k`. */
  function Shr(x: nat, k: nat): nat
  {
    if k == 0 then x else Shr(x / 2, k - 1)
  }

  /** `x << k`, on the integers. */
  function Shl(x: nat, k: nat): nat
  {
    if k == 0 then x else 2 * Shl(x, k - 1)
  }

  /** `addr & mask(len)`: the host bits cleared. A zero length clears every bit. */
  function Net(addr: U32, len: Len): (net: U32)
    ensures net <= addr
  {
    ShlBounds(Shr(addr, 32 - len), addr, 32 - len);
    Shl(Shr(addr, 32 - len), 32 - len)
  }

  /** The numbers that shift down to `x` are those from `x << k` up to `(x + 1) << k`. */
  lemma {:induction false} ShlBounds(x: nat, y: nat, k: nat)
    ensures Shr(y, k) == x <==> Shl(x, k) <= y < Shl(x + 1, k)
  {
    if k > 0 {
      ShlBounds(x, y / 2, k - 1);
    }
  }

  lemma {:induction false} ShlAdd(x: nat, y: nat, k: nat)
    ensures Shl(x + y, k) == Shl(x, k) + Shl(y, k)
  {
    if k > 0 {
      ShlAdd(x, y, k - 1);
    }
  }

  lemma {:induction false} ShlPositive(k: nat)
    ensures Shl(1, k) >= 1
  {
    if k > 0 {
      ShlPositive(k - 1);
    }
  }

  lemma ShlMonotone(x: nat, y: nat, k: nat)
    requires x <= y
    ensures Shl(x, k) <= Shl(y, k)
  {
    ShlAdd(x, y - x, k);
  }

  lemma {:induction false} ShlTwice(x: nat, j: nat, k: nat)
    ensures Shl(Shl(x, j), k) == Shl(x, j + k)
  {
    if k > 0 {
      ShlTwice(x, j, k - 1);
    }
  }

  lemma {:induction false} ShrTwice(x: nat, j: nat, k: nat)
    ensures Shr(Shr(x, j), k) == Shr(x, j + k)
  {
    if j > 0 {
      ShrTwice(x / 2, j - 1, k);
    }
  }

  lemma ShrShl(x: nat, k: nat)
    ensures Shr(Shl(x, k), k) == x
  {
    ShlAdd(x, 1, k);
    ShlPositive(k);
    ShlBounds(x, Shl(x, k), k);
  }

  lemma FourShift(x: nat, k: nat)
    ensures Shr(x, k + 4) == Shr(x / 16, k)
    ensures Shl(x, k + 4) == 16 * Shl(x, k)
  {
    assert Shr(x, k + 4) == Shr(x / 2, k + 3) == Shr(x / 4, k + 2) == Shr(x / 8, k + 1) == Shr(x / 16, k);
    assert Shl(x, k + 4) == 2 * Shl(x, k + 3) == 4 * Shl(x, k + 2) == 8 * Shl(x, k + 1) == 16 * Shl(x, k);
  }

  lemma ByteShift(x: nat)
    ensures Shr(x, 8) == x / 256
    ensures Shl(x, 8) == 256 * x
  {
    FourShift(x, 4);
    FourShift(x / 16, 0);
    FourShift(x, 0);
  }

  lemma TableSizes()
    ensures Shl(1, 24) == BLOCKS && Shl(1, 32) == ADDRESSES
  {
    ByteShift(1);
    ByteShift(256);
    ByteShift(0x1_0000);
    ByteShift(BLOCKS);
    ShlTwice(1, 8, 8);
    ShlTwice(1, 16, 8);
    ShlTwice(1, 24, 8);
  }

  // ---- networks and blocks ----

  /** Two addresses share a network exactly when they share the leading `len` bits. */
  lemma NetEqual(a: U32, b: U32, len: Len)
    ensures Net(a, len) == Net(b, len) <==> Shr(a, 32 - len) == Shr(b, 32 - len)
  {
    ShrShl(Shr(a, 32 - len), 32 - len);
    ShrShl(Shr(b, 32 - len), 32 - len);
  }

  /** Masking twice is masking once. */
  lemma NetIdempotent(a: U32, len: Len)
    ensures Net(Net(a, len), len) == Net(a, len)
  {
    ShrShl(Shr(a, 32 - len), 32 - len);
  }

  /** A length of at most 24 sees only the block number. */
  lemma ShrOfBlock(a: U32, len: Len)
    requires len <= 24
    ensures Shr(a, 32 - len) == Shr(a / 256, 24 - len)
  {
    ByteShift(a);
    ShrTwice(a, 8, 24 - len);
  }

  /** Every address of a block has the block's network, for lengths up to 24. */
  lemma NetOfBlock(a: U32, len: Len)
    requires len <= 24
    ensures Net(a, len) == Net(a / 256 * 256, len)
  {
    ShrOfBlock(a, len);
    ShrOfBlock(a / 256 * 256, len);
    NetEqual(a, a / 256 * 256, len);
  }

  /** `affected_blocks` is the range from `FirstBlock` up to, not including, `EndBlock`. */
  function FirstBlock(net: U32): nat { net / 256 }

  function EndBlock(net: U32, len: Len): nat
  {
    if len > 24 then net / 256 + 1 else net / 256 + Shl(1, 24 - len)
  }

  /** An address matches a prefix of length 1 to 24 exactly when its block is one of the prefix's. */
  lemma MatchShort(net: U32, len: Len, a: U32)
    requires len <= 24 && net == Net(net, len)
    ensures Net(a, len) == net <==> FirstBlock(net) <= a / 256 < EndBlock(net, len)
  {
    var k := 24 - len;
    var x := Shr(net, 32 - len);
    ShrOfBlock(a, len);
    NetEqual(a, net, len);
    ShlTwice(x, k, 8);
    ByteShift(Shl(x, k));
    assert net / 256 == Shl(x, k);
    ShlAdd(x, 1, k);
    ShlBounds(x, a / 256, k);
  }

  /** A longer prefix lies inside one block. */
  lemma MatchLong(net: U32, len: Len, a: U32)
    requires len > 24 && Net(a, len) == net
    ensures a / 256 == net / 256
  {
    NetIdempotent(a, len);
    NetEqual(a, net, len);
    ShrTwice(a, 32 - len, len - 24);
    ShrTwice(net, 32 - len, len - 24);
    ByteShift(a);
    ByteShift(net);
  }

  /** The blocks of a masked prefix stay inside the table. */
  lemma BlocksInTable(net: U32, len: Len)
    requires net == Net(net, len)
    ensures FirstBlock(net) < EndBlock(net, len) <= BLOCKS
  {
    TableSizes();
    if len <= 24 {
      var k := 24 - len;
      var x := Shr(net, 32 - len);
      ShlPositive(k);
      ShlTwice(x, k, 8);
      ByteShift(Shl(x, k));
      ShlTwice(1, len, k);
      if x >= Shl(1, len) {
        ShlMonotone(Shl(1, len), x, k);
      }
      ShlMonotone(x + 1, Shl(1, len), k);
      ShlAdd(x, 1, k);
    }
  }
}
