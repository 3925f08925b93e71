/** The Internet checksum: from scratch, incrementally (RFC 1624), and for a known header. */
module Checksum {
  import opened Packet
  import opened Wrappers

  // ---- one's-complement sums ----

  /** Big-endian 16-bit words; an odd last byte is the high half of a word. */
  function SumBytes(s: Bytes): nat
  {
    if s == [] then 0
    else if |s| == 1 then s[0] * 256
    else FromBe16(s[0], s[1]) + SumBytes(s[2..])
  }

  /** One end-around carry of a 32-bit accumulator. */
  function Fold(x: nat): nat
  {
    x % 0x1_0000 + x / 0x1_0000
  }

  /** Carries until none is left. */
  function Folded(x: nat): (r: U16)
    decreases x
  {
    if x < 0x1_0000 then x else Folded(Fold(x))
  }

  function Complement(x: U16): U16
  {
    0xffff - x
  }

  /** The residue a full fold keeps: zero only for zero. */
  function Residue(x: nat): (r: U16)
  {
    if x == 0 then 0 else (x - 1) % 0xffff + 1
  }

  lemma FoldKeepsResidue(x: nat)
    ensures Residue(Fold(x)) == Residue(x)
  {
    var lo, hi := x % 0x1_0000, x / 0x1_0000;
    assert x == lo + hi * 0x1_0000 == (lo + hi) + hi * 0xffff;
    if x > 0 {
      assert lo + hi > 0;
      ResidueOfSum(lo + hi, hi);
    }
  }

  lemma ResidueOfSum(x: nat, k: nat)
    requires x > 0
    ensures Residue(x + k * 0xffff) == Residue(x)
  {
    var q, r := (x - 1) / 0xffff, (x - 1) % 0xffff;
    assert x - 1 + k * 0xffff == (q + k) * 0xffff + r;
  }

  lemma {:induction false} FoldedIsResidue(x: nat)
    ensures Folded(x) == Residue(x)
    decreases x
  {
    if x >= 0x1_0000 {
      FoldKeepsResidue(x);
      FoldedIsResidue(Fold(x));
    } else if x > 0 {
      assert (x - 1) % 0xffff == x - 1;
    }
  }

  /** A 32-bit sum never needs a third carry. */
  lemma TwoFoldsSuffice(x: nat)
    requires x < 0x1_0000_0000
    ensures Fold(Fold(x)) == Folded(x)
  {
    assert Fold(x) <= 0x1_fffe;
    assert Fold(Fold(x)) <= 0xffff;
    FoldedIsResidue(x);
    FoldedIsResidue(Fold(Fold(x)));
    FoldKeepsResidue(x);
    FoldKeepsResidue(Fold(x));
  }

  /** Sums that differ by a multiple of 65535 fold alike unless one of them is zero. */
  lemma SameResidue(x: nat, y: nat)
    requires x > 0 && y > 0 && x % 0xffff == y % 0xffff
    ensures Residue(x) == Residue(y)
  {
    if x % 0xffff == 0 {
      MultipleResidue(x);
      MultipleResidue(y);
    } else {
      OtherResidue(x);
      OtherResidue(y);
    }
  }

  lemma MultipleResidue(x: nat)
    requires x > 0 && x % 0xffff == 0
    ensures Residue(x) == 0xffff
  {
    var q := x / 0xffff;
    assert x - 1 == (q - 1) * 0xffff + 0xfffe;
  }

  lemma OtherResidue(x: nat)
    requires x % 0xffff != 0
    ensures Residue(x) == x % 0xffff
  {
    var q := x / 0xffff;
    assert x - 1 == q * 0xffff + (x % 0xffff - 1);
  }

  lemma ResidueMod(x: nat)
    ensures Residue(x) % 0xffff == x % 0xffff && (Residue(x) == 0 <==> x == 0)
  {
    if x > 0 {
      if x % 0xffff == 0 {
        MultipleResidue(x);
      } else {
        OtherResidue(x);
      }
    }
  }

  // ---- the loop ----

  lemma {:induction false} SumSplits(s: Bytes, t: Bytes)
    requires |s| % 2 == 0
    ensures SumBytes(s + t) == SumBytes(s) + SumBytes(t)
    decreases |s|
  {
    if s == [] {
      assert s + t == t;
    } else {
      assert (s + t)[2..] == s[2..] + t;
      SumSplits(s[2..], t);
    }
  }

  /** An odd byte counts as if a zero byte followed it (RFC 1071). */
  lemma OddBytePads(s: Bytes)
    requires |s| % 2 == 1
    ensures SumBytes(s + [0]) == SumBytes(s)
  {
    var k := |s| - 1;
    assert s == s[..k] + [s[k]] && s + [0] == s[..k] + [s[k], 0];
    SumSplits(s[..k], [s[k]]);
    SumSplits(s[..k], [s[k], 0]);
    assert [s[k], 0][2..] == [];
  }

  /** A bound on a sum of words: below 2^32 for every frame these checksums are taken of. */
  lemma {:induction false} SumBounded(s: Bytes)
    ensures 2 * SumBytes(s) <= (|s| + 1) * 0xffff
    decreases |s|
  {
    if |s| > 1 {
      SumBounded(s[2..]);
      assert |s[2..]| == |s| - 2;
    } else if |s| == 1 {
      assert SumBytes(s) == s[0] as int * 256;
    }
  }

  /** The accumulator is 32 bits wide. */
  function Wrapped(x: nat): U32
  {
    if x < 0x1_0000_0000 then x else Wrapped(x - 0x1_0000_0000)
  }

  /** One addition that wraps. */
  function WrappingAdd(a: U32, w: U16): U32
  {
    if a + w < 0x1_0000_0000 then a + w else a + w - 0x1_0000_0000
  }

  lemma {:induction false} WrapOnce(x: nat, w: U16)
    ensures WrappingAdd(Wrapped(x), w) == Wrapped(x + w)
  {
    if x >= 0x1_0000_0000 {
      WrapOnce(x - 0x1_0000_0000, w);
    }
  }

  /** The words and the odd byte, in the 32-bit accumulator. */
  method SumLoop(data: Bytes, initial: U32) returns (sum: U32)
    ensures sum == Wrapped(initial + SumBytes(data))
  {
    sum := initial;
    var i := 0;
    ghost var total: nat := initial;
    while i + 1 < |data|
      invariant 0 <= i <= |data| && i % 2 == 0
      invariant total == initial + SumBytes(data[..i]) && sum == Wrapped(total)
    {
      var word: U16 := FromBe16(data[i], data[i + 1]);
      WordSum(data, i);
      WrapOnce(total, word);
      sum, total := WrappingAdd(sum, word), total + word;
      i := i + 2;
    }
    if i < |data| {
      OddSum(data, i);
      var word: U16 := data[i] as int * 256;
      WrapOnce(total, word);
      sum := WrappingAdd(sum, word);
    } else {
      assert data[..i] == data;
    }
  }

  lemma OddSum(data: Bytes, i: nat)
    requires i % 2 == 0 && i + 1 == |data|
    ensures SumBytes(data) == SumBytes(data[..i]) + data[i] as int * 256
  {
    assert data == data[..i] + [data[i]];
    SumSplits(data[..i], [data[i]]);
  }

  /** `checksum`: the sum wraps at 2^32, as it never does on a frame these checksums are taken of. */
  method ChecksumLoop(data: Bytes, initial: U32) returns (r: U16)
    ensures r == Complement(Folded(Wrapped(initial + SumBytes(data))))
    ensures initial + SumBytes(data) < 0x1_0000_0000 ==> r == Complement(Folded(initial + SumBytes(data)))
  {
    var sum := SumLoop(data, initial);
    ghost var whole := sum;
    while sum / 0x1_0000 != 0
      invariant Folded(sum) == Folded(whole)
      decreases sum
    {
      sum := sum % 0x1_0000 + sum / 0x1_0000;
    }
    r := 0xffff - sum;
  }

  lemma WordSum(data: Bytes, i: nat)
    requires i % 2 == 0 && i + 1 < |data|
    ensures SumBytes(data[..i + 2]) == SumBytes(data[..i]) + FromBe16(data[i], data[i + 1])
  {
    var word := data[i..i + 2];
    assert data[..i + 2] == data[..i] + word;
    SumSplits(data[..i], word);
    assert word[2..] == [];
  }

  // ---- an IPv4 header ----

  function HeaderSum(f: Ip4): nat
    requires f.Ok()
  {
    SumBytes(f.head) + FromBe16(f.ttl, f.proto) + f.ck + SumBytes(f.src) + SumBytes(f.dst)
  }

  lemma HeaderSumIsSum(f: Ip4)
    requires f.Ok()
    ensures SumBytes(f.Header()) == HeaderSum(f)
  {
    var a, b := f.head + [f.ttl, f.proto], f.head + [f.ttl, f.proto] + Be16(f.ck);
    SumSplits(b + f.src, f.dst);
    SumSplits(b, f.src);
    SumSplits(a, Be16(f.ck));
    SumSplits(f.head, [f.ttl, f.proto]);
    TwoBytes(f.ck);
    assert [f.ttl, f.proto][2..] == [];
  }

  // ---- incremental ----

  /** `csum16_update`. */
  function Csum16Update(hc: U16, was: U16, now: U16): U16
  {
    Complement(Fold2((0xffff - hc) + (0xffff - was) + now))
  }

  function Fold2(x: nat): (r: U16)
    requires x < 0x1_0000_0000
  {
    TwoFoldsSuffice(x);
    Fold(Fold(x))
  }

  function Words(ws: seq<U16>): nat
  {
    if ws == [] then 0 else ws[0] + Words(ws[1..])
  }

  lemma {:induction false} WordsUpdate(ws: seq<U16>, i: nat, now: U16)
    requires i < |ws|
    ensures Words(ws[i := now]) == Words(ws) - ws[i] + now && Words(ws) >= ws[i]
  {
    if i == 0 {
      assert ws[0 := now][1..] == ws[1..];
    } else {
      assert ws[i := now][1..] == ws[1..][i - 1 := now];
      WordsUpdate(ws[1..], i - 1, now);
    }
  }

  /** The residue arithmetic of an update. */
  lemma UpdateResidue(sum: nat, was: U16, now: U16)
    requires was <= sum
    ensures var x := Residue(sum) + (0xffff - was) + now;
      x > 0 && x % 0xffff == (sum - was + now) % 0xffff
  {
    ResidueMod(sum);
    var r := Residue(sum);
    if sum == 0 {
      assert (0xffff + now) % 0xffff == now % 0xffff;
    } else {
      var k := (sum - r) / 0xffff;
      assert (sum - r) % 0xffff == 0 by { Congruent(sum, r); }
      assert sum == r + k * 0xffff;
      assert r + (0xffff - was) + now == (sum - was + now) + (1 - k) * 0xffff;
      Shift(sum - was + now, 1 - k);
    }
  }

  lemma Congruent(x: nat, y: nat)
    requires x % 0xffff == y % 0xffff
    ensures (x - y) % 0xffff == 0
  {
    var p, q := x / 0xffff, y / 0xffff;
    assert x - y == (p - q) * 0xffff;
  }

  lemma Shift(x: int, k: int)
    ensures (x + k * 0xffff) % 0xffff == x % 0xffff
  {
    var q, r := x / 0xffff, x % 0xffff;
    assert x + k * 0xffff == (q + k) * 0xffff + r;
  }

  /** The incremental update of a from-scratch checksum equals the from-scratch checksum of the changed sum
      exactly when that is not zero. */
  lemma UpdateIsRecomputation(sum: nat, was: U16, now: U16)
    requires was <= sum
    ensures Csum16Update(Complement(Folded(sum)), was, now) == Complement(Folded(sum - was + now)) <==>
      sum - was + now > 0
  {
    FoldedIsResidue(sum);
    UpdateResidue(sum, was, now);
    var x := Residue(sum) + (0xffff - was) + now;
    TwoFoldsSuffice(x);
    FoldedIsResidue(x);
    FoldedIsResidue(sum - was + now);
    ResidueMod(x);
    if sum - was + now > 0 {
      SameResidue(x, sum - was + now);
    }
  }

  /** The same for one word among many, as a header holds them. */
  lemma UpdateOneWord(ws: seq<U16>, i: nat, now: U16)
    requires i < |ws|
    ensures Csum16Update(Complement(Folded(Words(ws))), ws[i], now) == Complement(Folded(Words(ws[i := now]))) <==>
      Words(ws[i := now]) > 0
  {
    WordsUpdate(ws, i, now);
    UpdateIsRecomputation(Words(ws), ws[i], now);
  }

  /** Whatever checksum a header carries, if it is valid it stays valid. */
  lemma UpdateKeepsValid(rest: nat, hc: U16, was: U16, now: U16)
    requires was <= rest && (rest + hc) % 0xffff == 0
    ensures (rest - was + now + Csum16Update(hc, was, now)) % 0xffff == 0
  {
    var x := (0xffff - hc) + (0xffff - was) + now;
    TwoFoldsSuffice(x);
    FoldedIsResidue(x);
    ResidueMod(x);
    Congruent(x, Residue(x));
    Congruent(rest + hc, 0);
    KeptSum(rest, hc, was, now, Residue(x), (x - Residue(x)) / 0xffff, (rest + hc) / 0xffff);
  }

  lemma KeptSum(rest: int, hc: int, was: int, now: int, residue: int, k: int, l: int)
    requires (0xffff - hc) + (0xffff - was) + now - residue == k * 0xffff && rest + hc == l * 0xffff
    ensures (rest - was + now + (0xffff - residue)) % 0xffff == 0
  {
    assert rest - was + now + (0xffff - residue) == (k + l - 1) * 0xffff;
    Shift(0, k + l - 1);
  }

  // ---- the GTP outer header ----

  /** The twenty bytes `gtp_encap` writes, with a given checksum. */
  function GtpHeader(total: U16, src: Bytes, dst: Bytes, csum: U16): (h: Bytes)
    requires |src| == 4 && |dst| == 4
    ensures |h| == 20
  {
    [0x45, 0] + Be16(total) + [0, 0, 0, 0, 64, 17] + Be16(csum) + src + dst
  }

  /** `ipv4_hdr_csum`. */
  function Ipv4HdrCsum(total: U16, src: Bytes, dst: Bytes): U16
    requires |src| == 4 && |dst| == 4
  {
    Complement(Fold2(0x4500 + total + 0x4011 + FromBe16(src[0], src[1]) + FromBe16(src[2], src[3]) +
      FromBe16(dst[0], dst[1]) + FromBe16(dst[2], dst[3])))
  }

  lemma FourBytes(a: Bytes)
    requires |a| == 4
    ensures SumBytes(a) == FromBe16(a[0], a[1]) + FromBe16(a[2], a[3])
  {
    var b := a[2..];
    assert b[0] == a[2] && b[1] == a[3] && b[2..] == [];
    assert SumBytes(b) == FromBe16(b[0], b[1]) + SumBytes(b[2..]);
    assert SumBytes(a) == FromBe16(a[0], a[1]) + SumBytes(b);
  }

  lemma TwoBytes(v: U16)
    ensures SumBytes(Be16(v)) == v
  {
    assert Be16(v)[2..] == [];
    assert FromBe16(v / 256, v % 256) == v;
  }

  lemma GtpHeaderSum(total: U16, src: Bytes, dst: Bytes, csum: U16)
    requires |src| == 4 && |dst| == 4
    ensures SumBytes(GtpHeader(total, src, dst, csum)) ==
      0x4500 + total + 0x4011 + csum + FromBe16(src[0], src[1]) + FromBe16(src[2], src[3]) + FromBe16(dst[0], dst[1]) +
        FromBe16(dst[2], dst[3])
  {
    var a, b, c: Bytes := [0x45, 0], Be16(total), [0, 0, 0, 0, 64, 17];
    TwoBytes(total);
    TwoBytes(csum);
    FourBytes(src);
    FourBytes(dst);
    SumSplits(a + b + c + Be16(csum) + src, dst);
    SumSplits(a + b + c + Be16(csum), src);
    SumSplits(a + b + c, Be16(csum));
    SumSplits(a + b, c);
    SumSplits(a, b);
    assert a[2..] == [] && SumBytes(a) == 0x4500;
    assert c[2..] == [0, 0, 64, 17] && c[2..][2..] == [64, 17] && [64, 17][2..] == [];
    assert SumBytes(c) == 0x4011;
  }

  /** The unrolled sum is the general checksum of the header as written with a zero field, and the header
      with it in place sums to all ones. */
  lemma GtpHeaderChecksum(total: U16, src: Bytes, dst: Bytes)
    requires |src| == 4 && |dst| == 4
    ensures var csum := Ipv4HdrCsum(total, src, dst);
      && csum == Complement(Folded(SumBytes(GtpHeader(total, src, dst, 0))))
      && Folded(SumBytes(GtpHeader(total, src, dst, csum))) == 0xffff
  {
    var csum := Ipv4HdrCsum(total, src, dst);
    GtpHeaderSum(total, src, dst, 0);
    GtpHeaderSum(total, src, dst, csum);
    var sum := SumBytes(GtpHeader(total, src, dst, 0));
    TwoFoldsSuffice(sum);
    SelfChecks(sum);
  }

  /** A sum and its complement fold to all ones. */
  lemma SelfChecks(sum: nat)
    ensures sum > 0 ==> Folded(sum + Complement(Folded(sum))) == 0xffff
  {
    FoldedIsResidue(sum);
    ResidueMod(sum);
    var total := sum + (0xffff - Residue(sum));
    FoldedIsResidue(total);
    if sum > 0 {
      Congruent(sum, Residue(sum));
      var k := (sum - Residue(sum)) / 0xffff;
      assert total == (k + 1) * 0xffff;
      Shift(0, k + 1);
      MultipleResidue(total);
    }
  }
}
