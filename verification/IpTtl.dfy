/** A new TTL in an IP header that an MPLS pop in the uniform model exposes: the hop limit of IPv6, or the TTL
    of IPv4 with its checksum updated incrementally. */
module IpTtl {
  import opened Packet
  import opened Wrappers
  import opened Checksum

  /** On an IPv4 header's fields. */
  function WithTtl(f: Ip4, ttl: Byte): (g: Ip4)
    requires f.Ok()
    ensures g.Ok()
  {
    if ttl == f.ttl then f
    else f.(ttl := ttl, ck := Csum16Update(f.ck, FromBe16(f.ttl, f.proto), FromBe16(ttl, f.proto)))
  }

  /** Nothing but the TTL and the checksum changes. A valid header stays valid; the checksum computed from
      scratch stays that of a computation from scratch, for every header with a version in it. */
  lemma WithTtlValid(f: Ip4, ttl: Byte)
    requires f.Ok()
    ensures WithTtl(f, ttl) == f.(ttl := ttl, ck := WithTtl(f, ttl).ck)
    ensures HeaderSum(f) % 0xffff == 0 ==> HeaderSum(WithTtl(f, ttl)) % 0xffff == 0
    ensures SumBytes(f.head) > 0 && f.ck == Complement(Folded(HeaderSum(f.(ck := 0)))) ==>
      WithTtl(f, ttl).ck == Complement(Folded(HeaderSum(WithTtl(f, ttl).(ck := 0))))
  {
    var was, now := FromBe16(f.ttl, f.proto), FromBe16(ttl, f.proto);
    var g := WithTtl(f, ttl);
    if ttl != f.ttl {
      var sum := HeaderSum(f.(ck := 0));
      assert HeaderSum(f) == sum + f.ck && HeaderSum(g.(ck := 0)) == sum - was + now;
      assert HeaderSum(g) == sum - was + now + g.ck;
      if HeaderSum(f) % 0xffff == 0 {
        UpdateKeepsValid(sum, f.ck, was, now);
      }
      UpdateIsRecomputation(sum, was, now);
    }
  }

  /** `mpls_uniform_to_ip`. `None` when the frame is cut short of a field. */
  function Uniform(d: Bytes, et: U16, ttl: Byte): (r: Option<Bytes>)
    ensures r.Some? ==> |r.value| == |d|
  {
    if et == ET_IPV4 then
      if |d| < 24 then None
      else if d[TTL_OFF] == ttl then Some(d)
      else if |d| < 26 then None
      else
        var was, now := FromBe16(d[TTL_OFF], d[TTL_OFF + 1]), FromBe16(ttl, d[TTL_OFF + 1]);
        var hc := Csum16Update(FromBe16(d[CHECK_OFF], d[CHECK_OFF + 1]), was, now);
        Some(Put(Put(d, TTL_OFF, [ttl]), CHECK_OFF, Be16(hc)))
    else if et == ET_IPV6 then
      if |d| <= HOP_OFF then None else Some(Put(d, HOP_OFF, [ttl]))
    else Some(d)
  }

  /** On a whole header the bytes are the header with the new TTL or hop limit, and nothing else changes. */
  lemma UniformIsTtl(d: Bytes, ttl: Byte)
    requires |d| >= 34
    ensures Uniform(d, ET_IPV4, ttl) == Some(WithTtl(Parse4(d), ttl).Frame())
    ensures |d| >= 54 ==> Uniform(d, ET_IPV6, ttl) == Some(Parse(d).(hop := ttl).Frame())
  {
    var f := Parse4(d);
    FrameParse4(d);
    if ttl != f.ttl {
      PutTtl4(f, ttl);
      PutCheck4(f.(ttl := ttl), WithTtl(f, ttl).ck);
    }
    if |d| >= 54 {
      FrameParse(d);
      PutHop(Parse(d), ttl);
    }
  }

  method UniformToIp(p: Buffer, et: U16, ttl: Byte) returns (ok: bool)
    modifies p
    ensures ok == Uniform(old(p.data), et, ttl).Some?
    ensures ok ==> p.data == Uniform(old(p.data), et, ttl).value
  {
    if et == ET_IPV4 {
      if |p.data| < 24 {
        return false;
      }
      var was, now := FromBe16(p.data[TTL_OFF], p.data[TTL_OFF + 1]), FromBe16(ttl, p.data[TTL_OFF + 1]);
      assert was == now <==> ttl == p.data[TTL_OFF];
      if was == now {
        return true;
      }
      if |p.data| < 26 {
        return false;
      }
      var hc := FromBe16(p.data[CHECK_OFF], p.data[CHECK_OFF + 1]);
      ok := p.Store(TTL_OFF, [ttl]);
      var updated := Csum16Update(hc, was, now);
      ok := p.Store(CHECK_OFF, Be16(updated));
    } else if et == ET_IPV6 {
      ok := p.Store(HOP_OFF, [ttl]);
    } else {
      ok := true;
    }
  }
}
