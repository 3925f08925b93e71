/** What RFC 8986 and RFC 8754 ask of an endpoint, byte by byte and behavior by behavior. */
module Srv6Laws {
  import opened Packet
  import opened Srv6

  /** How a behavior forwards a packet it has moved to its next segment: End.X and uA out their adjacency, End.T
      and a table-bound uN by their table, the others by the main one. */
  function Way(sid: LocalSid): Verdict
  {
    match sid.behavior
    case EndX => Via(sid.nexthop)
    case UA => Via(sid.nexthop)
    case EndT => if sid.vrf == 0 then Pass else ToTable(sid.vrf)
    case UN => if sid.vrf == 0 then Pass else ToTable(sid.vrf)
    case _ => Pass
  }

  /** The segment endpoints; the decapsulating behaviors never come here. */
  predicate Endpoint(b: Behavior)
  {
    b in {End, EndX, EndT, UN, UA}
  }

  /** With segments left (RFC 8986 section 4.1): one fewer, and the entry of that number is the destination. The
      flavor takes the SRH of 8 * (Hdr Ext Len + 1) bytes off exactly when none is left. */
  lemma SegmentsLeft(f: Ip6, sid: LocalSid, sl: nat)
    requires f.Ok() && f.nh == 43 && 1 <= sl <= 6 && |f.payload| >= 8 + 16 * sl && f.payload[3] == sl
    ensures var g := f.(dst := f.payload[8 + 16 * (sl - 1)..8 + 16 * sl], payload := f.payload[3 := sl - 1]);
      var len := 8 * (f.payload[1] as int + 1);
      EndStep(f, sid) ==
        if !(sl == 1 && sid.psp) then Kept(Way(sid), g)
        else if f.payload[1] > 12 || f.plen < len || |f.payload| < len then Failed
        else Kept(Way(sid), g.(nh := f.payload[0], plen := f.plen - len, payload := f.payload[len..]))
  {
    assert f.payload[3 := sl - 1][0] == f.payload[0] && f.payload[3 := sl - 1][1] == f.payload[1];
    var len := 8 * (f.payload[1] as int + 1);
    if len <= |f.payload| {
      assert f.payload[3 := sl - 1][len..] == f.payload[len..];
    }
  }

  /** More than six segments left: left to the host. Fewer bytes than the entry needs: an error. */
  lemma SegmentsRefused(f: Ip6, sid: LocalSid)
    requires f.Ok() && f.nh == 43 && |f.payload| >= 4 && f.payload[3] > 0
    ensures f.payload[3] > 6 ==> EndStep(f, sid) == Kept(Pass, f)
    ensures f.payload[3] <= 6 && |f.payload| < 8 + 16 * f.payload[3] as int ==> EndStep(f, sid) == Failed
  {
  }

  /** The EtherType of the packet behind next header 4 or 41. */
  function TypeBytes(proto: Byte): Bytes
  {
    if proto == 4 then [0x08, 0x00] else [0x86, 0xdd]
  }

  function MainOr(sid: LocalSid): Verdict
  {
    if sid.behavior in {EndT, UN} then ToTable(sid.vrf) else ToTable(0)
  }

  /** No segment left: USD uncovers an IP packet, else USP takes the SRH off, else the packet is the host's.
      Adjacency behaviors have neither flavor. */
  lemma NoneLeft(f: Ip6, sid: LocalSid)
    requires f.Ok() && f.nh == 43 && |f.payload| >= 4 && f.payload[3] == 0 && Endpoint(sid.behavior)
    ensures var len := 8 * (f.payload[1] as int + 1);
      var flavored := sid.behavior in {End, EndT, UN} && f.payload[1] <= 12;
      EndStep(f, sid) ==
        if flavored && sid.usd && f.payload[0] in {4, 41} then
          if |f.payload| < len then Failed
          else Stripped(MainOr(sid), f.l2[..12] + TypeBytes(f.payload[0]) + f.payload[len..])
        else if flavored && sid.usp then
          if f.plen < len || |f.payload| < len then Failed
          else Kept(Pass, f.(nh := f.payload[0], plen := f.plen - len, payload := f.payload[len..]))
        else Kept(Pass, f)
  {
  }

  /** No SRH: the same, USD alone having something to do. */
  lemma NoSrh(f: Ip6, sid: LocalSid)
    requires f.Ok() && f.nh != 43 && Endpoint(sid.behavior)
    ensures EndStep(f, sid) ==
      if sid.behavior in {End, EndT, UN} && sid.usd && f.nh in {4, 41} then
        Stripped(MainOr(sid), f.l2[..12] + TypeBytes(f.nh) + f.payload)
      else Kept(Pass, f)
  {
  }

  // ---- End.DT4, End.DT6, End.DT46 ----

  /** Behind the outer header, or an SRH with nothing left: the next header and the bytes before the packet. */
  predicate Carries(f: Ip6, proto: Byte, before: nat)
  {
    f.Ok() &&
    if f.nh == 43 then
      |f.payload| >= 4 && f.payload[3] == 0 && f.payload[1] <= 12
      && proto == f.payload[0] && before == 8 * (f.payload[1] as int + 1)
    else proto == f.nh && before == 0
  }

  /** The packets a behavior is for (sections 4.6 to 4.8 of RFC 8986). */
  predicate Takes(b: Behavior, proto: Byte)
  {
    match b
    case EndDT4 => proto == 4
    case EndDT6 => proto == 41
    case EndDT46 => proto == 4 || proto == 41
    case _ => false
  }

  /** Each uncovers its own family for its table, and drops everything else. */
  lemma DecapFamily(f: Ip6, sid: LocalSid, proto: Byte, before: nat)
    requires Carries(f, proto, before)
    ensures DecapStep(f, sid) ==
      if !Takes(sid.behavior, proto) then Kept(Drop, f)
      else if |f.payload| < before then Failed
      else Stripped(ToTable(sid.vrf), f.l2[..12] + TypeBytes(proto) + f.payload[before..])
  {
  }

  /** Whatever the packet: End.DT4 uncovers nothing but IPv4, End.DT6 nothing but IPv6. */
  lemma NoOtherFamily(f: Ip6, sid: LocalSid)
    requires f.Ok() && DecapStep(f, sid).Stripped?
    ensures var frame := DecapStep(f, sid).frame;
      && |frame| >= 14
      && (sid.behavior == EndDT4 ==> frame[12..14] == [0x08, 0x00])
      && (sid.behavior == EndDT6 ==> frame[12..14] == [0x86, 0xdd])
      && (sid.behavior == EndDT46 ==> frame[12..14] in {[0x08, 0x00], [0x86, 0xdd]})
  {
    var proto := if f.nh == 43 then f.payload[0] else f.nh;
    DecapFamily(f, sid, proto, if f.nh == 43 then 8 * (f.payload[1] as int + 1) else 0);
  }

  /** A packet with segments left, or an SRH longer than any of six segments, is not decapsulated. */
  lemma DecapWaits(f: Ip6, sid: LocalSid)
    requires f.Ok() && f.nh == 43 && |f.payload| >= 4 && (f.payload[3] != 0 || f.payload[1] > 12)
    ensures DecapStep(f, sid) == Kept(Pass, f)
  {
  }
}
