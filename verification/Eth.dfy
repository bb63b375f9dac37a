/** Whole-frame synthesis: Ethernet, IPv4 and TCP or UDP around a payload, and what a receiver reads back. */
module Eth {
  import opened Wire
  import opened Frame
  import opened Checksum

  const ETHERTYPE_IPV4: u16 := 0x0800
  const MAX_TCP_PAYLOAD: nat := 0xffff - 40
  const MAX_UDP_PAYLOAD: nat := 0xffff - 28

  datatype Endpoint = Endpoint(ip: u32, port: u16)

  /** A segment to send; the Ethernet addresses travel beside it. */
  datatype Segment = Segment(src: Endpoint, dst: Endpoint, seqNo: u32, ack: u32, flags: byte, data: seq<byte>)

  datatype Datagram = Datagram(src: Endpoint, dst: Endpoint, data: seq<byte>)

  function EthernetHeader(src: Mac, dst: Mac, ethertype: u16): (r: seq<byte>)
    ensures |r| == 14
  {
    dst + src + BytesOf16(ethertype)
  }

  /** Total length is truncated to 16 bits, as the source's cast does. */
  function Ipv4Header(total: nat, proto: byte, src: u32, dst: u32): (r: seq<byte>)
    ensures |r| == 20
  {
    [0x45, 0x00] + BytesOf16(total % 0x1_0000) + [0x00, 0x00, 0x40, 0x00] + [0x40, proto] + [0x00, 0x00]
    + BytesOf32(src) + BytesOf32(dst)
  }

  function TcpHeader(s: Segment): (r: seq<byte>)
    ensures |r| == 20
  {
    BytesOf16(s.src.port) + BytesOf16(s.dst.port) + BytesOf32(s.seqNo) + BytesOf32(s.ack)
    + [0x50, s.flags] + [0x20, 0x00] + [0x00, 0x00] + [0x00, 0x00]
  }

  function UdpHeader(d: Datagram): (r: seq<byte>)
    ensures |r| == 8
  {
    BytesOf16(d.src.port) + BytesOf16(d.dst.port) + BytesOf16((8 + |d.data|) % 0x1_0000) + [0x00, 0x00]
  }

  function TcpRaw(srcMac: Mac, dstMac: Mac, s: Segment): (r: seq<byte>)
    ensures |r| == 54 + |s.data|
  {
    EthernetHeader(srcMac, dstMac, ETHERTYPE_IPV4) + Ipv4Header(40 + |s.data|, 6, s.src.ip, s.dst.ip) +
    TcpHeader(s) + s.data
  }

  function UdpRaw(srcMac: Mac, dstMac: Mac, d: Datagram): (r: seq<byte>)
    ensures |r| == 42 + |d.data|
  {
    EthernetHeader(srcMac, dstMac, ETHERTYPE_IPV4) + Ipv4Header(28 + |d.data|, 17, d.src.ip, d.dst.ip) +
    UdpHeader(d) + d.data
  }

  function Finished(b: seq<byte>): (r: seq<byte>)
    ensures |r| == |b|
  {
    match LayoutOf(b) case Some(l) => Repaired(b, l) case None => b
  }

  function TcpFrame(srcMac: Mac, dstMac: Mac, s: Segment): seq<byte> {
    Finished(TcpRaw(srcMac, dstMac, s))
  }

  function UdpFrame(srcMac: Mac, dstMac: Mac, d: Datagram): seq<byte> {
    Finished(UdpRaw(srcMac, dstMac, d))
  }

  method Finish(raw: seq<byte>) returns (r: seq<byte>)
    ensures r == Finished(raw)
  {
    var buf := new byte[|raw|](i requires 0 <= i < |raw| => raw[i]);
    assert buf[..] == raw;
    var parsed := ParseLayout(buf[..]);
    if parsed.Some? {
      RecomputeChecksums(buf, parsed.value);
    }
    r := buf[..];
  }

  method TcpSegment(srcMac: Mac, dstMac: Mac, s: Segment) returns (f: seq<byte>)
    ensures f == TcpFrame(srcMac, dstMac, s)
  {
    hide Finished;
    var b := EthernetHeader(srcMac, dstMac, ETHERTYPE_IPV4);
    b := b + Ipv4Header(20 + (20 + |s.data|), 6, s.src.ip, s.dst.ip);
    ghost var front := b;
    b := b + BytesOf16(s.src.port);
    b := b + BytesOf16(s.dst.port);
    b := b + BytesOf32(s.seqNo);
    b := b + BytesOf32(s.ack);
    b := b + [0x50, s.flags];
    b := b + [0x20, 0x00];
    b := b + [0x00, 0x00];
    b := b + [0x00, 0x00];
    assert b == front + TcpHeader(s);
    b := b + s.data;
    f := Finish(b);
  }

  method UdpDatagram(srcMac: Mac, dstMac: Mac, d: Datagram) returns (f: seq<byte>)
    ensures f == UdpFrame(srcMac, dstMac, d)
  {
    hide Finished;
    var udpLen := 8 + |d.data|;
    var b := EthernetHeader(srcMac, dstMac, ETHERTYPE_IPV4);
    b := b + Ipv4Header(20 + udpLen, 17, d.src.ip, d.dst.ip);
    ghost var front := b;
    b := b + BytesOf16(d.src.port);
    b := b + BytesOf16(d.dst.port);
    b := b + BytesOf16(udpLen % 0x1_0000);
    b := b + [0x00, 0x00];
    assert b == front + UdpHeader(d);
    b := b + d.data;
    f := Finish(b);
  }

  // ----- Receiving ----------------------------------------------------------------------------

  /** What a receiver makes of a frame: a TCP segment whose checksums hold, or nothing. */
  function ReceiveTcp(f: seq<byte>): Option<Segment> {
    match LayoutOf(f)
    case None => None
    case Some(l) =>
      if l.l4Kind == Tcp && l.l3Kind == Ipv4 && Accepted(f, l) then
        Some(Segment(Endpoint(Be32(f, l.l3 + 12), Be16(f, l.l4)), Endpoint(Be32(f, l.l3 + 16), Be16(f, l.l4 + 2)),
                     Be32(f, l.l4 + 4), Be32(f, l.l4 + 8), f[l.l4 + 13], f[l.payload..l.end]))
      else None
  }

  function ReceiveUdp(f: seq<byte>): Option<Datagram> {
    match LayoutOf(f)
    case None => None
    case Some(l) =>
      if l.l4Kind == Udp && l.l3Kind == Ipv4 && Accepted(f, l) && Be16(f, l.l4 + 4) == l.end - l.l4 then
        Some(Datagram(Endpoint(Be32(f, l.l3 + 12), Be16(f, l.l4)), Endpoint(Be32(f, l.l3 + 16), Be16(f, l.l4 + 2)),
                      f[l.payload..l.end]))
      else None
  }

  lemma Headers(srcMac: Mac, dstMac: Mac, ip: seq<byte>, rest: seq<byte>)
    requires |ip| == 20
    ensures var b := EthernetHeader(srcMac, dstMac, ETHERTYPE_IPV4) + ip + rest;
            b[..6] == dstMac && b[6..12] == srcMac && Be16(b, 12) == 0x0800 && b[14..34] == ip && b[34..] == rest
  {
    var b := EthernetHeader(srcMac, dstMac, ETHERTYPE_IPV4) + ip + rest;
    assert b[12] == 8 && b[13] == 0;
  }

  lemma Ipv4Fields(total: nat, proto: byte, src: u32, dst: u32)
    requires total <= 0xffff
    ensures var h := Ipv4Header(total, proto, src, dst);
            h[0] == 0x45 && Be16(h, 2) == total && h[9] == proto && Be32(h, 12) == src && Be32(h, 16) == dst
  {
    hide BytesOf16, BytesOf32, Be16, Be32;
    var h, t, s, d := Ipv4Header(total, proto, src, dst), BytesOf16(total), BytesOf32(src), BytesOf32(dst);
    assert h[2..4] == t && h[12..16] == s && h[16..20] == d;
    Slice16(h, 2, 4, 0);
    Slice32(h, 12, 16, 0);
    Slice32(h, 16, 20, 0);
  }

  lemma TcpFields(s: Segment)
    ensures var h := TcpHeader(s);
            && Be16(h, 0) == s.src.port && Be16(h, 2) == s.dst.port && Be32(h, 4) == s.seqNo && Be32(h, 8) == s.ack
            && h[12] == 0x50 && h[13] == s.flags
  {
    var h, p, q, x, y := TcpHeader(s), BytesOf16(s.src.port), BytesOf16(s.dst.port), BytesOf32(s.seqNo),
        BytesOf32(s.ack);
    assert h[0] == p[0] && h[1] == p[1] && h[2] == q[0] && h[3] == q[1];
    assert h[4] == x[0] && h[5] == x[1] && h[6] == x[2] && h[7] == x[3];
    assert h[8] == y[0] && h[9] == y[1] && h[10] == y[2] && h[11] == y[3];
  }

  lemma Slice16(b: seq<byte>, from: nat, to: nat, i: nat)
    requires from + i + 2 <= to <= |b|
    ensures Be16(b, from + i) == Be16(b[from..to], i)
  {
    assert b[from..to][i] == b[from + i] && b[from..to][i + 1] == b[from + i + 1];
  }

  lemma Slice32(b: seq<byte>, from: nat, to: nat, i: nat)
    requires from + i + 4 <= to <= |b|
    ensures Be32(b, from + i) == Be32(b[from..to], i)
  {
    var s := b[from..to];
    assert s[i] == b[from + i] && s[i + 1] == b[from + i + 1] && s[i + 2] == b[from + i + 2] &&
        s[i + 3] == b[from + i + 3];
  }

  /** The layout of any frame with a plain Ethernet header and a 20-byte IPv4 header. */
  lemma PlainLayout(b: seq<byte>, total: nat)
    requires |b| == 14 + total && 20 <= total <= 0xffff
    requires Be16(b, 12) == 0x0800 && b[14] == 0x45 && Be16(b, 16) == total
    ensures b[23] == 6 && total >= 40 && b[46] == 0x50 ==>
              LayoutOf(b) == Some(FrameLayout(14, Ipv4, 20, 34, Tcp, 54, |b|))
    ensures b[23] == 17 && total >= 28 ==> LayoutOf(b) == Some(FrameLayout(14, Ipv4, 20, 34, Udp, 42, |b|))
  {
    hide Ipv4Layout;
    assert TagWalk(b, 14, 0x0800, 0) == Some((0x0800, 14));
    PlainIpv4(b, total);
  }

  lemma PlainIpv4(b: seq<byte>, total: nat)
    requires |b| == 14 + total && 20 <= total <= 0xffff
    requires b[14] == 0x45 && Be16(b, 16) == total
    ensures b[23] == 6 && total >= 40 && b[46] == 0x50 ==>
              Ipv4Layout(b, 14) == Some(FrameLayout(14, Ipv4, 20, 34, Tcp, 54, |b|))
    ensures b[23] == 17 && total >= 28 ==> Ipv4Layout(b, 14) == Some(FrameLayout(14, Ipv4, 20, 34, Udp, 42, |b|))
  {
  }

  /** The bytes a repair of a plain frame leaves alone, as fields. */
  lemma KeptFields(b: seq<byte>, l: FrameLayout, i: nat)
    requires Sane(|b|, l) && l.l3Kind == Ipv4 && l.l3 == 14 && l.ihl == 20 && l.l4Kind != OtherL4
    requires i + 4 <= 24 || 26 <= i <= 30 + FieldOffset(l.l4Kind)
    ensures Be32(Repaired(b, l), i) == Be32(b, i)
    ensures Be16(Repaired(b, l), i) == Be16(b, i) && Be16(Repaired(b, l), i + 2) == Be16(b, i + 2)
    ensures Repaired(b, l)[i + 1] == b[i + 1]
  {
    hide Repaired;
    forall k | i <= k < i + 4 ensures Repaired(b, l)[k] == b[k] {
      RepairTouchesChecksumsOnly(b, l, k);
    }
  }

  lemma KeptSlice(b: seq<byte>, l: FrameLayout, i: nat, j: nat)
    requires Sane(|b|, l) && l.l3Kind == Ipv4 && l.l3 == 14 && l.ihl == 20 && l.l4Kind != OtherL4
    requires i <= j <= |b| && (j <= 24 || 34 + FieldOffset(l.l4Kind) + 2 <= i)
    ensures Repaired(b, l)[i..j] == b[i..j]
  {
    hide Repaired;
    forall k | i <= k < j ensures Repaired(b, l)[k] == b[k] {
      RepairTouchesChecksumsOnly(b, l, k);
    }
  }

  lemma TcpRawFields(srcMac: Mac, dstMac: Mac, s: Segment)
    requires |s.data| <= MAX_TCP_PAYLOAD
    ensures var b := TcpRaw(srcMac, dstMac, s);
            && LayoutOf(b) == Some(FrameLayout(14, Ipv4, 20, 34, Tcp, 54, |b|))
            && b[..6] == dstMac && b[6..12] == srcMac && b[54..] == s.data
            && Be32(b, 26) == s.src.ip && Be32(b, 30) == s.dst.ip
            && Be16(b, 34) == s.src.port && Be16(b, 36) == s.dst.port
            && Be32(b, 38) == s.seqNo && Be32(b, 42) == s.ack && b[47] == s.flags
  {
    hide LayoutOf, Be16, Be32, EthernetHeader, Ipv4Header, TcpHeader;
    var ip, tcp := Ipv4Header(40 + |s.data|, 6, s.src.ip, s.dst.ip), TcpHeader(s);
    var b := TcpRaw(srcMac, dstMac, s);
    assert b == EthernetHeader(srcMac, dstMac, ETHERTYPE_IPV4) + ip + (tcp + s.data);
    Headers(srcMac, dstMac, ip, tcp + s.data);
    Ipv4Fields(40 + |s.data|, 6, s.src.ip, s.dst.ip);
    TcpFields(s);
    assert b[34..54] == tcp && b[54..] == s.data by {
      assert (tcp + s.data)[..20] == tcp && (tcp + s.data)[20..] == s.data;
    }
    assert b[14] == b[14..34][0] && b[23] == b[14..34][9] && b[46] == b[34..54][12] && b[47] == b[34..54][13];
    Slice16(b, 14, 34, 2);
    Slice32(b, 14, 34, 12);
    Slice32(b, 14, 34, 16);
    Slice16(b, 34, 54, 0);
    Slice16(b, 34, 54, 2);
    Slice32(b, 34, 54, 4);
    Slice32(b, 34, 54, 8);
    PlainLayout(b, 40 + |s.data|);
  }

  /** A synthesized segment that fits one packet is received exactly as sent, checksums holding. */
  lemma TcpRoundTrip(srcMac: Mac, dstMac: Mac, s: Segment)
    requires |s.data| <= MAX_TCP_PAYLOAD
    ensures ReceiveTcp(TcpFrame(srcMac, dstMac, s)) == Some(s)
    ensures TcpFrame(srcMac, dstMac, s)[..6] == dstMac && TcpFrame(srcMac, dstMac, s)[6..12] == srcMac
  {
    hide LayoutOf, Repaired, ChecksumsValid, Accepted, Be16, Be32, TcpRaw, Sane;
    TcpRawFields(srcMac, dstMac, s);
    var raw := TcpRaw(srcMac, dstMac, s);
    var l := FrameLayout(14, Ipv4, 20, 34, Tcp, 54, |raw|);
    RepairVerdict(raw, l);
    RepairKeepsLayout(raw, l);
    CheckIsAcceptance(Repaired(raw, l), l);
    KeptFields(raw, l, 26);
    KeptFields(raw, l, 30);
    KeptFields(raw, l, 34);
    KeptFields(raw, l, 38);
    KeptFields(raw, l, 42);
    KeptFields(raw, l, 46);
    KeptSlice(raw, l, 0, 6);
    KeptSlice(raw, l, 6, 12);
    KeptSlice(raw, l, 54, |raw|);
    assert raw[54..|raw|] == raw[54..];
  }

  /** Bytes the receiver does not look at: no options, no fragments, a TTL of 64, a window of 8192, no urgent data. */
  lemma TcpPlain(srcMac: Mac, dstMac: Mac, s: Segment)
    requires |s.data| <= MAX_TCP_PAYLOAD
    ensures var f := TcpFrame(srcMac, dstMac, s);
            && |f| == 54 + |s.data| && f[12..16] == [0x08, 0x00, 0x45, 0x00] && f[18..24] == [0, 0, 0x40, 0, 64, 6]
            && f[46] == 0x50 && Be16(f, 48) == 8192 && Be16(f, 52) == 0
  {
    hide LayoutOf, Repaired, Be32, TcpRaw, Sane;
    TcpRawFields(srcMac, dstMac, s);
    var raw := TcpRaw(srcMac, dstMac, s);
    var l := FrameLayout(14, Ipv4, 20, 34, Tcp, 54, |raw|);
    TcpRawPlain(srcMac, dstMac, s);
    KeptSlice(raw, l, 12, 16);
    KeptSlice(raw, l, 18, 24);
    KeptFields(raw, l, 46);
    RepairTouchesChecksumsOnly(raw, l, 46);
    RepairTouchesChecksumsOnly(raw, l, 52);
    RepairTouchesChecksumsOnly(raw, l, 53);
  }

  lemma TcpRawPlain(srcMac: Mac, dstMac: Mac, s: Segment)
    ensures var b := TcpRaw(srcMac, dstMac, s);
            && b[12..16] == [0x08, 0x00, 0x45, 0x00] && b[18..24] == [0, 0, 0x40, 0, 64, 6]
            && b[46] == 0x50 && Be16(b, 48) == 8192 && Be16(b, 52) == 0
  {
    var b := TcpRaw(srcMac, dstMac, s);
    assert b[12] == 8 && b[13] == 0 && b[14] == 0x45 && b[15] == 0;
    assert b[48] == 0x20 && b[49] == 0 && b[52] == 0 && b[53] == 0;
  }

  lemma UdpFields(d: Datagram)
    requires |d.data| <= MAX_UDP_PAYLOAD
    ensures var h := UdpHeader(d);
            Be16(h, 0) == d.src.port && Be16(h, 2) == d.dst.port && Be16(h, 4) == 8 + |d.data|
  {
    var h, p, q, n := UdpHeader(d), BytesOf16(d.src.port), BytesOf16(d.dst.port), BytesOf16(8 + |d.data|);
    assert h[0] == p[0] && h[1] == p[1] && h[2] == q[0] && h[3] == q[1] && h[4] == n[0] && h[5] == n[1];
  }

  lemma UdpRawFields(srcMac: Mac, dstMac: Mac, d: Datagram)
    requires |d.data| <= MAX_UDP_PAYLOAD
    ensures var b := UdpRaw(srcMac, dstMac, d);
            && LayoutOf(b) == Some(FrameLayout(14, Ipv4, 20, 34, Udp, 42, |b|))
            && b[..6] == dstMac && b[6..12] == srcMac && b[42..] == d.data
            && Be32(b, 26) == d.src.ip && Be32(b, 30) == d.dst.ip
            && Be16(b, 34) == d.src.port && Be16(b, 36) == d.dst.port && Be16(b, 38) == |b| - 34
  {
    hide LayoutOf, Be16, Be32, EthernetHeader, Ipv4Header, UdpHeader;
    var ip, udp := Ipv4Header(28 + |d.data|, 17, d.src.ip, d.dst.ip), UdpHeader(d);
    var b := UdpRaw(srcMac, dstMac, d);
    assert b == EthernetHeader(srcMac, dstMac, ETHERTYPE_IPV4) + ip + (udp + d.data);
    Headers(srcMac, dstMac, ip, udp + d.data);
    Ipv4Fields(28 + |d.data|, 17, d.src.ip, d.dst.ip);
    UdpFields(d);
    assert b[34..42] == udp && b[42..] == d.data by {
      assert (udp + d.data)[..8] == udp && (udp + d.data)[8..] == d.data;
    }
    assert b[14] == b[14..34][0] && b[23] == b[14..34][9];
    Slice16(b, 14, 34, 2);
    Slice32(b, 14, 34, 12);
    Slice32(b, 14, 34, 16);
    Slice16(b, 34, 42, 0);
    Slice16(b, 34, 42, 2);
    Slice16(b, 34, 42, 4);
    PlainLayout(b, 28 + |d.data|);
  }

  /** The same header bytes on a datagram, and a UDP checksum that is never left out. */
  lemma UdpPlain(srcMac: Mac, dstMac: Mac, d: Datagram)
    requires |d.data| <= MAX_UDP_PAYLOAD
    ensures var f := UdpFrame(srcMac, dstMac, d);
            && |f| == 42 + |d.data| && f[12..16] == [0x08, 0x00, 0x45, 0x00] && f[18..24] == [0, 0, 0x40, 0, 64, 17]
            && Be16(f, 40) != 0
  {
    hide LayoutOf, Repaired, Be32, UdpRaw, Sane;
    UdpRawFields(srcMac, dstMac, d);
    var raw := UdpRaw(srcMac, dstMac, d);
    var l := FrameLayout(14, Ipv4, 20, 34, Udp, 42, |raw|);
    UdpRawPlain(srcMac, dstMac, d);
    KeptSlice(raw, l, 12, 16);
    KeptSlice(raw, l, 18, 24);
    UdpNeverZero(raw, l);
  }

  lemma UdpRawPlain(srcMac: Mac, dstMac: Mac, d: Datagram)
    ensures var b := UdpRaw(srcMac, dstMac, d);
            b[12..16] == [0x08, 0x00, 0x45, 0x00] && b[18..24] == [0, 0, 0x40, 0, 64, 17]
  {
    var b := UdpRaw(srcMac, dstMac, d);
    assert b[12] == 8 && b[13] == 0 && b[14] == 0x45 && b[15] == 0;
  }

  lemma UdpRoundTrip(srcMac: Mac, dstMac: Mac, d: Datagram)
    requires |d.data| <= MAX_UDP_PAYLOAD
    ensures ReceiveUdp(UdpFrame(srcMac, dstMac, d)) == Some(d)
    ensures UdpFrame(srcMac, dstMac, d)[..6] == dstMac && UdpFrame(srcMac, dstMac, d)[6..12] == srcMac
  {
    hide LayoutOf, Repaired, ChecksumsValid, Accepted, Be16, Be32, UdpRaw, Sane;
    UdpRawFields(srcMac, dstMac, d);
    var raw := UdpRaw(srcMac, dstMac, d);
    var l := FrameLayout(14, Ipv4, 20, 34, Udp, 42, |raw|);
    RepairVerdict(raw, l);
    RepairKeepsLayout(raw, l);
    CheckIsAcceptance(Repaired(raw, l), l);
    KeptFields(raw, l, 26);
    KeptFields(raw, l, 30);
    KeptFields(raw, l, 34);
    KeptFields(raw, l, 36);
    KeptSlice(raw, l, 0, 6);
    KeptSlice(raw, l, 6, 12);
    KeptSlice(raw, l, 42, |raw|);
    assert raw[42..|raw|] == raw[42..];
  }
}
