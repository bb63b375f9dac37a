/** ARP frames as bytes: an Ethernet header, the 28-byte packet of RFC 826, padding to the 60-byte minimum. */
module ArpWire {
  import opened Wire
  import opened ArpGraph

  const ETHERTYPE_ARP: u16 := 0x0806
  const OP_REQUEST: u16 := 1
  const OP_REPLY: u16 := 2
  const BROADCAST: Mac := [0xff, 0xff, 0xff, 0xff, 0xff, 0xff]
  const ZERO_MAC: Mac := [0, 0, 0, 0, 0, 0]

  function L2Frame(src: Mac, dst: Mac, ethertype: u16, payload: seq<byte>): seq<byte> {
    dst + src + BytesOf16(ethertype) + payload
  }

  function ArpPacket(oper: u16, sha: Mac, spa: u32, tha: Mac, tpa: u32): (r: seq<byte>)
    ensures |r| == 28
  {
    BytesOf16(1) + BytesOf16(0x0800) + [6, 4] + BytesOf16(oper) + sha + BytesOf32(spa) + tha + BytesOf32(tpa)
  }

  method Arp(ethDst: Mac, oper: u16, sha: Mac, spa: u32, tha: Mac, tpa: u32) returns (f: seq<byte>)
    ensures f == ArpFrame(ethDst, oper, sha, spa, tha, tpa)
  {
    var p: seq<byte> := BytesOf16(1);
    p := p + BytesOf16(0x0800);
    p := p + [6];
    p := p + [4];
    p := p + BytesOf16(oper);
    p := p + sha;
    p := p + BytesOf32(spa);
    p := p + tha;
    p := p + BytesOf32(tpa);
    assert p == ArpPacket(oper, sha, spa, tha, tpa);
    f := L2Frame(sha, ethDst, ETHERTYPE_ARP, p);
    if |f| < 60 {
      f := f + seq(60 - |f|, _ => 0);
    }
  }

  function ArpFrame(ethDst: Mac, oper: u16, sha: Mac, spa: u32, tha: Mac, tpa: u32): (r: seq<byte>)
    ensures |r| == 60
  {
    var f := L2Frame(sha, ethDst, ETHERTYPE_ARP, ArpPacket(oper, sha, spa, tha, tpa));
    f + seq(60 - |f|, _ => 0)
  }

  /** What a receiver reads at the fixed offsets of RFC 826 behind an Ethernet header. */
  lemma ArpFields(ethDst: Mac, oper: u16, sha: Mac, spa: u32, tha: Mac, tpa: u32)
    ensures var f := ArpFrame(ethDst, oper, sha, spa, tha, tpa);
            && f[..6] == ethDst && f[6..12] == sha && Be16(f, 12) == 0x0806
            && Be16(f, 14) == 1 && Be16(f, 16) == 0x0800 && f[18] == 6 && f[19] == 4 && Be16(f, 20) == oper
            && f[22..28] == sha && Be32(f, 28) == spa && f[32..38] == tha && Be32(f, 38) == tpa
            && forall i :: 42 <= i < 60 ==> f[i] == 0
  {
    var f := ArpFrame(ethDst, oper, sha, spa, tha, tpa);
    var o, s, t := BytesOf16(oper), BytesOf32(spa), BytesOf32(tpa);
    assert f[12] == 8 && f[13] == 6;
    assert f[20] == o[0] && f[21] == o[1];
    assert f[28] == s[0] && f[29] == s[1] && f[30] == s[2] && f[31] == s[3];
    assert f[38] == t[0] && f[39] == t[1] && f[40] == t[2] && f[41] == t[3];
  }

  function Request(mac: Mac, ip: u32, target: u32): seq<byte> {
    ArpFrame(BROADCAST, OP_REQUEST, mac, ip, ZERO_MAC, target)
  }

  function Reply(mac: Mac, ip: u32, targetMac: Mac, target: u32): seq<byte> {
    ArpFrame(targetMac, OP_REPLY, mac, ip, targetMac, target)
  }

  /** The requester's broadcast question, then the owner's unicast answer. */
  function Resolve(e: Edge): seq<seq<byte>> {
    [Request(e.requester.mac, e.requester.ip, e.owner.ip),
     Reply(e.owner.mac, e.owner.ip, e.requester.mac, e.requester.ip)]
  }

  /** The question goes to everyone and names no target hardware; the answer goes to who asked, and names it. */
  lemma ResolveFields(e: Edge)
    ensures |Resolve(e)| == 2 && |Resolve(e)[0]| == 60 && |Resolve(e)[1]| == 60
    ensures var q := Resolve(e)[0];
            && (forall i :: 0 <= i < 6 ==> q[i] == 0xff) && q[6..12] == q[22..28] == e.requester.mac
            && Be16(q, 20) == 1 && Be32(q, 28) == e.requester.ip && Be32(q, 38) == e.owner.ip
            && (forall i :: 32 <= i < 38 ==> q[i] == 0)
    ensures var a := Resolve(e)[1];
            && a[..6] == a[32..38] == e.requester.mac && a[6..12] == a[22..28] == e.owner.mac
            && Be16(a, 20) == 2 && Be32(a, 28) == e.owner.ip && Be32(a, 38) == e.requester.ip
  {
    ArpFields(BROADCAST, OP_REQUEST, e.requester.mac, e.requester.ip, ZERO_MAC, e.owner.ip);
    ArpFields(e.requester.mac, OP_REPLY, e.owner.mac, e.owner.ip, e.requester.mac, e.requester.ip);
    hide ArpFrame;
    var q := Resolve(e)[0];
    assert forall i :: 0 <= i < 6 ==> q[i] == q[..6][i];
    assert forall i :: 32 <= i < 38 ==> q[i] == q[32..38][i - 32];
  }

  /** The burst of a communication graph, edge by edge. */
  function Render(edges: seq<Edge>): seq<seq<byte>> {
    if edges == [] then [] else Render(edges[..|edges| - 1]) + Resolve(edges[|edges| - 1])
  }
}
