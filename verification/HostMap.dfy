/**
 Rewriting one captured frame through a host map, and the fail-closed filters that decide whether
 the result may reach the wire.
 */
module HostMap {
  import opened Wire
  import opened Frame
  import opened Checksum

  /** Unicast, non-loopback, non-reserved: the addresses that are relocated. */
  predicate IsRemappable(addr: u32) {
    var o0 := addr / 0x100_0000;
    o0 != 0 && o0 != 127 && o0 < 224
  }

  /** IPv4-over-Ethernet ARP, the only ARP shape whose addresses are remapped. */
  predicate IsArpIpv4(b: seq<byte>, l3: nat) {
    && 2 <= l3 && l3 + 28 <= |b|
    && Be16(b, l3 - 2) == 0x0806
    && Be16(b, l3) == 1
    && Be16(b, l3 + 2) == 0x0800
    && b[l3 + 4] == 6 && b[l3 + 5] == 4
  }

  /** Where a frame carries its two IPv4 addresses, if it carries any. */
  function AddressOffsets(b: seq<byte>): (r: Option<(nat, nat)>)
    ensures r.Some? ==> 26 <= r.value.0 && r.value.0 + 4 <= r.value.1 && r.value.1 + 4 <= |b|
  {
    match LayoutOf(b)
    case None => None
    case Some(l) =>
      if l.l3Kind == Ipv4 then Some((l.l3 + 12, l.l3 + 16))
      else if IsArpIpv4(b, l.l3) then Some((l.l3 + 14, l.l3 + 24))
      else None
  }

  /** Source and destination of an IPv4 frame, sender and target of an IPv4 ARP frame. */
  function Endpoints(b: seq<byte>): Option<(u32, u32)> {
    match AddressOffsets(b)
    case None => None
    case Some(o) => Some((Be32(b, o.0), Be32(b, o.1)))
  }

  function EthDst(b: seq<byte>): Mac requires |b| >= 14 { b[..6] }
  function EthSrc(b: seq<byte>): Mac requires |b| >= 14 { b[6..12] }
  function SenderHw(b: seq<byte>, l3: nat): Mac requires l3 + 14 <= |b| { b[l3 + 8..l3 + 14] }
  function TargetHw(b: seq<byte>, l3: nat): Mac requires l3 + 24 <= |b| { b[l3 + 18..l3 + 24] }

  /** The hardware address of a new address: an explicit override, else its stable one. */
  function MacFor(overrides: map<u32, Mac>, stable: u32 -> Mac, ip: u32): Mac {
    if ip in overrides then overrides[ip] else stable(ip)
  }

  function Mapped(m: map<u32, u32>, addr: u32): u32 {
    if addr in m then m[addr] else addr
  }

  /** The relocated ranges: 1.0.0.0 to 126.255.255.255 and 128.0.0.0 to 223.255.255.255. */
  lemma RemappableRanges(addr: u32)
    ensures IsRemappable(addr) <==> 0x0100_0000 <= addr < 0x7f00_0000 || 0x8000_0000 <= addr < 0xe000_0000
  {
  }

  /** An ARP frame is remapped exactly for Ethernet and IPv4 addresses, whatever precedes its ethertype. */
  lemma ArpShapes(pre: seq<byte>, header: seq<byte>, body: seq<byte>)
    requires |pre| >= 12 && |header| == 8
    ensures var b := pre + header + body;
            IsArpIpv4(b, |pre| + 2) <==> header == [8, 6, 0, 1, 8, 0, 6, 4] && |body| >= 22
  {
    var b := pre + header + body;
    assert forall k :: 0 <= k < 8 ==> b[|pre| + k] == header[k];
    assert header == [header[0], header[1], header[2], header[3], header[4], header[5], header[6], header[7]];
  }

  /** Unset and broadcast hardware addresses are not real, any other is. */
  lemma RealHardware(hw: Mac)
    ensures IsRealHw(hw) <==> (exists i :: 0 <= i < 6 && hw[i] != 0) && exists i :: 0 <= i < 6 && hw[i] != 0xff
  {
    assert hw == [hw[0], hw[1], hw[2], hw[3], hw[4], hw[5]];
  }

  // ----- The rewrite as a function ------------------------------------------------------------

  function PutAddr(b: seq<byte>, off: nat, m: map<u32, u32>): (r: seq<byte>)
    requires off + 4 <= |b|
    ensures |r| == |b|
  {
    Put(b, off, BytesOf32(Mapped(m, Be32(b, off))))
  }

  function WithAddresses(b: seq<byte>, offs: (nat, nat), m: map<u32, u32>): (r: seq<byte>)
    requires offs.0 + 4 <= offs.1 && offs.1 + 4 <= |b|
    ensures |r| == |b|
    ensures Be32(r, offs.0) == Mapped(m, Be32(b, offs.0)) && Be32(r, offs.1) == Mapped(m, Be32(b, offs.1))
    ensures forall i :: 0 <= i < |b| && !(offs.0 <= i < offs.0 + 4) && !(offs.1 <= i < offs.1 + 4) ==> r[i] == b[i]
  {
    var r := PutAddr(PutAddr(b, offs.0, m), offs.1, m);
    PutAddrRead(b, offs, m);
    r
  }

  lemma PutAddrRead(b: seq<byte>, offs: (nat, nat), m: map<u32, u32>)
    requires offs.0 + 4 <= offs.1 && offs.1 + 4 <= |b|
    ensures var r := PutAddr(PutAddr(b, offs.0, m), offs.1, m);
            Be32(r, offs.0) == Mapped(m, Be32(b, offs.0)) && Be32(r, offs.1) == Mapped(m, Be32(b, offs.1))
  {
    var p := PutAddr(b, offs.0, m);
    var r := PutAddr(p, offs.1, m);
    assert Be32(p, offs.1) == Be32(b, offs.1);
    assert Be32(p, offs.0) == Be32(BytesOf32(Mapped(m, Be32(b, offs.0))), 0);
    assert Be32(r, offs.0) == Be32(p, offs.0);
    assert Be32(r, offs.1) == Be32(BytesOf32(Mapped(m, Be32(b, offs.1))), 0);
  }

  function WithEthSrc(b: seq<byte>, hw: Mac): (r: seq<byte>)
    requires |b| >= 14
    ensures |r| == |b| && EthSrc(r) == hw
    ensures forall i :: 0 <= i < 6 || 12 <= i < |b| ==> r[i] == b[i]
  {
    Put(b, 6, hw)
  }

  function WithEthDst(b: seq<byte>, hw: Mac): (r: seq<byte>)
    requires |b| >= 14
    ensures |r| == |b| && EthDst(r) == hw && EthSrc(r) == EthSrc(b)
    ensures forall i :: 6 <= i < |b| ==> r[i] == b[i]
  {
    Put(b, 0, hw)
  }

  /** The sender's hardware address in ARP, and the Ethernet source to match. */
  function WithSender(b: seq<byte>, l3: nat, hw: Mac): (r: seq<byte>)
    requires l3 >= 14 && l3 + 28 <= |b|
    ensures |r| == |b| && EthSrc(r) == hw && SenderHw(r, l3) == hw
    ensures forall i :: 0 <= i < 6 || 12 <= i < l3 + 8 || l3 + 14 <= i < |b| ==> r[i] == b[i]
  {
    WithEthSrc(Put(b, l3 + 8, hw), hw)
  }

  /** The target's hardware address in ARP, and the Ethernet destination to match. */
  function WithTarget(b: seq<byte>, l3: nat, hw: Mac): (r: seq<byte>)
    requires l3 >= 14 && l3 + 28 <= |b|
    ensures |r| == |b| && EthDst(r) == hw && TargetHw(r, l3) == hw
    ensures EthSrc(r) == EthSrc(b) && SenderHw(r, l3) == SenderHw(b, l3)
    ensures forall i :: 6 <= i < l3 + 18 || l3 + 24 <= i < |b| ==> r[i] == b[i]
  {
    WithEthDst(Put(b, l3 + 18, hw), hw)
  }

  /** IPv4: both addresses, repaired checksums on a change, then the Ethernet addresses. */
  function RewrittenIpv4(b: seq<byte>, l: FrameLayout, m: map<u32, u32>, mac: u32 -> Mac,
                         remapMac: bool): (r: seq<byte>)
    requires Sane(|b|, l) && l.l3Kind == Ipv4 && l.l3 >= 14
    ensures |r| == |b|
  {
    var s, d := Be32(b, l.l3 + 12), Be32(b, l.l3 + 16);
    var addressed := WithAddresses(b, (l.l3 + 12, l.l3 + 16), m);
    var repaired := if s in m || d in m then Repaired(addressed, l) else addressed;
    var sourced := if remapMac && s in m then WithEthSrc(repaired, mac(m[s])) else repaired;
    if remapMac && d in m && sourced[0] % 2 == 0 then WithEthDst(sourced, mac(m[d])) else sourced
  }

  predicate IsRealHw(hw: Mac) {
    hw != [0, 0, 0, 0, 0, 0] && hw != [0xff, 0xff, 0xff, 0xff, 0xff, 0xff]
  }

  /** ARP: both protocol addresses, the sender's hardware address, and a reply's target one. */
  function RewrittenArp(b: seq<byte>, l3: nat, m: map<u32, u32>, mac: u32 -> Mac, remapMac: bool): (r: seq<byte>)
    requires l3 >= 14
    ensures |r| == |b|
  {
    if !IsArpIpv4(b, l3) then b else
    var s, d := Be32(b, l3 + 14), Be32(b, l3 + 24);
    var addressed := WithAddresses(b, (l3 + 14, l3 + 24), m);
    var sourced := if remapMac && s in m then WithSender(addressed, l3, mac(m[s])) else addressed;
    if remapMac && d in m && IsRealHw(TargetHw(sourced, l3))
    then WithTarget(sourced, l3, mac(m[d])) else sourced
  }

  function Rewritten(b: seq<byte>, m: map<u32, u32>, mac: u32 -> Mac, remapMac: bool): (r: seq<byte>)
    ensures |r| == |b|
  {
    match LayoutOf(b)
    case None => b
    case Some(l) =>
      if l.l3Kind == Ipv4 then RewrittenIpv4(b, l, m, mac, remapMac)
      else RewrittenArp(b, l.l3, m, mac, remapMac)
  }

  // ----- The rewrite in place -----------------------------------------------------------------

  lemma PutSame(b: seq<byte>, off: nat, m: map<u32, u32>)
    requires off + 4 <= |b| && Be32(b, off) !in m
    ensures PutAddr(b, off, m) == b
  {
    Be32Injective(BytesOf32(Be32(b, off)), 0, b, off);
    assert BytesOf32(Be32(b, off)) == b[off..off + 4];
  }

  method RewriteAddr(buf: array<byte>, off: nat, m: map<u32, u32>) returns (changed: Option<u32>)
    requires off + 4 <= buf.Length
    modifies buf
    ensures buf[..] == PutAddr(old(buf[..]), off, m)
    ensures changed == if Be32(old(buf[..]), off) in m then Some(m[Be32(old(buf[..]), off)]) else None
  {
    var addr := Be32(buf[..], off);
    if addr in m {
      CopyFromSlice(buf, off, BytesOf32(m[addr]));
      return Some(m[addr]);
    }
    PutSame(buf[..], off, m);
    changed := None;
  }

  lemma PutAddrElsewhere(b: seq<byte>, off: nat, m: map<u32, u32>, other: nat)
    requires off + 4 <= other && other + 4 <= |b|
    ensures Be32(PutAddr(b, off, m), other) == Be32(b, other)
  {
  }

  method RewriteIpv4(buf: array<byte>, l: FrameLayout, m: map<u32, u32>, mac: u32 -> Mac, remapMac: bool)
    requires Sane(buf.Length, l) && l.l3Kind == Ipv4 && l.l3 >= 14
    modifies buf
    ensures buf[..] == RewrittenIpv4(old(buf[..]), l, m, mac, remapMac)
  {
    hide Repaired, Put, Be32, PutAddr;
    ghost var b := buf[..];
    PutAddrElsewhere(b, l.l3 + 12, m, l.l3 + 16);
    var newSrc := RewriteAddr(buf, l.l3 + 12, m);
    var newDst := RewriteAddr(buf, l.l3 + 16, m);
    if newSrc.Some? || newDst.Some? {
      RecomputeChecksums(buf, l);
    }
    if remapMac {
      if newSrc.Some? {
        CopyFromSlice(buf, 6, mac(newSrc.value));
      }
      if newDst.Some? && buf[0] % 2 == 0 {
        CopyFromSlice(buf, 0, mac(newDst.value));
      }
    }
  }

  method RewriteArp(buf: array<byte>, l3: nat, m: map<u32, u32>, mac: u32 -> Mac, remapMac: bool)
    requires l3 >= 14
    modifies buf
    ensures buf[..] == RewrittenArp(old(buf[..]), l3, m, mac, remapMac)
  {
    hide Put, Be32, PutAddr, IsRealHw;
    ghost var b := buf[..];
    if !IsArpIpv4(buf[..], l3) {
      return;
    }
    ArpReadOrder(b, l3, m, if Be32(b, l3 + 14) in m then mac(m[Be32(b, l3 + 14)]) else [0, 0, 0, 0, 0, 0]);
    var newSpa := RewriteAddr(buf, l3 + 14, m);
    if remapMac && newSpa.Some? {
      CopyFromSlice(buf, l3 + 8, mac(newSpa.value));
      CopyFromSlice(buf, 6, mac(newSpa.value));
    }
    var newTpa := RewriteAddr(buf, l3 + 24, m);
    if remapMac && newTpa.Some? {
      if IsRealHw(TargetHw(buf[..], l3)) {
        CopyFromSlice(buf, l3 + 18, mac(newTpa.value));
        CopyFromSlice(buf, 0, mac(newTpa.value));
      }
    }
  }

  lemma PutCommute(b: seq<byte>, i: nat, x: seq<byte>, j: nat, y: seq<byte>)
    requires i + |x| <= |b| && j + |y| <= |b| && (i + |x| <= j || j + |y| <= i)
    ensures Put(Put(b, i, x), j, y) == Put(Put(b, j, y), i, x)
  {
  }

  lemma PutElsewhere(b: seq<byte>, i: nat, x: seq<byte>, j: nat)
    requires i + |x| <= |b| && j + 4 <= |b| && (i + |x| <= j || j + 4 <= i)
    ensures Be32(Put(b, i, x), j) == Be32(b, j)
  {
  }

  /** Writing the sender's fields first does not change what is then read for the target. */
  lemma ArpReadOrder(b: seq<byte>, l3: nat, m: map<u32, u32>, hw: Mac)
    requires l3 >= 14 && l3 + 28 <= |b|
    ensures var p := PutAddr(b, l3 + 14, m);
            var q := Put(Put(p, l3 + 8, hw), 6, hw);
            && Be32(p, l3 + 24) == Be32(b, l3 + 24) == Be32(q, l3 + 24)
            && PutAddr(q, l3 + 24, m) == Put(Put(WithAddresses(b, (l3 + 14, l3 + 24), m), l3 + 8, hw), 6, hw)
  {
    hide Put, Be32;
    var p, s, t := PutAddr(b, l3 + 14, m), l3 + 14, l3 + 24;
    var h := Put(p, l3 + 8, hw);
    PutElsewhere(b, s, BytesOf32(Mapped(m, Be32(b, s))), t);
    PutElsewhere(p, l3 + 8, hw, t);
    PutElsewhere(h, 6, hw, t);
    var v := BytesOf32(Mapped(m, Be32(b, t)));
    PutCommute(p, l3 + 8, hw, t, v);
    PutCommute(h, 6, hw, t, v);
  }

  method RewriteFrame(buf: array<byte>, m: map<u32, u32>, mac: u32 -> Mac, remapMac: bool)
    modifies buf
    ensures buf[..] == Rewritten(old(buf[..]), m, mac, remapMac)
  {
    var layout := ParseLayout(buf[..]);
    if layout.Some? {
      if layout.value.l3Kind == Ipv4 {
        RewriteIpv4(buf, layout.value, m, mac, remapMac);
      } else {
        RewriteArp(buf, layout.value.l3, m, mac, remapMac);
      }
    }
  }

  // ----- What the rewrite achieves ------------------------------------------------------------

  lemma Be32Agree(b: seq<byte>, c: seq<byte>, o: nat)
    requires o + 4 <= |b| && o + 4 <= |c|
    requires forall i :: o <= i < o + 4 ==> b[i] == c[i]
    ensures Be32(b, o) == Be32(c, o)
  {
  }

  lemma Ipv4RewriteKeeps(b: seq<byte>, l: FrameLayout, m: map<u32, u32>, mac: u32 -> Mac, remapMac: bool)
    requires Sane(|b|, l) && l.l3Kind == Ipv4 && l.l3 >= 14
    ensures var r := RewrittenIpv4(b, l, m, mac, remapMac);
            && SameShape(b, r, l)
            && Be32(r, l.l3 + 12) == Mapped(m, Be32(b, l.l3 + 12))
            && Be32(r, l.l3 + 16) == Mapped(m, Be32(b, l.l3 + 16))
            && (remapMac && Be32(b, l.l3 + 12) in m ==> EthSrc(r) == mac(m[Be32(b, l.l3 + 12)]))
            && (Be32(b, l.l3 + 12) !in m ==> EthSrc(r) == EthSrc(b))
  {
    hide Repaired, WithAddresses, WithEthSrc, WithEthDst, Be32, Mapped;
    var a := WithAddresses(b, (l.l3 + 12, l.l3 + 16), m);
    var r := RewrittenIpv4(b, l, m, mac, remapMac);
    RepairTouchesOnly(a, l);
    Be32Agree(a, r, l.l3 + 12);
    Be32Agree(a, r, l.l3 + 16);
  }

  lemma RepairTouchesOnly(b: seq<byte>, l: FrameLayout)
    requires Sane(|b|, l) && l.l3Kind == Ipv4
    ensures forall i :: 0 <= i < |b| && i != l.l3 + 10 && i != l.l3 + 11
              && !(l.l4Kind != OtherL4 && l.l4 + FieldOffset(l.l4Kind) <= i < l.l4 + FieldOffset(l.l4Kind) + 2)
              ==> Repaired(b, l)[i] == b[i]
  {
    hide Repaired;
    forall i | 0 <= i < |b| && i != l.l3 + 10 && i != l.l3 + 11
               && !(l.l4Kind != OtherL4 && l.l4 + FieldOffset(l.l4Kind) <= i < l.l4 + FieldOffset(l.l4Kind) + 2)
      ensures Repaired(b, l)[i] == b[i]
    {
      RepairTouchesChecksumsOnly(b, l, i);
    }
  }

  lemma ArpRewriteKeeps(b: seq<byte>, l3: nat, m: map<u32, u32>, mac: u32 -> Mac, remapMac: bool)
    requires l3 >= 14 && IsArpIpv4(b, l3)
    ensures var r := RewrittenArp(b, l3, m, mac, remapMac);
            && (forall i :: 12 <= i < l3 + 8 ==> r[i] == b[i])
            && Be32(r, l3 + 14) == Mapped(m, Be32(b, l3 + 14))
            && Be32(r, l3 + 24) == Mapped(m, Be32(b, l3 + 24))
            && (remapMac && Be32(b, l3 + 14) in m ==>
                  EthSrc(r) == mac(m[Be32(b, l3 + 14)]) && SenderHw(r, l3) == mac(m[Be32(b, l3 + 14)]))
            && (Be32(b, l3 + 14) !in m ==> EthSrc(r) == EthSrc(b) && SenderHw(r, l3) == SenderHw(b, l3))
  {
    hide WithAddresses, WithSender, WithTarget, Be32, Mapped, IsRealHw;
    var a := WithAddresses(b, (l3 + 14, l3 + 24), m);
    var r := RewrittenArp(b, l3, m, mac, remapMac);
    Be32Agree(a, r, l3 + 14);
    Be32Agree(a, r, l3 + 24);
  }

  /** A frame's Ethernet source, and its sender hardware address if it is ARP, are both `hw`. */
  predicate SourceHardwareIs(b: seq<byte>, hw: Mac) {
    match LayoutOf(b)
    case None => false
    case Some(l) => EthSrc(b) == hw && (l.l3Kind == OtherL3 ==> l.l3 + 14 <= |b| && SenderHw(b, l.l3) == hw)
  }

  /** `r` is `b` with its addresses mapped and, when MACs follow, its source hardware in step. */
  ghost predicate IsMapping(b: seq<byte>, r: seq<byte>, m: map<u32, u32>, mac: u32 -> Mac, remapMac: bool) {
    && LayoutOf(r) == LayoutOf(b)
    && AddressOffsets(r) == AddressOffsets(b)
    && (Endpoints(b).Some? ==>
          var (s, d) := Endpoints(b).value;
          && Endpoints(r) == Some((Mapped(m, s), Mapped(m, d)))
          && (remapMac && s in m ==> SourceHardwareIs(r, mac(m[s])))
          && (s !in m ==> forall hw :: SourceHardwareIs(r, hw) <==> SourceHardwareIs(b, hw)))
  }

  lemma Ipv4Maps(b: seq<byte>, l: FrameLayout, m: map<u32, u32>, mac: u32 -> Mac, remapMac: bool)
    requires LayoutOf(b) == Some(l) && l.l3Kind == Ipv4
    ensures IsMapping(b, RewrittenIpv4(b, l, m, mac, remapMac), m, mac, remapMac)
  {
    hide LayoutOf, Be32, Be16, RewrittenIpv4, SameShape, Mapped;
    Ipv4RewriteKeeps(b, l, m, mac, remapMac);
    LayoutKept(b, RewrittenIpv4(b, l, m, mac, remapMac), l);
  }

  lemma ArpMaps(b: seq<byte>, l: FrameLayout, m: map<u32, u32>, mac: u32 -> Mac, remapMac: bool)
    requires LayoutOf(b) == Some(l) && l.l3Kind == OtherL3 && IsArpIpv4(b, l.l3)
    ensures IsMapping(b, RewrittenArp(b, l.l3, m, mac, remapMac), m, mac, remapMac)
  {
    hide LayoutOf, Be32, Be16, RewrittenArp, Mapped, IsArpIpv4;
    var r := RewrittenArp(b, l.l3, m, mac, remapMac);
    NonIpv4Shape(b, l);
    ArpRewriteKeeps(b, l.l3, m, mac, remapMac);
    ArpShapeKept(b, r, l.l3);
    LayoutKept(b, r, l);
  }

  lemma ArpShapeKept(b: seq<byte>, r: seq<byte>, l3: nat)
    requires l3 >= 14 && IsArpIpv4(b, l3) && |r| == |b|
    requires forall i :: 12 <= i < l3 + 8 ==> r[i] == b[i]
    ensures IsArpIpv4(r, l3)
  {
  }

  /** The rewrite keeps a frame's shape and maps both its addresses and its sender's hardware address. */
  lemma RewriteMaps(b: seq<byte>, m: map<u32, u32>, mac: u32 -> Mac, remapMac: bool)
    requires LayoutOf(b).Some?
    ensures IsMapping(b, Rewritten(b, m, mac, remapMac), m, mac, remapMac)
  {
    hide LayoutOf, Be32, RewrittenIpv4, RewrittenArp, IsArpIpv4;
    var l := LayoutOf(b).value;
    if l.l3Kind == Ipv4 {
      Ipv4Maps(b, l, m, mac, remapMac);
    } else if IsArpIpv4(b, l.l3) {
      ArpMaps(b, l, m, mac, remapMac);
    } else {
      ArpUntouched(b, l.l3, m, mac, remapMac);
    }
  }

  /** Whether the destination's hardware address follows: a unicast IPv4 frame, an ARP frame that names its target's. */
  predicate DestinationFollows(b: seq<byte>, l: FrameLayout)
    requires Sane(|b|, l) && l.l3 >= 14
  {
    if l.l3Kind == Ipv4 then b[0] % 2 == 0 else IsArpIpv4(b, l.l3) && IsRealHw(TargetHw(b, l.l3))
  }

  /**
   The destination's hardware: it becomes the new destination's exactly for a mapped destination that
   it follows. A unicast ARP request that names no target hardware keeps its Ethernet destination.
   */
  lemma DestinationHardware(b: seq<byte>, l: FrameLayout, m: map<u32, u32>, mac: u32 -> Mac, remapMac: bool)
    requires LayoutOf(b) == Some(l) && Endpoints(b).Some?
    ensures var d, r := Endpoints(b).value.1, Rewritten(b, m, mac, remapMac);
            var moved := remapMac && d in m && DestinationFollows(b, l);
            EthDst(r) == if moved then mac(m[d]) else EthDst(b)
  {
    hide LayoutOf, RewrittenIpv4, RewrittenArp, Be32, IsRealHw;
    if l.l3Kind == Ipv4 {
      Ipv4Destination(b, l, m, mac, remapMac);
    } else {
      ArpDestination(b, l.l3, m, mac, remapMac);
    }
  }

  lemma Ipv4Destination(b: seq<byte>, l: FrameLayout, m: map<u32, u32>, mac: u32 -> Mac, remapMac: bool)
    requires Sane(|b|, l) && l.l3Kind == Ipv4 && l.l3 >= 14
    ensures var d := Be32(b, l.l3 + 16);
            EthDst(RewrittenIpv4(b, l, m, mac, remapMac)) ==
              if remapMac && d in m && b[0] % 2 == 0 then mac(m[d]) else EthDst(b)
  {
    hide Repaired, WithAddresses, WithEthSrc, WithEthDst, Be32, Mapped;
    var a := WithAddresses(b, (l.l3 + 12, l.l3 + 16), m);
    RepairTouchesOnly(a, l);
    assert EthDst(a) == EthDst(b) == EthDst(Repaired(a, l));
  }

  /** The target's hardware address inside ARP moves in step with the Ethernet destination. */
  lemma ArpDestination(b: seq<byte>, l3: nat, m: map<u32, u32>, mac: u32 -> Mac, remapMac: bool)
    requires l3 >= 14 && IsArpIpv4(b, l3)
    ensures var d, r := Be32(b, l3 + 24), RewrittenArp(b, l3, m, mac, remapMac);
            var moved := remapMac && d in m && IsRealHw(TargetHw(b, l3));
            && EthDst(r) == (if moved then mac(m[d]) else EthDst(b))
            && TargetHw(r, l3) == if moved then mac(m[d]) else TargetHw(b, l3)
  {
    hide WithAddresses, WithSender, WithTarget, Be32, Mapped, IsRealHw;
    var s := Be32(b, l3 + 14);
    var a := WithAddresses(b, (l3 + 14, l3 + 24), m);
    var sourced := if remapMac && s in m then WithSender(a, l3, mac(m[s])) else a;
    assert EthDst(sourced) == EthDst(b) && TargetHw(sourced, l3) == TargetHw(b, l3);
  }

  lemma NonIpv4Shape(b: seq<byte>, l: FrameLayout)
    requires LayoutOf(b) == Some(l) && l.l3Kind == OtherL3
    ensures l.l4Kind == OtherL4 && l.l3 >= 14
  {
  }

  lemma ArpUntouched(b: seq<byte>, l3: nat, m: map<u32, u32>, mac: u32 -> Mac, remapMac: bool)
    requires l3 >= 14 && !IsArpIpv4(b, l3)
    ensures RewrittenArp(b, l3, m, mac, remapMac) == b
  {
  }

  /** The bytes an address change may touch: Ethernet addresses, protocol and ARP hardware addresses, checksums. */
  predicate AddressByte(l: FrameLayout, remapMac: bool, i: nat) {
    || (remapMac && i < 12)
    || (if l.l3Kind == Ipv4 then
          || l.l3 + 10 <= i < l.l3 + 20
          || (l.l4Kind == Tcp && l.l4 + 16 <= i < l.l4 + 18)
          || (l.l4Kind == Udp && l.l4 + 6 <= i < l.l4 + 8)
        else if remapMac then l.l3 + 8 <= i < l.l3 + 28
        else l.l3 + 14 <= i < l.l3 + 18 || l.l3 + 24 <= i < l.l3 + 28)
  }

  /** Payloads go through untouched, and a frame between unmapped hosts altogether. */
  lemma RewriteTouchesOnly(b: seq<byte>, m: map<u32, u32>, mac: u32 -> Mac, remapMac: bool)
    ensures var r := Rewritten(b, m, mac, remapMac);
            && (forall i :: 0 <= i < |b| && r[i] != b[i] ==>
                  LayoutOf(b).Some? && AddressByte(LayoutOf(b).value, remapMac, i))
            && (Endpoints(b).Some? && Endpoints(b).value.0 !in m && Endpoints(b).value.1 !in m ==> r == b)
  {
    hide LayoutOf, RewrittenIpv4, RewrittenArp, Be32, IsArpIpv4;
    if LayoutOf(b).Some? {
      var l := LayoutOf(b).value;
      LayoutReads(b, l);
      if l.l3Kind == Ipv4 {
        Ipv4TouchesOnly(b, l, m, mac, remapMac);
      } else {
        NonIpv4Shape(b, l);
        ArpTouchesOnly(b, l.l3, m, mac, remapMac);
      }
    }
  }

  lemma Ipv4TouchesOnly(b: seq<byte>, l: FrameLayout, m: map<u32, u32>, mac: u32 -> Mac, remapMac: bool)
    requires Sane(|b|, l) && l.l3Kind == Ipv4 && l.l3 >= 14
    ensures var r := RewrittenIpv4(b, l, m, mac, remapMac);
            && (forall i :: 0 <= i < |b| && r[i] != b[i] ==> AddressByte(l, remapMac, i))
            && (Be32(b, l.l3 + 12) !in m && Be32(b, l.l3 + 16) !in m ==> r == b)
  {
    hide Repaired, WithEthSrc, WithEthDst, Be32, Mapped, PutAddr;
    var a := WithAddresses(b, (l.l3 + 12, l.l3 + 16), m);
    RepairTouchesOnly(a, l);
    if Be32(b, l.l3 + 12) !in m && Be32(b, l.l3 + 16) !in m {
      PutSame(b, l.l3 + 12, m);
      PutSame(b, l.l3 + 16, m);
    }
  }

  lemma ArpTouchesOnly(b: seq<byte>, l3: nat, m: map<u32, u32>, mac: u32 -> Mac, remapMac: bool)
    requires l3 >= 14
    ensures var r := RewrittenArp(b, l3, m, mac, remapMac);
            && (forall i :: 0 <= i < |b| && r[i] != b[i] ==>
                  AddressByte(FrameLayout(l3, OtherL3, 0, l3, OtherL4, l3, |b|), remapMac, i))
            && (IsArpIpv4(b, l3) && Be32(b, l3 + 14) !in m && Be32(b, l3 + 24) !in m ==> r == b)
  {
    hide WithSender, WithTarget, Be32, Mapped, IsRealHw, PutAddr;
    if IsArpIpv4(b, l3) && Be32(b, l3 + 14) !in m && Be32(b, l3 + 24) !in m {
      PutSame(b, l3 + 14, m);
      PutSame(b, l3 + 24, m);
    }
  }

  lemma ValidBeyondMacs(b: seq<byte>, c: seq<byte>, l: FrameLayout)
    requires |b| == |c| && Sane(|b|, l) && l.l3Kind == Ipv4 && l.l3 >= 14
    requires b[12..] == c[12..]
    ensures ChecksumsValid(b, l) <==> ChecksumsValid(c, l)
  {
    assert forall i :: 12 <= i < |b| ==> b[i] == b[12..][i - 12] && c[i] == c[12..][i - 12];
    assert b[l.l3..l.l4] == c[l.l3..l.l4] && b[l.l4..l.end] == c[l.l4..l.end];
    assert PseudoHeader(b, l) == PseudoHeader(c, l);
  }

  /** Any frame whose addresses changed leaves with checksums that validate. */
  lemma RewriteChecksums(b: seq<byte>, l: FrameLayout, m: map<u32, u32>, mac: u32 -> Mac, remapMac: bool)
    requires LayoutOf(b) == Some(l) && l.l3Kind == Ipv4
    requires l.l4Kind == OtherL4 || FieldPlacement(l) == Inside
    requires Endpoints(b).value.0 in m || Endpoints(b).value.1 in m
    ensures ChecksumsValid(Rewritten(b, m, mac, remapMac), l)
  {
    hide Repaired, WithAddresses, ChecksumsValid, LayoutOf, Be32, WithEthSrc, WithEthDst, StoredChecksum, SegmentOk;
    var a := WithAddresses(b, (l.l3 + 12, l.l3 + 16), m);
    LayoutKept(b, a, l);
    RepairVerdict(a, l);
    ValidBeyondMacs(Repaired(a, l), Rewritten(b, m, mac, remapMac), l);
  }

  // ----- The output filters -------------------------------------------------------------------

  /** The coherence guard: provably a planned source, and a planned or non-host destination. */
  predicate Coherent(b: seq<byte>, valid: set<u32>) {
    match LayoutOf(b)
    case None => false
    case Some(l) =>
      if l.l3Kind == Ipv4 then
        && l.l3 + 20 <= |b|
        && l.l3 + Be16(b, l.l3 + 2) <= |b|
        && PlannedEnds(Be32(b, l.l3 + 12), Be32(b, l.l3 + 16), valid)
      else
        && 2 <= l.l3
        && Be16(b, l.l3 - 2) == 0x0806
        && IsArpIpv4(b, l.l3)
        && PlannedEnds(Be32(b, l.l3 + 14), Be32(b, l.l3 + 24), valid)
  }

  predicate PlannedEnds(src: u32, dst: u32, valid: set<u32>) {
    IsRemappable(src) && src in valid && (!IsRemappable(dst) || dst in valid)
  }

  /** An IPv4 packet is there to its announced end. */
  predicate WholePacket(b: seq<byte>) {
    match LayoutOf(b)
    case None => false
    case Some(l) => l.l3Kind == Ipv4 ==> l.l3 + b[l.l3 + 2] as int * 0x100 + b[l.l3 + 3] as int <= |b|
  }

  /**
   What the guard lets through, said of a frame's endpoints: a planned source, and a destination that is
   planned or no host at all, on a packet that is there in full.
   */
  lemma CoherentMeans(b: seq<byte>, valid: set<u32>)
    ensures Coherent(b, valid) <==>
              && Endpoints(b).Some? && WholePacket(b)
              && var (src, dst) := Endpoints(b).value;
                 && src in valid && IsRemappable(src)
                 && (dst in valid || !IsRemappable(dst))
  {
    hide Be32, IsRemappable;
    if LayoutOf(b).Some? {
      LayoutReads(b, LayoutOf(b).value);
    }
  }

  lemma LayoutReads(b: seq<byte>, l: FrameLayout)
    requires LayoutOf(b) == Some(l)
    ensures l.l3 >= 14 && (l.l3Kind == Ipv4 ==> l.l3 + 20 <= |b|)
  {
  }

  /** Some four consecutive bytes spell an original address. */
  predicate Leaks(b: seq<byte>, originals: set<u32>) {
    exists i :: 0 <= i <= |b| - 4 && Be32(b, i) in originals
  }

  /** What may reach the wire: only planned endpoints, hardware that matches them, no original address. */
  predicate PlanFrame(r: seq<byte>, m: map<u32, u32>, mac: u32 -> Mac) {
    match Endpoints(r)
    case None => false
    case Some((src, dst)) =>
      && (exists host :: host in m && m[host] == src)
      && SourceHardwareIs(r, mac(src))
      && (!IsRemappable(dst) || exists host :: host in m && m[host] == dst)
      && (forall i :: 0 <= i <= |r| - 4 ==> Be32(r, i) !in m)
  }

  /**
   Checksums validate wherever a repair can make them: every frame but one whose packet ends before its
   checksum field.
   */
  predicate ChecksumsHold(r: seq<byte>) {
    match LayoutOf(r)
    case None => false
    case Some(l) => l.l3Kind == Ipv4 && (l.l4Kind == OtherL4 || FieldPlacement(l) == Inside) ==> Accepted(r, l)
  }

  /** A source that looks planned is a mapped host, not a stranger at an image's address. */
  predicate SourceKnown(src: u32, m: map<u32, u32>) {
    IsRemappable(src) && src in m.Values ==> src in m
  }

  /** A frame that passes the coherence guard had its source mapped, hence its checksums repaired. */
  lemma SurvivorHolds(b: seq<byte>, m: map<u32, u32>, mac: u32 -> Mac, remapMac: bool)
    requires Endpoints(b).Some? ==> SourceKnown(Endpoints(b).value.0, m)
    requires Coherent(Rewritten(b, m, mac, remapMac), m.Values)
    ensures ChecksumsHold(Rewritten(b, m, mac, remapMac))
  {
    hide LayoutOf, Rewritten, Be32, Be16, IsArpIpv4, SourceHardwareIs, ChecksumsValid, FieldPlacement;
    UnparsedUntouched(b, m, mac, remapMac);
    RewriteMaps(b, m, mac, remapMac);
    var l := LayoutOf(b).value;
    if l.l3Kind == Ipv4 && (l.l4Kind == OtherL4 || FieldPlacement(l) == Inside) {
      var (src, dst) := Endpoints(Rewritten(b, m, mac, remapMac)).value;
      assert PlannedEnds(src, dst, m.Values);
      RewriteChecksums(b, l, m, mac, remapMac);
      CheckIsAcceptance(Rewritten(b, m, mac, remapMac), l);
    }
  }

  lemma UnparsedUntouched(b: seq<byte>, m: map<u32, u32>, mac: u32 -> Mac, remapMac: bool)
    ensures LayoutOf(b) == None ==> Rewritten(b, m, mac, remapMac) == b
  {
  }

  /**
   Plan equals wire, for one frame, exactly: what survives both filters is a plan frame if and only if
   its source had been mapped, or came with the hardware address derived for it all along.
   */
  lemma SurvivorPlannedIff(b: seq<byte>, m: map<u32, u32>, mac: u32 -> Mac)
    requires Coherent(Rewritten(b, m, mac, true), m.Values)
    requires !Leaks(Rewritten(b, m, mac, true), m.Keys)
    ensures Endpoints(b).Some?
    ensures var src := Endpoints(b).value.0;
            PlanFrame(Rewritten(b, m, mac, true), m, mac) <==> src in m || SourceHardwareIs(b, mac(src))
  {
    hide LayoutOf, Rewritten, Be32, Be16, IsArpIpv4, SourceHardwareIs;
    UnparsedUntouched(b, m, mac, true);
    RewriteMaps(b, m, mac, true);
    var (src, dst) := Endpoints(Rewritten(b, m, mac, true)).value;
    assert PlannedEnds(src, dst, m.Values);
  }

  lemma SurvivorIsPlanned(b: seq<byte>, m: map<u32, u32>, mac: u32 -> Mac)
    requires Endpoints(b).Some? ==> SourceKnown(Endpoints(b).value.0, m)
    requires Coherent(Rewritten(b, m, mac, true), m.Values)
    requires !Leaks(Rewritten(b, m, mac, true), m.Keys)
    ensures PlanFrame(Rewritten(b, m, mac, true), m, mac)
  {
    hide LayoutOf, Rewritten, Be32, Be16, IsArpIpv4, SourceHardwareIs, Leaks, PlanFrame;
    SurvivorPlannedIff(b, m, mac);
    RewriteMaps(b, m, mac, true);
    var (src, dst) := Endpoints(Rewritten(b, m, mac, true)).value;
    assert PlannedEnds(src, dst, m.Values);
  }
}
