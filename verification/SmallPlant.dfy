/** The smallest plants and captures a replay goes wrong on: one zone of two addresses, and bare headers. */
module SmallPlant {
  import opened Wire
  import opened Frame
  import opened Checksum
  import opened Net
  import opened Rng
  import opened Allocator
  import opened Macs
  import opened Placement
  import opened HostMap
  import opened Captures
  import opened Ledger
  import opened Engine
  import Reconcile
  import Remap

  const ORIGINAL: u32 := 0x0102_0305
  const STRANGER: u32 := 0x0A00_0005
  const NEW_IP: u32 := 0x0A00_0006
  const NATURAL: Mac := [4, 0, 0, 0, 0, 0]

  // ----- The frames ---------------------------------------------------------------------------

  /** A bare IPv4 header from `src` to 0.0.0.0 behind an Ethernet header without addresses. */
  function BareFrame(src: u32): (b: seq<byte>)
    ensures |b| == 34 && b[26..30] == BytesOf32(src)
    ensures forall i :: 0 <= i < 34 && !(26 <= i < 30) ==> b[i] == HeaderByte(i)
  {
    seq(26, i => HeaderByte(i)) + BytesOf32(src) + [0, 0, 0, 0]
  }

  function HeaderByte(i: int): byte {
    if i == 12 then 8 else if i == 14 then 0x45 else if i == 17 then 20 else 0
  }

  const BARE: FrameLayout := FrameLayout(14, Ipv4, 20, 34, OtherL4, 34, 34)

  lemma BareReads(src: u32)
    ensures var b := BareFrame(src);
            && LayoutOf(b) == Some(BARE) && Endpoints(b) == Some((src, 0)) && Be16(b, 16) == 20
            && Be32(b, 26) == src && Be32(b, 30) == 0 && EthSrc(b)[0] == 0
  {
    var b := BareFrame(src);
    assert Be16(b, 12) == 0x0800 && Be16(b, 16) == 20;
    assert Be32(b, 26) == Be32(BytesOf32(src), 0) by {
      assert forall k :: 0 <= k < 4 ==> b[26 + k] == b[26..30][k];
    }
  }

  /** Every four consecutive bytes include a zero, so none of them spell an address without one. */
  lemma NoLeak(r: seq<byte>, src: u32)
    requires |r| == 34 && STRANGER - 1 <= src <= STRANGER + 2 && r[26..30] == BytesOf32(src)
    requires forall i :: (0 <= i < 6 || 12 <= i < 24 || 30 <= i < 34) ==> r[i] == HeaderByte(i)
    requires forall i :: 7 <= i < 12 ==> r[i] == 0
    ensures !Leaks(r, {ORIGINAL})
  {
    assert r[27] == 0 && r[28] == 0 by {
      assert r[27] == r[26..30][1] && r[28] == r[26..30][2];
    }
    forall i | 0 <= i <= |r| - 4 ensures Be32(r, i) != ORIGINAL {
      assert r[i] == 0 || r[i + 1] == 0 || r[i + 2] == 0 || r[i + 3] == 0;
    }
  }

  // ----- The ledger and the policy ------------------------------------------------------------

  /** A zone with two host addresses, 10.0.0.5 and 10.0.0.6. */
  const ZONE: Block := Block(0x0A00_0004, 30)

  const EMPTY_ZONE: Plan := Plan([SubnetRecord(ZONE, "cell", 2, None)], [], [])

  /** The same zone with a firewall on its gateway slot, under the address the derivation starts from. */
  const GUARDED_ZONE: Plan := EMPTY_ZONE.(devices := [DeviceRecord(STRANGER, NATURAL, "", "", ZONE, Firewall)])

  function Salted(ip: u32, salt: nat): Mac {
    [4, 0, 0, 0, salt / 0x100 % 0x100, salt % 0x100]
  }

  /** Salts below 65536 all differ, so no fewer addresses exhaust them. */
  lemma SaltedSpreads(n: nat)
    requires n < 0x1_0000
    ensures Spreads(Salted, n)
  {
    forall ip: u32, used: set<Mac> | |used| <= n ensures HasFresh(Salted, ip, used) {
      if forall salt: nat :: Salted(ip, salt) in used {
        SaltedMany(ip, n + 1);
        SubsetSize(SaltedUpTo(ip, n + 1), used);
      }
    }
  }

  function SaltedUpTo(ip: u32, n: nat): set<Mac> {
    set s | 0 <= s < n :: Salted(ip, s)
  }

  lemma {:induction false} SaltedMany(ip: u32, n: nat)
    requires n <= 0x1_0000
    ensures |SaltedUpTo(ip, n)| == n
  {
    if n > 0 {
      SaltedMany(ip, n - 1);
      var less := SaltedUpTo(ip, n - 1);
      assert SaltedUpTo(ip, n) == less + {Salted(ip, n - 1)};
      assert Salted(ip, n - 1) !in less by {
        forall s | 0 <= s < n - 1 ensures Salted(ip, s) != Salted(ip, n - 1) {
          SaltRead(ip, s);
          SaltRead(ip, n - 1);
        }
      }
    }
  }

  lemma SaltRead(ip: u32, s: nat)
    requires s < 0x1_0000
    ensures Salted(ip, s)[4] as int * 0x100 + Salted(ip, s)[5] == s
  {
  }

  function PolicyFor(cap: nat): Policy {
    Policy([], _ => Class(2, None, None), Reconcile.Off, cap, Salted, (g, z) => 0, true)
  }

  lemma ZoneFacts()
    ensures Size(30) == 4 && Room(30) == 4 && Placed(ZONE)
    ensures forall ip: u32 :: IsHost(ZONE, ip) <==> ip == STRANGER || ip == NEW_IP
    ensures forall ip: u32 :: IsUsableHost(ZONE, ip) <==> ip == STRANGER || ip == NEW_IP
    ensures Station(ZONE) == NEW_IP && Gateway(ZONE) == STRANGER
  {
    Pow2Values();
    assert 0x0A00_0004 == 0x0280_0001 * Room(30);
  }

  lemma TwoSlots()
    ensures forall ip: u32 :: IsHost(ZONE, ip) <==> ip == STRANGER || ip == NEW_IP
  {
    hide IsHost;
    ZoneFacts();
  }

  lemma PlansOk()
    ensures Inv(30, EMPTY_ZONE) && Inv(30, GUARDED_ZONE)
  {
    ZoneFacts();
    var nothing := Plan([], [], []);
    FreshLedger(30);
    ZoneAdded(30, nothing, EMPTY_ZONE.subnets[0]);
    assert nothing.(subnets := [] + [EMPTY_ZONE.subnets[0]]) == EMPTY_ZONE;
    var d := GUARDED_ZONE.devices[0];
    assert EMPTY_ZONE.subnets[0] in EMPTY_ZONE.subnets;
    DeviceAdded(30, EMPTY_ZONE, d);
    assert EMPTY_ZONE.(devices := [] + [d]) == GUARDED_ZONE;
  }

  // ----- What a reconciliation of these captures can come to ----------------------------------

  lemma HostsOfBare(src: u32)
    requires IsRemappable(src)
    ensures Remap.HostsOf([BareFrame(src)]) == {src}
  {
    BareReads(src);
    assert [BareFrame(src)][..0] == [];
    assert !IsRemappable(0);
  }

  lemma HostsOfTwo(a: u32, b: u32)
    requires IsRemappable(a) && IsRemappable(b)
    ensures Remap.HostsOf([BareFrame(a), BareFrame(b)]) == {a, b}
  {
    HostsOfBare(a);
    BareReads(b);
    assert [BareFrame(a), BareFrame(b)][..1] == [BareFrame(a)];
    assert !IsRemappable(0);
  }

  /** The group a host is filed in, and its place among the groups. */
  lemma GroupFor(e: Replayed, q: Policy, h: u32) returns (i: nat)
    requires ZonesExplain(e, q) && q.hints == [] && h in Remap.HostsOf(e.before)
    ensures i < |e.outcome.groups| && h in e.outcome.groups[i].hosts
    ensures e.outcome.groups[i].net == Block(NetworkOf(h, 24), 24)
  {
    hide Reconcile.Reconciled, Reconcile.Arranged, Reconcile.NoRepeats, Remap.HostsOf;
    assert h in Reconcile.HostsIn(e.outcome.groups);
    var g :| g in e.outcome.groups && h in g.hosts;
    i :| 0 <= i < |e.outcome.groups| && e.outcome.groups[i] == g;
    assert IsSubnetGroup(g, Remap.HostsOf(e.before), q.hints, q.classify);
    assert Remap.GroupOf(h, q.hints) == Remap.Group.Group(g.net.prefix, g.net.net);
  }

  // ----- What leaves --------------------------------------------------------------------------

  lemma Kept(frames: seq<seq<byte>>, m: map<u32, u32>, wire: u32 -> Mac, k: nat)
    requires k < |frames|
    requires var r := Rewritten(frames[k], m, wire, true); Coherent(r, m.Values) && !Leaks(r, m.Keys)
    ensures Rewritten(frames[k], m, wire, true) in Survivors(frames, m, wire, true)
  {
    hide Coherent, Leaks, Rewritten;
    var all, f := AllRewritten(frames, m, wire, true), Rewritten(frames[k], m, wire, true);
    assert all[k] == f;
    RetainedMember(all, b => Coherent(b, m.Values), f);
    RetainedMember(Retained(all, b => Coherent(b, m.Values)), b => !Leaks(b, m.Keys), f);
  }

  lemma SentAre(e: Replayed, q: Policy)
    requires Explained(e, q)
    ensures e.after == Survivors(e.before, e.hosts, e.wire, q.remapMac)
  {
    hide ZonesExplain, DrawsExplain, Survivors;
  }
}
