/** Fabrication: filling zones with simulated devices, adding operations zones and the bill of materials. */
module Devices {
  import opened Wire
  import opened Arith
  import opened Net
  import opened Rng
  import opened Allocator
  import opened Macs
  import opened Placement
  import opened Ledger

  datatype ProfileProto = Enip | Modbus | S7 | SwitchSnmp

  /** A device profile; `core` ones are fabricated, the rest only placed by the bill of materials. */
  datatype Profile = Profile(vendor: string, protocol: ProfileProto, level: nat, core: bool)

  /** Tables and hash derivations a plan is fabricated from. */
  datatype World = World(vuln: seq<Profile>, deviceMac: Profile -> Derivation, bomMac: string -> Derivation,
                         nameZone: (string, nat, nat) -> string, protocolName: ProfileProto -> string,
                         identify: (AssetType, u32) -> (string, string))

  datatype AllocParams = AllocParams(maxSubnets: nat, maxDevices: nat, defaultPrefix: Prefix)

  function Min(a: nat, b: nat): nat {
    if a <= b then a else b
  }

  predicate HasProtocol(vuln: seq<Profile>, proto: ProfileProto) {
    exists p :: p in vuln && p.protocol == proto && p.core
  }

  function Turn(p: ProfileProto): nat {
    match p case Enip => 0 case Modbus => 1 case S7 => 2 case SwitchSnmp => 3
  }

  /** The carrier protocols with a core profile, each once, in a fixed order. */
  function ProtocolsPresent(vuln: seq<Profile>): (r: seq<ProfileProto>)
    ensures forall p :: p in r <==> HasProtocol(vuln, p)
    ensures r == [] <==> forall p :: p in vuln ==> !p.core
    ensures forall i, j :: 0 <= i < j < |r| ==> Turn(r[i]) < Turn(r[j])
  {
    var r := Listed(HasProtocol(vuln, Enip), HasProtocol(vuln, Modbus), HasProtocol(vuln, S7),
                    HasProtocol(vuln, SwitchSnmp));
    NoneListed(vuln, r);
    r
  }

  function Listed(enip: bool, modbus: bool, s7: bool, switch: bool): (r: seq<ProfileProto>)
    ensures forall p :: p in r <==>
              match p case Enip => enip case Modbus => modbus case S7 => s7 case SwitchSnmp => switch
    ensures forall i, j :: 0 <= i < j < |r| ==> Turn(r[i]) < Turn(r[j])
  {
    (if enip then [Enip] else []) + (if modbus then [Modbus] else []) + (if s7 then [S7] else []) +
    (if switch then [SwitchSnmp] else [])
  }

  lemma NoneListed(vuln: seq<Profile>, protos: seq<ProfileProto>)
    requires forall p :: p in protos <==> HasProtocol(vuln, p)
    ensures protos == [] <==> forall p :: p in vuln ==> !p.core
  {
    if protos != [] {
      assert HasProtocol(vuln, protos[0]);
    }
    forall p | p in vuln && p.core ensures protos != [] {
      assert HasProtocol(vuln, p.protocol);
    }
  }

  method PickWhere(vuln: seq<Profile>, ok: Profile -> bool, rng: Rng) returns (r: Option<Profile>)
    modifies rng
    ensures r == None <==> forall p :: p in vuln ==> !ok(p)
    ensures r.Some? ==> r.value in vuln && ok(r.value)
  {
    var found: seq<Profile> := [];
    for i := 0 to |vuln|
      invariant forall p :: p in found ==> p in vuln && ok(p)
      invariant forall j :: 0 <= j < i && ok(vuln[j]) ==> vuln[j] in found
    {
      if ok(vuln[i]) {
        found := found + [vuln[i]];
      }
    }
    if found == [] {
      return None;
    }
    var k := rng.GenRange(|found|);
    assert found[k] in found;
    r := Some(found[k]);
  }

  // ----- Free slots ---------------------------------------------------------------------------

  /** A slot auto-assignment may hand out: off the gateway, off the station, unused. */
  predicate Assignable(net: Block, used: set<u32>, ip: u32) {
    ip != Gateway(net) && ip != Station(net) && ip !in used
  }

  ghost predicate HasRoom(net: Block, used: set<u32>) {
    exists ip: u32 :: IsHost(net, ip) && Assignable(net, used, ip)
  }

  method NextFreeIn(net: Block, used: set<u32>) returns (r: Option<u32>)
    ensures r.Some? <==> HasRoom(net, used)
    ensures r.Some? ==> IsHost(net, r.value) && Assignable(net, used, r.value)
    ensures r.Some? ==>
              forall ip: u32 {:trigger Assignable(net, used, ip)} :: FirstHost(net) <= ip < r.value ==>
                !Assignable(net, used, ip)
  {
    hide Assignable, FirstHost;
    var ok := (ip: u32) => Assignable(net, used, ip);
    r := FirstHostWhere(net, ok);
    assert forall ip: u32 :: ok(ip) <==> Assignable(net, used, ip);
    assert r.Some? ==>
             forall ip: u32 {:trigger Assignable(net, used, ip)} :: FirstHost(net) <= ip < r.value ==> !ok(ip);
  }

  // ----- New zones ----------------------------------------------------------------------------

  /** No slot of the pool is free for another zone of this prefix. */
  ghost predicate PoolFull(prefix: Prefix, subnets: seq<SubnetRecord>) {
    forall idx: nat :: !FreeSlot(prefix, idx, ZoneNets(subnets))
  }

  /** A fresh block for a zone: disjoint from every zone, or a repeat when the pool is full. */
  method FreshZone(session: Session, prefix: Prefix, rng: Rng) returns (net: Block)
    requires 8 <= prefix <= 30 && ZonesOk(prefix, session.subnets)
    modifies rng
    ensures net.prefix == prefix && Placed(net)
    ensures HasNet(session.subnets, net) <==> PoolFull(prefix, session.subnets)
    ensures !HasNet(session.subnets, net) ==> forall t :: t in session.subnets ==> Apart(t.net, net)
  {
    hide FreeSlot, Slot, SlotCount, Overlaps, ZonesOk;
    var addr := PickNewNet(prefix, rng, ZoneNets(session.subnets));
    net := Block(addr, prefix);
    PickedZone(prefix, session.subnets, addr);
  }

  lemma PickedZone(prefix: Prefix, subnets: seq<SubnetRecord>, addr: u32)
    requires 8 <= prefix <= 30 && ZonesOk(prefix, subnets)
    requires exists idx: nat :: idx < SlotCount(prefix) && addr == Slot(prefix, idx)
    requires (exists idx: nat :: FreeSlot(prefix, idx, ZoneNets(subnets))) ==>
               !Overlaps(addr, Clamp(prefix), ZoneNets(subnets))
    requires (forall idx: nat :: !FreeSlot(prefix, idx, ZoneNets(subnets))) ==> addr == BASE
    ensures Placed(Block(addr, prefix))
    ensures HasNet(subnets, Block(addr, prefix)) <==> PoolFull(prefix, subnets)
    ensures !HasNet(subnets, Block(addr, prefix)) ==> forall t :: t in subnets ==> Apart(t.net, Block(addr, prefix))
  {
    hide Slot, SlotCount, Placed, Room, Size;
    var nets := ZoneNets(subnets);
    var net := Block(addr, prefix);
    var idx: nat :| idx < SlotCount(prefix) && addr == Slot(prefix, idx);
    SlotPlaced(prefix, idx);
    if PoolFull(prefix, subnets) {
      FullPoolRepeats(prefix, subnets);
    } else {
      forall t | t in subnets ensures Apart(t.net, net) {
        var i :| 0 <= i < |subnets| && subnets[i] == t;
        assert !Meets(addr, Clamp(prefix), nets[i]);
        MeetsMeansNotApart(net, t.net);
      }
      assert forall t :: t in subnets ==> t.net != net;
    }
  }

  /** With the pool full, the fallback block is one of the zones already there. */
  lemma FullPoolRepeats(prefix: Prefix, subnets: seq<SubnetRecord>)
    requires 8 <= prefix <= 30 && ZonesOk(prefix, subnets) && PoolFull(prefix, subnets)
    ensures HasNet(subnets, Block(BASE, prefix))
  {
    hide Slot, SlotCount, Placed, Room;
    FirstSlot(prefix);
    assert !FreeSlot(prefix, 0, ZoneNets(subnets));
    var i :| 0 <= i < |subnets| && Meets(BASE, prefix, ZoneNets(subnets)[i]);
    var net, b := Block(BASE, prefix), subnets[i].net;
    SlotPlaced(prefix, 0);
    MeetsMeansNotApart(net, b);
    Buddies(net, b);
    Buddies(b, net);
    assert b == net;
  }

  lemma FirstSlot(prefix: Prefix)
    ensures 0 < SlotCount(prefix) && Slot(prefix, 0) == BASE
  {
  }

  /** Why no zone could be created. */
  ghost predicate ZoneBlocked(w: World, prefix: Prefix, subnets: seq<SubnetRecord>) {
    ProtocolsPresent(w.vuln) == [] || |subnets| >= MAX_SUBNETS || PoolFull(prefix, subnets)
  }

  /** The `i`-th zone belongs to the vendor and level of a core profile, of the protocol whose turn it is. */
  ghost predicate CycledZone(w: World, i: nat, s: SubnetRecord) {
    exists p ::
      && p in w.vuln && p.core && ProtocolsPresent(w.vuln) != []
      && p.protocol == ProtocolsPresent(w.vuln)[i % |ProtocolsPresent(w.vuln)|]
      && s.level == p.level && s.vendor == Some(p.vendor) && s.zoneName == w.nameZone(p.vendor, p.level, i)
  }

  /** Zones from `from` on were created in turn. */
  ghost predicate Cycled(w: World, subnets: seq<SubnetRecord>, from: nat) {
    forall i :: from <= i < |subnets| ==> CycledZone(w, i, subnets[i])
  }

  /** Once there are as many such zones as protocols, every protocol with a core profile has one. */
  lemma EveryProtocolCovered(w: World, subnets: seq<SubnetRecord>, from: nat, proto: ProfileProto)
    requires Cycled(w, subnets, from) && HasProtocol(w.vuln, proto)
    requires |subnets| >= from + |ProtocolsPresent(w.vuln)|
    ensures exists i, p :: from <= i < |subnets| && p in w.vuln && p.core && p.protocol == proto
                           && subnets[i].vendor == Some(p.vendor) && subnets[i].level == p.level
  {
    hide ProtocolsPresent;
    var protos := ProtocolsPresent(w.vuln);
    var k :| 0 <= k < |protos| && protos[k] == proto;
    var i := TurnComes(from, |protos|, k);
    assert CycledZone(w, i, subnets[i]);
  }

  lemma TurnComes(from: nat, n: nat, k: nat) returns (i: nat)
    requires k < n
    ensures from <= i < from + n && i % n == k
  {
    var q, r := Split(from, n);
    if k >= r {
      i := from + (k - r);
      Remainder(i, n, q, k);
    } else {
      i := from + (n - r) + k;
      assert (q + 1) * n == q * n + n;
      Remainder(i, n, q + 1, k);
    }
  }

  method CreateZone(session: Session, w: World, prefix: Prefix, rng: Rng) returns (r: Option<Block>)
    requires Inv(prefix, session.Value())
    modifies session`subnets, rng
    ensures Inv(prefix, session.Value())
    ensures r == None <==> ZoneBlocked(w, prefix, old(session.subnets))
    ensures r == None ==> session.subnets == old(session.subnets)
    ensures r.Some? ==> |session.subnets| == |old(session.subnets)| + 1 && old(session.subnets) <= session.subnets
                        && session.subnets[|old(session.subnets)|].net == r.value
                        && CycledZone(w, |old(session.subnets)|, session.subnets[|old(session.subnets)|])
  {
    hide PoolFull, Placed, Apart, ProtocolsPresent, ZonesOk, HasNet, DeviceOk, HostOk;
    ghost var before := session.Value();
    var net := FreshZone(session, prefix, rng);
    var protos := ProtocolsPresent(w.vuln);
    if protos == [] {
      return None;
    }
    var proto := protos[|session.subnets| % |protos|];
    assert proto in protos;
    var profile := PickWhere(w.vuln, (p: Profile) => p.protocol == proto && p.core, rng);
    var name := w.nameZone(profile.value.vendor, profile.value.level, |session.subnets|);
    var rec := SubnetRecord(net, name, profile.value.level, Some(profile.value.vendor));
    var ok := session.AddSubnet(rec);
    if !ok {
      return None;
    }
    assert NewZone(prefix, before, rec);
    ZoneAdded(prefix, before, rec);
    r := Some(net);
  }

  /** A level-3 zone of the server maker whose turn it is. */
  predicate OperationsZone(w: World, i: nat, s: SubnetRecord) {
    var maker := if i % 3 == 0 then "VMware" else if i % 3 == 1 then "Dell" else "Hewlett Packard";
    s.level == 3 && s.vendor == Some(maker) && s.zoneName == w.nameZone(maker, 3, i)
  }

  /** Up to `count` empty operations zones above the control zones, bounded by the subnet caps. */
  method CreateL3Zones(session: Session, w: World, params: AllocParams, count: nat, rng: Rng)
    requires Inv(params.defaultPrefix, session.Value())
    modifies session`subnets, rng
    ensures Inv(params.defaultPrefix, session.Value())
    ensures old(session.subnets) <= session.subnets
    ensures |session.subnets| <= |old(session.subnets)| + count
    ensures forall i :: |old(session.subnets)| <= i < |session.subnets| ==> OperationsZone(w, i, session.subnets[i])
    ensures |session.subnets| < |old(session.subnets)| + count ==>
              || |session.subnets| >= params.maxSubnets || |session.subnets| >= MAX_SUBNETS
              || PoolFull(params.defaultPrefix, session.subnets)
  {
    hide PoolFull, Placed, Apart, ZonesOk, HasNet, DeviceOk, HostOk;
    var prefix := params.defaultPrefix;
    ghost var full := false;
    for k := 0 to count
      invariant Inv(prefix, session.Value()) && session.devices == old(session.devices)
      invariant session.captureHosts == old(session.captureHosts)
      invariant old(session.subnets) <= session.subnets && |session.subnets| <= |old(session.subnets)| + k
      invariant forall i :: |old(session.subnets)| <= i < |session.subnets| ==> OperationsZone(w, i, session.subnets[i])
      invariant |session.subnets| < |old(session.subnets)| + k ==>
                  |session.subnets| >= MAX_SUBNETS || PoolFull(prefix, session.subnets)
    {
      if |session.subnets| >= params.maxSubnets {
        break;
      }
      ghost var before := session.Value();
      var net := FreshZone(session, prefix, rng);
      var vendor := ["VMware", "Dell", "Hewlett Packard"][|session.subnets| % 3];
      var rec := SubnetRecord(net, w.nameZone(vendor, 3, |session.subnets|), 3, Some(vendor));
      var ok := session.AddSubnet(rec);
      if ok {
        assert NewZone(prefix, before, rec);
        ZoneAdded(prefix, before, rec);
      }
    }
  }

  // ----- Fabrication --------------------------------------------------------------------------

  /** The zones that still have an assignable host. */
  method ZonesWithRoom(subnets: seq<SubnetRecord>, used: set<u32>) returns (r: seq<Block>)
    ensures forall n :: n in r <==> HasNet(subnets, n) && HasRoom(n, used)
  {
    hide HasRoom;
    r := [];
    for i := 0 to |subnets|
      invariant forall n :: n in r <==> HasNet(subnets[..i], n) && HasRoom(n, used)
    {
      var free := NextFreeIn(subnets[i].net, used);
      assert subnets[..i + 1] == subnets[..i] + [subnets[i]];
      if free.Some? {
        r := r + [subnets[i].net];
      }
    }
    assert subnets[..|subnets|] == subnets;
  }

  /** A zone with room, or a new zone; `None` only when neither exists. */
  method ChooseOrCreateSubnet(session: Session, w: World, params: AllocParams, used: set<u32>, rng: Rng)
    returns (r: Option<Block>)
    requires Inv(params.defaultPrefix, session.Value())
    modifies session`subnets, rng
    ensures Inv(params.defaultPrefix, session.Value())
    ensures old(session.subnets) <= session.subnets
    ensures r == None ==>
              && session.subnets == old(session.subnets)
              && (forall n :: HasNet(session.subnets, n) ==> !HasRoom(n, used))
              && (|session.subnets| >= params.maxSubnets || ZoneBlocked(w, params.defaultPrefix, session.subnets))
    ensures r.Some? ==> HasNet(session.subnets, r.value)
    ensures r.Some? && !HasRoom(r.value, used) ==> |session.subnets| > |old(session.subnets)|
    ensures ZoneBlocked(w, params.defaultPrefix, old(session.subnets)) ==> session.subnets == old(session.subnets)
    ensures |session.subnets| <= |old(session.subnets)| + 1 && Cycled(w, session.subnets, |old(session.subnets)|)
    ensures |old(session.subnets)| < Min(|ProtocolsPresent(w.vuln)|, params.maxSubnets) ==>
              |session.subnets| > |old(session.subnets)|
              || ZoneBlocked(w, params.defaultPrefix, session.subnets)
  {
    hide ZoneBlocked, HasRoom, Inv, CycledZone, ProtocolsPresent;
    var withRoom := ZonesWithRoom(session.subnets, used);
    var canCreate := |session.subnets| < params.maxSubnets;
    var needCoverage := |session.subnets| < Min(|ProtocolsPresent(w.vuln)|, params.maxSubnets);
    var create := canCreate && (needCoverage || withRoom == []);
    if canCreate && !create {
      create := rng.GenBool();
    }
    if create {
      var made := CreateZone(session, w, params.defaultPrefix, rng);
      if made.Some? {
        return made;
      }
    }
    if withRoom == [] {
      return None;
    }
    var k := rng.GenRange(|withRoom|);
    assert withRoom[k] in withRoom;
    r := Some(withRoom[k]);
  }

  ghost predicate HasCore(w: World) {
    exists q :: q in w.vuln && q.core
  }

  ghost predicate VendorHasCore(w: World, vendor: Option<string>) {
    vendor.Some? && exists q :: q in w.vuln && q.core && q.vendor == vendor.value
  }

  /** Prefers a core profile of the zone's vendor, falls back to any core profile. */
  method PickProfile(w: World, vendor: Option<string>, rng: Rng) returns (p: Profile)
    requires HasCore(w)
    modifies rng
    ensures p in w.vuln && p.core
    ensures VendorHasCore(w, vendor) ==> vendor == Some(p.vendor)
  {
    if vendor.Some? {
      var r := PickWhere(w.vuln, (q: Profile) => q.core && q.vendor == vendor.value, rng);
      if r.Some? {
        return r.value;
      }
    }
    var any := PickWhere(w.vuln, (q: Profile) => q.core, rng);
    p := any.value;
  }

  method VendorOfZone(subnets: seq<SubnetRecord>, net: Block) returns (vendor: Option<string>)
    ensures forall i :: 0 <= i < |subnets| && subnets[i].net == net && !HasNet(subnets[..i], net) ==>
              vendor == subnets[i].vendor
    ensures !HasNet(subnets, net) ==> vendor == None
  {
    for i := 0 to |subnets|
      invariant !HasNet(subnets[..i], net)
    {
      if subnets[i].net == net {
        return subnets[i].vendor;
      }
    }
    vendor := None;
  }

  /** Enough hash spread for every derivation a plan of this size may call on. */
  ghost predicate WorldSpreads(w: World, hosts: nat) {
    && (forall p :: p in w.vuln ==> Spreads(w.deviceMac(p), MAX_DEVICES + hosts))
    && (forall v :: Spreads(w.bomMac(v), MAX_DEVICES + hosts))
  }

  lemma PlanHasFresh(derive: Derivation, p: Plan, ip: u32)
    requires |p.devices| <= MAX_DEVICES && Spreads(derive, MAX_DEVICES + |p.hosts|)
    ensures HasFresh(derive, ip, AllMacs(p))
  {
    MacCount(p);
  }

  /** Puts one device on a free address of a zone, under an unused derived MAC. */
  method PlaceDevice(session: Session, derive: Derivation, vendor: string, protocol: string, kind: AssetType,
                     net: Block, ip: u32, used: set<u32>, usedMacs: set<Mac>, ghost prefix: Prefix)
    returns (ok: bool, mac: Mac)
    requires Inv(prefix, session.Value())
    requires used == Ips(session.Value()) && usedMacs == AllMacs(session.Value())
    requires Spreads(derive, MAX_DEVICES + |session.captureHosts|)
    requires HasNet(session.subnets, net) && IsHost(net, ip) && ip !in used
    requires ip != Station(net) && (ip == Gateway(net) ==> kind == Firewall)
    modifies session`devices
    ensures Inv(prefix, session.Value())
    ensures ok <==> |old(session.devices)| < MAX_DEVICES
    ensures session.devices ==
              if ok then old(session.devices) + [DeviceRecord(ip, mac, vendor, protocol, net, kind)]
              else old(session.devices)
    ensures ok ==> Ips(session.Value()) == used + {ip} && AllMacs(session.Value()) == usedMacs + {mac}
    ensures FirstSalt(derive, usedMacs, ip, mac)
  {
    hide Ips, AllMacs, Inv, IsHost, Station, Gateway, Spreads, HasNet;
    ghost var before := session.Value();
    CapHolds(prefix, before);
    PlanHasFresh(derive, before, ip);
    var salt;
    mac, salt := FreshMac(derive, ip, usedMacs);
    var rec := DeviceRecord(ip, mac, vendor, protocol, net, kind);
    ok := session.AddDevice(rec);
    if ok {
      DeviceAdded(prefix, before, rec);
      SetsGrow(before, rec);
    }
  }

  lemma CapHolds(prefix: Prefix, p: Plan)
    requires Inv(prefix, p)
    ensures |p.devices| <= MAX_DEVICES
  {
  }

  lemma SetsGrow(p: Plan, d: DeviceRecord)
    ensures Ips(p.(devices := p.devices + [d])) == Ips(p) + {d.ip}
    ensures AllMacs(p.(devices := p.devices + [d])) == AllMacs(p) + {d.mac}
  {
    assert forall x :: x in p.devices + [d] <==> x in p.devices || x == d;
    assert DeviceIps(p.devices + [d]) == DeviceIps(p.devices) + {d.ip};
    assert DeviceMacs(p.devices + [d]) == DeviceMacs(p.devices) + {d.mac};
  }

  /** Nothing more can be fabricated: every zone is out of slots and no zone can be added. */
  ghost predicate Saturated(w: World, params: AllocParams, p: Plan) {
    && (forall n :: HasNet(p.subnets, n) ==> !HasRoom(n, Ips(p)))
    && (|p.subnets| >= params.maxSubnets || ZoneBlocked(w, params.defaultPrefix, p.subnets))
  }

  ghost predicate NoRoom(subnets: seq<SubnetRecord>, used: set<u32>) {
    forall n :: HasNet(subnets, n) ==> !HasRoom(n, used)
  }

  /** A core profile is at hand, or none will be asked for: the target is met, or no zone has room to begin with. */
  ghost predicate ProfileAtHand(w: World, params: AllocParams, target0: nat, p: Plan) {
    w.vuln == [] || HasCore(w) || |p.devices| >= Min(target0, params.maxDevices) || NoRoom(p.subnets, Ips(p))
  }

  lemma NoRoomKept(p: Plan, q: Plan)
    requires NoRoom(p.subnets, Ips(p)) && p.devices <= q.devices && p.hosts <= q.hosts
    requires forall n :: HasNet(q.subnets, n) ==> HasNet(p.subnets, n)
    ensures NoRoom(q.subnets, Ips(q))
  {
    hide IsHost, HasNet;
    forall ip | ip in Ips(p) ensures ip in Ips(q) {
    }
    assert forall n :: HasRoom(n, Ips(q)) ==> HasRoom(n, Ips(p));
  }

  /** Without a core profile no zone can be created. */
  lemma NoCoreNoZone(w: World, prefix: Prefix, subnets: seq<SubnetRecord>)
    requires !HasCore(w)
    ensures ZoneBlocked(w, prefix, subnets)
  {
  }

  /** Where no zone has room and none was added, none can have been chosen. */
  lemma NoneChosen(subnets: seq<SubnetRecord>, used: set<u32>, n: Block)
    requires NoRoom(subnets, used) && HasNet(subnets, n)
    ensures !HasRoom(n, used)
  {
  }

  /** A device of a core profile, of its zone's vendor if that has one, under a MAC derived from that profile. */
  ghost predicate FromProfile(w: World, subnets: seq<SubnetRecord>, macs: set<Mac>, d: DeviceRecord) {
    exists p ::
      && p in w.vuln && p.core && d.vendor == p.vendor && d.protocol == w.protocolName(p.protocol)
      && d.kind == (if p.protocol == SwitchSnmp then Switch else Controller)
      && FirstSalt(w.deviceMac(p), macs, d.ip, d.mac)
      && (forall s :: s in subnets && s.net == d.zone && VendorHasCore(w, s.vendor) ==> s.vendor == Some(p.vendor))
  }

  /** Every device from `from` on was fabricated. */
  ghost predicate AllFromProfiles(w: World, p: Plan, from: nat) {
    forall i :: from <= i < |p.devices| ==> FromProfile(w, p.subnets, AllMacs(p), p.devices[i])
  }

  /** More zones, of other blocks, and more devices leave a fabricated device one. */
  lemma ProfilesKept(w: World, p: Plan, q: Plan, from: nat, prefix: Prefix)
    requires AllFromProfiles(w, p, from) && Inv(prefix, p) && Inv(prefix, q)
    requires p.subnets <= q.subnets && p.devices <= q.devices && p.hosts == q.hosts
    requires forall i :: |p.devices| <= i < |q.devices| ==> FromProfile(w, q.subnets, AllMacs(q), q.devices[i])
    ensures AllFromProfiles(w, q, from)
  {
    hide VendorHasCore, FirstSalt, IsHost, Station, Gateway, DistinctDevices, DistinctHosts, Separate, HostOk;
    assert AllMacs(p) <= AllMacs(q) by {
      assert forall d :: d in p.devices ==> d in q.devices;
    }
    forall i | from <= i < |p.devices| ensures FromProfile(w, q.subnets, AllMacs(q), q.devices[i]) {
      var d := p.devices[i];
      assert d in p.devices && DeviceOk(p.subnets, d);
      ProfileKept(w, p, q, d, prefix);
    }
  }

  lemma ProfileKept(w: World, p: Plan, q: Plan, d: DeviceRecord, prefix: Prefix)
    requires FromProfile(w, p.subnets, AllMacs(p), d) && AllMacs(p) <= AllMacs(q)
    requires Inv(prefix, q) && p.subnets <= q.subnets && HasNet(p.subnets, d.zone)
    ensures FromProfile(w, q.subnets, AllMacs(q), d)
  {
    hide VendorHasCore, FirstSalt, DeviceOk, DistinctDevices, DistinctHosts, Separate, HostOk, AllMacs;
    var r :| && r in w.vuln && r.core && d.vendor == r.vendor && d.protocol == w.protocolName(r.protocol)
             && d.kind == (if r.protocol == SwitchSnmp then Switch else Controller)
             && FirstSalt(w.deviceMac(r), AllMacs(p), d.ip, d.mac)
             && (forall s :: s in p.subnets && s.net == d.zone && VendorHasCore(w, s.vendor) ==>
                 s.vendor == Some(r.vendor));
    FirstSaltMore(w.deviceMac(r), AllMacs(p), AllMacs(q), d.ip, d.mac);
    forall s | s in q.subnets && s.net == d.zone && VendorHasCore(w, s.vendor) ensures s.vendor == Some(r.vendor) {
      OneZoneOf(prefix, q, d.zone);
      var i :| 0 <= i < |p.subnets| && p.subnets[i].net == d.zone;
      var j :| 0 <= j < |q.subnets| && q.subnets[j] == s;
      assert q.subnets[i] == p.subnets[i];
    }
  }

  lemma OneZoneOf(prefix: Prefix, p: Plan, net: Block)
    requires Inv(prefix, p)
    ensures forall i, j :: 0 <= i < |p.subnets| && 0 <= j < |p.subnets|
                           && p.subnets[i].net == net == p.subnets[j].net ==>
              i == j
  {
    hide DeviceOk, HostOk, Placed;
    var nets := ZoneNets(p.subnets);
    forall i, j | 0 <= i < |p.subnets| && 0 <= j < |p.subnets| && p.subnets[i].net == net == p.subnets[j].net
      ensures i == j
    {
      assert i < j ==> Apart(nets[i], nets[j]);
      assert j < i ==> Apart(nets[j], nets[i]);
    }
  }

  lemma JustFabricated(w: World, p: Plan, d: DeviceRecord, profile: Profile, vendor: Option<string>, prefix: Prefix)
    requires Inv(prefix, p) && HasNet(p.subnets, d.zone)
    requires profile in w.vuln && profile.core && d.vendor == profile.vendor
    requires d.protocol == w.protocolName(profile.protocol)
    requires d.kind == if profile.protocol == SwitchSnmp then Switch else Controller
    requires FirstSalt(w.deviceMac(profile), AllMacs(p), d.ip, d.mac)
    requires forall i :: 0 <= i < |p.subnets| && p.subnets[i].net == d.zone && !HasNet(p.subnets[..i], d.zone) ==>
               vendor == p.subnets[i].vendor
    requires VendorHasCore(w, vendor) ==> vendor == Some(profile.vendor)
    ensures FromProfile(w, p.subnets, AllMacs(p) + {d.mac}, d)
  {
    hide VendorHasCore, FirstSalt, AllMacs, Inv;
    FirstSaltMore(w.deviceMac(profile), AllMacs(p), AllMacs(p) + {d.mac}, d.ip, d.mac);
    forall s | s in p.subnets && s.net == d.zone && VendorHasCore(w, s.vendor)
      ensures s.vendor == Some(profile.vendor)
    {
      OneZoneOf(prefix, p, d.zone);
      var i :| 0 <= i < |p.subnets| && p.subnets[i] == s;
      assert !HasNet(p.subnets[..i], d.zone);
    }
  }

  /**
   Fabricates devices until the session holds `target` of them. A freshly created zone may have no
   assignable slot, so a pass may add a zone and no device; the number of zones bounds such passes.
   */
  method Fabricate(session: Session, w: World, params: AllocParams, target0: nat, rng: Rng) returns (added: nat)
    requires Inv(params.defaultPrefix, session.Value())
    requires ProfileAtHand(w, params, target0, session.Value())
    requires WorldSpreads(w, |session.captureHosts|)
    modifies session`subnets, session`devices, rng
    ensures Inv(params.defaultPrefix, session.Value())
    ensures old(session.subnets) <= session.subnets && old(session.devices) <= session.devices
    ensures |session.devices| == |old(session.devices)| + added
    ensures |session.devices| > |old(session.devices)| ==> |session.devices| <= Min(target0, params.maxDevices)
    ensures |session.devices| < Min(target0, params.maxDevices) ==>
              w.vuln == [] || |session.devices| == MAX_DEVICES || Saturated(w, params, session.Value())
    ensures !HasCore(w) ==> session.subnets == old(session.subnets)
    ensures AllFromProfiles(w, session.Value(), |old(session.devices)|)
    ensures Cycled(w, session.subnets, |old(session.subnets)|)
    ensures CoverageFirst(w, params, old(session.subnets), session.subnets, added)
  {
    hide AllFromProfiles, FromProfile, CycledZone, FirstSalt, VendorHasCore, ProtocolsPresent;
    hide Inv, Ips, AllMacs, HasRoom, ZoneBlocked, WorldSpreads, HasNet, Spreads, HasCore, NoRoom, IsHost, Assignable,
      Station, Gateway;
    added := 0;
    ghost var from := |session.devices|;
    NoneFabricated(w, session.Value());
    if w.vuln == [] {
      return;
    }
    var target := Min(target0, params.maxDevices);
    var used := Ips(session.Value());
    var usedMacs := AllMacs(session.Value());
    while |session.devices| < target
      invariant Inv(params.defaultPrefix, session.Value()) && session.captureHosts == old(session.captureHosts)
      invariant used == Ips(session.Value()) && usedMacs == AllMacs(session.Value())
      invariant old(session.subnets) <= session.subnets && old(session.devices) <= session.devices
      invariant |session.devices| == |old(session.devices)| + added
      invariant added > 0 ==> |session.devices| <= target
      invariant HasCore(w) || NoRoom(session.subnets, used) || |session.devices| >= target
      invariant !HasCore(w) ==> session.subnets == old(session.subnets)
      invariant AllFromProfiles(w, session.Value(), |old(session.devices)|)
      invariant Cycled(w, session.subnets, |old(session.subnets)|)
      invariant CoverageFirst(w, params, old(session.subnets), session.subnets, added)
      decreases MAX_SUBNETS - |session.subnets|, target - |session.devices|
    {
      ghost var before := session.Value();
      ghost var core := HasCore(w);
      if !core {
        NoCoreNoZone(w, params.defaultPrefix, session.subnets);
      }
      var choice := ChooseOrCreateSubnet(session, w, params, used, rng);
      ghost var zoned := session.Value();
      ZonesGrew(params.defaultPrefix, before, zoned);
      ProfilesKept(w, before, zoned, from, params.defaultPrefix);
      if choice == None {
        break;
      }
      if !core {
        NoneChosen(session.subnets, used, choice.value);
      }
      var ip := NextFreeIn(choice.value, used);
      if ip == None {
        continue;
      }
      AssignableFacts(choice.value, used, ip.value);
      var ok, mac := FabricateAt(session, w, choice.value, ip.value, used, usedMacs, rng, params.defaultPrefix, from);
      if !ok {
        break;
      }
      used := used + {ip.value};
      usedMacs := usedMacs + {mac};
      added := added + 1;
    }
  }

  /** One device on a slot chosen for it: of the zone's vendor if it can be. */
  method FabricateAt(session: Session, w: World, net: Block, ip: u32, used: set<u32>, usedMacs: set<Mac>, rng: Rng,
                     ghost prefix: Prefix, ghost from: nat)
    returns (ok: bool, mac: Mac)
    requires Inv(prefix, session.Value()) && HasCore(w) && WorldSpreads(w, |session.captureHosts|)
    requires used == Ips(session.Value()) && usedMacs == AllMacs(session.Value())
    requires HasNet(session.subnets, net) && IsHost(net, ip) && ip !in used && ip != Station(net) && ip != Gateway(net)
    requires AllFromProfiles(w, session.Value(), from)
    modifies session`devices, rng
    ensures Inv(prefix, session.Value()) && AllFromProfiles(w, session.Value(), from)
    ensures ok <==> |old(session.devices)| < MAX_DEVICES
    ensures old(session.devices) <= session.devices
    ensures |session.devices| == |old(session.devices)| + if ok then 1 else 0
    ensures ok ==> Ips(session.Value()) == used + {ip} && AllMacs(session.Value()) == usedMacs + {mac}
    ensures ok ==> var d := session.devices[|session.devices| - 1]; d.ip == ip && d.zone == net
  {
    hide Inv, Ips, AllMacs, AllFromProfiles, FromProfile, FirstSalt, VendorHasCore, WorldSpreads, Spreads, HasNet,
      IsHost, Station, Gateway, HasCore;
    ghost var before := session.Value();
    var vendor := VendorOfZone(session.subnets, net);
    var profile := PickProfile(w, vendor, rng);
    ProfileSpreads(w, profile, |session.captureHosts|);
    var kind := if profile.protocol == SwitchSnmp then Switch else Controller;
    ok, mac := PlaceDevice(session, w.deviceMac(profile), profile.vendor, w.protocolName(profile.protocol),
                           kind, net, ip, used, usedMacs, prefix);
    if ok {
      JustFabricated(w, before, session.devices[|before.devices|], profile, vendor, prefix);
      ProfilesKept(w, before, session.Value(), from, prefix);
    }
  }

  lemma NoneFabricated(w: World, p: Plan)
    ensures AllFromProfiles(w, p, |p.devices|)
  {
  }

  /** Zones come before further devices until every protocol has had its turn, unless none can be made. */
  ghost predicate CoverageFirst(w: World, params: AllocParams, was: seq<SubnetRecord>, now: seq<SubnetRecord>,
                                added: nat) {
    || |now| >= Min(Min(|ProtocolsPresent(w.vuln)|, params.maxSubnets), |was| + added)
    || ZoneBlocked(w, params.defaultPrefix, now)
  }

  lemma ZonesGrew(prefix: Prefix, p: Plan, q: Plan)
    requires Inv(prefix, q) && q.devices == p.devices && q.hosts == p.hosts
    ensures |q.subnets| <= MAX_SUBNETS && |q.devices| <= MAX_DEVICES
    ensures Ips(q) == Ips(p) && AllMacs(q) == AllMacs(p)
  {
  }

  lemma ProfileSpreads(w: World, p: Profile, hosts: nat)
    requires WorldSpreads(w, hosts) && p in w.vuln
    ensures Spreads(w.deviceMac(p), MAX_DEVICES + hosts)
  {
  }

  lemma AssignableFacts(net: Block, used: set<u32>, ip: u32)
    requires Assignable(net, used, ip)
    ensures ip != Gateway(net) && ip != Station(net) && ip !in used
  {
  }
}
