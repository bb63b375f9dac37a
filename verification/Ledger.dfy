/** The session ledger: zones, devices and capture hosts, the hard caps, and the invariant they keep. */
module Ledger {
  import opened Wire
  import opened Net
  import opened Allocator
  import opened Placement

  const MAX_SUBNETS: nat := 16
  const MAX_DEVICES: nat := 2000
  const DEFAULT_MAX_ASSETS: nat := 512

  datatype AssetType = Controller | Switch | Router | Hmi | EngWorkstation | Historian | Firewall | Server

  datatype SubnetRecord = SubnetRecord(net: Block, zoneName: string, level: nat, vendor: Option<string>)

  datatype DeviceRecord = DeviceRecord(ip: u32, mac: Mac, vendor: string, protocol: string, zone: Block,
                                       kind: AssetType)

  /** A replayed host registered as a stable asset; `origin` is the capture address it stands for. */
  datatype CaptureHost = CaptureHost(origin: u32, ip: u32, mac: Mac, vendor: Option<string>,
                                     protocol: Option<string>, level: nat, zone: Block)

  /** The value of a ledger at one moment. */
  datatype Plan = Plan(subnets: seq<SubnetRecord>, devices: seq<DeviceRecord>, hosts: seq<CaptureHost>)

  function EffectiveAssetCap(configured: Option<nat>): (r: nat)
    ensures 1 <= r <= MAX_DEVICES
  {
    match configured
    case None => DEFAULT_MAX_ASSETS
    case Some(c) => if c < 1 then 1 else if c > MAX_DEVICES then MAX_DEVICES else c
  }

  /** A configured cap is taken as it stands inside 1..2000, and moved to the nearer end outside. */
  lemma CapIs(c: nat)
    ensures 1 <= c <= 2000 ==> EffectiveAssetCap(Some(c)) == c
    ensures c == 0 ==> EffectiveAssetCap(Some(c)) == 1
    ensures c > 2000 ==> EffectiveAssetCap(Some(c)) == 2000
    ensures EffectiveAssetCap(None) == 512
  {
  }

  // ----- Reserved slots of a zone -------------------------------------------------------------

  /** The zone-edge gateway: network + 1, for firewalls only. */
  function Gateway(net: Block): int {
    NetworkOf(net.net, net.prefix) + 1
  }

  /** The engineering station: network + 250, clamped to the last usable host. */
  function StationOffset(p: Prefix): nat {
    var last := if Size(p) < 2 then 0 else Size(p) - 2;
    if last < 250 then last else 250
  }

  function Station(net: Block): (r: u32) {
    NetworkFits(net.net, net.prefix);
    NetworkOf(net.net, net.prefix) + StationOffset(net.prefix)
  }

  /**
   In every zone the configuration accepts both slots are hosts, and apart; the station is .250 where there
   is one.
   */
  lemma ReservedSlots(net: Block)
    requires 8 <= net.prefix <= 30
    ensures IsHost(net, Station(net)) && Gateway(net) == FirstHost(net) < Station(net)
    ensures Station(net) == if net.prefix <= 24 then FirstHost(net) + 249 else LastHost(net)
  {
    NetworkFits(net.net, net.prefix);
    Pow2Values();
    Pow2Add(4, 4);
    if net.prefix <= 24 {
      Pow2Monotone(8, 32 - net.prefix);
    } else {
      Pow2Monotone(32 - net.prefix, 7);
    }
  }

  // ----- The invariant ------------------------------------------------------------------------

  function DeviceIps(ds: seq<DeviceRecord>): set<u32> { set d | d in ds :: d.ip }
  function HostIps(hs: seq<CaptureHost>): set<u32> { set h | h in hs :: h.ip }
  function DeviceMacs(ds: seq<DeviceRecord>): set<Mac> { set d | d in ds :: d.mac }
  function HostMacs(hs: seq<CaptureHost>): set<Mac> { set h | h in hs :: h.mac }

  function Ips(p: Plan): set<u32> { DeviceIps(p.devices) + HostIps(p.hosts) }
  function AllMacs(p: Plan): set<Mac> { DeviceMacs(p.devices) + HostMacs(p.hosts) }

  predicate HasNet(subnets: seq<SubnetRecord>, net: Block) {
    exists s :: s in subnets && s.net == net
  }

  function ZoneNets(subnets: seq<SubnetRecord>): (r: seq<Block>)
    ensures |r| == |subnets| && forall i :: 0 <= i < |r| ==> r[i] == subnets[i].net
  {
    seq(|subnets|, i requires 0 <= i < |subnets| => subnets[i].net)
  }

  /** Zones of one prefix, aligned, pairwise disjoint, within the hard cap. */
  ghost predicate ZonesOk(prefix: Prefix, subnets: seq<SubnetRecord>) {
    && |subnets| <= MAX_SUBNETS
    && (forall s :: s in subnets ==> s.net.prefix == prefix && Placed(s.net))
    && AllApart(ZoneNets(subnets))
  }

  /** A device sits on a host of its own zone, off the station slot; the gateway is for firewalls. */
  ghost predicate DeviceOk(subnets: seq<SubnetRecord>, d: DeviceRecord) {
    && HasNet(subnets, d.zone)
    && IsHost(d.zone, d.ip)
    && d.ip != Station(d.zone)
    && (d.ip == Gateway(d.zone) ==> d.kind == Firewall)
  }

  ghost predicate HostOk(subnets: seq<SubnetRecord>, h: CaptureHost) {
    HasNet(subnets, h.zone) && IsHost(h.zone, h.ip)
  }

  ghost predicate DistinctDevices(ds: seq<DeviceRecord>) {
    forall i, j :: 0 <= i < j < |ds| ==> ds[i].ip != ds[j].ip && ds[i].mac != ds[j].mac
  }

  ghost predicate DistinctHosts(hs: seq<CaptureHost>) {
    forall i, j :: 0 <= i < j < |hs| ==>
      hs[i].ip != hs[j].ip && hs[i].mac != hs[j].mac && hs[i].origin != hs[j].origin
  }

  ghost predicate Separate(ds: seq<DeviceRecord>, hs: seq<CaptureHost>) {
    forall d, h :: d in ds && h in hs ==> d.ip != h.ip && d.mac != h.mac
  }

  ghost predicate Inv(prefix: Prefix, p: Plan) {
    && 8 <= prefix <= 30
    && ZonesOk(prefix, p.subnets)
    && |p.devices| <= MAX_DEVICES
    && (forall d :: d in p.devices ==> DeviceOk(p.subnets, d))
    && (forall h :: h in p.hosts ==> HostOk(p.subnets, h))
    && DistinctDevices(p.devices) && DistinctHosts(p.hosts) && Separate(p.devices, p.hosts)
  }

  /** A fresh ledger keeps the invariant, for exactly the zone prefixes the configuration accepts. */
  lemma FreshLedger(prefix: Prefix)
    ensures Inv(prefix, Plan([], [], [])) <==> 8 <= prefix <= 30
  {
  }

  // ----- What one record may add --------------------------------------------------------------

  ghost predicate NewZone(prefix: Prefix, p: Plan, s: SubnetRecord) {
    && |p.subnets| < MAX_SUBNETS
    && s.net.prefix == prefix && Placed(s.net)
    && forall t :: t in p.subnets ==> Apart(t.net, s.net)
  }

  ghost predicate NewDevice(p: Plan, d: DeviceRecord) {
    && |p.devices| < MAX_DEVICES
    && DeviceOk(p.subnets, d) && d.ip !in Ips(p) && d.mac !in AllMacs(p)
  }

  ghost predicate NewHost(p: Plan, h: CaptureHost) {
    && HostOk(p.subnets, h) && h.ip !in Ips(p) && h.mac !in AllMacs(p)
    && forall k :: k in p.hosts ==> k.origin != h.origin
  }

  lemma ZoneAdded(prefix: Prefix, p: Plan, s: SubnetRecord)
    requires Inv(prefix, p) && NewZone(prefix, p, s)
    ensures Inv(prefix, p.(subnets := p.subnets + [s]))
  {
    hide Placed, Apart, IsHost, Station, Gateway;
    var t := p.subnets + [s];
    assert forall x :: x in t <==> x in p.subnets || x == s;
    assert AllApart(ZoneNets(t)) by {
      forall i, j | 0 <= i < j < |t| ensures Apart(t[i].net, t[j].net) {
        assert t[i] in p.subnets;
        assert j < |p.subnets| ==> Apart(ZoneNets(p.subnets)[i], ZoneNets(p.subnets)[j]);
      }
    }
  }

  lemma DeviceAdded(prefix: Prefix, p: Plan, d: DeviceRecord)
    requires Inv(prefix, p) && NewDevice(p, d)
    ensures Inv(prefix, p.(devices := p.devices + [d]))
  {
    hide ZonesOk, DeviceOk, HostOk;
    var t := p.devices + [d];
    assert forall x :: x in t <==> x in p.devices || x == d;
    forall i | 0 <= i < |p.devices| ensures t[i].ip != d.ip && t[i].mac != d.mac {
      assert t[i] in p.devices;
    }
  }

  lemma HostAdded(prefix: Prefix, p: Plan, h: CaptureHost)
    requires Inv(prefix, p) && NewHost(p, h)
    ensures Inv(prefix, p.(hosts := p.hosts + [h]))
  {
    hide ZonesOk, DeviceOk, HostOk;
    var t := p.hosts + [h];
    assert forall x :: x in t <==> x in p.hosts || x == h;
    forall i | 0 <= i < |p.hosts| ensures t[i].ip != h.ip && t[i].mac != h.mac && t[i].origin != h.origin {
      assert t[i] in p.hosts;
    }
  }

  /** The hardware addresses in use are never more than the assets. */
  lemma MacCount(p: Plan)
    ensures |AllMacs(p)| <= |p.devices| + |p.hosts|
  {
    DeviceMacCount(p.devices);
    HostMacCount(p.hosts);
  }

  lemma {:induction false} DeviceMacCount(ds: seq<DeviceRecord>)
    ensures |DeviceMacs(ds)| <= |ds|
  {
    if ds != [] {
      var n := |ds| - 1;
      DeviceMacCount(ds[..n]);
      assert forall d :: d in ds <==> d in ds[..n] || d == ds[n];
      assert DeviceMacs(ds) == DeviceMacs(ds[..n]) + {ds[n].mac};
    }
  }

  lemma {:induction false} HostMacCount(hs: seq<CaptureHost>)
    ensures |HostMacs(hs)| <= |hs|
  {
    if hs != [] {
      var n := |hs| - 1;
      HostMacCount(hs[..n]);
      assert forall h :: h in hs <==> h in hs[..n] || h == hs[n];
      assert HostMacs(hs) == HostMacs(hs[..n]) + {hs[n].mac};
    }
  }

  /** Renaming zones moves nothing: the whole invariant survives it. */
  lemma RenameKeepsInv(prefix: Prefix, p: Plan, q: Plan)
    requires Inv(prefix, p) && q.devices == p.devices && q.hosts == p.hosts && |q.subnets| == |p.subnets|
    requires forall i :: 0 <= i < |p.subnets| ==> q.subnets[i].net == p.subnets[i].net
    ensures Inv(prefix, q)
  {
    assert ZoneNets(q.subnets) == ZoneNets(p.subnets);
    SameNets(p.subnets, q.subnets);
    assert ZonesOk(prefix, q.subnets) by {
      forall t | t in q.subnets ensures t.net.prefix == prefix && Placed(t.net) {
        var i :| 0 <= i < |q.subnets| && q.subnets[i] == t;
        assert p.subnets[i] in p.subnets;
      }
    }
    hide HasNet, IsHost, ZonesOk, DistinctDevices, DistinctHosts, Separate, Station, Gateway;
    assert forall d :: d in p.devices ==> DeviceOk(q.subnets, d);
    assert forall h :: h in p.hosts ==> HostOk(q.subnets, h);
  }

  lemma SameNets(s: seq<SubnetRecord>, t: seq<SubnetRecord>)
    requires |s| == |t| && forall i :: 0 <= i < |s| ==> s[i].net == t[i].net
    ensures forall net :: HasNet(s, net) ==> HasNet(t, net)
  {
    forall net | HasNet(s, net) ensures HasNet(t, net) {
      var i :| 0 <= i < |s| && s[i].net == net;
      assert t[i] in t;
    }
  }

  // ----- The ledger object --------------------------------------------------------------------

  class Session {
    var cycle: nat
    var subnets: seq<SubnetRecord>
    var devices: seq<DeviceRecord>
    var captureHosts: seq<CaptureHost>
    var registryGeneration: nat

    constructor ()
      ensures Value() == Plan([], [], []) && cycle == 0 && registryGeneration == 0
    {
      cycle, registryGeneration := 0, 0;
      subnets, devices, captureHosts := [], [], [];
    }

    function Value(): Plan
      reads this
    {
      Plan(subnets, devices, captureHosts)
    }

    function TotalWireAssets(): nat
      reads this
    {
      |devices| + |captureHosts|
    }

    predicate HasSubnet(net: Block)
      reads this
    {
      HasNet(subnets, net)
    }

    /** Refused at the hard cap and for a block already present. */
    method AddSubnet(rec: SubnetRecord) returns (ok: bool)
      modifies this`subnets
      ensures ok <==> |old(subnets)| < MAX_SUBNETS && !old(HasSubnet(rec.net))
      ensures subnets == if ok then old(subnets) + [rec] else old(subnets)
    {
      if |subnets| >= MAX_SUBNETS || HasSubnet(rec.net) {
        return false;
      }
      subnets := subnets + [rec];
      ok := true;
    }

    method AddDevice(rec: DeviceRecord) returns (ok: bool)
      modifies this`devices
      ensures ok <==> |old(devices)| < MAX_DEVICES
      ensures devices == if ok then old(devices) + [rec] else old(devices)
    {
      if |devices| >= MAX_DEVICES {
        return false;
      }
      devices := devices + [rec];
      ok := true;
    }

    /** Refused at the asset cap and for an address already registered; a real add bumps the generation. */
    method RegisterCaptureHost(rec: CaptureHost, cap: nat) returns (ok: bool)
      modifies this`captureHosts, this`registryGeneration
      ensures ok <==> old(TotalWireAssets()) < cap && !exists h :: h in old(captureHosts) && h.ip == rec.ip
      ensures captureHosts == if ok then old(captureHosts) + [rec] else old(captureHosts)
      ensures registryGeneration == old(registryGeneration) + if ok then 1 else 0
    {
      if TotalWireAssets() >= cap || exists h :: h in captureHosts && h.ip == rec.ip {
        return false;
      }
      captureHosts := captureHosts + [rec];
      registryGeneration := registryGeneration + 1;
      ok := true;
    }

    /** New zone names over the same zones: names are computed from the old records first. */
    method RenameZonesNewCycle(namer: (nat, SubnetRecord) -> string)
      modifies this`cycle, this`subnets
      ensures cycle == old(cycle) + 1 && |subnets| == |old(subnets)|
      ensures forall i :: 0 <= i < |subnets| ==> subnets[i] == old(subnets)[i].(zoneName := namer(i, old(subnets)[i]))
    {
      cycle := cycle + 1;
      var old_ := subnets;
      subnets := seq(|old_|, i requires 0 <= i < |old_| => old_[i].(zoneName := namer(i, old_[i])));
    }
  }
}
