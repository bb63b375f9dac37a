/**
 Replaying a capture into the ledger: reconcile it with the plan, register what that reports, and
 account for every frame that leaves.
 */
module Engine {
  import opened Wire
  import opened Net
  import opened Rng
  import opened Allocator
  import opened Macs
  import opened Placement
  import opened HostMap
  import opened Captures
  import opened Ledger
  import Frame
  import Checksum
  import Reconcile
  import Remap

  type Group = Remap.Group

  // ----- What the ledger tells a reconciliation -----------------------------------------------

  function ReservedIn(ds: seq<DeviceRecord>, net: Block): set<u32> {
    set d | d in ds && d.zone == net :: d.ip
  }

  /** The protocol of the first device of a zone. */
  function FirstProtocol(ds: seq<DeviceRecord>, net: Block): Option<string> {
    if ds == [] then None
    else if ds[0].zone == net then Some(ds[0].protocol)
    else FirstProtocol(ds[1..], net)
  }

  function ZoneTargets(p: Plan): (r: seq<Reconcile.ZoneTarget>)
    ensures |r| == |p.subnets|
    ensures forall i :: 0 <= i < |r| ==>
              r[i].net == p.subnets[i].net && r[i].reserved == ReservedIn(p.devices, r[i].net)
  {
    seq(|p.subnets|, i requires 0 <= i < |p.subnets| =>
      var s := p.subnets[i];
      Reconcile.ZoneTarget(s.net, s.vendor, s.level, FirstProtocol(p.devices, s.net), ReservedIn(p.devices, s.net)))
  }

  /** A zone is offered under its own vendor and level, and under the protocol of its first device, if it has any. */
  lemma TargetIs(p: Plan, i: nat)
    requires i < |p.subnets|
    ensures var s, t := p.subnets[i], ZoneTargets(p)[i];
            && t.vendor == s.vendor && t.level == s.level && t.net == s.net
            && (t.protocol == None <==> forall d :: d in p.devices ==> d.zone != s.net)
            && (forall j :: 0 <= j < |p.devices| && p.devices[j].zone == s.net
                            && (forall k :: 0 <= k < j ==> p.devices[k].zone != s.net) ==>
                  t.protocol == Some(p.devices[j].protocol))
  {
    FirstProtocolIs(p.devices, p.subnets[i].net);
  }

  lemma {:induction false} FirstProtocolIs(ds: seq<DeviceRecord>, net: Block)
    ensures FirstProtocol(ds, net) == None <==> forall d :: d in ds ==> d.zone != net
    ensures forall j :: 0 <= j < |ds| && ds[j].zone == net && (forall k :: 0 <= k < j ==> ds[k].zone != net) ==>
              FirstProtocol(ds, net) == Some(ds[j].protocol)
  {
    if ds != [] && ds[0].zone != net {
      FirstProtocolIs(ds[1..], net);
      assert forall j :: 0 < j < |ds| ==> ds[j] == ds[1..][j - 1];
      assert forall d :: d in ds <==> d == ds[0] || d in ds[1..];
    }
  }

  /** Origin address to assigned address; a later record would win, but origins never repeat. */
  function RegisteredOrigins(hs: seq<CaptureHost>): map<u32, u32> {
    if hs == [] then map[]
    else RegisteredOrigins(hs[..|hs| - 1])[hs[|hs| - 1].origin := hs[|hs| - 1].ip]
  }

  function DeviceMacMap(ds: seq<DeviceRecord>): map<u32, Mac> {
    if ds == [] then map[]
    else DeviceMacMap(ds[..|ds| - 1])[ds[|ds| - 1].ip := ds[|ds| - 1].mac]
  }

  lemma {:induction false} RegisteredKeys(hs: seq<CaptureHost>, o: u32)
    ensures o in RegisteredOrigins(hs) <==> exists h :: h in hs && h.origin == o
  {
    if hs != [] {
      var n := |hs| - 1;
      RegisteredKeys(hs[..n], o);
      assert forall h :: h in hs <==> h in hs[..n] || h == hs[n];
    }
  }

  lemma {:induction false} RegisteredLookup(hs: seq<CaptureHost>, i: nat)
    requires DistinctHosts(hs) && i < |hs|
    ensures hs[i].origin in RegisteredOrigins(hs) && RegisteredOrigins(hs)[hs[i].origin] == hs[i].ip
  {
    var n := |hs| - 1;
    if i < n {
      RegisteredLookup(hs[..n], i);
    }
  }

  lemma {:induction false} RegisteredValue(hs: seq<CaptureHost>, o: u32)
    requires o in RegisteredOrigins(hs)
    ensures RegisteredOrigins(hs)[o] in HostIps(hs)
  {
    var n := |hs| - 1;
    assert forall h :: h in hs <==> h in hs[..n] || h == hs[n];
    if o != hs[n].origin {
      RegisteredValue(hs[..n], o);
    }
  }

  lemma RegisteredFacts(hs: seq<CaptureHost>)
    requires DistinctHosts(hs)
    ensures RegisteredOrigins(hs).Values == HostIps(hs)
    ensures forall h :: h in hs ==> h.origin in RegisteredOrigins(hs) && RegisteredOrigins(hs)[h.origin] == h.ip
  {
    hide RegisteredOrigins;
    var m := RegisteredOrigins(hs);
    forall h | h in hs ensures h.origin in m && m[h.origin] == h.ip && h.ip in m.Values {
      var i :| 0 <= i < |hs| && hs[i] == h;
      RegisteredLookup(hs, i);
    }
    forall o | o in m ensures m[o] in HostIps(hs) {
      RegisteredValue(hs, o);
    }
  }

  lemma {:induction false} DeviceMacFacts(ds: seq<DeviceRecord>)
    ensures DeviceMacMap(ds).Keys == DeviceIps(ds)
  {
    if ds != [] {
      var n := |ds| - 1;
      DeviceMacFacts(ds[..n]);
      assert forall d :: d in ds <==> d in ds[..n] || d == ds[n];
      assert DeviceIps(ds) == DeviceIps(ds[..n]) + {ds[n].ip};
    }
  }

  /** The table gives every device its own hardware address. */
  lemma {:induction false} DeviceMacLookup(ds: seq<DeviceRecord>, i: nat)
    requires DistinctDevices(ds) && i < |ds|
    ensures ds[i].ip in DeviceMacMap(ds) && DeviceMacMap(ds)[ds[i].ip] == ds[i].mac
  {
    var n := |ds| - 1;
    if i < n {
      DeviceMacLookup(ds[..n], i);
    }
  }

  /** Every device sits in a known zone, so the zones reserve exactly the device addresses. */
  lemma ReservedIsDevices(prefix: Prefix, p: Plan)
    requires Inv(prefix, p)
    ensures Reconcile.Reserved(ZoneTargets(p)) == DeviceIps(p.devices)
  {
    var zones := ZoneTargets(p);
    hide IsHost, Station, Gateway, ZonesOk, DistinctDevices, DistinctHosts, Separate, HostOk;
    forall d | d in p.devices ensures d.ip in Reconcile.Reserved(zones) {
      assert DeviceOk(p.subnets, d);
      var i :| 0 <= i < |p.subnets| && p.subnets[i].net == d.zone;
      assert zones[i] in zones && d.ip in zones[i].reserved;
    }
  }

  // ----- Grouping a capture -------------------------------------------------------------------

  datatype Class = Class(level: nat, vendor: Option<string>, protocol: Option<string>)

  method SeqOfSet(s: set<u32>) returns (r: seq<u32>)
    ensures forall x :: x in r <==> x in s
    ensures forall i, j :: 0 <= i < j < |r| ==> r[i] != r[j]
  {
    r := [];
    var rest := s;
    while rest != {}
      invariant rest <= s && forall x :: x in r <==> x in s && x !in rest
      invariant forall i, j :: 0 <= i < j < |r| ==> r[i] != r[j]
      decreases |rest|
    {
      var x :| x in rest;
      r := r + [x];
      rest := rest - {x};
    }
  }

  /** A group holding exactly the hosts filed under one key, each once. */
  ghost predicate Collects(g: Reconcile.CaptureGroup, key: Group, groupByHost: map<u32, Group>) {
    && g.net == Block(key.net, key.prefix)
    && (forall h :: h in g.hosts <==> h in groupByHost && groupByHost[h] == key)
    && (forall i, j :: 0 <= i < j < |g.hosts| ==> g.hosts[i] != g.hosts[j])
  }

  method CollectGroup(groupByHost: map<u32, Group>, key: Group, cls: Class) returns (g: Reconcile.CaptureGroup)
    ensures Collects(g, key, groupByHost) && Class(g.level, g.vendor, g.protocol) == cls
  {
    var hosts := SeqOfSet(set h | h in groupByHost && groupByHost[h] == key);
    g := Reconcile.CaptureGroup(Block(key.net, key.prefix), cls.level, cls.vendor, cls.protocol, hosts);
  }

  /** A group is one subnet's hosts under that subnet's class. */
  ghost predicate IsSubnetGroup(g: Reconcile.CaptureGroup, known: set<u32>, hints: seq<Block>,
                                classify: Group -> Class) {
    var key := Remap.Group.Group(g.net.prefix, g.net.net);
    && (forall h :: h in g.hosts <==> h in known && Remap.GroupOf(h, hints) == key)
    && (forall h :: h in g.hosts ==> Remap.SubnetIs(hints, h, g.net.prefix, g.net.net))
    && Class(g.level, g.vendor, g.protocol) == classify(key)
  }

  /** Hosts by subnet: every relocatable address of the capture in exactly one group. */
  method CaptureGroups(packets: seq<array<byte>>, hints: seq<Block>, classify: Group -> Class)
    returns (groups: seq<Reconcile.CaptureGroup>)
    ensures Reconcile.NoRepeats(groups)
    ensures Reconcile.HostsIn(groups) == Remap.HostsOf(FramesOf(packets))
    ensures forall g :: g in groups ==> IsSubnetGroup(g, Remap.HostsOf(FramesOf(packets)), hints, classify)
  {
    hide Remap.HostsOf, Remap.GroupOf, Reconcile.HostsIn, Reconcile.NoRepeats, FramesOf, Collects, Remap.Before,
      IsSubnetGroup;
    var groupByHost := Remap.EnumerateHosts(packets, hints);
    var keys := Remap.SortGroups(groupByHost.Values);
    groups := [];
    for i := 0 to |keys|
      invariant |groups| == i && forall j :: 0 <= j < i ==> Collects(groups[j], keys[j], groupByHost)
      invariant forall g :: g in groups ==> IsSubnetGroup(g, Remap.HostsOf(FramesOf(packets)), hints, classify)
    {
      var g := CollectGroup(groupByHost, keys[i], classify(keys[i]));
      SubnetGroup(g, keys[i], groupByHost, hints, classify);
      groups := groups + [g];
    }
    GroupsCover(groupByHost, keys, groups);
  }

  lemma SubnetGroup(g: Reconcile.CaptureGroup, key: Group, groupByHost: map<u32, Group>, hints: seq<Block>,
                    classify: Group -> Class)
    requires Collects(g, key, groupByHost) && Class(g.level, g.vendor, g.protocol) == classify(key)
    requires forall h :: h in groupByHost ==> groupByHost[h] == Remap.GroupOf(h, hints)
    ensures IsSubnetGroup(g, groupByHost.Keys, hints, classify)
  {
    hide Remap.GroupOf, Remap.SubnetIs;
    assert key == Remap.Group.Group(key.prefix, key.net);
    forall h | h in g.hosts ensures Remap.SubnetIs(hints, h, g.net.prefix, g.net.net) {
      Remap.GroupIsSubnet(h, hints);
    }
  }

  lemma GroupsCover(groupByHost: map<u32, Group>, keys: seq<Group>, groups: seq<Reconcile.CaptureGroup>)
    requires forall g :: g in keys <==> g in groupByHost.Values
    requires forall i, j :: 0 <= i < j < |keys| ==> keys[i] != keys[j]
    requires |groups| == |keys| && forall j :: 0 <= j < |keys| ==> Collects(groups[j], keys[j], groupByHost)
    ensures Reconcile.NoRepeats(groups)
    ensures Reconcile.HostsIn(groups) == groupByHost.Keys
  {
    forall i, j, h | 0 <= i < j < |groups| && h in groups[i].hosts ensures h !in groups[j].hosts {
      assert Collects(groups[i], keys[i], groupByHost) && Collects(groups[j], keys[j], groupByHost);
      assert groupByHost[h] == keys[i] != keys[j];
    }
    forall g | g in groups ensures forall a, b :: 0 <= a < b < |g.hosts| ==> g.hosts[a] != g.hosts[b] {
      var j :| 0 <= j < |groups| && groups[j] == g;
      assert Collects(g, keys[j], groupByHost);
    }
    forall h | h in groupByHost ensures h in Reconcile.HostsIn(groups) {
      assert groupByHost[h] in keys;
      var j :| 0 <= j < |keys| && keys[j] == groupByHost[h];
      assert Collects(groups[j], keys[j], groupByHost) && groups[j] in groups;
    }
    forall h | h in Reconcile.HostsIn(groups) ensures h in groupByHost {
      var g :| g in groups && h in g.hosts;
      var j :| 0 <= j < |groups| && groups[j] == g;
      assert Collects(g, keys[j], groupByHost);
    }
  }

  // ----- Registering what was reported --------------------------------------------------------

  function RecordOf(a: Reconcile.Asset): CaptureHost {
    CaptureHost(a.origin, a.ip, a.mac, a.vendor, a.protocol, a.level, a.zone)
  }

  function RecordsOf(assets: seq<Reconcile.Asset>): (r: seq<CaptureHost>)
    ensures |r| == |assets| && forall i :: 0 <= i < |r| ==> r[i] == RecordOf(assets[i])
  {
    seq(|assets|, i requires 0 <= i < |assets| => RecordOf(assets[i]))
  }

  function CtxOf(p: Plan, affinity: Reconcile.Affinity, cap: nat): Reconcile.Ctx {
    var total := |p.devices| + |p.hosts|;
    Reconcile.Ctx(ZoneTargets(p), affinity, RegisteredOrigins(p.hosts), DeviceMacMap(p.devices), AllMacs(p),
                  if total < cap then cap - total else 0)
  }

  /** A reported asset is new to the ledger it was reconciled against. */
  lemma ReportedIsNew(prefix: Prefix, p: Plan, ctx: Reconcile.Ctx, a: Reconcile.Asset)
    requires Inv(prefix, p) && ctx.zones == ZoneTargets(p) && ctx.registered == RegisteredOrigins(p.hosts)
    requires ctx.reservedMacs == AllMacs(p) && Reconcile.AssetOk(ctx, a)
    ensures NewHost(p, RecordOf(a))
  {
    ReservedIsDevices(prefix, p);
    RegisteredFacts(p.hosts);
    hide IsHost, Reconcile.Reserved, RegisteredOrigins, ZonesOk, DeviceOk;
    var i :| 0 <= i < |ctx.zones| && ctx.zones[i].net == a.zone && IsHost(ctx.zones[i].net, a.ip);
    assert p.subnets[i] in p.subnets;
  }

  /** Earlier assets of the same report do not get in the way of a later one. */
  lemma StillNew(p: Plan, assets: seq<Reconcile.Asset>, i: nat)
    requires i < |assets| && Reconcile.DistinctAssets(assets)
    requires NewHost(p, RecordOf(assets[i]))
    ensures NewHost(p.(hosts := p.hosts + RecordsOf(assets[..i])), RecordOf(assets[i]))
  {
    hide HostOk;
    var q := p.hosts + RecordsOf(assets[..i]);
    forall k | k in q && k !in p.hosts
      ensures k.ip != assets[i].ip && k.mac != assets[i].mac && k.origin != assets[i].origin
    {
      var j :| 0 <= j < i && k == RecordsOf(assets[..i])[j];
      assert assets[..i][j] == assets[j];
    }
  }

  lemma FreshAddress(p: Plan, h: CaptureHost)
    requires NewHost(p, h)
    ensures !exists k :: k in p.hosts && k.ip == h.ip
  {
    assert forall k :: k in p.hosts ==> k.ip in HostIps(p.hosts);
  }

  /** Registers a whole report; with the budget derived from the cap, nothing is ever refused. */
  method RegisterAll(session: Session, assets: seq<Reconcile.Asset>, cap: nat, ghost prefix: Prefix,
                     ghost ctx: Reconcile.Ctx)
    requires Inv(prefix, session.Value())
    requires ctx.zones == ZoneTargets(session.Value()) && ctx.registered == RegisteredOrigins(session.captureHosts)
    requires ctx.reservedMacs == AllMacs(session.Value())
    requires Reconcile.DistinctAssets(assets) && forall a :: a in assets ==> Reconcile.AssetOk(ctx, a)
    requires assets != [] ==> session.TotalWireAssets() + |assets| <= cap
    modifies session`captureHosts, session`registryGeneration
    ensures Inv(prefix, session.Value())
    ensures session.captureHosts == old(session.captureHosts) + RecordsOf(assets)
    ensures session.registryGeneration == old(session.registryGeneration) + |assets|
  {
    hide Inv, Reconcile.AssetOk, Reconcile.DistinctAssets, NewHost, ZoneTargets, RegisteredOrigins, AllMacs;
    ghost var start := session.Value();
    for i := 0 to |assets|
      invariant Inv(prefix, session.Value())
      invariant session.captureHosts == start.hosts + RecordsOf(assets[..i])
      invariant session.registryGeneration == old(session.registryGeneration) + i
    {
      ghost var before := session.Value();
      ReportedIsNew(prefix, start, ctx, assets[i]);
      StillNew(start, assets, i);
      FreshAddress(before, RecordOf(assets[i]));
      HostAdded(prefix, before, RecordOf(assets[i]));
      var ok := session.RegisterCaptureHost(RecordOf(assets[i]), cap);
      assert RecordsOf(assets[..i + 1]) == RecordsOf(assets[..i]) + [RecordOf(assets[i])];
    }
    assert assets[..|assets|] == assets;
  }

  // ----- Reconcile, then register -------------------------------------------------------------

  lemma SpreadsLess(derive: Derivation, n: nat, m: nat)
    requires Spreads(derive, n) && m <= n
    ensures Spreads(derive, m)
  {
  }

  lemma CtxReady(prefix: Prefix, p: Plan, affinity: Reconcile.Affinity, cap: nat, derive: Derivation)
    requires Inv(prefix, p) && cap <= MAX_DEVICES
    requires Spreads(derive, MAX_DEVICES + |p.hosts|)
    ensures var ctx := CtxOf(p, affinity, cap);
            && Spreads(derive, |ctx.reservedMacs| + ctx.budget)
            && ctx.deviceMacs.Keys <= Reconcile.Reserved(ctx.zones)
  {
    var ctx := CtxOf(p, affinity, cap);
    ReservedIsDevices(prefix, p);
    DeviceMacFacts(p.devices);
    MacCount(p);
    SpreadsLess(derive, MAX_DEVICES + |p.hosts|, |ctx.reservedMacs| + ctx.budget);
  }

  /** The independent guarantees of a reconciled capture, read off the frames that survive. */
  ghost predicate WireMatchesPlan(frames: seq<seq<byte>>, hosts: map<u32, u32>, wire: u32 -> Mac,
                                  added: seq<CaptureHost>) {
    && (forall f :: f in frames ==> PlanFrame(f, hosts, wire) && ChecksumsHold(f))
    && (forall f, h :: f in frames && h in added && ComesFrom(f, h.ip) ==> SourceHardwareIs(f, h.mac))
  }

  predicate ComesFrom(f: seq<byte>, ip: u32) {
    Endpoints(f).Some? && Endpoints(f).value.0 == ip
  }

  /** A host registered earlier comes under its stored hardware exactly if that is its natural one. */
  ghost predicate KnownHardware(frames: seq<seq<byte>>, known: seq<CaptureHost>, derive: Derivation) {
    forall f, h :: f in frames && h in known && ComesFrom(f, h.ip) ==>
      (SourceHardwareIs(f, h.mac) <==> derive(h.ip, 0) == h.mac)
  }

  /** What rides a device comes under the device's own hardware. */
  ghost predicate DeviceHardware(frames: seq<seq<byte>>, devices: seq<DeviceRecord>) {
    forall f, d :: f in frames && d in devices && ComesFrom(f, d.ip) ==> SourceHardwareIs(f, d.mac)
  }

  lemma ReconciledWire(frames: seq<seq<byte>>, ctx: Reconcile.Ctx, derive: Derivation,
                       groups: seq<Reconcile.CaptureGroup>, hosts: map<u32, u32>, assets: seq<Reconcile.Asset>,
                       resolved: map<u32, Mac>)
    requires Reconcile.Reconciled(ctx, derive, groups, hosts, assets, resolved)
    requires Remap.NoStray(frames, hosts)
    ensures var wire := (ip: u32) => Reconcile.WireMac(ctx, derive, resolved, ip);
            WireMatchesPlan(Survivors(frames, hosts, wire, true), hosts, wire, RecordsOf(assets))
  {
    hide Survivors, PlanFrame, ChecksumsHold, Endpoints, SourceHardwareIs, Reconcile.WireMac, Reconcile.AssetOk,
      Reconcile.Reserved, Remap.NoStray;
    var wire := (ip: u32) => Reconcile.WireMac(ctx, derive, resolved, ip);
    var out := Survivors(frames, hosts, wire, true);
    forall f | f in out ensures PlanFrame(f, hosts, wire) && ChecksumsHold(f) {
      Remap.SurvivorsPlanned(frames, hosts, wire, f);
      Remap.SurvivorsHold(frames, hosts, wire, true, f);
    }
    forall f, h | f in out && h in RecordsOf(assets) && ComesFrom(f, h.ip)
      ensures SourceHardwareIs(f, h.mac)
    {
      var i :| 0 <= i < |assets| && h == RecordOf(assets[i]);
      assert assets[i] in assets && wire(h.ip) == h.mac;
      PlannedSource(f, hosts, wire);
    }
  }

  lemma PlannedSource(f: seq<byte>, hosts: map<u32, u32>, wire: u32 -> Mac)
    requires PlanFrame(f, hosts, wire)
    ensures Endpoints(f).Some? && SourceHardwareIs(f, wire(Endpoints(f).value.0))
  {
  }

  // ----- Hosts registered by an earlier replay ------------------------------------------------

  /**
   The overrides hold devices and new hosts only, so a reused host is rewritten with its natural
   address; that is the stored one exactly if the two agree in the ledger.
   */
  lemma ReusedMac(prefix: Prefix, p: Plan, affinity: Reconcile.Affinity, cap: nat, derive: Derivation,
                  groups: seq<Reconcile.CaptureGroup>, hosts: map<u32, u32>, assets: seq<Reconcile.Asset>,
                  resolved: map<u32, Mac>, h: CaptureHost)
    requires Inv(prefix, p) && h in p.hosts
    requires Reconcile.Reconciled(CtxOf(p, affinity, cap), derive, groups, hosts, assets, resolved)
    ensures Reconcile.WireMac(CtxOf(p, affinity, cap), derive, resolved, h.ip) == derive(h.ip, 0)
    ensures Reconcile.WireMac(CtxOf(p, affinity, cap), derive, resolved, h.ip) == h.mac <==> derive(h.ip, 0) == h.mac
  {
    var ctx := CtxOf(p, affinity, cap);
    RegisteredFacts(p.hosts);
    DeviceMacFacts(p.devices);
    NotADevice(prefix, p, h);
    hide Inv, ZoneTargets, RegisteredOrigins, DeviceMacMap, AllMacs, DistinctHosts;
    assert h.ip in ctx.registered.Values;
    assert forall a :: a in assets ==> a.ip !in ctx.registered.Values;
    assert h.ip !in Reconcile.AssetIps(assets);
  }

  /** No override touches a device, so a host that rides one is rewritten with the device's own address. */
  lemma RiddenMac(prefix: Prefix, p: Plan, affinity: Reconcile.Affinity, cap: nat, derive: Derivation,
                  groups: seq<Reconcile.CaptureGroup>, hosts: map<u32, u32>, assets: seq<Reconcile.Asset>,
                  resolved: map<u32, Mac>, d: DeviceRecord)
    requires Inv(prefix, p) && d in p.devices
    requires Reconcile.Reconciled(CtxOf(p, affinity, cap), derive, groups, hosts, assets, resolved)
    ensures Reconcile.WireMac(CtxOf(p, affinity, cap), derive, resolved, d.ip) == d.mac
  {
    var i :| 0 <= i < |p.devices| && p.devices[i] == d;
    assert DistinctDevices(p.devices);
    DeviceMacLookup(p.devices, i);
    ReservedIsDevices(prefix, p);
    hide Inv, ZoneTargets, RegisteredOrigins, DeviceMacMap, AllMacs, DistinctDevices, Reconcile.Reserved;
    assert d.ip in DeviceIps(p.devices);
    assert forall a :: a in assets ==> Reconcile.AssetOk(CtxOf(p, affinity, cap), a);
    assert d.ip !in Reconcile.AssetIps(assets);
  }

  lemma NotADevice(prefix: Prefix, p: Plan, h: CaptureHost)
    requires Inv(prefix, p) && h in p.hosts
    ensures DistinctHosts(p.hosts) && h.ip !in DeviceIps(p.devices) && h.ip in HostIps(p.hosts)
  {
  }

  lemma RiddenWire(frames: seq<seq<byte>>, hosts: map<u32, u32>, wire: u32 -> Mac, devices: seq<DeviceRecord>)
    requires forall f :: f in frames ==> PlanFrame(f, hosts, wire)
    requires forall d :: d in devices ==> wire(d.ip) == d.mac
    ensures DeviceHardware(frames, devices)
  {
    hide PlanFrame, SourceHardwareIs;
    forall f, d | f in frames && d in devices && ComesFrom(f, d.ip) ensures SourceHardwareIs(f, d.mac) {
      PlannedSource(f, hosts, wire);
    }
  }

  lemma ReusedWire(frames: seq<seq<byte>>, hosts: map<u32, u32>, wire: u32 -> Mac, known: seq<CaptureHost>,
                   derive: Derivation)
    requires forall f :: f in frames ==> PlanFrame(f, hosts, wire)
    requires forall h :: h in known ==> wire(h.ip) == derive(h.ip, 0)
    ensures KnownHardware(frames, known, derive)
  {
    hide PlanFrame, Endpoints, SourceHardwareIs;
    forall f, h | f in frames && h in known && ComesFrom(f, h.ip)
      ensures SourceHardwareIs(f, h.mac) <==> derive(h.ip, 0) == h.mac
    {
      PlannedSource(f, hosts, wire);
      OneSource(f, wire(h.ip), h.mac);
    }
  }

  lemma OneSource(f: seq<byte>, a: Mac, b: Mac)
    requires SourceHardwareIs(f, a)
    ensures SourceHardwareIs(f, b) <==> a == b
  {
  }

  /** A new host is stored under its natural address exactly if no asset of the ledger and no other new host has it. */
  lemma StoredMac(ctx: Reconcile.Ctx, derive: Derivation, groups: seq<Reconcile.CaptureGroup>, hosts: map<u32, u32>,
                  assets: seq<Reconcile.Asset>, resolved: map<u32, Mac>, a: Reconcile.Asset)
    requires Reconcile.Reconciled(ctx, derive, groups, hosts, assets, resolved) && a in assets
    ensures a.mac == derive(a.ip, 0) <==>
              derive(a.ip, 0) !in ctx.reservedMacs && forall b :: b in assets && b.mac == derive(a.ip, 0) ==> b == a
  {
    hide Reconcile.WireMac, Reconcile.Reserved, Reconcile.ZoneFull, Reconcile.HostsIn, Reconcile.IsOrigin, IsHost;
    assert Reconcile.AssetOk(ctx, a);
    var salt: nat :| a.mac == derive(a.ip, salt) &&
                     forall s: nat :: s < salt ==> derive(a.ip, s) in ctx.reservedMacs + Reconcile.AssetMacs(assets);
    assert forall b :: b in assets && b.mac == a.mac ==> b == a;
  }

  // ----- One replay, accounted for ------------------------------------------------------------

  /** What a replay is given besides the ledger and the capture. */
  datatype Policy = Policy(hints: seq<Block>, classify: Group -> Class, affinity: Reconcile.Affinity, capAssets: nat,
                           derive: Derivation, tiebreak: (Block, Block) -> nat, remapMac: bool)

  /** How the host map came about: by reconciling with the zones, or at random when there are none. */
  datatype Outcome =
    | IntoZones(groups: seq<Reconcile.CaptureGroup>, assets: seq<Reconcile.Asset>, resolved: map<u32, Mac>,
                homes: seq<nat>, subnets: seq<(Block, Block)>)
    | AtRandom(blocks: seq<Group>, nets: seq<u32>)

  /** One replay: the ledger before, what it added, the frames read and sent, the maps used and their origin. */
  datatype Replayed = Replayed(plan: Plan, added: seq<CaptureHost>, before: seq<seq<byte>>, after: seq<seq<byte>>,
                               hosts: map<u32, u32>, wire: u32 -> Mac, outcome: Outcome)

  ghost predicate ZonesExplain(e: Replayed, q: Policy) {
    e.outcome.IntoZones? &&
    var ctx, o := CtxOf(e.plan, q.affinity, q.capAssets), e.outcome;
    && Reconcile.NoRepeats(o.groups) && Reconcile.HostsIn(o.groups) == Remap.HostsOf(e.before)
    && (forall g :: g in o.groups ==> IsSubnetGroup(g, Remap.HostsOf(e.before), q.hints, q.classify))
    && Reconcile.Reconciled(ctx, q.derive, o.groups, e.hosts, o.assets, o.resolved)
    && Reconcile.Arranged(ctx, o.groups, q.tiebreak, e.hosts, o.assets, o.subnets, o.homes, {})
    && e.added == RecordsOf(o.assets)
    && (forall ip :: e.wire(ip) == Reconcile.WireMac(ctx, q.derive, o.resolved, ip))
  }

  ghost predicate DrawsExplain(e: Replayed, q: Policy) {
    && e.outcome.AtRandom? && |e.outcome.nets| == |e.outcome.blocks|
    && e.added == [] && e.hosts.Keys == Remap.HostsOf(e.before)
    && (forall g :: g in e.outcome.blocks <==> exists h :: h in e.hosts && Remap.GroupOf(h, q.hints) == g)
    && Remap.IsHostMap(e.hosts, e.outcome.blocks, e.outcome.nets, q.hints) && Remap.DistancesKept(e.hosts, q.hints)
    && (forall i :: 0 <= i < |e.outcome.nets| ==> Placed(Block(e.outcome.nets[i], e.outcome.blocks[i].prefix)))
    && (TotalRoom(Remap.Prefixes(e.outcome.blocks)) <= POOL ==> Remap.Injective(e.hosts))
    && (forall ip :: e.wire(ip) == q.derive(ip, 0))
  }

  /** The whole account: how the maps came about, and that the frames sent are exactly their survivors. */
  ghost predicate Explained(e: Replayed, q: Policy) {
    && (if e.plan.subnets == [] then DrawsExplain(e, q) else ZonesExplain(e, q))
    && e.after == Survivors(e.before, e.hosts, e.wire, q.remapMac)
  }

  /** Every origin already registered maps to the address it was registered with. */
  ghost predicate OriginsMapped(known: seq<CaptureHost>, frames: seq<seq<byte>>, hosts: map<u32, u32>) {
    forall h :: h in known && h.origin in Remap.HostsOf(frames) ==> h.origin in hosts && hosts[h.origin] == h.ip
  }

  /** A new record belongs to a zone: its block, vendor and level, the protocol spoken there, an address of it. */
  ghost predicate Fits(p: Plan, h: CaptureHost) {
    exists i :: 0 <= i < |p.subnets| && h.zone == p.subnets[i].net && h.vendor == p.subnets[i].vendor
                && h.level == p.subnets[i].level && h.protocol == ZoneTargets(p)[i].protocol
                && IsHost(h.zone, h.ip)
  }

  ghost predicate IsOriginOf(hs: seq<CaptureHost>, origin: u32) {
    exists h :: h in hs && h.origin == origin
  }

  /** Some zone has every host address in use. */
  ghost predicate SomeZoneFull(p: Plan, added: seq<CaptureHost>) {
    exists s :: s in p.subnets && forall ip :: IsHost(s.net, ip) ==> ip in Ips(p) || ip in HostIps(added)
  }

  /** A host goes without a record of its own only when the assets are at their cap or a zone is full. */
  ghost predicate RefusedForCause(e: Replayed, q: Policy) {
    forall o :: o in Remap.HostsOf(e.before) && !IsOriginOf(e.plan.hosts, o) && !IsOriginOf(e.added, o) ==>
      |e.plan.devices| + |e.plan.hosts| + |e.added| >= q.capAssets || SomeZoneFull(e.plan, e.added)
  }

  /** What the account means: registered addresses stay, and with MAC remap the frames sent are the plan's. */
  ghost predicate ReplayOk(e: Replayed, q: Policy) {
    && OriginsMapped(e.plan.hosts, e.before, e.hosts)
    && (forall h :: h in e.added ==> h.origin in e.hosts && e.hosts[h.origin] == h.ip)
    && (forall h :: h in e.added ==> Fits(e.plan, h))
    && (e.plan.subnets != [] ==> RefusedForCause(e, q))
    && (e.plan.subnets == [] || e.plan.devices != [] ==> e.hosts.Keys == Remap.HostsOf(e.before))
    && (q.remapMac && (e.plan.subnets == [] || e.plan.devices != [] || Remap.NoStray(e.before, e.hosts)) ==>
          && WireMatchesPlan(e.after, e.hosts, e.wire, e.added)
          && KnownHardware(e.after, e.plan.hosts, q.derive) && DeviceHardware(e.after, e.plan.devices))
  }

  lemma ZonesMean(prefix: Prefix, e: Replayed, q: Policy)
    requires Inv(prefix, e.plan) && ZonesExplain(e, q) && e.plan.subnets != []
    requires e.after == Survivors(e.before, e.hosts, e.wire, q.remapMac)
    ensures ReplayOk(e, q)
  {
    hide Inv, Survivors, Reconcile.Reconciled, Reconcile.Arranged, Reconcile.NoRepeats, IsSubnetGroup, PlanFrame,
      Reconcile.WireMac, Remap.HostsOf, Reconcile.HostsIn, CtxOf, Remap.NoStray, WireMatchesPlan, KnownHardware,
      DeviceHardware, Fits, RefusedForCause;
    var ctx, o := CtxOf(e.plan, q.affinity, q.capAssets), e.outcome;
    CtxFacts(e.plan, q.affinity, q.capAssets);
    OriginsKept(prefix, e.plan, ctx, q.derive, o.groups, e.hosts, o.assets, o.resolved, e.before);
    ReportMapped(ctx, q.derive, o.groups, e.hosts, o.assets, o.resolved);
    AddedFit(e, q);
    Refusals(prefix, e, q);
    if e.plan.devices != [] {
      DevicesReserve(prefix, e.plan, ctx);
      EveryHostMapped(ctx, q.derive, o.groups, e.hosts, o.assets, o.resolved);
      Remap.AllMapped(e.before, e.hosts);
    }
    if q.remapMac && Remap.NoStray(e.before, e.hosts) {
      ZonesWire(prefix, e, q);
    }
  }

  lemma AddedFit(e: Replayed, q: Policy)
    requires ZonesExplain(e, q)
    ensures forall h :: h in e.added ==> Fits(e.plan, h)
  {
    hide IsSubnetGroup, Reconcile.NoRepeats, Remap.HostsOf, CtxOf, Reconcile.Reserved, Reconcile.WireMac, FirstSalt,
      ZoneTargets, IsHost, Reconcile.Yields, Reconcile.IsBest, Reconcile.KeepsSlot, Reconcile.SummaryOf,
      Reconcile.ZoneFull, Reconcile.HostsIn, Reconcile.Arranged, Reconcile.Reconciled;
    var ctx, o := CtxOf(e.plan, q.affinity, q.capAssets), e.outcome;
    CtxFacts(e.plan, q.affinity, q.capAssets);
    forall h | h in e.added ensures Fits(e.plan, h) {
      var k :| 0 <= k < |o.assets| && h == RecordOf(o.assets[k]);
      var zi := AssetHome(ctx, q.derive, o.groups, q.tiebreak, e.hosts, o.assets, o.resolved, o.subnets, o.homes, k);
      HomeFits(e.plan, o.assets[k], zi);
    }
  }

  lemma HomeFits(p: Plan, a: Reconcile.Asset, zi: nat)
    requires zi < |p.subnets| && IsHost(a.zone, a.ip)
    requires var z := ZoneTargets(p)[zi];
             a.zone == z.net && a.vendor == z.vendor && a.protocol == z.protocol && a.level == z.level
    ensures Fits(p, RecordOf(a))
  {
    hide IsHost;
    TargetIs(p, zi);
  }

  lemma AssetHome(ctx: Reconcile.Ctx, derive: Derivation, groups: seq<Reconcile.CaptureGroup>,
                  tiebreak: (Block, Block) -> nat, hosts: map<u32, u32>, assets: seq<Reconcile.Asset>,
                  resolved: map<u32, Mac>, subnets: seq<(Block, Block)>, homes: seq<nat>, k: nat) returns (zi: nat)
    requires Reconcile.Reconciled(ctx, derive, groups, hosts, assets, resolved) && k < |assets|
    requires Reconcile.Arranged(ctx, groups, tiebreak, hosts, assets, subnets, homes, {})
    ensures zi < |ctx.zones|
    ensures var a, z := assets[k], ctx.zones[zi];
            && a.zone == z.net && a.vendor == z.vendor && a.protocol == z.protocol && a.level == z.level
            && IsHost(a.zone, a.ip)
  {
    hide IsHost, Reconcile.Reserved, Reconcile.WireMac, FirstSalt, Reconcile.Yields, Reconcile.KeepsSlot,
      Reconcile.SummaryOf, Reconcile.ZoneFull, Reconcile.InAddressOrder, Reconcile.Outranks;
    var a := assets[k];
    assert a in assets && Reconcile.AssetOk(ctx, a) && a.origin in hosts;
    assert a.origin in Reconcile.HostsIn(groups);
    var g :| g in groups && a.origin in g.hosts;
    var i :| 0 <= i < |groups| && groups[i] == g;
    zi := homes[i];
    assert Reconcile.GroupServed(ctx, hosts, assets, groups[i], tiebreak, zi);
    assert a.origin in Reconcile.HostSet(g);
    assert Reconcile.Settled(ctx, hosts, assets, a.origin, zi);
    assert Reconcile.IsOrigin(assets, a.origin);
    assert Reconcile.PlacedIn(ctx, assets, a, ctx.zones[zi]);
  }

  lemma Refusals(prefix: Prefix, e: Replayed, q: Policy)
    requires Inv(prefix, e.plan) && ZonesExplain(e, q)
    ensures RefusedForCause(e, q)
  {
    hide Inv, IsSubnetGroup, Reconcile.NoRepeats, Remap.HostsOf, Reconcile.Reserved, Reconcile.WireMac, FirstSalt,
      ZoneTargets, IsHost, Reconcile.Arranged, Reconcile.HostsIn, Reconcile.AssetOk, RegisteredOrigins, DeviceMacMap,
      AllMacs, Reconcile.ZoneFull, SomeZoneFull, Reconcile.DistinctAssets;
    var ctx, o := CtxOf(e.plan, q.affinity, q.capAssets), e.outcome;
    ReservedIsDevices(prefix, e.plan);
    KnownHosts(prefix, e.plan);
    forall h | h in Remap.HostsOf(e.before) && !IsOriginOf(e.plan.hosts, h) && !IsOriginOf(e.added, h)
      ensures |e.plan.devices| + |e.plan.hosts| + |e.added| >= q.capAssets || SomeZoneFull(e.plan, e.added)
    {
      RegisteredKeys(e.plan.hosts, h);
      OriginsAdded(o.assets, h);
      if |o.assets| != ctx.budget {
        FullZoneSeen(e.plan, o.assets);
      }
    }
  }

  lemma KnownHosts(prefix: Prefix, p: Plan)
    requires Inv(prefix, p)
    ensures RegisteredOrigins(p.hosts).Values == HostIps(p.hosts)
  {
    RegisteredFacts(p.hosts);
  }

  lemma OriginsAdded(assets: seq<Reconcile.Asset>, h: u32)
    ensures Reconcile.IsOrigin(assets, h) <==> IsOriginOf(RecordsOf(assets), h)
  {
    if Reconcile.IsOrigin(assets, h) {
      var i :| 0 <= i < |assets| && assets[i].origin == h;
      assert RecordsOf(assets)[i] in RecordsOf(assets);
    }
    if IsOriginOf(RecordsOf(assets), h) {
      var i :| 0 <= i < |assets| && RecordsOf(assets)[i].origin == h;
      assert assets[i] in assets;
    }
  }

  lemma FullZoneSeen(p: Plan, assets: seq<Reconcile.Asset>)
    requires Reconcile.ZoneFull(ZoneTargets(p), DeviceIps(p.devices) + HostIps(p.hosts) + Reconcile.AssetIps(assets))
    ensures SomeZoneFull(p, RecordsOf(assets))
  {
    hide IsHost;
    var taken := DeviceIps(p.devices) + HostIps(p.hosts) + Reconcile.AssetIps(assets);
    var z :| z in ZoneTargets(p) && Reconcile.FullZone(z, taken);
    var i :| 0 <= i < |p.subnets| && ZoneTargets(p)[i] == z;
    assert p.subnets[i] in p.subnets;
    forall a | a in assets ensures a.ip in HostIps(RecordsOf(assets)) {
      var k :| 0 <= k < |assets| && assets[k] == a;
      assert RecordsOf(assets)[k] in RecordsOf(assets);
    }
  }

  lemma ZonesWire(prefix: Prefix, e: Replayed, q: Policy)
    requires Inv(prefix, e.plan) && ZonesExplain(e, q)
    requires e.after == Survivors(e.before, e.hosts, e.wire, true) && Remap.NoStray(e.before, e.hosts)
    ensures WireMatchesPlan(e.after, e.hosts, e.wire, e.added)
    ensures KnownHardware(e.after, e.plan.hosts, q.derive) && DeviceHardware(e.after, e.plan.devices)
  {
    hide Inv, Survivors, Reconcile.Reconciled, Reconcile.Arranged, Reconcile.NoRepeats, IsSubnetGroup, PlanFrame,
      Reconcile.WireMac, Remap.HostsOf, Reconcile.HostsIn, CtxOf, Remap.NoStray, KnownHardware, DeviceHardware,
      ChecksumsHold;
    var ctx, o := CtxOf(e.plan, q.affinity, q.capAssets), e.outcome;
    var wire := (ip: u32) => Reconcile.WireMac(ctx, q.derive, o.resolved, ip);
    SameSurvivors(e.before, e.hosts, e.wire, wire);
    ReconciledWire(e.before, ctx, q.derive, o.groups, e.hosts, o.assets, o.resolved);
    SamePlanFrames(e.after, e.hosts, wire, e.wire);
    forall h | h in e.plan.hosts ensures e.wire(h.ip) == q.derive(h.ip, 0) {
      ReusedMac(prefix, e.plan, q.affinity, q.capAssets, q.derive, o.groups, e.hosts, o.assets, o.resolved, h);
    }
    ReusedWire(e.after, e.hosts, e.wire, e.plan.hosts, q.derive);
    forall d | d in e.plan.devices ensures e.wire(d.ip) == d.mac {
      RiddenMac(prefix, e.plan, q.affinity, q.capAssets, q.derive, o.groups, e.hosts, o.assets, o.resolved, d);
    }
    RiddenWire(e.after, e.hosts, e.wire, e.plan.devices);
  }

  lemma SamePlanFrames(frames: seq<seq<byte>>, hosts: map<u32, u32>, a: u32 -> Mac, b: u32 -> Mac)
    requires forall ip :: a(ip) == b(ip)
    requires forall f :: f in frames ==> PlanFrame(f, hosts, a)
    ensures forall f :: f in frames ==> PlanFrame(f, hosts, b)
  {
    hide SourceHardwareIs, Endpoints, Leaks;
  }

  lemma SameSurvivors(frames: seq<seq<byte>>, m: map<u32, u32>, a: u32 -> Mac, b: u32 -> Mac)
    requires forall ip :: a(ip) == b(ip)
    ensures Survivors(frames, m, a, true) == Survivors(frames, m, b, true)
  {
    hide Rewritten, Coherent, Leaks;
    forall f: seq<byte> ensures Rewritten(f, m, a, true) == Rewritten(f, m, b, true) {
      SameRewrite(f, m, a, b);
    }
    assert AllRewritten(frames, m, a, true) == AllRewritten(frames, m, b, true);
  }

  lemma SameRewrite(f: seq<byte>, m: map<u32, u32>, a: u32 -> Mac, b: u32 -> Mac)
    requires forall ip :: a(ip) == b(ip)
    ensures Rewritten(f, m, a, true) == Rewritten(f, m, b, true)
  {
    hide Frame.LayoutOf, Wire.Be32, WithAddresses, WithEthSrc, WithEthDst, WithSender, WithTarget, Checksum.Repaired,
      IsArpIpv4, IsRealHw;
  }

  lemma DrawsMean(prefix: Prefix, e: Replayed, q: Policy)
    requires Inv(prefix, e.plan) && DrawsExplain(e, q) && e.plan.subnets == []
    requires e.after == Survivors(e.before, e.hosts, e.wire, q.remapMac)
    ensures ReplayOk(e, q)
  {
    hide Inv, Survivors, PlanFrame, ChecksumsHold, Remap.HostsOf, Remap.NoStray, Remap.IsHostMap, Remap.GroupOf, Placed,
      TotalRoom, Remap.Prefixes, Remap.Injective;
    NoZonesNothing(prefix, e.plan);
    Remap.AllMapped(e.before, e.hosts);
    if q.remapMac {
      forall f | f in e.after ensures PlanFrame(f, e.hosts, e.wire) && ChecksumsHold(f) {
        Remap.SurvivorsPlanned(e.before, e.hosts, e.wire, f);
        Remap.SurvivorsHold(e.before, e.hosts, e.wire, true, f);
      }
    }
  }

  lemma ReportMapped(ctx: Reconcile.Ctx, derive: Derivation, groups: seq<Reconcile.CaptureGroup>,
                     hosts: map<u32, u32>, assets: seq<Reconcile.Asset>, resolved: map<u32, Mac>)
    requires Reconcile.Reconciled(ctx, derive, groups, hosts, assets, resolved)
    ensures forall h :: h in RecordsOf(assets) ==> h.origin in hosts && hosts[h.origin] == h.ip
  {
    forall h | h in RecordsOf(assets) ensures h.origin in hosts && hosts[h.origin] == h.ip {
      var i :| 0 <= i < |assets| && h == RecordOf(assets[i]);
      assert assets[i] in assets;
    }
  }

  lemma CtxFacts(p: Plan, affinity: Reconcile.Affinity, cap: nat)
    ensures var ctx := CtxOf(p, affinity, cap);
            && ctx.zones == ZoneTargets(p) && |ctx.zones| == |p.subnets|
            && ctx.registered == RegisteredOrigins(p.hosts) && ctx.reservedMacs == AllMacs(p)
            && (ctx.budget > 0 ==> |p.devices| + |p.hosts| + ctx.budget <= cap)
  {
  }

  /** Reconciles a capture with the ledger's zones and registers every asset that reports. */
  method ReplayIntoZones(session: Session, cap: Capture, q: Policy, ghost prefix: Prefix) returns (ghost e: Replayed)
    requires Inv(prefix, session.Value()) && Distinct(cap.packets) && session.subnets != []
    requires q.capAssets <= MAX_DEVICES && Spreads(q.derive, MAX_DEVICES + |session.captureHosts|)
    modifies session`captureHosts, session`registryGeneration, cap, cap.packets
    ensures Inv(prefix, session.Value())
    ensures Explained(e, q) && ReplayOk(e, q)
    ensures e.plan == old(session.Value()) && session.captureHosts == old(session.captureHosts) + e.added
    ensures e.before == old(FramesOf(cap.packets)) && e.after == FramesOf(cap.packets)
    ensures session.registryGeneration == old(session.registryGeneration) + |e.added|
    ensures e.added != [] ==> session.TotalWireAssets() <= q.capAssets
  {
    hide Inv, Distinct, Survivors, Reconcile.Reconciled, Reconcile.Reserved, Spreads, Remap.HostsOf, FramesOf,
      ZoneTargets, RegisteredOrigins, CtxOf, Reconcile.WireMac, AllMacs, Reconcile.HostsIn, ReplayOk,
      Reconcile.DistinctAssets, Reconcile.AssetOk, Reconcile.NoRepeats, Reconcile.Arranged, IsSubnetGroup;
    ghost var before, frames := session.Value(), FramesOf(cap.packets);
    var groups := CaptureGroups(cap.packets, q.hints, q.classify);
    var ctx := CtxOf(session.Value(), q.affinity, q.capAssets);
    CtxReady(prefix, before, q.affinity, q.capAssets, q.derive);
    CtxFacts(before, q.affinity, q.capAssets);
    var count, subnets, assets;
    ghost var hosts, resolved, homes;
    count, subnets, assets, hosts, resolved, homes :=
      Reconcile.ReconcileCaptureIntoZones(cap, groups, ctx, q.derive, q.tiebreak, q.remapMac);
    ReportFacts(ctx, q.derive, groups, hosts, assets, resolved);
    RegisterAll(session, assets, q.capAssets, prefix, ctx);
    e := Replayed(before, RecordsOf(assets), frames, FramesOf(cap.packets), hosts,
                  ip => Reconcile.WireMac(ctx, q.derive, resolved, ip),
                  IntoZones(groups, assets, resolved, homes, subnets));
    ZonesMean(prefix, e, q);
  }

  lemma EveryHostMapped(ctx: Reconcile.Ctx, derive: Derivation, groups: seq<Reconcile.CaptureGroup>,
                        hosts: map<u32, u32>, assets: seq<Reconcile.Asset>, resolved: map<u32, Mac>)
    requires Reconcile.Reconciled(ctx, derive, groups, hosts, assets, resolved) && Reconcile.Reserved(ctx.zones) != {}
    ensures hosts.Keys == Reconcile.HostsIn(groups)
  {
  }

  /** With no zone yet, the random remap stands in; either way the replay is accounted for. */
  method RemapIntoSession(session: Session, cap: Capture, q: Policy, rng: Rng, ghost prefix: Prefix)
    returns (ghost e: Replayed)
    requires Inv(prefix, session.Value()) && Distinct(cap.packets)
    requires q.capAssets <= MAX_DEVICES && Spreads(q.derive, MAX_DEVICES + |session.captureHosts|)
    modifies session`captureHosts, session`registryGeneration, cap, cap.packets, rng
    ensures Inv(prefix, session.Value())
    ensures Explained(e, q) && ReplayOk(e, q)
    ensures e.plan == old(session.Value()) && session.captureHosts == old(session.captureHosts) + e.added
    ensures e.before == old(FramesOf(cap.packets)) && e.after == FramesOf(cap.packets)
    ensures session.registryGeneration == old(session.registryGeneration) + |e.added|
    ensures e.added != [] ==> session.TotalWireAssets() <= q.capAssets
  {
    hide Inv, Distinct, Survivors, Spreads, PlanFrame, Remap.HostsOf, FramesOf, ReplayOk, ZonesExplain, Remap.IsHostMap,
      Remap.Injective, Remap.Prefixes, Placed, AllApart, TotalRoom, Blocks, Remap.GroupOf, Remap.Before, ChecksumsHold;
    if session.subnets == [] {
      ghost var before, frames := session.Value(), FramesOf(cap.packets);
      var natural := (ip: u32) => q.derive(ip, 0);
      var count, blocks, nets;
      ghost var hosts;
      count, blocks, nets, hosts := Remap.RemapCapture(cap, q.hints, rng, natural, q.remapMac);
      e := Replayed(before, [], frames, FramesOf(cap.packets), hosts, natural, AtRandom(blocks, nets));
      DrawsMean(prefix, e, q);
    } else {
      e := ReplayIntoZones(session, cap, q, prefix);
    }
  }

  lemma DeviceHasZone(prefix: Prefix, p: Plan, i: nat)
    requires Inv(prefix, p) && i < |p.devices|
    ensures |p.subnets| > 0
  {
    assert DeviceOk(p.subnets, p.devices[i]);
  }

  lemma HostHasZone(prefix: Prefix, p: Plan, i: nat)
    requires Inv(prefix, p) && i < |p.hosts|
    ensures |p.subnets| > 0
  {
    assert HostOk(p.subnets, p.hosts[i]);
  }

  lemma NoZonesNothing(prefix: Prefix, p: Plan)
    requires Inv(prefix, p) && p.subnets == []
    ensures p.devices == [] && p.hosts == []
  {
    if p.devices != [] {
      DeviceHasZone(prefix, p, 0);
    }
    if p.hosts != [] {
      HostHasZone(prefix, p, 0);
    }
  }

  lemma DevicesReserve(prefix: Prefix, p: Plan, ctx: Reconcile.Ctx)
    requires Inv(prefix, p) && p.devices != [] && ctx.zones == ZoneTargets(p)
    ensures Reconcile.Reserved(ctx.zones) != {}
  {
    ReservedIsDevices(prefix, p);
    assert p.devices[0].ip in DeviceIps(p.devices);
  }

  lemma ReportFacts(ctx: Reconcile.Ctx, derive: Derivation, groups: seq<Reconcile.CaptureGroup>, hosts: map<u32, u32>,
                    assets: seq<Reconcile.Asset>, resolved: map<u32, Mac>)
    requires Reconcile.Reconciled(ctx, derive, groups, hosts, assets, resolved)
    ensures |assets| <= ctx.budget && Reconcile.DistinctAssets(assets)
    ensures forall a :: a in assets ==> Reconcile.AssetOk(ctx, a)
  {
  }

  /** An origin registered before maps to the same address again. */
  lemma OriginsKept(prefix: Prefix, p: Plan, ctx: Reconcile.Ctx, derive: Derivation,
                    groups: seq<Reconcile.CaptureGroup>,
                    hosts: map<u32, u32>, assets: seq<Reconcile.Asset>, resolved: map<u32, Mac>, frames: seq<seq<byte>>)
    requires Inv(prefix, p) && ctx.registered == RegisteredOrigins(p.hosts)
    requires Reconcile.Reconciled(ctx, derive, groups, hosts, assets, resolved)
    requires Reconcile.HostsIn(groups) == Remap.HostsOf(frames)
    ensures OriginsMapped(p.hosts, frames, hosts)
  {
    RegisteredFacts(p.hosts);
  }
}
