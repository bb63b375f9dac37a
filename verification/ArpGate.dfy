/** The continuous gate: a ledger's graph, rendered to bytes, measured and checked by the oracle. */
module ArpGate {
  import opened Wire
  import opened Net
  import opened Allocator
  import opened Ledger
  import opened ArpGraph
  import opened ArpWire
  import opened ArpProfile

  /** The addresses synthetic nodes of a plan may have. */
  ghost predicate Synthetic(p: Plan, ip: u32) {
    exists z :: z in ZoneKeys(p) && StandInSlot(z, ip)
  }

  /** Station hardware of a plan: globally administered, one per address, none of it an asset's. */
  ghost predicate StationsOk(p: Plan, stationMac: u32 -> Mac) {
    && (forall ip: u32 :: Synthetic(p, ip) ==> stationMac(ip)[0] / 2 % 2 == 0 && stationMac(ip) !in AllMacs(p))
    && (forall a: u32, b: u32 :: Synthetic(p, a) && Synthetic(p, b) && stationMac(a) == stationMac(b) ==> a == b)
  }

  /** Assets of a ledger, whose hardware addresses a sensor accepts. */
  ghost predicate GloballyAdministered(p: Plan) {
    forall m :: m in AllMacs(p) ==> m[0] / 2 % 2 == 0
  }

  lemma AssetNode(p: Plan, net: Block, n: Node)
    requires n in AssetNodes(p, net)
    ensures (exists d :: d in p.devices && n == Node(d.ip, d.mac)) || exists h :: h in p.hosts && n == Node(h.ip, h.mac)
  {
    DeviceNodeFacts(p.devices, net, n);
    HostNodeFacts(p.hosts, net, n);
  }

  ghost predicate IsAsset(p: Plan, n: Node) {
    (exists d :: d in p.devices && n == Node(d.ip, d.mac)) || exists h :: h in p.hosts && n == Node(h.ip, h.mac)
  }

  lemma AssetsDiffer(prefix: Prefix, p: Plan, a: Node, b: Node)
    requires Inv(prefix, p) && IsAsset(p, a) && IsAsset(p, b) && a.ip != b.ip
    ensures a.mac != b.mac && a.mac in AllMacs(p) && b.mac in AllMacs(p)
  {
    hide ZonesOk, DeviceOk, HostOk;
    assert forall d, e :: d in p.devices && e in p.devices && d.ip != e.ip ==> d.mac != e.mac;
    assert forall h, k :: h in p.hosts && k in p.hosts && h.ip != k.ip ==> h.mac != k.mac;
  }

  lemma AssetMacKnown(p: Plan, n: Node)
    requires IsAsset(p, n)
    ensures n.mac in AllMacs(p)
  {
  }

  /** Every cast member is an asset, or a synthetic node under its own station address. */
  lemma CastKinds(p: Plan, done: set<Block>, stationMac: u32 -> Mac, nodes: seq<Node>, n: Node)
    requires done <= ZoneKeys(p) && Casts(p, done, stationMac, nodes) && n in nodes
    ensures IsAsset(p, n) || (Synthetic(p, n.ip) && n.mac == stationMac(n.ip))
  {
    hide AssetNodes, InBlock, StandInSlot;
    var z :| z in done && InBlock(z, n.ip) && (n in AssetNodes(p, z) || IsStandIn(z, n, stationMac));
    if n in AssetNodes(p, z) {
      AssetNode(p, z, n);
    }
  }

  lemma CastDistinct(prefix: Prefix, p: Plan, done: set<Block>, stationMac: u32 -> Mac, nodes: seq<Node>)
    requires Inv(prefix, p) && StationsOk(p, stationMac) && GloballyAdministered(p)
    requires done <= ZoneKeys(p) && Casts(p, done, stationMac, nodes)
    ensures DistinctNodes(nodes) && forall n :: n in nodes ==> n.mac[0] / 2 % 2 == 0
  {
    hide Inv, IsAsset, AssetNodes, InBlock, AllMacs, Synthetic;
    forall i, j | 0 <= i < j < |nodes| ensures nodes[i].mac != nodes[j].mac {
      var a, b := nodes[i], nodes[j];
      CastKinds(p, done, stationMac, nodes, a);
      CastKinds(p, done, stationMac, nodes, b);
      if IsAsset(p, a) && IsAsset(p, b) {
        AssetsDiffer(prefix, p, a, b);
      } else if IsAsset(p, a) {
        AssetMacKnown(p, a);
      } else if IsAsset(p, b) {
        AssetMacKnown(p, b);
      }
    }
    forall n | n in nodes ensures n.mac[0] / 2 % 2 == 0 {
      CastKinds(p, done, stationMac, nodes, n);
      if IsAsset(p, n) {
        AssetMacKnown(p, n);
      }
    }
  }

  /**
   From ledger to verdict: build the graph, render it, measure the bytes, check the bands. The
   profile is that of the bytes of the ledger's own graph; every ledger that keeps its invariant
   passes, and every planned asset is seen to reply.
   */
  method GateLedger(p: Plan, rank: Block -> nat, stationMac: u32 -> Mac, ghost prefix: Prefix)
    returns (profile: Profile, violations: seq<Violation>, ghost order: seq<Block>, ghost casts: seq<seq<Node>>)
    requires Inv(prefix, p) && StationsOk(p, stationMac) && GloballyAdministered(p)
    ensures ZonesInOrder(p, rank, stationMac, order, casts, {})
    ensures Measures(Render(AllEdges(AllCells(casts))), profile)
    ensures violations == []
    ensures Ips(p) <= profile.repliers
    ensures profile.requests == profile.replies >= |p.devices| + |p.hosts|
  {
    hide Inv, Casts, WellCelled, AllEdges, AllNodes, AllCells, ZonesInOrder, Render, Measures, StationsOk,
      GloballyAdministered,
      DistinctNodes;
    ghost var cells;
    var edges;
    edges, order, casts, cells := ArpEdges(p, rank, stationMac, prefix);
    CastDistinct(prefix, p, ZoneKeys(p), stationMac, AllNodes(cells));
    profile := Analyze(Render(edges));
    var owners := Owners(edges);
    var expected := IpsOf(owners);
    CountOwners(cells);
    GeneratorSatisfiesOracle(cells, profile, expected);
    violations := Check(profile, expected, CELL_SIZE - 1);
    AssetsCast(prefix, p, stationMac, AllNodes(cells));
  }

  lemma AssetsCast(prefix: Prefix, p: Plan, stationMac: u32 -> Mac, nodes: seq<Node>)
    requires Inv(prefix, p) && Casts(p, ZoneKeys(p), stationMac, nodes)
    ensures Ips(p) <= IpsOf(nodes) && |p.devices| + |p.hosts| <= |nodes|
  {
    hide ZonesOk, DeviceOk, HostOk, AssetNodes, InBlock;
    forall ip | ip in Ips(p) ensures ip in IpsOf(nodes) {
      if ip in DeviceIps(p.devices) {
        var d :| d in p.devices && d.ip == ip;
        assert d.zone in ZoneKeys(p) && Node(d.ip, d.mac) in nodes;
      } else {
        var h :| h in p.hosts && h.ip == ip;
        assert h.zone in ZoneKeys(p) && Node(h.ip, h.mac) in nodes;
      }
    }
    IpsAreMany(p);
    IpCount(nodes);
    SubsetSize(Ips(p), IpsOf(nodes));
  }

  /** Distinct addresses: as many of them as assets. */
  lemma IpsAreMany(p: Plan)
    requires DistinctDevices(p.devices) && DistinctHosts(p.hosts) && Separate(p.devices, p.hosts)
    ensures |Ips(p)| == |p.devices| + |p.hosts|
  {
    DeviceIpSize(p.devices);
    HostIpSize(p.hosts);
    assert DeviceIps(p.devices) !! HostIps(p.hosts);
  }

  lemma {:induction false} DeviceIpSize(ds: seq<DeviceRecord>)
    requires DistinctDevices(ds)
    ensures |DeviceIps(ds)| == |ds|
  {
    if ds != [] {
      var k := |ds| - 1;
      DeviceIpSize(ds[..k]);
      assert forall d :: d in ds <==> d in ds[..k] || d == ds[k];
      assert DeviceIps(ds) == DeviceIps(ds[..k]) + {ds[k].ip};
    }
  }

  lemma {:induction false} HostIpSize(hs: seq<CaptureHost>)
    requires DistinctHosts(hs)
    ensures |HostIps(hs)| == |hs|
  {
    if hs != [] {
      var k := |hs| - 1;
      HostIpSize(hs[..k]);
      assert forall h :: h in hs <==> h in hs[..k] || h == hs[k];
      assert HostIps(hs) == HostIps(hs[..k]) + {hs[k].ip};
    }
  }
}
