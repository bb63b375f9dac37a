/** Each zone's bill of materials: a zone-edge firewall on the gateway slot, the rest on free hosts. */
module Enrich {
  import opened Wire
  import opened Net
  import opened Allocator
  import opened Macs
  import opened Placement
  import opened Ledger
  import opened Devices

  datatype BomLine = BomLine(kind: AssetType, count: nat)

  /** The supporting cast of a zone, by Purdue level. */
  function BomFor(level: nat): seq<BomLine> {
    match level
    case 1 => [BomLine(Firewall, 1), BomLine(Switch, 1), BomLine(Hmi, 1), BomLine(EngWorkstation, 1)]
    case 2 => [BomLine(Firewall, 1), BomLine(Switch, 1), BomLine(Hmi, 1), BomLine(EngWorkstation, 1),
               BomLine(Historian, 1)]
    case 3 => [BomLine(Firewall, 1), BomLine(Router, 1), BomLine(Switch, 1), BomLine(Historian, 1), BomLine(Server, 4),
               BomLine(EngWorkstation, 2)]
    case _ => [BomLine(Firewall, 1)]
  }

  lemma BomShape(level: nat)
    ensures forall i, j :: 0 <= i < j < |BomFor(level)| ==> BomFor(level)[i].kind != BomFor(level)[j].kind
    ensures forall i :: 0 <= i < |BomFor(level)| && BomFor(level)[i].kind == Firewall ==> BomFor(level)[i].count == 1
  {
  }

  /** What a zone of some level is to have of each kind. */
  function Supplied(kind: AssetType, level: nat): nat {
    match kind
    case Controller => 0
    case Firewall => 1
    case Switch => if 1 <= level <= 3 then 1 else 0
    case Router => if level == 3 then 1 else 0
    case Hmi => if 1 <= level <= 2 then 1 else 0
    case EngWorkstation => if level == 3 then 2 else if 1 <= level <= 2 then 1 else 0
    case Historian => if 2 <= level <= 3 then 1 else 0
    case Server => if level == 3 then 4 else 0
  }

  /** The lines of a bill of materials are those counts, and every kind it leaves out has none. */
  lemma BomSupplies(level: nat, kind: AssetType)
    ensures forall i :: 0 <= i < |BomFor(level)| && BomFor(level)[i].kind == kind ==>
              BomFor(level)[i].count == Supplied(kind, level)
    ensures Supplied(kind, level) == 0 <==> forall i :: 0 <= i < |BomFor(level)| ==> BomFor(level)[i].kind != kind
  {
    var bom := BomFor(level);
    assert bom[0].kind == Firewall;
    if 1 <= level <= 2 {
      assert bom[1].kind == Switch && bom[2].kind == Hmi && bom[3].kind == EngWorkstation;
      assert level == 2 ==> bom[4].kind == Historian;
    } else if level == 3 {
      assert bom[1].kind == Router && bom[2].kind == Switch && bom[3].kind == Historian;
      assert bom[4].kind == Server && bom[5].kind == EngWorkstation;
    }
  }

  /** How many devices of a kind a zone holds. */
  ghost function KindCount(ds: seq<DeviceRecord>, net: Block, kind: AssetType): nat {
    if ds == [] then 0
    else
      var d := ds[|ds| - 1];
      KindCount(ds[..|ds| - 1], net, kind) + (if d.zone == net && d.kind == kind then 1 else 0)
  }

  lemma KindCountAppend(ds: seq<DeviceRecord>, d: DeviceRecord, net: Block, kind: AssetType)
    ensures KindCount(ds + [d], net, kind) ==
              KindCount(ds, net, kind) + if d.zone == net && d.kind == kind then 1 else 0
  {
    assert (ds + [d])[..|ds|] == ds;
  }

  /** Nothing more fits a zone: it has no assignable host, or the device cap is reached. */
  ghost predicate Blocked(p: Plan, net: Block) {
    |p.devices| >= MAX_DEVICES || !HasRoom(net, Ips(p))
  }

  /**
   A zone's supply of one kind: no more than `count` are added, and all of them unless nothing more fits.
   The firewall goes on the gateway slot, if that is free, and nowhere else.
   */
  ghost predicate KindDone(start: Plan, p: Plan, net: Block, kind: AssetType, count: nat) {
    var had, has := KindCount(start.devices, net, kind), KindCount(p.devices, net, kind);
    && had <= has <= had + count
    && if kind == Firewall then
         && (Gateway(net) in Ips(start) ==> has == had)
         && (count > 0 ==> |p.devices| >= MAX_DEVICES || Gateway(net) in Ips(p))
       else Blocked(p, net) || has == had + count
  }

  /** What one bill-of-materials line leaves in its zone. */
  ghost predicate LineDone(start: Plan, p: Plan, net: Block, line: BomLine) {
    KindDone(start, p, net, line.kind, line.count)
  }

  /** `q` is `p` with more devices, all of one kind in one zone. */
  ghost predicate Grown(p: Plan, q: Plan, net: Block, kind: AssetType) {
    && q.subnets == p.subnets && q.hosts == p.hosts && p.devices <= q.devices
    && forall n, k :: (n != net || k != kind) ==> KindCount(q.devices, n, k) == KindCount(p.devices, n, k)
  }

  lemma GrownOnce(p: Plan, d: DeviceRecord)
    ensures Grown(p, p.(devices := p.devices + [d]), d.zone, d.kind)
  {
    forall n, k | n != d.zone || k != d.kind
      ensures KindCount(p.devices + [d], n, k) == KindCount(p.devices, n, k)
    {
      KindCountAppend(p.devices, d, n, k);
    }
  }

  lemma GrownChain(p: Plan, q: Plan, r: Plan, net: Block, kind: AssetType)
    requires Grown(p, q, net, kind) && Grown(q, r, net, kind)
    ensures Grown(p, r, net, kind)
  {
    hide KindCount;
    assert p.devices <= r.devices;
  }

  lemma PrefixIps(p: Plan, q: Plan)
    requires p.devices <= q.devices && p.hosts == q.hosts
    ensures Ips(p) <= Ips(q)
  {
    assert forall d :: d in p.devices ==> d in q.devices;
  }

  /** A finished line stays finished while other lines, zones and kinds grow. */
  lemma DoneStays(start: Plan, p: Plan, q: Plan, net: Block, kind: AssetType, count: nat)
    requires KindDone(start, p, net, kind, count) && p.devices <= q.devices && q.hosts == p.hosts
    requires KindCount(q.devices, net, kind) == KindCount(p.devices, net, kind)
    ensures KindDone(start, q, net, kind, count)
  {
    hide KindCount, Ips, HasRoom, Gateway;
    PrefixIps(p, q);
    if kind != Firewall && !HasRoom(net, Ips(p)) {
      RoomShrinks(net, Ips(p), Ips(q));
    }
  }

  lemma RoomShrinks(net: Block, used: set<u32>, more: set<u32>)
    requires used <= more && !HasRoom(net, used)
    ensures !HasRoom(net, more)
  {
    assert forall ip: u32 :: Assignable(net, more, ip) ==> Assignable(net, used, ip);
  }

  /** Named for what it is and where it sits, under a MAC derived from that vendor. */
  ghost predicate FromBom(w: World, macs: set<Mac>, d: DeviceRecord) {
    (d.vendor, d.protocol) == w.identify(d.kind, d.ip) && FirstSalt(w.bomMac(d.vendor), macs, d.ip, d.mac)
  }

  /** Every device from `from` on came with a bill of materials. */
  ghost predicate AllFromBom(w: World, p: Plan, from: nat) {
    forall i :: from <= i < |p.devices| ==> FromBom(w, AllMacs(p), p.devices[i])
  }

  lemma BomChain(w: World, start: Plan, mid: Plan, end: Plan)
    requires AllFromBom(w, mid, |start.devices|) && AllFromBom(w, end, |mid.devices|)
    requires mid.devices <= end.devices && mid.hosts == end.hosts
    ensures AllFromBom(w, end, |start.devices|)
  {
    hide FirstSalt;
    assert AllMacs(mid) <= AllMacs(end) by {
      assert forall d :: d in mid.devices ==> d in end.devices;
    }
    forall i | |start.devices| <= i < |mid.devices| ensures FromBom(w, AllMacs(end), end.devices[i]) {
      var d := mid.devices[i];
      FirstSaltMore(w.bomMac(d.vendor), AllMacs(mid), AllMacs(end), d.ip, d.mac);
    }
  }

  lemma BomNone(w: World, p: Plan)
    ensures AllFromBom(w, p, |p.devices|)
  {
  }

  lemma BomOne(w: World, p: Plan, d: DeviceRecord)
    requires (d.vendor, d.protocol) == w.identify(d.kind, d.ip)
    requires FirstSalt(w.bomMac(d.vendor), AllMacs(p), d.ip, d.mac)
    ensures AllFromBom(w, p.(devices := p.devices + [d]), |p.devices|)
  {
    hide FirstSalt, AllMacs;
    var q := p.(devices := p.devices + [d]);
    SetsGrow(p, d);
    FirstSaltMore(w.bomMac(d.vendor), AllMacs(p), AllMacs(q), d.ip, d.mac);
  }

  // ----- One device, one line, one zone -------------------------------------------------------

  method PlaceBom(session: Session, w: World, net: Block, kind: AssetType, ip: u32, used: set<u32>, usedMacs: set<Mac>,
                  ghost prefix: Prefix)
    returns (used': set<u32>, usedMacs': set<Mac>)
    requires Inv(prefix, session.Value())
    requires used == Ips(session.Value()) && usedMacs == AllMacs(session.Value())
    requires forall v :: Spreads(w.bomMac(v), MAX_DEVICES + |session.captureHosts|)
    requires HasNet(session.subnets, net) && IsHost(net, ip) && ip !in used
    requires ip != Station(net) && (ip == Gateway(net) ==> kind == Firewall)
    modifies session`devices
    ensures Inv(prefix, session.Value())
    ensures used' == Ips(session.Value()) && usedMacs' == AllMacs(session.Value())
    ensures Grown(old(session.Value()), session.Value(), net, kind)
    ensures AllFromBom(w, session.Value(), |old(session.devices)|)
    ensures if |old(session.devices)| < MAX_DEVICES
            then ip in used' && KindCount(session.devices, net, kind) == KindCount(old(session.devices), net, kind) + 1
            else session.devices == old(session.devices)
  {
    hide Inv, Ips, AllMacs, Spreads, HasNet, IsHost, Station, Gateway, KindCount, Grown, AllFromBom, FirstSalt;
    ghost var before := session.Value();
    BomNone(w, before);
    var (vendor, protocol) := w.identify(kind, ip);
    var ok, mac := PlaceDevice(session, w.bomMac(vendor), vendor, protocol, kind, net, ip, used, usedMacs, prefix);
    if ok {
      BomOne(w, before, session.devices[|before.devices|]);
      GrownOnce(before, session.devices[|before.devices|]);
      KindCountAppend(before.devices, session.devices[|before.devices|], net, kind);
      return used + {ip}, usedMacs + {mac};
    }
    GrownNot(before, net, kind);
    used', usedMacs' := used, usedMacs;
  }

  lemma GrownNot(p: Plan, net: Block, kind: AssetType)
    ensures Grown(p, p, net, kind)
  {
  }

  method FillLine(session: Session, w: World, net: Block, line: BomLine, used0: set<u32>, usedMacs0: set<Mac>,
                  ghost prefix: Prefix)
    returns (used: set<u32>, usedMacs: set<Mac>)
    requires Inv(prefix, session.Value())
    requires used0 == Ips(session.Value()) && usedMacs0 == AllMacs(session.Value())
    requires forall v :: Spreads(w.bomMac(v), MAX_DEVICES + |session.captureHosts|)
    requires HasNet(session.subnets, net) && net.prefix == prefix
    requires line.kind == Firewall ==> line.count == 1
    modifies session`devices
    ensures Inv(prefix, session.Value())
    ensures AllFromBom(w, session.Value(), |old(session.devices)|)
    ensures used == Ips(session.Value()) && usedMacs == AllMacs(session.Value())
    ensures Grown(old(session.Value()), session.Value(), net, line.kind)
    ensures LineDone(old(session.Value()), session.Value(), net, line)
  {
    hide Inv, Ips, AllMacs, Spreads, HasNet, IsHost, Station, Gateway, KindCount, Grown, HasRoom, Assignable;
    hide AllFromBom;
    ghost var start := session.Value();
    BomNone(w, start);
    used, usedMacs := used0, usedMacs0;
    GrownNot(start, net, line.kind);
    PrefixInRange(prefix, start);
    if line.kind == Firewall {
      GatewayIsHost(net);
      var ip: u32 := Gateway(net);
      if ip !in used {
        used, usedMacs := PlaceBom(session, w, net, Firewall, ip, used, usedMacs, prefix);
      }
      return;
    }
    for n := 0 to line.count
      invariant Inv(prefix, session.Value()) && session.subnets == start.subnets && session.captureHosts == start.hosts
      invariant used == Ips(session.Value()) && usedMacs == AllMacs(session.Value())
      invariant Grown(start, session.Value(), net, line.kind) && AllFromBom(w, session.Value(), |start.devices|)
      invariant |session.devices| >= MAX_DEVICES
             || KindCount(session.devices, net, line.kind) == KindCount(start.devices, net, line.kind) + n
      invariant 0 <= KindCount(session.devices, net, line.kind) - KindCount(start.devices, net, line.kind) <= n
    {
      ghost var before := session.Value();
      var ip := NextFreeIn(net, used);
      if ip == None {
        break;
      }
      AssignableFacts(net, used, ip.value);
      used, usedMacs := PlaceBom(session, w, net, line.kind, ip.value, used, usedMacs, prefix);
      GrownChain(start, before, session.Value(), net, line.kind);
      GrownLength(before, session.Value(), net, line.kind);
      BomChain(w, start, before, session.Value());
    }
  }

  lemma GrownLength(p: Plan, q: Plan, net: Block, kind: AssetType)
    requires Grown(p, q, net, kind)
    ensures p.devices <= q.devices && q.subnets == p.subnets && q.hosts == p.hosts
  {
  }

  lemma PrefixInRange(prefix: Prefix, p: Plan)
    requires Inv(prefix, p)
    ensures 8 <= prefix <= 30
  {
  }

  /** The gateway is a host of its zone and never the station slot, from /8 down to /30. */
  lemma GatewayIsHost(net: Block)
    requires 8 <= net.prefix <= 30
    ensures 0 <= Gateway(net) < 0x1_0000_0000
    ensures IsHost(net, Gateway(net)) && Gateway(net) != Station(net)
  {
    NetworkFits(net.net, net.prefix);
  }

  // ----- The whole plant ----------------------------------------------------------------------

  /** A zone has its supply of every kind, up to room and the device cap, and nothing else was added. */
  ghost predicate ZoneDone(start: Plan, p: Plan, s: SubnetRecord) {
    forall kind :: KindDone(start, p, s.net, kind, Supplied(kind, s.level))
  }

  lemma LinesSupply(start: Plan, p: Plan, s: SubnetRecord)
    requires forall i :: 0 <= i < |BomFor(s.level)| ==> LineDone(start, p, s.net, BomFor(s.level)[i])
    requires forall kind :: (forall i :: 0 <= i < |BomFor(s.level)| ==> BomFor(s.level)[i].kind != kind) ==>
               KindCount(p.devices, s.net, kind) == KindCount(start.devices, s.net, kind)
    ensures ZoneDone(start, p, s)
  {
    hide BomFor, KindCount, Ips, HasRoom, Gateway, Supplied;
    forall kind ensures KindDone(start, p, s.net, kind, Supplied(kind, s.level)) {
      BomSupplies(s.level, kind);
      if Supplied(kind, s.level) > 0 {
        var i :| 0 <= i < |BomFor(s.level)| && BomFor(s.level)[i].kind == kind;
        assert LineDone(start, p, s.net, BomFor(s.level)[i]);
      } else {
        NoFirewallLeftOut(s.level);
      }
    }
  }

  lemma NoFirewallLeftOut(level: nat)
    ensures Supplied(Firewall, level) == 1
  {
  }

  method FillZone(session: Session, w: World, s: SubnetRecord, used0: set<u32>, usedMacs0: set<Mac>,
                  ghost prefix: Prefix)
    returns (used: set<u32>, usedMacs: set<Mac>)
    requires Inv(prefix, session.Value())
    requires used0 == Ips(session.Value()) && usedMacs0 == AllMacs(session.Value())
    requires forall v :: Spreads(w.bomMac(v), MAX_DEVICES + |session.captureHosts|)
    requires HasNet(session.subnets, s.net) && s.net.prefix == prefix
    modifies session`devices
    ensures Inv(prefix, session.Value())
    ensures AllFromBom(w, session.Value(), |old(session.devices)|)
    ensures used == Ips(session.Value()) && usedMacs == AllMacs(session.Value())
    ensures GrownIn(old(session.Value()), session.Value(), s.net)
    ensures ZoneDone(old(session.Value()), session.Value(), s)
  {
    hide Inv, Ips, AllMacs, Spreads, HasNet, LineDone, Grown, BomFor, KindCount, AllFromBom, Supplied;
    ghost var start := session.Value();
    BomNone(w, start);
    used, usedMacs := used0, usedMacs0;
    var bom := BomFor(s.level);
    BomShape(s.level);
    for i := 0 to |bom|
      invariant Inv(prefix, session.Value())
      invariant used == Ips(session.Value()) && usedMacs == AllMacs(session.Value())
      invariant GrownIn(start, session.Value(), s.net) && AllFromBom(w, session.Value(), |start.devices|)
      invariant forall j :: 0 <= j < i ==> LineDone(start, session.Value(), s.net, bom[j])
      invariant forall kind :: (forall j :: 0 <= j < i ==> bom[j].kind != kind) ==>
                  KindCount(session.devices, s.net, kind) == KindCount(start.devices, s.net, kind)
    {
      ghost var before := session.Value();
      used, usedMacs := FillLine(session, w, s.net, bom[i], used, usedMacs, prefix);
      ghost var after := session.Value();
      GrowsOn(start, before, after, s.net, bom[i].kind);
      LineFromStart(start, before, after, s.net, bom[i]);
      OtherKindsKept(before, after, s.net, bom[i].kind);
      BomChain(w, start, before, after);
      forall j | 0 <= j < i ensures LineDone(start, after, s.net, bom[j]) {
        LineStays(start, before, after, s.net, bom[j]);
      }
    }
    LinesSupply(start, session.Value(), s);
  }

  lemma LineStays(start: Plan, p: Plan, q: Plan, net: Block, line: BomLine)
    requires LineDone(start, p, net, line) && p.devices <= q.devices && q.hosts == p.hosts
    requires KindCount(q.devices, net, line.kind) == KindCount(p.devices, net, line.kind)
    ensures LineDone(start, q, net, line)
  {
    DoneStays(start, p, q, net, line.kind, line.count);
  }

  /** `q` is `p` with more devices in one zone. */
  ghost predicate GrownIn(p: Plan, q: Plan, net: Block) {
    && q.subnets == p.subnets && q.hosts == p.hosts && p.devices <= q.devices
    && forall n, k :: n != net ==> KindCount(q.devices, n, k) == KindCount(p.devices, n, k)
  }

  lemma GrowsOn(p: Plan, q: Plan, r: Plan, net: Block, kind: AssetType)
    requires GrownIn(p, q, net) && Grown(q, r, net, kind)
    ensures GrownIn(p, r, net)
  {
    hide KindCount;
  }

  lemma OtherKindsKept(p: Plan, q: Plan, net: Block, kind: AssetType)
    requires Grown(p, q, net, kind)
    ensures forall k :: k != kind ==> KindCount(q.devices, net, k) == KindCount(p.devices, net, k)
    ensures p.devices <= q.devices && q.hosts == p.hosts
  {
  }

  lemma LineFromStart(start: Plan, before: Plan, after: Plan, net: Block, line: BomLine)
    requires LineDone(before, after, net, line)
    requires KindCount(before.devices, net, line.kind) == KindCount(start.devices, net, line.kind)
    requires start.devices <= before.devices && before.hosts == start.hosts
    ensures LineDone(start, after, net, line)
  {
    hide KindCount, Ips, HasRoom, Gateway;
    PrefixIps(start, before);
  }

  lemma ZoneDoneStays(start: Plan, p: Plan, q: Plan, s: SubnetRecord, net: Block)
    requires ZoneDone(start, p, s) && GrownIn(p, q, net) && s.net != net
    ensures ZoneDone(start, q, s)
  {
    hide KindCount, KindDone, Supplied;
    forall kind ensures KindDone(start, q, s.net, kind, Supplied(kind, s.level)) {
      DoneStays(start, p, q, s.net, kind, Supplied(kind, s.level));
    }
  }

  /** Adds every zone's bill of materials; runs that stop short stop for want of room or at the cap. */
  method EnrichPlant(session: Session, w: World, ghost prefix: Prefix)
    requires Inv(prefix, session.Value())
    requires WorldSpreads(w, |session.captureHosts|)
    modifies session`devices
    ensures Inv(prefix, session.Value())
    ensures old(session.devices) <= session.devices
    ensures forall s :: s in session.subnets ==> ZoneDone(old(session.Value()), session.Value(), s)
    ensures AllFromBom(w, session.Value(), |old(session.devices)|)
  {
    hide Inv, Ips, AllMacs, Spreads, HasNet, ZoneDone, GrownIn, KindCount, AllFromBom;
    ghost var start := session.Value();
    BomNone(w, start);
    var usedMacs := AllMacs(session.Value());
    var used := Ips(session.Value());
    var zones := session.subnets;
    for i := 0 to |zones|
      invariant Inv(prefix, session.Value()) && session.subnets == zones && session.captureHosts == start.hosts
      invariant used == Ips(session.Value()) && usedMacs == AllMacs(session.Value())
      invariant start.devices <= session.devices && AllFromBom(w, session.Value(), |start.devices|)
      invariant forall j :: 0 <= j < i ==> ZoneDone(start, session.Value(), zones[j])
      invariant forall j, k :: i <= j < |zones| ==>
                  KindCount(session.devices, zones[j].net, k) == KindCount(start.devices, zones[j].net, k)
    {
      ghost var before := session.Value();
      ZoneFacts(prefix, before, i);
      used, usedMacs := FillZone(session, w, zones[i], used, usedMacs, prefix);
      ghost var after := session.Value();
      GrownInFacts(before, after, zones[i].net);
      BomChain(w, start, before, after);
      ZoneFromStart(start, before, after, zones[i]);
      forall j | 0 <= j < i ensures ZoneDone(start, after, zones[j]) {
        ZoneDoneStays(start, before, after, zones[j], zones[i].net);
      }
    }
  }

  lemma GrownInFacts(p: Plan, q: Plan, net: Block)
    requires GrownIn(p, q, net)
    ensures q.subnets == p.subnets && q.hosts == p.hosts && p.devices <= q.devices
    ensures forall n, k :: n != net ==> KindCount(q.devices, n, k) == KindCount(p.devices, n, k)
  {
  }

  lemma ZoneFromStart(start: Plan, before: Plan, after: Plan, s: SubnetRecord)
    requires ZoneDone(before, after, s)
    requires forall k :: KindCount(before.devices, s.net, k) == KindCount(start.devices, s.net, k)
    requires start.devices <= before.devices && before.hosts == start.hosts
    ensures ZoneDone(start, after, s)
  {
    hide KindCount, Ips, HasRoom, Gateway, Supplied;
    PrefixIps(start, before);
    forall kind ensures KindDone(start, after, s.net, kind, Supplied(kind, s.level)) {
      assert KindDone(before, after, s.net, kind, Supplied(kind, s.level));
    }
  }

  /** Disjoint zones have different blocks. */
  lemma ZoneFacts(prefix: Prefix, p: Plan, i: nat)
    requires Inv(prefix, p) && i < |p.subnets|
    ensures HasNet(p.subnets, p.subnets[i].net) && p.subnets[i].net.prefix == prefix
    ensures forall j :: 0 <= j < |p.subnets| && j != i ==> p.subnets[j].net != p.subnets[i].net
  {
    hide DeviceOk, HostOk, Placed;
    var nets := ZoneNets(p.subnets);
    assert p.subnets[i] in p.subnets;
    forall j | 0 <= j < |p.subnets| && j != i ensures p.subnets[j].net != p.subnets[i].net {
      assert j < i ==> Apart(nets[j], nets[i]);
      assert i < j ==> Apart(nets[i], nets[j]);
    }
  }
}
