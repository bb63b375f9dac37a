/**
 Reconciling a capture's hosts into the fabricated zones under a total asset budget: a known host
 keeps its asset, a new one fills spare room, and once the budget is spent it rides a device.
 */
module Reconcile {
  import opened Wire
  import opened Net
  import opened Allocator
  import opened Macs
  import opened Placement
  import opened HostMap
  import opened Captures

  datatype ZoneTarget = ZoneTarget(net: Block, vendor: Option<string>, level: nat, protocol: Option<string>,
                                   reserved: set<u32>)

  datatype CaptureGroup = CaptureGroup(net: Block, level: nat, vendor: Option<string>, protocol: Option<string>,
                                       hosts: seq<u32>)

  datatype Asset = Asset(origin: u32, ip: u32, mac: Mac, vendor: Option<string>, protocol: Option<string>,
                         level: nat, zone: Block)

  datatype Affinity = Off | ByVendor | ByProtocol | Both

  datatype Ctx = Ctx(zones: seq<ZoneTarget>, affinity: Affinity, registered: map<u32, u32>,
                     deviceMacs: map<u32, Mac>, reservedMacs: set<Mac>, budget: nat)

  // ----- Choosing a zone ----------------------------------------------------------------------

  function Flag(b: bool): nat { if b then 1 else 0 }

  function AffinityScore(g: CaptureGroup, z: ZoneTarget, affinity: Affinity): nat {
    var vendorMatch := g.vendor.Some? && g.vendor == z.vendor;
    var protoMatch := g.protocol.Some? && g.protocol == z.protocol;
    match affinity
    case Off => 0
    case ByVendor => Flag(vendorMatch) * 3
    case ByProtocol => Flag(protoMatch) * 2
    case Both => Flag(vendorMatch) * 4 + Flag(protoMatch) * 2 + Flag(g.level == z.level)
  }

  function ZoneRoom(z: ZoneTarget): nat {
    var cap: nat := if z.net.prefix >= 31 then 0 else (SmallestBlock(z.net.prefix); Size(z.net.prefix) - 2);
    if |z.reserved| <= cap then cap - |z.reserved| else 0
  }

  /** Zone `a` ranks strictly ahead of zone `b`: affinity, then room, then the tie-break hash. */
  predicate Outranks(g: CaptureGroup, a: ZoneTarget, b: ZoneTarget, affinity: Affinity,
                     tiebreak: (Block, Block) -> nat) {
    var sa, sb := AffinityScore(g, a, affinity), AffinityScore(g, b, affinity);
    var ra, rb := ZoneRoom(a), ZoneRoom(b);
    sa > sb || (sa == sb && (ra > rb || (ra == rb && tiebreak(g.net, a.net) < tiebreak(g.net, b.net))))
  }

  predicate SameVendor(g: CaptureGroup, z: ZoneTarget) {
    g.vendor.Some? && z.vendor.Some? && g.vendor.value == z.vendor.value
  }

  predicate SameProtocol(g: CaptureGroup, z: ZoneTarget) {
    g.protocol.Some? && z.protocol.Some? && g.protocol.value == z.protocol.value
  }

  /**
   The order of preference, criterion by criterion: same vendor, then same protocol, then same level,
   each where the affinity looks at it; then more room, then the lower hash.
   */
  lemma RankingIs(g: CaptureGroup, a: ZoneTarget, b: ZoneTarget, affinity: Affinity, tiebreak: (Block, Block) -> nat)
    ensures var va, vb := SameVendor(g, a), SameVendor(g, b);
            var pa, pb := SameProtocol(g, a), SameProtocol(g, b);
            var la, lb := g.level == a.level, g.level == b.level;
            var byVendor, byProtocol := affinity in {ByVendor, Both}, affinity in {ByProtocol, Both};
            Outranks(g, a, b, affinity, tiebreak) <==>
              if byVendor && va != vb then va
              else if byProtocol && pa != pb then pa
              else if affinity == Both && la != lb then la
              else if ZoneRoom(a) != ZoneRoom(b) then ZoneRoom(a) > ZoneRoom(b)
              else tiebreak(g.net, a.net) < tiebreak(g.net, b.net)
  {
    hide ZoneRoom;
  }

  ghost function HostsOfZone(net: Block): set<u32> {
    set ip: u32 | IsHost(net, ip)
  }

  /** Room is the number of host addresses no device has; a /31 or /32 is taken to have none. */
  lemma RoomCountsFree(z: ZoneTarget)
    requires forall ip :: ip in z.reserved ==> IsHost(z.net, ip)
    ensures ZoneRoom(z) == if z.net.prefix >= 31 then 0 else |HostsOfZone(z.net) - z.reserved|
  {
    if z.net.prefix < 31 {
      var n := Size(z.net.prefix) - 2;
      HostsAreRange(z.net, n);
      RangeSize(FirstHost(z.net), n);
      hide Size, FirstHost, IsHost;
      SubsetSize(z.reserved, HostsOfZone(z.net));
      assert HostsOfZone(z.net) == (HostsOfZone(z.net) - z.reserved) + z.reserved;
    }
  }

  lemma HostsAreRange(net: Block, n: nat)
    requires net.prefix < 31 && n == Size(net.prefix) - 2
    ensures HostsOfZone(net) == Range(FirstHost(net), n)
  {
    NetworkFits(net.net, net.prefix);
    hide Size, NetworkOf;
    forall ip: u32 ensures IsHost(net, ip) <==> ip in Range(FirstHost(net), n) {
    }
    forall x | x in Range(FirstHost(net), n) ensures x in HostsOfZone(net) {
      var ip: u32 := x;
      assert IsHost(net, ip);
    }
  }

  /** `zi` is the first of the zones nothing outranks. */
  ghost predicate IsBest(g: CaptureGroup, zones: seq<ZoneTarget>, affinity: Affinity, tiebreak: (Block, Block) -> nat,
                         zi: nat) {
    && zi < |zones|
    && (forall j :: 0 <= j < |zones| ==> !Outranks(g, zones[j], zones[zi], affinity, tiebreak))
    && (forall j :: 0 <= j < zi ==> Outranks(g, zones[zi], zones[j], affinity, tiebreak))
  }

  /** The zone a stable best-first ranking puts first. */
  method BestZone(g: CaptureGroup, zones: seq<ZoneTarget>, affinity: Affinity, tiebreak: (Block, Block) -> nat)
    returns (zi: nat)
    requires zones != []
    ensures IsBest(g, zones, affinity, tiebreak, zi)
  {
    hide AffinityScore, ZoneRoom;
    zi := 0;
    for i := 1 to |zones|
      invariant zi < i
      invariant forall j :: 0 <= j < i ==> !Outranks(g, zones[j], zones[zi], affinity, tiebreak)
      invariant forall j :: 0 <= j < zi ==> Outranks(g, zones[zi], zones[j], affinity, tiebreak)
    {
      if Outranks(g, zones[i], zones[zi], affinity, tiebreak) {
        zi := i;
      }
    }
  }

  // ----- Riding a device ----------------------------------------------------------------------

  function Reserved(zones: seq<ZoneTarget>): set<u32> {
    set z, ip | z in zones && ip in z.reserved :: ip
  }

  lemma {:induction false} LeastMember(s: set<u32>) returns (least: u32)
    requires s != {}
    ensures least in s && forall x :: x in s ==> least <= x
  {
    var any :| any in s;
    least := any;
    if s != {any} {
      var rest := LeastMember(s - {any});
      least := if any <= rest then any else rest;
      assert forall x :: x in s ==> x == any || x in s - {any};
    }
  }

  method MinOf(s: set<u32>) returns (r: Option<u32>)
    ensures r == None <==> s == {}
    ensures r.Some? ==> r.value in s && forall x :: x in s ==> r.value <= x
  {
    if s == {} {
      return None;
    }
    ghost var least := LeastMember(s);
    var x :| x in s && forall y :: y in s ==> x <= y;
    r := Some(x);
  }

  /** The lowest device address of the preferred zone, or of any zone when that one has none. */
  ghost predicate IsForced(zones: seq<ZoneTarget>, prefer: nat, ip: u32)
    requires prefer < |zones|
  {
    var pool := if zones[prefer].reserved != {} then zones[prefer].reserved else Reserved(zones);
    ip in Reserved(zones) && ip in pool && forall x :: x in pool ==> ip <= x
  }

  /** The lowest device address of the preferred zone, else the lowest of any zone. */
  method ForceMapTarget(zones: seq<ZoneTarget>, prefer: nat) returns (r: Option<u32>)
    requires prefer < |zones|
    ensures r == None <==> Reserved(zones) == {}
    ensures r.Some? ==> IsForced(zones, prefer, r.value)
  {
    assert zones[prefer] in zones;
    r := MinOf(zones[prefer].reserved);
    if r == None {
      r := MinOf(Reserved(zones));
    } else {
      assert r.value in Reserved(zones);
    }
  }

  // ----- The state of a reconciliation --------------------------------------------------------

  datatype Progress = Progress(hosts: map<u32, u32>, assets: seq<Asset>, taken: set<u32>, usedMacs: set<Mac>,
                               resolved: map<u32, Mac>, budget: nat)

  function AssetIps(assets: seq<Asset>): set<u32> {
    set a | a in assets :: a.ip
  }

  function AssetMacs(assets: seq<Asset>): set<Mac> {
    set a | a in assets :: a.mac
  }

  /** A new asset sits in a zone, off everything reserved or registered, under an unused address. */
  ghost predicate AssetOk(ctx: Ctx, a: Asset) {
    && (exists z :: z in ctx.zones && z.net == a.zone && IsHost(z.net, a.ip))
    && a.ip !in Reserved(ctx.zones) && a.ip !in ctx.registered.Values
    && a.mac !in ctx.reservedMacs
    && a.origin !in ctx.registered
  }

  ghost predicate DistinctAssets(assets: seq<Asset>) {
    forall i, j :: 0 <= i < j < |assets| ==>
      assets[i].ip != assets[j].ip && assets[i].mac != assets[j].mac && assets[i].origin != assets[j].origin
  }

  /** The address a frame from `ip` carries on the wire after the rewrite. */
  function WireMac(ctx: Ctx, derive: Derivation, resolved: map<u32, Mac>, ip: u32): Mac {
    MacFor(ctx.deviceMacs + resolved, i => derive(i, 0), ip)
  }

  ghost predicate BookKept(ctx: Ctx, derive: Derivation, p: Progress) {
    && p.budget + |p.assets| == ctx.budget
    && p.taken == Reserved(ctx.zones) + ctx.registered.Values + AssetIps(p.assets)
    && p.usedMacs == ctx.reservedMacs + AssetMacs(p.assets)
    && |p.usedMacs| + p.budget <= |ctx.reservedMacs| + ctx.budget
    && p.resolved.Keys <= AssetIps(p.assets)
    && (forall a :: a in p.assets ==> AssetOk(ctx, a))
    && DistinctAssets(p.assets)
    && (forall a :: a in p.assets ==> WireMac(ctx, derive, p.resolved, a.ip) == a.mac)
    && (forall a :: a in p.assets ==> FirstSalt(derive, p.usedMacs, a.ip, a.mac))
  }

  /** Some zone has no host address left. */
  ghost predicate ZoneFull(zones: seq<ZoneTarget>, taken: set<u32>) {
    exists z :: z in zones && FullZone(z, taken)
  }

  ghost predicate FullZone(z: ZoneTarget, taken: set<u32>) {
    forall ip :: IsHost(z.net, ip) ==> ip in taken
  }

  ghost predicate IsOrigin(assets: seq<Asset>, h: u32) {
    exists a :: a in assets && a.origin == h
  }

  /** How the hosts served so far are mapped; a host misses an asset only for want of budget or room. */
  ghost predicate HostsServed(ctx: Ctx, p: Progress, done: set<u32>) {
    && (forall h :: h in done && h !in ctx.registered && !IsOrigin(p.assets, h) ==>
          p.budget == 0 || ZoneFull(ctx.zones, p.taken))
    && p.hosts.Keys <= done
    && (forall h :: h in done && h in ctx.registered ==> h in p.hosts && p.hosts[h] == ctx.registered[h])
    && (forall a :: a in p.assets ==> a.origin in p.hosts && p.hosts[a.origin] == a.ip)
    && (forall h :: h in p.hosts && h !in ctx.registered ==>
          p.hosts[h] in Reserved(ctx.zones) || IsOrigin(p.assets, h))
    && (Reserved(ctx.zones) != {} ==> p.hosts.Keys == done)
  }

  // ----- Where each host ends up --------------------------------------------------------------

  /** Every address in use beside `assets`. */
  function TakenWith(ctx: Ctx, assets: seq<Asset>): set<u32> {
    Reserved(ctx.zones) + ctx.registered.Values + AssetIps(assets)
  }

  /**
   The asset keeps its host's offset in the zone unless that slot is unfit or taken; then it has the lowest
   free one.
   */
  ghost predicate KeepsSlot(net: Block, a: Asset, taken: set<u32>) {
    var want := NetworkOf(net.net, net.prefix) + HostPart(a.origin, net.prefix);
    a.ip == want ||
    (&& (0 <= want < 0x1_0000_0000 && IsUsableHost(net, want) ==> want in taken)
     && NoneFreeBelow(net, taken, a.ip))
  }

  ghost predicate PlacedIn(ctx: Ctx, assets: seq<Asset>, a: Asset, z: ZoneTarget) {
    && a.zone == z.net && a.vendor == z.vendor && a.protocol == z.protocol && a.level == z.level
    && KeepsSlot(z.net, a, TakenWith(ctx, assets))
  }

  /** Refused an asset for want of budget or of room in its own zone, and riding that zone's device instead. */
  ghost predicate Denied(ctx: Ctx, hosts: map<u32, u32>, assets: seq<Asset>, h: u32, zi: nat)
    requires zi < |ctx.zones|
  {
    && (|assets| == ctx.budget || FullZone(ctx.zones[zi], TakenWith(ctx, assets)))
    && if Reserved(ctx.zones) == {} then h !in hosts else h in hosts && IsForced(ctx.zones, zi, hosts[h])
  }

  /** What became of a host whose group prefers zone `zi`. */
  ghost predicate Settled(ctx: Ctx, hosts: map<u32, u32>, assets: seq<Asset>, h: u32, zi: nat)
    requires zi < |ctx.zones|
  {
    if h in ctx.registered then true
    else if IsOrigin(assets, h) then
      forall a :: a in assets && a.origin == h ==> PlacedIn(ctx, assets, a, ctx.zones[zi])
    else Denied(ctx, hosts, assets, h, zi)
  }

  /** From `p` to `q` only hosts in `some` were served. */
  ghost predicate Onward(p: Progress, q: Progress, some: set<u32>) {
    && p.assets <= q.assets
    && (forall k :: |p.assets| <= k < |q.assets| ==> q.assets[k].origin in some)
    && (forall h :: h !in some ==> (h in p.hosts <==> h in q.hosts) && (h in p.hosts ==> p.hosts[h] == q.hosts[h]))
  }

  lemma OnwardTwice(a: Progress, b: Progress, c: Progress, some: set<u32>, more: set<u32>)
    requires Onward(a, b, some) && Onward(b, c, more)
    ensures Onward(a, c, some + more)
  {
    forall k | |a.assets| <= k < |c.assets| ensures c.assets[k].origin in some + more {
      if k < |b.assets| {
        assert b.assets[k].origin in some;
      }
    }
  }

  /** A settled host stays settled while others are served. */
  lemma SettledStays(ctx: Ctx, p: Progress, q: Progress, some: set<u32>, h: u32, zi: nat)
    requires zi < |ctx.zones| && h !in some
    requires Settled(ctx, p.hosts, p.assets, h, zi) && Onward(p, q, some) && |q.assets| <= ctx.budget
    ensures Settled(ctx, q.hosts, q.assets, h, zi)
  {
    hide IsForced, KeepsSlot, FullZone, Reserved;
    TakenGrows(ctx, p, q, some);
    OriginsGrow(p, q, some, h);
    if h !in ctx.registered {
      if IsOrigin(p.assets, h) {
        forall a | a in q.assets && a.origin == h ensures PlacedIn(ctx, q.assets, a, ctx.zones[zi]) {
          SlotStays(ctx.zones[zi].net, a, TakenWith(ctx, p.assets), TakenWith(ctx, q.assets));
        }
      } else {
        ZoneStaysFull(ctx.zones[zi], TakenWith(ctx, p.assets), TakenWith(ctx, q.assets));
      }
    }
  }

  lemma TakenGrows(ctx: Ctx, p: Progress, q: Progress, some: set<u32>)
    requires Onward(p, q, some)
    ensures TakenWith(ctx, p.assets) <= TakenWith(ctx, q.assets)
  {
    forall a | a in p.assets ensures a in q.assets {
      var i :| 0 <= i < |p.assets| && p.assets[i] == a;
      assert q.assets[i] == a;
    }
  }

  lemma OriginsGrow(p: Progress, q: Progress, some: set<u32>, h: u32)
    requires Onward(p, q, some) && h !in some
    ensures IsOrigin(q.assets, h) <==> IsOrigin(p.assets, h)
    ensures forall a :: a in q.assets && a.origin == h ==> a in p.assets
  {
    forall a | a in q.assets && a.origin == h ensures a in p.assets {
      var i :| 0 <= i < |q.assets| && q.assets[i] == a;
      assert i < |p.assets|;
      assert p.assets[i] == a;
    }
    if IsOrigin(p.assets, h) {
      var i :| 0 <= i < |p.assets| && p.assets[i].origin == h;
      assert q.assets[i] in q.assets;
    }
  }

  lemma SlotStays(net: Block, a: Asset, taken: set<u32>, more: set<u32>)
    requires KeepsSlot(net, a, taken) && taken <= more
    ensures KeepsSlot(net, a, more)
  {
    hide IsHost, IsUsableHost, NetworkOf, HostPart;
  }

  lemma ZoneStaysFull(z: ZoneTarget, taken: set<u32>, more: set<u32>)
    requires taken <= more
    ensures FullZone(z, taken) ==> FullZone(z, more)
  {
    hide IsHost;
  }

  // ----- Serving one host ---------------------------------------------------------------------

  method Start(ctx: Ctx, ghost derive: Derivation) returns (p: Progress)
    ensures BookKept(ctx, derive, p) && HostsServed(ctx, p, {})
    ensures p.assets == []
  {
    p := Progress(map[], [], Reserved(ctx.zones) + ctx.registered.Values, ctx.reservedMacs, map[], ctx.budget);
  }

  /** A host becomes a new asset at a free address, under the first unused derived MAC. */
  method AddAsset(ctx: Ctx, derive: Derivation, p: Progress, host: u32, z: ZoneTarget, ip: u32, ghost done: set<u32>)
    returns (q: Progress)
    requires BookKept(ctx, derive, p) && HostsServed(ctx, p, done)
    requires Spreads(derive, |ctx.reservedMacs| + ctx.budget)
    requires ctx.deviceMacs.Keys <= Reserved(ctx.zones)
    requires p.budget > 0 && host !in done && host !in ctx.registered
    requires z in ctx.zones && IsHost(z.net, ip) && ip !in p.taken
    ensures BookKept(ctx, derive, q) && HostsServed(ctx, q, done + {host})
    ensures q.hosts == p.hosts[host := ip]
    ensures exists mac :: q.assets == p.assets + [Asset(host, ip, mac, z.vendor, z.protocol, z.level, z.net)]
  {
    hide BookKept, HostsServed, AssetOk, Spreads, FirstSalt;
    SpotIsNew(ctx, derive, p, host, z, ip, done);
    var mac, salt := FreshMac(derive, ip, p.usedMacs);
    MacIsNew(ctx, derive, p, mac);
    var a := Asset(host, ip, mac, z.vendor, z.protocol, z.level, z.net);
    assert AssetOk(ctx, a) by { AssetIsOk(ctx, a, z); }
    var resolved := if salt != 0 then p.resolved[ip := mac] else p.resolved;
    q := Progress(p.hosts[host := ip], p.assets + [a], p.taken + {ip}, p.usedMacs + {mac}, resolved, p.budget - 1);
    AssetAdded(ctx, derive, p, a, resolved);
    BookIgnoresHosts(ctx, derive, q.(hosts := p.hosts), q.hosts);
    AssetServed(ctx, p, q, a, done);
  }

  lemma SpotIsNew(ctx: Ctx, derive: Derivation, p: Progress, host: u32, z: ZoneTarget, ip: u32, done: set<u32>)
    requires BookKept(ctx, derive, p) && HostsServed(ctx, p, done)
    requires Spreads(derive, |ctx.reservedMacs| + ctx.budget)
    requires host !in done && ip !in p.taken
    ensures HasFresh(derive, ip, p.usedMacs)
    ensures ip !in Reserved(ctx.zones) && ip !in ctx.registered.Values
    ensures forall b :: b in p.assets ==> b.origin != host
  {
    hide Reserved, AssetOk, WireMac;
  }

  lemma MacIsNew(ctx: Ctx, derive: Derivation, p: Progress, mac: Mac)
    requires BookKept(ctx, derive, p) && mac !in p.usedMacs
    ensures mac !in ctx.reservedMacs
  {
  }

  lemma AssetIsOk(ctx: Ctx, a: Asset, z: ZoneTarget)
    requires z in ctx.zones && z.net == a.zone && IsHost(z.net, a.ip)
    requires a.ip !in Reserved(ctx.zones) && a.ip !in ctx.registered.Values
    requires a.mac !in ctx.reservedMacs && a.origin !in ctx.registered
    ensures AssetOk(ctx, a)
  {
  }

  lemma AssetAdded(ctx: Ctx, derive: Derivation, p: Progress, a: Asset, resolved: map<u32, Mac>)
    requires BookKept(ctx, derive, p) && p.budget > 0
    requires ctx.deviceMacs.Keys <= Reserved(ctx.zones)
    requires AssetOk(ctx, a) && a.ip !in p.taken && a.mac !in p.usedMacs && a.ip !in Reserved(ctx.zones)
    requires forall b :: b in p.assets ==> b.origin != a.origin
    requires resolved == p.resolved[a.ip := a.mac] || (resolved == p.resolved && a.mac == derive(a.ip, 0))
    requires FirstSalt(derive, p.usedMacs, a.ip, a.mac)
    ensures BookKept(ctx, derive, p.(assets := p.assets + [a], taken := p.taken + {a.ip},
                                     usedMacs := p.usedMacs + {a.mac}, resolved := resolved, budget := p.budget - 1))
  {
    hide AssetOk, Reserved, WireMac, DistinctAssets, AssetIps, AssetMacs, FirstSalt;
    var q := p.assets + [a];
    forall b | b in p.assets ensures FirstSalt(derive, p.usedMacs + {a.mac}, b.ip, b.mac) {
      FirstSaltMore(derive, p.usedMacs, p.usedMacs + {a.mac}, b.ip, b.mac);
    }
    FirstSaltMore(derive, p.usedMacs, p.usedMacs + {a.mac}, a.ip, a.mac);
    AssetSets(p.assets, a);
    WiresKept(ctx, derive, p, a, resolved);
    StillDistinct(p.assets, a);
    assert forall b :: b in q <==> b in p.assets || b == a;
  }

  lemma AssetSets(assets: seq<Asset>, a: Asset)
    ensures AssetIps(assets + [a]) == AssetIps(assets) + {a.ip}
    ensures AssetMacs(assets + [a]) == AssetMacs(assets) + {a.mac}
  {
    assert forall b :: b in assets + [a] <==> b in assets || b == a;
  }

  lemma WiresKept(ctx: Ctx, derive: Derivation, p: Progress, a: Asset, resolved: map<u32, Mac>)
    requires forall b :: b in p.assets ==> WireMac(ctx, derive, p.resolved, b.ip) == b.mac
    requires p.resolved.Keys <= AssetIps(p.assets) && a.ip !in AssetIps(p.assets) && a.ip !in ctx.deviceMacs
    requires resolved == p.resolved[a.ip := a.mac] || (resolved == p.resolved && a.mac == derive(a.ip, 0))
    ensures forall b :: b in p.assets + [a] ==> WireMac(ctx, derive, resolved, b.ip) == b.mac
  {
    forall b | b in p.assets + [a] ensures WireMac(ctx, derive, resolved, b.ip) == b.mac {
      if b in p.assets {
        assert b.ip in AssetIps(p.assets);
      }
    }
  }

  lemma StillDistinct(assets: seq<Asset>, a: Asset)
    requires DistinctAssets(assets)
    requires a.ip !in AssetIps(assets) && a.mac !in AssetMacs(assets)
    requires forall b :: b in assets ==> b.origin != a.origin
    ensures DistinctAssets(assets + [a])
  {
    forall i | 0 <= i < |assets|
      ensures assets[i].ip != a.ip && assets[i].mac != a.mac && assets[i].origin != a.origin
    {
      assert assets[i] in assets && assets[i].ip in AssetIps(assets) && assets[i].mac in AssetMacs(assets);
    }
  }

  lemma AssetServed(ctx: Ctx, p: Progress, q: Progress, a: Asset, done: set<u32>)
    requires HostsServed(ctx, p, done) && a.origin !in done && a.origin !in ctx.registered
    requires q.hosts == p.hosts[a.origin := a.ip] && q.assets == p.assets + [a]
    requires p.budget > 0 && p.taken <= q.taken
    ensures HostsServed(ctx, q, done + {a.origin})
  {
    hide Reserved;
    assert forall b :: b in q.assets <==> b in p.assets || b == a;
    assert IsOrigin(q.assets, a.origin);
    assert forall h :: IsOrigin(p.assets, h) ==> IsOrigin(q.assets, h);
    FullStaysFull(ctx.zones, p.taken, q.taken);
  }

  lemma FullStaysFull(zones: seq<ZoneTarget>, taken: set<u32>, more: set<u32>)
    requires taken <= more
    ensures ZoneFull(zones, taken) ==> ZoneFull(zones, more)
  {
    hide IsHost;
    if ZoneFull(zones, taken) {
      var z :| z in zones && FullZone(z, taken);
      assert FullZone(z, more);
    }
  }

  lemma HostReused(ctx: Ctx, p: Progress, host: u32, target: u32, done: set<u32>)
    requires HostsServed(ctx, p, done) && host !in done
    requires if host in ctx.registered then target == ctx.registered[host]
             else target in Reserved(ctx.zones) && (p.budget == 0 || ZoneFull(ctx.zones, p.taken))
    ensures HostsServed(ctx, p.(hosts := p.hosts[host := target]), done + {host})
  {
    hide Reserved;
  }

  lemma ServedFacts(ctx: Ctx, p: Progress, host: u32, done: set<u32>)
    requires HostsServed(ctx, p, done) && host !in done
    ensures host !in p.hosts
    ensures Reserved(ctx.zones) == {} && host !in ctx.registered && (p.budget == 0 || ZoneFull(ctx.zones, p.taken)) ==>
              HostsServed(ctx, p, done + {host})
  {
  }

  lemma BookIgnoresHosts(ctx: Ctx, derive: Derivation, p: Progress, hosts: map<u32, u32>)
    requires BookKept(ctx, derive, p)
    ensures BookKept(ctx, derive, p.(hosts := hosts))
  {
  }

  method PlaceHost(ctx: Ctx, derive: Derivation, p: Progress, host: u32, zi: nat, ghost done: set<u32>)
    returns (q: Progress, placed: bool)
    requires BookKept(ctx, derive, p) && HostsServed(ctx, p, done)
    requires Spreads(derive, |ctx.reservedMacs| + ctx.budget)
    requires ctx.deviceMacs.Keys <= Reserved(ctx.zones)
    requires host !in done && zi < |ctx.zones|
    ensures BookKept(ctx, derive, q) && HostsServed(ctx, q, done + {host})
    ensures placed <==> host in q.hosts
    ensures Onward(p, q, {host}) && Settled(ctx, q.hosts, q.assets, host, zi)
    ensures q.assets != p.assets ==> p.budget > 0 && !FullZone(ctx.zones[zi], p.taken)
  {
    hide BookKept, HostsServed, Reserved, Spreads, Settled, Onward, IsForced, FullZone, NoneFreeBelow;
    ServedFacts(ctx, p, host, done);
    if host in ctx.registered {
      HostReused(ctx, p, host, ctx.registered[host], done);
      q := p.(hosts := p.hosts[host := ctx.registered[host]]);
      BookIgnoresHosts(ctx, derive, p, q.hosts);
      OnlyMapped(p, q, host);
      RegisteredSettled(ctx, q, host, zi);
      return q, true;
    }
    var z := ctx.zones[zi];
    if p.budget > 0 {
      var spot := PlaceInZone(z.net, p.taken, host);
      FullIffNoSpot(z, p.taken);
      if spot.Some? {
        q := AddAsset(ctx, derive, p, host, z, spot.value, done);
        AssetSettled(ctx, derive, p, q, host, zi, spot.value, done);
        return q, true;
      }
      SomeZoneFull(ctx, zi, p.taken);
    }
    var device := ForceMapTarget(ctx.zones, zi);
    if device.Some? {
      ForcedIsReserved(ctx.zones, zi, device.value);
      HostReused(ctx, p, host, device.value, done);
      q := p.(hosts := p.hosts[host := device.value]);
      BookIgnoresHosts(ctx, derive, p, q.hosts);
      OnlyMapped(p, q, host);
      DeniedSettled(ctx, derive, p, q, host, zi, done);
      return q, true;
    }
    q := p;
    OnlyMapped(p, q, host);
    DeniedSettled(ctx, derive, p, q, host, zi, done);
    placed := false;
  }

  lemma FullIffNoSpot(z: ZoneTarget, taken: set<u32>)
    ensures FullZone(z, taken) <==> forall ip :: IsHost(z.net, ip) ==> ip in taken
  {
  }

  lemma SomeZoneFull(ctx: Ctx, zi: nat, taken: set<u32>)
    requires zi < |ctx.zones| && FullZone(ctx.zones[zi], taken)
    ensures ZoneFull(ctx.zones, taken)
  {
    hide FullZone;
  }

  lemma ForcedIsReserved(zones: seq<ZoneTarget>, zi: nat, ip: u32)
    requires zi < |zones| && IsForced(zones, zi, ip)
    ensures ip in Reserved(zones)
  {
  }

  lemma OnlyMapped(p: Progress, q: Progress, host: u32)
    requires q.assets == p.assets
    requires q.hosts == p.hosts || (host in q.hosts && q.hosts == p.hosts[host := q.hosts[host]])
    ensures Onward(p, q, {host})
  {
  }

  lemma RegisteredSettled(ctx: Ctx, q: Progress, host: u32, zi: nat)
    requires zi < |ctx.zones| && host in ctx.registered
    ensures Settled(ctx, q.hosts, q.assets, host, zi)
  {
  }

  lemma AssetSettled(ctx: Ctx, derive: Derivation, p: Progress, q: Progress, host: u32, zi: nat, ip: u32,
                     done: set<u32>)
    requires zi < |ctx.zones| && BookKept(ctx, derive, p) && HostsServed(ctx, p, done) && host !in done
    requires var z := ctx.zones[zi];
             && q.hosts == p.hosts[host := ip]
             && exists mac :: q.assets == p.assets + [Asset(host, ip, mac, z.vendor, z.protocol, z.level, z.net)]
    requires var net := ctx.zones[zi].net;
             var want := NetworkOf(net.net, net.prefix) + HostPart(host, net.prefix);
             && (0 <= want < 0x1_0000_0000 && IsUsableHost(net, want) && want !in p.taken ==> ip == want)
             && (ip != want ==> NoneFreeBelow(net, p.taken, ip))
    ensures Onward(p, q, {host}) && Settled(ctx, q.hosts, q.assets, host, zi)
  {
    hide Reserved, BookKept, Denied, IsUsableHost, NetworkOf, HostPart, NoneFreeBelow, HostsServed;
    WithinBudget(ctx, derive, p);
    var z := ctx.zones[zi];
    var mac :| q.assets == p.assets + [Asset(host, ip, mac, z.vendor, z.protocol, z.level, z.net)];
    var a := Asset(host, ip, mac, z.vendor, z.protocol, z.level, z.net);
    assert forall b :: b in q.assets <==> b in p.assets || b == a;
    OriginsServed(ctx, p, done);
    NoneBelowMore(z.net, p.taken, TakenWith(ctx, q.assets), ip);
  }

  lemma OriginsServed(ctx: Ctx, p: Progress, done: set<u32>)
    requires HostsServed(ctx, p, done)
    ensures forall a :: a in p.assets ==> a.origin in done
  {
  }

  lemma NoneBelowMore(net: Block, taken: set<u32>, more: set<u32>, bound: u32)
    requires taken <= more
    ensures NoneFreeBelow(net, taken, bound) ==> NoneFreeBelow(net, more, bound)
  {
    hide IsHost;
  }

  lemma DeniedSettled(ctx: Ctx, derive: Derivation, p: Progress, q: Progress, host: u32, zi: nat, done: set<u32>)
    requires zi < |ctx.zones| && BookKept(ctx, derive, p) && HostsServed(ctx, p, done) && host !in done
    requires p.budget == 0 || FullZone(ctx.zones[zi], p.taken)
    requires q.assets == p.assets
    requires if Reserved(ctx.zones) == {} then host !in q.hosts
             else host in q.hosts && IsForced(ctx.zones, zi, q.hosts[host])
    ensures Settled(ctx, q.hosts, q.assets, host, zi)
  {
    hide Reserved, AssetOk, WireMac, IsForced, FullZone, HostsServed, ZoneFull;
    OriginsServed(ctx, p, done);
  }

  // ----- Serving whole groups -----------------------------------------------------------------

  /** The hosts of every group, each named once: what grouping a capture by subnet yields. */
  ghost predicate NoRepeats(groups: seq<CaptureGroup>) {
    && (forall g :: g in groups ==> forall i, j :: 0 <= i < j < |g.hosts| ==> g.hosts[i] != g.hosts[j])
    && (forall i, j, h :: 0 <= i < j < |groups| && h in groups[i].hosts ==> h !in groups[j].hosts)
  }

  function HostsIn(groups: seq<CaptureGroup>): set<u32> {
    set g, h | g in groups && h in g.hosts :: h
  }

  /** The hosts of one group, as a set. */
  function HostSet(g: CaptureGroup): set<u32> {
    set h | h in g.hosts
  }

  ghost predicate AllSettled(ctx: Ctx, hosts: map<u32, u32>, assets: seq<Asset>, some: set<u32>, zi: nat)
    requires zi < |ctx.zones|
  {
    forall h :: h in some ==> Settled(ctx, hosts, assets, h, zi)
  }

  /** Within a group assets go to the lowest addresses: none is passed over for a higher one. */
  ghost predicate InAddressOrder(ctx: Ctx, assets: seq<Asset>, some: set<u32>) {
    forall h, k :: h in some && k in some && h < k && h !in ctx.registered && IsOrigin(assets, k) ==>
        IsOrigin(assets, h)
  }

  lemma ServedNext(ctx: Ctx, derive: Derivation, p: Progress, q: Progress, served: set<u32>, host: u32, zi: nat,
                   done: set<u32>)
    requires zi < |ctx.zones| && BookKept(ctx, derive, p) && HostsServed(ctx, p, done) && host !in done
    requires AllSettled(ctx, p.hosts, p.assets, served, zi) && InAddressOrder(ctx, p.assets, served)
    requires host !in served && forall h :: h in served ==> h < host
    requires Onward(p, q, {host}) && Settled(ctx, q.hosts, q.assets, host, zi) && |q.assets| <= ctx.budget
    requires q.assets != p.assets ==> p.budget > 0 && !FullZone(ctx.zones[zi], p.taken)
    ensures AllSettled(ctx, q.hosts, q.assets, served + {host}, zi) && InAddressOrder(ctx, q.assets, served + {host})
  {
    hide FullZone, Reserved, AssetOk, WireMac, IsForced, KeepsSlot, Onward, HostsServed, ZoneFull, IsOrigin;
    OriginsServed(ctx, p, done);
    NotYetOrigin(p.assets, host, done);
    forall h | h in served
      ensures Settled(ctx, q.hosts, q.assets, h, zi) && (IsOrigin(q.assets, h) <==> IsOrigin(p.assets, h))
    {
      SettledStays(ctx, p, q, {host}, h, zi);
      OriginsGrow(p, q, {host}, h);
    }
  }

  lemma NotYetOrigin(assets: seq<Asset>, host: u32, done: set<u32>)
    requires host !in done && forall a :: a in assets ==> a.origin in done
    ensures !IsOrigin(assets, host)
  {
  }

  method PlaceGroup(ctx: Ctx, derive: Derivation, start: Progress, g: CaptureGroup, zi: nat, ghost done: set<u32>)
    returns (p: Progress, placed: bool)
    requires BookKept(ctx, derive, start) && HostsServed(ctx, start, done)
    requires Spreads(derive, |ctx.reservedMacs| + ctx.budget)
    requires ctx.deviceMacs.Keys <= Reserved(ctx.zones)
    requires zi < |ctx.zones|
    requires forall i, j :: 0 <= i < j < |g.hosts| ==> g.hosts[i] != g.hosts[j]
    requires forall h :: h in g.hosts ==> h !in done
    ensures BookKept(ctx, derive, p) && HostsServed(ctx, p, done + HostSet(g))
    ensures Onward(start, p, HostSet(g)) && (p.assets != start.assets ==> start.budget > 0)
    ensures AllSettled(ctx, p.hosts, p.assets, HostSet(g), zi) && InAddressOrder(ctx, p.assets, HostSet(g))
    ensures placed <==> exists h :: h in g.hosts && h in p.hosts
  {
    hide BookKept, HostsServed, Reserved, Spreads, Settled, Onward, FullZone;
    p, placed := start, false;
    var rest := HostSet(g);
    ghost var mine, served := rest, {};
    assert done + {} == done;
    OnlyMappedNothing(start);
    WithinBudget(ctx, derive, start);
    while rest != {}
      invariant served + rest == mine && served !! rest
      invariant BookKept(ctx, derive, p) && HostsServed(ctx, p, done + served)
      invariant Onward(start, p, served) && (p.assets != start.assets ==> start.budget > 0)
      invariant forall h, k :: h in served && k in rest ==> h < k
      invariant AllSettled(ctx, p.hosts, p.assets, served, zi) && InAddressOrder(ctx, p.assets, served)
      invariant placed <==> exists h :: h in served && h in p.hosts
      decreases rest
    {
      ghost var least := LeastMember(rest);
      var host :| host in rest && forall h :: h in rest ==> host <= h;
      var mapped;
      ghost var before := p;
      p, mapped := PlaceHost(ctx, derive, p, host, zi, done + served);
      WithinBudget(ctx, derive, before);
      WithinBudget(ctx, derive, p);
      ServedNext(ctx, derive, before, p, served, host, zi, done + served);
      OnwardTwice(start, before, p, served, {host});
      HostsKept(before, p, host);
      placed := placed || mapped;
      assert done + served + {host} == done + (served + {host});
      served := served + {host};
      rest := rest - {host};
    }
    assert served == mine;
  }

  lemma OnlyMappedNothing(p: Progress)
    ensures Onward(p, p, {})
  {
  }

  lemma HostsKept(p: Progress, q: Progress, host: u32)
    requires Onward(p, q, {host})
    ensures forall h :: h != host ==> (h in p.hosts <==> h in q.hosts)
  {
  }

  lemma WithinBudget(ctx: Ctx, derive: Derivation, p: Progress)
    requires BookKept(ctx, derive, p)
    ensures |p.assets| + p.budget == ctx.budget && p.taken == TakenWith(ctx, p.assets)
  {
    hide AssetOk, WireMac;
  }

  function NetOf(g: CaptureGroup): u32 {
    NetworkOf(g.net.net, g.net.prefix)
  }

  /** One group, served: every host settled in the group's best zone, lower addresses first. */
  ghost predicate GroupServed(ctx: Ctx, hosts: map<u32, u32>, assets: seq<Asset>, g: CaptureGroup,
                              tiebreak: (Block, Block) -> nat, zi: nat) {
    && IsBest(g, ctx.zones, ctx.affinity, tiebreak, zi)
    && AllSettled(ctx, hosts, assets, HostSet(g), zi)
    && InAddressOrder(ctx, assets, HostSet(g))
  }

  /** If a host of `later` got an asset, a host of `earlier` went without only because its zone is full. */
  ghost predicate Yields(ctx: Ctx, assets: seq<Asset>, earlier: CaptureGroup, zi: nat, later: CaptureGroup)
    requires zi < |ctx.zones|
  {
    forall h, k :: h in earlier.hosts && k in later.hosts
                   && h !in ctx.registered && !IsOrigin(assets, h) && IsOrigin(assets, k) ==>
      FullZone(ctx.zones[zi], TakenWith(ctx, assets))
  }

  predicate Reached(hosts: map<u32, u32>, g: CaptureGroup) {
    exists h :: h in g.hosts && h in hosts
  }

  /** The outcome of serving the groups not in `rest`, group `i` in zone `homes[i]`. */
  ghost predicate Arranged(ctx: Ctx, groups: seq<CaptureGroup>, tiebreak: (Block, Block) -> nat, hosts: map<u32, u32>,
                           assets: seq<Asset>, subnets: seq<(Block, Block)>, homes: seq<nat>, rest: set<nat>) {
    && |homes| == |groups|
    && (forall i :: 0 <= i < |groups| && i !in rest ==> GroupServed(ctx, hosts, assets, groups[i], tiebreak, homes[i]))
    && (forall i, j :: 0 <= i < |groups| && 0 <= j < |groups| && i !in rest && j !in rest
                       && NetOf(groups[i]) < NetOf(groups[j]) ==>
          Yields(ctx, assets, groups[i], homes[i], groups[j]))
    && (forall s :: s in subnets <==>
          exists i :: 0 <= i < |groups| && i !in rest && SummaryOf(ctx, groups[i], hosts, homes[i], s))
  }

  ghost predicate SummaryOf(ctx: Ctx, g: CaptureGroup, hosts: map<u32, u32>, zi: nat, s: (Block, Block)) {
    zi < |ctx.zones| && Reached(hosts, g) && s == (g.net, ctx.zones[zi].net)
  }

  lemma GroupStays(ctx: Ctx, p: Progress, q: Progress, some: set<u32>, g: CaptureGroup,
                   tiebreak: (Block, Block) -> nat, zi: nat)
    requires GroupServed(ctx, p.hosts, p.assets, g, tiebreak, zi)
    requires Onward(p, q, some) && HostSet(g) !! some && |q.assets| <= ctx.budget
    ensures GroupServed(ctx, q.hosts, q.assets, g, tiebreak, zi)
    ensures Reached(p.hosts, g) <==> Reached(q.hosts, g)
    ensures forall h :: h in g.hosts ==> (IsOrigin(p.assets, h) <==> IsOrigin(q.assets, h))
  {
    hide IsBest, Settled, IsOrigin;
    BestInRange(g, ctx.zones, ctx.affinity, tiebreak, zi);
    forall h | h in g.hosts
      ensures Settled(ctx, q.hosts, q.assets, h, zi)
      ensures (IsOrigin(p.assets, h) <==> IsOrigin(q.assets, h)) && (h in p.hosts <==> h in q.hosts)
    {
      assert h in HostSet(g);
      SettledStays(ctx, p, q, some, h, zi);
      OriginsGrow(p, q, some, h);
    }
  }

  lemma YieldStays(ctx: Ctx, p: Progress, q: Progress, some: set<u32>, earlier: CaptureGroup, zi: nat,
                   later: CaptureGroup)
    requires zi < |ctx.zones| && Yields(ctx, p.assets, earlier, zi, later) && Onward(p, q, some)
    requires HostSet(earlier) !! some && HostSet(later) !! some
    ensures Yields(ctx, q.assets, earlier, zi, later)
  {
    hide FullZone, TakenWith, IsOrigin, Onward;
    TakenGrows(ctx, p, q, some);
    ZoneStaysFull(ctx.zones[zi], TakenWith(ctx, p.assets), TakenWith(ctx, q.assets));
    forall h, k | h in earlier.hosts && k in later.hosts
      ensures (IsOrigin(p.assets, h) <==> IsOrigin(q.assets, h)) && (IsOrigin(p.assets, k) <==> IsOrigin(q.assets, k))
    {
      assert h in HostSet(earlier) && k in HostSet(later);
      OriginsGrow(p, q, some, h);
      OriginsGrow(p, q, some, k);
    }
  }

  /** A group just served took budget only if every host refused before it had found its zone full. */
  lemma YieldStarts(ctx: Ctx, p: Progress, q: Progress, earlier: CaptureGroup, tiebreak: (Block, Block) -> nat, zi: nat,
                    later: CaptureGroup, done: set<u32>)
    requires GroupServed(ctx, p.hosts, p.assets, earlier, tiebreak, zi) && Onward(p, q, HostSet(later))
    requires HostsServed(ctx, p, done) && HostSet(later) !! done && HostSet(earlier) !! HostSet(later)
    requires |p.assets| + p.budget == ctx.budget && (q.assets != p.assets ==> p.budget > 0)
    ensures Yields(ctx, q.assets, earlier, zi, later)
  {
    hide FullZone, TakenWith, IsOrigin, Onward, HostsServed, IsBest, IsForced;
    BestInRange(earlier, ctx.zones, ctx.affinity, tiebreak, zi);
    TakenGrows(ctx, p, q, HostSet(later));
    ZoneStaysFull(ctx.zones[zi], TakenWith(ctx, p.assets), TakenWith(ctx, q.assets));
    OriginsServed(ctx, p, done);
    forall h, k | h in earlier.hosts && k in later.hosts && h !in ctx.registered
                  && !IsOrigin(q.assets, h) && IsOrigin(q.assets, k)
      ensures FullZone(ctx.zones[zi], TakenWith(ctx, q.assets))
    {
      assert h in HostSet(earlier) && k in HostSet(later);
      OriginsGrow(p, q, HostSet(later), h);
      NotYetOrigin(p.assets, k, done);
      assert Settled(ctx, p.hosts, p.assets, h, zi);
    }
  }

  /** Groups in network order, each into its best zone, hosts in address order. */
  method PlaceGroups(ctx: Ctx, derive: Derivation, groups: seq<CaptureGroup>, tiebreak: (Block, Block) -> nat)
    returns (p: Progress, subnets: seq<(Block, Block)>, ghost homes: seq<nat>)
    requires NoRepeats(groups) && ctx.zones != []
    requires Spreads(derive, |ctx.reservedMacs| + ctx.budget)
    requires ctx.deviceMacs.Keys <= Reserved(ctx.zones)
    ensures BookKept(ctx, derive, p) && HostsServed(ctx, p, HostsIn(groups))
    ensures Arranged(ctx, groups, tiebreak, p.hosts, p.assets, subnets, homes, {})
  {
    hide BookKept, HostsServed, Reserved, Spreads, ServedBefore, NetworkOf, NoRepeats, Arranged, IsBest, Onward,
      AllSettled, InAddressOrder;
    p := Start(ctx, derive);
    subnets := [];
    var rest := Indices(|groups|);
    homes := seq(|groups|, _ => 0);
    NoneServed(groups);
    NoneArranged(ctx, groups, tiebreak, p, homes);
    while rest != {}
      invariant rest <= Indices(|groups|) && |homes| == |groups|
      invariant BookKept(ctx, derive, p) && HostsServed(ctx, p, ServedBefore(groups, rest))
      invariant Arranged(ctx, groups, tiebreak, p.hosts, p.assets, subnets, homes, rest)
      invariant forall i, j :: 0 <= i < |groups| && i !in rest && j in rest ==> NetOf(groups[i]) <= NetOf(groups[j])
    {
      ghost var least := LeastIndex(groups, rest);
      var gi :| gi in rest && forall i :: i in rest ==>
        NetOf(groups[gi]) <= NetOf(groups[i]);
      var zi := BestZone(groups[gi], ctx.zones, ctx.affinity, tiebreak);
      BestInRange(groups[gi], ctx.zones, ctx.affinity, tiebreak, zi);
      var placed;
      OneMoreServed(groups, rest, gi);
      ghost var before, listed := p, subnets;
      p, placed := PlaceGroup(ctx, derive, p, groups[gi], zi, ServedBefore(groups, rest));
      if placed {
        subnets := subnets + [(groups[gi].net, ctx.zones[zi].net)];
      }
      WithinBudget(ctx, derive, before);
      WithinBudget(ctx, derive, p);
      OneMoreArranged(ctx, groups, tiebreak, before, p, listed, subnets, homes, rest, gi, zi, placed);
      homes := homes[gi := zi];
      rest := rest - {gi};
    }
    AllServed(groups);
  }

  lemma BestInRange(g: CaptureGroup, zones: seq<ZoneTarget>, affinity: Affinity, tiebreak: (Block, Block) -> nat,
                    zi: nat)
    requires IsBest(g, zones, affinity, tiebreak, zi)
    ensures zi < |zones|
  {
  }

  lemma NoneArranged(ctx: Ctx, groups: seq<CaptureGroup>, tiebreak: (Block, Block) -> nat, p: Progress, homes: seq<nat>)
    requires |homes| == |groups|
    ensures Arranged(ctx, groups, tiebreak, p.hosts, p.assets, [], homes, Indices(|groups|))
  {
  }

  lemma OneMoreArranged(ctx: Ctx, groups: seq<CaptureGroup>, tiebreak: (Block, Block) -> nat, p: Progress, q: Progress,
                        was: seq<(Block, Block)>, now: seq<(Block, Block)>, homes: seq<nat>, rest: set<nat>, gi: nat,
                        zi: nat, placed: bool)
    requires Arranged(ctx, groups, tiebreak, p.hosts, p.assets, was, homes, rest) && NoRepeats(groups)
    requires gi < |groups| && gi in rest && zi < |ctx.zones|
    requires forall i :: 0 <= i < |groups| && i !in rest ==> NetOf(groups[i]) <= NetOf(groups[gi])
    requires HostsServed(ctx, p, ServedBefore(groups, rest)) && Onward(p, q, HostSet(groups[gi]))
    requires |p.assets| + p.budget == ctx.budget && |q.assets| <= ctx.budget && (q.assets != p.assets ==> p.budget > 0)
    requires GroupServed(ctx, q.hosts, q.assets, groups[gi], tiebreak, zi)
    requires placed <==> Reached(q.hosts, groups[gi])
    requires now == if placed then was + [(groups[gi].net, ctx.zones[zi].net)] else was
    ensures Arranged(ctx, groups, tiebreak, q.hosts, q.assets, now, homes[gi := zi], rest - {gi})
  {
    hide HostsServed, GroupServed, Onward, Yields, Reached;
    var g := groups[gi];
    forall i | 0 <= i < |groups| && i !in rest
      ensures GroupServed(ctx, q.hosts, q.assets, groups[i], tiebreak, homes[i])
      ensures Reached(p.hosts, groups[i]) <==> Reached(q.hosts, groups[i])
      ensures homes[i] < |ctx.zones| && Yields(ctx, q.assets, groups[i], homes[i], g)
    {
      GroupsApart(groups, i, gi);
      ServedInRange(ctx, p, groups[i], tiebreak, homes[i]);
      GroupStays(ctx, p, q, HostSet(g), groups[i], tiebreak, homes[i]);
      NotServedYet(groups, rest, gi);
      YieldStarts(ctx, p, q, groups[i], tiebreak, homes[i], g, ServedBefore(groups, rest));
    }
    forall i, j | 0 <= i < |groups| && 0 <= j < |groups| && i !in rest && j !in rest &&
        NetOf(groups[i]) < NetOf(groups[j])
      ensures homes[i] < |ctx.zones| && Yields(ctx, q.assets, groups[i], homes[i], groups[j])
    {
      GroupsApart(groups, i, gi);
      GroupsApart(groups, j, gi);
      ServedInRange(ctx, p, groups[i], tiebreak, homes[i]);
      YieldStays(ctx, p, q, HostSet(g), groups[i], homes[i], groups[j]);
    }
    SummaryGrows(ctx, groups, p.hosts, q.hosts, was, now, homes, rest, gi, zi, placed);
  }

  lemma ServedInRange(ctx: Ctx, p: Progress, g: CaptureGroup, tiebreak: (Block, Block) -> nat, zi: nat)
    requires GroupServed(ctx, p.hosts, p.assets, g, tiebreak, zi)
    ensures zi < |ctx.zones|
  {
  }

  lemma GroupsApart(groups: seq<CaptureGroup>, i: nat, j: nat)
    requires NoRepeats(groups) && i < |groups| && j < |groups| && i != j
    ensures HostSet(groups[i]) !! HostSet(groups[j])
  {
  }

  lemma NotServedYet(groups: seq<CaptureGroup>, rest: set<nat>, gi: nat)
    requires NoRepeats(groups) && gi < |groups| && gi in rest
    ensures HostSet(groups[gi]) !! ServedBefore(groups, rest)
  {
    OneMoreServed(groups, rest, gi);
  }

  lemma SummaryGrows(ctx: Ctx, groups: seq<CaptureGroup>, hosts: map<u32, u32>, more: map<u32, u32>,
                     was: seq<(Block, Block)>, now: seq<(Block, Block)>, homes: seq<nat>, rest: set<nat>, gi: nat,
                     zi: nat, placed: bool)
    requires |homes| == |groups| && gi < |groups| && gi in rest && zi < |ctx.zones|
    requires forall s :: s in was <==>
               exists i :: 0 <= i < |groups| && i !in rest && SummaryOf(ctx, groups[i], hosts, homes[i], s)
    requires forall i :: 0 <= i < |groups| && i !in rest ==> (Reached(hosts, groups[i]) <==> Reached(more, groups[i]))
    requires placed <==> Reached(more, groups[gi])
    requires now == if placed then was + [(groups[gi].net, ctx.zones[zi].net)] else was
    ensures var after := homes[gi := zi];
            forall s :: s in now <==>
              exists i :: 0 <= i < |groups| && i !in rest - {gi} && SummaryOf(ctx, groups[i], more, after[i], s)
  {
    hide Reached;
    var after := homes[gi := zi];
    forall s
      ensures s in now <==>
                exists i :: 0 <= i < |groups| && i !in rest - {gi} && SummaryOf(ctx, groups[i], more, after[i], s)
    {
      if exists i :: 0 <= i < |groups| && i !in rest - {gi} && SummaryOf(ctx, groups[i], more, after[i], s) {
        var i :| 0 <= i < |groups| && i !in rest - {gi} && SummaryOf(ctx, groups[i], more, after[i], s);
        assert i != gi ==> SummaryOf(ctx, groups[i], hosts, homes[i], s);
      }
      if s in was {
        var i :| 0 <= i < |groups| && i !in rest && SummaryOf(ctx, groups[i], hosts, homes[i], s);
        assert SummaryOf(ctx, groups[i], more, after[i], s);
      } else if s in now {
        assert SummaryOf(ctx, groups[gi], more, after[gi], s);
      }
    }
  }

  /** The hosts of the groups that are no longer waiting. */
  ghost function ServedBefore(groups: seq<CaptureGroup>, rest: set<nat>): set<u32> {
    set i, h | 0 <= i < |groups| && i !in rest && h in groups[i].hosts :: h
  }

  lemma NoneServed(groups: seq<CaptureGroup>)
    ensures ServedBefore(groups, Indices(|groups|)) == {}
  {
  }

  lemma AllServed(groups: seq<CaptureGroup>)
    ensures ServedBefore(groups, {}) == HostsIn(groups)
  {
    forall h | h in HostsIn(groups) ensures h in ServedBefore(groups, {}) {
      var g :| g in groups && h in g.hosts;
      var i :| 0 <= i < |groups| && groups[i] == g;
    }
  }

  lemma OneMoreServed(groups: seq<CaptureGroup>, rest: set<nat>, gi: nat)
    requires NoRepeats(groups) && gi < |groups| && gi in rest
    ensures ServedBefore(groups, rest - {gi}) == ServedBefore(groups, rest) + (set h | h in groups[gi].hosts)
    ensures forall h :: h in groups[gi].hosts ==> h !in ServedBefore(groups, rest)
    ensures forall i, j :: 0 <= i < j < |groups[gi].hosts| ==> groups[gi].hosts[i] != groups[gi].hosts[j]
  {
    assert groups[gi] in groups;
    forall h | h in groups[gi].hosts ensures h !in ServedBefore(groups, rest) {
      forall i | 0 <= i < |groups| && i !in rest ensures h !in groups[i].hosts {
        assert i < gi || gi < i;
      }
    }
  }

  function Indices(n: nat): (r: set<nat>)
    ensures forall i: nat :: i in r <==> i < n
  {
    if n == 0 then {} else Indices(n - 1) + {n - 1}
  }

  lemma {:induction false} LeastIndex(groups: seq<CaptureGroup>, s: set<nat>) returns (least: nat)
    requires s != {} && forall i :: i in s ==> i < |groups|
    ensures least in s && forall i :: i in s ==>
      NetOf(groups[least]) <= NetOf(groups[i])
  {
    hide NetworkOf;
    var any :| any in s;
    least := any;
    if s != {any} {
      var rest := LeastIndex(groups, s - {any});
      least := if NetOf(groups[any]) <= NetOf(groups[rest]) then any else rest;
      assert forall x :: x in s ==> x == any || x in s - {any};
    }
  }

  // ----- Reconciling a capture ----------------------------------------------------------------

  /** The host map a reconciliation may end with, and the assets it reports. */
  ghost predicate Reconciled(ctx: Ctx, derive: Derivation, groups: seq<CaptureGroup>, hosts: map<u32, u32>,
                             assets: seq<Asset>, resolved: map<u32, Mac>) {
    && |assets| <= ctx.budget
    && (forall h :: h in HostsIn(groups) && h !in ctx.registered && !IsOrigin(assets, h) ==>
          |assets| == ctx.budget || ZoneFull(ctx.zones, Reserved(ctx.zones) + ctx.registered.Values + AssetIps(assets)))
    && (forall a :: a in assets ==> AssetOk(ctx, a))
    && DistinctAssets(assets)
    && (forall a :: a in assets ==> a.origin in hosts && hosts[a.origin] == a.ip)
    && (forall a :: a in assets ==> WireMac(ctx, derive, resolved, a.ip) == a.mac)
    && (forall a :: a in assets ==> FirstSalt(derive, ctx.reservedMacs + AssetMacs(assets), a.ip, a.mac))
    && resolved.Keys <= AssetIps(assets)
    && hosts.Keys <= HostsIn(groups)
    && (forall h :: h in HostsIn(groups) && h in ctx.registered ==> h in hosts && hosts[h] == ctx.registered[h])
    && (forall h :: h in hosts && h !in ctx.registered ==>
          hosts[h] in Reserved(ctx.zones) || IsOrigin(assets, h))
    && (Reserved(ctx.zones) != {} ==> hosts.Keys == HostsIn(groups))
  }

  /**
   Places every host, rewrites the capture through the result and drops every unsafe frame. With no
   zones nothing is touched. The ghost results are the host map and the per-address MAC overrides.
   */
  method ReconcileCaptureIntoZones(cap: Capture, groups: seq<CaptureGroup>, ctx: Ctx, derive: Derivation,
                                   tiebreak: (Block, Block) -> nat, remapMac: bool)
    returns (hostCount: nat, subnets: seq<(Block, Block)>, assets: seq<Asset>,
             ghost hosts: map<u32, u32>, ghost resolved: map<u32, Mac>, ghost homes: seq<nat>)
    requires Distinct(cap.packets) && NoRepeats(groups)
    requires Spreads(derive, |ctx.reservedMacs| + ctx.budget)
    requires ctx.deviceMacs.Keys <= Reserved(ctx.zones)
    modifies cap, cap.packets
    ensures Distinct(cap.packets) && forall p :: p in cap.packets ==> p in old(cap.packets)
    ensures ctx.zones == [] ==> assets == [] && hostCount == 0 && FramesOf(cap.packets) == old(FramesOf(cap.packets))
    ensures ctx.zones != [] ==>
              && Reconciled(ctx, derive, groups, hosts, assets, resolved)
              && Arranged(ctx, groups, tiebreak, hosts, assets, subnets, homes, {})
              && hostCount == |hosts|
              && FramesOf(cap.packets) ==
                   Survivors(old(FramesOf(cap.packets)), hosts, ip => WireMac(ctx, derive, resolved, ip), remapMac)
  {
    hide BookKept, HostsServed, Reserved, Spreads, Reconciled, Arranged, NoRepeats, Survivors, WireMac;
    hosts, resolved, homes := map[], map[], [];
    if ctx.zones == [] {
      return 0, [], [], map[], map[], [];
    }
    var p;
    p, subnets, homes := PlaceGroups(ctx, derive, groups, tiebreak);
    ProgressReconciles(ctx, derive, groups, p);
    cap.RemapThrough(p.hosts, ip => WireMac(ctx, derive, p.resolved, ip), remapMac);
    hostCount, assets := |p.hosts|, p.assets;
    hosts, resolved := p.hosts, p.resolved;
  }

  lemma ProgressReconciles(ctx: Ctx, derive: Derivation, groups: seq<CaptureGroup>, p: Progress)
    requires BookKept(ctx, derive, p) && HostsServed(ctx, p, HostsIn(groups))
    ensures Reconciled(ctx, derive, groups, p.hosts, p.assets, p.resolved)
  {
  }
}
