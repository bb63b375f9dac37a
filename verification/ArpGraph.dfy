/**
 Who resolves whom by ARP: each zone's assets, led by its engineering station, split into small cells
 whose master polls the members and is polled by the first of them.
 */
module ArpGraph {
  import opened Wire
  import opened Arith
  import opened Net
  import opened Allocator
  import opened Placement
  import opened Ledger

  const CELL_SIZE: nat := 6

  datatype Node = Node(ip: u32, mac: Mac)
  datatype Edge = Edge(requester: Node, owner: Node)

  // ----- Cells --------------------------------------------------------------------------------

  /** How many nodes the next cell takes: one fewer when a full cell would strand a single node. */
  function Take(remaining: nat, size: nat): (t: nat)
    requires size >= 2 && remaining > 0
    ensures 1 <= t <= remaining && t <= size
  {
    if remaining > size && remaining - size == 1 then size - 1
    else if size <= remaining then size else remaining
  }

  function Cells<T>(nodes: seq<T>, size: nat): seq<seq<T>>
    requires size >= 2
  {
    if nodes == [] then []
    else [nodes[..Take(|nodes|, size)]] + Cells(nodes[Take(|nodes|, size)..], size)
  }

  function Flatten<T>(cells: seq<seq<T>>): seq<T> {
    if cells == [] then [] else cells[0] + Flatten(cells[1..])
  }

  method CellsNoOrphan(nodes: seq<Node>, size: nat) returns (out: seq<seq<Node>>)
    requires size >= 2
    ensures out == Cells(nodes, size)
  {
    hide Cells;
    var n := |nodes|;
    if n == 0 {
      NoCells(nodes, size);
      return [];
    }
    if n <= size {
      NextCell(nodes, 0, size);
      NoCells(nodes[n..], size);
      assert nodes[0..n] == nodes && nodes[0..] == nodes;
      return [nodes];
    }
    out := [];
    var i := 0;
    assert nodes[0..] == nodes;
    while i < n
      invariant 0 <= i <= n
      invariant out + Cells(nodes[i..], size) == Cells(nodes, size)
    {
      var remaining := n - i;
      var take := if remaining > size && remaining - size == 1 then size - 1
                  else if size <= remaining then size else remaining;
      NextCell(nodes, i, size);
      assert out + [nodes[i..i + take]] + Cells(nodes[i + take..], size) ==
             out + ([nodes[i..i + take]] + Cells(nodes[i + take..], size));
      out := out + [nodes[i..i + take]];
      i := i + take;
    }
    NoCells(nodes[n..], size);
  }

  lemma NoCells<T>(nodes: seq<T>, size: nat)
    requires size >= 2 && nodes == []
    ensures Cells(nodes, size) == []
  {
  }

  lemma NextCell<T>(nodes: seq<T>, i: nat, size: nat)
    requires size >= 2 && i < |nodes|
    ensures var t := Take(|nodes| - i, size);
            Cells(nodes[i..], size) == [nodes[i..i + t]] + Cells(nodes[i + t..], size)
  {
    var t := Take(|nodes| - i, size);
    assert nodes[i..][..t] == nodes[i..i + t] && nodes[i..][t..] == nodes[i + t..];
  }

  /** The cells are an exact partition of the nodes, none above `size`. */
  lemma {:induction false} CellsPartition<T>(nodes: seq<T>, size: nat)
    requires size >= 2
    ensures Flatten(Cells(nodes, size)) == nodes
    ensures forall c :: c in Cells(nodes, size) ==> 1 <= |c| <= size
  {
    if nodes != [] {
      var t := Take(|nodes|, size);
      CellsPartition(nodes[t..], size);
      assert nodes[..t] + nodes[t..] == nodes;
    }
  }

  /** No cell is a lone node exactly when the size is 3 or more, or pairs come out even. */
  lemma {:induction false} NoOrphanIff<T>(nodes: seq<T>, size: nat)
    requires size >= 2
    ensures (forall c :: c in Cells(nodes, size) ==> |c| >= 2) <==> |nodes| != 1 && (size >= 3 || |nodes| % 2 == 0)
  {
    if nodes != [] {
      var t := Take(|nodes|, size);
      var rest := Cells(nodes[t..], size);
      NoOrphanIff(nodes[t..], size);
      assert Cells(nodes, size)[0] == nodes[..t];
      assert forall c :: c in Cells(nodes, size) <==> c == nodes[..t] || c in rest;
    }
  }

  /** No more cells than the size makes necessary. */
  lemma {:induction false} CellCount<T>(nodes: seq<T>, size: nat)
    requires size >= 2
    ensures |Cells(nodes, size)| == (|nodes| + size - 1) / size
  {
    if nodes == [] {
      Quotient(size - 1, size, 0);
    } else {
      CellCount(nodes[Take(|nodes|, size)..], size);
      OneCellLess(|nodes|, size);
    }
  }

  lemma OneCellLess(n: nat, size: nat)
    requires size >= 2 && n > 0
    ensures (n + size - 1) / size == (n - Take(n, size) + size - 1) / size + 1
  {
    var rest := n - Take(n, size);
    if rest == 0 {
      Quotient(size - 1, size, 0);
      Quotient(n + size - 1, size, 1);
    } else if n == size + 1 {
      Quotient(size + 1, size, 1);
      Quotient(2 * size, size, 2);
    } else {
      var q, r := Split(rest + size - 1, size);
      Remainder(rest + size - 1 + size, size, q + 1, r);
    }
  }

  // ----- Edges --------------------------------------------------------------------------------

  /** The master asks for each member; the first member asks for the master. */
  function CellEdges(cell: seq<Node>): seq<Edge> {
    if |cell| <= 1 then []
    else seq(|cell| - 1, i requires 0 <= i < |cell| - 1 => Edge(cell[0], cell[i + 1])) + [Edge(cell[1], cell[0])]
  }

  /** A cell is a star with one edge back: the first node asks every other, and the second asks the first. */
  lemma CellIsStar(cell: seq<Node>, e: Edge)
    ensures e in CellEdges(cell) <==>
              |cell| >= 2 && ((exists i :: 1 <= i < |cell| && e == Edge(cell[0], cell[i])) ||
                              e == Edge(cell[1], cell[0]))
  {
    if |cell| >= 2 {
      var edges := CellEdges(cell);
      assert edges[|cell| - 1] == Edge(cell[1], cell[0]);
      forall i | 1 <= i < |cell| ensures Edge(cell[0], cell[i]) in edges {
        assert edges[i - 1] == Edge(cell[0], cell[i]);
      }
    }
  }

  function AllEdges(cells: seq<seq<Node>>): seq<Edge> {
    if cells == [] then [] else AllEdges(cells[..|cells| - 1]) + CellEdges(cells[|cells| - 1])
  }

  method BindCell(cell: seq<Node>) returns (edges: seq<Edge>)
    requires cell != []
    ensures edges == CellEdges(cell)
  {
    edges := [];
    for i := 1 to |cell|
      invariant edges == seq(i - 1, k requires 0 <= k < i - 1 => Edge(cell[0], cell[k + 1]))
    {
      edges := edges + [Edge(cell[0], cell[i])];
    }
    if |cell| > 1 {
      edges := edges + [Edge(cell[1], cell[0])];
    }
  }

  method BindCells(cells: seq<seq<Node>>) returns (edges: seq<Edge>)
    requires forall i :: 0 <= i < |cells| ==> cells[i] != []
    ensures edges == AllEdges(cells)
  {
    edges := [];
    for i := 0 to |cells|
      invariant edges == AllEdges(cells[..i])
    {
      var more := BindCell(cells[i]);
      assert cells[..i + 1][..i] == cells[..i];
      edges := edges + more;
    }
    assert cells[..|cells|] == cells;
  }

  function Owners(edges: seq<Edge>): (r: seq<Node>)
    ensures |r| == |edges| && forall i :: 0 <= i < |r| ==> r[i] == edges[i].owner
  {
    seq(|edges|, i requires 0 <= i < |edges| => edges[i].owner)
  }

  ghost function AllNodes(cells: seq<seq<Node>>): seq<Node> {
    if cells == [] then [] else AllNodes(cells[..|cells| - 1]) + cells[|cells| - 1]
  }

  ghost predicate WellCelled(cells: seq<seq<Node>>) {
    forall c :: c in cells ==> 2 <= |c| <= CELL_SIZE
  }

  lemma CellOwners(cell: seq<Node>)
    requires |cell| >= 2
    ensures multiset(Owners(CellEdges(cell))) == multiset(cell)
  {
    assert Owners(CellEdges(cell)) == cell[1..] + [cell[0]];
    assert cell == [cell[0]] + cell[1..];
  }

  /** Every planned node owns exactly one edge: owners and nodes agree as multisets. */
  lemma {:induction false} EveryNodeOwnsOnce(cells: seq<seq<Node>>)
    requires WellCelled(cells)
    ensures multiset(Owners(AllEdges(cells))) == multiset(AllNodes(cells))
  {
    hide CellEdges, Owners;
    if cells != [] {
      var n := |cells| - 1;
      EveryNodeOwnsOnce(cells[..n]);
      assert cells[n] in cells;
      CellOwners(cells[n]);
      OwnersAppend(AllEdges(cells[..n]), CellEdges(cells[n]));
    }
  }

  lemma OwnersAppend(a: seq<Edge>, b: seq<Edge>)
    ensures Owners(a + b) == Owners(a) + Owners(b)
  {
  }

  ghost predicate DistinctNodes(nodes: seq<Node>) {
    forall i, j :: 0 <= i < j < |nodes| ==> nodes[i].ip != nodes[j].ip && nodes[i].mac != nodes[j].mac
  }

  /** Both ends of an edge are two different nodes of one cell. */
  ghost predicate WithinCell(e: Edge, cell: seq<Node>) {
    exists i, j :: 0 <= i < |cell| && 0 <= j < |cell| && i != j && e.requester == cell[i] && e.owner == cell[j]
  }

  lemma CellEdgesWithin(cell: seq<Node>, e: Edge)
    requires |cell| >= 2 && e in CellEdges(cell)
    ensures WithinCell(e, cell)
  {
    var k :| 0 <= k < |CellEdges(cell)| && CellEdges(cell)[k] == e;
    if k < |cell| - 1 {
      assert e.requester == cell[0] && e.owner == cell[k + 1];
    } else {
      assert e.requester == cell[1] && e.owner == cell[0];
    }
  }

  lemma {:induction false} EdgeCell(cells: seq<seq<Node>>, e: Edge) returns (k: nat)
    requires WellCelled(cells) && e in AllEdges(cells)
    ensures k < |cells| && WithinCell(e, cells[k])
  {
    var n := |cells| - 1;
    assert cells[n] in cells;
    if e in CellEdges(cells[n]) {
      CellEdgesWithin(cells[n], e);
      k := n;
    } else {
      k := EdgeCell(cells[..n], e);
    }
  }

  /** Where a cell starts in the flattened nodes. */
  ghost function Offset(cells: seq<seq<Node>>, a: nat): nat
    requires a <= |cells|
  {
    if a == 0 then 0 else Offset(cells, a - 1) + |cells[a - 1]|
  }

  lemma {:induction false} OffsetPrefix(cells: seq<seq<Node>>, n: nat, a: nat)
    requires a <= n <= |cells|
    ensures Offset(cells[..n], a) == Offset(cells, a)
  {
    if a > 0 {
      OffsetPrefix(cells, n, a - 1);
    }
  }

  lemma {:induction false} NodeAt(cells: seq<seq<Node>>, a: nat, i: nat)
    requires a < |cells| && i < |cells[a]|
    ensures |AllNodes(cells)| == Offset(cells, |cells|)
    ensures Offset(cells, a) + i < |AllNodes(cells)| && AllNodes(cells)[Offset(cells, a) + i] == cells[a][i]
    decreases |cells|
  {
    var n := |cells| - 1;
    OffsetPrefix(cells, n, n);
    OffsetPrefix(cells, n, a);
    AllNodesSize(cells[..n]);
    if a < n {
      NodeAt(cells[..n], a, i);
    }
  }

  lemma {:induction false} AllNodesSize(cells: seq<seq<Node>>)
    ensures |AllNodes(cells)| == Offset(cells, |cells|)
  {
    if cells != [] {
      var n := |cells| - 1;
      AllNodesSize(cells[..n]);
      OffsetPrefix(cells, n, n);
    }
  }

  lemma {:induction false} OffsetStep(cells: seq<seq<Node>>, a: nat, b: nat)
    requires a < b <= |cells|
    ensures Offset(cells, a) + |cells[a]| <= Offset(cells, b)
  {
    if a < b - 1 {
      OffsetStep(cells, a, b - 1);
    }
  }

  /** A node's address or hardware address occurs at one place of one cell only. */
  lemma NodeCell(cells: seq<seq<Node>>, a: nat, i: nat, b: nat, j: nat)
    requires DistinctNodes(AllNodes(cells))
    requires a < |cells| && i < |cells[a]| && b < |cells| && j < |cells[b]|
    ensures (cells[a][i].ip == cells[b][j].ip || cells[a][i].mac == cells[b][j].mac) ==> a == b && i == j
  {
    hide Offset, AllNodes;
    NodeAt(cells, a, i);
    NodeAt(cells, b, j);
    if a < b {
      OffsetStep(cells, a, b);
    } else if b < a {
      OffsetStep(cells, b, a);
    }
  }

  /** No edge resolves its own requester. */
  lemma NoSelfResolution(cells: seq<seq<Node>>, e: Edge)
    requires WellCelled(cells) && DistinctNodes(AllNodes(cells)) && e in AllEdges(cells)
    ensures e.requester.ip != e.owner.ip && e.requester.mac != e.owner.mac
  {
    var k := EdgeCell(cells, e);
    var i, j :| 0 <= i < |cells[k]| && 0 <= j < |cells[k]| && i != j && e.requester == cells[k][i] &&
        e.owner == cells[k][j];
    NodeCell(cells, k, i, k, j);
  }

  /** The addresses a requester, known by its hardware address, asks for. */
  function TargetsOf(edges: seq<Edge>, mac: Mac): set<u32> {
    set e | e in edges && e.requester.mac == mac :: e.owner.ip
  }

  /** No requester asks for more than a cell's worth of peers. */
  lemma FanoutBounded(cells: seq<seq<Node>>, mac: Mac)
    requires WellCelled(cells) && DistinctNodes(AllNodes(cells))
    ensures |TargetsOf(AllEdges(cells), mac)| <= CELL_SIZE - 1
  {
    hide WithinCell;
    var targets := TargetsOf(AllEdges(cells), mac);
    if targets != {} {
      var e :| e in AllEdges(cells) && e.requester.mac == mac;
      var k, i := RequesterAt(cells, e);
      forall t | t in targets ensures t in PeersOf(cells[k], i) {
        var f :| f in AllEdges(cells) && f.requester.mac == mac && f.owner.ip == t;
        SamePeers(cells, k, i, f);
      }
      PeerCount(cells[k], i);
      SubsetSize(targets, PeersOf(cells[k], i));
    }
  }

  lemma RequesterAt(cells: seq<seq<Node>>, e: Edge) returns (k: nat, i: nat)
    requires WellCelled(cells) && e in AllEdges(cells)
    ensures k < |cells| && i < |cells[k]| && cells[k][i] == e.requester
  {
    k := EdgeCell(cells, e);
    var a, b :| 0 <= a < |cells[k]| && 0 <= b < |cells[k]| && a != b && e.requester == cells[k][a] &&
        e.owner == cells[k][b];
    i := a;
  }

  function PeersOf(cell: seq<Node>, i: nat): set<u32> {
    set j | 0 <= j < |cell| && j != i :: cell[j].ip
  }

  lemma SamePeers(cells: seq<seq<Node>>, k: nat, i: nat, f: Edge)
    requires WellCelled(cells) && DistinctNodes(AllNodes(cells)) && f in AllEdges(cells)
    requires k < |cells| && i < |cells[k]| && cells[k][i].mac == f.requester.mac
    ensures f.owner.ip in PeersOf(cells[k], i)
  {
    var b := EdgeCell(cells, f);
    var x, y :| 0 <= x < |cells[b]| && 0 <= y < |cells[b]| && x != y && f.requester == cells[b][x] &&
        f.owner == cells[b][y];
    NodeCell(cells, k, i, b, x);
  }

  lemma PeerCount(cell: seq<Node>, i: nat)
    requires i < |cell|
    ensures |PeersOf(cell, i)| <= |cell| - 1
  {
    var others := cell[..i] + cell[i + 1..];
    IpCount(others);
    forall t | t in PeersOf(cell, i) ensures t in IpsOf(others) {
      var j :| 0 <= j < |cell| && j != i && cell[j].ip == t;
      assert others[if j < i then j else j - 1] == cell[j];
    }
    SubsetSize(PeersOf(cell, i), IpsOf(others));
  }

  function IpsOf(nodes: seq<Node>): set<u32> {
    set n | n in nodes :: n.ip
  }

  lemma {:induction false} IpCount(nodes: seq<Node>)
    ensures |IpsOf(nodes)| <= |nodes|
  {
    if nodes != [] {
      var k := |nodes| - 1;
      IpCount(nodes[..k]);
      assert forall n :: n in nodes <==> n in nodes[..k] || n == nodes[k];
      assert IpsOf(nodes) == IpsOf(nodes[..k]) + {nodes[k].ip};
    }
  }

  // ----- A zone's cast ------------------------------------------------------------------------

  predicate Occupied(nodes: seq<Node>, ip: u32) {
    exists n :: n in nodes && n.ip == ip
  }

  function SaturatingPred(ip: u32): u32 {
    if ip == 0 then 0 else ip - 1
  }

  /** The station leads unless an asset sits on its address; an asset alone there gets a requester below it. */
  function Cast(reals: seq<Node>, net: Block, stationMac: u32 -> Mac): seq<Node> {
    var st := Station(net);
    var nodes := if Occupied(reals, st) then reals else [Node(st, stationMac(st))] + reals;
    var alt := SaturatingPred(st);
    if |nodes| == 1 && alt != nodes[0].ip then [Node(alt, stationMac(alt))] + nodes else nodes
  }

  /** Addresses inside the room of a zone's block. */
  predicate InBlock(net: Block, ip: u32) {
    net.net <= ip < net.net + Room(net.prefix)
  }

  ghost predicate DistinctIps(nodes: seq<Node>) {
    forall i, j :: 0 <= i < j < |nodes| ==> nodes[i].ip != nodes[j].ip
  }

  lemma SlotsInBlock(net: Block)
    requires 8 <= net.prefix <= 30 && Placed(net)
    ensures InBlock(net, Station(net)) && Station(net) >= net.net + 2
    ensures forall ip: u32 :: IsHost(net, ip) ==> InBlock(net, ip)
  {
    NetworkFits(net.net, net.prefix);
    NetworkOfPlaced(net);
    RealSize(net.prefix);
  }

  lemma NetworkOfPlaced(net: Block)
    requires 8 <= net.prefix <= 30 && Placed(net)
    ensures NetworkOf(net.net, net.prefix) == net.net
  {
    var k: nat :| net.net == k * Room(net.prefix);
    ModOfMultiple(k, Size(net.prefix));
  }

  /** The two addresses a synthetic node of a zone may have. */
  predicate StandInSlot(net: Block, ip: u32) {
    ip == Station(net) || ip == SaturatingPred(Station(net))
  }

  /** A synthetic node: the zone's station, or the requester below it. */
  predicate IsStandIn(net: Block, n: Node, stationMac: u32 -> Mac) {
    StandInSlot(net, n.ip) && n.mac == stationMac(n.ip)
  }

  /** A cast has at least two members, all in the zone, all on different addresses. */
  lemma CastFacts(reals: seq<Node>, net: Block, stationMac: u32 -> Mac)
    requires 8 <= net.prefix <= 30 && Placed(net) && reals != [] && DistinctIps(reals)
    requires forall n :: n in reals ==> IsHost(net, n.ip)
    ensures var c := Cast(reals, net, stationMac);
            && |c| >= 2 && DistinctIps(c)
            && (forall n :: n in c ==> InBlock(net, n.ip) && (n in reals || IsStandIn(net, n, stationMac)))
            && (forall n :: n in reals ==> n in c)
  {
    hide IsHost, Station, Placed, InBlock;
    SlotsInBlock(net);
    var st := Station(net);
    var c := Cast(reals, net, stationMac);
    if !Occupied(reals, st) {
      assert c == [Node(st, stationMac(st))] + reals;
      forall i | 0 <= i < |reals| ensures reals[i].ip != st { assert reals[i] in reals; }
    } else if |reals| == 1 {
      AltInBlock(net);
      assert reals[0] in reals;
      assert c == [Node(SaturatingPred(st), stationMac(SaturatingPred(st)))] + reals;
    }
  }

  /**
   The station always takes part, and leads unless it is an asset; a synthetic requester comes only to a
   lone asset there.
   */
  lemma StationTakesPart(reals: seq<Node>, net: Block, stationMac: u32 -> Mac)
    requires 8 <= net.prefix <= 30 && Placed(net) && reals != []
    ensures var c, st := Cast(reals, net, stationMac), Station(net);
            if !Occupied(reals, st) then c == [Node(st, stationMac(st))] + reals
            else if |reals| == 1 then c == [Node(st - 1, stationMac(st - 1))] + reals && reals[0].ip == st
            else c == reals
    ensures exists n :: n in Cast(reals, net, stationMac) && n.ip == Station(net)
  {
    SlotsInBlock(net);
    hide Station;
    var st := Station(net);
    var c := Cast(reals, net, stationMac);
    if Occupied(reals, st) {
      var n :| n in reals && n.ip == st;
      assert n in c;
    } else {
      assert c[0] == Node(st, stationMac(st));
    }
  }

  lemma AltInBlock(net: Block)
    requires 8 <= net.prefix <= 30 && Placed(net)
    ensures InBlock(net, SaturatingPred(Station(net))) && SaturatingPred(Station(net)) != Station(net)
  {
    SlotsInBlock(net);
  }

  // ----- The whole ledger ---------------------------------------------------------------------

  function DeviceNodes(ds: seq<DeviceRecord>, net: Block): seq<Node> {
    if ds == [] then []
    else
      DeviceNodes(ds[..|ds| - 1], net) +
      (if ds[|ds| - 1].zone == net then [Node(ds[|ds| - 1].ip, ds[|ds| - 1].mac)] else [])
  }

  function HostNodes(hs: seq<CaptureHost>, net: Block): seq<Node> {
    if hs == [] then []
    else
      HostNodes(hs[..|hs| - 1], net) +
      (if hs[|hs| - 1].zone == net then [Node(hs[|hs| - 1].ip, hs[|hs| - 1].mac)] else [])
  }

  function AssetNodes(p: Plan, net: Block): seq<Node> {
    DeviceNodes(p.devices, net) + HostNodes(p.hosts, net)
  }

  lemma {:induction false} DeviceNodeFacts(ds: seq<DeviceRecord>, net: Block, n: Node)
    ensures n in DeviceNodes(ds, net) <==> exists d :: d in ds && d.zone == net && n == Node(d.ip, d.mac)
  {
    if ds != [] {
      DeviceNodeFacts(ds[..|ds| - 1], net, n);
      assert forall d :: d in ds <==> d in ds[..|ds| - 1] || d == ds[|ds| - 1];
    }
  }

  lemma {:induction false} HostNodeFacts(hs: seq<CaptureHost>, net: Block, n: Node)
    ensures n in HostNodes(hs, net) <==> exists h :: h in hs && h.zone == net && n == Node(h.ip, h.mac)
  {
    if hs != [] {
      HostNodeFacts(hs[..|hs| - 1], net, n);
      assert forall h :: h in hs <==> h in hs[..|hs| - 1] || h == hs[|hs| - 1];
    }
  }

  lemma {:induction false} DeviceNodesDistinct(ds: seq<DeviceRecord>, net: Block)
    requires DistinctDevices(ds)
    ensures DistinctIps(DeviceNodes(ds, net))
  {
    if ds != [] {
      var k := |ds| - 1;
      var before := DeviceNodes(ds[..k], net);
      DeviceNodesDistinct(ds[..k], net);
      forall i | 0 <= i < |before| ensures before[i].ip != ds[k].ip {
        DeviceNodeFacts(ds[..k], net, before[i]);
      }
    }
  }

  lemma {:induction false} HostNodesDistinct(hs: seq<CaptureHost>, net: Block)
    requires DistinctHosts(hs)
    ensures DistinctIps(HostNodes(hs, net))
  {
    if hs != [] {
      var k := |hs| - 1;
      var before := HostNodes(hs[..k], net);
      HostNodesDistinct(hs[..k], net);
      forall i | 0 <= i < |before| ensures before[i].ip != hs[k].ip {
        HostNodeFacts(hs[..k], net, before[i]);
      }
    }
  }

  lemma AssetNodesOk(prefix: Prefix, p: Plan, net: Block)
    requires Inv(prefix, p)
    ensures DistinctIps(AssetNodes(p, net))
    ensures forall n :: n in AssetNodes(p, net) ==> IsHost(net, n.ip)
  {
    hide IsHost, ZonesOk, Station, Gateway, HasNet;
    var ds, hs := DeviceNodes(p.devices, net), HostNodes(p.hosts, net);
    DeviceNodesDistinct(p.devices, net);
    HostNodesDistinct(p.hosts, net);
    forall i, j | 0 <= i < |ds| && 0 <= j < |hs| ensures ds[i].ip != hs[j].ip {
      DeviceNodeFacts(p.devices, net, ds[i]);
      HostNodeFacts(p.hosts, net, hs[j]);
    }
    forall n | n in AssetNodes(p, net) ensures IsHost(net, n.ip) {
      DeviceNodeFacts(p.devices, net, n);
      HostNodeFacts(p.hosts, net, n);
    }
  }

  /** Ascending by address; addresses are distinct, so the order is unique. */
  ghost predicate Ascending(nodes: seq<Node>) {
    forall i, j :: 0 <= i < j < |nodes| ==> nodes[i].ip < nodes[j].ip
  }

  lemma AscendingSnoc(nodes: seq<Node>, n: Node)
    requires Ascending(nodes) && forall k :: k in nodes ==> k.ip < n.ip
    ensures Ascending(nodes + [n])
  {
    assert forall i :: 0 <= i < |nodes| ==> nodes[i] in nodes;
  }

  method SortNodes(nodes: seq<Node>) returns (r: seq<Node>)
    requires DistinctIps(nodes)
    ensures forall n :: n in r <==> n in nodes
    ensures Ascending(r)
  {
    r := [];
    var rest := set n | n in nodes;
    SameIpSameNode(nodes);
    hide DistinctIps, Ascending;
    AscendingNone();
    while rest != {}
      invariant (forall n :: n in rest ==> n in nodes) && forall n :: n in r <==> n in nodes && n !in rest
      invariant Ascending(r) && forall k, n :: k in r && n in rest ==> k.ip < n.ip
      decreases |rest|
    {
      ghost var least := LeastNode(rest);
      var n :| n in rest && forall k :: k in rest ==> n.ip <= k.ip;
      assert forall k :: k in rest - {n} ==> n.ip < k.ip;
      AscendingSnoc(r, n);
      r := r + [n];
      rest := rest - {n};
    }
  }

  lemma AscendingNone()
    ensures Ascending([])
  {
  }

  lemma SameIpSameNode(nodes: seq<Node>)
    requires DistinctIps(nodes)
    ensures forall a, b :: a in nodes && b in nodes && a.ip == b.ip ==> a == b
  {
  }

  lemma {:induction false} LeastNode(s: set<Node>) returns (least: Node)
    requires s != {}
    ensures least in s && forall n :: n in s ==> least.ip <= n.ip
  {
    least :| least in s;
    if s != {least} {
      var rest := LeastNode(s - {least});
      assert forall n :: n in s ==> n == least || n in s - {least};
      least := if least.ip <= rest.ip then least else rest;
    }
  }

  function ZoneKeys(p: Plan): set<Block> {
    (set d | d in p.devices :: d.zone) + (set h | h in p.hosts :: h.zone)
  }

  /** Everything planned takes part: each asset, and beside assets only stations and stand-ins. */
  ghost predicate Casts(p: Plan, done: set<Block>, stationMac: u32 -> Mac, nodes: seq<Node>) {
    && DistinctIps(nodes)
    && (forall d :: d in p.devices && d.zone in done ==> Node(d.ip, d.mac) in nodes)
    && (forall h :: h in p.hosts && h.zone in done ==> Node(h.ip, h.mac) in nodes)
    && (forall n :: n in nodes ==>
          exists z :: z in done && InBlock(z, n.ip) && (n in AssetNodes(p, z) || IsStandIn(z, n, stationMac)))
  }

  /** A zone's cast: its assets by ascending address, behind whatever synthetic node it needs. */
  ghost predicate IsCast(p: Plan, net: Block, stationMac: u32 -> Mac, nodes: seq<Node>) {
    exists reals :: Ascending(reals) && (forall n :: n in reals <==> n in AssetNodes(p, net)) &&
        nodes == Cast(reals, net, stationMac)
  }

  /** The zones taken so far, all those with an asset but for `rest`, in ascending rank, each with its cast. */
  ghost predicate ZonesInOrder(p: Plan, rank: Block -> nat, stationMac: u32 -> Mac, order: seq<Block>,
                               casts: seq<seq<Node>>,
                               rest: set<Block>) {
    && |casts| == |order|
    && (forall z :: z in order <==> z in ZoneKeys(p) && z !in rest)
    && (forall i, j :: 0 <= i < j < |order| ==> order[i] != order[j] && rank(order[i]) <= rank(order[j]))
    && (forall i :: 0 <= i < |order| ==> IsCast(p, order[i], stationMac, casts[i]))
  }

  function AllCells(casts: seq<seq<Node>>): seq<seq<Node>> {
    if casts == [] then [] else AllCells(casts[..|casts| - 1]) + Cells(casts[|casts| - 1], CELL_SIZE)
  }

  lemma ZoneTaken(p: Plan, rank: Block -> nat, stationMac: u32 -> Mac, order: seq<Block>, casts: seq<seq<Node>>,
                  rest: set<Block>,
                  net: Block, reals: seq<Node>)
    requires ZonesInOrder(p, rank, stationMac, order, casts, rest) && net in rest && net in ZoneKeys(p)
    requires forall z :: z in order ==> rank(z) <= rank(net)
    requires Ascending(reals) && forall n :: n in reals <==> n in AssetNodes(p, net)
    ensures ZonesInOrder(p, rank, stationMac, order + [net], casts + [Cast(reals, net, stationMac)], rest - {net})
    ensures AllCells(casts + [Cast(reals, net, stationMac)]) ==
              AllCells(casts) + Cells(Cast(reals, net, stationMac), CELL_SIZE)
  {
    hide Ascending, AssetNodes, Cast, Cells;
    assert IsCast(p, net, stationMac, Cast(reals, net, stationMac));
    assert (casts + [Cast(reals, net, stationMac)])[..|casts|] == casts;
    assert forall i :: 0 <= i < |order| ==> order[i] in order;
  }

  lemma NoZoneTaken(p: Plan, rank: Block -> nat, stationMac: u32 -> Mac)
    ensures ZonesInOrder(p, rank, stationMac, [], [], ZoneKeys(p)) && AllCells([]) == []
  {
  }

  lemma {:induction false} LeastRanked(s: set<Block>, rank: Block -> nat) returns (least: Block)
    requires s != {}
    ensures least in s && forall z :: z in s ==> rank(least) <= rank(z)
  {
    least :| least in s;
    if s != {least} {
      var other := LeastRanked(s - {least}, rank);
      if rank(other) < rank(least) {
        least := other;
      }
    }
  }

  /**
   The communication graph of a ledger, zone by zone in the order of the zones' text, which `rank`
   stands for. `order`, `casts` and `cells` say how it was built.
   */
  method ArpEdges(p: Plan, rank: Block -> nat, stationMac: u32 -> Mac, ghost prefix: Prefix)
    returns (edges: seq<Edge>, ghost order: seq<Block>, ghost casts: seq<seq<Node>>, ghost cells: seq<seq<Node>>)
    requires Inv(prefix, p)
    ensures ZonesInOrder(p, rank, stationMac, order, casts, {})
    ensures cells == AllCells(casts) && edges == AllEdges(cells) && WellCelled(cells)
    ensures Casts(p, ZoneKeys(p), stationMac, AllNodes(cells))
    ensures forall d :: d in p.devices ==> Node(d.ip, d.mac) in Owners(edges)
    ensures forall h :: h in p.hosts ==> Node(h.ip, h.mac) in Owners(edges)
  {
    hide Inv, Casts, WellCelled, AssetNodes, Cast, AllEdges, AllNodes, Cells, AllCells, ZonesInOrder, Ascending;
    edges, order, casts, cells := [], [], [], [];
    var rest := ZoneKeys(p);
    ghost var keys := rest;
    NothingCast(p, stationMac);
    NoZoneTaken(p, rank, stationMac);
    while rest != {}
      invariant rest <= keys && cells == AllCells(casts) && edges == AllEdges(cells) && WellCelled(cells)
      invariant Casts(p, keys - rest, stationMac, AllNodes(cells))
      invariant ZonesInOrder(p, rank, stationMac, order, casts, rest)
      invariant forall y, z :: y in order && z in rest ==> rank(y) <= rank(z)
      decreases |rest|
    {
      ghost var least := LeastRanked(rest, rank);
      var net :| net in rest && forall z :: z in rest ==> rank(net) <= rank(z);
      AssetNodesOk(prefix, p, net);
      var reals := SortNodes(AssetNodes(p, net));
      var nodes := Cast(reals, net, stationMac);
      var zoneCells := CellsNoOrphan(nodes, CELL_SIZE);
      AscendingDistinct(reals);
      ZoneCast(prefix, p, keys - rest, net, stationMac, reals, AllNodes(cells));
      CellsJoin(cells, nodes);
      ZoneTaken(p, rank, stationMac, order, casts, rest, net, reals);
      var more := BindCells(zoneCells);
      cells := cells + zoneCells;
      edges := edges + more;
      order, casts := order + [net], casts + [nodes];
      assert keys - (rest - {net}) == keys - rest + {net};
      rest := rest - {net};
    }
    assert keys - {} == keys;
    AssetsOwn(p, stationMac, cells);
  }

  lemma AscendingDistinct(nodes: seq<Node>)
    requires Ascending(nodes)
    ensures DistinctIps(nodes)
  {
  }

  /** Every asset answers for itself: it owns an edge. */
  lemma AssetsOwn(p: Plan, stationMac: u32 -> Mac, cells: seq<seq<Node>>)
    requires WellCelled(cells) && Casts(p, ZoneKeys(p), stationMac, AllNodes(cells))
    ensures forall d :: d in p.devices ==> Node(d.ip, d.mac) in Owners(AllEdges(cells))
    ensures forall h :: h in p.hosts ==> Node(h.ip, h.mac) in Owners(AllEdges(cells))
  {
    hide WellCelled, AllNodes, AllEdges, AssetNodes, InBlock, IsStandIn, Owners;
    EveryNodeOwnsOnce(cells);
    forall n | n in AllNodes(cells) ensures n in Owners(AllEdges(cells)) {
      assert n in multiset(Owners(AllEdges(cells)));
    }
    assert forall d :: d in p.devices ==> d.zone in ZoneKeys(p);
    assert forall h :: h in p.hosts ==> h.zone in ZoneKeys(p);
  }

  lemma NothingCast(p: Plan, stationMac: u32 -> Mac)
    ensures Casts(p, ZoneKeys(p) - ZoneKeys(p), stationMac, AllNodes([])) && WellCelled([]) && AllEdges([]) == []
  {
  }

  lemma CellsJoin(cells: seq<seq<Node>>, nodes: seq<Node>)
    requires WellCelled(cells) && |nodes| >= 2
    ensures var more := Cells(nodes, CELL_SIZE);
            && WellCelled(cells + more)
            && (forall i :: 0 <= i < |more| ==> more[i] != [])
            && AllNodes(cells + more) == AllNodes(cells) + nodes
            && AllEdges(cells + more) == AllEdges(cells) + AllEdges(more)
  {
    var more := Cells(nodes, CELL_SIZE);
    CellsPartition(nodes, CELL_SIZE);
    NoOrphanIff(nodes, CELL_SIZE);
    JoinNodes(cells, more);
    JoinEdges(cells, more);
    FlattenIsAll(more);
    assert forall c :: c in cells + more <==> c in cells || c in more;
    forall i | 0 <= i < |more| ensures more[i] != [] {
      assert more[i] in more;
    }
  }

  lemma {:induction false} JoinNodes(cells: seq<seq<Node>>, more: seq<seq<Node>>)
    ensures AllNodes(cells + more) == AllNodes(cells) + AllNodes(more)
  {
    if more == [] {
      assert cells + more == cells;
    } else {
      var n := |more| - 1;
      JoinNodes(cells, more[..n]);
      assert (cells + more)[..|cells + more| - 1] == cells + more[..n];
      assert AllNodes(cells) + AllNodes(more[..n]) + more[n] == AllNodes(cells) + (AllNodes(more[..n]) + more[n]);
    }
  }

  lemma AllEdgesSnoc(cells: seq<seq<Node>>, cell: seq<Node>)
    ensures AllEdges(cells + [cell]) == AllEdges(cells) + CellEdges(cell)
  {
    assert (cells + [cell])[..|cells|] == cells;
  }

  lemma {:induction false} JoinEdges(cells: seq<seq<Node>>, more: seq<seq<Node>>)
    ensures AllEdges(cells + more) == AllEdges(cells) + AllEdges(more)
  {
    hide CellEdges, AllEdges;
    if more == [] {
      NoEdges();
      assert cells + more == cells;
    } else {
      var front, last := more[..|more| - 1], more[|more| - 1];
      assert more == front + [last] && cells + more == cells + front + [last];
      JoinEdges(cells, front);
      AllEdgesSnoc(front, last);
      AllEdgesSnoc(cells + front, last);
    }
  }

  lemma NoEdges()
    ensures AllEdges([]) == []
  {
  }

  lemma {:induction false} FlattenIsAll(cells: seq<seq<Node>>)
    ensures Flatten(cells) == AllNodes(cells)
  {
    if cells != [] {
      FlattenIsAll(cells[1..]);
      JoinNodes([cells[0]], cells[1..]);
      assert [cells[0]] + cells[1..] == cells;
      assert AllNodes([cells[0]]) == cells[0] by { assert [cells[0]][..0] == []; assert AllNodes([]) == []; }
    }
  }

  /** One more zone joins: its cast shares no address with any zone before it. */
  lemma ZoneCast(prefix: Prefix, p: Plan, done: set<Block>, net: Block, stationMac: u32 -> Mac, reals: seq<Node>,
                 nodes: seq<Node>)
    requires Inv(prefix, p) && done <= ZoneKeys(p) && net in ZoneKeys(p) && net !in done
    requires DistinctIps(reals) && forall n :: n in reals <==> n in AssetNodes(p, net)
    requires forall n :: n in AssetNodes(p, net) ==> IsHost(net, n.ip)
    requires Casts(p, done, stationMac, nodes)
    ensures |Cast(reals, net, stationMac)| >= 2
    ensures Casts(p, done + {net}, stationMac, nodes + Cast(reals, net, stationMac))
  {
    hide Inv, IsHost, InBlock, AssetNodes, Cast, Placed, IsStandIn;
    KeyIsZone(prefix, p, net);
    KeyHasAsset(p, net);
    CastFacts(reals, net, stationMac);
    var c := Cast(reals, net, stationMac);
    forall i, j | 0 <= i < |nodes| && 0 <= j < |c| ensures nodes[i].ip != c[j].ip {
      assert nodes[i] in nodes && c[j] in c;
      var z :| z in done && InBlock(z, nodes[i].ip);
      BlocksSeparate(prefix, p, z, net, nodes[i].ip);
    }
    forall n | n in nodes + c
      ensures exists z :: z in done + {net} && InBlock(z, n.ip)
                          && (n in AssetNodes(p, z) || IsStandIn(z, n, stationMac))
    {
      if n in nodes {
        var z :| z in done && InBlock(z, n.ip) && (n in AssetNodes(p, z) || IsStandIn(z, n, stationMac));
        assert z in done + {net};
      } else {
        assert n in c && net in done + {net};
      }
    }
    AssetsOfZone(p, net);
  }

  lemma AssetsOfZone(p: Plan, net: Block)
    ensures forall d :: d in p.devices && d.zone == net ==> Node(d.ip, d.mac) in AssetNodes(p, net)
    ensures forall h :: h in p.hosts && h.zone == net ==> Node(h.ip, h.mac) in AssetNodes(p, net)
  {
    forall d | d in p.devices && d.zone == net ensures Node(d.ip, d.mac) in AssetNodes(p, net) {
      DeviceNodeFacts(p.devices, net, Node(d.ip, d.mac));
    }
    forall h | h in p.hosts && h.zone == net ensures Node(h.ip, h.mac) in AssetNodes(p, net) {
      HostNodeFacts(p.hosts, net, Node(h.ip, h.mac));
    }
  }

  lemma KeyHasAsset(p: Plan, net: Block)
    requires net in ZoneKeys(p)
    ensures exists n :: n in AssetNodes(p, net)
  {
    hide AssetNodes;
    AssetsOfZone(p, net);
    if d :| d in p.devices && d.zone == net {
      assert Node(d.ip, d.mac) in AssetNodes(p, net);
    } else {
      var h :| h in p.hosts && h.zone == net;
      assert Node(h.ip, h.mac) in AssetNodes(p, net);
    }
  }

  lemma KeyIsZone(prefix: Prefix, p: Plan, net: Block)
    requires Inv(prefix, p) && net in ZoneKeys(p)
    ensures HasNet(p.subnets, net) && net.prefix == prefix && Placed(net) && 8 <= prefix <= 30
  {
    hide IsHost, Placed, AllApart, DistinctDevices, DistinctHosts, Separate;
    assert forall d :: d in p.devices ==> DeviceOk(p.subnets, d);
    assert forall h :: h in p.hosts ==> HostOk(p.subnets, h);
  }

  lemma BlocksSeparate(prefix: Prefix, p: Plan, a: Block, b: Block, ip: u32)
    requires Inv(prefix, p) && a in ZoneKeys(p) && b in ZoneKeys(p) && a != b && InBlock(a, ip)
    ensures !InBlock(b, ip)
  {
    KeyIsZone(prefix, p, a);
    KeyIsZone(prefix, p, b);
    hide Placed, Room, DeviceOk, HostOk;
    var nets := ZoneNets(p.subnets);
    var i :| 0 <= i < |nets| && nets[i] == a;
    var j :| 0 <= j < |nets| && nets[j] == b;
    assert i < j ==> Apart(nets[i], nets[j]);
    assert j < i ==> Apart(nets[j], nets[i]);
  }
}
