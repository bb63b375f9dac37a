/** The topology-preserving random remap: every host of a capture moves to a fresh block in 10/8. */
module Remap {
  import opened Wire
  import opened Arith
  import opened Net
  import opened Rng
  import opened Allocator
  import opened HostMap
  import opened Captures

  /** The subnet an address is grouped under. */
  datatype Group = Group(prefix: Prefix, net: u32)

  predicate Contains(hint: Block, addr: u32) {
    NetworkOf(addr, hint.prefix) == NetworkOf(hint.net, hint.prefix)
  }

  /** The first containing hint of prefix 8 or longer, else the address's /24. */
  function GroupOf(addr: u32, hints: seq<Block>): (g: Group)
    ensures 8 <= g.prefix && g.net == NetworkOf(addr, g.prefix)
  {
    if hints == [] then Group(24, NetworkOf(addr, 24))
    else if hints[0].prefix >= 8 && Contains(hints[0], addr) then
      Group(hints[0].prefix, NetworkOf(addr, hints[0].prefix))
    else GroupOf(addr, hints[1..])
  }

  /** The address lies in the hint's block: no less than its first address, within its size. */
  predicate InHint(hint: Block, addr: u32) {
    var first := hint.net - hint.net % Size(hint.prefix);
    8 <= hint.prefix && first <= addr < first + Size(hint.prefix)
  }

  ghost predicate FirstHint(hints: seq<Block>, i: nat, addr: u32) {
    i < |hints| && InHint(hints[i], addr) && forall j :: 0 <= j < i ==> !InHint(hints[j], addr)
  }

  /** The subnet of an address: the block of the first hint that holds it, else its /24. */
  ghost predicate SubnetIs(hints: seq<Block>, addr: u32, prefix: Prefix, first: u32) {
    && (forall i: nat :: FirstHint(hints, i, addr) ==>
          prefix == hints[i].prefix && first == hints[i].net - hints[i].net % Size(prefix))
    && (Unhinted(hints, addr) ==> prefix == 24 && first == addr - addr % 0x100)
  }

  ghost predicate Unhinted(hints: seq<Block>, addr: u32) {
    forall i :: 0 <= i < |hints| ==> !InHint(hints[i], addr)
  }

  lemma ContainsIsInHint(hint: Block, addr: u32)
    ensures InHint(hint, addr) <==> 8 <= hint.prefix && Contains(hint, addr)
    ensures InHint(hint, addr) ==>
              NetworkOf(addr, hint.prefix) == hint.net - hint.net % Size(hint.prefix)
  {
    var s := Size(hint.prefix);
    hide Size, NetworkOf;
    var q, r := Split(hint.net, s);
    var k, o := Split(addr, s);
    if q * s <= addr < q * s + s {
      assert (q + 1) * s == q * s + s;
      Quotient(addr, s, q);
    }
  }

  /** Grouping follows the hints, in order. */
  lemma {:induction false} GroupIsSubnet(addr: u32, hints: seq<Block>)
    ensures SubnetIs(hints, addr, GroupOf(addr, hints).prefix, GroupOf(addr, hints).net)
  {
    hide NetworkOf, Contains, InHint, Size;
    if hints == [] {
      SizeOf24();
    } else {
      ContainsIsInHint(hints[0], addr);
      if InHint(hints[0], addr) {
        assert FirstHint(hints, 0, addr);
      } else {
        GroupIsSubnet(addr, hints[1..]);
        LaterHints(addr, hints);
      }
    }
  }

  lemma SizeOf24()
    ensures Size(24) == 0x100
  {
    Pow2Values();
    Pow2Add(4, 4);
  }

  lemma LaterHints(addr: u32, hints: seq<Block>)
    requires hints != [] && !InHint(hints[0], addr)
    ensures forall i: nat :: i > 0 ==> (FirstHint(hints, i, addr) <==> FirstHint(hints[1..], i - 1, addr))
    ensures !FirstHint(hints, 0, addr)
    ensures Unhinted(hints, addr) <==> Unhinted(hints[1..], addr)
  {
    hide InHint;
    assert hints == [hints[0]] + hints[1..];
  }

  // ----- Enumerating hosts --------------------------------------------------------------------

  /** The relocatable addresses one frame names. */
  function HostsOfFrame(b: seq<byte>): set<u32> {
    match Endpoints(b)
    case None => {}
    case Some((s, d)) => (if IsRemappable(s) then {s} else {}) + (if IsRemappable(d) then {d} else {})
  }

  ghost function HostsOf(frames: seq<seq<byte>>): set<u32> {
    if frames == [] then {} else HostsOf(frames[..|frames| - 1]) + HostsOfFrame(frames[|frames| - 1])
  }

  lemma {:induction false} HostsOfMember(frames: seq<seq<byte>>, i: nat)
    requires i < |frames|
    ensures HostsOfFrame(frames[i]) <= HostsOf(frames)
  {
    var n := |frames| - 1;
    if i < n {
      HostsOfMember(frames[..n], i);
    }
  }

  /** The hosts of a capture: the relocated addresses some frame names at either end. */
  lemma {:induction false} HostsExactly(frames: seq<seq<byte>>, h: u32)
    ensures h in HostsOf(frames) <==>
              IsRemappable(h) && exists i :: 0 <= i < |frames| && Endpoints(frames[i]).Some?
                                             && (h == Endpoints(frames[i]).value.0 || h == Endpoints(frames[i]).value.1)
  {
    hide Endpoints, IsRemappable;
    if frames != [] {
      HostsExactly(frames[..|frames| - 1], h);
    }
  }

  method EnumerateHosts(packets: seq<array<byte>>, hints: seq<Block>) returns (groupByHost: map<u32, Group>)
    ensures groupByHost.Keys == HostsOf(FramesOf(packets))
    ensures forall h :: h in groupByHost ==> groupByHost[h] == GroupOf(h, hints)
    ensures forall g :: g in groupByHost.Values ==> 8 <= g.prefix
  {
    hide Endpoints, GroupOf;
    groupByHost := map[];
    for i := 0 to |packets|
      invariant groupByHost.Keys == HostsOf(FramesOf(packets)[..i])
      invariant forall h :: h in groupByHost ==> groupByHost[h] == GroupOf(h, hints)
    {
      assert FramesOf(packets)[..i + 1][..i] == FramesOf(packets)[..i];
      var ends := Endpoints(packets[i][..]);
      if ends.Some? {
        var (s, d) := ends.value;
        if IsRemappable(s) {
          groupByHost := groupByHost[s := GroupOf(s, hints)];
        }
        if IsRemappable(d) {
          groupByHost := groupByHost[d := GroupOf(d, hints)];
        }
      }
    }
    assert FramesOf(packets)[..|packets|] == FramesOf(packets);
  }

  // ----- Serving groups widest-first ----------------------------------------------------------

  predicate Before(g: Group, h: Group) {
    g.prefix < h.prefix || (g.prefix == h.prefix && g.net <= h.net)
  }

  lemma {:induction false} LeastGroup(s: set<Group>) returns (g: Group)
    requires s != {}
    ensures g in s && forall h :: h in s ==> Before(g, h)
  {
    var any :| any in s;
    if s == {any} {
      return any;
    }
    var least := LeastGroup(s - {any});
    g := if Before(any, least) then any else least;
    assert forall h :: h in s ==> h == any || h in s - {any};
  }

  /** Widest first, and by network among equals. */
  ghost predicate Ascending(groups: seq<Group>) {
    forall i, j :: 0 <= i < j < |groups| ==>
      groups[i].prefix < groups[j].prefix || (groups[i].prefix == groups[j].prefix && groups[i].net < groups[j].net)
  }

  /** The distinct groups in ascending (prefix, network) order. */
  method SortGroups(s: set<Group>) returns (sorted: seq<Group>)
    ensures forall g :: g in sorted <==> g in s
    ensures forall i, j :: 0 <= i < j < |sorted| ==> sorted[i] != sorted[j] && Before(sorted[i], sorted[j])
    ensures Ascending(sorted)
  {
    sorted := [];
    var rest := s;
    while rest != {}
      invariant rest <= s && forall g :: g in sorted <==> g in s && g !in rest
      invariant forall i, j :: 0 <= i < j < |sorted| ==> sorted[i] != sorted[j] && Before(sorted[i], sorted[j])
      invariant forall i, h :: 0 <= i < |sorted| && h in rest ==> Before(sorted[i], h)
      decreases |rest|
    {
      ghost var least := LeastGroup(rest);
      var g :| g in rest && forall h :: h in rest ==> Before(g, h);
      sorted := sorted + [g];
      rest := rest - {g};
    }
  }

  // ----- The host map -------------------------------------------------------------------------

  ghost function Prefixes(groups: seq<Group>): (r: seq<Prefix>)
    ensures |r| == |groups|
  {
    seq(|groups|, i requires 0 <= i < |groups| => groups[i].prefix)
  }

  /** `m` moves every host into its group's new block at the offset it had in the old one. */
  ghost predicate KeepsOffsets(m: map<u32, u32>, groupByHost: map<u32, Group>, netOf: map<Group, u32>) {
    && m.Keys == groupByHost.Keys
    && forall h :: h in m ==>
         var g := groupByHost[h];
         g in netOf && m[h] == netOf[g] + HostPart(h, g.prefix)
  }

  ghost predicate Injective(m: map<u32, u32>) {
    forall h, k :: h in m && k in m && m[h] == m[k] ==> h == k
  }

  /** A placed network is aligned for the group's own prefix, also above /30. */
  lemma PlacedAligned(b: Block)
    requires Placed(b)
    ensures b.net % Size(b.prefix) == 0
  {
    var k: nat :| b.net == k * Room(b.prefix);
    Pow2Add(b.prefix - Clamp(b.prefix), 32 - b.prefix);
    var m := Pow2(b.prefix - Clamp(b.prefix));
    hide Size, Room;
    MultipleOf(k, m, Size(b.prefix));
  }

  lemma MultipleOf(k: nat, m: nat, s: nat)
    requires s > 0
    ensures k * (m * s) % s == 0
  {
    var q, r := Split(k * (m * s), s);
    assert k * (m * s) == k * m * s;
    if q < k * m {
      MulMonotone(q + 1, k * m, s);
    } else if q > k * m {
      MulMonotone(k * m, q, s);
    }
  }

  /** Two hosts of one group keep different offsets; hosts of different groups land in blocks apart. */
  lemma HostMapInjective(m: map<u32, u32>, groupByHost: map<u32, Group>, groups: seq<Group>, nets: seq<u32>,
                         netOf: map<Group, u32>, hints: seq<Block>)
    requires |groups| == |nets| && forall i :: 0 <= i < |nets| ==> Placed(Block(nets[i], groups[i].prefix))
    requires AllApart(Blocks(Prefixes(groups), nets))
    requires forall h :: h in groupByHost ==> groupByHost[h] == GroupOf(h, hints) && groupByHost[h] in groups
    requires forall i :: 0 <= i < |groups| ==> groups[i] in netOf && netOf[groups[i]] == nets[i]
    requires KeepsOffsets(m, groupByHost, netOf)
    ensures Injective(m)
  {
    hide GroupOf, Room, Size, Placed;
    forall h, k | h in m && k in m && m[h] == m[k]
      ensures h == k
    {
      var i :| 0 <= i < |groups| && groups[i] == groupByHost[h];
      var j :| 0 <= j < |groups| && groups[j] == groupByHost[k];
      var bs := Blocks(Prefixes(groups), nets);
      RealSize(groups[i].prefix);
      RealSize(groups[j].prefix);
      assert i < j ==> Apart(bs[i], bs[j]);
      assert j < i ==> Apart(bs[j], bs[i]);
      assert groups[i] == groups[j];
      assert h == NetworkOf(h, groups[i].prefix) + HostPart(h, groups[i].prefix);
      assert k == NetworkOf(k, groups[i].prefix) + HostPart(k, groups[i].prefix);
    }
  }

  /** `m` gives every host an address in its own group's block, at its old offset. */
  ghost predicate IsHostMap(m: map<u32, u32>, groups: seq<Group>, nets: seq<u32>, hints: seq<Block>)
    requires |groups| == |nets|
  {
    forall h :: h in m ==>
      exists i :: 0 <= i < |groups| && groups[i] == GroupOf(h, hints) && m[h] == nets[i] + HostPart(h, groups[i].prefix)
  }

  /** Under one hint, or both under none and in one /24. */
  ghost predicate SameSubnet(hints: seq<Block>, h: u32, k: u32) {
    || (exists i: nat :: FirstHint(hints, i, h) && FirstHint(hints, i, k))
    || (Unhinted(hints, h) && Unhinted(hints, k) && h - h % 0x100 == k - k % 0x100)
  }

  /** Neighbours stay neighbours: hosts of one subnet keep their distance. */
  ghost predicate DistancesKept(m: map<u32, u32>, hints: seq<Block>) {
    forall h, k :: h in m && k in m && SameSubnet(hints, h, k) ==> m[h] as int - m[k] as int == h as int - k as int
  }

  lemma SubnetGroups(hints: seq<Block>, h: u32, k: u32)
    requires SameSubnet(hints, h, k)
    ensures GroupOf(h, hints) == GroupOf(k, hints)
  {
    hide GroupOf, FirstHint, Unhinted, Size;
    GroupIsSubnet(h, hints);
    GroupIsSubnet(k, hints);
  }

  lemma SubnetsKept(m: map<u32, u32>, groups: seq<Group>, nets: seq<u32>, hints: seq<Block>)
    requires |groups| == |nets| && IsHostMap(m, groups, nets, hints)
    requires forall i, j :: 0 <= i < j < |groups| ==> groups[i] != groups[j]
    ensures DistancesKept(m, hints)
  {
    hide GroupOf, SameSubnet, Size, IsHostMap, HostPart, NetworkOf;
    forall h, k | h in m && k in m && SameSubnet(hints, h, k)
      ensures m[h] as int - m[k] as int == h as int - k as int
    {
      SubnetGroups(hints, h, k);
      var i := BlockFor(m, groups, nets, hints, h);
      var j := BlockFor(m, groups, nets, hints, k);
      assert i == j;
    }
  }

  lemma BlockFor(m: map<u32, u32>, groups: seq<Group>, nets: seq<u32>, hints: seq<Block>, h: u32) returns (i: nat)
    requires |groups| == |nets| && IsHostMap(m, groups, nets, hints) && h in m
    ensures i < |groups| && groups[i] == GroupOf(h, hints)
    ensures m[h] as int == nets[i] as int + (h as int - GroupOf(h, hints).net as int)
  {
    hide GroupOf, Size;
    i :| 0 <= i < |groups| && groups[i] == GroupOf(h, hints) && m[h] == nets[i] + HostPart(h, groups[i].prefix);
    assert h == NetworkOf(h, groups[i].prefix) + HostPart(h, groups[i].prefix);
  }

  /**
   Remaps every host of a capture in place, then drops every frame that is not provably plan. The
   ghost result `m` is the host map that was used.
   */
  method RemapCapture(cap: Capture, hints: seq<Block>, rng: Rng, stableMac: u32 -> Mac, remapMac: bool)
    returns (hostCount: nat, groups: seq<Group>, nets: seq<u32>, ghost m: map<u32, u32>)
    requires Distinct(cap.packets)
    modifies cap, cap.packets, rng
    ensures Distinct(cap.packets) && forall p :: p in cap.packets ==> p in old(cap.packets)
    ensures m.Keys == HostsOf(old(FramesOf(cap.packets))) && hostCount == |m|
    ensures forall g :: g in groups <==> exists h :: h in m && GroupOf(h, hints) == g
    ensures Ascending(groups) && forall i, j :: 0 <= i < j < |groups| ==> groups[i] != groups[j]
    ensures |nets| == |groups| && IsHostMap(m, groups, nets, hints) && DistancesKept(m, hints)
    ensures forall i :: 0 <= i < |nets| ==> Placed(Block(nets[i], groups[i].prefix))
    ensures AllApart(Blocks(Prefixes(groups), nets)) <==> TotalRoom(Prefixes(groups)) <= POOL
    ensures TotalRoom(Prefixes(groups)) <= POOL ==> Injective(m)
    ensures FramesOf(cap.packets) == Survivors(old(FramesOf(cap.packets)), m, stableMac, remapMac)
    ensures remapMac ==> forall f :: f in FramesOf(cap.packets) ==> PlanFrame(f, m, stableMac)
    ensures forall f :: f in FramesOf(cap.packets) ==> ChecksumsHold(f)
  {
    hide *;
    ghost var frames := FramesOf(cap.packets);
    var groupByHost := EnumerateHosts(cap.packets, hints);
    groups := SortGroups(groupByHost.Values);
    var prefixes := PrefixesOf(groups);
    nets := AssignNets(prefixes, rng);
    var hostMap := BuildHostMap(groupByHost, groups, nets, hints);
    m := hostMap;
    SubnetsKept(m, groups, nets, hints);
    GroupsOccur(groupByHost, groups, hints);
    hostCount := |hostMap|;
    cap.RemapThrough(hostMap, stableMac, remapMac);
    AllMapped(frames, m);
    if remapMac {
      forall f | f in FramesOf(cap.packets) ensures PlanFrame(f, m, stableMac) {
        SurvivorsPlanned(frames, m, stableMac, f);
      }
    }
    forall f | f in FramesOf(cap.packets) ensures ChecksumsHold(f) {
      SurvivorsHold(frames, m, stableMac, remapMac, f);
    }
  }

  lemma GroupsOccur(groupByHost: map<u32, Group>, groups: seq<Group>, hints: seq<Block>)
    requires forall h :: h in groupByHost ==> groupByHost[h] == GroupOf(h, hints)
    requires forall g :: g in groups <==> g in groupByHost.Values
    ensures forall g :: g in groups <==> exists h :: h in groupByHost && GroupOf(h, hints) == g
  {
    hide GroupOf;
  }

  method PrefixesOf(groups: seq<Group>) returns (prefixes: seq<Prefix>)
    requires forall g :: g in groups ==> 8 <= g.prefix
    requires forall i, j :: 0 <= i < j < |groups| ==> Before(groups[i], groups[j])
    ensures prefixes == Prefixes(groups) && forall i :: 0 <= i < |groups| ==> prefixes[i] == groups[i].prefix
    ensures forall i :: 0 <= i < |prefixes| ==> 8 <= prefixes[i]
    ensures forall i, j :: 0 <= i < j < |prefixes| ==> prefixes[i] <= prefixes[j]
  {
    prefixes := seq(|groups|, i requires 0 <= i < |groups| => groups[i].prefix);
  }

  method NetTable(groups: seq<Group>, nets: seq<u32>) returns (netOf: map<Group, u32>)
    requires |groups| == |nets|
    requires forall i, j :: 0 <= i < j < |groups| ==> groups[i] != groups[j]
    ensures forall g :: g in netOf <==> g in groups
    ensures forall j :: 0 <= j < |groups| ==> netOf[groups[j]] == nets[j]
  {
    netOf := map[];
    for i := 0 to |groups|
      invariant forall g :: g in netOf <==> g in groups[..i]
      invariant forall j :: 0 <= j < i ==> groups[j] in netOf && netOf[groups[j]] == nets[j]
    {
      netOf := netOf[groups[i] := nets[i]];
    }
    assert groups[..|groups|] == groups;
  }

  method BuildHostMap(groupByHost: map<u32, Group>, groups: seq<Group>, nets: seq<u32>, ghost hints: seq<Block>)
    returns (m: map<u32, u32>)
    requires |groups| == |nets| && forall i :: 0 <= i < |nets| ==> Placed(Block(nets[i], groups[i].prefix))
    requires forall i, j :: 0 <= i < j < |groups| ==> groups[i] != groups[j]
    requires forall h :: h in groupByHost ==> groupByHost[h] == GroupOf(h, hints)
    requires forall g :: g in groups <==> g in groupByHost.Values
    ensures m.Keys == groupByHost.Keys
    ensures IsHostMap(m, groups, nets, hints)
    ensures AllApart(Blocks(Prefixes(groups), nets)) ==> Injective(m)
  {
    hide GroupOf, Placed, HostPart, Join, AllApart, Injective, Size;
    var netOf := NetTable(groups, nets);
    forall g | g in netOf ensures netOf[g] % Size(g.prefix) == 0 {
      var i :| 0 <= i < |groups| && groups[i] == g;
      PlacedAligned(Block(nets[i], g.prefix));
    }
    m := map h | h in groupByHost ::
      Join(netOf[groupByHost[h]], HostPart(h, groupByHost[h].prefix), groupByHost[h].prefix);
    HostMapKept(m, groupByHost, groups, nets, netOf, hints);
    if AllApart(Blocks(Prefixes(groups), nets)) {
      HostMapInjective(m, groupByHost, groups, nets, netOf, hints);
    }
  }

  lemma HostMapKept(m: map<u32, u32>, groupByHost: map<u32, Group>, groups: seq<Group>, nets: seq<u32>,
                    netOf: map<Group, u32>, hints: seq<Block>)
    requires |groups| == |nets|
    requires forall h :: h in groupByHost ==> groupByHost[h] == GroupOf(h, hints) && groupByHost[h] in groups
    requires forall i :: 0 <= i < |groups| ==> groups[i] in netOf && netOf[groups[i]] == nets[i]
    requires KeepsOffsets(m, groupByHost, netOf)
    ensures IsHostMap(m, groups, nets, hints)
  {
    hide GroupOf, HostPart;
    forall h | h in m
      ensures exists i :: 0 <= i < |groups| && groups[i] == GroupOf(h, hints) &&
                m[h] == nets[i] + HostPart(h, groups[i].prefix)
    {
      var i :| 0 <= i < |groups| && groups[i] == groupByHost[h];
    }
  }

  /** No unmapped host of the capture already has an address some host is mapped to. */
  ghost predicate NoStray(frames: seq<seq<byte>>, m: map<u32, u32>) {
    forall h :: h in HostsOf(frames) && h in m.Values ==> h in m
  }

  lemma AllMapped(frames: seq<seq<byte>>, m: map<u32, u32>)
    requires m.Keys == HostsOf(frames)
    ensures NoStray(frames, m)
  {
  }

  /** Plan equals wire, for a whole capture. */
  lemma SurvivorsPlanned(frames: seq<seq<byte>>, m: map<u32, u32>, mac: u32 -> Mac, f: seq<byte>)
    requires NoStray(frames, m)
    requires f in Survivors(frames, m, mac, true)
    ensures PlanFrame(f, m, mac)
  {
    hide PlanFrame, Rewritten, Coherent, Leaks, HostsOf;
    SurvivorsMember(frames, m, mac, true, f);
    var i :| 0 <= i < |frames| && f == Rewritten(frames[i], m, mac, true);
    SourceIsHost(frames, i);
    SurvivorIsPlanned(frames[i], m, mac);
  }

  /** No surviving frame carries a broken checksum that a repair could have fixed. */
  lemma SurvivorsHold(frames: seq<seq<byte>>, m: map<u32, u32>, mac: u32 -> Mac, remapMac: bool, f: seq<byte>)
    requires NoStray(frames, m)
    requires f in Survivors(frames, m, mac, remapMac)
    ensures ChecksumsHold(f)
  {
    hide ChecksumsHold, Rewritten, Coherent, Leaks, HostsOf;
    SurvivorsMember(frames, m, mac, remapMac, f);
    var i :| 0 <= i < |frames| && f == Rewritten(frames[i], m, mac, remapMac);
    SourceIsHost(frames, i);
    SurvivorHolds(frames[i], m, mac, remapMac);
  }

  /** A relocatable source address is one of the capture's hosts. */
  lemma SourceIsHost(frames: seq<seq<byte>>, i: nat)
    requires i < |frames|
    ensures Endpoints(frames[i]).Some? && IsRemappable(Endpoints(frames[i]).value.0) ==>
              Endpoints(frames[i]).value.0 in HostsOf(frames)
  {
    HostsOfMember(frames, i);
  }
}
