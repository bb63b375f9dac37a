/** Host slots of a zone: which addresses may be handed out, and the next one that is free. */
module Placement {
  import opened Wire
  import opened Arith
  import opened Net
  import opened Allocator

  /** First and last host address; only /31 and /32 hand out the network and broadcast addresses. */
  function FirstHost(net: Block): (r: u32) {
    var n := NetworkOf(net.net, net.prefix);
    if net.prefix < 31 then NetworkFits(net.net, net.prefix); n + 1 else n
  }

  function LastHost(net: Block): (r: u32) {
    var n := NetworkOf(net.net, net.prefix);
    NetworkFits(net.net, net.prefix);
    if net.prefix < 31 then n + Size(net.prefix) - 2 else n + Size(net.prefix) - 1
  }

  lemma NetworkFits(addr: u32, p: Prefix)
    ensures NetworkOf(addr, p) % Size(p) == 0
    ensures NetworkOf(addr, p) + Size(p) <= 0x1_0000_0000
    ensures p < 31 ==> Size(p) >= 4
  {
    var s := Size(p);
    hide Size;
    var q, r := Split(addr, s);
    ModOfMultiple(q, s);
    assert NetworkOf(addr, p) == q * s;
    BlockFits(q, s - 1, p);
    if p < 31 {
      SmallestBlock(p);
    }
  }

  lemma SmallestBlock(p: Prefix)
    requires p < 31
    ensures Size(p) >= 4
  {
    Pow2Monotone(2, 32 - p);
    Pow2Values();
  }

  lemma ModOfMultiple(q: nat, s: nat)
    requires s > 0
    ensures q * s % s == 0
  {
    var k, r := Split(q * s, s);
    if k < q {
      MulMonotone(k + 1, q, s);
    } else if k > q {
      MulMonotone(q, k, s);
    }
  }

  predicate IsHost(net: Block, ip: u32) {
    FirstHost(net) <= ip <= LastHost(net)
  }

  /** The hosts of a block: all of it less its first and last address, which a /31 or /32 has none to spare of. */
  lemma HostRange(net: Block, ip: u32)
    ensures var first := net.net - net.net % Size(net.prefix);
            var last := first + Size(net.prefix) - 1;
            IsHost(net, ip) <==> if net.prefix >= 31 then first <= ip <= last else first < ip < last
    ensures net.prefix < 31 ==> (IsHost(net, ip) <==> IsUsableHost(net, ip))
  {
    NetworkFits(net.net, net.prefix);
  }

  /** Inside the zone and neither its network nor its broadcast address. */
  predicate IsUsableHost(net: Block, ip: u32) {
    var n := NetworkOf(net.net, net.prefix);
    n < ip < n + Size(net.prefix) - 1
  }

  /** The least host of a zone that a test accepts, scanning in address order. */
  method FirstHostWhere(net: Block, ok: u32 -> bool) returns (r: Option<u32>)
    ensures r.Some? ==> IsHost(net, r.value) && ok(r.value) && forall ip :: FirstHost(net) <= ip < r.value ==> !ok(ip)
    ensures r == None ==> forall ip :: IsHost(net, ip) ==> !ok(ip)
  {
    hide FirstHost, LastHost;
    var last := LastHost(net);
    var ip: int := FirstHost(net);
    while ip <= last
      invariant FirstHost(net) <= ip
      invariant forall k: u32 :: FirstHost(net) <= k < ip ==> !ok(k)
    {
      if ok(ip) {
        return Some(ip);
      }
      ip := ip + 1;
    }
    r := None;
  }

  /** Every host address below `bound` is taken. */
  ghost predicate NoneFreeBelow(net: Block, taken: set<u32>, bound: u32) {
    forall ip: u32 :: IsHost(net, ip) && ip < bound ==> ip in taken
  }

  /** The offset-preserving address if it is free, else the next free host; `None` when full. */
  method PlaceInZone(net: Block, taken: set<u32>, desired: u32) returns (r: Option<u32>)
    ensures r.Some? ==> IsHost(net, r.value) && r.value !in taken
    ensures r == None <==> forall ip :: IsHost(net, ip) ==> ip in taken
    ensures var want := NetworkOf(net.net, net.prefix) + HostPart(desired, net.prefix);
            0 <= want < 0x1_0000_0000 && IsUsableHost(net, want) && want !in taken ==> r == Some(want)
    ensures r.Some? && r.value != NetworkOf(net.net, net.prefix) + HostPart(desired, net.prefix) ==>
              NoneFreeBelow(net, taken, r.value)
  {
    NetworkFits(net.net, net.prefix);
    var want := Join(NetworkOf(net.net, net.prefix), HostPart(desired, net.prefix), net.prefix);
    if IsUsableHost(net, want) && want !in taken {
      UsableIsHost(net, want);
      return Some(want);
    }
    var free := (ip: u32) => ip !in taken;
    r := FirstHostWhere(net, free);
    if r.Some? {
      FirstIsLowest(net, taken, free, r.value);
    }
  }

  lemma FirstIsLowest(net: Block, taken: set<u32>, free: u32 -> bool, found: u32)
    requires forall ip :: FirstHost(net) <= ip < found ==> !free(ip)
    requires forall ip :: free(ip) <==> ip !in taken
    ensures NoneFreeBelow(net, taken, found)
  {
    hide FirstHost, LastHost;
    forall ip: u32 | IsHost(net, ip) && ip < found ensures ip in taken {
      assert !free(ip);
    }
  }

  lemma UsableIsHost(net: Block, ip: u32)
    requires IsUsableHost(net, ip)
    ensures IsHost(net, ip)
  {
  }
}
