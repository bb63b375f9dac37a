/** Fresh non-overlapping blocks in 10/8 for the random remap and for fabricated zones. */
module Allocator {
  import opened Wire
  import opened Arith
  import opened Net
  import opened Rng

  const BASE: u32 := 0x0A00_0000
  const POOL: nat := 0x100_0000

  /** A network of some prefix; allocation rounds the prefix into 8..30. */
  datatype Block = Block(net: u32, prefix: Prefix)

  function Clamp(p: Prefix): (r: Prefix)
    ensures 8 <= r <= 30
  {
    if p < 8 then 8 else if p > 30 then 30 else p
  }

  /** A prefix in 8..30 stands; one outside moves to the nearer end. */
  lemma ClampNearest(p: Prefix)
    ensures 8 <= p <= 30 ==> Clamp(p) == p
    ensures p < 8 ==> Clamp(p) == 8
    ensures p > 30 ==> Clamp(p) == 30
  {
  }

  /** The aligned room a block of prefix `p` takes out of the pool. */
  function Room(p: Prefix): (r: nat)
    ensures 4 <= r
  {
    Pow2Monotone(2, 32 - Clamp(p));
    Pow2Values();
    Size(Clamp(p))
  }

  function SlotCount(p: Prefix): (r: nat)
    ensures r * Room(p) == POOL && r >= 1
  {
    Pow2Add(Clamp(p) - 8, 32 - Clamp(p));
    Pow2Values();
    Pow2(Clamp(p) - 8)
  }

  /** The `idx`-th candidate network: the pool base or-ed with a shifted index. */
  function Slot(p: Prefix, idx: nat): (r: u32)
    requires idx < SlotCount(p)
    ensures r == BASE + idx * Room(p) && r + Room(p) <= BASE + POOL
  {
    MulMonotone(idx + 1, SlotCount(p), Room(p));
    Pow2Values();
    OrDisjoint(24, 10, idx * Room(p));
    Or(BASE, idx * Room(p))
  }

  predicate Meets(net: u32, prefix: Prefix, b: Block) {
    net < b.net + Size(b.prefix) && b.net < net + Size(prefix)
  }

  predicate Overlaps(net: u32, prefix: Prefix, taken: seq<Block>) {
    exists i :: 0 <= i < |taken| && Meets(net, prefix, taken[i])
  }

  predicate FreeSlot(p: Prefix, idx: nat, taken: seq<Block>) {
    idx < SlotCount(p) && !Overlaps(Slot(p, idx), Clamp(p), taken)
  }

  /** Up to 256 random tries, then a scan of every slot, then the pool base as a last resort. */
  method PickNewNet(prefix: Prefix, rng: Rng, taken: seq<Block>) returns (net: u32)
    modifies rng
    ensures exists idx: nat :: idx < SlotCount(prefix) && net == Slot(prefix, idx)
    ensures (exists idx: nat :: FreeSlot(prefix, idx, taken)) ==> !Overlaps(net, Clamp(prefix), taken)
    ensures (forall idx: nat :: !FreeSlot(prefix, idx, taken)) ==> net == BASE
  {
    hide Slot, SlotCount, Room, Clamp, Overlaps;
    var p := Clamp(prefix);
    var count := SlotCount(prefix);
    for attempt := 0 to 256 {
      var idx := rng.GenRange(count);
      net := Slot(prefix, idx);
      if !Overlaps(net, p, taken) {
        assert FreeSlot(prefix, idx, taken);
        return;
      }
    }
    for idx := 0 to count
      invariant forall j: nat :: j < idx ==> !FreeSlot(prefix, j, taken)
    {
      net := Slot(prefix, idx);
      if !Overlaps(net, p, taken) {
        assert FreeSlot(prefix, idx, taken);
        return;
      }
    }
    assert Slot(prefix, 0) == BASE;
    net := BASE;
  }

  // ----- The buddy argument -------------------------------------------------------------------

  /** A block where allocation puts it: inside the pool, aligned to its own room. */
  ghost predicate Placed(b: Block) {
    && 8 <= b.prefix
    && BASE <= b.net && b.net + Room(b.prefix) <= BASE + POOL
    && exists k: nat :: b.net == k * Room(b.prefix)
  }

  /** The addresses a block's room takes up. */
  ghost predicate Apart(a: Block, b: Block) {
    a.net + Room(a.prefix) <= b.net || b.net + Room(b.prefix) <= a.net
  }

  ghost predicate AllApart(bs: seq<Block>) {
    forall i, j :: 0 <= i < j < |bs| ==> Apart(bs[i], bs[j])
  }

  lemma SlotPlaced(p: Prefix, idx: nat)
    requires 8 <= p && idx < SlotCount(p)
    ensures Placed(Block(Slot(p, idx), p))
  {
    hide Slot, SlotCount, Room;
    var k := 10 * SlotCount(p);
    Distribute(k, idx, Room(p));
    Associate(10, SlotCount(p), Room(p));
    assert Slot(p, idx) == (k + idx) * Room(p);
  }

  lemma Distribute(a: nat, b: nat, c: nat)
    ensures (a + b) * c == a * c + b * c
  {
  }

  lemma Associate(a: nat, b: nat, c: nat)
    ensures a * b * c == a * (b * c)
  {
  }

  /** Of two aligned blocks that share an address, the wider one contains the narrower one. */
  lemma Buddies(a: Block, b: Block)
    requires Placed(a) && Placed(b) && Clamp(a.prefix) <= Clamp(b.prefix)
    ensures !Apart(a, b) ==> a.net <= b.net && b.net + Room(b.prefix) <= a.net + Room(a.prefix)
  {
    var i: nat :| a.net == i * Room(a.prefix);
    var j: nat :| b.net == j * Room(b.prefix);
    var m := Pow2(Clamp(b.prefix) - Clamp(a.prefix));
    Pow2Add(Clamp(b.prefix) - Clamp(a.prefix), 32 - Clamp(b.prefix));
    BuddyArithmetic(i, j, m, Room(b.prefix));
  }

  lemma BuddyArithmetic(i: nat, j: nat, m: nat, r: nat)
    requires r > 0
    ensures j * r < i * (m * r) + m * r && i * (m * r) < j * r + r ==>
              i * (m * r) <= j * r && j * r + r <= i * (m * r) + m * r
  {
    var lo, hi := i * m, i * m + m;
    assert i * (m * r) == lo * r && i * (m * r) + m * r == hi * r;
    if j < hi {
      MulMonotone(j + 1, hi, r);
    } else {
      MulMonotone(hi, j, r);
    }
    if lo < j + 1 {
      MulMonotone(lo, j, r);
    } else {
      MulMonotone(j + 1, lo, r);
    }
  }

  /** The overlap test of the code, on real block sizes, agrees with rooms staying apart. */
  lemma MeetsMeansNotApart(a: Block, b: Block)
    requires Placed(a) && Placed(b)
    ensures Meets(a.net, Clamp(a.prefix), b) <==> !Apart(a, b)
    ensures Meets(a.net, a.prefix, b) <==> !Apart(a, b)
  {
    if Clamp(a.prefix) <= Clamp(b.prefix) {
      Buddies(a, b);
    } else {
      Buddies(b, a);
    }
    RealSize(a.prefix);
    RealSize(b.prefix);
  }

  lemma RealSize(p: Prefix)
    requires p >= 8
    ensures 1 <= Size(p) <= Room(p)
    ensures p <= 30 ==> Size(p) == Room(p)
  {
    Pow2Monotone(32 - p, 32 - Clamp(p));
  }

  // ----- Counting addresses -------------------------------------------------------------------

  ghost function Total(bs: seq<Block>): nat {
    if bs == [] then 0 else Total(bs[..|bs| - 1]) + Room(bs[|bs| - 1].prefix)
  }

  ghost function Range(lo: nat, n: nat): (r: set<nat>)
    ensures forall x: nat :: x in r <==> lo <= x < lo + n
  {
    if n == 0 then {} else Range(lo, n - 1) + {lo + n - 1}
  }

  ghost function Cover(bs: seq<Block>): set<nat> {
    if bs == [] then {} else Cover(bs[..|bs| - 1]) + Range(bs[|bs| - 1].net, Room(bs[|bs| - 1].prefix))
  }

  lemma {:induction false} RangeSize(lo: nat, n: nat)
    ensures |Range(lo, n)| == n
  {
    if n > 0 {
      RangeSize(lo, n - 1);
    }
  }

  lemma {:induction false} SubsetSize<T>(a: set<T>, b: set<T>)
    requires a <= b
    ensures |a| <= |b|
  {
    if a != {} {
      var x :| x in a;
      SubsetSize(a - {x}, b - {x});
    }
  }

  ghost predicate Holds(b: Block, x: nat) {
    b.net <= x < b.net + Room(b.prefix)
  }

  lemma {:induction false} CoverMember(bs: seq<Block>, x: nat)
    ensures x in Cover(bs) <==> exists i :: 0 <= i < |bs| && Holds(bs[i], x)
  {
    hide Room;
    if bs != [] {
      var n := |bs| - 1;
      CoverMember(bs[..n], x);
      assert forall i :: 0 <= i < n ==> bs[..n][i] == bs[i];
    }
  }

  /** Blocks that stay apart use up exactly the sum of their rooms. */
  lemma {:induction false} CoverSize(bs: seq<Block>)
    requires AllApart(bs)
    ensures |Cover(bs)| == Total(bs)
  {
    if bs != [] {
      var n := |bs| - 1;
      var last := Range(bs[n].net, Room(bs[n].prefix));
      CoverSize(bs[..n]);
      RangeSize(bs[n].net, Room(bs[n].prefix));
      assert Cover(bs[..n]) !! last by {
        forall x | x in last ensures x !in Cover(bs[..n]) {
          CoverMember(bs[..n], x);
        }
      }
    }
  }

  /** Blocks placed apart never need more than the pool. */
  lemma ApartFits(bs: seq<Block>)
    requires AllApart(bs) && forall i :: 0 <= i < |bs| ==> Placed(bs[i])
    ensures Total(bs) <= POOL
  {
    CoverSize(bs);
    RangeSize(BASE, POOL);
    forall x | x in Cover(bs) ensures x in Range(BASE, POOL) {
      CoverMember(bs, x);
    }
    SubsetSize(Cover(bs), Range(BASE, POOL));
  }

  /** With room left and nothing narrower placed yet, some slot of the pool is free. */
  lemma RoomLeavesSlot(p: Prefix, taken: seq<Block>)
    requires 8 <= p && Total(taken) < POOL
    requires forall i :: 0 <= i < |taken| ==> Placed(taken[i]) && Clamp(taken[i].prefix) <= Clamp(p)
    requires AllApart(taken)
    ensures exists idx: nat :: FreeSlot(p, idx, taken)
  {
    if forall idx: nat :: !FreeSlot(p, idx, taken) {
      forall x | x in Range(BASE, POOL) ensures x in Cover(taken) {
        FullSlot(p, x, taken);
        CoverMember(taken, x);
      }
      RangeSize(BASE, POOL);
      CoverSize(taken);
      SubsetSize(Range(BASE, POOL), Cover(taken));
    }
  }

  /** The slot of any address, when it is not free, lies whole inside one taken block. */
  lemma FullSlot(p: Prefix, x: nat, taken: seq<Block>)
    requires 8 <= p && BASE <= x < BASE + POOL
    requires forall i :: 0 <= i < |taken| ==> Placed(taken[i]) && Clamp(taken[i].prefix) <= Clamp(p)
    requires forall idx: nat :: !FreeSlot(p, idx, taken)
    ensures exists i :: 0 <= i < |taken| && Holds(taken[i], x)
  {
    hide Slot, Room, SlotCount;
    var idx := SlotAt(p, x);
    var s := Block(Slot(p, idx), p);
    assert !FreeSlot(p, idx, taken);
    var i :| 0 <= i < |taken| && Meets(s.net, Clamp(p), taken[i]);
    SlotPlaced(p, idx);
    MeetsMeansNotApart(s, taken[i]);
    Buddies(taken[i], s);
  }

  lemma SlotAt(p: Prefix, x: nat) returns (idx: nat)
    requires BASE <= x < BASE + POOL
    ensures idx < SlotCount(p) && Slot(p, idx) <= x < Slot(p, idx) + Room(p)
  {
    hide Slot, Room, SlotCount;
    var r, n := Room(p), SlotCount(p);
    var rest: nat;
    idx, rest := Split(x - BASE, r);
    if idx >= n {
      MulMonotone(n, idx, r);
    }
  }

  // ----- Assigning a network to every group ---------------------------------------------------

  /** The blocks given to the groups so far, in the order the groups are served. */
  ghost function Blocks(prefixes: seq<Prefix>, nets: seq<u32>): seq<Block>
    requires |prefixes| == |nets|
  {
    seq(|nets|, i requires 0 <= i < |nets| => Block(nets[i], prefixes[i]))
  }

  ghost function TotalRoom(prefixes: seq<Prefix>): nat {
    if prefixes == [] then 0
    else TotalRoom(prefixes[..|prefixes| - 1]) + Room(prefixes[|prefixes| - 1])
  }

  lemma {:induction false} TotalOfBlocks(prefixes: seq<Prefix>, nets: seq<u32>)
    requires |prefixes| == |nets|
    ensures Total(Blocks(prefixes, nets)) == TotalRoom(prefixes)
  {
    if nets != [] {
      var n := |nets| - 1;
      TotalOfBlocks(prefixes[..n], nets[..n]);
      assert Blocks(prefixes, nets)[..n] == Blocks(prefixes[..n], nets[..n]);
    }
  }

  lemma {:induction false} TotalRoomMonotone(prefixes: seq<Prefix>, n: nat)
    requires n < |prefixes|
    ensures TotalRoom(prefixes[..n]) < TotalRoom(prefixes)
  {
    var m := |prefixes| - 1;
    if n < m {
      TotalRoomMonotone(prefixes[..m], n);
      assert prefixes[..m][..n] == prefixes[..n];
    }
  }

  /**
   Serves groups widest-first. Every network is aligned and inside 10/8, and all are disjoint
   exactly when the groups fit in the pool together, whatever the random source draws.
   */
  method AssignNets(prefixes: seq<Prefix>, rng: Rng) returns (nets: seq<u32>)
    requires forall i :: 0 <= i < |prefixes| ==> 8 <= prefixes[i]
    requires forall i, j :: 0 <= i < j < |prefixes| ==> prefixes[i] <= prefixes[j]
    modifies rng
    ensures |nets| == |prefixes|
    ensures forall i :: 0 <= i < |nets| ==> Placed(Block(nets[i], prefixes[i]))
    ensures AllApart(Blocks(prefixes, nets)) <==> TotalRoom(prefixes) <= POOL
  {
    nets := [];
    for n := 0 to |prefixes|
      invariant |nets| == n
      invariant forall i :: 0 <= i < n ==> Placed(Block(nets[i], prefixes[i]))
      invariant TotalRoom(prefixes) <= POOL ==> AllApart(Blocks(prefixes[..n], nets))
    {
      ghost var before := Blocks(prefixes[..n], nets);
      var taken := seq(n, i requires 0 <= i < n => Block(nets[i], prefixes[i]));
      assert taken == before;
      var net := PickNewNet(prefixes[n], rng, taken);
      PickedApart(prefixes, n, taken, net);
      nets := nets + [net];
      assert Blocks(prefixes[..n + 1], nets) == taken + [Block(net, prefixes[n])];
    }
    assert prefixes[..|prefixes|] == prefixes;
    if AllApart(Blocks(prefixes, nets)) {
      ApartFits(Blocks(prefixes, nets));
      TotalOfBlocks(prefixes, nets);
    }
  }

  lemma PickedApart(prefixes: seq<Prefix>, n: nat, taken: seq<Block>, net: u32)
    requires n < |prefixes| && |taken| == n
    requires forall i :: 0 <= i < |prefixes| ==> 8 <= prefixes[i]
    requires forall i, j :: 0 <= i < j < |prefixes| ==> prefixes[i] <= prefixes[j]
    requires forall i :: 0 <= i < n ==> Placed(taken[i]) && taken[i].prefix == prefixes[i]
    requires exists idx: nat :: idx < SlotCount(prefixes[n]) && net == Slot(prefixes[n], idx)
    requires (exists idx: nat :: FreeSlot(prefixes[n], idx, taken)) ==> !Overlaps(net, Clamp(prefixes[n]), taken)
    ensures Placed(Block(net, prefixes[n]))
    ensures TotalRoom(prefixes) <= POOL && AllApart(taken) ==> AllApart(taken + [Block(net, prefixes[n])])
  {
    hide Slot, SlotCount, Room;
    var p := prefixes[n];
    var idx: nat :| idx < SlotCount(p) && net == Slot(p, idx);
    SlotPlaced(p, idx);
    if TotalRoom(prefixes) <= POOL && AllApart(taken) {
      var nets := seq(n, i requires 0 <= i < n => taken[i].net);
      assert Blocks(prefixes[..n], nets) == taken;
      TotalOfBlocks(prefixes[..n], nets);
      TotalRoomMonotone(prefixes, n);
      RoomLeavesSlot(p, taken);
      forall i | 0 <= i < n ensures Apart(taken[i], Block(net, p)) {
        assert !Meets(net, Clamp(p), taken[i]);
        MeetsMeansNotApart(Block(net, p), taken[i]);
      }
    }
  }
}
