/** IPv4 prefixes and masks: the bit operations of the original, and the arithmetic they amount to. */
module Net {
  import opened Wire
  import opened Arith

  function Pow2(k: nat): (r: nat)
    ensures r >= 1
  {
    if k == 0 then 1 else 2 * Pow2(k - 1)
  }

  function Or(a: nat, b: nat): nat {
    if a == 0 && b == 0 then 0
    else 2 * Or(a / 2, b / 2) + if a % 2 == 1 || b % 2 == 1 then 1 else 0
  }

  function And(a: nat, b: nat): nat {
    if a == 0 || b == 0 then 0
    else 2 * And(a / 2, b / 2) + if a % 2 == 1 && b % 2 == 1 then 1 else 0
  }

  lemma {:induction false} Pow2Add(j: nat, k: nat)
    ensures Pow2(j + k) == Pow2(j) * Pow2(k)
  {
    if j > 0 {
      Pow2Add(j - 1, k);
    }
  }

  lemma {:induction false} Pow2Monotone(j: nat, k: nat)
    requires j <= k
    ensures Pow2(j) <= Pow2(k)
  {
    if j < k {
      Pow2Monotone(j, k - 1);
    }
  }

  lemma Pow2Values()
    ensures Pow2(1) == 2 && Pow2(2) == 4 && Pow2(24) == 0x100_0000 && Pow2(32) == 0x1_0000_0000
  {
    assert Pow2(8) == 0x100;
    Pow2Add(8, 8);
    Pow2Add(8, 16);
    Pow2Add(16, 16);
  }

  lemma {:induction false} OrLow(b: nat)
    ensures Or(0, b) == b
  {
    if b > 0 {
      OrLow(b / 2);
    }
  }

  /** Or-ing a value below an aligned base is adding it. */
  lemma {:induction false} OrDisjoint(k: nat, q: nat, b: nat)
    requires b < Pow2(k)
    ensures Or(q * Pow2(k), b) == q * Pow2(k) + b
    decreases k
  {
    if k == 0 {
      OrHigh(q);
    } else {
      var h := Doubling(q, k);
      OrDisjoint(k - 1, q, b / 2);
      assert 2 * h / 2 == h && 2 * h % 2 == 0;
    }
  }

  lemma {:induction false} OrHigh(a: nat)
    ensures Or(a, 0) == a
  {
    if a > 0 {
      OrHigh(a / 2);
    }
  }

  /** Masking with low ones keeps the remainder. */
  lemma {:induction false} AndLowOnes(q: nat, r: nat, k: nat)
    requires r < Pow2(k)
    ensures And(q * Pow2(k) + r, Pow2(k) - 1) == r
    decreases k
  {
    if k > 0 {
      hide And;
      var h := Doubling(q, k);
      AndLowOnes(q, r / 2, k - 1);
      AndOdd(2 * h + r, Pow2(k - 1) - 1);
      assert (2 * h + r) / 2 == h + r / 2;
    }
  }

  lemma AndOdd(a: nat, m: nat)
    ensures And(a, 2 * m + 1) == 2 * And(a / 2, m) + a % 2
  {
    assert (2 * m + 1) / 2 == m && (2 * m + 1) % 2 == 1;
  }

  lemma AndEven(a: nat, m: nat)
    ensures And(a, 2 * m) == 2 * And(a / 2, m)
  {
    assert 2 * m / 2 == m && 2 * m % 2 == 0;
  }

  /** Masking with high ones keeps the multiple of the block size and drops the rest. */
  lemma {:induction false} AndHighOnes(q: nat, r: nat, n: nat, k: nat)
    requires k <= n && r < Pow2(k) <= Pow2(n) && q * Pow2(k) + r < Pow2(n)
    ensures And(q * Pow2(k) + r, Pow2(n) - Pow2(k)) == q * Pow2(k)
    decreases n
  {
    hide And;
    if k == 0 {
      AndLowOnes(0, q, n);
    } else {
      var h := Doubling(q, k);
      AndHighOnes(q, r / 2, n - 1, k - 1);
      AndEven(2 * h + r, Pow2(n - 1) - Pow2(k - 1));
      assert (2 * h + r) / 2 == h + r / 2;
    }
  }

  lemma Doubling(q: nat, k: nat) returns (h: nat)
    requires k > 0
    ensures h == q * Pow2(k - 1) && q * Pow2(k) == 2 * h
  {
    h := q * Pow2(k - 1);
  }

  // ----- Prefixes -----------------------------------------------------------------------------

  type Prefix = p: nat | p <= 32

  /** Number of addresses in a block of this prefix. */
  function Size(p: Prefix): (r: nat)
    ensures 1 <= r <= 0x1_0000_0000
  {
    Pow2Monotone(32 - p, 32);
    Pow2Values();
    Pow2(32 - p)
  }

  /** The network mask, a left shift of all ones in 32 bits. */
  function MaskFor(p: Prefix): (r: u32)
    ensures r == 0x1_0000_0000 - Size(p)
  {
    if p == 0 then Pow2Values(); 0 else 0x1_0000_0000 - Size(p)
  }

  function NetworkOf(addr: u32, p: Prefix): (r: u32)
    ensures r == addr - addr % Size(p)
  {
    NetworkIs(addr, p);
    And(addr, MaskFor(p))
  }

  lemma NetworkIs(addr: u32, p: Prefix)
    ensures And(addr, MaskFor(p)) == addr - addr % Size(p)
    ensures 0 <= addr - addr % Size(p)
  {
    hide And, Pow2;
    Pow2Values();
    Pow2Monotone(32 - p, 32);
    var q, r := Split(addr, Pow2(32 - p));
    AndHighOnes(q, r, 32, 32 - p);
  }

  /** The offset of an address within its block: what the complemented mask leaves. */
  function HostPart(addr: u32, p: Prefix): (r: u32)
    ensures r == addr % Size(p) && r < Size(p)
  {
    HostPartIs(addr, p);
    And(addr, 0xffff_ffff - MaskFor(p))
  }

  lemma HostPartIs(addr: u32, p: Prefix)
    ensures And(addr, 0xffff_ffff - MaskFor(p)) == addr % Size(p) < Size(p)
  {
    hide And, Pow2;
    var q, r := Split(addr, Pow2(32 - p));
    AndLowOnes(q, r, 32 - p);
  }

  /** A network and an in-block offset put together. */
  function Join(net: u32, off: u32, p: Prefix): (r: u32)
    requires net % Size(p) == 0 && off < Size(p)
    ensures r == net + off
  {
    JoinIs(net, off, p);
    Or(net, off)
  }

  lemma JoinIs(net: u32, off: u32, p: Prefix)
    requires net % Size(p) == 0 && off < Size(p)
    ensures Or(net, off) == net + off < 0x1_0000_0000
  {
    hide Or, Pow2;
    var q, r := Split(net, Pow2(32 - p));
    OrDisjoint(32 - p, q, off);
    BlockFits(q, off, p);
  }

  lemma BlockFits(q: nat, off: nat, p: Prefix)
    requires q * Size(p) < 0x1_0000_0000 && off < Size(p)
    ensures q * Size(p) + off < 0x1_0000_0000
  {
    hide Size;
    BlockCount(p);
    var s, n := Size(p), Pow2(p);
    if q >= n {
      MulMonotone(n, q, s);
    } else {
      MulMonotone(q + 1, n, s);
      assert (q + 1) * s == q * s + s;
    }
  }

  /** The blocks of one prefix tile the whole address space. */
  lemma BlockCount(p: Prefix)
    ensures Pow2(p) * Size(p) == 0x1_0000_0000
  {
    Pow2Values();
    Pow2Add(p, 32 - p);
  }
}
