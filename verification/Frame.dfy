/**
 Offset-checked access to one captured frame and the in-place repair of its IPv4 and TCP/UDP
 checksums. A read-only slice of the original is a `seq<byte>`, a mutable one an `array<byte>`.
 */
module Frame {
  import opened Wire

  datatype L3Kind = Ipv4 | OtherL3
  datatype L4Kind = Tcp | Udp | OtherL4

  /** Byte offsets into a frame buffer; `end` excludes Ethernet padding. */
  datatype FrameLayout = FrameLayout(l3: nat, l3Kind: L3Kind, ihl: nat, l4: nat, l4Kind: L4Kind,
                                     payload: nat, end: nat)

  // ----- Parsing ------------------------------------------------------------------------------

  predicate IsTag(ethertype: u16) {
    ethertype == 0x8100 || ethertype == 0x88a8
  }

  function Min(a: nat, b: nat): nat {
    if a <= b then a else b
  }

  /** Skips at most four VLAN tags: the ethertype behind them and the offset after it. */
  function TagWalk(b: seq<byte>, off: nat, ethertype: u16, guard: nat): (r: Option<(u16, nat)>)
    requires off <= |b|
    ensures r.Some? ==> off <= r.value.1 <= |b|
    ensures r.Some? ==> if r.value.1 == off then r.value.0 == ethertype
                                            else r.value.1 >= off + 4 && r.value.0 == Be16(b, r.value.1 - 2)
    decreases 4 - guard
  {
    if IsTag(ethertype) && guard < 4 then
      if |b| < off + 4 then None else TagWalk(b, off + 4, Be16(b, off + 2), guard + 1)
    else Some((ethertype, off))
  }

  function Ipv4Layout(b: seq<byte>, l3: nat): (r: Option<FrameLayout>)
    ensures r.Some? ==> Sane(|b|, r.value) && r.value.l3 == l3 && r.value.l3Kind == Ipv4
  {
    if |b| < l3 + 20 || b[l3] / 16 != 4 then None else
    var ihl := b[l3] % 16 * 4;
    if ihl < 20 || |b| < l3 + ihl || Be16(b, l3 + 2) < ihl then None else
    var end := Min(l3 + Be16(b, l3 + 2), |b|);
    var l4 := l3 + ihl;
    match b[l3 + 9]
    case 6 =>
      if |b| < l4 + 20 then None else
      var dataOff := b[l4 + 12] / 16 * 4;
      if dataOff < 20 || |b| < l4 + dataOff then None
      else Some(FrameLayout(l3, Ipv4, ihl, l4, Tcp, Min(l4 + dataOff, end), end))
    case 17 =>
      if |b| < l4 + 8 then None
      else Some(FrameLayout(l3, Ipv4, ihl, l4, Udp, Min(l4 + 8, end), end))
    case _ => Some(FrameLayout(l3, Ipv4, ihl, l4, OtherL4, Min(l4, end), end))
  }

  /** Bounds every parsed layout keeps, so no later slice is out of range. */
  predicate Sane(len: nat, l: FrameLayout) {
    && l.l3 <= l.l4 <= l.payload <= l.end <= len
    && (l.l3Kind == Ipv4 ==>
          && 20 <= l.ihl <= 60 && l.l4 == l.l3 + l.ihl && l.l3 + 20 <= len
          && l.end <= l.l3 + 0xffff
          && (l.l4Kind == Tcp ==> l.l4 + 20 <= len)
          && (l.l4Kind == Udp ==> l.l4 + 8 <= len))
  }

  function LayoutOf(b: seq<byte>): (r: Option<FrameLayout>)
    ensures r.Some? ==> Sane(|b|, r.value) && r.value.l3 >= 14
    ensures r.Some? ==> (r.value.l3Kind == Ipv4 <==> Be16(b, r.value.l3 - 2) == 0x0800)
  {
    if |b| < 14 then None else
    match TagWalk(b, 14, Be16(b, 12), 0)
    case None => None
    case Some((ethertype, l3)) =>
      if ethertype == 0x0800 then Ipv4Layout(b, l3)
      else Some(FrameLayout(l3, OtherL3, 0, l3, OtherL4, l3, |b|))
  }

  method ParseLayout(buf: seq<byte>) returns (r: Option<FrameLayout>)
    ensures r == LayoutOf(buf)
  {
    if |buf| < 14 {
      return None;
    }
    var off := 12;
    var ethertype := Be16(buf, off);
    off := off + 2;
    var guard := 0;
    while IsTag(ethertype) && guard < 4
      invariant 14 <= off <= |buf|
      invariant TagWalk(buf, off, ethertype, guard) == TagWalk(buf, 14, Be16(buf, 12), 0)
      decreases 4 - guard
    {
      if |buf| < off + 4 {
        return None;
      }
      ethertype := Be16(buf, off + 2);
      off := off + 4;
      guard := guard + 1;
    }
    if ethertype == 0x0800 {
      r := Ipv4Layout(buf, off);
    } else {
      r := Some(FrameLayout(off, OtherL3, 0, off, OtherL4, off, |buf|));
    }
  }

  // ----- Which bytes a layout depends on ------------------------------------------------------

  /** `c` agrees with `b` on every byte that decides `b`'s layout `l`. */
  ghost predicate SameShape(b: seq<byte>, c: seq<byte>, l: FrameLayout) {
    && |b| == |c|
    && (forall i :: 12 <= i < l.l3 && i < |b| ==> b[i] == c[i])
    && (l.l3Kind == Ipv4 ==> forall i :: l.l3 <= i < l.l3 + 10 && i < |b| ==> b[i] == c[i])
    && (l.l4Kind == Tcp && l.l4 + 12 < |b| ==> b[l.l4 + 12] == c[l.l4 + 12])
  }

  lemma {:induction false} TagWalkSame(b: seq<byte>, c: seq<byte>, off: nat, ethertype: u16, guard: nat)
    requires off <= |b| == |c|
    requires TagWalk(b, off, ethertype, guard).Some?
    requires forall i :: off <= i < TagWalk(b, off, ethertype, guard).value.1 ==> b[i] == c[i]
    ensures TagWalk(c, off, ethertype, guard) == TagWalk(b, off, ethertype, guard)
    decreases 4 - guard
  {
    if IsTag(ethertype) && guard < 4 {
      var next := TagWalk(b, off + 4, Be16(b, off + 2), guard + 1);
      assert b[off + 2] == c[off + 2] && b[off + 3] == c[off + 3];
      TagWalkSame(b, c, off + 4, Be16(b, off + 2), guard + 1);
    }
  }

  lemma Ipv4LayoutKept(b: seq<byte>, c: seq<byte>, l: FrameLayout)
    requires Ipv4Layout(b, l.l3) == Some(l) && |b| == |c|
    requires b[l.l3..l.l3 + 10] == c[l.l3..l.l3 + 10]
    requires l.l4Kind == Tcp && l.l4 + 12 < |b| ==> b[l.l4 + 12] == c[l.l4 + 12]
    ensures Ipv4Layout(c, l.l3) == Some(l)
  {
    var i, p, q := l.l3, b[l.l3..l.l3 + 10], c[l.l3..l.l3 + 10];
    assert b[i] == p[0] && b[i + 2] == p[2] && b[i + 3] == p[3] && b[i + 9] == p[9];
    assert c[i] == q[0] && c[i + 2] == q[2] && c[i + 3] == q[3] && c[i + 9] == q[9];
  }

  /** Rewriting MACs, addresses and checksums never moves a parsed frame's offsets. */
  lemma LayoutKept(b: seq<byte>, c: seq<byte>, l: FrameLayout)
    requires LayoutOf(b) == Some(l)
    requires SameShape(b, c, l)
    ensures LayoutOf(c) == Some(l)
  {
    hide TagWalk, Ipv4Layout;
    TagWalkSame(b, c, 14, Be16(b, 12), 0);
    assert Be16(b, 12) == Be16(c, 12);
    if l.l3Kind == Ipv4 {
      Ipv4LayoutKept(b, c, l);
    }
  }

  // ----- Layouts of frames put together from parts --------------------------------------------

  /** A layout whose every offset is `n` further on. */
  function Shifted(l: FrameLayout, n: nat): FrameLayout {
    FrameLayout(l.l3 + n, l.l3Kind, l.ihl, l.l4 + n, l.l4Kind, l.payload + n, l.end + n)
  }

  /** `b` with an 802.1Q or 802.1ad tag behind its Ethernet addresses. */
  function Tagged(b: seq<byte>, service: bool, tci: u16): (r: seq<byte>)
    requires |b| >= 12
    ensures |r| == |b| + 4
  {
    b[..12] + (if service then [0x88, 0xa8] else [0x81, 0x00]) + BytesOf16(tci) + b[12..]
  }

  lemma TaggedReads(b: seq<byte>, service: bool, tci: u16)
    requires |b| >= 14
    ensures var t := Tagged(b, service, tci);
            && IsTag(Be16(t, 12)) && (forall i :: 12 <= i < |b| ==> t[i + 4] == b[i])
            && (forall i :: 12 <= i <= |b| - 2 ==> Be16(t, i + 4) == Be16(b, i))
  {
    var t := Tagged(b, service, tci);
    assert forall i :: 12 <= i < |b| ==> t[i + 4] == b[12..][i - 12] == b[i];
  }

  lemma {:induction false} TagWalkShifted(b: seq<byte>, c: seq<byte>, off: nat, ethertype: u16, guard: nat)
    requires 12 <= off <= |b| && |c| == |b| + 4 && guard < 4
    requires forall i :: 12 <= i < |b| ==> c[i + 4] == b[i]
    requires var w := TagWalk(b, off, ethertype, guard); w.Some? && w.value.1 + 4 * (guard + 1) <= off + 16
    ensures var (e, o) := TagWalk(b, off, ethertype, guard).value;
            TagWalk(c, off + 4, ethertype, guard + 1) == Some((e, o + 4))
    decreases 4 - guard
  {
    if IsTag(ethertype) {
      assert Be16(c, off + 6) == Be16(b, off + 2);
      TagWalkShifted(b, c, off + 4, Be16(b, off + 2), guard + 1);
    }
  }

  lemma Ipv4LayoutShifted(b: seq<byte>, c: seq<byte>, l: FrameLayout)
    requires 12 <= l.l3 && Ipv4Layout(b, l.l3) == Some(l) && |c| == |b| + 4
    requires forall i :: 12 <= i < |b| ==> c[i + 4] == b[i]
    ensures Ipv4Layout(c, l.l3 + 4) == Some(Shifted(l, 4))
  {
    assert c[l.l3 + 4] == b[l.l3] && c[l.l3 + 13] == b[l.l3 + 9];
    assert Be16(c, l.l3 + 6) == Be16(b, l.l3 + 2);
    assert l.l4 + 12 < |b| ==> c[l.l4 + 16] == b[l.l4 + 12];
  }

  /** A tag moves everything behind it by four bytes and changes nothing else, up to four tags deep. */
  lemma TagShifts(b: seq<byte>, l: FrameLayout, service: bool, tci: u16)
    requires LayoutOf(b) == Some(l) && l.l3 < 30
    ensures LayoutOf(Tagged(b, service, tci)) == Some(Shifted(l, 4))
  {
    hide Ipv4Layout, Tagged;
    var t := Tagged(b, service, tci);
    TaggedReads(b, service, tci);
    assert Be16(t, 16) == Be16(b, 12);
    assert TagWalk(t, 14, Be16(t, 12), 0) == TagWalk(t, 18, Be16(t, 16), 1);
    TagWalkShifted(b, t, 14, Be16(b, 12), 0);
    if l.l3Kind == Ipv4 {
      Ipv4LayoutShifted(b, t, l);
    }
  }

  /** A fifth tag ends the walk: what follows is not looked at. */
  lemma FifthTag(b: seq<byte>, l: FrameLayout, service: bool, tci: u16)
    requires LayoutOf(b) == Some(l) && l.l3 == 30
    ensures LayoutOf(Tagged(b, service, tci)) == Some(FrameLayout(30, OtherL3, 0, 30, OtherL4, 30, |b| + 4))
  {
    hide Ipv4Layout, Tagged;
    var t := Tagged(b, service, tci);
    TaggedReads(b, service, tci);
    assert Be16(t, 16) == Be16(b, 12);
    assert TagWalk(t, 14, Be16(t, 12), 0) == TagWalk(t, 18, Be16(t, 16), 1);
    WalkCut(b, t, 14, Be16(b, 12), 0);
  }

  lemma {:induction false} WalkCut(b: seq<byte>, c: seq<byte>, off: nat, ethertype: u16, guard: nat)
    requires 12 <= off <= |b| && |c| == |b| + 4 && guard < 4
    requires forall i :: 12 <= i < |b| ==> c[i + 4] == b[i]
    requires var w := TagWalk(b, off, ethertype, guard); w.Some? && w.value.1 + 4 * guard == off + 16
    ensures var w := TagWalk(c, off + 4, ethertype, guard + 1);
            w.Some? && w.value.1 + 4 * guard == off + 16 && IsTag(w.value.0)
    decreases 4 - guard
  {
    if guard < 3 {
      assert Be16(c, off + 6) == Be16(b, off + 2);
      WalkCut(b, c, off + 4, Be16(b, off + 2), guard + 1);
    }
  }

  /** An IPv4 header of `words` 32-bit words, options included, that announces `total` bytes of `proto`. */
  predicate IsIpv4Header(h: seq<byte>, words: nat, total: nat, proto: byte) {
    && 5 <= words <= 15 && |h| == 4 * words && total < 0x1_0000
    && h[0] == 0x40 + words && h[2] as int * 0x100 + h[3] == total && h[9] == proto
  }

  /**
   The parse finds the parts a frame was put together from: header options, TCP options and Ethernet
   padding included, and a packet cut short by `missing` bytes.
   */
  lemma AssembledLayout(macs: seq<byte>, h: seq<byte>, words: nat, seg: seq<byte>, proto: byte, pad: seq<byte>,
                        missing: nat)
    requires |macs| == 12 && IsIpv4Header(h, words, 4 * words + |seg| + missing, proto)
    requires missing == 0 || pad == []
    requires proto == 6 ==> |seg| >= 20 && 5 <= seg[12] / 16 && 4 * (seg[12] / 16) <= |seg|
    requires proto == 17 ==> |seg| >= 8
    ensures var at := 14 + 4 * words;
            LayoutOf(macs + [8, 0] + h + seg + pad) ==
              Some(FrameLayout(14, Ipv4, 4 * words, at,
                               if proto == 6 then Tcp else if proto == 17 then Udp else OtherL4,
                               if proto == 6 then at + 4 * (seg[12] / 16) else if proto == 17 then at + 8 else at,
                               at + |seg|))
  {
    var b := macs + [8, 0] + h + seg + pad;
    assert b[12] == 8 && b[13] == 0;
    assert b[14] == h[0] && b[16] == h[2] && b[17] == h[3] && b[23] == h[9];
    assert proto == 6 ==> b[14 + 4 * words + 12] == seg[12];
    assert Be16(b, 12) == 0x0800 && Be16(b, 16) == 4 * words + |seg| + missing;
    assert TagWalk(b, 14, 0x0800, 0) == Some((0x0800, 14));
  }

  /** Fourteen bytes make a frame, and without an IPv4 ethertype or a tag nothing behind them is parsed. */
  lemma OtherLayout(macs: seq<byte>, e0: byte, e1: byte, payload: seq<byte>)
    requires |macs| == 12 && [e0, e1] != [0x08, 0x00] && [e0, e1] != [0x81, 0x00] && [e0, e1] != [0x88, 0xa8]
    ensures LayoutOf(macs + [e0, e1] + payload) ==
              Some(FrameLayout(14, OtherL3, 0, 14, OtherL4, 14, 14 + |payload|))
    ensures LayoutOf(macs + [e0]) == None
  {
    var b := macs + [e0, e1] + payload;
    assert b[12] == e0 && b[13] == e1;
  }

  // ----- Ones-complement sums -----------------------------------------------------------------

  /** Sum of the big-endian 16-bit words of `d`, an odd last byte padded with zero on the right. */
  function WordSum(d: seq<byte>): nat {
    if |d| == 0 then 0
    else if |d| == 1 then d[0] as int * 0x100
    else Be16(d, 0) + WordSum(d[2..])
  }

  function Fold(sum: nat): (r: u16)
    decreases sum
  {
    if sum / 0x1_0000 == 0 then sum else Fold(sum % 0x1_0000 + sum / 0x1_0000)
  }

  lemma {:induction false} WordSumBound(d: seq<byte>)
    ensures WordSum(d) <= 0xffff * ((|d| + 1) / 2)
  {
    if |d| >= 2 {
      WordSumBound(d[2..]);
    }
  }

  lemma ResidueOf(x: nat, q: nat, r: nat)
    requires x == 0xffff * q + r && r < 0xffff
    ensures x % 0xffff == r
  {
  }

  lemma ResidueShift(x: nat, q: nat)
    requires 0xffff * q <= x
    ensures (x - 0xffff * q) % 0xffff == x % 0xffff
  {
    var r, k := (x - 0xffff * q) % 0xffff, (x - 0xffff * q) / 0xffff;
    ResidueOf(x, k + q, r);
  }

  /** What folding computes: the residue modulo 65535, with 65535 standing for a non-zero zero. */
  lemma {:induction false} FoldResidue(sum: nat)
    ensures Fold(sum) == if sum == 0 then 0 else 1 + (sum - 1) % 0xffff
    decreases sum
  {
    if sum / 0x1_0000 != 0 {
      var q := sum / 0x1_0000;
      FoldResidue(sum - 0xffff * q);
      assert sum % 0x1_0000 + q == sum - 0xffff * q;
      ResidueShift(sum - 1, q);
    }
  }

  /** Adding the complement of a folded sum always folds to all ones. */
  lemma FoldComplement(sum: nat)
    ensures Fold(sum + (0xffff - Fold(sum))) == 0xffff
  {
    hide Fold;
    FoldResidue(sum);
    var total := sum + (0xffff - Fold(sum));
    FoldResidue(total);
    if sum > 0 {
      ResidueOf(total - 1, (sum - 1) / 0xffff, 0xfffe);
    }
  }

  /** A field at an even offset contributes its own value to the sum. */
  lemma {:induction false} WordSumField(d: seq<byte>, k: nat, v: u16)
    requires k % 2 == 0 && k + 2 <= |d|
    ensures WordSum(Put(d, k, BytesOf16(v))) == WordSum(Put(d, k, [0, 0])) + v
    decreases k
  {
    var p, z := Put(d, k, BytesOf16(v)), Put(d, k, [0, 0]);
    if k == 0 {
      assert p[2..] == z[2..];
      assert Be16(p, 0) == Be16(BytesOf16(v), 0);
    } else {
      WordSumField(d[2..], k - 2, v);
      assert p[2..] == Put(d[2..], k - 2, BytesOf16(v));
      assert z[2..] == Put(d[2..], k - 2, [0, 0]);
    }
  }

  method SumWords(acc: u32, data: seq<byte>) returns (sum: u32)
    requires acc + WordSum(data) < 0x1_0000_0000
    ensures sum == acc + WordSum(data)
  {
    sum := acc;
    var i := 0;
    while i + 1 < |data|
      invariant 0 <= i <= |data|
      invariant sum + WordSum(data[i..]) == acc + WordSum(data)
    {
      assert data[i..][2..] == data[i + 2..];
      sum := sum + Be16(data, i);
      i := i + 2;
    }
    if i < |data| {
      sum := sum + data[i] as int * 0x100;
    }
  }

  method FoldSum(start: u32) returns (r: u16)
    ensures r == Fold(start)
  {
    var sum := start;
    while sum / 0x1_0000 != 0
      invariant Fold(sum) == Fold(start)
      decreases sum
    {
      sum := sum % 0x1_0000 + sum / 0x1_0000;
    }
    r := sum;
  }
}
