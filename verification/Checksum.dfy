/** Repairing and checking the IPv4 header checksum and the TCP/UDP checksum of a parsed frame. */
module Checksum {
  import opened Wire
  import opened Frame

  /** Offset of the checksum field in the transport header. */
  function FieldOffset(kind: L4Kind): nat {
    match kind case Tcp => 16 case _ => 6
  }

  function PseudoHeader(b: seq<byte>, l: FrameLayout): (r: seq<byte>)
    requires Sane(|b|, l) && l.l3Kind == Ipv4
    ensures |r| == 12
  {
    b[l.l3 + 12..l.l3 + 20] + [0, b[l.l3 + 9], (l.end - l.l4) / 0x100, (l.end - l.l4) % 0x100]
  }

  /** The transport sum a receiver folds: pseudo-header, then the segment as stored. */
  function SegmentSum(b: seq<byte>, l: FrameLayout): (r: nat)
    requires Sane(|b|, l) && l.l3Kind == Ipv4
    ensures r < 0x1_0000_0000
  {
    WordSumBound(PseudoHeader(b, l));
    WordSumBound(b[l.l4..l.end]);
    WordSum(PseudoHeader(b, l)) + WordSum(b[l.l4..l.end])
  }

  function HeaderSum(b: seq<byte>, l: FrameLayout): (r: nat)
    requires Sane(|b|, l) && l.l3Kind == Ipv4
    ensures r < 0x1_0000_0000
  {
    WordSumBound(b[l.l3..l.l4]);
    WordSum(b[l.l3..l.l4])
  }

  predicate HeaderOk(b: seq<byte>, l: FrameLayout)
    requires Sane(|b|, l) && l.l3Kind == Ipv4
  {
    Fold(HeaderSum(b, l)) == 0xffff
  }

  predicate SegmentOk(b: seq<byte>, l: FrameLayout)
    requires Sane(|b|, l) && l.l3Kind == Ipv4
  {
    l.l4Kind == OtherL4 || Fold(SegmentSum(b, l)) == 0xffff
  }

  predicate ChecksumsValid(b: seq<byte>, l: FrameLayout)
    requires Sane(|b|, l)
  {
    l.l3Kind == Ipv4 ==> HeaderOk(b, l) && SegmentOk(b, l)
  }

  // ----- What a receiver does ------------------------------------------------------------------

  /**
   The transport sum of a receiver, field by field: both addresses, the protocol number, the segment's
   length, and its words (section 3.1 of RFC 9293, and RFC 768).
   */
  function ReceivedSum(b: seq<byte>, l: FrameLayout): nat
    requires Sane(|b|, l) && l.l3Kind == Ipv4
  {
    Be16(b, l.l3 + 12) + Be16(b, l.l3 + 14) + Be16(b, l.l3 + 16) + Be16(b, l.l3 + 18)
    + (if l.l4Kind == Tcp then 6 else 17) + (l.end - l.l4) + WordSum(b[l.l4..l.end])
  }

  /** A receiver's verdict: the header sum, and the transport sum of a TCP or UDP packet, fold to all ones. */
  predicate Accepted(b: seq<byte>, l: FrameLayout)
    requires Sane(|b|, l) && l.l3Kind == Ipv4
  {
    && Fold(WordSum(b[l.l3..l.l3 + l.ihl])) == 0xffff
    && (l.l4Kind != OtherL4 ==> Fold(ReceivedSum(b, l)) == 0xffff)
  }

  lemma WordSplit(d: seq<byte>, rest: seq<byte>)
    requires |d| == 2
    ensures WordSum(d + rest) == Be16(d, 0) + WordSum(rest)
  {
    assert (d + rest)[2..] == rest;
  }

  lemma FourWords(d: seq<byte>, rest: seq<byte>)
    requires |d| == 8
    ensures WordSum(d + rest) == Be16(d, 0) + Be16(d, 2) + Be16(d, 4) + Be16(d, 6) + WordSum(rest)
  {
    hide WordSum;
    assert d + rest == d[..2] + (d[2..4] + (d[4..6] + (d[6..] + rest)));
    WordSplit(d[..2], d[2..4] + (d[4..6] + (d[6..] + rest)));
    WordSplit(d[2..4], d[4..6] + (d[6..] + rest));
    WordSplit(d[4..6], d[6..] + rest);
    WordSplit(d[6..], rest);
  }

  lemma TwoWords(a: byte, b: byte, c: byte, d: byte)
    ensures WordSum([a, b, c, d]) == a as int * 0x100 + b as int + c as int * 0x100 + d as int
  {
    WordSplit([c, d], []);
    WordSplit([a, b], [c, d]);
    assert [a, b] + [c, d] == [a, b, c, d] && [c, d] + [] == [c, d];
  }

  lemma ProtocolOf(b: seq<byte>, l: FrameLayout)
    requires LayoutOf(b) == Some(l) && l.l3Kind == Ipv4 && l.l4Kind != OtherL4
    ensures b[l.l3 + 9] == if l.l4Kind == Tcp then 6 else 17
  {
  }

  /** The sum the repair and the check work with is the receiver's. */
  lemma SegmentSumIs(b: seq<byte>, l: FrameLayout)
    requires LayoutOf(b) == Some(l) && l.l3Kind == Ipv4 && l.l4Kind != OtherL4
    ensures SegmentSum(b, l) == ReceivedSum(b, l)
  {
    ProtocolOf(b, l);
    hide LayoutOf, WordSum;
    var n := l.end - l.l4;
    var d, rest := b[l.l3 + 12..l.l3 + 20], [0, b[l.l3 + 9], n / 0x100, n % 0x100];
    FourWords(d, rest);
    TwoWords(0, b[l.l3 + 9], n / 0x100, n % 0x100);
    assert PseudoHeader(b, l) == d + rest;
  }

  /** So a frame passes the check exactly when a receiver accepts it. */
  lemma CheckIsAcceptance(b: seq<byte>, l: FrameLayout)
    requires LayoutOf(b) == Some(l) && l.l3Kind == Ipv4
    ensures ChecksumsValid(b, l) <==> Accepted(b, l)
  {
    hide LayoutOf, WordSum, Fold, SegmentSum, ReceivedSum;
    assert b[l.l3..l.l3 + l.ihl] == b[l.l3..l.l4];
    if l.l4Kind != OtherL4 {
      SegmentSumIs(b, l);
    }
  }

  // ----- The repair as a function of the bytes ------------------------------------------------

  function HeaderRepaired(b: seq<byte>, l: FrameLayout): (r: seq<byte>)
    requires Sane(|b|, l) && l.l3Kind == Ipv4
    ensures |r| == |b|
  {
    Put(b, l.l3 + 10, BytesOf16(0xffff - Fold(HeaderSum(Put(b, l.l3 + 10, [0, 0]), l))))
  }

  /** The transport checksum the repair stores, given the field is zeroed first. */
  function StoredChecksum(b: seq<byte>, l: FrameLayout): u16
    requires Sane(|b|, l) && l.l3Kind == Ipv4
    requires l.l4 + FieldOffset(l.l4Kind) + 2 <= |b|
  {
    var csum := 0xffff - Fold(SegmentSum(Put(b, l.l4 + FieldOffset(l.l4Kind), [0, 0]), l));
    if l.l4Kind == Udp && csum == 0 then 0xffff else csum
  }

  function SegmentRepaired(b: seq<byte>, l: FrameLayout): (r: seq<byte>)
    requires Sane(|b|, l) && l.l3Kind == Ipv4
    ensures |r| == |b|
  {
    if l.l4Kind == OtherL4 || l.end <= l.l4 || l.l4 + FieldOffset(l.l4Kind) + 1 >= |b| then b
    else Put(b, l.l4 + FieldOffset(l.l4Kind), BytesOf16(StoredChecksum(b, l)))
  }

  function Repaired(b: seq<byte>, l: FrameLayout): (r: seq<byte>)
    requires Sane(|b|, l)
    ensures |r| == |b|
  {
    if l.l3Kind != Ipv4 then b else SegmentRepaired(HeaderRepaired(b, l), l)
  }

  // ----- The imperative repair and check ------------------------------------------------------

  method RecomputeChecksums(buf: array<byte>, l: FrameLayout)
    requires Sane(buf.Length, l)
    modifies buf
    ensures buf[..] == Repaired(old(buf[..]), l)
  {
    hide Sane, HeaderRepaired, SegmentRepaired;
    if l.l3Kind != Ipv4 {
      return;
    }
    RepairHeader(buf, l);
    match l.l4Kind {
      case Tcp => RepairSegment(buf, l, 16);
      case Udp => RepairSegment(buf, l, 6);
      case OtherL4 => NoSegment(buf[..], l);
    }
  }

  lemma NoSegment(b: seq<byte>, l: FrameLayout)
    requires Sane(|b|, l) && l.l3Kind == Ipv4 && l.l4Kind == OtherL4
    ensures SegmentRepaired(b, l) == b
  {
  }

  /** The IPv4 header checksum: zeroed, summed, stored complemented. */
  method RepairHeader(buf: array<byte>, l: FrameLayout)
    requires Sane(buf.Length, l) && l.l3Kind == Ipv4
    modifies buf
    ensures buf[..] == HeaderRepaired(old(buf[..]), l)
  {
    hide Fold, WordSum, BytesOf16;
    ghost var was := buf[..];
    StoreBe16(buf, l.l3 + 10, 0);
    ZeroBytes();
    var header := buf[l.l3..l.l3 + l.ihl];
    assert header == buf[..][l.l3..l.l4];
    WordSumBound(header);
    var s := SumWords(0, header);
    var folded := FoldSum(s);
    StoreBe16(buf, l.l3 + 10, 0xffff - folded);
    PutTwice(was, l.l3 + 10, [0, 0], BytesOf16(0xffff - folded));
  }

  lemma ZeroBytes()
    ensures BytesOf16(0) == [0, 0]
  {
  }

  lemma PutTwice(b: seq<byte>, off: nat, x: seq<byte>, y: seq<byte>)
    requires |x| == |y| && off + |x| <= |b|
    ensures Put(Put(b, off, x), off, y) == Put(b, off, y)
  {
  }

  method RepairSegment(buf: array<byte>, l: FrameLayout, csumOff: nat)
    requires Sane(buf.Length, l) && l.l3Kind == Ipv4
    requires l.l4Kind != OtherL4 && csumOff == FieldOffset(l.l4Kind)
    modifies buf
    ensures buf[..] == SegmentRepaired(old(buf[..]), l)
  {
    hide Fold, WordSum, SegmentSum;
    if l.end <= l.l4 || l.l4 + csumOff + 1 >= buf.Length {
      return;
    }
    ghost var was := buf[..];
    StoreBe16(buf, l.l4 + csumOff, 0);
    var s := SumSegment(buf[..], l);
    var folded := FoldSum(s);
    var csum: u16 := 0xffff - folded;
    if l.l4Kind == Udp && csum == 0 {
      csum := 0xffff;
    }
    StoreBe16(buf, l.l4 + csumOff, csum);
    assert buf[..] == Put(was, l.l4 + csumOff, BytesOf16(csum));
  }

  /** Both sums run in one u32 accumulator, which never wraps for any parsed layout. */
  method SumSegment(buf: seq<byte>, l: FrameLayout) returns (sum: u32)
    requires Sane(|buf|, l) && l.l3Kind == Ipv4
    ensures sum == SegmentSum(buf, l)
  {
    WordSumBound(PseudoHeader(buf, l));
    WordSumBound(buf[l.l4..l.end]);
    sum := SumWords(0, PseudoHeader(buf, l));
    sum := SumWords(sum, buf[l.l4..l.end]);
  }

  method CheckChecksums(buf: seq<byte>, l: FrameLayout) returns (ok: bool)
    requires Sane(|buf|, l)
    ensures ok == ChecksumsValid(buf, l)
  {
    if l.l3Kind != Ipv4 {
      return true;
    }
    WordSumBound(buf[l.l3..l.l4]);
    var s := SumWords(0, buf[l.l3..l.l3 + l.ihl]);
    var folded := FoldSum(s);
    if folded != 0xffff {
      return false;
    }
    if l.l4Kind == OtherL4 {
      return true;
    }
    s := SumSegment(buf, l);
    folded := FoldSum(s);
    ok := folded == 0xffff;
  }

  // ----- What the repair achieves -------------------------------------------------------------

  lemma HeaderRepairValid(b: seq<byte>, l: FrameLayout)
    requires Sane(|b|, l) && l.l3Kind == Ipv4
    ensures HeaderOk(HeaderRepaired(b, l), l)
  {
    hide Fold, WordSum;
    var z := Put(b, l.l3 + 10, [0, 0]);
    var s := HeaderSum(z, l);
    var v: u16 := 0xffff - Fold(s);
    var d := b[l.l3..l.l4];
    assert z[l.l3..l.l4] == Put(d, 10, [0, 0]);
    assert HeaderRepaired(b, l)[l.l3..l.l4] == Put(d, 10, BytesOf16(v));
    WordSumField(d, 10, v);
    FoldComplement(s);
  }

  /** Where the transport checksum field lies relative to the end of the IP packet. */
  datatype Placement = Inside | Straddling | Outside

  function FieldPlacement(l: FrameLayout): Placement {
    var f := l.l4 + FieldOffset(l.l4Kind);
    if f + 2 <= l.end then Inside else if f + 1 == l.end then Straddling else Outside
  }

  lemma ZeroedPseudo(b: seq<byte>, l: FrameLayout, v: seq<byte>)
    requires Sane(|b|, l) && l.l3Kind == Ipv4 && l.l4Kind != OtherL4
    requires |v| == 2 && l.l4 + FieldOffset(l.l4Kind) + 2 <= |b|
    ensures PseudoHeader(Put(b, l.l4 + FieldOffset(l.l4Kind), v), l) == PseudoHeader(b, l)
  {
  }

  lemma InsideSum(b: seq<byte>, l: FrameLayout, v: u16)
    requires Sane(|b|, l) && l.l3Kind == Ipv4 && l.l4Kind != OtherL4
    requires FieldPlacement(l) == Inside
    ensures SegmentSum(Put(b, l.l4 + FieldOffset(l.l4Kind), BytesOf16(v)), l)
         == SegmentSum(Put(b, l.l4 + FieldOffset(l.l4Kind), [0, 0]), l) + v
  {
    var f := FieldOffset(l.l4Kind);
    var d := b[l.l4..l.end];
    ZeroedPseudo(b, l, BytesOf16(v));
    ZeroedPseudo(b, l, [0, 0]);
    assert Put(b, l.l4 + f, [0, 0])[l.l4..l.end] == Put(d, f, [0, 0]);
    assert Put(b, l.l4 + f, BytesOf16(v))[l.l4..l.end] == Put(d, f, BytesOf16(v));
    WordSumField(d, f, v);
  }

  /** The last byte of an odd segment counts as the high half of a word. */
  lemma {:induction false} WordSumLast(d: seq<byte>, v: byte)
    requires |d| % 2 == 1
    ensures WordSum(d[|d| - 1 := v]) == WordSum(d[|d| - 1 := 0]) + v as int * 0x100
    decreases |d|
  {
    if |d| > 1 {
      WordSumLast(d[2..], v);
      assert d[|d| - 1 := v][2..] == d[2..][|d| - 3 := v];
      assert d[|d| - 1 := 0][2..] == d[2..][|d| - 3 := 0];
    }
  }

  lemma StraddlingSum(b: seq<byte>, l: FrameLayout, v: u16)
    requires Sane(|b|, l) && l.l3Kind == Ipv4 && l.l4Kind != OtherL4
    requires FieldPlacement(l) == Straddling && l.l4 + FieldOffset(l.l4Kind) + 2 <= |b|
    ensures SegmentSum(Put(b, l.l4 + FieldOffset(l.l4Kind), BytesOf16(v)), l)
         == SegmentSum(Put(b, l.l4 + FieldOffset(l.l4Kind), [0, 0]), l) + v / 0x100 * 0x100
  {
    var f := FieldOffset(l.l4Kind);
    var d := b[l.l4..l.end];
    ZeroedPseudo(b, l, BytesOf16(v));
    ZeroedPseudo(b, l, [0, 0]);
    assert Put(b, l.l4 + f, [0, 0])[l.l4..l.end] == d[f := 0];
    var hi: byte := v / 0x100;
    assert Put(b, l.l4 + f, BytesOf16(v))[l.l4..l.end] == d[f := hi];
    WordSumLast(d, hi);
  }

  lemma {:induction false} WordSumCovers(d: seq<byte>, i: nat)
    requires i < |d|
    ensures d[i] <= WordSum(d)
    decreases i
  {
    if i >= 2 {
      WordSumCovers(d[2..], i - 2);
    }
  }

  /** A segment sum is never zero: the pseudo-header carries the protocol number. */
  lemma SegmentSumPositive(b: seq<byte>, l: FrameLayout)
    requires Sane(|b|, l) && l.l3Kind == Ipv4 && b[l.l3 + 9] > 0
    ensures SegmentSum(b, l) > 0
  {
    WordSumCovers(PseudoHeader(b, l), 9);
  }

  lemma ProtocolNonZero(b: seq<byte>, l: FrameLayout)
    requires LayoutOf(b) == Some(l) && l.l4Kind != OtherL4
    ensures l.l3Kind == Ipv4 && b[l.l3 + 9] > 0
  {
  }

  /**
   The exact outcome of a repair, for every frame that parses. With the whole transport checksum
   field inside the IP packet the result always validates. When the packet ends inside the field, only
   its high byte is summed, so it validates only for sums whose low byte is all ones. When the field
   lies outside, the repair cannot influence the transport verdict at all.
   */
  lemma RepairVerdict(b: seq<byte>, l: FrameLayout)
    requires LayoutOf(b) == Some(l)
    ensures ChecksumsValid(Repaired(b, l), l) <==>
              (l.l4Kind == OtherL4 ||
               match FieldPlacement(l)
               case Inside => true
               case Straddling => HalfFieldSuffices(Fold(ZeroedSum(b, l)), l.l4Kind)
               case Outside => SegmentOk(b, l))
  {
    if l.l3Kind != Ipv4 {
      return;
    }
    hide Repaired, HeaderOk, SegmentOk, LayoutOf, ZeroedSum, HalfFieldSuffices;
    RepairedHeader(b, l);
    if l.l4Kind != OtherL4 {
      ProtocolNonZero(b, l);
      match FieldPlacement(l) {
        case Inside => InsideVerdict(b, l);
        case Straddling => StraddlingVerdict(b, l);
        case Outside => OutsideVerdict(b, l);
      }
    } else {
      OtherOk(Repaired(b, l), l);
    }
  }

  lemma OutsideVerdict(b: seq<byte>, l: FrameLayout)
    requires Sane(|b|, l) && l.l3Kind == Ipv4 && l.l4Kind != OtherL4
    requires FieldPlacement(l) == Outside
    ensures SegmentOk(Repaired(b, l), l) <==> SegmentOk(b, l)
  {
    hide Repaired, SegmentSum;
    OutsideUntouched(b, l);
  }

  lemma RepairedHeader(b: seq<byte>, l: FrameLayout)
    requires Sane(|b|, l) && l.l3Kind == Ipv4
    ensures HeaderOk(Repaired(b, l), l)
  {
    hide Fold, WordSum, SegmentSum, HeaderRepaired;
    var h, r := HeaderRepaired(b, l), Repaired(b, l);
    HeaderRepairValid(b, l);
    assert r[l.l3..l.l4] == h[l.l3..l.l4];
  }

  lemma OtherOk(b: seq<byte>, l: FrameLayout)
    requires Sane(|b|, l) && l.l3Kind == Ipv4 && l.l4Kind == OtherL4
    ensures SegmentOk(b, l)
  {
  }

  lemma InsideVerdict(b: seq<byte>, l: FrameLayout)
    requires Sane(|b|, l) && l.l3Kind == Ipv4 && l.l4Kind != OtherL4 && b[l.l3 + 9] > 0
    requires FieldPlacement(l) == Inside
    ensures SegmentOk(Repaired(b, l), l)
  {
    hide Fold, WordSum, SegmentSum, HeaderRepaired;
    var h := HeaderRepaired(b, l);
    var s := SegmentSum(Put(h, l.l4 + FieldOffset(l.l4Kind), [0, 0]), l);
    var v := StoredChecksum(h, l);
    InsideSum(h, l, v);
    InsideResidue(s, v, l.l4Kind == Udp);
  }

  lemma InsideResidue(s: nat, v: u16, udp: bool)
    requires var c := 0xffff - Fold(s); v == if udp && c == 0 then 0xffff else c
    ensures Fold(s + v) == 0xffff
  {
    hide Fold;
    FoldComplement(s);
    FoldResidue(s);
    if v == 0xffff && Fold(s) == 0xffff {
      FoldResidue(s + v);
      ResidueShift(s - 1 + v, 1);
    }
  }

  /** The transport sum with the checksum field zeroed, as it stands before any repair. */
  function ZeroedSum(b: seq<byte>, l: FrameLayout): nat
    requires Sane(|b|, l) && l.l3Kind == Ipv4 && l.l4 + FieldOffset(l.l4Kind) + 2 <= |b|
  {
    SegmentSum(Put(b, l.l4 + FieldOffset(l.l4Kind), [0, 0]), l)
  }

  /** The complement of such a sum has a zero low byte, and UDP does not replace it by all ones. */
  predicate HalfFieldSuffices(folded: u16, kind: L4Kind) {
    folded % 0x100 == 0xff && !(kind == Udp && folded == 0xffff)
  }

  /** The header repair does not touch what the transport sums. */
  lemma SameZeroedSum(b: seq<byte>, l: FrameLayout)
    requires Sane(|b|, l) && l.l3Kind == Ipv4 && l.l4Kind != OtherL4
    requires l.l4 + FieldOffset(l.l4Kind) + 2 <= |b|
    ensures ZeroedSum(HeaderRepaired(b, l), l) == ZeroedSum(b, l)
  {
    hide Fold, WordSum, HeaderSum;
    var h, f := HeaderRepaired(b, l), l.l4 + FieldOffset(l.l4Kind);
    var x, y := Put(h, f, [0, 0]), Put(b, f, [0, 0]);
    assert x[l.l4..l.end] == y[l.l4..l.end];
    assert PseudoHeader(x, l) == PseudoHeader(y, l);
  }

  lemma StraddlingVerdict(b: seq<byte>, l: FrameLayout)
    requires Sane(|b|, l) && l.l3Kind == Ipv4 && l.l4Kind != OtherL4 && b[l.l3 + 9] > 0
    requires FieldPlacement(l) == Straddling && l.l4 + FieldOffset(l.l4Kind) + 2 <= |b|
    ensures SegmentOk(Repaired(b, l), l) <==> HalfFieldSuffices(Fold(ZeroedSum(b, l)), l.l4Kind)
  {
    hide Fold, WordSum, SegmentSum;
    var h := HeaderRepaired(b, l);
    SameZeroedSum(b, l);
    var z := Put(h, l.l4 + FieldOffset(l.l4Kind), [0, 0]);
    var v := StoredChecksum(h, l);
    SegmentSumPositive(z, l);
    StraddlingSum(h, l, v);
    StraddlingResidue(SegmentSum(z, l), v, l.l4Kind == Udp);
  }

  /** A 42-byte UDP frame between zero addresses, whose IP length is `total`. */
  function ShortUdp(total: byte): (b: seq<byte>)
    ensures |b| == 42
  {
    seq(42, i => if i == 12 then 8 else if i == 14 then 0x45 else if i == 17 then total else if i == 23 then 17 else 0)
  }

  function ShortLayout(total: byte): FrameLayout
    requires 20 <= total <= 27
  {
    FrameLayout(14, Ipv4, 20, 34, Udp, 14 + total, 14 + total)
  }

  /** While that length ends before the checksum field does, the frame parses and no repair can make it validate. */
  lemma ShortNeverRepaired(total: byte)
    requires 20 <= total <= 27
    ensures LayoutOf(ShortUdp(total)) == Some(ShortLayout(total))
    ensures FieldPlacement(ShortLayout(total)) == if total == 27 then Straddling else Outside
    ensures !ChecksumsValid(Repaired(ShortUdp(total), ShortLayout(total)), ShortLayout(total))
  {
    hide LayoutOf, Repaired, ChecksumsValid, SegmentSum, PseudoHeader, Fold, ShortUdp;
    var b, l := ShortUdp(total), ShortLayout(total);
    ShortParses(total);
    ShortSum(total);
    ShortZeroed(total);
    FoldResidue(total - 3);
    RepairVerdict(b, l);
  }

  lemma ShortParses(total: byte)
    requires 20 <= total <= 27
    ensures LayoutOf(ShortUdp(total)) == Some(ShortLayout(total))
  {
    var b := ShortUdp(total);
    assert Be16(b, 12) == 0x0800 && Be16(b, 16) == total;
    assert TagWalk(b, 14, 0x0800, 0) == Some((0x0800, 14));
  }

  lemma ShortZeroed(total: byte)
    requires 20 <= total <= 27
    ensures Put(ShortUdp(total), 40, [0, 0]) == ShortUdp(total)
  {
  }

  lemma ShortSum(total: byte)
    requires 20 <= total <= 27
    ensures SegmentSum(ShortUdp(total), ShortLayout(total)) == total - 3
  {
    hide WordSum;
    var b, l := ShortUdp(total), ShortLayout(total);
    ShortPseudo(total);
    ZerosSum(total - 20);
    assert b[34..14 + total] == seq<byte>(total - 20, _ => 0);
  }

  lemma ShortPseudo(total: byte)
    requires 20 <= total <= 27
    ensures WordSum(PseudoHeader(ShortUdp(total), ShortLayout(total))) == total - 3
  {
    hide WordSum;
    var zeros: seq<byte> := seq(12, _ => 0);
    var plain := Put(zeros, 8, [0, 17]);
    ZerosSum(12);
    WordSumField(zeros, 8, 17);
    assert Put(zeros, 8, [0, 0]) == zeros && BytesOf16(17) == [0, 17];
    WordSumField(plain, 10, total - 20);
    assert Put(plain, 10, [0, 0]) == plain && BytesOf16(total - 20) == [0, total - 20];
    assert PseudoHeader(ShortUdp(total), ShortLayout(total)) == Put(plain, 10, [0, total - 20]);
  }

  lemma {:induction false} ZerosSum(n: nat)
    ensures WordSum(seq(n, _ => 0)) == 0
  {
    if n >= 2 {
      ZerosSum(n - 2);
      assert seq(n, _ => 0)[2..] == seq<byte>(n - 2, _ => 0);
    }
  }

  lemma OutsideUntouched(b: seq<byte>, l: FrameLayout)
    requires Sane(|b|, l) && l.l3Kind == Ipv4 && l.l4Kind != OtherL4
    requires FieldPlacement(l) == Outside
    ensures SegmentSum(Repaired(b, l), l) == SegmentSum(b, l)
  {
    var r := Repaired(b, l);
    assert r[l.l4..l.end] == b[l.l4..l.end];
    assert PseudoHeader(r, l) == PseudoHeader(b, l);
  }

  lemma StraddlingResidue(s: nat, v: u16, udp: bool)
    requires s > 0
    requires var c := 0xffff - Fold(s); v == if udp && c == 0 then 0xffff else c
    ensures Fold(s + v / 0x100 * 0x100) == 0xffff <==> v % 0x100 == 0
  {
    hide Fold;
    var q, t := (s - 1) / 0xffff, (s - 1) % 0xffff;
    var w := v / 0x100 * 0x100;
    FoldResidue(s);
    FoldResidue(s + w);
    if t + w < 0xffff {
      ResidueOf(s + w - 1, q, t + w);
    } else {
      ResidueOf(s + w - 1, q + 1, t + w - 0xffff);
    }
  }

  /** The repair writes the two checksum fields and nothing else. */
  lemma RepairTouchesChecksumsOnly(b: seq<byte>, l: FrameLayout, i: nat)
    requires Sane(|b|, l) && i < |b|
    ensures Repaired(b, l)[i] != b[i] ==>
              && l.l3Kind == Ipv4
              && (i == l.l3 + 10 || i == l.l3 + 11
                  || (l.l4Kind == Tcp && l.l4 + 16 <= i < l.l4 + 18)
                  || (l.l4Kind == Udp && l.l4 + 6 <= i < l.l4 + 8))
  {
  }

  /** A repaired UDP checksum inside the packet is never zero, which would mean there is none (RFC 768). */
  lemma UdpNeverZero(b: seq<byte>, l: FrameLayout)
    requires Sane(|b|, l) && l.l3Kind == Ipv4 && l.l4Kind == Udp && l.l4 + 8 <= l.end
    ensures Be16(Repaired(b, l), l.l4 + 6) != 0
  {
    hide Fold, SegmentSum, HeaderRepaired;
    var h := HeaderRepaired(b, l);
    var v := StoredChecksum(h, l);
    assert Be16(BytesOf16(v), 0) == v;
  }

  lemma RepairKeepsLayout(b: seq<byte>, l: FrameLayout)
    requires LayoutOf(b) == Some(l)
    ensures LayoutOf(Repaired(b, l)) == Some(l)
  {
    assert SameShape(b, Repaired(b, l), l);
    LayoutKept(b, Repaired(b, l), l);
  }

  /** Repairing twice is repairing once. */
  lemma RepairIdempotent(b: seq<byte>, l: FrameLayout)
    requires Sane(|b|, l)
    ensures Repaired(Repaired(b, l), l) == Repaired(b, l)
  {
    if l.l3Kind == Ipv4 {
      HeaderRepairStable(b, l);
      SegmentRepairStable(HeaderRepaired(b, l), l);
    }
  }

  lemma SegmentKeepsHeader(h: seq<byte>, l: FrameLayout)
    requires Sane(|h|, l) && l.l3Kind == Ipv4
    ensures SegmentRepaired(h, l)[l.l3..l.l4] == h[l.l3..l.l4]
  {
    hide StoredChecksum;
  }

  lemma SliceWithin(b: seq<byte>, from: nat, to: nat, i: nat, j: nat)
    requires i <= j && from + j <= to <= |b|
    ensures b[from..to][i..j] == b[from + i..from + j]
  {
    var s := b[from..to];
    assert forall k :: 0 <= k < |s| ==> s[k] == b[from + k];
    assert forall k :: 0 <= k < j - i ==> s[i..j][k] == s[i + k] == b[from + i..from + j][k];
  }

  lemma PutSelf(b: seq<byte>, off: nat, x: seq<byte>)
    requires off + |x| <= |b| && b[off..off + |x|] == x
    ensures Put(b, off, x) == b
  {
  }

  /** Equal headers give equal header checksums. */
  lemma SameHeaderSum(b: seq<byte>, c: seq<byte>, l: FrameLayout)
    requires |b| == |c| && Sane(|b|, l) && l.l3Kind == Ipv4 && b[l.l3..l.l4] == c[l.l3..l.l4]
    ensures HeaderSum(Put(b, l.l3 + 10, [0, 0]), l) == HeaderSum(Put(c, l.l3 + 10, [0, 0]), l)
  {
    hide WordSum;
    var d := b[l.l3..l.l4];
    assert Put(b, l.l3 + 10, [0, 0])[l.l3..l.l4] == Put(d, 10, [0, 0]);
    assert Put(c, l.l3 + 10, [0, 0])[l.l3..l.l4] == Put(d, 10, [0, 0]);
  }

  lemma HeaderRepairStable(b: seq<byte>, l: FrameLayout)
    requires Sane(|b|, l) && l.l3Kind == Ipv4
    ensures HeaderRepaired(Repaired(b, l), l) == Repaired(b, l)
  {
    hide Fold, HeaderSum, SegmentRepaired, Put, BytesOf16;
    var h := HeaderRepaired(b, l);
    var r := SegmentRepaired(h, l);
    var v := BytesOf16(0xffff - Fold(HeaderSum(Put(b, l.l3 + 10, [0, 0]), l)));
    SegmentKeepsHeader(h, l);
    SameHeaderSum(r, h, l);
    PutTwice(b, l.l3 + 10, v, [0, 0]);
    assert h[l.l3 + 10..l.l3 + 12] == v;
    SliceWithin(r, l.l3, l.l4, 10, 12);
    SliceWithin(h, l.l3, l.l4, 10, 12);
    PutSelf(r, l.l3 + 10, v);
  }

  lemma SegmentRepairStable(h: seq<byte>, l: FrameLayout)
    requires Sane(|h|, l) && l.l3Kind == Ipv4
    ensures SegmentRepaired(SegmentRepaired(h, l), l) == SegmentRepaired(h, l)
  {
    var f := l.l4 + FieldOffset(l.l4Kind);
    if l.l4Kind != OtherL4 && l.end > l.l4 && f + 1 < |h| {
      assert Put(SegmentRepaired(h, l), f, [0, 0]) == Put(h, f, [0, 0]);
    }
  }
}
