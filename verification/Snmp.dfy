/** The BER pieces of the SNMP builder (ITU-T X.690), against a decoder that knows only the encoding rules. */
module Snmp {
  import opened Wire
  import opened Arith

  const GROUP_SLOTS: nat := 10

  // ----- Object identifiers -------------------------------------------------------------------

  /** Base-128 groups of `v`, least significant first; every group but the first carries the continuation bit. */
  function Little(v: nat, more: bool): (r: seq<byte>)
    ensures |r| > 0
    decreases v
  {
    [v % 0x80 + if more then 0x80 else 0] + if v / 0x80 > 0 then Little(v / 0x80, true) else []
  }

  /** The same groups as they go on the wire: most significant first, the last one without the bit. */
  function Groups(v: nat, more: bool): (r: seq<byte>)
    ensures |r| > 0
    decreases v
  {
    (if v / 0x80 > 0 then Groups(v / 0x80, true) else []) + [v % 0x80 + if more then 0x80 else 0]
  }

  function Arcs(arcs: seq<u64>): seq<byte> {
    if arcs == [] then [] else Arcs(arcs[..|arcs| - 1]) + Groups(arcs[|arcs| - 1], false)
  }

  /** OID content bytes; the first two arcs are folded into one octet, truncated to eight bits. */
  function Encoded(arcs: seq<u64>): Option<seq<byte>> {
    if |arcs| < 2 || arcs[0] > 2 then None
    else Some([(arcs[0] as int * 40 + arcs[1]) % 0x100] + Arcs(arcs[2..]))
  }

  /** Refused are exactly identifiers of fewer than two arcs, and first arcs other than 0, 1 and 2. */
  lemma OidAccepted(arcs: seq<u64>)
    ensures Encoded(arcs).Some? <==> exists a: u64, b: u64, rest :: a <= 2 && arcs == [a, b] + rest
  {
    if |arcs| >= 2 {
      assert arcs == [arcs[0], arcs[1]] + arcs[2..];
    }
    if exists a: u64, b: u64, rest :: a <= 2 && arcs == [a, b] + rest {
      var a: u64, b: u64, rest :| a <= 2 && arcs == [a, b] + rest;
      assert arcs[0] == a;
    }
  }

  function Reversed(s: seq<byte>): (r: seq<byte>)
    ensures |r| == |s|
  {
    if s == [] then [] else [s[|s| - 1]] + Reversed(s[..|s| - 1])
  }

  lemma NoneReversed()
    ensures Reversed([]) == []
  {
  }

  lemma ReversedStep(s: seq<byte>, i: nat)
    requires i < |s|
    ensures Reversed(s[..i + 1]) == [s[i]] + Reversed(s[..i])
  {
    assert s[..i + 1][..i] == s[..i];
  }

  lemma {:induction false} ReversedConcat(a: seq<byte>, b: seq<byte>)
    ensures Reversed(a + b) == Reversed(b) + Reversed(a)
    decreases |b|
  {
    if b == [] {
      assert a + b == a;
    } else {
      ReversedConcat(a, b[..|b| - 1]);
      assert (a + b)[..|a + b| - 1] == a + b[..|b| - 1];
    }
  }

  lemma {:induction false} GroupsReverse(v: nat, more: bool)
    ensures Reversed(Little(v, more)) == Groups(v, more)
    decreases v
  {
    var first: byte := v % 0x80 + if more then 0x80 else 0;
    assert Reversed([first]) == [first];
    if v / 0x80 > 0 {
      GroupsReverse(v / 0x80, true);
      ReversedConcat([first], Little(v / 0x80, true));
    } else {
      assert Little(v, more) == [first];
    }
  }

  function Pow128(n: nat): (r: nat)
    ensures r > 0
  {
    if n == 0 then 1 else 0x80 * Pow128(n - 1)
  }

  lemma Pow128Ten()
    ensures Pow128(GROUP_SLOTS) > 0xffff_ffff_ffff_ffff
  {
    assert Pow128(5) == 0x80 * 0x80 * 0x80 * 0x80 * 0x80;
    assert Pow128(10) == 0x80 * 0x80 * 0x80 * 0x80 * 0x80 * Pow128(5);
  }

  /** What is left of an arc after `n` groups of seven bits. */
  predicate LeftAfter(v: nat, n: nat, arc: u64) {
    v * Pow128(n) <= arc
  }

  /** Ten groups always suffice for 64 bits. */
  lemma SlotLeft(v: nat, n: nat, arc: u64)
    requires v > 0 && n <= GROUP_SLOTS && LeftAfter(v, n, arc)
    ensures n < GROUP_SLOTS
  {
    if n == GROUP_SLOTS {
      Pow128Ten();
      MulMonotone(1, v, Pow128(n));
    }
  }

  lemma FirstPower(arc: u64)
    ensures LeftAfter(arc, 0, arc)
  {
  }

  lemma NextPower(v: nat, n: nat, arc: u64)
    requires LeftAfter(v, n, arc)
    ensures LeftAfter(v / 0x80, n + 1, arc)
  {
    MulMonotone(v / 0x80 * 0x80, v, Pow128(n));
    assert v / 0x80 * (0x80 * Pow128(n)) == v / 0x80 * 0x80 * Pow128(n);
  }

  method EncodeOid(arcs: seq<u64>) returns (r: Option<seq<byte>>)
    ensures r == Encoded(arcs)
  {
    if |arcs| < 2 || arcs[0] > 2 {
      return None;
    }
    var out: seq<byte> := [(arcs[0] as int * 40 + arcs[1]) % 0x100];
    ghost var head := out;
    var k := 2;
    assert arcs[2..2] == [];
    while k < |arcs|
      invariant 2 <= k <= |arcs|
      invariant out == head + Arcs(arcs[2..k])
    {
      var groups := EncodeArc(arcs[k]);
      assert arcs[2..k + 1][..k - 2] == arcs[2..k];
      assert out + groups == head + (Arcs(arcs[2..k]) + groups);
      out := out + groups;
      k := k + 1;
    }
    assert arcs[2..|arcs|] == arcs[2..];
    r := Some(out);
  }

  /** The groups still to come. */
  ghost function Left(v: nat): seq<byte> {
    if v > 0 then Little(v, true) else []
  }

  lemma NoneLeft()
    ensures Left(0) == []
  {
  }

  lemma LittleStep(v: nat, more: bool)
    ensures v > 0 ==> Left(v) == Little(v, true)
    ensures Little(v, more) == [v % 0x80 + if more then 0x80 else 0] + Left(v / 0x80)
  {
  }

  method StoreGroup(group: array<byte>, n: nat, b: byte)
    requires n < group.Length
    modifies group
    ensures group[..n + 1] == old(group[..n]) + [b]
  {
    group[n] := b;
  }

  /** Fills the fixed ten-slot buffer of the source, least significant group first. */
  method FillGroups(group: array<byte>, arc: u64) returns (n: nat)
    requires group.Length == GROUP_SLOTS
    modifies group
    ensures n <= GROUP_SLOTS && group[..n] == Little(arc, false)
  {
    hide LeftAfter, Little, Left;
    NoneLeft();
    n := 0;
    var v: int := arc;
    FirstPower(arc);
    NextPower(v, n, arc);
    LittleStep(v, false);
    StoreGroup(group, n, v % 0x80);
    n := n + 1;
    v := v / 0x80;
    while v > 0
      invariant 0 < n <= GROUP_SLOTS && 0 <= v && LeftAfter(v, n, arc)
      invariant group[..n] + Left(v) == Little(arc, false)
    {
      SlotLeft(v, n, arc);
      NextPower(v, n, arc);
      LittleStep(v, true);
      ghost var was, rest := group[..n], Left(v / 0x80);
      StoreGroup(group, n, v % 0x80 + 0x80);
      assert was + ([v % 0x80 + 0x80] + rest) == was + [v % 0x80 + 0x80] + rest;
      n := n + 1;
      v := v / 0x80;
    }
  }

  /** One arc: the filled groups, poured out in reverse. */
  method EncodeArc(arc: u64) returns (out: seq<byte>)
    ensures out == Groups(arc, false)
  {
    hide Groups, Little, Reversed;
    var group := new byte[GROUP_SLOTS](_ => 0);
    var n := FillGroups(group, arc);
    ghost var all := group[..n];
    GroupsReverse(arc, false);
    NoneReversed();
    assert all[..n] == all && all[..0] == [];
    out := [];
    var i := n;
    while i > 0
      invariant 0 <= i <= n && group[..n] == all
      invariant out + Reversed(all[..i]) == Reversed(all)
    {
      i := i - 1;
      ReversedStep(all, i);
      assert out + ([all[i]] + Reversed(all[..i])) == out + [all[i]] + Reversed(all[..i]);
      assert group[i] == group[..n][i];
      out := out + [group[i]];
    }
  }

  // ----- Decoding (section 8.19 of X.690) -----------------------------------------------------

  /** Subidentifiers of a byte string: `acc` holds the groups read so far of one that is under way. */
  function Subids(b: seq<byte>, acc: nat, underWay: bool): Option<seq<nat>>
    decreases |b|
  {
    if b == [] then if underWay then None else Some([])
    else if !underWay && b[0] == 0x80 then None
    else
      var v := acc * 0x80 + b[0] % 0x80;
      if b[0] >= 0x80 then Subids(b[1..], v, true)
      else match Subids(b[1..], 0, false) case None => None case Some(s) => Some([v] + s)
  }

  /** Splits the first subidentifier into the first two arcs. */
  function Decode(b: seq<byte>): Option<seq<nat>> {
    match Subids(b, 0, false)
    case None => None
    case Some(s) =>
      if s == [] then None
      else if s[0] < 40 then Some([0, s[0]] + s[1..])
      else if s[0] < 80 then Some([1, s[0] - 40] + s[1..])
      else Some([2, s[0] - 80] + s[1..])
  }

  /** Base-128 value of `v`'s groups read behind `acc`. */
  function Behind(acc: nat, v: nat): nat
    decreases v
  {
    if v / 0x80 > 0 then Behind(acc, v / 0x80) * 0x80 + v % 0x80 else acc * 0x80 + v % 0x80
  }

  lemma {:induction false} BehindZero(v: nat)
    ensures Behind(0, v) == v
    decreases v
  {
    if v / 0x80 > 0 {
      BehindZero(v / 0x80);
    }
  }

  /** Reading all groups but the last leaves their value under way. */
  lemma {:induction false} ReadGroups(v: nat, acc: nat, underWay: bool, rest: seq<byte>)
    requires v > 0 && (!underWay ==> acc == 0)
    ensures Subids(Groups(v, true) + rest, acc, underWay) == Subids(rest, Behind(acc, v), true)
    decreases v
  {
    hide Subids;
    var last: byte := v % 0x80 + 0x80;
    if v / 0x80 > 0 {
      ReadGroups(v / 0x80, acc, underWay, [last] + rest);
      assert Groups(v, true) + rest == Groups(v / 0x80, true) + ([last] + rest);
    } else {
      assert Groups(v, true) + rest == [last] + rest;
    }
    ReadOne(last, rest, if v / 0x80 > 0 then Behind(acc, v / 0x80) else acc, underWay || v / 0x80 > 0);
  }

  /** A continuation octet, unless it would be a padding octet. */
  lemma ReadOne(b: byte, rest: seq<byte>, acc: nat, underWay: bool)
    requires b >= 0x80 && (underWay || b > 0x80)
    ensures Subids([b] + rest, acc, underWay) == Subids(rest, acc * 0x80 + b % 0x80, true)
  {
    assert ([b] + rest)[1..] == rest;
  }

  lemma ReadArc(v: nat, rest: seq<byte>)
    ensures Subids(Groups(v, false) + rest, 0, false)
         == match Subids(rest, 0, false) case None => None case Some(s) => Some([v] + s)
  {
    var last: byte := v % 0x80;
    assert ([last] + rest)[1..] == rest;
    BehindZero(v);
    if v / 0x80 > 0 {
      ReadGroups(v / 0x80, 0, false, [last] + rest);
      assert Groups(v, false) + rest == Groups(v / 0x80, true) + ([last] + rest);
    } else {
      assert Groups(v, false) + rest == [last] + rest;
    }
  }

  /** Concatenated arcs read back as exactly those arcs, so no two lists of arcs share an encoding. */
  lemma {:induction false} ArcsDecode(arcs: seq<u64>, rest: seq<byte>)
    ensures Subids(Arcs(arcs) + rest, 0, false)
         == match Subids(rest, 0, false) case None => None case Some(s) => Some(arcs + s)
    decreases |arcs|
  {
    hide Groups, Subids;
    if arcs == [] {
      assert [] + rest == rest;
      assert forall s: seq<nat> :: arcs + s == s;
    } else {
      var front, last := arcs[..|arcs| - 1], arcs[|arcs| - 1];
      var tail := Groups(last, false) + rest;
      assert Arcs(arcs) + rest == Arcs(front) + tail;
      ArcsDecode(front, tail);
      ReadArc(last, rest);
      assert forall s: seq<nat> :: front + ([last] + s) == arcs + s;
    }
  }

  lemma ArcsInjective(a: seq<u64>, b: seq<u64>)
    requires Arcs(a) == Arcs(b)
    ensures a == b
  {
    hide Arcs;
    ArcsDecode(a, []);
    ArcsDecode(b, []);
    assert Arcs(a) + [] == Arcs(b) + [];
    assert a + [] == a && b + [] == b;
  }

  /** Octets that end a subidentifier. */
  function Ends(b: seq<byte>): nat {
    if b == [] then 0 else (if b[0] < 0x80 then 1 else 0) + Ends(b[1..])
  }

  lemma {:induction false} SubidsCount(b: seq<byte>, acc: nat, underWay: bool)
    requires Subids(b, acc, underWay).Some?
    ensures |Subids(b, acc, underWay).value| == Ends(b)
    decreases |b|
  {
    if b != [] {
      if b[0] >= 0x80 {
        SubidsCount(b[1..], acc * 0x80 + b[0] % 0x80, true);
      } else {
        SubidsCount(b[1..], 0, false);
      }
    }
  }

  /** The single octet can hold the first subidentifier, and its split into two arcs is the intended one. */
  predicate FirstArcsFit(arcs: seq<u64>)
    requires |arcs| >= 2
  {
    arcs[0] as int * 40 + arcs[1] < 0x80 && (arcs[0] < 2 ==> arcs[1] < 40)
  }

  /** Decoding undoes encoding exactly when the first two arcs fit one octet unambiguously. */
  lemma OidRoundTrip(arcs: seq<u64>)
    requires Encoded(arcs).Some?
    ensures Decode(Encoded(arcs).value) == Some(arcs) <==> FirstArcsFit(arcs)
  {
    var b := Encoded(arcs).value;
    var rest := arcs[2..];
    ArcsDecode(rest, []);
    assert Arcs(rest) + [] == Arcs(rest) && rest + [] == rest;
    assert b[1..] == Arcs(rest);
    SubidsCount(Arcs(rest), 0, false);
    if b[0] < 0x80 {
      OneOctet(arcs, b);
    } else {
      assert Ends(b) == |rest|;
      if Subids(b, 0, false).Some? {
        SubidsCount(b, 0, false);
      }
    }
  }

  lemma OneOctet(arcs: seq<u64>, b: seq<byte>)
    requires |arcs| >= 2 && arcs[0] <= 2 && b != [] && b[0] < 0x80 && b[0] == (arcs[0] as int * 40 + arcs[1]) % 0x100
    requires Subids(b[1..], 0, false) == Some(arcs[2..])
    ensures Decode(b) == Some(arcs) <==> FirstArcsFit(arcs)
  {
    var s := [b[0] as nat] + arcs[2..];
    assert Subids(b, 0, false) == Some(s);
    assert s[1..] == arcs[2..];
    assert arcs == [arcs[0], arcs[1]] + arcs[2..];
    var d := Decode(b).value;
    assert d[0] * 40 + d[1] == b[0];
  }

  // ----- Lengths and integers -----------------------------------------------------------------

  /** The length octets; past 0xffff the high part no longer fits and is cut off. */
  function BerLen(len: nat): (r: seq<byte>)
    ensures |r| > 0
  {
    if len < 0x80 then [len] else if len < 0x100 then [0x81, len] else [0x82, len / 0x100 % 0x100, len % 0x100]
  }

  function Tlv(tag: byte, value: seq<byte>): seq<byte> {
    [tag] + BerLen(|value|) + value
  }

  /** Reads one definite-length element (section 8.1.3 of X.690) of at most two length octets. */
  function ReadTlv(b: seq<byte>): Option<(byte, seq<byte>, seq<byte>)> {
    if |b| < 2 then None
    else if b[1] < 0x80 then Element(b, 2, b[1])
    else if b[1] == 0x81 && |b| >= 3 then Element(b, 3, b[2])
    else if b[1] == 0x82 && |b| >= 4 then Element(b, 4, Be16(b, 2))
    else None
  }

  function Element(b: seq<byte>, at: nat, len: nat): Option<(byte, seq<byte>, seq<byte>)>
    requires 0 < at <= |b|
  {
    if at + len > |b| then None else Some((b[0], b[at..at + len], b[at + len..]))
  }

  lemma ElementAt(head: seq<byte>, value: seq<byte>, rest: seq<byte>)
    requires |head| > 0
    ensures Element(head + value + rest, |head|, |value|) == Some((head[0], value, rest))
  {
    var b := head + value + rest;
    assert b[|head|..|head| + |value|] == value && b[|head| + |value|..] == rest;
  }

  lemma ReadHead(head: seq<byte>, tail: seq<byte>, len: nat)
    requires |head| > 1 && head[1..] == BerLen(len)
    requires len <= 0xffff || |tail| >= len
    ensures ReadTlv(head + tail) == Element(head + tail, |head|, if len < 0x100 then len else len % 0x1_0000)
  {
    hide Element;
    var b, n := head + tail, BerLen(len);
    assert b[1] == head[1..][0];
    if |n| > 1 {
      assert b[2] == head[1..][1];
    }
    if |n| > 2 {
      assert b[3] == head[1..][2];
      LowWord(len);
    }
  }

  lemma LowWord(len: nat)
    ensures len / 0x100 % 0x100 * 0x100 + len % 0x100 == len % 0x1_0000
  {
    var q, r := Split(len, 0x100);
    var k, h := Split(q, 0x100);
    Remainder(len, 0x1_0000, k, h * 0x100 + r);
  }

  /** An element reads back as its tag and value, with what follows it untouched, exactly up to 65535 octets. */
  lemma TlvRoundTrip(tag: byte, value: seq<byte>, rest: seq<byte>)
    ensures ReadTlv(Tlv(tag, value) + rest) == Some((tag, value, rest)) <==> |value| <= 0xffff
  {
    hide BerLen, ReadTlv;
    var head := [tag] + BerLen(|value|);
    assert Tlv(tag, value) + rest == head + (value + rest);
    assert Tlv(tag, value) + rest == head + value + rest;
    ReadHead(head, value + rest, |value|);
    ElementAt(head, value, rest);
  }

  /** A non-negative INTEGER in the fewest octets that keep it positive. */
  method IntContent(v: u32) returns (val: seq<byte>)
    ensures val == Minimal(v)
  {
    var bytes := BytesOf32(v);
    var start := 0;
    while start < 3 && bytes[start] == 0
      invariant 0 <= start <= 3
      invariant Stripped(bytes[start..]) == Stripped(bytes)
    {
      assert bytes[start..][1..] == bytes[start + 1..];
      start := start + 1;
    }
    val := bytes[start..];
    if val[0] >= 0x80 {
      val := [0] + val;
    }
  }

  function Stripped(b: seq<byte>): (r: seq<byte>)
    requires b != []
    ensures r != []
  {
    if |b| > 1 && b[0] == 0 then Stripped(b[1..]) else b
  }

  function Minimal(v: u32): (r: seq<byte>)
    ensures r != []
  {
    var s := Stripped(BytesOf32(v));
    if s[0] >= 0x80 then [0] + s else s
  }

  function Unsigned(b: seq<byte>): nat {
    if b == [] then 0 else Unsigned(b[..|b| - 1]) * 0x100 + b[|b| - 1]
  }

  function Pow256(n: nat): nat {
    if n == 0 then 1 else 0x100 * Pow256(n - 1)
  }

  /** Two's complement (section 8.3.3 of X.690). */
  function Signed(b: seq<byte>): int
    requires b != []
  {
    if b[0] >= 0x80 then Unsigned(b) - Pow256(|b|) else Unsigned(b)
  }

  lemma {:induction false} LeadingZero(b: seq<byte>)
    ensures Unsigned([0] + b) == Unsigned(b)
    decreases |b|
  {
    var z: seq<byte> := [0] + b;
    if b == [] {
      assert z[..0] == [];
    } else {
      LeadingZero(b[..|b| - 1]);
      assert z[..|z| - 1] == [0] + b[..|b| - 1];
    }
  }

  lemma {:induction false} StrippedValue(b: seq<byte>)
    requires b != []
    ensures Unsigned(Stripped(b)) == Unsigned(b) && |Stripped(b)| <= |b|
    ensures |Stripped(b)| > 1 ==> Stripped(b)[0] != 0
    decreases |b|
  {
    if |b| > 1 && b[0] == 0 {
      StrippedValue(b[1..]);
      assert [0] + b[1..] == b;
      LeadingZero(b[1..]);
    }
  }

  lemma {:induction false} UnsignedBounds(b: seq<byte>)
    requires b != []
    ensures b[0] as int * Pow256(|b| - 1) <= Unsigned(b) < (b[0] as int + 1) * Pow256(|b| - 1)
    decreases |b|
  {
    var n := |b| - 1;
    assert Unsigned(b) == Unsigned(b[..n]) * 0x100 + b[n];
    if n == 0 {
      assert Unsigned(b[..0]) == 0 && Pow256(0) == 1;
    } else {
      UnsignedBounds(b[..n]);
      OneOctetMore(b[0], Pow256(n - 1), Unsigned(b[..n]), b[n]);
      assert Pow256(n) == 0x100 * Pow256(n - 1);
    }
  }

  lemma OneOctetMore(x: byte, p: nat, u: nat, last: byte)
    requires x as int * p <= u < (x as int + 1) * p
    ensures x as int * (0x100 * p) <= u * 0x100 + last < (x as int + 1) * (0x100 * p)
  {
    var lo, hi := x as int * p, (x as int + 1) * p;
    assert x as int * (0x100 * p) == 0x100 * lo && (x as int + 1) * (0x100 * p) == 0x100 * hi;
  }

  /** Of the values that many octets can hold, half are negative. */
  lemma SignedRange(b: seq<byte>)
    requires b != []
    ensures -(Pow256(|b|) as int) <= 2 * Signed(b) < Pow256(|b|)
    ensures Signed(b) == Unsigned(b) || Signed(b) == Unsigned(b) - Pow256(|b|)
  {
    UnsignedBounds(b);
    HalfRange(b[0], Pow256(|b| - 1), Unsigned(b));
  }

  lemma HalfRange(x: byte, p: nat, v: nat)
    requires x as int * p <= v < (x as int + 1) * p
    ensures x >= 0x80 ==> 0x80 * p <= v < 0x100 * p
    ensures x < 0x80 ==> v < 0x80 * p
  {
    if x >= 0x80 {
      MulMonotone(0x80, x, p);
      MulMonotone(x + 1, 0x100, p);
    } else {
      MulMonotone(x + 1, 0x80, p);
    }
  }

  /** The content decodes to the value, and no octet could be dropped (section 8.3.2 of X.690). */
  lemma IntRoundTrip(v: u32)
    ensures Signed(Minimal(v)) == v
    ensures var m := Minimal(v); |m| > 1 ==> !(m[0] == 0 && m[1] < 0x80) && !(m[0] == 0xff && m[1] >= 0x80)
  {
    var b := BytesOf32(v);
    var s := Stripped(b);
    StrippedValue(b);
    LeadingZero(s);
    BigEndianValue(b);
  }

  lemma BigEndianValue(b: seq<byte>)
    requires |b| == 4
    ensures Unsigned(b) == Be32(b, 0)
  {
    assert b[..3][..2] == b[..2] && b[..2][..1] == b[..1] && b[..1][..0] == [];
    assert Unsigned(b[..1]) == b[0];
    assert Unsigned(b[..2]) == b[0] as int * 0x100 + b[1];
    assert Unsigned(b[..3]) == Unsigned(b[..2]) * 0x100 + b[2];
  }
}
