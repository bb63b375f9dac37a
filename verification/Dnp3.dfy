/** DNP3 data-link frames (clause 9 of IEEE 1815-2012): building them, and the mutator that walks them in place. */
module Dnp3 {
  import opened Wire
  import opened Mapper

  type Crc = seq<byte> -> u16

  /** A data-link frame before framing: control octet, addresses, user data. */
  datatype Link = Link(ctrl: byte, dest: u16, src: u16, user: seq<byte>)

  function Le16(x: u16): (s: seq<byte>)
    ensures |s| == 2
  {
    [x % 0x100, x / 0x100]
  }

  function ReadLe16(b: seq<byte>, off: nat): u16
    requires off + 2 <= |b|
  {
    b[off] + b[off + 1] as int * 0x100
  }

  function BlocksLen(user: nat): nat {
    user + 2 * ((user + 15) / 16)
  }

  /** User data in 16-byte blocks, each trailed by its own CRC. */
  function Blocks(crc: Crc, user: seq<byte>): (r: seq<byte>)
    ensures |r| == BlocksLen(|user|)
  {
    if user == [] then []
    else
      var n := if |user| < 16 then |user| else 16;
      user[..n] + Le16(crc(user[..n])) + Blocks(crc, user[n..])
  }

  function Header(crc: Crc, len: byte, ctrl: byte, dest: u16, src: u16): (r: seq<byte>)
    ensures |r| == 10
  {
    var h: seq<byte> := [0x05, 0x64, len, ctrl] + Le16(dest) + Le16(src);
    h + Le16(crc(h))
  }

  function LinkBytes(crc: Crc, f: Link): (r: seq<byte>)
    ensures |r| == 10 + BlocksLen(|f.user|)
  {
    Header(crc, (5 + |f.user|) % 0x100, f.ctrl, f.dest, f.src) + Blocks(crc, f.user)
  }

  method LinkFrame(crc: Crc, ctrl: byte, dest: u16, src: u16, user: seq<byte>) returns (b: seq<byte>)
    ensures b == LinkBytes(crc, Link(ctrl, dest, src, user))
  {
    hide Blocks;
    b := [0x05, 0x64, (5 + |user|) % 0x100, ctrl];
    b := b + Le16(dest);
    b := b + Le16(src);
    assert b[0..8] == b;
    b := b + Le16(crc(b[0..8]));
    ghost var head := b;
    var at := 0;
    assert user[0..] == user;
    while at < |user|
      invariant 0 <= at <= |user|
      invariant b + Blocks(crc, user[at..]) == head + Blocks(crc, user)
    {
      var n := if |user| - at < 16 then |user| - at else 16;
      NextBlock(crc, user, at, n);
      assert b + (user[at..at + n] + Le16(crc(user[at..at + n])) + Blocks(crc, user[at + n..]))
          == b + user[at..at + n] + Le16(crc(user[at..at + n])) + Blocks(crc, user[at + n..]);
      b := b + user[at..at + n];
      b := b + Le16(crc(user[at..at + n]));
      at := at + n;
    }
    NoBlocks(crc, user[at..]);
  }

  lemma NextBlock(crc: Crc, user: seq<byte>, at: nat, n: nat)
    requires at < |user| && n == if |user| - at < 16 then |user| - at else 16
    ensures Blocks(crc, user[at..]) == user[at..at + n] + Le16(crc(user[at..at + n])) + Blocks(crc, user[at + n..])
  {
    assert user[at..][..n] == user[at..at + n] && user[at..][n..] == user[at + n..];
  }

  lemma NoBlocks(crc: Crc, user: seq<byte>)
    requires user == []
    ensures Blocks(crc, user) == []
  {
  }

  // ----- Receiving ----------------------------------------------------------------------------

  /** User data out of its blocks, `n` octets of it, each block under the CRC behind it. */
  function ReceiveBlocks(crc: Crc, b: seq<byte>, n: nat): Option<seq<byte>>
    decreases n
  {
    if n == 0 then if b == [] then Some([]) else None
    else
      var k := if n < 16 then n else 16;
      if |b| < k + 2 || ReadLe16(b, k) != crc(b[..k]) then None
      else match ReceiveBlocks(crc, b[k + 2..], n - k)
           case None => None
           case Some(rest) => Some(b[..k] + rest)
  }

  /** What a station makes of a frame: start octets, length, and every CRC as they should be, or nothing. */
  function ReceiveLink(crc: Crc, b: seq<byte>): Option<Link> {
    if |b| < 10 || b[0] != 0x05 || b[1] != 0x64 || b[2] < 5 || ReadLe16(b, 8) != crc(b[..8]) then None
    else match ReceiveBlocks(crc, b[10..], b[2] - 5)
         case None => None
         case Some(user) => Some(Link(b[3], ReadLe16(b, 4), ReadLe16(b, 6), user))
  }

  lemma {:induction false} BlocksReceived(crc: Crc, user: seq<byte>)
    ensures ReceiveBlocks(crc, Blocks(crc, user), |user|) == Some(user)
    decreases |user|
  {
    if user != [] {
      var k := if |user| < 16 then |user| else 16;
      var b, c, rest := Blocks(crc, user), Le16(crc(user[..k])), Blocks(crc, user[k..]);
      BlocksReceived(crc, user[k..]);
      assert b[..k] == user[..k] && b[k] == c[0] && b[k + 1] == c[1] && b[k + 2..] == rest;
      assert user[..k] + user[k..] == user;
    }
  }

  /** A framed message of up to 250 octets is received as it was sent. */
  lemma LinkRoundTrip(crc: Crc, f: Link)
    requires |f.user| <= 250
    ensures ReceiveLink(crc, LinkBytes(crc, f)) == Some(f)
  {
    hide Blocks, ReceiveBlocks;
    BlocksReceived(crc, f.user);
    var b, d, s := LinkBytes(crc, f), Le16(f.dest), Le16(f.src);
    var h: seq<byte> := [0x05, 0x64, 5 + |f.user|, f.ctrl] + d + s;
    var c := Le16(crc(h));
    assert b == h + c + Blocks(crc, f.user);
    assert b[..8] == h && b[8] == c[0] && b[9] == c[1] && b[10..] == Blocks(crc, f.user);
    assert b[4] == d[0] && b[5] == d[1] && b[6] == s[0] && b[7] == s[1];
  }

  // ----- Walking a payload --------------------------------------------------------------------

  /** A frame header the walker accepts at `o`. */
  predicate HeaderAt(p: seq<byte>, o: nat) {
    o + 10 <= |p| && p[o] == 0x05 && p[o + 1] == 0x64 && p[o + 2] >= 5
  }

  function NextFrame(p: seq<byte>, o: nat): (n: nat)
    requires HeaderAt(p, o)
    ensures n >= o + 10
  {
    o + 10 + BlocksLen(p[o + 2] - 5)
  }

  /** A link address under a capture-wide map; an address outside it stays. */
  function Lookup(fwd: map<(Domain, u64), u64>, addr: u16): u16 {
    if (Dnp3Addr, addr) in fwd then fwd[(Dnp3Addr, addr)] % 0x1_0000 else addr
  }

  function HeaderMapped(crc: Crc, p: seq<byte>, o: nat, fwd: map<(Domain, u64), u64>): (r: seq<byte>)
    requires HeaderAt(p, o)
    ensures |r| == |p| && HeaderAt(r, o) && r[o + 2] == p[o + 2]
    ensures forall i :: 0 <= i < |p| && !(o + 4 <= i < o + 10) ==> r[i] == p[i]
  {
    var d := Put(p, o + 4, Le16(Lookup(fwd, ReadLe16(p, o + 4))));
    var s := Put(d, o + 6, Le16(Lookup(fwd, ReadLe16(p, o + 6))));
    Put(s, o + 8, Le16(crc(s[o..o + 8])))
  }

  /** The payload after every frame from `o` on has its addresses mapped and its header CRC redone. */
  function Walked(crc: Crc, p: seq<byte>, o: nat, fwd: map<(Domain, u64), u64>): (r: seq<byte>)
    ensures |r| == |p|
    decreases |p| - o
  {
    if HeaderAt(p, o) then Walked(crc, HeaderMapped(crc, p, o, fwd), NextFrame(p, o), fwd) else p
  }

  /** The offsets the walk visits. */
  function Visits(p: seq<byte>, o: nat): seq<nat>
    decreases |p| - o
  {
    if HeaderAt(p, o) then [o] + Visits(p, NextFrame(p, o)) else []
  }

  datatype Report = Report(isDest: bool, original: u16, mapped: u16)

  function AddressReports(isDest: bool, addr: u16, fwd: map<(Domain, u64), u64>): seq<Report> {
    if Lookup(fwd, addr) != addr then [Report(isDest, addr, Lookup(fwd, addr))] else []
  }

  function HeaderReports(p: seq<byte>, o: nat, fwd: map<(Domain, u64), u64>): seq<Report>
    requires HeaderAt(p, o)
  {
    AddressReports(true, ReadLe16(p, o + 4), fwd) + AddressReports(false, ReadLe16(p, o + 6), fwd)
  }

  /** One report per address that changed, in wire order. */
  function Reports(p: seq<byte>, o: nat, fwd: map<(Domain, u64), u64>): seq<Report>
    decreases |p| - o
  {
    if HeaderAt(p, o) then HeaderReports(p, o, fwd) + Reports(p, NextFrame(p, o), fwd) else []
  }

  /** An address of the frame at `o`, its destination or its source, that the map changes. */
  ghost predicate Changes(p: seq<byte>, o: nat, fwd: map<(Domain, u64), u64>, r: Report) {
    && o + 8 <= |p|
    && r.original == p[o + if r.isDest then 4 else 6] as int + p[o + if r.isDest then 5 else 7] as int * 0x100
    && r.mapped == Lookup(fwd, r.original) && r.mapped != r.original
  }

  /** What is reported is exactly what changes. */
  lemma {:induction false} ReportsExactly(p: seq<byte>, o: nat, fwd: map<(Domain, u64), u64>, r: Report)
    ensures r in Reports(p, o, fwd) <==> exists k :: k in Visits(p, o) && Changes(p, k, fwd, r)
    decreases |p| - o
  {
    hide Changes, Lookup, BlocksLen;
    if HeaderAt(p, o) {
      ReportsExactly(p, NextFrame(p, o), fwd, r);
      HeaderReported(p, o, fwd, r);
      assert Visits(p, o) == [o] + Visits(p, NextFrame(p, o));
    }
  }

  lemma HeaderReported(p: seq<byte>, o: nat, fwd: map<(Domain, u64), u64>, r: Report)
    requires HeaderAt(p, o)
    ensures r in HeaderReports(p, o, fwd) <==> Changes(p, o, fwd, r)
  {
    hide Lookup;
  }

  ghost predicate Extends(more: map<(Domain, u64), u64>, fwd: map<(Domain, u64), u64>) {
    forall k :: k in fwd ==> k in more && more[k] == fwd[k]
  }

  /** Both addresses of the header at `o` are mapped. */
  ghost predicate Known(p: seq<byte>, o: nat, fwd: map<(Domain, u64), u64>) {
    HeaderAt(p, o) && (Dnp3Addr, ReadLe16(p, o + 4)) in fwd && (Dnp3Addr, ReadLe16(p, o + 6)) in fwd
  }

  lemma SameAhead(p: seq<byte>, q: seq<byte>, o: nat)
    requires |p| == |q| && forall i :: o <= i < |p| ==> p[i] == q[i]
    ensures HeaderAt(p, o) == HeaderAt(q, o) && (HeaderAt(p, o) ==> o < |p| && NextFrame(p, o) == NextFrame(q, o))
  {
  }

  /** Later parts of the walk do not look back, so an earlier rewrite leaves their verdict alone. */
  lemma {:induction false} SameVisits(p: seq<byte>, q: seq<byte>, o: nat)
    requires |p| == |q| && forall i :: o <= i < |p| ==> p[i] == q[i]
    ensures Visits(p, o) == Visits(q, o)
    decreases |p| - o
  {
    hide HeaderAt, BlocksLen;
    SameAhead(p, q, o);
    if HeaderAt(p, o) {
      SameVisits(p, q, NextFrame(p, o));
    }
  }

  lemma {:induction false} SameReports(p: seq<byte>, q: seq<byte>, o: nat, fwd: map<(Domain, u64), u64>)
    requires |p| == |q| && forall i :: o <= i < |p| ==> p[i] == q[i]
    ensures Reports(p, o, fwd) == Reports(q, o, fwd)
    decreases |p| - o
  {
    if HeaderAt(p, o) {
      SameReports(p, q, NextFrame(p, o), fwd);
    }
  }

  // ----- The mutator --------------------------------------------------------------------------

  /** Where the loop stands: the rest of the walk, under any later map, finishes the whole walk. */
  ghost predicate Continues(crc: Crc, start: seq<byte>, now: seq<byte>, o: nat, fwd: map<(Domain, u64), u64>,
                            reports: seq<Report>) {
    forall g :: Extends(g, fwd) ==>
      && Walked(crc, now, o, g) == Walked(crc, start, 0, g)
      && reports + Reports(now, o, g) == Reports(start, 0, g)
  }

  /** The frames visited so far, all with their addresses in the map; nothing ahead has been touched. */
  ghost predicate Seen(start: seq<byte>, now: seq<byte>, o: nat, fwd: map<(Domain, u64), u64>, seen: seq<nat>) {
    && |now| == |start| && (forall i :: o <= i < |start| ==> now[i] == start[i])
    && seen + Visits(start, o) == Visits(start, 0)
    && forall k :: k in seen ==> Known(start, k, fwd)
  }

  lemma StepContinues(crc: Crc, start: seq<byte>, now: seq<byte>, o: nat, fwd: map<(Domain, u64), u64>,
                      later: map<(Domain, u64), u64>, reports: seq<Report>)
    requires Continues(crc, start, now, o, fwd, reports)
    requires Extends(later, fwd) && Known(now, o, later)
    ensures Continues(crc, start, HeaderMapped(crc, now, o, later), NextFrame(now, o), later,
                      reports + HeaderReports(now, o, later))
  {
    hide HeaderMapped;
    var next := HeaderMapped(crc, now, o, later);
    forall g | Extends(g, later)
      ensures Walked(crc, next, NextFrame(now, o), g) == Walked(crc, start, 0, g)
      ensures reports + HeaderReports(now, o, later) + Reports(next, NextFrame(now, o), g) == Reports(start, 0, g)
    {
      assert Extends(g, fwd);
      SameHeader(crc, now, o, later, g);
      SameReports(now, next, NextFrame(now, o), g);
    }
  }

  lemma SameHeader(crc: Crc, p: seq<byte>, o: nat, fwd: map<(Domain, u64), u64>, g: map<(Domain, u64), u64>)
    requires Known(p, o, fwd) && Extends(g, fwd)
    ensures HeaderMapped(crc, p, o, g) == HeaderMapped(crc, p, o, fwd)
    ensures HeaderReports(p, o, g) == HeaderReports(p, o, fwd)
  {
  }

  lemma VisitStep(p: seq<byte>, o: nat)
    ensures Visits(p, o) == if HeaderAt(p, o) then [o] + Visits(p, NextFrame(p, o)) else []
  {
  }

  lemma WalkStep(crc: Crc, p: seq<byte>, o: nat, fwd: map<(Domain, u64), u64>)
    ensures Walked(crc, p, o, fwd) ==
              if HeaderAt(p, o) then Walked(crc, HeaderMapped(crc, p, o, fwd), NextFrame(p, o), fwd) else p
  {
  }

  lemma SameKnown(p: seq<byte>, q: seq<byte>, o: nat, fwd: map<(Domain, u64), u64>)
    requires |p| == |q| && forall i :: o <= i < |p| ==> p[i] == q[i]
    requires Known(p, o, fwd)
    ensures Known(q, o, fwd)
  {
  }

  lemma MoreKnown(p: seq<byte>, o: nat, fwd: map<(Domain, u64), u64>, more: map<(Domain, u64), u64>)
    requires Known(p, o, fwd) && Extends(more, fwd)
    ensures Known(p, o, more)
  {
  }

  lemma StepSeen(crc: Crc, start: seq<byte>, now: seq<byte>, o: nat, fwd: map<(Domain, u64), u64>,
                 later: map<(Domain, u64), u64>, seen: seq<nat>)
    requires Seen(start, now, o, fwd, seen) && Extends(later, fwd) && Known(now, o, later)
    ensures Seen(start, HeaderMapped(crc, now, o, later), NextFrame(now, o), later, seen + [o])
  {
    hide HeaderMapped, Visits, NextFrame, Known, Extends;
    SameKnown(now, start, o, later);
    Stepped(start, now, o, seen, later);
    forall k | k in seen ensures Known(start, k, later) {
      MoreKnown(start, k, fwd, later);
    }
  }

  lemma Stepped(start: seq<byte>, now: seq<byte>, o: nat, seen: seq<nat>, fwd: map<(Domain, u64), u64>)
    requires |now| == |start| && forall i :: o <= i < |start| ==> now[i] == start[i]
    requires seen + Visits(start, o) == Visits(start, 0) && Known(now, o, fwd)
    ensures HeaderAt(now, o) && NextFrame(now, o) >= o
    ensures seen + [o] + Visits(start, NextFrame(now, o)) == Visits(start, 0)
  {
    hide Visits, NextFrame, HeaderAt;
    SameAhead(now, start, o);
    VisitStep(start, o);
    var rest := Visits(start, NextFrame(start, o));
    assert seen + ([o] + rest) == seen + [o] + rest;
  }

  lemma Begin(crc: Crc, start: seq<byte>, fwd: map<(Domain, u64), u64>)
    ensures Continues(crc, start, start, 0, fwd, []) && Seen(start, start, 0, fwd, [])
  {
    assert [] + Visits(start, 0) == Visits(start, 0);
    forall g | Extends(g, fwd) ensures [] + Reports(start, 0, g) == Reports(start, 0, g) {}
  }

  lemma Finish(crc: Crc, start: seq<byte>, now: seq<byte>, o: nat, fwd: map<(Domain, u64), u64>, reports: seq<Report>,
               seen: seq<nat>)
    requires Continues(crc, start, now, o, fwd, reports) && Seen(start, now, o, fwd, seen) && !HeaderAt(now, o)
    ensures now == Walked(crc, start, 0, fwd) && reports == Reports(start, 0, fwd)
    ensures forall k :: k in Visits(start, 0) ==> Known(start, k, fwd)
  {
    assert Extends(fwd, fwd);
    assert !HeaderAt(start, o);
    assert seen + [] == seen;
    assert reports + [] == reports;
  }

  /** What the mapper knows of link addresses, and how far it has drawn. */
  datatype Table = Table(fwd: map<(Domain, u64), u64>, used: set<u64>, pos: nat)

  ghost function TableOf(mapper: SeededMapper): Table
    reads mapper, mapper.rng
  {
    Table(mapper.fwd, mapper.UsedIn(Dnp3Addr), mapper.rng.pos)
  }

  /**
   The mapper only learns. Its used values are those from before and those drawn on the way, and a
   one-to-one address table stays one to one exactly unless some 65 draws in a row all hit values
   held before them.
   */
  ghost predicate Learned(draws: nat -> nat, was: Table, now: Table) {
    && Extends(now.fwd, was.fwd) && was.pos <= now.pos
    && now.used == was.used + Drawn(draws, was.pos, now.pos)
    && EndsFresh(draws, was.pos, now.pos, was.used)
    && (OneToOne16(was.fwd, Dnp3Addr) ==>
          (OneToOne16(now.fwd, Dnp3Addr) <==> !Exhausted(draws, was.pos, now.pos, was.used)))
  }

  lemma LearnedNothing(draws: nat -> nat, t: Table)
    ensures Learned(draws, t, t)
  {
    NoDraw(draws, t.pos, t.used);
  }

  lemma LearnedTwice(draws: nat -> nat, a: Table, b: Table, c: Table)
    requires Learned(draws, a, b) && Learned(draws, b, c)
    ensures Learned(draws, a, c)
  {
    hide Exhausted, OneToOne16, EndsFresh, Drawn;
    ExhaustedTwice(draws, a.pos, b.pos, c.pos, a.used);
    EndsFreshTwice(draws, a.pos, b.pos, c.pos, a.used);
    DrawnSplit(draws, a.pos, b.pos, c.pos);
    assert a.used + Drawn(draws, a.pos, b.pos) + Drawn(draws, b.pos, c.pos) == a.used + Drawn(draws, a.pos, c.pos);
    OneToOneBefore(b.fwd, c.fwd);
  }

  /** Entries are never dropped, so a collision stays. */
  lemma OneToOneBefore(fwd: map<(Domain, u64), u64>, more: map<(Domain, u64), u64>)
    requires Extends(more, fwd)
    ensures OneToOne16(more, Dnp3Addr) ==> OneToOne16(fwd, Dnp3Addr)
  {
  }

  /** Maps the address at `o`, writing it back only when it changed. */
  method MapAddress(p: array<byte>, o: nat, mapper: SeededMapper, isDest: bool) returns (reports: seq<Report>)
    requires o + 2 <= p.Length && mapper.Valid()
    modifies p, mapper, mapper.rng
    ensures mapper.Valid() && Learned(mapper.rng.draws, old(TableOf(mapper)), TableOf(mapper))
    ensures (Dnp3Addr, ReadLe16(old(p[..]), o)) in mapper.fwd
    ensures p[..] == Put(old(p[..]), o, Le16(Lookup(mapper.fwd, ReadLe16(old(p[..]), o))))
    ensures reports == AddressReports(isDest, ReadLe16(old(p[..]), o), mapper.fwd)
  {
    hide OneToOne16, Exhausted, EndsFresh, Drawn, Put, Le16, ReadLe16;
    reports := [];
    var addr := ReadLe16(p[..], o);
    var mapped := mapper.MapU16(Dnp3Addr, addr);
    if mapped != addr {
      CopyFromSlice(p, o, Le16(mapped));
      reports := reports + [Report(isDest, addr, mapped)];
    } else {
      PutBack(p[..], o, addr);
    }
  }

  /** Writing one address does not disturb the other. */
  lemma ReadBeside(b: seq<byte>, o: nat, data: seq<byte>, i: nat)
    requires o + |data| <= i && i + 2 <= |b|
    ensures ReadLe16(Put(b, o, data), i) == ReadLe16(b, i)
  {
  }

  /** Rewrites one header in place: destination, source, and the CRC over the eight octets before it. */
  method MutateHeader(crc: Crc, p: array<byte>, o: nat, mapper: SeededMapper) returns (reports: seq<Report>)
    requires HeaderAt(p[..], o) && mapper.Valid()
    modifies p, mapper, mapper.rng
    ensures mapper.Valid() && Learned(mapper.rng.draws, old(TableOf(mapper)), TableOf(mapper))
    ensures Known(old(p[..]), o, mapper.fwd)
    ensures p[..] == HeaderMapped(crc, old(p[..]), o, mapper.fwd)
    ensures reports == HeaderReports(old(p[..]), o, mapper.fwd)
  {
    hide OneToOne16, Exhausted, EndsFresh, Drawn, Put, Le16, ReadLe16, AddressReports, Lookup;
    ghost var was, before := p[..], TableOf(mapper);
    reports := MapAddress(p, o + 4, mapper, true);
    ghost var between := TableOf(mapper);
    ReadBeside(was, o + 4, Le16(Lookup(mapper.fwd, ReadLe16(was, o + 4))), o + 6);
    var more := MapAddress(p, o + 6, mapper, false);
    LearnedTwice(mapper.rng.draws, before, between, TableOf(mapper));
    SameAddress(ReadLe16(was, o + 4), between.fwd, mapper.fwd);
    reports := reports + more;
    var headerCrc := crc(p[o..o + 8]);
    assert p[o..o + 8] == p[..][o..o + 8];
    CopyFromSlice(p, o + 8, Le16(headerCrc));
  }

  lemma SameAddress(addr: u16, fwd: map<(Domain, u64), u64>, g: map<(Domain, u64), u64>)
    requires (Dnp3Addr, addr) in fwd && Extends(g, fwd)
    ensures Lookup(g, addr) == Lookup(fwd, addr) &&
              forall d :: AddressReports(d, addr, g) == AddressReports(d, addr, fwd)
  {
  }

  lemma PutBack(p: seq<byte>, o: nat, v: u16)
    requires o + 2 <= |p| && v == ReadLe16(p, o)
    ensures Put(p, o, Le16(v)) == p
  {
    assert Le16(v) == p[o..o + 2];
  }

  /**
   Walks every link frame packed into a payload. For any payload at all, the result is the walk under
   the mapper's final table, in which both addresses of every visited frame are present.
   */
  method Mutate(crc: Crc, p: array<byte>, mapper: SeededMapper) returns (reports: seq<Report>)
    requires mapper.Valid()
    modifies p, mapper, mapper.rng
    ensures mapper.Valid() && Learned(mapper.rng.draws, old(TableOf(mapper)), TableOf(mapper))
    ensures p[..] == Walked(crc, old(p[..]), 0, mapper.fwd)
    ensures reports == Reports(old(p[..]), 0, mapper.fwd)
    ensures forall k :: k in Visits(old(p[..]), 0) ==> Known(old(p[..]), k, mapper.fwd)
  {
    hide Continues, Seen, HeaderMapped, HeaderReports, Walked, Visits, Reports, Known, OneToOne16, Exhausted,
      EndsFresh, Drawn;
    ghost var start, table := p[..], TableOf(mapper);
    ghost var seen: seq<nat> := [];
    reports := [];
    var o := 0;
    Begin(crc, start, mapper.fwd);
    LearnedNothing(mapper.rng.draws, table);
    while o + 10 <= p.Length
      invariant mapper.Valid() && Learned(mapper.rng.draws, table, TableOf(mapper))
      invariant Continues(crc, start, p[..], o, mapper.fwd, reports)
      invariant Seen(start, p[..], o, mapper.fwd, seen)
      decreases p.Length - o
    {
      if p[o] != 0x05 || p[o + 1] != 0x64 {
        break;
      }
      var len: int := p[o + 2];
      if len < 5 {
        break;
      }
      ghost var now, fwd, before := p[..], mapper.fwd, TableOf(mapper);
      var more := MutateHeader(crc, p, o, mapper);
      StepContinues(crc, start, now, o, fwd, mapper.fwd, reports);
      StepSeen(crc, start, now, o, fwd, mapper.fwd, seen);
      LearnedTwice(mapper.rng.draws, table, before, TableOf(mapper));
      reports := reports + more;
      seen := seen + [o];
      var user := len - 5;
      var blocks := (user + 15) / 16;
      o := o + 10 + user + 2 * blocks;
    }
    Finish(crc, start, p[..], o, mapper.fwd, reports, seen);
  }

  // ----- The walk over well-formed frames -----------------------------------------------------

  function Concat(crc: Crc, frames: seq<Link>): seq<byte> {
    if frames == [] then [] else LinkBytes(crc, frames[0]) + Concat(crc, frames[1..])
  }

  function MappedLink(f: Link, fwd: map<(Domain, u64), u64>): Link {
    f.(dest := Lookup(fwd, f.dest), src := Lookup(fwd, f.src))
  }

  function MappedLinks(frames: seq<Link>, fwd: map<(Domain, u64), u64>): (r: seq<Link>)
    ensures |r| == |frames|
  {
    if frames == [] then [] else [MappedLink(frames[0], fwd)] + MappedLinks(frames[1..], fwd)
  }

  /** Where each frame of a concatenation starts. */
  function Starts(frames: seq<Link>, o: nat): seq<nat> {
    if frames == [] then [] else [o] + Starts(frames[1..], o + 10 + BlocksLen(|frames[0].user|))
  }

  /** A frame on its own reads back as it was framed. */
  lemma FrameReads(crc: Crc, f: Link)
    requires |f.user| <= 250
    ensures var b := LinkBytes(crc, f);
            && HeaderAt(b, 0) && b[2] == 5 + |f.user|
            && ReadLe16(b, 4) == f.dest && ReadLe16(b, 6) == f.src && NextFrame(b, 0) == |b|
  {
    hide Blocks;
    var b := LinkBytes(crc, f);
    var h: seq<byte> := [0x05, 0x64, 5 + |f.user|, f.ctrl] + Le16(f.dest) + Le16(f.src);
    assert b[..8] == h;
    assert forall i :: 0 <= i < 8 ==> b[i] == b[..8][i];
    assert h[4] == f.dest % 0x100 && h[5] == f.dest / 0x100 && h[6] == f.src % 0x100 && h[7] == f.src / 0x100;
  }

  /** Overwriting the middle of a concatenation. */
  lemma PutMiddle(a: seq<byte>, b: seq<byte>, c: seq<byte>, data: seq<byte>)
    requires |data| == |b|
    ensures Put(a + b + c, |a|, data) == a + data + c
  {
  }

  /** Rewriting the header of one frame yields exactly the frame of the mapped addresses. */
  lemma FrameRewrites(crc: Crc, f: Link, fwd: map<(Domain, u64), u64>)
    requires |f.user| <= 250 && HeaderAt(LinkBytes(crc, f), 0)
    ensures HeaderMapped(crc, LinkBytes(crc, f), 0, fwd) == LinkBytes(crc, MappedLink(f, fwd))
  {
    hide Blocks, HeaderAt, Lookup, Put, Le16, ReadLe16;
    FrameReads(crc, f);
    var b, g := LinkBytes(crc, f), MappedLink(f, fwd);
    var head: seq<byte> := [0x05, 0x64, 5 + |f.user|, f.ctrl];
    var was := head + Le16(f.dest) + Le16(f.src);
    var now := head + Le16(g.dest) + Le16(g.src);
    var tail := Blocks(crc, f.user);
    var rest := Le16(crc(was)) + tail;
    assert b == head + Le16(f.dest) + (Le16(f.src) + rest);
    PutMiddle(head, Le16(f.dest), Le16(f.src) + rest, Le16(g.dest));
    assert head + Le16(g.dest) + (Le16(f.src) + rest) == head + Le16(g.dest) + Le16(f.src) + rest;
    PutMiddle(head + Le16(g.dest), Le16(f.src), rest, Le16(g.src));
    var s := now + rest;
    assert s[0..8] == now && s == now + Le16(crc(was)) + tail;
    PutMiddle(now, Le16(crc(was)), tail, Le16(crc(now)));
  }

  lemma ReadShift(pre: seq<byte>, b: seq<byte>, post: seq<byte>, i: nat)
    requires i + 2 <= |b|
    ensures ReadLe16(pre + b + post, |pre| + i) == ReadLe16(b, i)
  {
    var p := pre + b + post;
    assert p[|pre| + i] == b[i] && p[|pre| + i + 1] == b[i + 1];
  }

  lemma PutShift(pre: seq<byte>, b: seq<byte>, post: seq<byte>, i: nat, data: seq<byte>)
    requires i + |data| <= |b|
    ensures Put(pre + b + post, |pre| + i, data) == pre + Put(b, i, data) + post
  {
  }

  lemma HeaderShift(pre: seq<byte>, b: seq<byte>, post: seq<byte>)
    requires HeaderAt(b, 0)
    ensures HeaderAt(pre + b + post, |pre|) && NextFrame(pre + b + post, |pre|) == |pre| + NextFrame(b, 0)
  {
    var p := pre + b + post;
    assert p[|pre|] == b[0] && p[|pre| + 1] == b[1] && p[|pre| + 2] == b[2];
  }

  /** A header is rewritten the same way wherever it lies in the payload. */
  lemma RewriteShift(crc: Crc, pre: seq<byte>, b: seq<byte>, post: seq<byte>, fwd: map<(Domain, u64), u64>)
    requires HeaderAt(b, 0) && HeaderAt(pre + b + post, |pre|)
    ensures HeaderMapped(crc, pre + b + post, |pre|, fwd) == pre + HeaderMapped(crc, b, 0, fwd) + post
  {
    hide Lookup, Le16, Put;
    ReadShift(pre, b, post, 4);
    ReadShift(pre, b, post, 6);
    var dest, src := Lookup(fwd, ReadLe16(b, 4)), Lookup(fwd, ReadLe16(b, 6));
    PutShift(pre, b, post, 4, Le16(dest));
    var d := Put(b, 4, Le16(dest));
    PutShift(pre, d, post, 6, Le16(src));
    var s := Put(d, 6, Le16(src));
    assert (pre + s + post)[|pre|..|pre| + 8] == s[0..8];
    PutShift(pre, s, post, 8, Le16(crc(s[0..8])));
  }

  lemma NoHeader(p: seq<byte>, o: nat)
    requires |p| < o + 10
    ensures !HeaderAt(p, o)
  {
  }

  /** Behind any prefix, the walk over well-formed frames visits each frame start and maps each frame. */
  lemma {:induction false} WalkFrom(crc: Crc, pre: seq<byte>, frames: seq<Link>, fwd: map<(Domain, u64), u64>)
    requires forall f :: f in frames ==> |f.user| <= 250
    ensures Walked(crc, pre + Concat(crc, frames), |pre|, fwd) == pre + Concat(crc, MappedLinks(frames, fwd))
    decreases |frames|
  {
    hide LinkBytes, HeaderMapped, MappedLink, HeaderAt, NextFrame, BlocksLen, ReadLe16, Walked;
    WalkStep(crc, pre + Concat(crc, frames), |pre|, fwd);
    if frames == [] {
      NoHeader(pre, |pre|);
      assert pre + [] == pre;
    } else {
      var f, post := frames[0], Concat(crc, frames[1..]);
      var b, c := LinkBytes(crc, f), LinkBytes(crc, MappedLink(f, fwd));
      assert pre + Concat(crc, frames) == pre + b + post;
      FrameReads(crc, f);
      HeaderShift(pre, b, post);
      RewriteShift(crc, pre, b, post, fwd);
      FrameRewrites(crc, f, fwd);
      WalkFrom(crc, pre + c, frames[1..], fwd);
      SameLength(f, fwd);
      assert pre + c + Concat(crc, MappedLinks(frames[1..], fwd)) ==
             pre + (c + Concat(crc, MappedLinks(frames[1..], fwd)));
    }
  }

  lemma SameLength(f: Link, fwd: map<(Domain, u64), u64>)
    ensures |MappedLink(f, fwd).user| == |f.user|
  {
  }

  lemma {:induction false} VisitFrom(crc: Crc, pre: seq<byte>, frames: seq<Link>)
    requires forall f :: f in frames ==> |f.user| <= 250
    ensures Visits(pre + Concat(crc, frames), |pre|) == Starts(frames, |pre|)
    decreases |frames|
  {
    hide LinkBytes, HeaderAt, NextFrame, BlocksLen, ReadLe16, Visits;
    VisitStep(pre + Concat(crc, frames), |pre|);
    if frames == [] {
      NoHeader(pre, |pre|);
      assert pre + [] == pre;
    } else {
      var f, post := frames[0], Concat(crc, frames[1..]);
      var b := LinkBytes(crc, f);
      assert pre + Concat(crc, frames) == pre + b + post;
      FrameReads(crc, f);
      HeaderShift(pre, b, post);
      VisitFrom(crc, pre + b, frames[1..]);
    }
  }

  /**
   On any payload that is a concatenation of framed messages, the walk visits exactly the frame
   starts, and the result is the concatenation of the same messages between mapped addresses: every
   header CRC is the right one again and user data with its block CRCs is untouched.
   */
  lemma WalkMapsFrames(crc: Crc, frames: seq<Link>, fwd: map<(Domain, u64), u64>)
    requires forall f :: f in frames ==> |f.user| <= 250
    ensures Visits(Concat(crc, frames), 0) == Starts(frames, 0)
    ensures Walked(crc, Concat(crc, frames), 0, fwd) == Concat(crc, MappedLinks(frames, fwd))
  {
    assert [] + Concat(crc, frames) == Concat(crc, frames);
    assert [] + Concat(crc, MappedLinks(frames, fwd)) == Concat(crc, MappedLinks(frames, fwd));
    WalkFrom(crc, [], frames, fwd);
    VisitFrom(crc, [], frames);
  }

  /** In any payload the walk changes addresses and CRC behind a start of frame, and not an octet else. */
  lemma {:induction false} WalkTouches(crc: Crc, p: seq<byte>, o: nat, fwd: map<(Domain, u64), u64>, i: nat)
    requires i < |p| && Walked(crc, p, o, fwd)[i] != p[i]
    ensures exists k :: o <= k <= i && k + 4 <= i < k + 10 && i < |p| && p[k] == 0x05 && p[k + 1] == 0x64
    decreases |p| - o
  {
    hide HeaderMapped;
    if HeaderAt(p, o) {
      var q, next := HeaderMapped(crc, p, o, fwd), NextFrame(p, o);
      if q[i] == p[i] {
        WalkTouches(crc, q, next, fwd, i);
        var k :| next <= k <= i && k + 4 <= i < k + 10 && q[k] == 0x05 && q[k + 1] == 0x64;
        assert p[k] == 0x05 && p[k + 1] == 0x64;
      } else {
        assert p[o] == 0x05 && p[o + 1] == 0x64;
      }
    }
  }

  /** Distinct link addresses stay distinct under a one-to-one table. */
  lemma MappedApart(fwd: map<(Domain, u64), u64>, a: u16, b: u16)
    requires OneToOne16(fwd, Dnp3Addr) && (Dnp3Addr, a) in fwd && (Dnp3Addr, b) in fwd
    ensures Lookup(fwd, a) == Lookup(fwd, b) ==> a == b
  {
  }
}
