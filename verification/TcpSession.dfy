/**
 A synthesized TCP connection: handshake, messages, teardown. Sequence and acknowledgement numbers
 are judged by a receiver that knows only the frames (section 3.4 of RFC 9293).
 */
module TcpSession {
  import opened Wire
  import opened Arith
  import opened Eth

  const WRAP: nat := 0x1_0000_0000
  const FIN: byte := 0x01
  const SYN: byte := 0x02
  const PSH_ACK: byte := 0x18
  const SYN_ACK: byte := 0x12
  const FIN_ACK: byte := 0x11
  const ACK: byte := 0x10

  datatype Side = Client | Server

  /** The two ends of a connection, with their Ethernet addresses. */
  datatype Ends = Ends(clientMac: Mac, serverMac: Mac, client: Endpoint, server: Endpoint)

  predicate HasFin(flags: byte) { flags % 2 == 1 }

  predicate HasSyn(flags: byte) { flags / 2 % 2 == 1 }

  predicate HasAck(flags: byte) { flags / 16 % 2 == 1 }

  /** Sequence numbers a segment uses up. */
  function Consumed(flags: byte, data: seq<byte>): nat {
    |data| + if HasSyn(flags) || HasFin(flags) then 1 else 0
  }

  function Peer(side: Side): Side {
    if side == Client then Server else Client
  }

  function EndOf(e: Ends, side: Side): Endpoint {
    if side == Client then e.client else e.server
  }

  function MacOf(e: Ends, side: Side): Mac {
    if side == Client then e.clientMac else e.serverMac
  }

  /** Initial sequence numbers are derived from the addresses, in wrapping arithmetic. */
  function Isn(e: Ends, side: Side): u32 {
    if side == Client then (e.client.ip * 2654435761 % WRAP + e.client.port) % WRAP
    else (e.server.ip * 40503 % WRAP + 0x5EED_0000) % WRAP
  }

  /** A multiplication by an odd number loses nothing modulo 2^32. */
  lemma OddTimes(x: u32, y: u32)
    ensures x * 2654435761 % WRAP == y * 2654435761 % WRAP ==> x == y
    ensures x * 40503 % WRAP == y * 40503 % WRAP ==> x == y
  {
    var a, b := x * 2654435761 / WRAP - y * 2654435761 / WRAP, x * 40503 / WRAP - y * 40503 / WRAP;
    if x * 2654435761 % WRAP == y * 2654435761 % WRAP {
      assert (x as int - y as int) * 2654435761 == a * WRAP;
      assert x as int - y as int == (244002641 * a - 150801925 * (x as int - y as int)) * WRAP;
    }
    if x * 40503 % WRAP == y * 40503 % WRAP {
      assert (x as int - y as int) * 40503 == b * WRAP;
      assert x as int - y as int == (1650947975 * b - 15569 * (x as int - y as int)) * WRAP;
    }
  }

  /** Sessions to different servers, or from different ports or hosts, start at different numbers. */
  lemma IsnSeparates(e: Ends, f: Ends)
    ensures e.server.ip != f.server.ip ==> Isn(e, Server) != Isn(f, Server)
    ensures e.client.ip == f.client.ip && e.client.port != f.client.port ==> Isn(e, Client) != Isn(f, Client)
    ensures e.client.ip != f.client.ip && e.client.port == f.client.port ==> Isn(e, Client) != Isn(f, Client)
  {
    OddTimes(e.client.ip, f.client.ip);
    OddTimes(e.server.ip, f.server.ip);
    SameShift(e.server.ip * 40503 % WRAP, f.server.ip * 40503 % WRAP, 0x5EED_0000);
    SameShift(e.client.ip * 2654435761 % WRAP, f.client.ip * 2654435761 % WRAP, e.client.port);
    SameShift(e.client.port, f.client.port, e.client.ip * 2654435761 % WRAP);
  }

  lemma SameShift(a: u32, b: u32, c: u32)
    ensures (a + c as int) % WRAP == (b + c as int) % WRAP ==> a == b
  {
  }

  predicate HasPsh(flags: byte) { flags / 8 % 2 == 1 }

  /** The flag bits of section 3.1 of RFC 9293, lowest first. */
  lemma FlagBits(fin: nat, syn: nat, rst: nat, psh: nat, ack: nat, high: nat)
    requires fin < 2 && syn < 2 && rst < 2 && psh < 2 && ack < 2 && high < 8
    ensures var flags: byte := fin + 2 * syn + 4 * rst + 8 * psh + 16 * ack + 32 * high;
            && (HasFin(flags) <==> fin == 1) && (HasSyn(flags) <==> syn == 1)
            && (HasPsh(flags) <==> psh == 1) && (HasAck(flags) <==> ack == 1)
  {
    var q := ack + 2 * high;
    var r := psh + 2 * q;
    var t := syn + 2 * (rst + 2 * r);
    Remainder(q, 2, high, ack);
    Remainder(r, 2, q, psh);
    Remainder(t, 2, rst + 2 * r, syn);
    var flags: byte := fin + 2 * t;
    Remainder(flags, 2, t, fin);
    Remainder(flags, 8, r, fin + 2 * syn + 4 * rst);
    Remainder(flags, 16, q, fin + 2 * syn + 4 * rst + 8 * psh);
  }

  // ----- What a session has sent, as a function of what it was asked to send ------------------

  datatype Op = Op(from: Side, flags: byte, data: seq<byte>)

  function Used(ops: seq<Op>, side: Side): nat {
    if ops == [] then 0
    else
      var last := ops[|ops| - 1];
      Used(ops[..|ops| - 1], side) + if last.from == side then Consumed(last.flags, last.data) else 0
  }

  /** The next sequence number of a side. */
  function Next(e: Ends, ops: seq<Op>, side: Side): u32 {
    (Isn(e, side) + Used(ops, side)) % WRAP
  }

  function SegmentFor(e: Ends, before: seq<Op>, op: Op): Segment {
    Segment(EndOf(e, op.from), EndOf(e, Peer(op.from)), Next(e, before, op.from), Next(e, before, Peer(op.from)),
            op.flags, op.data)
  }

  function Sent(e: Ends, ops: seq<Op>): (r: seq<Segment>)
    ensures |r| == |ops|
  {
    if ops == [] then []
    else
      var before := ops[..|ops| - 1];
      Sent(e, before) + [SegmentFor(e, before, ops[|ops| - 1])]
  }

  function FrameFor(e: Ends, from: Side, s: Segment): seq<byte> {
    TcpFrame(MacOf(e, from), MacOf(e, Peer(from)), s)
  }

  function Frames(e: Ends, ops: seq<Op>): (r: seq<seq<byte>>)
    ensures |r| == |ops|
  {
    if ops == [] then []
    else
      var before, op := ops[..|ops| - 1], ops[|ops| - 1];
      Frames(e, before) + [FrameFor(e, op.from, SegmentFor(e, before, op))]
  }

  function OpenOps(): seq<Op> {
    [Op(Client, SYN, []), Op(Server, SYN_ACK, []), Op(Client, ACK, [])]
  }

  function CloseOps(): seq<Op> {
    [Op(Client, FIN_ACK, []), Op(Server, ACK, []), Op(Server, FIN_ACK, []), Op(Client, ACK, [])]
  }

  datatype Message = Message(from: Side, data: seq<byte>)

  function SayOps(messages: seq<Message>): (r: seq<Op>)
    ensures |r| == |messages|
    ensures forall i :: 0 <= i < |r| ==> r[i] == Op(messages[i].from, PSH_ACK, messages[i].data)
  {
    seq(|messages|, i requires 0 <= i < |messages| => Op(messages[i].from, PSH_ACK, messages[i].data))
  }

  /** A whole connection: handshake, any script of messages, teardown. */
  function Script(messages: seq<Message>): seq<Op> {
    OpenOps() + SayOps(messages) + CloseOps()
  }

  /**
   The handshake synchronizes, every segment but the first acknowledges, only messages push, and only the
   last two FINs finish.
   */
  lemma ScriptFlags(messages: seq<Message>, i: nat)
    requires i < |Script(messages)|
    ensures var op, n := Script(messages)[i], |messages|;
            && (HasSyn(op.flags) <==> i < 2) && (HasAck(op.flags) <==> i > 0)
            && (HasPsh(op.flags) <==> 3 <= i < n + 3)
            && (HasFin(op.flags) <==> i == n + 3 || i == n + 5)
            && (3 <= i < n + 3 ==> op.from == messages[i - 3].from && op.data == messages[i - 3].data)
            && (i < 3 || n + 3 <= i ==>
                  op.data == [] && (op.from == Client <==> i == 0 || i == 2 || i == n + 3 || i == n + 6))
  {
  }

  /** Every frame is addressed from its sender's hardware to the other side's. */
  lemma {:induction false} FramesAddressed(e: Ends, ops: seq<Op>, i: nat)
    requires i < |ops| && |ops[i].data| <= MAX_TCP_PAYLOAD
    ensures |Frames(e, ops)[i]| >= 54
    ensures Frames(e, ops)[i][..6] == if ops[i].from == Client then e.serverMac else e.clientMac
    ensures Frames(e, ops)[i][6..12] == if ops[i].from == Client then e.clientMac else e.serverMac
  {
    hide TcpFrame;
    var k := |ops| - 1;
    if i < k {
      FramesAddressed(e, ops[..k], i);
    } else {
      var s := SegmentFor(e, ops[..k], ops[k]);
      TcpRoundTrip(MacOf(e, ops[k].from), MacOf(e, Peer(ops[k].from)), s);
      TcpPlain(MacOf(e, ops[k].from), MacOf(e, Peer(ops[k].from)), s);
    }
  }

  lemma WrapAdd(a: nat, b: nat)
    ensures (a % WRAP + b % WRAP) % WRAP == (a + b) % WRAP
  {
  }

  lemma OneMore(e: Ends, ops: seq<Op>, op: Op)
    ensures Next(e, ops + [op], op.from) == (Next(e, ops, op.from) + Consumed(op.flags, op.data) % WRAP) % WRAP
    ensures Next(e, ops + [op], Peer(op.from)) == Next(e, ops, Peer(op.from))
    ensures Frames(e, ops + [op]) == Frames(e, ops) + [FrameFor(e, op.from, SegmentFor(e, ops, op))]
  {
    hide Isn, Consumed, FrameFor, SegmentFor;
    assert (ops + [op])[..|ops|] == ops;
    WrapAdd(Isn(e, op.from) + Used(ops, op.from), Consumed(op.flags, op.data));
  }

  class TcpSession {
    const ends: Ends
    var clientSnd: u32
    var serverSnd: u32
    var frames: seq<seq<byte>>
    ghost var ops: seq<Op>

    /** The counters and frames are those of the operations asked for so far. */
    ghost predicate Valid()
      reads this
    {
      && clientSnd == Next(ends, ops, Client)
      && serverSnd == Next(ends, ops, Server)
      && frames == Frames(ends, ops)
    }

    constructor (ends: Ends)
      ensures Valid() && ops == [] && this.ends == ends
    {
      this.ends := ends;
      clientSnd := (ends.client.ip * 2654435761 % WRAP + ends.client.port) % WRAP;
      serverSnd := (ends.server.ip * 40503 % WRAP + 0x5EED_0000) % WRAP;
      frames, ops := [], [];
    }

    method Segment(from: Side, flags: byte, payload: seq<byte>)
      requires Valid()
      modifies this
      ensures Valid() && ops == old(ops) + [Op(from, flags, payload)]
    {
      hide Next, Frames, Consumed, TcpFrame;
      var snd, peerSnd := clientSnd, serverSnd;
      if from == Server {
        snd, peerSnd := serverSnd, clientSnd;
      }
      var f := TcpSegment(MacOf(ends, from), MacOf(ends, Peer(from)),
                          Eth.Segment(EndOf(ends, from), EndOf(ends, Peer(from)), snd, peerSnd, flags, payload));
      frames := frames + [f];
      var consumed: u32 := Consumed(flags, payload) % WRAP;
      OneMore(ends, ops, Op(from, flags, payload));
      ops := ops + [Op(from, flags, payload)];
      if from == Client {
        clientSnd := (clientSnd + consumed) % WRAP;
      } else {
        serverSnd := (serverSnd + consumed) % WRAP;
      }
    }

    method Open()
      requires Valid()
      modifies this
      ensures Valid() && ops == old(ops) + OpenOps()
    {
      hide Valid;
      Segment(Client, SYN, []);
      Segment(Server, SYN_ACK, []);
      Segment(Client, ACK, []);
    }

    method ClientSays(payload: seq<byte>)
      requires Valid()
      modifies this
      ensures Valid() && ops == old(ops) + [Op(Client, PSH_ACK, payload)]
    {
      Segment(Client, PSH_ACK, payload);
    }

    method ServerSays(payload: seq<byte>)
      requires Valid()
      modifies this
      ensures Valid() && ops == old(ops) + [Op(Server, PSH_ACK, payload)]
    {
      Segment(Server, PSH_ACK, payload);
    }

    method Close()
      requires Valid()
      modifies this
      ensures Valid() && ops == old(ops) + CloseOps()
    {
      hide Valid;
      Segment(Client, FIN_ACK, []);
      Segment(Server, ACK, []);
      Segment(Server, FIN_ACK, []);
      Segment(Client, ACK, []);
    }

    method IntoFrames() returns (r: seq<seq<byte>>)
      requires Valid()
      ensures r == Frames(ends, ops)
    {
      r := frames;
    }
  }

  /** The common exchange: one request, one response. */
  method RequestResponse(ends: Ends, request: seq<byte>, response: seq<byte>) returns (r: seq<seq<byte>>)
    ensures r == Frames(ends, Script([Message(Client, request), Message(Server, response)]))
  {
    hide Frames;
    var s := new TcpSession(ends);
    s.Open();
    s.ClientSays(request);
    s.ServerSays(response);
    s.Close();
    assert s.ops == Script([Message(Client, request), Message(Server, response)]);
    r := s.IntoFrames();
  }

  // ----- A receiver that sees only frames -----------------------------------------------------

  /** The segments a run of frames carries; None if any frame is not a valid TCP segment. */
  function ReceiveAll(frames: seq<seq<byte>>): Option<seq<Segment>> {
    if frames == [] then Some([])
    else
      match (ReceiveAll(frames[..|frames| - 1]), ReceiveTcp(frames[|frames| - 1]))
      case (Some(s), Some(x)) => Some(s + [x])
      case _ => None
  }

  /** The next sequence number expected from an end, after its latest segment. */
  function RcvNxt(segs: seq<Segment>, from: Endpoint): Option<u32> {
    if segs == [] then None
    else
      var s := segs[|segs| - 1];
      if s.src == from then Some((s.seqNo + Consumed(s.flags, s.data)) % WRAP)
      else RcvNxt(segs[..|segs| - 1], from)
  }

  /** Each side starts with its SYN and then continues exactly where its last segment ended. */
  ghost predicate InSequence(segs: seq<Segment>) {
    forall i :: 0 <= i < |segs| ==>
      match RcvNxt(segs[..i], segs[i].src)
      case None => HasSyn(segs[i].flags)
      case Some(n) => !HasSyn(segs[i].flags) && segs[i].seqNo == n
  }

  /** Every acknowledgement covers exactly what the peer has sent up to then. */
  ghost predicate AcksExactly(segs: seq<Segment>) {
    forall i :: 0 <= i < |segs| && HasAck(segs[i].flags) ==> RcvNxt(segs[..i], segs[i].dst) == Some(segs[i].ack)
  }

  /** `from` sent a FIN, and a later segment of the peer acknowledges everything `from` ever sent. */
  ghost predicate FinAcked(segs: seq<Segment>, from: Endpoint) {
    exists i, j :: 0 <= i < j < |segs| && FinAckedBy(segs, from, i, j)
  }

  ghost predicate FinAckedBy(segs: seq<Segment>, from: Endpoint, i: nat, j: nat)
    requires i < j < |segs|
  {
    && segs[i].src == from && HasFin(segs[i].flags)
    && segs[j].dst == from && HasAck(segs[j].flags) && RcvNxt(segs, from) == Some(segs[j].ack)
  }

  /** Bytes written into a receive buffer at offsets modulo 2^32. */
  function Place(m: map<nat, byte>, off: u32, data: seq<byte>): map<nat, byte> {
    if data == [] then m
    else Place(m, off, data[..|data| - 1])[(off + |data| - 1) % WRAP := data[|data| - 1]]
  }

  /** Everything an end sent, placed by sequence number relative to `base`. */
  function Reassemble(segs: seq<Segment>, from: Endpoint, base: u32): map<nat, byte> {
    if segs == [] then map[]
    else
      var s, m := segs[|segs| - 1], Reassemble(segs[..|segs| - 1], from, base);
      if s.src == from then Place(m, (s.seqNo - base) % WRAP, s.data) else m
  }

  /** The sequence number an end announced in its first segment. */
  function Announced(segs: seq<Segment>, from: Endpoint): Option<u32> {
    if segs == [] then None
    else if segs[0].src == from then Some(segs[0].seqNo)
    else Announced(segs[1..], from)
  }

  function IndexMap(s: seq<byte>): (m: map<nat, byte>)
    ensures forall k: nat :: k in m <==> k < |s|
    ensures forall k: nat :: k in m ==> m[k] == s[k]
  {
    if s == [] then map[] else IndexMap(s[..|s| - 1])[|s| - 1 := s[|s| - 1]]
  }

  /** What a side said. */
  function Stream(messages: seq<Message>, side: Side): seq<byte> {
    if messages == [] then []
    else
      var last := messages[|messages| - 1];
      Stream(messages[..|messages| - 1], side) + if last.from == side then last.data else []
  }

  // ----- What that receiver finds -------------------------------------------------------------

  /** Every frame of a session parses back, checksums holding, to the segment it was built from. */
  lemma {:induction false} FramesReceived(e: Ends, ops: seq<Op>)
    requires forall op :: op in ops ==> |op.data| <= MAX_TCP_PAYLOAD
    ensures ReceiveAll(Frames(e, ops)) == Some(Sent(e, ops))
  {
    hide ReceiveTcp, TcpFrame;
    if ops != [] {
      var before, op := ops[..|ops| - 1], ops[|ops| - 1];
      FramesReceived(e, before);
      var s := SegmentFor(e, before, op);
      TcpRoundTrip(MacOf(e, op.from), MacOf(e, Peer(op.from)), s);
      assert Frames(e, ops)[..|ops| - 1] == Frames(e, before);
    }
  }

  lemma {:induction false} SentPrefix(e: Ends, ops: seq<Op>, n: nat)
    requires n <= |ops|
    ensures Sent(e, ops)[..n] == Sent(e, ops[..n])
    ensures n < |ops| ==> Sent(e, ops)[n] == SegmentFor(e, ops[..n], ops[n])
  {
    if n == |ops| {
      assert ops[..n] == ops && Sent(e, ops)[..n] == Sent(e, ops);
    } else {
      var before := ops[..|ops| - 1];
      SentPrefix(e, before, n);
      assert before[..n] == ops[..n];
    }
  }

  predicate HasSent(ops: seq<Op>, side: Side) {
    exists i :: 0 <= i < |ops| && ops[i].from == side
  }

  lemma HasSentMore(ops: seq<Op>, op: Op, side: Side)
    ensures HasSent(ops + [op], side) <==> op.from == side || HasSent(ops, side)
  {
    var more := ops + [op];
    assert more[|ops|] == op;
    if HasSent(ops, side) {
      var i :| 0 <= i < |ops| && ops[i].from == side;
      assert more[i].from == side;
    }
  }

  /** A receiver that follows a side's segments expects exactly that side's next sequence number. */
  lemma {:induction false} RcvNxtIs(e: Ends, ops: seq<Op>, side: Side)
    requires e.client != e.server
    ensures RcvNxt(Sent(e, ops), EndOf(e, side)) == if HasSent(ops, side) then Some(Next(e, ops, side)) else None
  {
    hide Next, Frames, Consumed, HasSent, FrameFor;
    if ops == [] {
      NoneSent(side);
    } else {
      var before, op := ops[..|ops| - 1], ops[|ops| - 1];
      assert ops == before + [op];
      assert Sent(e, ops)[..|ops| - 1] == Sent(e, before);
      RcvNxtIs(e, before, side);
      OneMore(e, before, op);
      HasSentMore(before, op, side);
      WrapAdd(Next(e, before, side), Consumed(op.flags, op.data));
    }
  }

  lemma NoneSent(side: Side)
    ensures !HasSent([], side)
  {
  }

  /** The shape every connection keeps: a SYN opens each side and nothing is acknowledged before it exists. */
  ghost predicate WellFormed(ops: seq<Op>) {
    forall i :: 0 <= i < |ops| ==>
      && (HasSyn(ops[i].flags) <==> !HasSent(ops[..i], ops[i].from))
      && (HasAck(ops[i].flags) ==> HasSent(ops[..i], Peer(ops[i].from)))
  }

  lemma ScriptWellFormed(messages: seq<Message>)
    ensures WellFormed(Script(messages))
  {
    var ops := Script(messages);
    forall i | 0 <= i < |ops|
      ensures HasSyn(ops[i].flags) <==> !HasSent(ops[..i], ops[i].from)
      ensures HasAck(ops[i].flags) ==> HasSent(ops[..i], Peer(ops[i].from))
    {
      if i >= 1 {
        assert ops[..i][0].from == Client;
      }
      if i >= 2 {
        assert ops[..i][1].from == Server;
      }
    }
  }

  lemma InOrder(e: Ends, ops: seq<Op>)
    requires e.client != e.server && WellFormed(ops)
    ensures InSequence(Sent(e, ops)) && AcksExactly(Sent(e, ops))
  {
    hide Next, RcvNxt, HasSyn, HasAck;
    var segs := Sent(e, ops);
    forall i | 0 <= i < |segs|
      ensures match RcvNxt(segs[..i], segs[i].src)
              case None => HasSyn(segs[i].flags)
              case Some(n) => !HasSyn(segs[i].flags) && segs[i].seqNo == n
      ensures HasAck(segs[i].flags) ==> RcvNxt(segs[..i], segs[i].dst) == Some(segs[i].ack)
    {
      SentPrefix(e, ops, i);
      RcvNxtIs(e, ops[..i], ops[i].from);
      RcvNxtIs(e, ops[..i], Peer(ops[i].from));
    }
  }

  // ----- Reassembly ---------------------------------------------------------------------------

  /** The data a side's operations carry. */
  function Carried(ops: seq<Op>, side: Side): seq<byte> {
    if ops == [] then []
    else
      var last := ops[|ops| - 1];
      Carried(ops[..|ops| - 1], side) + if last.from == side then last.data else []
  }

  lemma Unwrapped(n: nat)
    requires n < WRAP
    ensures n % WRAP == n
  {
  }

  lemma PlaceStep(m: map<nat, byte>, off: u32, front: seq<byte>, x: byte)
    ensures Place(m, off, front + [x]) == Place(m, off, front)[(off + |front|) % WRAP := x]
  {
    assert (front + [x])[..|front|] == front;
  }

  lemma IndexStep(s: seq<byte>, x: byte)
    ensures IndexMap(s + [x]) == IndexMap(s)[|s| := x]
  {
    assert (s + [x])[..|s|] == s;
  }

  /** Writing the next bytes of a stream behind the ones already there. */
  lemma {:induction false} PlaceNext(s: seq<byte>, d: seq<byte>)
    requires |s| + |d| <= WRAP && |s| < WRAP
    ensures Place(IndexMap(s), |s|, d) == IndexMap(s + d)
    decreases |d|
  {
    hide Place, IndexMap;
    if d == [] {
      assert s + d == s;
      PlaceNothing(IndexMap(s), |s|);
    } else {
      var front, x := d[..|d| - 1], d[|d| - 1];
      assert front + [x] == d && s + front + [x] == s + d;
      PlaceNext(s, front);
      PlaceStep(IndexMap(s), |s|, front, x);
      IndexStep(s + front, x);
      Unwrapped(|s| + |front|);
    }
  }

  /** Each data segment of a side starts one past the SYN and the data already carried. */
  ghost predicate DataInPlace(ops: seq<Op>, side: Side) {
    forall i :: 0 <= i < |ops| && ops[i].from == side && ops[i].data != [] ==>
      Used(ops[..i], side) == 1 + |Carried(ops[..i], side)|
  }

  lemma OffsetOf(isn: u32, n: nat)
    requires n < WRAP
    ensures ((isn + 1 + n) % WRAP - (isn + 1) % WRAP) % WRAP == n
  {
  }

  lemma ReassembleStep(e: Ends, ops: seq<Op>, side: Side, base: u32)
    requires e.client != e.server && ops != []
    ensures var before, op := ops[..|ops| - 1], ops[|ops| - 1];
            var m := Reassemble(Sent(e, before), EndOf(e, side), base);
            Reassemble(Sent(e, ops), EndOf(e, side), base)
            == if op.from == side then Place(m, (Next(e, before, side) - base) % WRAP, op.data) else m
  {
    hide Next, Place;
    assert Sent(e, ops)[..|ops| - 1] == Sent(e, ops[..|ops| - 1]);
  }

  lemma {:induction false} Reassembled(e: Ends, ops: seq<Op>, side: Side)
    requires e.client != e.server && DataInPlace(ops, side) && |Carried(ops, side)| <= WRAP
    ensures Reassemble(Sent(e, ops), EndOf(e, side), (Isn(e, side) + 1) % WRAP) == IndexMap(Carried(ops, side))
    decreases |ops|
  {
    hide Isn, IndexMap, Place, Used, Next, DataInPlace, Sent, Reassemble, EndOf;
    var base: u32 := (Isn(e, side) + 1) % WRAP;
    if ops == [] {
      NoBytes(e, side, base);
    } else {
      var before, op := ops[..|ops| - 1], ops[|ops| - 1];
      var carried := Carried(before, side);
      DataPrefix(ops, side);
      ReassembleStep(e, ops, side, base);
      Reassembled(e, before, side);
      if op.from == side && op.data != [] {
        OffsetIs(e, ops, side);
        PlaceNext(carried, op.data);
      } else {
        PlaceNothing(IndexMap(carried), (Next(e, before, side) - base) % WRAP);
        assert carried + [] == carried;
      }
    }
  }

  lemma DataPrefix(ops: seq<Op>, side: Side)
    requires ops != [] && DataInPlace(ops, side)
    ensures DataInPlace(ops[..|ops| - 1], side)
  {
    var before := ops[..|ops| - 1];
    assert forall i :: 0 <= i < |before| ==> before[..i] == ops[..i];
  }

  lemma OffsetIs(e: Ends, ops: seq<Op>, side: Side)
    requires ops != [] && DataInPlace(ops, side) && |Carried(ops, side)| <= WRAP
    requires ops[|ops| - 1].from == side && ops[|ops| - 1].data != []
    ensures var carried := |Carried(ops[..|ops| - 1], side)|;
            && carried < WRAP
            && (Next(e, ops[..|ops| - 1], side) - (Isn(e, side) + 1) % WRAP) % WRAP == carried
  {
    hide Isn, Used;
    OffsetOf(Isn(e, side), |Carried(ops[..|ops| - 1], side)|);
  }

  lemma NoBytes(e: Ends, side: Side, base: u32)
    ensures Reassemble(Sent(e, []), EndOf(e, side), base) == IndexMap([])
  {
  }

  lemma PlaceNothing(m: map<nat, byte>, off: u32)
    ensures Place(m, off, []) == m
  {
  }

  lemma {:induction false} CarriedConcat(a: seq<Op>, b: seq<Op>, side: Side)
    ensures Carried(a + b, side) == Carried(a, side) + Carried(b, side)
    ensures Used(a + b, side) == Used(a, side) + Used(b, side)
    decreases |b|
  {
    hide Consumed;
    if b == [] {
      assert a + b == a;
    } else {
      CarriedConcat(a, b[..|b| - 1], side);
      assert (a + b)[..|a + b| - 1] == a + b[..|b| - 1];
    }
  }

  /** Messages use up exactly their bytes. */
  lemma {:induction false} SaysCarry(messages: seq<Message>, side: Side)
    ensures Carried(SayOps(messages), side) == Stream(messages, side)
    ensures Used(SayOps(messages), side) == |Stream(messages, side)|
  {
    if messages != [] {
      SaysCarry(messages[..|messages| - 1], side);
      assert SayOps(messages)[..|messages| - 1] == SayOps(messages[..|messages| - 1]);
    }
  }

  lemma OpenCarries(side: Side)
    ensures Carried(OpenOps(), side) == [] && Used(OpenOps(), side) == 1
  {
    assert OpenOps()[..2] == [Op(Client, SYN, []), Op(Server, SYN_ACK, [])];
    assert OpenOps()[..2][..1] == [Op(Client, SYN, [])];
  }

  lemma CloseCarries(side: Side)
    ensures Carried(CloseOps(), side) == []
  {
    assert CloseOps()[..3] == [Op(Client, FIN_ACK, []), Op(Server, ACK, []), Op(Server, FIN_ACK, [])];
    assert CloseOps()[..3][..2] == [Op(Client, FIN_ACK, []), Op(Server, ACK, [])];
    assert CloseOps()[..3][..2][..1] == [Op(Client, FIN_ACK, [])];
  }

  lemma ScriptCarries(messages: seq<Message>, side: Side)
    ensures Carried(Script(messages), side) == Stream(messages, side)
    ensures DataInPlace(Script(messages), side)
  {
    hide Carried, Used, Stream, Consumed;
    var ops, open, says := Script(messages), OpenOps(), SayOps(messages);
    OpenCarries(side);
    SaysCarry(messages, side);
    CloseCarries(side);
    CarriedConcat(open, says, side);
    CarriedConcat(open + says, CloseOps(), side);
    forall i | 0 <= i < |ops| && ops[i].from == side && ops[i].data != []
      ensures Used(ops[..i], side) == 1 + |Carried(ops[..i], side)|
    {
      assert |open| <= i < |open| + |says|;
      var some := messages[..i - |open|];
      assert ops[..i] == open + SayOps(some);
      SaysCarry(some, side);
      CarriedConcat(open, SayOps(some), side);
    }
  }

  // ----- The connection as a whole ------------------------------------------------------------

  lemma FinsAcked(e: Ends, messages: seq<Message>)
    requires e.client != e.server
    ensures FinAcked(Sent(e, Script(messages)), e.client) && FinAcked(Sent(e, Script(messages)), e.server)
  {
    hide Isn, Sent, RcvNxt, HasSent, Used, Next;
    var ops := Script(messages);
    var segs, n := Sent(e, ops), |ops|;
    SentPrefix(e, ops, n - 4);
    SentPrefix(e, ops, n - 3);
    SentPrefix(e, ops, n - 2);
    SentPrefix(e, ops, n - 1);
    assert ops[0].from == Client && ops[1].from == Server;
    RcvNxtIs(e, ops, Client);
    RcvNxtIs(e, ops, Server);
    Idle(e, ops, n - 3, Client);
    Idle(e, ops, n - 1, Server);
    assert HasSent(ops, Client) && HasSent(ops, Server) by { Senders(ops); }
    assert FinAckedBy(segs, e.client, n - 4, n - 3);
    assert FinAckedBy(segs, e.server, n - 2, n - 1);
  }

  lemma Senders(ops: seq<Op>)
    requires |ops| > 1 && ops[0].from == Client && ops[1].from == Server
    ensures HasSent(ops, Client) && HasSent(ops, Server)
  {
  }

  /** A side that uses no sequence numbers from `n` on keeps its next one. */
  lemma {:induction false} Idle(e: Ends, ops: seq<Op>, n: nat, side: Side)
    requires n <= |ops|
    requires forall i :: n <= i < |ops| && ops[i].from == side ==> Consumed(ops[i].flags, ops[i].data) == 0
    ensures Next(e, ops, side) == Next(e, ops[..n], side)
    decreases |ops|
  {
    hide Isn, Consumed;
    if n == |ops| {
      assert ops[..n] == ops;
    } else {
      var before := ops[..|ops| - 1];
      assert before[..n] == ops[..n];
      Idle(e, before, n, side);
    }
  }

  /**
   For every script of messages that fit a packet, and at most 2^32 bytes a side, the frames of the
   connection are all received, in sequence and exactly acknowledged; reassembling each side by
   sequence number modulo 2^32, from the number its first segment announced, gives back precisely the
   bytes that side said; and both FINs end acknowledged.
   */
  lemma ConnectionDelivers(e: Ends, messages: seq<Message>)
    requires e.client != e.server
    requires forall m :: m in messages ==> |m.data| <= MAX_TCP_PAYLOAD
    requires |Stream(messages, Client)| <= WRAP && |Stream(messages, Server)| <= WRAP
    ensures var received := ReceiveAll(Frames(e, Script(messages)));
            && received.Some?
            && InSequence(received.value) && AcksExactly(received.value)
            && FinAcked(received.value, e.client) && FinAcked(received.value, e.server)
            && forall side: Side ::
                 var from := EndOf(e, side);
                 && Announced(received.value, from).Some?
                 && Reassemble(received.value, from, (Announced(received.value, from).value + 1) % WRAP)
                    == IndexMap(Stream(messages, side))
  {
    hide Isn, InSequence, AcksExactly, FinAcked, Reassemble, IndexMap, Stream, Sent, Frames, Script, Announced,
      ReceiveAll, WellFormed;
    var ops := Script(messages);
    ScriptFits(messages);
    FramesReceived(e, ops);
    ScriptWellFormed(messages);
    InOrder(e, ops);
    FinsAcked(e, messages);
    forall side: Side
      ensures Announced(Sent(e, ops), EndOf(e, side)) == Some(Isn(e, side))
      ensures Reassemble(Sent(e, ops), EndOf(e, side), (Isn(e, side) + 1) % WRAP) == IndexMap(Stream(messages, side))
    {
      match side {
        case Client => SideDelivered(e, messages, Client);
        case Server => SideDelivered(e, messages, Server);
      }
    }
  }

  lemma ScriptFits(messages: seq<Message>)
    requires forall m :: m in messages ==> |m.data| <= MAX_TCP_PAYLOAD
    ensures forall op :: op in Script(messages) ==> |op.data| <= MAX_TCP_PAYLOAD
  {
  }

  lemma SideDelivered(e: Ends, messages: seq<Message>, side: Side)
    requires e.client != e.server && |Stream(messages, side)| <= WRAP
    ensures Announced(Sent(e, Script(messages)), EndOf(e, side)) == Some(Isn(e, side))
    ensures Reassemble(Sent(e, Script(messages)), EndOf(e, side), (Isn(e, side) + 1) % WRAP) ==
              IndexMap(Stream(messages, side))
  {
    hide *;
    AnnouncesIsn(e, messages, side);
    ScriptCarries(messages, side);
    Reassembled(e, Script(messages), side);
  }

  lemma AnnouncesIsn(e: Ends, messages: seq<Message>, side: Side)
    requires e.client != e.server
    ensures Announced(Sent(e, Script(messages)), EndOf(e, side)) == Some(Isn(e, side))
  {
    hide Isn, Sent;
    var ops := Script(messages);
    SentPrefix(e, ops, 0);
    SentPrefix(e, ops, 1);
    assert ops[..1] == [Op(Client, SYN, [])];
    assert ops[..1][..0] == [];
  }
}
