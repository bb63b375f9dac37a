/** The independent ARP oracle: measures a burst from its bytes and checks it against the reference bands. */
module ArpProfile {
  import opened Wire
  import opened ArpGraph
  import opened ArpWire

  const ETH_MIN: nat := 60
  const ARP_END: nat := 42

  datatype Profile = Profile(requests: nat, replies: nat, gratuitous: nat, runts: nat, locallyAdministered: nat,
                             maxFanout: nat, repliers: set<u32>)

  datatype Violation = Gratuitous(n: nat) | Runts(n: nat) | LocallyAdministered(n: nat) | Scan(fanout: nat)
                     | Missing(owners: set<u32>)

  // ----- Reading one frame --------------------------------------------------------------------

  predicate IsArp(d: seq<byte>) { |d| >= ARP_END && Be16(d, 12) == ETHERTYPE_ARP }
  predicate IsRequest(d: seq<byte>) { IsArp(d) && Be16(d, 20) == OP_REQUEST }
  predicate IsReply(d: seq<byte>) { IsArp(d) && Be16(d, 20) == OP_REPLY }
  predicate IsGratuitous(d: seq<byte>) { IsArp(d) && Be32(d, 28) == Be32(d, 38) }
  predicate IsRunt(d: seq<byte>) { IsArp(d) && |d| < ETH_MIN }
  predicate IsLocal(d: seq<byte>) { IsReply(d) && d[22] / 2 % 2 == 1 }

  /**
   What the oracle makes of any ARP packet, cut short anywhere: below 42 bytes nothing, from there its
   operation, whether it announces itself, whether it is below the minimum, and whose hardware it is.
   */
  lemma OracleReads(ethDst: Mac, oper: u16, sha: Mac, spa: u32, tha: Mac, tpa: u32, cut: nat)
    requires cut <= 60
    ensures var d := ArpFrame(ethDst, oper, sha, spa, tha, tpa)[..cut];
            && (IsRequest(d) <==> cut >= 42 && oper == 1) && (IsReply(d) <==> cut >= 42 && oper == 2)
            && (IsGratuitous(d) <==> cut >= 42 && spa == tpa) && (IsRunt(d) <==> 42 <= cut < 60)
            && (IsLocal(d) <==> cut >= 42 && oper == 2 && sha[0] / 2 % 2 == 1)
  {
    ArpFields(ethDst, oper, sha, spa, tha, tpa);
    var f := ArpFrame(ethDst, oper, sha, spa, tha, tpa);
    hide ArpFrame;
    var d := f[..cut];
    if cut >= 42 {
      assert d[22] == f[22..28][0];
      assert Be16(d, 12) == Be16(f, 12) && Be16(d, 20) == Be16(f, 20);
      assert Be32(d, 28) == Be32(f, 28) && Be32(d, 38) == Be32(f, 38);
    }
  }

  /** Nothing else is counted at all. */
  lemma OracleIgnores(src: Mac, dst: Mac, ethertype: u16, payload: seq<byte>)
    requires ethertype != 0x0806
    ensures var d := L2Frame(src, dst, ethertype, payload);
            !IsRequest(d) && !IsReply(d) && !IsGratuitous(d) && !IsRunt(d) && !IsLocal(d)
  {
    var d, t := L2Frame(src, dst, ethertype, payload), BytesOf16(ethertype);
    assert d[12] == t[0] && d[13] == t[1];
  }

  function Count(frames: seq<seq<byte>>, p: seq<byte> -> bool): nat {
    if frames == [] then 0
    else Count(frames[..|frames| - 1], p) + (if p(frames[|frames| - 1]) then 1 else 0)
  }

  function Repliers(frames: seq<seq<byte>>): set<u32> {
    set d | d in frames && IsReply(d) :: Be32(d, 28)
  }

  /** The distinct addresses a source hardware address asks for. */
  function Targets(frames: seq<seq<byte>>, mac: Mac): set<u32> {
    set d | d in frames && IsRequest(d) && d[6..12] == mac :: Be32(d, 38)
  }

  /** `fanout` files every request under its source address. */
  ghost predicate Filed(frames: seq<seq<byte>>, fanout: map<Mac, set<u32>>) {
    && (forall m :: m in fanout ==> fanout[m] == Targets(frames, m))
    && (forall m: Mac :: m !in fanout ==> Targets(frames, m) == {})
  }

  /** The profile is what its fields say, read off the bytes. */
  ghost predicate Measures(frames: seq<seq<byte>>, p: Profile) {
    && p.requests == Count(frames, IsRequest)
    && p.replies == Count(frames, IsReply)
    && p.gratuitous == Count(frames, IsGratuitous)
    && p.runts == Count(frames, IsRunt)
    && p.locallyAdministered == Count(frames, IsLocal)
    && p.repliers == Repliers(frames)
    && (forall m: Mac :: |Targets(frames, m)| <= p.maxFanout)
    && (p.maxFanout > 0 ==> exists m: Mac :: |Targets(frames, m)| == p.maxFanout)
  }

  // ----- Analysis -----------------------------------------------------------------------------

  ghost predicate Counted(frames: seq<seq<byte>>, p: Profile) {
    && p.requests == Count(frames, IsRequest)
    && p.replies == Count(frames, IsReply)
    && p.gratuitous == Count(frames, IsGratuitous)
    && p.runts == Count(frames, IsRunt)
    && p.locallyAdministered == Count(frames, IsLocal)
    && p.repliers == Repliers(frames)
  }

  lemma CountStep(frames: seq<seq<byte>>, i: nat, p: seq<byte> -> bool)
    requires i < |frames|
    ensures Count(frames[..i + 1], p) == Count(frames[..i], p) + (if p(frames[i]) then 1 else 0)
  {
    assert frames[..i + 1][..i] == frames[..i];
  }

  lemma SetsStep(frames: seq<seq<byte>>, i: nat)
    requires i < |frames|
    ensures Repliers(frames[..i + 1]) ==
              Repliers(frames[..i]) + (if IsReply(frames[i]) then {Be32(frames[i], 28)} else {})
    ensures forall m: Mac :: Targets(frames[..i + 1], m) ==
              Targets(frames[..i], m) +
              (if IsRequest(frames[i]) && frames[i][6..12] == m then {Be32(frames[i], 38)} else {})
  {
    assert forall d :: d in frames[..i + 1] <==> d in frames[..i] || d == frames[i];
  }

  method Analyze(frames: seq<seq<byte>>) returns (p: Profile)
    ensures Measures(frames, p)
  {
    hide Count, Repliers, Targets;
    p := Profile(0, 0, 0, 0, 0, 0, {});
    var fanout: map<Mac, set<u32>> := map[];
    NothingMeasured(p);
    for i := 0 to |frames|
      invariant Counted(frames[..i], p) && p.maxFanout == 0
      invariant Filed(frames[..i], fanout)
    {
      var d := frames[i];
      var before := p;
      CountStep(frames, i, IsRequest);
      CountStep(frames, i, IsReply);
      CountStep(frames, i, IsGratuitous);
      CountStep(frames, i, IsRunt);
      CountStep(frames, i, IsLocal);
      SetsStep(frames, i);
      if |d| < ARP_END || Be16(d, 12) != ETHERTYPE_ARP {
        continue;
      }
      p := Tally(p, d);
      if Be16(d, 20) == OP_REQUEST {
        var src: Mac := d[6..12];
        var known := if src in fanout then fanout[src] else {};
        fanout := fanout[src := known + {Be32(d, 38)}];
      }
    }
    assert frames[..|frames|] == frames;
    var most := MostTargets(fanout);
    p := p.(maxFanout := most);
    FanoutMeasured(frames, fanout, most);
  }

  /** The counters after one ARP frame. */
  function Tally(p: Profile, d: seq<byte>): Profile
    requires IsArp(d)
  {
    var q := p.(gratuitous := p.gratuitous + if Be32(d, 28) == Be32(d, 38) then 1 else 0,
                runts := p.runts + if |d| < ETH_MIN then 1 else 0);
    if Be16(d, 20) == OP_REQUEST then q.(requests := q.requests + 1)
    else if Be16(d, 20) == OP_REPLY then
      q.(replies := q.replies + 1, repliers := q.repliers + {Be32(d, 28)},
         locallyAdministered := q.locallyAdministered + if d[22] / 2 % 2 == 1 then 1 else 0)
    else q
  }

  lemma NothingMeasured(p: Profile)
    requires p == Profile(0, 0, 0, 0, 0, 0, {})
    ensures Counted([], p) && Filed([], map[])
  {
  }

  method MostTargets(fanout: map<Mac, set<u32>>) returns (most: nat)
    ensures forall m :: m in fanout ==> |fanout[m]| <= most
    ensures most > 0 ==> exists m :: m in fanout && |fanout[m]| == most
  {
    most := 0;
    var rest := fanout.Keys;
    while rest != {}
      invariant rest <= fanout.Keys
      invariant forall m :: m in fanout && m !in rest ==> |fanout[m]| <= most
      invariant most > 0 ==> exists m :: m in fanout && |fanout[m]| == most
      decreases |rest|
    {
      var m :| m in rest;
      if |fanout[m]| > most {
        most := |fanout[m]|;
      }
      rest := rest - {m};
    }
  }

  lemma FanoutMeasured(frames: seq<seq<byte>>, fanout: map<Mac, set<u32>>, most: nat)
    requires Filed(frames, fanout)
    requires forall m :: m in fanout ==> |fanout[m]| <= most
    requires most > 0 ==> exists m :: m in fanout && |fanout[m]| == most
    ensures forall m: Mac :: |Targets(frames, m)| <= most
    ensures most > 0 ==> exists m: Mac :: |Targets(frames, m)| == most
  {
    hide Targets;
    forall m: Mac ensures |Targets(frames, m)| <= most {
      if m in fanout {
        assert Targets(frames, m) == fanout[m];
      }
    }
    if most > 0 {
      var m :| m in fanout && |fanout[m]| == most;
      assert |Targets(frames, m)| == most;
    }
  }

  /** Appends a violation per failed band; `expected` owners must all have replied. */
  method Check(p: Profile, expected: set<u32>, maxFanout: nat) returns (v: seq<Violation>)
    ensures Gratuitous(p.gratuitous) in v <==> p.gratuitous != 0
    ensures Runts(p.runts) in v <==> p.runts != 0
    ensures LocallyAdministered(p.locallyAdministered) in v <==> p.locallyAdministered != 0
    ensures Scan(p.maxFanout) in v <==> p.maxFanout > maxFanout
    ensures Missing(expected - p.repliers) in v <==> !(expected <= p.repliers)
    ensures v == [] <==> p.gratuitous == 0 && p.runts == 0 && p.locallyAdministered == 0 && p.maxFanout <= maxFanout
                         && expected <= p.repliers
  {
    v := [];
    if p.gratuitous != 0 {
      v := v + [Gratuitous(p.gratuitous)];
    }
    if p.runts != 0 {
      v := v + [Runts(p.runts)];
    }
    if p.locallyAdministered != 0 {
      v := v + [LocallyAdministered(p.locallyAdministered)];
    }
    if p.maxFanout > maxFanout {
      v := v + [Scan(p.maxFanout)];
    }
    var missing := expected - p.repliers;
    assert forall ip :: ip in expected ==> ip in missing || ip in p.repliers;
    if missing != {} {
      v := v + [Missing(missing)];
    }
  }

  // ----- The generator satisfies the oracle ---------------------------------------------------

  lemma RequestReads(e: Edge)
    ensures var d := Resolve(e)[0];
            && IsRequest(d) && !IsReply(d) && !IsRunt(d) && !IsLocal(d)
            && (IsGratuitous(d) <==> e.requester.ip == e.owner.ip)
            && d[6..12] == e.requester.mac && Be32(d, 38) == e.owner.ip
  {
    ArpFields(BROADCAST, OP_REQUEST, e.requester.mac, e.requester.ip, ZERO_MAC, e.owner.ip);
    hide ArpFrame;
  }

  lemma ReplyReads(e: Edge)
    ensures var d := Resolve(e)[1];
            && IsReply(d) && !IsRequest(d) && !IsRunt(d)
            && (IsLocal(d) <==> e.owner.mac[0] / 2 % 2 == 1)
            && (IsGratuitous(d) <==> e.requester.ip == e.owner.ip)
            && Be32(d, 28) == e.owner.ip
  {
    ArpFields(e.requester.mac, OP_REPLY, e.owner.mac, e.owner.ip, e.requester.mac, e.requester.ip);
    hide ArpFrame;
    var d := Resolve(e)[1];
    assert d[22] == d[22..28][0];
  }

  /** An edge the oracle has nothing against. */
  ghost predicate CleanEdge(e: Edge) {
    e.requester.ip != e.owner.ip && e.owner.mac[0] / 2 % 2 == 0
  }

  lemma {:induction false} RenderCounts(edges: seq<Edge>)
    requires forall e :: e in edges ==> CleanEdge(e)
    ensures var f := Render(edges);
            && Count(f, IsRequest) == |edges| && Count(f, IsReply) == |edges|
            && Count(f, IsGratuitous) == 0 && Count(f, IsRunt) == 0 && Count(f, IsLocal) == 0
  {
    hide Resolve, IsRequest, IsReply, IsGratuitous, IsRunt, IsLocal;
    if edges != [] {
      var n := |edges| - 1;
      var e := edges[n];
      assert e in edges && CleanEdge(e);
      RenderCounts(edges[..n]);
      RequestReads(e);
      ReplyReads(e);
      PairCount(Render(edges[..n]), e, IsRequest);
      PairCount(Render(edges[..n]), e, IsReply);
      PairCount(Render(edges[..n]), e, IsGratuitous);
      PairCount(Render(edges[..n]), e, IsRunt);
      PairCount(Render(edges[..n]), e, IsLocal);
    }
  }

  lemma PairCount(f: seq<seq<byte>>, e: Edge, p: seq<byte> -> bool)
    ensures Count(f + Resolve(e), p) ==
              Count(f, p) + (if p(Resolve(e)[0]) then 1 else 0) + (if p(Resolve(e)[1]) then 1 else 0)
  {
    hide Request, Reply;
    var g := f + Resolve(e);
    assert g[..|g| - 1] == f + [Resolve(e)[0]];
    assert (f + [Resolve(e)[0]])[..|f|] == f;
  }

  lemma {:induction false} RenderMember(edges: seq<Edge>, d: seq<byte>)
    ensures d in Render(edges) <==> exists e :: e in edges && d in Resolve(e)
  {
    hide Resolve;
    if edges != [] {
      var n := |edges| - 1;
      RenderMember(edges[..n], d);
      assert forall e :: e in edges <==> e in edges[..n] || e == edges[n];
    }
  }

  /** Every request of a rendered burst is some edge's question, every reply its answer. */
  lemma RenderedPair(edges: seq<Edge>, d: seq<byte>) returns (e: Edge)
    requires d in Render(edges)
    ensures e in edges
    ensures IsRequest(d) ==> d[6..12] == e.requester.mac && Be32(d, 38) == e.owner.ip
    ensures IsReply(d) ==> Be32(d, 28) == e.owner.ip
  {
    hide Render, Resolve;
    RenderMember(edges, d);
    e :| e in edges && d in Resolve(e);
    RequestReads(e);
    ReplyReads(e);
    PairIs(e);
    assert d == Resolve(e)[0] || d == Resolve(e)[1];
  }

  lemma PairIs(e: Edge)
    ensures |Resolve(e)| == 2
  {
  }

  lemma Rendered(edges: seq<Edge>, e: Edge)
    requires e in edges
    ensures Resolve(e)[0] in Render(edges) && Resolve(e)[1] in Render(edges)
  {
    RenderMember(edges, Resolve(e)[0]);
    RenderMember(edges, Resolve(e)[1]);
  }

  lemma RenderRepliers(edges: seq<Edge>)
    ensures Repliers(Render(edges)) == IpsOf(Owners(edges))
  {
    hide Render, Resolve;
    forall d | d in Render(edges) && IsReply(d) ensures Be32(d, 28) in IpsOf(Owners(edges)) {
      var e := RenderedPair(edges, d);
      var i :| 0 <= i < |edges| && edges[i] == e;
      assert Owners(edges)[i] == e.owner;
    }
    forall n | n in Owners(edges) ensures n.ip in Repliers(Render(edges)) {
      var i :| 0 <= i < |edges| && Owners(edges)[i] == n;
      Rendered(edges, edges[i]);
      ReplyReads(edges[i]);
    }
  }

  lemma RenderTargets(edges: seq<Edge>, m: Mac)
    ensures Targets(Render(edges), m) == TargetsOf(edges, m)
  {
    hide Render, Resolve;
    forall d | d in Render(edges) && IsRequest(d) && d[6..12] == m ensures Be32(d, 38) in TargetsOf(edges, m) {
      var e := RenderedPair(edges, d);
    }
    forall e | e in edges && e.requester.mac == m ensures e.owner.ip in Targets(Render(edges), m) {
      Rendered(edges, e);
      RequestReads(e);
    }
  }

  lemma {:induction false} CountOwners(cells: seq<seq<Node>>)
    requires WellCelled(cells)
    ensures |AllEdges(cells)| == |AllNodes(cells)|
    ensures IpsOf(Owners(AllEdges(cells))) == IpsOf(AllNodes(cells))
  {
    hide AllEdges, AllNodes;
    EveryNodeOwnsOnce(cells);
    var owners, nodes := Owners(AllEdges(cells)), AllNodes(cells);
    assert |multiset(owners)| == |multiset(nodes)|;
    assert forall n :: n in owners <==> n in multiset(owners);
    assert forall n :: n in nodes <==> n in multiset(nodes);
  }

  /**
   The generator satisfies its oracle. For any graph built from cells of distinct nodes with globally
   administered hardware addresses, the rendered burst measures one request and one reply a node,
   every node replies, and the check against the cell fan-out finds nothing.
   */
  lemma GeneratorSatisfiesOracle(cells: seq<seq<Node>>, p: Profile, expected: set<u32>)
    requires WellCelled(cells) && DistinctNodes(AllNodes(cells))
    requires forall n :: n in AllNodes(cells) ==> n.mac[0] / 2 % 2 == 0
    requires Measures(Render(AllEdges(cells)), p)
    requires expected <= IpsOf(AllNodes(cells))
    ensures p.requests == |AllNodes(cells)| && p.replies == |AllNodes(cells)|
    ensures p.repliers == IpsOf(AllNodes(cells))
    ensures p.gratuitous == 0 && p.runts == 0 && p.locallyAdministered == 0
    ensures p.maxFanout <= CELL_SIZE - 1 && expected <= p.repliers
  {
    hide WellCelled, AllEdges, AllNodes, Render, IsRequest, IsReply, IsLocal, IsGratuitous, IsRunt, Targets, TargetsOf;
    var edges := AllEdges(cells);
    EveryNodeOwnsOnce(cells);
    forall e | e in edges ensures CleanEdge(e) {
      NoSelfResolution(cells, e);
      OwnerIsNode(cells, e);
    }
    RenderCounts(edges);
    CountOwners(cells);
    RenderRepliers(edges);
    if p.maxFanout > 0 {
      var m: Mac :| |Targets(Render(edges), m)| == p.maxFanout;
      RenderTargets(edges, m);
      FanoutBounded(cells, m);
    }
  }

  lemma OwnerIsNode(cells: seq<seq<Node>>, e: Edge)
    requires WellCelled(cells) && e in AllEdges(cells)
    ensures e.owner in AllNodes(cells)
  {
    hide AllEdges, AllNodes;
    EveryNodeOwnsOnce(cells);
    var owners := Owners(AllEdges(cells));
    var i :| 0 <= i < |AllEdges(cells)| && AllEdges(cells)[i] == e;
    assert owners[i] in multiset(owners);
  }
}
