/** Why plan-equals-wire needs every host mapped, or at least no unmapped host at a new address. */
module Stray {
  import opened Wire
  import opened Frame
  import opened Checksum
  import opened Net
  import opened Rng
  import opened Allocator
  import opened Macs
  import opened Placement
  import opened HostMap
  import opened Captures
  import opened Ledger
  import opened Engine
  import opened SmallPlant
  import Reconcile
  import Remap

  lemma EmptyZoneCtx() returns (ctx: Reconcile.Ctx)
    ensures ctx == CtxOf(EMPTY_ZONE, Reconcile.Off, 1)
    ensures ctx.zones == [Reconcile.ZoneTarget(ZONE, None, 2, None, {})] && Reconcile.Reserved(ctx.zones) == {}
    ensures ctx.registered == map[] && ctx.budget == 1
  {
    ctx := CtxOf(EMPTY_ZONE, Reconcile.Off, 1);
    assert ReservedIn([], ZONE) == {};
    assert ZoneTargets(EMPTY_ZONE) == [Reconcile.ZoneTarget(ZONE, None, 2, None, {})];
  }

  ghost predicate StrayReplay(e: Replayed) {
    && e.plan == EMPTY_ZONE && e.before == [BareFrame(ORIGINAL), BareFrame(STRANGER)]
    && Explained(e, PolicyFor(1))
  }

  /** With budget for one asset the lower network's host gets it, and keeps its offset; the other is left unmapped. */
  lemma StrayOutcome(e: Replayed)
    requires StrayReplay(e)
    ensures e.hosts == map[ORIGINAL := STRANGER] && e.wire(STRANGER)[0] == 4
  {
    hide Reconcile.KeepsSlot, IsHost, IsUsableHost, Reconcile.WireMac, Remap.HostsOf, Reconcile.NoRepeats,
      Reconcile.IsBest, Reconcile.AssetOk, Survivors, IsSubnetGroup, Reconcile.Reconciled, Reconcile.Arranged;
    var ctx := EmptyZoneCtx();
    var o := e.outcome;
    HostsOfTwo(ORIGINAL, STRANGER);
    var i := GroupFor(e, PolicyFor(1), ORIGINAL);
    var j := GroupFor(e, PolicyFor(1), STRANGER);
    NetworksOrdered(o.groups[i], o.groups[j]);
    ServedFirst(ctx, e, PolicyFor(1), i, j);
    StrayServed(ctx, Salted, o.groups, e.hosts, o.assets, o.resolved);
  }

  lemma NetworksOrdered(g: Reconcile.CaptureGroup, k: Reconcile.CaptureGroup)
    requires g.net == Block(NetworkOf(ORIGINAL, 24), 24) && k.net == Block(NetworkOf(STRANGER, 24), 24)
    ensures Reconcile.NetOf(g) < Reconcile.NetOf(k)
  {
    assert Pow2(8) == 0x100;
  }

  /** One asset cannot fill a zone with two free slots. */
  lemma RoomLeft(ctx: Reconcile.Ctx, assets: seq<Reconcile.Asset>)
    requires |ctx.zones| == 1 && ctx.zones[0].net == ZONE && |assets| <= 1
    requires Reconcile.Reserved(ctx.zones) == {} && ctx.registered == map[]
    ensures var taken := Reconcile.TakenWith(ctx, assets);
            !Reconcile.FullZone(ctx.zones[0], taken) && !Reconcile.ZoneFull(ctx.zones, taken)
  {
    hide IsHost, Reconcile.Reserved;
    TwoSlots();
    assert ctx.zones[0] in ctx.zones;
    assert forall z :: z in ctx.zones ==> z == ctx.zones[0];
    var taken := Reconcile.TakenWith(ctx, assets);
    assert taken == Reconcile.AssetIps(assets);
    assert !(STRANGER in taken && NEW_IP in taken);
  }

  lemma ServedFirst(ctx: Reconcile.Ctx, e: Replayed, q: Policy, i: nat, j: nat)
    requires |ctx.zones| == 1 && e.outcome.IntoZones? && i < |e.outcome.groups| && j < |e.outcome.groups|
    requires var o := e.outcome;
             Reconcile.Arranged(ctx, o.groups, q.tiebreak, e.hosts, o.assets, o.subnets, o.homes, {})
    requires ORIGINAL in e.outcome.groups[i].hosts && STRANGER in e.outcome.groups[j].hosts
    requires Reconcile.NetOf(e.outcome.groups[i]) < Reconcile.NetOf(e.outcome.groups[j])
    requires ctx.registered == map[]
    ensures Reconcile.Settled(ctx, e.hosts, e.outcome.assets, ORIGINAL, 0)
    ensures Reconcile.Settled(ctx, e.hosts, e.outcome.assets, STRANGER, 0)
    ensures Reconcile.IsOrigin(e.outcome.assets, STRANGER) && !Reconcile.IsOrigin(e.outcome.assets, ORIGINAL) ==>
              Reconcile.FullZone(ctx.zones[0], Reconcile.TakenWith(ctx, e.outcome.assets))
  {
    hide Reconcile.Settled, Reconcile.FullZone, Reconcile.TakenWith, Reconcile.IsOrigin, Reconcile.InAddressOrder,
      Reconcile.Outranks, Reconcile.NetOf;
    var o := e.outcome;
    assert Reconcile.GroupServed(ctx, e.hosts, o.assets, o.groups[i], q.tiebreak, o.homes[i]);
    assert Reconcile.GroupServed(ctx, e.hosts, o.assets, o.groups[j], q.tiebreak, o.homes[j]);
    assert o.homes[i] == 0 && o.homes[j] == 0;
    assert ORIGINAL in Reconcile.HostSet(o.groups[i]) && STRANGER in Reconcile.HostSet(o.groups[j]);
    assert Reconcile.Yields(ctx, o.assets, o.groups[i], 0, o.groups[j]);
  }

  lemma StrayServed(ctx: Reconcile.Ctx, derive: Derivation, groups: seq<Reconcile.CaptureGroup>, hosts: map<u32, u32>,
                    assets: seq<Reconcile.Asset>, resolved: map<u32, Mac>)
    requires ctx.zones == [Reconcile.ZoneTarget(ZONE, None, 2, None, {})] && Reconcile.Reserved(ctx.zones) == {}
    requires ctx.registered == map[] && ctx.budget == 1
    requires Reconcile.Reconciled(ctx, derive, groups, hosts, assets, resolved)
    requires Reconcile.HostsIn(groups) == {ORIGINAL, STRANGER}
    requires Reconcile.Settled(ctx, hosts, assets, ORIGINAL, 0) && Reconcile.Settled(ctx, hosts, assets, STRANGER, 0)
    requires Reconcile.IsOrigin(assets, STRANGER) && !Reconcile.IsOrigin(assets, ORIGINAL) ==>
               Reconcile.FullZone(ctx.zones[0], Reconcile.TakenWith(ctx, assets))
    ensures hosts == map[ORIGINAL := STRANGER]
    ensures |assets| == 1 && assets[0].ip == STRANGER &&
              Reconcile.WireMac(ctx, derive, resolved, STRANGER) == assets[0].mac
    ensures exists salt: nat :: assets[0].mac == derive(STRANGER, salt)
  {
    hide Reconcile.KeepsSlot, Reconcile.WireMac, Reconcile.AssetOk, Reconcile.FullZone, Reconcile.ZoneFull,
      Reconcile.HostsIn, Reconcile.IsForced, Reconcile.Reserved;
    RoomLeft(ctx, assets);
    assert assets != [] by {
      assert ORIGINAL in Reconcile.HostsIn(groups);
    }
    var a := assets[0];
    assert a in assets && a.origin in hosts;
    assert a.origin == ORIGINAL;
    assert Reconcile.PlacedIn(ctx, assets, a, ctx.zones[0]);
    OffsetKept(ctx, assets, a);
  }

  lemma OffsetKept(ctx: Reconcile.Ctx, assets: seq<Reconcile.Asset>, a: Reconcile.Asset)
    requires assets == [a] && a.origin == ORIGINAL
    requires Reconcile.Reserved(ctx.zones) == {} && ctx.registered == map[]
    requires Reconcile.KeepsSlot(ZONE, a, Reconcile.TakenWith(ctx, assets))
    ensures a.ip == STRANGER
  {
    ZoneFacts();
    assert NetworkOf(ZONE.net, 30) + HostPart(ORIGINAL, 30) == STRANGER;
    hide NetworkOf, HostPart, Reconcile.Reserved;
    assert Reconcile.TakenWith(ctx, assets) == {a.ip};
  }

  /** The stranger's frame passes both filters unchanged, and is no plan frame. */
  lemma StrayHostEscapes(e: Replayed)
    requires StrayReplay(e)
    ensures BareFrame(STRANGER) in e.after && ComesFrom(BareFrame(STRANGER), STRANGER)
    ensures e.hosts == map[ORIGINAL := STRANGER]
    ensures !PlanFrame(BareFrame(STRANGER), e.hosts, e.wire)
    ensures !Remap.NoStray(e.before, e.hosts)
  {
    hide Explained, Survivors, PlanFrame, Remap.HostsOf, BareFrame, Coherent, Leaks, Rewritten, ComesFrom, IsRemappable,
      Remap.NoStray;
    BothRemappable();
    StrayOutcome(e);
    SentAre(e, PolicyFor(1));
    StrangerUnchanged(e.hosts, e.wire);
    Kept(e.before, e.hosts, e.wire, 1);
    StrangerStrays(e.before, e.hosts);
  }

  lemma StrangerStrays(frames: seq<seq<byte>>, m: map<u32, u32>)
    requires frames == [BareFrame(ORIGINAL), BareFrame(STRANGER)] && m == map[ORIGINAL := STRANGER]
    ensures !Remap.NoStray(frames, m)
  {
    HostsOfTwo(ORIGINAL, STRANGER);
    assert m[ORIGINAL] == STRANGER;
  }

  lemma BothRemappable()
    ensures IsRemappable(ORIGINAL) && IsRemappable(STRANGER)
  {
  }

  lemma StrangerUnchanged(m: map<u32, u32>, wire: u32 -> Mac)
    requires m == map[ORIGINAL := STRANGER] && wire(STRANGER)[0] == 4
    ensures var b := BareFrame(STRANGER);
            && Rewritten(b, m, wire, true) == b && Coherent(b, m.Values) && !Leaks(b, m.Keys)
            && !PlanFrame(b, m, wire) && ComesFrom(b, STRANGER)
  {
    BareReads(STRANGER);
    var b := BareFrame(STRANGER);
    NoLeak(b, STRANGER);
    hide LayoutOf, Be32, Be16, Leaks, BareFrame, Put, Repaired;
    assert Rewritten(b, m, wire, true) == b by {
      PutSame(b, 26, m);
      PutSame(b, 30, m);
    }
    assert m[ORIGINAL] == STRANGER && m.Keys == {ORIGINAL};
    assert PlannedEnds(STRANGER, 0, m.Values);
  }

  /**
   The replay itself: a zone without devices, an asset cap of one, a host and a stranger at the host's new
   address.
   */
  method ReplayBesideStranger(rng: Rng) returns (cap: Capture, ghost e: Replayed)
    modifies rng
    ensures StrayReplay(e) && e.after == FramesOf(cap.packets)
    ensures BareFrame(STRANGER) in FramesOf(cap.packets) && !PlanFrame(BareFrame(STRANGER), e.hosts, e.wire)
  {
    hide Inv, Explained, ReplayOk, Spreads, PlanFrame;
    PlansOk();
    SaltedSpreads(MAX_DEVICES);
    var session := new Session();
    var ok := session.AddSubnet(EMPTY_ZONE.subnets[0]);
    assert session.Value() == EMPTY_ZONE;
    cap := Load([BareFrame(ORIGINAL), BareFrame(STRANGER)]);
    e := RemapIntoSession(session, cap, PolicyFor(1), rng, 30);
    StrayHostEscapes(e);
  }
}
