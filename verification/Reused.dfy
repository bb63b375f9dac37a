/** A host registered under a perturbed hardware address, and replayed again. */
module Reused {
  import opened Wire
  import opened Frame
  import opened Checksum
  import opened Net
  import opened Rng
  import opened Allocator
  import opened Macs
  import opened Placement
  import opened HostMap
  import opened Captures
  import opened Ledger
  import opened Engine
  import opened SmallPlant
  import Reconcile
  import Remap

  ghost predicate FirstReplay(e: Replayed) {
    e.plan == GUARDED_ZONE && e.before == [BareFrame(ORIGINAL)] && Explained(e, PolicyFor(2))
  }

  ghost predicate SecondReplay(e: Replayed, h: CaptureHost) {
    && e.plan == GUARDED_ZONE.(hosts := [h]) && Inv(30, e.plan)
    && e.before == [BareFrame(ORIGINAL)] && Explained(e, PolicyFor(2))
  }

  lemma GuardedCtx() returns (ctx: Reconcile.Ctx)
    ensures ctx == CtxOf(GUARDED_ZONE, Reconcile.Off, 2)
    ensures |ctx.zones| == 1 && ctx.zones[0].net == ZONE && Reconcile.Reserved(ctx.zones) == {STRANGER}
    ensures ctx.registered == map[] && ctx.budget == 1 && NATURAL in ctx.reservedMacs
  {
    hide Inv, Reconcile.Reserved, DeviceMacMap, ReservedIn, FirstProtocol;
    ctx := CtxOf(GUARDED_ZONE, Reconcile.Off, 2);
    PlansOk();
    ReservedIsDevices(30, GUARDED_ZONE);
    assert GUARDED_ZONE.devices[0] in GUARDED_ZONE.devices;
    assert DeviceIps(GUARDED_ZONE.devices) == {STRANGER};
  }

  /** The host takes the one free slot, and the natural address being the firewall's, a perturbed one. */
  lemma FirstOutcome(e: Replayed)
    requires FirstReplay(e)
    ensures |e.added| == 1 && e.added[0].origin == ORIGINAL && e.added[0].ip == NEW_IP && e.added[0].mac != NATURAL
  {
    hide Reconcile.Arranged, Survivors, IsSubnetGroup, Remap.HostsOf, Reconcile.HostsIn, Reconcile.NoRepeats,
      Reconcile.Reconciled, CtxOf;
    var ctx := GuardedCtx();
    HostsOfBare(ORIGINAL);
    OneNewAsset(ctx, Salted, e.outcome.groups, e.hosts, e.outcome.assets, e.outcome.resolved);
  }

  lemma OneNewAsset(ctx: Reconcile.Ctx, derive: Derivation, groups: seq<Reconcile.CaptureGroup>, hosts: map<u32, u32>,
                    assets: seq<Reconcile.Asset>, resolved: map<u32, Mac>)
    requires Reconcile.Reconciled(ctx, derive, groups, hosts, assets, resolved)
    requires Reconcile.HostsIn(groups) == {ORIGINAL}
    requires |ctx.zones| == 1 && ctx.zones[0].net == ZONE && Reconcile.Reserved(ctx.zones) == {STRANGER}
    requires ctx.registered == map[] && ctx.budget == 1 && NATURAL in ctx.reservedMacs
    ensures |assets| == 1 && assets[0].origin == ORIGINAL && assets[0].ip == NEW_IP && assets[0].mac != NATURAL
  {
    hide IsHost, Reconcile.Reserved, Reconcile.HostsIn, Reconcile.WireMac, FirstSalt, Reconcile.AssetOk;
    assert ORIGINAL in Reconcile.HostsIn(groups);
    SlotLeft(ctx);
    assert assets[0] in assets && assets[0].origin in hosts;
    OffDevice(ctx, assets[0]);
  }

  lemma SlotLeft(ctx: Reconcile.Ctx)
    requires |ctx.zones| == 1 && ctx.zones[0].net == ZONE && Reconcile.Reserved(ctx.zones) == {STRANGER}
    requires ctx.registered == map[]
    ensures var taken := Reconcile.Reserved(ctx.zones) + ctx.registered.Values + Reconcile.AssetIps([]);
            !Reconcile.ZoneFull(ctx.zones, taken)
  {
    hide IsHost, Reconcile.Reserved;
    TwoSlots();
    assert forall z :: z in ctx.zones ==> z == ctx.zones[0];
    assert IsHost(ZONE, NEW_IP) && Reconcile.AssetIps([]) == {};
  }

  lemma OffDevice(ctx: Reconcile.Ctx, a: Reconcile.Asset)
    requires Reconcile.AssetOk(ctx, a) && |ctx.zones| == 1 && ctx.zones[0].net == ZONE
    requires Reconcile.Reserved(ctx.zones) == {STRANGER} && NATURAL in ctx.reservedMacs
    ensures a.ip == NEW_IP && a.mac != NATURAL
  {
    hide IsHost, Reconcile.Reserved;
    TwoSlots();
  }

  lemma SecondOutcome(e: Replayed, h: CaptureHost)
    requires SecondReplay(e, h) && h.origin == ORIGINAL && h.ip == NEW_IP
    ensures e.hosts == map[ORIGINAL := NEW_IP] && e.wire(NEW_IP) == NATURAL
  {
    hide Reconcile.Arranged, Survivors, IsSubnetGroup, Remap.HostsOf, Reconcile.HostsIn, Reconcile.NoRepeats,
      Reconcile.Reconciled, Reconcile.WireMac, Inv, BareFrame;
    var ctx, o := CtxOf(e.plan, Reconcile.Off, 2), e.outcome;
    HostsOfBare(ORIGINAL);
    assert RegisteredOrigins([]) == map[];
    assert [h][..0] == [];
    assert ctx.registered == map[ORIGINAL := NEW_IP];
    KnownOnly(ctx, Salted, o.groups, e.hosts, o.assets, o.resolved);
    ReusedMac(30, e.plan, Reconcile.Off, 2, Salted, o.groups, e.hosts, o.assets, o.resolved, h);
  }

  lemma KnownOnly(ctx: Reconcile.Ctx, derive: Derivation, groups: seq<Reconcile.CaptureGroup>, hosts: map<u32, u32>,
                  assets: seq<Reconcile.Asset>, resolved: map<u32, Mac>)
    requires Reconcile.Reconciled(ctx, derive, groups, hosts, assets, resolved)
    requires Reconcile.HostsIn(groups) == {ORIGINAL} && ctx.registered == map[ORIGINAL := NEW_IP]
    ensures hosts == map[ORIGINAL := NEW_IP]
  {
    hide Reconcile.Reserved, Reconcile.HostsIn, Reconcile.WireMac, Reconcile.AssetOk;
    assert ORIGINAL in Reconcile.HostsIn(groups);
  }

  lemma ReusedFrame(m: map<u32, u32>, wire: u32 -> Mac)
    requires m == map[ORIGINAL := NEW_IP] && wire(NEW_IP) == NATURAL
    ensures var r := Rewritten(BareFrame(ORIGINAL), m, wire, true);
            && Coherent(r, m.Values) && !Leaks(r, m.Keys)
            && ComesFrom(r, NEW_IP) && SourceHardwareIs(r, NATURAL)
  {
    var b := BareFrame(ORIGINAL);
    var r := Rewritten(b, m, wire, true);
    BareReads(ORIGINAL);
    hide LayoutOf, Be32, Be16, Leaks, Repaired, SourceHardwareIs, WithAddresses, WithEthSrc, BareFrame;
    RewriteMaps(b, m, wire, true);
    ReusedBytes(m, wire);
    NoLeak(r, NEW_IP);
    assert m[ORIGINAL] == NEW_IP && m.Keys == {ORIGINAL};
    assert PlannedEnds(NEW_IP, 0, m.Values);
  }

  lemma ReusedBytes(m: map<u32, u32>, wire: u32 -> Mac)
    requires m == map[ORIGINAL := NEW_IP] && wire(NEW_IP) == NATURAL
    ensures var r := Rewritten(BareFrame(ORIGINAL), m, wire, true);
            && r[26..30] == BytesOf32(NEW_IP) && Be16(r, 16) == 20
            && (forall i :: (0 <= i < 6 || 12 <= i < 24 || 30 <= i < 34) ==> r[i] == HeaderByte(i))
            && (forall i :: 7 <= i < 12 ==> r[i] == 0)
  {
    var b := BareFrame(ORIGINAL);
    var a := WithAddresses(b, (26, 30), m);
    BareReads(ORIGINAL);
    Addressed(m);
    RepairTouchesOnly(a, BARE);
    hide LayoutOf, Be32, Be16, Repaired, WithAddresses, BareFrame, Put;
    var r := Rewritten(b, m, wire, true);
    assert r == WithEthSrc(Repaired(a, BARE), NATURAL);
    assert r[26..30] == a[26..30];
    SameWord(r, b);
  }

  lemma SameWord(r: seq<byte>, b: seq<byte>)
    requires |r| == |b| == 34 && r[16] == b[16] && r[17] == b[17]
    ensures Be16(r, 16) == Be16(b, 16)
  {
  }

  lemma Addressed(m: map<u32, u32>)
    requires m == map[ORIGINAL := NEW_IP]
    ensures var a := WithAddresses(BareFrame(ORIGINAL), (26, 30), m);
            && a[26..30] == BytesOf32(NEW_IP)
            && forall i :: 0 <= i < 34 && !(26 <= i < 30) ==> a[i] == HeaderByte(i)
  {
    var b := BareFrame(ORIGINAL);
    BareReads(ORIGINAL);
    hide Be32, BytesOf32, BareFrame;
    PutAddrElsewhere(b, 26, m, 30);
    PutSame(PutAddr(b, 26, m), 30, m);
  }

  /** A host registered under a perturbed address comes back, on the next replay, under the natural one. */
  lemma ReusedHostChangesMac(first: Replayed, second: Replayed)
    requires FirstReplay(first) && |first.added| == 1 && SecondReplay(second, first.added[0])
    ensures var h, f := first.added[0], Rewritten(BareFrame(ORIGINAL), second.hosts, second.wire, true);
            f in second.after && ComesFrom(f, h.ip) && SourceHardwareIs(f, NATURAL) && !SourceHardwareIs(f, h.mac)
  {
    hide Explained, Survivors, BareFrame, Coherent, Leaks, Rewritten, ComesFrom, SourceHardwareIs, Inv;
    var h := first.added[0];
    FirstOutcome(first);
    SecondOutcome(second, h);
    ReusedFrame(second.hosts, second.wire);
    Kept(second.before, second.hosts, second.wire, 0);
    SentAre(second, PolicyFor(2));
    OneSource(Rewritten(BareFrame(ORIGINAL), second.hosts, second.wire, true), NATURAL, h.mac);
  }


  method GuardedSession() returns (session: Session)
    ensures fresh(session) && session.Value() == GUARDED_ZONE
  {
    session := new Session();
    var zoned := session.AddSubnet(GUARDED_ZONE.subnets[0]);
    var guarded := session.AddDevice(GUARDED_ZONE.devices[0]);
  }

  /** One replay of the host's capture against whatever the ledger then holds. */
  method ReplayHost(session: Session, rng: Rng) returns (cap: Capture, ghost e: Replayed)
    requires Inv(30, session.Value()) && |session.captureHosts| <= 1
    modifies session, rng
    ensures fresh(cap) && Inv(30, session.Value())
    ensures e.before == [BareFrame(ORIGINAL)] && Explained(e, PolicyFor(2)) && e.after == FramesOf(cap.packets)
    ensures e.plan == old(session.Value()) && session.Value() == e.plan.(hosts := e.plan.hosts + e.added)
  {
    hide Inv, Explained, ReplayOk, Spreads, BareFrame;
    SaltedSpreads(MAX_DEVICES + |session.captureHosts|);
    cap := Load([BareFrame(ORIGINAL)]);
    e := RemapIntoSession(session, cap, PolicyFor(2), rng, 30);
  }

  /** The two replays of one capture: the second sends the host under another hardware address than the ledger holds. */
  method ReplayTwice(rng: Rng) returns (session: Session, cap: Capture)
    modifies rng
    ensures |session.captureHosts| > 0 && session.devices == GUARDED_ZONE.devices
    ensures var h := session.captureHosts[0];
            && h.origin == ORIGINAL && h.ip == NEW_IP
            && exists f :: f in FramesOf(cap.packets) && ComesFrom(f, h.ip) && !SourceHardwareIs(f, h.mac)
  {
    hide Inv, Explained, ComesFrom, SourceHardwareIs, BareFrame, Rewritten, FramesOf;
    PlansOk();
    session := GuardedSession();
    ghost var first, second;
    cap, first := ReplayHost(session, rng);
    FirstOutcome(first);
    assert session.Value() == GUARDED_ZONE.(hosts := [first.added[0]]);
    cap, second := ReplayHost(session, rng);
    ReusedHostChangesMac(first, second);
  }
}
