/** A tick of the engine, and any interleaving of its steps. */
module Runs {
  import opened Wire
  import opened Net
  import opened Rng
  import opened Allocator
  import opened Macs
  import opened Captures
  import opened Ledger
  import opened Engine
  import Devices
  import Enrich
  import Remap

  const FABRICATE_BATCH: nat := 16

  /** The ledger half of a tick: grow the fleet by a batch; once saturated, rename zones on a cadence. */
  method RedTick(session: Session, w: Devices.World, params: Devices.AllocParams, identity: bool, sealed: bool,
                 run: nat, cycleEvery: nat, namer: (nat, SubnetRecord) -> string, rng: Rng)
    returns (added: nat)
    requires Inv(params.defaultPrefix, session.Value())
    requires identity && !sealed ==>
               Devices.ProfileAtHand(w, params, |session.devices| + FABRICATE_BATCH, session.Value())
    requires Devices.WorldSpreads(w, |session.captureHosts|)
    modifies session`subnets, session`devices, session`cycle, rng
    ensures Inv(params.defaultPrefix, session.Value())
    ensures sealed ==> added == 0 && session.Value() == old(session.Value()) && session.cycle == old(session.cycle)
    ensures old(session.devices) <= session.devices && |session.devices| == |old(session.devices)| + added
    ensures added <= FABRICATE_BATCH
    ensures !identity ==> added == 0
    ensures !Devices.HasCore(w) ==> forall n :: HasNet(session.subnets, n) ==> HasNet(old(session.subnets), n)
    ensures session.cycle - old(session.cycle) ==
              if !sealed && cycleEvery > 0 && run > 0 && run % cycleEvery == 0
                 && added == 0 && |session.subnets| > 0 then 1 else 0
  {
    hide Inv, Devices.WorldSpreads, Devices.Saturated, Devices.NoRoom, Devices.HasCore;
    added := 0;
    if identity && !sealed {
      var target := Devices.Min(|session.devices| + FABRICATE_BATCH, params.maxDevices);
      added := Devices.Fabricate(session, w, params, target, rng);
    }
    if !sealed && cycleEvery > 0 && run > 0 && run % cycleEvery == 0 && added == 0 && |session.subnets| > 0 {
      ghost var before := session.Value();
      session.RenameZonesNewCycle(namer);
      RenameKeepsInv(params.defaultPrefix, before, session.Value());
      SameNets(session.subnets, before.subnets);
    }
  }

  // ----- Runs ---------------------------------------------------------------------------------

  datatype Command =
    | Tick(run: nat)
    | AddL3Zones(count: nat)
    | EnrichZones
    | Replay(file: nat)

  /** Fixed surroundings of a run. */
  datatype Setting = Setting(w: Devices.World, params: Devices.AllocParams, identity: bool, sealed: bool,
                             cycleEvery: nat, namer: (nat, SubnetRecord) -> string, policy: Policy)

  ghost predicate SettingOk(s: Setting) {
    && s.policy.capAssets <= MAX_DEVICES
    && Devices.WorldSpreads(s.w, MAX_DEVICES)
    && Spreads(s.policy.derive, 2 * MAX_DEVICES)
  }

  /**
   No tick of the run is left without a core profile: nothing is fabricated, there is one, the fleet is
   complete, or no zone has room and the run adds none.
   */
  ghost predicate ProfileReady(s: Setting, p: Plan, addsZones: bool) {
    || !s.identity || s.sealed || s.w.vuln == [] || Devices.HasCore(s.w)
    || |p.devices| >= s.params.maxDevices
    || (!addsZones && Devices.NoRoom(p.subnets, Ips(p)))
  }

  lemma ReadyFacts(s: Setting, p: Plan, target: nat, addsZones: bool)
    requires SettingOk(s) && ProfileReady(s, p, addsZones)
    ensures s.policy.capAssets <= MAX_DEVICES
    ensures s.identity && !s.sealed ==> Devices.ProfileAtHand(s.w, s.params, target, p)
  {
    hide Devices.NoRoom, Devices.HasCore, Devices.WorldSpreads, Spreads;
  }

  lemma ReadyKept(s: Setting, p: Plan, q: Plan, addsZones: bool)
    requires ProfileReady(s, p, addsZones) && p.devices <= q.devices && p.hosts <= q.hosts
    requires !Devices.HasCore(s.w) && !addsZones ==> forall n :: HasNet(q.subnets, n) ==> HasNet(p.subnets, n)
    ensures ProfileReady(s, q, addsZones)
  {
    hide Devices.NoRoom, Devices.HasCore, HasNet;
    if !Devices.HasCore(s.w) && !addsZones && Devices.NoRoom(p.subnets, Ips(p)) {
      Devices.NoRoomKept(p, q);
    }
  }

  lemma FewerHosts(s: Setting, hosts: nat)
    requires SettingOk(s) && hosts <= MAX_DEVICES
    ensures Devices.WorldSpreads(s.w, hosts) && Spreads(s.policy.derive, MAX_DEVICES + hosts)
  {
    forall p | p in s.w.vuln ensures Spreads(s.w.deviceMac(p), MAX_DEVICES + hosts) {
      SpreadsLess(s.w.deviceMac(p), 2 * MAX_DEVICES, MAX_DEVICES + hosts);
    }
    forall v ensures Spreads(s.w.bomMac(v), MAX_DEVICES + hosts) {
      SpreadsLess(s.w.bomMac(v), 2 * MAX_DEVICES, MAX_DEVICES + hosts);
    }
    SpreadsLess(s.policy.derive, 2 * MAX_DEVICES, MAX_DEVICES + hosts);
  }

  /** The files a script replays, in order; each replay reads its file afresh. */
  function FilesReplayed(script: seq<Command>, files: seq<seq<seq<byte>>>): seq<seq<seq<byte>>> {
    if script == [] then []
    else
      FilesReplayed(script[..|script| - 1], files) +
      match script[|script| - 1] case Replay(k) => (if k < |files| then [files[k]] else []) case _ => []
  }

  /** One step of a run; a replay logs its account. On a sealed ledger a tick changes nothing. */
  method Perform(session: Session, s: Setting, files: seq<seq<seq<byte>>>, c: Command, rng: Rng, ghost addsZones: bool)
    returns (ghost log: seq<Replayed>)
    requires Inv(s.params.defaultPrefix, session.Value()) && SettingOk(s)
    requires ProfileReady(s, session.Value(), addsZones) && (c.AddL3Zones? ==> addsZones)
    requires |session.captureHosts| <= MAX_DEVICES
    modifies session, rng
    ensures Inv(s.params.defaultPrefix, session.Value()) && ProfileReady(s, session.Value(), addsZones)
    ensures |session.captureHosts| <= MAX_DEVICES && old(session.devices) <= session.devices
    ensures s.sealed && (c.Tick? || c.Replay?) ==> session.devices == old(session.devices)
    ensures s.sealed && (c.Tick? || c.Replay?) && old(session.TotalWireAssets()) <= s.policy.capAssets ==>
              session.TotalWireAssets() <= s.policy.capAssets
    ensures |log| == if c.Replay? && c.file < |files| then 1 else 0
    ensures log == [] ==> session.captureHosts == old(session.captureHosts)
    ensures log != [] ==>
              && Explained(log[0], s.policy) && ReplayOk(log[0], s.policy) && log[0].before == files[c.file]
              && log[0].plan == old(session.Value()) && session.captureHosts == old(session.captureHosts) + log[0].added
  {
    hide Inv, SettingOk, Devices.WorldSpreads, Spreads, Explained, ReplayOk, Devices.ProfileAtHand, Enrich.ZoneDone,
      Devices.PoolFull, Distinct, FramesOf, ProfileReady, Devices.HasCore, HasNet;
    log := [];
    ghost var before := session.Value();
    ReadyFacts(s, before, |session.devices| + FABRICATE_BATCH, addsZones);
    FewerHosts(s, |session.captureHosts|);
    match c {
      case Tick(run) =>
        var added := RedTick(session, s.w, s.params, s.identity, s.sealed, run, s.cycleEvery, s.namer, rng);
      case AddL3Zones(count) =>
        Devices.CreateL3Zones(session, s.w, s.params, count, rng);
      case EnrichZones =>
        Enrich.EnrichPlant(session, s.w, s.params.defaultPrefix);
      case Replay(k) =>
        if k < |files| {
          var cap := Load(files[k]);
          ghost var e := RemapIntoSession(session, cap, s.policy, rng, s.params.defaultPrefix);
          log := [e];
        }
    }
    ReadyKept(s, before, session.Value(), addsZones);
  }

  /** The registry only grows along a log, from `first` to `last`, each replay adding to what the ones before left. */
  ghost predicate Chained(log: seq<Replayed>, first: seq<CaptureHost>, last: seq<CaptureHost>) {
    && (forall i :: 0 <= i < |log| ==> first <= log[i].plan.hosts && log[i].plan.hosts + log[i].added <= last)
    && (forall i, j :: 0 <= i < j < |log| ==> log[i].plan.hosts + log[i].added <= log[j].plan.hosts)
  }

  lemma ChainStep(log: seq<Replayed>, more: seq<Replayed>, first: seq<CaptureHost>, mid: seq<CaptureHost>,
                  last: seq<CaptureHost>)
    requires Chained(log, first, mid) && first <= mid <= last && |more| <= 1
    requires more != [] ==> more[0].plan.hosts == mid && mid + more[0].added == last
    ensures Chained(log + more, first, last)
  {
  }

  /**
   Whatever a replay knew or added maps to the same address in every later replay of the run that
   carries it, and the frames that replay sent are the survivors under that very map.
   */
  lemma OriginsForever(log: seq<Replayed>, first: seq<CaptureHost>, last: seq<CaptureHost>, q: Policy, i: nat, j: nat,
                       h: CaptureHost)
    requires Chained(log, first, last) && forall e :: e in log ==> Explained(e, q) && ReplayOk(e, q)
    requires i < j < |log| && h in log[i].plan.hosts + log[i].added && h.origin in Remap.HostsOf(log[j].before)
    ensures h.origin in log[j].hosts && log[j].hosts[h.origin] == h.ip
    ensures log[j].after == Survivors(log[j].before, log[j].hosts, log[j].wire, q.remapMac)
  {
    hide Remap.HostsOf, WireMatchesPlan, Remap.NoStray, ZonesExplain, DrawsExplain, KnownHardware;
    assert h in log[j].plan.hosts;
    assert log[j] in log;
  }

  /**
   Any interleaving of ticks, new zones, enrichment and replays. The invariant holds at the end of
   every run and no asset is ever lost. The log accounts for exactly the files replayed, in order:
   every frame sent is a survivor of its file under maps the ledger of that moment explains, and a
   registered origin keeps its address forever. A sealed ledger within its asset cap stays within it.
   */
  method Run(session: Session, s: Setting, files: seq<seq<seq<byte>>>, script: seq<Command>, rng: Rng)
    returns (ghost log: seq<Replayed>)
    requires Inv(s.params.defaultPrefix, session.Value()) && SettingOk(s)
    requires ProfileReady(s, session.Value(), exists c :: c in script && c.AddL3Zones?)
    requires |session.captureHosts| <= MAX_DEVICES
    modifies session, rng
    ensures Inv(s.params.defaultPrefix, session.Value())
    ensures old(session.captureHosts) <= session.captureHosts && old(session.devices) <= session.devices
    ensures s.sealed && (forall c :: c in script ==> c.Tick? || c.Replay?)
            && old(session.TotalWireAssets()) <= s.policy.capAssets ==>
              session.devices == old(session.devices) && session.TotalWireAssets() <= s.policy.capAssets
    ensures |log| == |FilesReplayed(script, files)|
    ensures forall i :: 0 <= i < |log| ==> log[i].before == FilesReplayed(script, files)[i]
    ensures forall e :: e in log ==> Explained(e, s.policy) && ReplayOk(e, s.policy)
    ensures Chained(log, old(session.captureHosts), session.captureHosts)
  {
    hide Inv, SettingOk, Explained, ReplayOk, Chained, ProfileReady;
    log := [];
    ghost var addsZones := exists c :: c in script && c.AddL3Zones?;
    NoLog(session.captureHosts);
    for i := 0 to |script|
      invariant Inv(s.params.defaultPrefix, session.Value()) && ProfileReady(s, session.Value(), addsZones)
      invariant |session.captureHosts| <= MAX_DEVICES
      invariant old(session.captureHosts) <= session.captureHosts && old(session.devices) <= session.devices
      invariant s.sealed && (forall c :: c in script ==> c.Tick? || c.Replay?)
                && old(session.TotalWireAssets()) <= s.policy.capAssets ==>
                  session.devices == old(session.devices) && session.TotalWireAssets() <= s.policy.capAssets
      invariant |log| == |FilesReplayed(script[..i], files)|
      invariant forall j :: 0 <= j < |log| ==> log[j].before == FilesReplayed(script[..i], files)[j]
      invariant forall e :: e in log ==> Explained(e, s.policy) && ReplayOk(e, s.policy)
      invariant Chained(log, old(session.captureHosts), session.captureHosts)
    {
      ghost var mid := session.captureHosts;
      ghost var more := Perform(session, s, files, script[i], rng, addsZones);
      assert script[..i + 1][..i] == script[..i];
      ChainStep(log, more, old(session.captureHosts), mid, session.captureHosts);
      log := log + more;
    }
    assert script[..|script|] == script;
  }

  lemma NoLog(hosts: seq<CaptureHost>)
    ensures Chained([], hosts, hosts)
  {
  }
}
