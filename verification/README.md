# A verified model of a synthetic OT traffic generator

The repository replays captured industrial traffic into a fabricated plant: it relocates every host of
a capture, keeps a ledger of zones, devices and registered capture hosts, plays attack scenarios in
capped bursts, and checks its own output with independent oracles. This project models that logic in
Dafny and proves what holds over every input and every run.

| files | what they model |
|---|---|
| `Wire`, `Frame`, `Checksum` | bytes, frame layout, in-place checksum repair and its exact limits |
| `Net`, `Allocator`, `Remap` | prefixes, the random aligned-block allocator, the injective host map |
| `HostMap`, `Captures` | the in-place rewrite of a frame and the two fail-closed filters |
| `Placement`, `Macs`, `Reconcile` | filling planned zones under an asset budget |
| `Ledger`, `Devices`, `Enrich` | the session ledger and everything that hands out addresses |
| `Engine`, `Runs` | a replay accounted for, and whole runs |
| `SmallPlant`, `Stray`, `Reused` | two replays, played on the model, in which a promise of the comments fails |
| `Scenario` | the phase timeline that slices renders across bursts |
| `ArpGraph`, `ArpWire`, `ArpProfile`, `ArpGate` | who resolves whom, as bytes, and the oracle that measures them |
| `Mapper`, `Dnp3` | capture-wide identifiers and the DNP3 link walker |
| `Eth`, `TcpSession`, `SensorCsv`, `Snmp` | frame synthesis, TCP sequence tracking, the CSV reader, BER |
| `Cache`, `Threat` | the bounded remap cache and the rate-limited promotion timer |

`dafny verify dfyconfig.toml` checks all of it.

## How it is modelled

- Code that updates state is a class or an array method proved equal to a function of the old state;
  the properties are lemmas about that function. Loops follow the source's loops.
- `u32` and `u64` are ranges of integers; wrap-around, truncating casts and saturation are written out.
  Bit operations on masks are a recursive model over bits, proved equal to the arithmetic used elsewhere.
- Randomness is an arbitrary stream of draws with a position in it, so every result holds for all draws.
- Hashes (`stable_mac`, `tiebreak`, the per-IP MAC derivation) and the DNP3 CRC are function parameters.
  `Macs.Spreads` is the one assumption on them: among any set of MACs of the bounded size in use, some
  salt gives a MAC outside it. Without it the source's salt loops need not terminate.
- Addresses and MACs are values, not strings; a frame renderer is a function of phase, event and nonce.

## Where the code and its comments differ

- `cells_no_orphan` is said to leave no single-node tail for any `size >= 2`; with size 2 and an odd
  count it leaves one (`ArpGraph.NoOrphanIff` gives the exact condition; the code uses 6).
- `fresh_subnet` is said never to overlap; once no slot is free it returns 10.0.0.0
  (`Allocator.PickNewNet`, `Devices.FreshZone`).
- The checksum repair is used as if it always made a frame valid; `Checksum.RepairVerdict` says when.
- The into-zones remap is said never to carry an address that was not remapped; a host left unmapped, which takes a
  plan without devices, can pass the filters at an address another host was moved to (`Stray.StrayHostEscapes`,
  `Stray.ReplayBesideStranger`).
- The remap is said to send every asset under the MAC the ledger stores for it. A host reused by a later replay is
  sent under the derived MAC instead, the stored one if and only if they agree (`Engine.ReusedMac`); they disagree
  when the derived one was taken at registration (`Engine.StoredMac`, `Reused.ReplayTwice`).
- A zone target's protocol is called the dominant one of its devices; it is that of the first (`Engine.TargetIs`).
- `encode_oid` folds the first two arcs into one octet and truncates it (`Snmp.OidRoundTrip`).
- The mapper is said to be injective where the range allows; after 65 unlucky draws it is not
  (`Mapper.SeededMapper.MapRange`, `Mapper.CollidingMapper`).
- The eviction bound is exceeded exactly by a single file larger than the budget (`Cache.RemapCache.Miss`,
  `Cache.OversizedRemap`), and the daily limit ends exactly where the clock saturates (`Threat.RateLimited`).
- A phase can take one burst more than its frames need when its last event renders nothing
  (`Scenario.HoldFormula` says exactly when).

## Model

| member | source | states |
|---|---|---|
| `Frame.ParseLayout` | src/proto/frame.rs:39-119 | The offset-advancing parse (up to four VLAN tags, then IPv4 with every length check) computes exactly the layout function, and every layout it returns keeps all later slices in range. |
| `Frame.TagWalkSame` | src/proto/frame.rs:46-54 | The tag walk looks only at the bytes it walks over. |
| `Frame.LayoutKept` | src/proto/frame.rs:39-119 | Rewriting MACs, addresses and checksums never moves a parsed frame's offsets: the layout depends on the bytes `SameShape` lists and on no others. |
| `Frame.TagShifts` | src/proto/frame.rs:46-54 | A VLAN tag of either kind moves every offset by four bytes and changes nothing else, for up to four tags. |
| `Frame.FifthTag` | src/proto/frame.rs:46-54 | A fifth tag is where the walk stops: the frame counts as no IPv4 frame. |
| `Frame.AssembledLayout` | src/proto/frame.rs:55-119 | The parse finds the parts any frame was put together from: a header of 5 to 15 words, TCP options, UDP or another protocol, Ethernet padding, or a packet cut short. |
| `Frame.OtherLayout` | src/proto/frame.rs:39-60 | Fourteen bytes make a frame; without an IPv4 ethertype or a tag nothing behind them is parsed. |
| `Frame.FoldResidue` | src/proto/frame.rs:237-242 | End-around-carry folding is the residue modulo 65535, with 65535 standing for a non-zero zero (sections 1 and 2 of RFC 1071). |
| `Frame.FoldComplement` | src/proto/frame.rs:237-242 | A sum plus the complement of its fold always folds to all ones. |
| `Frame.WordSumField` | src/proto/frame.rs:226-235 | A 16-bit field at an even offset contributes exactly its own value to the word sum, an odd last byte included. |
| `Frame.SumWords` | src/proto/frame.rs:226-235 | The accumulator loop computes the word sum (odd byte padded on the right) without wrapping its u32. |
| `Frame.FoldSum` | src/proto/frame.rs:237-242 | The fold loop terminates and computes the fold. |
| `Checksum.SumSegment` | src/proto/frame.rs:201-217 | One u32 accumulator holds pseudo-header plus segment for every parsed layout: it never overflows. |
| `Checksum.RecomputeChecksums` | src/proto/frame.rs:123-139 | The in-place repair leaves the buffer equal to the repair function of its old bytes. |
| `Checksum.RepairSegment` | src/proto/frame.rs:181-224 | The transport half, with its early returns and the UDP zero rule, equals its function. |
| `Checksum.CheckChecksums` | src/proto/frame.rs:143-179 | The validity check answers true exactly when both sums fold to all ones. |
| `Checksum.SegmentSumIs` | src/proto/frame.rs:197-217 | The transport sum is the receiver's, field by field: both addresses, protocol 6 or 17, the segment length, the segment's words (section 3.1 of RFC 9293, and RFC 768). |
| `Checksum.CheckIsAcceptance` | src/proto/frame.rs:143-179 | A frame passes the check if and only if a receiver working from those fields accepts it. |
| `Checksum.UdpNeverZero` | src/proto/frame.rs:181-224 | A repaired UDP checksum is never zero, which would mean that there is none (RFC 768). |
| `Checksum.RepairVerdict` | src/proto/frame.rs:123-224 | For every frame that parses, the exact condition under which repair makes the check pass: always when the checksum field lies inside the packet; when the packet ends inside the field, iff the input's folded sum with the field zeroed has an all-ones low byte (and, for UDP, is not all ones altogether); when it lies outside, iff the segment was already valid. |
| `Checksum.ShortNeverRepaired` | src/proto/frame.rs:181-224 | A family of parsed UDP frames that no repair can make valid: every IP length of 20 to 27, that is up to and into the checksum field. |
| `Checksum.RepairTouchesChecksumsOnly` | src/proto/frame.rs:123-224 | Any byte the repair changes is one of the IP checksum's two, or bytes 16 and 17 of a TCP header, or 6 and 7 of a UDP one. |
| `Checksum.RepairKeepsLayout` | src/proto/frame.rs:123-224 | A repaired frame parses to the same layout. |
| `Checksum.RepairIdempotent` | src/proto/frame.rs:123-224 | Repairing twice is repairing once. |
| `Net.NetworkIs` | src/proto/l3.rs:69-75 | Masking with the shifted prefix mask (modelled bit by bit) is rounding down to a multiple of the block size. |
| `Net.HostPartIs` | src/proto/l3.rs:794-800 | Masking with the complement is the remainder modulo the block size. |
| `Net.JoinIs` | src/proto/l3.rs:163-169 | Or-ing a host part into an aligned network is addition and cannot overflow. |
| `Allocator.PickNewNet` | src/proto/l3.rs:870-898 | Whatever the draws, the pick is an aligned slot in 10/8; it meets no earlier block whenever any slot is free, and is the 10.0.0.0 fallback only when none is. |
| `Allocator.ClampNearest` | src/proto/l3.rs:870-872 | A prefix of 8 to 30 is allocated as it is, one outside as the nearer of the two. |
| `Allocator.Buddies` | src/proto/l3.rs:870-898 | Aligned power-of-two blocks of which the first is at least as large either lie apart or the first contains the second. |
| `Allocator.MeetsMeansNotApart` | src/proto/l3.rs:890-898 | The shorter-prefix mask comparison detects exactly the blocks that share an address. |
| `Allocator.ApartFits` | src/proto/l3.rs:868-898 | Pairwise disjoint placed blocks total at most 2^24 addresses. |
| `Allocator.RoomLeavesSlot` | src/proto/l3.rs:868-898 | If every earlier block is at least as large and the pool is not yet used up, a free slot exists: the fallback is unreachable. |
| `Allocator.AssignNets` | src/proto/l3.rs:153-161 | Widest first, for any draws: all blocks are aligned in 10/8, and they are pairwise disjoint if and only if their total size fits the pool. |
| `Remap.EnumerateHosts` | src/proto/l3.rs:120-149 | The hosts found are exactly the relocatable IPv4 and ARP addresses of the capture, each under its own group. |
| `Remap.HostsExactly` | src/proto/l3.rs:120-149 | A host of a capture is exactly a relocatable address that some frame names at either end. |
| `Remap.GroupIsSubnet` | src/proto/l3.rs:79-88 | The group of an address is the block of the first hint, of prefix 8 or longer, whose address interval holds it; if there is none, its /24. |
| `Remap.SortGroups` | src/proto/l3.rs:152-154 | The distinct groups in strictly increasing (prefix, network) order: widest first. |
| `Remap.HostMapInjective` | src/proto/l3.rs:163-169 | Over disjoint blocks no two hosts get one address. |
| `Remap.BuildHostMap` | src/proto/l3.rs:163-169 | Each host keeps its group and its in-subnet offset; disjoint blocks make the map injective. |
| `Remap.SubnetsKept` | src/proto/l3.rs:112-169 | Hosts of one hinted subnet, or of one /24 outside the hints, keep their distance: m[h] - m[k] = h - k. |
| `Remap.RemapCapture` | src/proto/l3.rs:112-200 | The whole random remap: the groups are exactly those of the capture's hosts, widest first; each host is mapped to its group's block at its old offset, and hosts of one subnet keep their distance; the blocks are pairwise disjoint iff the groups' rooms fit 10/8, and then the map is injective; the survivors are exactly the rewritten frames both filters keep; with MAC remap every survivor is a plan frame, and a receiver accepts its checksums. |
| `Remap.SurvivorsPlanned` | src/proto/l3.rs:112-200 | Plan equals wire, provided no unmapped host of the capture has an address another was moved to: every surviving frame is IPv4 or IPv4 ARP, its source is the image of an enumerated host, its Ethernet source (and ARP sender hardware address) is that image's MAC, its destination is an image or no host address, and no four consecutive bytes spell an original address. |
| `Remap.SurvivorsHold` | src/proto/l3.rs:206-254 | Every surviving IPv4 frame whose checksum field lies in its packet validates. |
| `Stray.StrayOutcome` | src/proto/l3.rs:649-706 | Whatever the groups, their order and the tie-breaks: with a budget of one asset and no devices, the host of the lower network is moved to the address the other host sits at, and that one is left unmapped. |
| `Stray.StrayHostEscapes` | src/proto/l3.rs:366-457 | Without that proviso it fails, on every replay of a concrete two-frame capture into a zone without devices: the unmapped host's frame passes both filters under its own hardware address. |
| `Stray.ReplayBesideStranger` | src/simulate/engine.rs:316-371 | That replay, played on the model from an empty ledger: the frame is left in the capture. |
| `HostMap.RewriteAddr` | src/proto/l3.rs:220-231 | One address field is replaced by its image, or left alone when it is not in the map. |
| `HostMap.RewriteIpv4` | src/proto/l3.rs:217-245 | In-place rewrite of an IPv4 frame: addresses, checksums when something changed, source MAC, and destination MAC only when unicast. |
| `HostMap.RewriteArp` | src/proto/l3.rs:293-330 | In-place rewrite of an ARP frame: protocol and hardware addresses and the Ethernet header in step. |
| `HostMap.RewriteFrame` | src/proto/l3.rs:213-253 | The per-frame dispatch equals the rewrite function; frames that do not parse are untouched. |
| `HostMap.RemappableRanges` | src/proto/l3.rs:43-47 | Relocated addresses are 1.0.0.0 to 126.255.255.255 and 128.0.0.0 to 223.255.255.255. |
| `HostMap.ArpShapes` | src/proto/l3.rs:59-67 | Behind any ethertype offset, ARP is remapped exactly for Ethernet hardware and IPv4 protocol addresses of lengths 6 and 4, complete to 28 bytes. |
| `HostMap.RealHardware` | src/proto/l3.rs:311-330 | A hardware address counts as real unless all its bytes are zero or all are 0xff. |
| `HostMap.RewriteTouchesOnly` | src/proto/l3.rs:206-330 | A rewrite changes Ethernet addresses, protocol and ARP hardware addresses and checksums, at their literal offsets, and no payload byte; a frame between two unmapped hosts not at all. |
| `HostMap.RewriteMaps` | src/proto/l3.rs:206-254 | The rewrite keeps a frame's layout and address positions, maps both addresses, and puts the new source's MAC on the frame. |
| `HostMap.DestinationHardware` | src/proto/l3.rs:239-330 | A frame's Ethernet destination becomes the mapped destination's MAC exactly when an IPv4 frame was unicast or an ARP frame named real target hardware; otherwise it is untouched, so a unicast ARP request without target hardware keeps its original one. |
| `HostMap.ArpDestination` | src/proto/l3.rs:311-330 | The target's hardware address inside ARP moves in step with the Ethernet destination. |
| `HostMap.RewriteChecksums` | src/proto/l3.rs:232-234 | A frame whose source or destination changed leaves with valid checksums when its field lies in the packet. |
| `HostMap.SurvivorPlannedIff` | src/proto/l3.rs:366-457 | One frame that passes both filters is a plan frame if and only if its source had been mapped or carried the derived hardware address all along. |
| `HostMap.CoherentMeans` | src/proto/l3.rs:390-457 | The coherence guard passes exactly frames with a planned relocatable source, a destination that is planned or no host, and an IPv4 packet that is there to its announced end. |
| `HostMap.SurvivorIsPlanned` | src/proto/l3.rs:366-457 | One frame that passes the coherence guard and the payload-leak guard is a plan frame: source and destination images, source hardware in step, and no four bytes in a row an original address. |
| `HostMap.SurvivorHolds` | src/proto/l3.rs:390-457 | A frame that passes the coherence guard had its source mapped, so its checksums were repaired. |
| `Captures.Capture.ApplyHostMap` | src/proto/l3.rs:206-254 | Every packet is replaced by its rewrite and none is added, lost or reordered. |
| `Captures.Capture.Retain` | src/proto/l3.rs:366-395 | Exactly the frames that pass stay, in order, and the count reported is the number dropped. |
| `Captures.Capture.RemapThrough` | src/proto/l3.rs:708-728 | Rewrite, coherence guard, leak guard, in that order. |
| `Captures.Load` | src/simulate/engine.rs:316 | Every replay reads its file afresh: the frames of the file, each in a buffer of its own. |
| `Captures.RetainedMember` | src/proto/l3.rs:366-395 | A frame is retained if and only if it was there and passes. |
| `Captures.SurvivorsExactly` | src/proto/l3.rs:366-457 | A rewritten frame leaves if and only if its source is a new address, its destination is one or is no host, its packet is whole, and none of its windows of four bytes, the last included, is an original address. |
| `Placement.PlaceInZone` | src/proto/l3.rs:794-811 | The host keeps its offset when that slot is usable and free, otherwise it takes the lowest free host; nothing is returned exactly when the zone is full. |
| `Placement.FirstHostWhere` | src/proto/l3.rs:804-806 | The scan over a zone's hosts finds the least one accepted, or there is none. |
| `Placement.HostRange` | src/proto/l3.rs:804-813 | The hosts of a block are all its addresses but the first and the last, and all of a /31 or /32. |
| `Macs.FreshMac` | src/proto/l3.rs:673-681 | The salt loop stops at the first derived MAC not in use. |
| `Reconcile.BestZone` | src/proto/l3.rs:750-765 | The first zone of the stable ranking: nothing outranks it, and it outranks everything listed before it. |
| `Reconcile.RankingIs` | src/proto/l3.rs:750-780 | The ranking criterion by criterion: same vendor, then same protocol, then same level, each where the affinity looks at it, then more room, then the lower tie-break. |
| `Reconcile.RoomCountsFree` | src/proto/l3.rs:782-792 | A zone's room is the number of its host addresses no device has. |
| `Reconcile.ForceMapTarget` | src/proto/l3.rs:741-746 | The lowest device address of the preferred zone, else of any zone; none exactly when no zone has a device. |
| `Reconcile.AddAsset` | src/proto/l3.rs:667-694 | A placed host becomes one asset with the zone's vendor, protocol and level, a fresh MAC, and one unit of budget spent; all books stay consistent. |
| `Reconcile.PlaceHost` | src/proto/l3.rs:659-702 | Registered, new asset, or riding a device: the three exits, each with its exact condition, and only this host's entries change. |
| `Reconcile.PlaceGroup` | src/proto/l3.rs:656-702 | Hosts in address order: each settled in the group's zone, and no host is passed over for a higher address. |
| `Reconcile.PlaceGroups` | src/proto/l3.rs:649-706 | Groups in network order, each in its best-ranked zone; a later group got budget only if every host refused before it had found its zone full; the summary lists exactly the groups with a mapped host. |
| `Reconcile.SettledStays` | src/proto/l3.rs:649-706 | What was decided for a host never changes while others are served. |
| `Reconcile.ReconcileCaptureIntoZones` | src/proto/l3.rs:609-736 | At most `budget` new assets, in their zone and off every reserved or registered address, with distinct IPs, MACs and origins off the reserved MACs, each MAC the first unused one of its derivation; registered origins keep their address; the wire MAC of every new asset is the stored one, and only new assets have overrides; every host is mapped if some zone has a device; the capture becomes exactly the surviving rewritten frames. |
| `Ledger.EffectiveAssetCap` | src/ledger/mod.rs:58-62 | The configured cap, or the default, always in 1..2000. |
| `Ledger.CapIs` | src/ledger/mod.rs:58-62 | A configured cap in 1..2000 is used as it is, one outside is moved to the nearer end, and the default is 512. |
| `Ledger.Session.AddSubnet` | src/ledger/mod.rs:320-326 | Accepted exactly below 16 zones and when the network is new; otherwise unchanged. |
| `Ledger.Session.AddDevice` | src/ledger/mod.rs:330-336 | Accepted exactly below 2000 devices; otherwise unchanged. |
| `Ledger.Session.RegisterCaptureHost` | src/ledger/mod.rs:285-295 | Accepted exactly below the asset cap and when no record has the address; the generation grows with it. |
| `Ledger.Session.RenameZonesNewCycle` | src/ledger/mod.rs:362-376 | Only zone names change, by position, and the cycle grows by one. |
| `Ledger.FreshLedger` | src/ledger/mod.rs:183-200 | The empty ledger keeps the invariant, for exactly the prefixes 8 to 30 the configuration accepts. |
| `Ledger.ZoneAdded` | src/ledger/mod.rs:320-326 | A zone apart from the others keeps the invariant. |
| `Ledger.DeviceAdded` | src/ledger/mod.rs:330-336 | A device with a fresh address and MAC in its zone keeps the invariant. |
| `Ledger.HostAdded` | src/ledger/mod.rs:285-295 | A capture host with a fresh address, MAC and origin keeps the invariant. |
| `Ledger.RenameKeepsInv` | src/ledger/mod.rs:362-376 | Renaming zones keeps the invariant. |
| `Ledger.ReservedSlots` | src/simulate/roles.rs:82-103 | In every zone of prefix 8 to 30 gateway and station are two different hosts: the first, and the 250th, or the last where there are fewer. |
| `Devices.NextFreeIn` | src/simulate/devices.rs:112-117 | The lowest host that is not the gateway, the station slot or in use; none exactly when there is none. |
| `Devices.FreshZone` | src/proto/l3.rs:100-108 | The new network is aligned in 10/8 and apart from every zone, unless the pool is full, which is exactly when it repeats a zone. |
| `Devices.CreateZone` | src/simulate/devices.rs:182-221 | A zone is added unless the plan has no core protocol, the zone cap is hit or the pool is full; in exactly those cases nothing changes. Its vendor, level and name are those of a core profile of the protocol whose turn it is. |
| `Devices.EveryProtocolCovered` | src/simulate/devices.rs:166-207 | Once as many zones were created as there are core protocols, every core protocol has had a zone of a vendor and level of its own. |
| `Devices.CreateL3Zones` | src/simulate/devices.rs:229-259 | Adds at most `count` level-3 zones, each of the server maker whose turn it is, and stops short only at a cap or a full pool. |
| `Devices.ChooseOrCreateSubnet` | src/simulate/devices.rs:122-157 | The chosen zone has room or is new; nothing is chosen only when no zone has room and none can be added; a zone is created whenever fewer zones than core protocols exist and one can be. |
| `Devices.PickProfile` | src/simulate/devices.rs:264-277 | A core profile, of the zone's vendor whenever that vendor has one. |
| `Devices.PlaceDevice` | src/simulate/devices.rs:76-98 | One device under the first salted MAC off every MAC in the ledger; refused exactly at the device cap. |
| `Devices.Fabricate` | src/simulate/devices.rs:32-101 | Terminates despite the iteration that adds no device; adds exactly the number returned, keeps the ledger invariant, and stops short of the target only when there is no profile, the hard cap is hit, or no zone has room and none can be added. Every device is of a core profile, of its zone's vendor if that has one, under a MAC derived from the profile; zones are created in turn, and before further devices until every protocol has one. |
| `Devices.FabricateAt` | src/simulate/devices.rs:66-98 | One device on a chosen slot, with those attributes; refused exactly at the device cap. |
| `Enrich.BomShape` | src/simulate/bom.rs:73-100 | No asset kind occurs twice in a zone's bill of materials and there is one firewall. |
| `Enrich.BomSupplies` | src/simulate/bom.rs:73-100 | What a zone gets, kind by kind: a firewall everywhere, a switch on levels 1 to 3, HMI and engineering station on 1 and 2, historian on 2 and 3, router, four servers and two stations on 3. |
| `Enrich.PlaceBom` | src/simulate/devices.rs:518-542 | One bill-of-materials asset under a fresh MAC; refused only at the device cap. |
| `Enrich.FillLine` | src/simulate/devices.rs:479-544 | One line adds its count of its kind to the zone and never more, all of it unless no host is free or the device cap is hit; a firewall goes on the gateway slot if that is free and nowhere else; no other kind or zone changes. |
| `Enrich.EnrichPlant` | src/simulate/devices.rs:427-546 | Every zone gets exactly the supply of its level, kind by kind, or stops for want of a free host or at the device cap, and nothing else; every device is named for its kind and address, under a MAC derived from that vendor; the invariant holds, so of the devices only a firewall sits on the gateway slot and none on the station slot. |
| `Engine.RegisteredFacts` | src/simulate/engine.rs:433-443 | The origin table maps every registered origin to its own address and nothing else. |
| `Engine.DeviceMacFacts` | src/simulate/engine.rs:447-456 | The device MAC table covers exactly the device addresses. |
| `Engine.DeviceMacLookup` | src/simulate/engine.rs:447-456 | The device MAC table gives every device its own MAC. |
| `Engine.TargetIs` | src/simulate/engine.rs:460-488 | A zone is offered to a capture under its own block, vendor and level, and under the protocol of its first device. |
| `Engine.ReservedIsDevices` | src/simulate/engine.rs:460-488 | The zone targets together reserve exactly the device addresses. |
| `Engine.CaptureGroups` | src/simulate/engine.rs:492-504 | Each group is one subnet's hosts under that subnet's class; together they hold every relocatable host once. |
| `Engine.RegisterAll` | src/simulate/engine.rs:353-369 | Registration loses no asset: with budget = cap - total, each reported asset is accepted, so registry and generation grow by exactly that count. |
| `Engine.ReconciledWire` | src/simulate/engine.rs:343-353 | After a reconciliation, provided no unmapped host sits at a new address, every frame is a plan frame with sound checksums, and a frame from a newly registered host carries the MAC stored for it. |
| `Engine.ReusedMac` | src/simulate/engine.rs:322-352 | A host registered by an earlier replay is rewritten with the MAC derived for its address; that is the stored one if and only if the two agree in the ledger. |
| `Engine.RiddenMac` | src/proto/l3.rs:696-716 | A host that rides a device is rewritten with that device's own MAC. |
| `Engine.StoredMac` | src/proto/l3.rs:673-681 | A new host is stored under the MAC derived for its address if and only if no asset of the ledger and no other new host has that MAC. |
| `Engine.ZonesMean` | src/simulate/engine.rs:322-371 | An account of a replay into zones implies: known origins map to the address they were registered with; every new record has its zone's vendor, level and protocol and an address in it; a host goes without a record only when the assets are at their cap or a zone is full; every host is mapped when the ledger has a device; and with MAC remap (no unmapped host at a new address) every frame sent is a plan frame with sound checksums, from a device under the device's MAC, from a new host under its stored one, from a known host under its stored one exactly when that is the derived one. |
| `Engine.DrawsMean` | src/simulate/engine.rs:318-321 | The same for the random remap of a ledger without zones, without any proviso. |
| `Engine.ReplayIntoZones` | src/simulate/engine.rs:322-371 | Reconcile, then register: invariant kept, registry only grows and within the cap. The frames left in the capture are exactly the survivors of the frames read under a host map and MACs that a reconciliation with the ledger's zones explains, one group per subnet; what is registered is what that reconciliation reports. |
| `Engine.RemapIntoSession` | src/simulate/engine.rs:316-371 | The same for either path: into the zones, or, when there are none, at random into disjoint blocks; the frames left are exactly the survivors under the explained map. |
| `Runs.RedTick` | src/simulate/engine.rs:520-560 | A tick adds at most a batch, nothing on a sealed ledger, and renames zones exactly on the cadence of a saturated one. |
| `Runs.Perform` | src/simulate/engine.rs:316-371 | One step of any kind keeps the invariant and never loses an asset; a sealed ledger within its cap stays within it; a replay reads the named file and logs the ledger it met, the frames it read and sent, and the maps that explain them. |
| `Runs.Run` | src/simulate/engine.rs:316-560 | Over any interleaving of ticks, new zones, enrichment and replays: IPs and MACs distinct, zones disjoint and at most 16, devices at most 2000, records never dropped; a sealed ledger within its asset cap stays within it; the log accounts for exactly the files replayed, in order, each with the frames sent as the survivors of that file under explained maps, chained along the growing registry. |
| `Runs.OriginsForever` | src/simulate/engine.rs:433-443 | Across a run, an origin once registered keeps its address in every later replay that carries it, and the frames that replay sends are the survivors under the very map that says so. |
| `Reused.FirstOutcome` | src/proto/l3.rs:656-694 | With the derived address already a device's, the host of a concrete capture takes the one free slot and is stored under another MAC, whatever the groups and tie-breaks. |
| `Reused.ReusedHostChangesMac` | src/simulate/engine.rs:322-371 | Replayed again, the same host leaves under the derived MAC and not the stored one. |
| `Reused.ReplayTwice` | src/simulate/engine.rs:316-371 | Both replays played on the model: the capture then holds a frame from a registered host under a MAC other than the ledger's. |
| `Scenario.BurstExact` | src/scenario/engine.rs:209-259 | One burst emits at most the cap, continues exactly where the last one stopped, and an event in progress keeps its pinned nonce. |
| `Scenario.ScenarioEngine.EmitBurst` | src/scenario/engine.rs:209-247 | The cursor, offset and pinned-nonce loop equals the burst function. |
| `Scenario.ScenarioEngine.PhaseFrames` | src/scenario/engine.rs:209-259 | Frames of one burst and the new timeline state: the next phase exactly when all events are drained and `dwell_runs` bursts have passed, otherwise one burst more in this one. |
| `Scenario.ScenarioEngine.Advance` | src/scenario/engine.rs:261-273 | The next phase in order; the last one is held under Oneshot and wraps under Loop. |
| `Scenario.PassExact` | src/scenario/engine.rs:209-259 | Over any bursts of one pass the frames concatenate to what was rendered, nothing lost, repeated or reordered, and each event carries the nonce of the one burst that first rendered it, plus its index. |
| `Scenario.DrainedPass` | src/scenario/engine.rs:209-259 | A pass that reaches the end sent every event's full render in order. |
| `Scenario.NoncesDiffer` | src/scenario/engine.rs:225-227 | Event nonces are 64-bit sums: no two events of a burst share one. |
| `Scenario.PassPosition` | src/scenario/engine.rs:209-259 | With fixed frame counts, the position after k bursts is k times the cap, and the phase is drained after exactly the computed number of bursts. |
| `Scenario.HeldExactly` | src/scenario/engine.rs:248-273 | A phase is held for exactly its hold and then left, for any nonces. |
| `Scenario.HoldFormula` | src/scenario/engine.rs:248-258 | For any frame counts the hold is max(dwell_runs, ceil(total / cap)), or 1 if that is 0, plus one burst exactly when the frames fill bursts exactly, the dwell does not outlast them and the last event is silent. |
| `Scenario.SilentTailCostsABurst` | src/scenario/engine.rs:220-247 | A phase of two events, the last silent, that is held one burst longer than max(dwell, ceil(total / cap)). |
| `Scenario.RunExact` | src/scenario/engine.rs:209-273 | For any renderer, nonces and campaign, a whole run splits into finished stays, in campaign order, and the stay under way; a phase is left exactly at the first burst that finds it drained and dwelt; all that was sent is every finished stay's events in full, in order, then the part sent of the one under way. |
| `Scenario.PhaseOrder` | src/scenario/engine.rs:261-273 | The k-th phase visited: k modulo the count under Loop, the smaller of k and the last under Oneshot. |
| `Scenario.OneshotNeverReturns` | src/scenario/engine.rs:248-273 | Under Oneshot the phase index never decreases. |
| `Scenario.Schedule` | src/scenario/engine.rs:209-273 | From the start, the k-th phase is entered after exactly the sum of the earlier holds. |
| `ArpGraph.CellsNoOrphan` | src/simulate/roles.rs:325-348 | The index loop computes the cell list. |
| `ArpGraph.CellsPartition` | src/simulate/roles.rs:325-348 | Cells are consecutive, 1 to `size` long, and together are exactly the nodes in order. |
| `ArpGraph.NoOrphanIff` | src/simulate/roles.rs:325-348 | No cell is a single node if and only if there is not exactly one node and either the size is at least 3 or the count is even: narrower than the `size >= 2` the comment assumes. |
| `ArpGraph.CellCount` | src/simulate/roles.rs:325-348 | There are no more cells than the size makes necessary: the rounded-up quotient. |
| `ArpGraph.BindCell` | src/simulate/roles.rs:300-316 | The two loops of a cell give its edge list. |
| `ArpGraph.CellIsStar` | src/simulate/roles.rs:300-316 | The edges of a cell are exactly those from its first node to every other, and one from the second to the first. |
| `ArpGraph.EveryNodeOwnsOnce` | src/simulate/roles.rs:299-317 | Every node owns exactly one edge. |
| `ArpGraph.NoSelfResolution` | src/simulate/roles.rs:299-317 | No edge joins a node to itself. |
| `ArpGraph.FanoutBounded` | src/simulate/roles.rs:241-320 | No hardware address asks for more than CELL_SIZE - 1 owners, over the whole graph. |
| `ArpGraph.CastFacts` | src/simulate/roles.rs:270-296 | A zone's cast holds every asset, the station or a synthetic requester, at least two nodes, with distinct addresses in the zone. |
| `ArpGraph.StationTakesPart` | src/simulate/roles.rs:270-296 | A zone's station always takes part, and leads unless it is an asset; a synthetic requester one address below comes only to a lone asset on that slot. |
| `ArpGraph.ArpEdges` | src/simulate/roles.rs:241-320 | For any ledger in its invariant every device and capture host owns an edge; zones come in the order of their text, each cast is the zone's assets by ascending address behind its synthetic node, and the edges are those of the casts' cells in that order. |
| `ArpWire.Arp` | src/synth/arp.rs:25-52 | The byte builder equals the 60-byte frame function. |
| `ArpWire.ArpFields` | src/synth/arp.rs:25-52 | What a receiver reads at the fixed offsets of RFC 826 is what was asked for. |
| `ArpWire.ResolveFields` | src/synth/arp.rs:56-90 | The question goes to the broadcast address and names no target hardware; the answer goes to the asker's hardware address and names it; both carry the edge's addresses. |
| `ArpProfile.Analyze` | src/validate/arp_profile.rs:55-95 | The per-packet counters and fan-out table measure exactly the requests, replies, gratuitous frames, runts, local addresses, repliers and largest fan-out. |
| `ArpProfile.OracleReads` | src/validate/arp_profile.rs:55-95 | What the oracle makes of any ARP frame, cut short anywhere: its operation, whether it is gratuitous, a runt, or from locally administered hardware; below 42 bytes nothing. |
| `ArpProfile.OracleIgnores` | src/validate/arp_profile.rs:55-65 | A frame of any other ethertype is not counted at all. |
| `ArpProfile.Check` | src/validate/arp_profile.rs:105-149 | Each violation is reported exactly when its band is broken; none exactly when all hold. |
| `ArpProfile.GeneratorSatisfiesOracle` | src/validate/arp_profile.rs:55-149 | Any rendered graph over distinct, globally administered nodes measures as one request and one reply per node, every owner replying, nothing out of band. |
| `ArpGate.GateLedger` | src/validate/arp_profile.rs:55-149 | From ledger to verdict: the profile measured is that of the bytes of the ledger's own graph, zones in order; any ledger in its invariant passes and every asset is seen to reply. |
| `Mapper.SeededMapper.MapRange` | src/proto/mapper.rs:42-50 | The same original always gives the same value; a new one is in range, and collides exactly when the range is a single used value or 65 draws in a row hit used values, which is exactly when a one-to-one table stops being one. |
| `Mapper.SeededMapper.DrawUnused` | src/proto/mapper.rs:52-67 | The bounded retry loop returns a used value exactly when every draw hit a used one. |
| `Mapper.SeededMapper.MapU16` | src/proto/mapper.rs:73-75 | A one-to-one table stays one to one exactly unless all 65 draws hit values in use before them. |
| `Mapper.ExhaustedTwice` | src/proto/mapper.rs:52-67 | Over two stretches of draws, the first ending on a finished draw, some 65 draws in a row hit exactly when they did in one of the stretches. |
| `Mapper.StuckSourceCollides` | src/proto/mapper.rs:52-67 | A stuck source and one used value: all 65 draws hit although 65535 values are free. |
| `Mapper.CollidingMapper` | src/proto/mapper.rs:42-67 | With that source two originals end up under one value. |
| `Dnp3.LinkFrame` | src/synth/dnp3.rs:37-48 | The framing loop builds header, then 16-byte blocks each with its CRC. |
| `Dnp3.LinkRoundTrip` | src/synth/dnp3.rs:37-48 | A receiver that checks start octets, length and every CRC gets the control octet, both addresses and the user data back, up to 250 octets. |
| `Dnp3.MutateHeader` | src/proto/mutators/dnp3.rs:43-58 | Destination, source and header CRC rewritten in place, one report per address that changed. |
| `Dnp3.Mutate` | src/proto/mutators/dnp3.rs:31-68 | For any payload at all, the in-place walk under a table that grows as it goes equals the walk under the final table; both addresses of every visited frame are in it; the table only grows, and a one-to-one table stays one to one exactly unless some 65 draws in a row all hit values held before them. |
| `Dnp3.ReportsExactly` | src/proto/mutators/dnp3.rs:43-58 | What is reported is exactly the link addresses the map changes, each as destination or source of a visited frame. |
| `Dnp3.WalkMapsFrames` | src/proto/mutators/dnp3.rs:31-68 | On any concatenation of framed messages (user data up to 250 octets) the walk visits exactly the frame starts and yields the same messages between mapped addresses, header and block CRCs right (clause 9 of IEEE 1815-2012). |
| `Dnp3.WalkTouches` | src/proto/mutators/dnp3.rs:31-68 | In any payload at all the walk changes only octets 4 to 9 behind two start octets 0x05 0x64. |
| `Dnp3.MappedApart` | src/proto/mutators/dnp3.rs:44-55 | Under a one-to-one table distinct link addresses stay distinct. |
| `Eth.Finish` | src/synth/eth.rs:38-43 | Parse, then repair in place. |
| `Eth.TcpSegment` | src/synth/eth.rs:79-105 | The byte builder equals the frame function. |
| `Eth.TcpRoundTrip` | src/synth/eth.rs:79-105 | A segment that fits one packet is received exactly as sent, addresses, ports, numbers, flags and data, by a receiver that sums the fields itself. |
| `Eth.TcpPlain` | src/synth/eth.rs:17-36 | No IP options or fragments, TTL 64, protocol 6, a window of 8192 and no urgent data. |
| `Eth.UdpDatagram` | src/synth/eth.rs:47-66 | The byte builder equals the frame function. |
| `Eth.UdpRoundTrip` | src/synth/eth.rs:47-66 | A datagram that fits one packet is received exactly as sent, length field included, by a receiver that sums the fields itself. |
| `Eth.UdpPlain` | src/synth/eth.rs:17-36 | The same header bytes on a datagram, with a UDP checksum that is never left out. |
| `TcpSession.TcpSession.constructor` | src/synth/session.rs:42-67 | Initial sequence numbers derive from the endpoints in wrapping arithmetic. |
| `TcpSession.IsnSeparates` | src/synth/session.rs:54-62 | Sessions to different servers, from different hosts on one port, or from different ports of one host, start at different numbers. |
| `TcpSession.TcpSession.Segment` | src/synth/session.rs:72-103 | One frame more; the sender's number advances by payload plus one for SYN or FIN, modulo 2^32; the acknowledgement is the peer's next number. |
| `TcpSession.TcpSession.Open` | src/synth/session.rs:106-110 | SYN, SYN+ACK, ACK. |
| `TcpSession.TcpSession.Close` | src/synth/session.rs:123-128 | FIN+ACK, ACK, FIN+ACK, ACK. |
| `TcpSession.RequestResponse` | src/synth/session.rs:140-163 | The one-shot exchange is the script of those two messages. |
| `TcpSession.ScriptFlags` | src/synth/session.rs:106-128 | Over a whole connection the first two segments synchronize, all but the first acknowledge, exactly the messages push, and the first and third of the teardown finish, each from the side whose turn it is. |
| `TcpSession.FramesAddressed` | src/synth/session.rs:72-103 | Every frame goes from its sender's hardware address to the other side's. |
| `TcpSession.InOrder` | src/synth/session.rs:72-133 | A receiver that knows only the frames finds each side in sequence and every acknowledgement exact. |
| `TcpSession.Reassembled` | src/synth/session.rs:72-133 | Placing a side's data by sequence number modulo 2^32 rebuilds exactly what it sent. |
| `TcpSession.ConnectionDelivers` | src/synth/session.rs:72-133 | For every script of messages, up to 2^32 bytes a side: all frames are received, in sequence, exactly acknowledged; each side's bytes are reassembled from the announced number; both FINs end acknowledged (section 3.4 of RFC 9293). |
| `SensorCsv.ParseRecords` | src/validate/sensor_csv.rs:60-93 | The character loop equals the state machine. |
| `SensorCsv.ParsePrinted` | src/validate/sensor_csv.rs:60-93 | Reading any printed table, bare and quoted fields, LF, CRLF or CR, with or without a final break, gives the table less its blank-looking records (section 2 of RFC 4180). |
| `SensorCsv.RunCell` | src/validate/sensor_csv.rs:68-80 | A stretch of text, quoted or bare, adds itself to the field wherever in the field it comes. |
| `SensorCsv.RunUnclosed` | src/validate/sensor_csv.rs:68-80 | A quotation nobody closes runs to the end of the text, commas and line breaks included. |
| `SensorCsv.RoundTrip` | src/validate/sensor_csv.rs:60-93 | Reading undoes printing if and only if no record is empty or a single empty field. |
| `Snmp.EncodeOid` | src/synth/snmp.rs:31-52 | The encoder equals its specification, refusing fewer than two arcs or a first arc above 2. |
| `Snmp.OidAccepted` | src/synth/snmp.rs:26-35 | Refused are exactly identifiers of fewer than two arcs or with a first arc above 2. |
| `Snmp.FillGroups` | src/synth/snmp.rs:36-46 | The ten-slot group buffer is never overrun, for any 64-bit arc. |
| `Snmp.ArcsDecode` | src/synth/snmp.rs:36-51 | Concatenated arcs decode to exactly those arcs, whatever follows. |
| `Snmp.ArcsInjective` | src/synth/snmp.rs:36-51 | No two lists of arcs share an encoding. |
| `Snmp.OidRoundTrip` | src/synth/snmp.rs:26-52 | A decoder gets the arcs back if and only if the first subidentifier is below 128 and the second arc is below 40 when the first is below 2 (section 8.19 of X.690). |
| `Snmp.TlvRoundTrip` | src/synth/snmp.rs:54-69 | An element reads back with its tag, value and what follows if and only if the value is at most 65535 octets. |
| `Snmp.IntContent` | src/synth/snmp.rs:72-83 | The stripping loop yields the minimal content octets. |
| `Snmp.IntRoundTrip` | src/synth/snmp.rs:72-83 | The octets decode to the value in two's complement and none could be dropped (section 8.3 of X.690). |
| `Cache.OldestFirstSorts` | src/simulate/engine.rs:1090-1091 | Every index once, oldest first, ties in listing order. |
| `Cache.PlanEvictions` | src/simulate/engine.rs:1081-1105 | The plan is the shortest oldest-first run of files other than the kept one that brings the total within budget; the subtraction never underflows. |
| `Cache.PlanUnique` | src/simulate/engine.rs:1081-1105 | There is only one such plan. |
| `Cache.RemapCache.Scan` | src/simulate/engine.rs:1111-1134 | One listing pass gives the true total and the kept file's index. |
| `Cache.RemapCache.Evict` | src/simulate/engine.rs:1111-1140 | Files planned and deletable go, the kept file and undeletable ones stay, and the total returned is the true size; if every delete succeeds the total is within budget or only the kept file is left. |
| `Cache.RemapCache.Miss` | src/simulate/engine.rs:404-421 | After any run of misses the estimate is never below the true size; eviction runs exactly when the projection exceeds the budget; if deletes succeed the directory is within budget or holds only the file just written, and within budget exactly when that file is. |
| `Cache.OversizedRemap` | src/simulate/engine.rs:404-421 | A remap larger than the budget stays, over budget, in a directory that was empty. |
| `Threat.ThreatScheduler.Schedule` | src/threat/mod.rs:60-68 | The next due time lies between anchor plus minimum and anchor plus maximum, saturating. |
| `Threat.ThreatScheduler.constructor` | src/threat/mod.rs:42-58 | The interval is floored at a day and anchored on the last recorded promotion. |
| `Threat.ThreatEngine.MaybePromote` | src/simulate/engine.rs:625-670 | Nothing happens unless due; when due the timer restarts whatever the outcome and only a promotion is recorded. |
| `Threat.ThreatEngine.RunEvents` | src/threat/mod.rs:42-76 | Over any attempts, clock readings and restarts with any settings, recorded promotions stay a day apart, up to saturation of the 64-bit clock. |
| `Threat.RateLimited` | src/threat/mod.rs:24-26 | So from one promotion, n more take at least n days exactly when the 64-bit clock can still count them. |
| `Threat.ClockEndsTheLimit` | src/threat/mod.rs:60-68 | The engine, run at the last second its clock can show, promotes twice in that second. |

## Left out

- Process, network and sysfs control, tcpreplay, tshark, signals, the command line: input and output.
- Configuration, YAML, TOML and JSON loading, OUI and vulnerability tables: profiles, prefixes and caps are parameters.
- Reading and writing pcap files and the ledger file, and the cache key: the frames and records themselves are modelled.
- Attack and identity payload bytes (S7, Modbus, IEC 104 and 101, OPC UA, TriStation, ENIP, DNS, LLDP, CDP): fixed layouts; `render_event` is a parameter of the timeline.
- North-south crossings, conduit choice and the engine's assertion bursts: selection over the same nodes, no new invariant.
- Pinned plants: they do not deduplicate MACs, so they are outside the ledger invariant.
- The optional drops after a remap (oversize frames, capture ARP, routable leftovers): they only remove further frames.
- Promoting a host inside a capture and choosing its external address: only the timing of promotions is modelled.
- Hostnames, domains, zone names and vendor labels: carried along where a record holds them, no property is stated.
- The remap cache in front of a replay: a hit sends the file an earlier replay wrote; only the misses are modelled as replays.
- How a capture group is classified (level, vendor, dominant protocol): a function parameter.
- The weights of random choices: any outcome may come up.
- Parsing a dotted OID string and formatting addresses: the model starts from arcs and values.
- Devices.Fabricate: requires a core profile only where the source panics without one, with profiles to choose from, the target unmet and a zone with room (over a run: `Runs.ProfileReady`); which zone and profile a draw selects is not stated.
- Ledger.ZoneAdded: one zone prefix from 8 to 30 for the whole ledger, the range the configuration accepts.
- ArpGraph.ArpEdges: the order of the zones' text is a rank passed in; comparing the strings themselves is not modelled.
- ArpGate.GateLedger: assumes that the synthetic station addresses of the ledger's zones hash to MACs distinct from each other and from the assets', and that no asset MAC is locally administered; both rest on hash and OUI quality.
- Engine.ReplayIntoZones: a ledger without devices may leave hosts unmapped; plan-equals-wire is then claimed only when none of them sits at a new address, and `Stray.StrayHostEscapes` shows it can fail otherwise.
- Runs.RedTick: fabrication does not consult the total asset cap, as in the source, so the cap is claimed only for sealed ledgers.
- Reconcile.PlaceGroups: groups with the same network address come in any order, as the source's unstable sort allows.
- Placement.PlaceInZone: does not avoid the gateway or the station slot, as in the source.
- Cache.RemapCache.Miss: one directory, one budget and a fixed listing order; nothing else writes there, and the true size stays below 2^64.
- Threat.ThreatEngine.RunEvents: the ledger record is taken to survive a restart.
- Dnp3.WalkMapsFrames: the CRC is any function of the octets; its polynomial comes from an external crate.
- Snmp.EncodeOid: an addition of the first two arcs past 64 bits is taken to wrap, as an optimized build does.
- TcpSession.ConnectionDelivers: messages that fit one IPv4 packet and two distinct endpoints.
