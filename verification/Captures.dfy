/** A captured packet list whose frames are edited in place, and the passes that run over it. */
module Captures {
  import opened Wire
  import opened HostMap

  ghost function FramesOf(packets: seq<array<byte>>): (r: seq<seq<byte>>)
    reads packets
    ensures |r| == |packets| && forall i :: 0 <= i < |packets| ==> r[i] == packets[i][..]
  {
    seq(|packets|, i requires 0 <= i < |packets| reads packets => packets[i][..])
  }

  ghost predicate Distinct(packets: seq<array<byte>>) {
    forall i, j :: 0 <= i < j < |packets| ==> packets[i] != packets[j]
  }

  /** The frames a filter keeps, in order. */
  function Retained(frames: seq<seq<byte>>, keep: seq<byte> -> bool): seq<seq<byte>> {
    if frames == [] then []
    else Retained(frames[..|frames| - 1], keep) +
         if keep(frames[|frames| - 1]) then [frames[|frames| - 1]] else []
  }

  lemma {:induction false} RetainedMember(frames: seq<seq<byte>>, keep: seq<byte> -> bool, f: seq<byte>)
    ensures f in Retained(frames, keep) <==> f in frames && keep(f)
  {
    if frames != [] {
      RetainedMember(frames[..|frames| - 1], keep, f);
      assert f in frames <==> f in frames[..|frames| - 1] || f == frames[|frames| - 1];
    }
  }

  function AllRewritten(frames: seq<seq<byte>>, m: map<u32, u32>, mac: u32 -> Mac, remapMac: bool): seq<seq<byte>> {
    seq(|frames|, i requires 0 <= i < |frames| => Rewritten(frames[i], m, mac, remapMac))
  }

  /** What leaves the remap: every frame rewritten, then both fail-closed filters. */
  function Survivors(frames: seq<seq<byte>>, m: map<u32, u32>, mac: u32 -> Mac, remapMac: bool): seq<seq<byte>> {
    Retained(Retained(AllRewritten(frames, m, mac, remapMac), b => Coherent(b, m.Values)), b => !Leaks(b, m.Keys))
  }

  lemma SurvivorsMember(frames: seq<seq<byte>>, m: map<u32, u32>, mac: u32 -> Mac, remapMac: bool, f: seq<byte>)
    ensures f in Survivors(frames, m, mac, remapMac) <==>
              f in AllRewritten(frames, m, mac, remapMac) && Coherent(f, m.Values) && !Leaks(f, m.Keys)
  {
    var all := AllRewritten(frames, m, mac, remapMac);
    RetainedMember(Retained(all, b => Coherent(b, m.Values)), b => !Leaks(b, m.Keys), f);
    RetainedMember(all, b => Coherent(b, m.Values), f);
  }

  /**
   Fail closed, and no more than that: a rewritten frame leaves if and only if its source is a new
   address, its destination is one or is no host, its packet is whole, and no four of its bytes in a row
   spell an original address.
   */
  lemma SurvivorsExactly(frames: seq<seq<byte>>, m: map<u32, u32>, mac: u32 -> Mac, remapMac: bool, i: nat)
    requires i < |frames|
    ensures var f := Rewritten(frames[i], m, mac, remapMac);
            f in Survivors(frames, m, mac, remapMac) <==>
              && Endpoints(f).Some? && WholePacket(f)
              && (var (src, dst) := Endpoints(f).value;
                  && IsRemappable(src) && (exists h :: h in m && m[h] == src)
                  && (IsRemappable(dst) ==> exists h :: h in m && m[h] == dst))
              && forall k :: 0 <= k <= |f| - 4 ==> Be32(f, k) !in m
  {
    hide Rewritten, Coherent, Endpoints, WholePacket, IsRemappable, Survivors;
    var f := Rewritten(frames[i], m, mac, remapMac);
    SurvivorsMember(frames, m, mac, remapMac, f);
    CoherentMeans(f, m.Values);
    assert AllRewritten(frames, m, mac, remapMac)[i] == f;
  }

  class Capture {
    var packets: seq<array<byte>>

    constructor (packets: seq<array<byte>>)
      ensures this.packets == packets
    {
      this.packets := packets;
    }

    method ApplyHostMap(m: map<u32, u32>, mac: u32 -> Mac, remapMac: bool)
      requires Distinct(packets)
      modifies packets
      ensures FramesOf(packets) == AllRewritten(old(FramesOf(packets)), m, mac, remapMac)
    {
      hide Rewritten;
      for i := 0 to |packets|
        invariant forall j :: 0 <= j < i ==> packets[j][..] == Rewritten(old(packets[j][..]), m, mac, remapMac)
        invariant forall j :: i <= j < |packets| ==> packets[j][..] == old(packets[j][..])
      {
        RewriteFrame(packets[i], m, mac, remapMac);
      }
    }

    method Retain(keep: seq<byte> -> bool) returns (dropped: nat)
      requires Distinct(packets)
      modifies this
      ensures Distinct(packets) && forall p :: p in packets ==> p in old(packets)
      ensures FramesOf(packets) == Retained(old(FramesOf(packets)), keep)
      ensures dropped == old(|packets|) - |packets|
    {
      var kept: seq<array<byte>> := [];
      for i := 0 to |packets|
        invariant packets == old(packets)
        invariant |kept| <= i && Distinct(kept) && forall p :: p in kept ==> p in packets[..i]
        invariant FramesOf(kept) == Retained(FramesOf(packets)[..i], keep)
      {
        assert FramesOf(packets)[..i + 1][..i] == FramesOf(packets)[..i];
        if keep(packets[i][..]) {
          assert packets[i] !in packets[..i];
          assert forall p :: p in packets[..i] ==> p in packets[..i + 1];
          assert packets[i] == packets[..i + 1][i];
          assert FramesOf(kept + [packets[i]]) == FramesOf(kept) + [packets[i][..]];
          kept := kept + [packets[i]];
        }
      }
      assert FramesOf(packets)[..|packets|] == FramesOf(packets);
      dropped := |packets| - |kept|;
      packets := kept;
    }

    /** Rewrite, then drop what is not provably plan and what still spells an original address. */
    method RemapThrough(m: map<u32, u32>, mac: u32 -> Mac, remapMac: bool)
      requires Distinct(packets)
      modifies this, packets
      ensures Distinct(packets) && forall p :: p in packets ==> p in old(packets)
      ensures FramesOf(packets) == Survivors(old(FramesOf(packets)), m, mac, remapMac)
    {
      ApplyHostMap(m, mac, remapMac);
      var incoherent := Retain(b => Coherent(b, m.Values));
      if m.Keys != {} {
        var leaking := Retain(b => !Leaks(b, m.Keys));
      } else {
        KeepAll(FramesOf(packets), m.Keys);
      }
    }
  }

  /** Reads a capture file: every frame into a buffer of its own. */
  method Load(frames: seq<seq<byte>>) returns (cap: Capture)
    ensures fresh(cap) && fresh(cap.packets) && Distinct(cap.packets)
    ensures FramesOf(cap.packets) == frames
  {
    var packets: seq<array<byte>> := [];
    for i := 0 to |frames|
      invariant |packets| == i && fresh(packets) && Distinct(packets)
      invariant forall j :: 0 <= j < i ==> packets[j][..] == frames[j]
    {
      var f := frames[i];
      var packet := new byte[|f|](k requires 0 <= k < |f| => f[k]);
      assert packet[..] == f;
      packets := packets + [packet];
    }
    cap := new Capture(packets);
  }

  lemma {:induction false} KeepAll(frames: seq<seq<byte>>, none: set<u32>)
    requires none == {}
    ensures Retained(frames, b => !Leaks(b, none)) == frames
  {
    if frames != [] {
      KeepAll(frames[..|frames| - 1], none);
    }
  }
}
