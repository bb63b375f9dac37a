/**
 The scenario timeline: events of a phase render to frames, sliced across capped bursts by a cursor,
 an offset and a pinned nonce; phases advance once drained and dwelt.
 */
module Scenario {
  import opened Wire
  import opened Arith

  type Frame = seq<byte>

  /** Rendering is a function of (phase, event, nonce) over a sealed ledger. */
  type Renderer = (nat, nat, u64) -> seq<Frame>

  datatype Campaign = Oneshot | Loop

  datatype Phase = Phase(dwellRuns: nat, events: nat)

  /** The spill state: where in the phase the next burst resumes, and the nonce it is pinned to. */
  datatype Spill = Spill(cursor: nat, offset: nat, nonce: Option<u64>)

  const START := Spill(0, 0, None)

  function WrappingAdd(a: u64, b: nat): u64 {
    (a + b) % 0x1_0000_0000_0000_0000
  }

  /** Addition in 64 bits: no event of a phase shares its nonce with another one of the same burst. */
  lemma NoncesDiffer(n: u64, i: nat, j: nat)
    requires i < j < 0x1_0000_0000_0000_0000
    ensures WrappingAdd(n, i) != WrappingAdd(n, j)
    ensures WrappingAdd(n, i) == if n + i <= 0xffff_ffff_ffff_ffff then n + i else n + i - 0x1_0000_0000_0000_0000
    ensures WrappingAdd(n, 0) == n
  {
  }

  // ----- One burst as a function --------------------------------------------------------------

  /** The nonce the event at the cursor renders with in a burst of nonce `n`. */
  function EventNonce(s: Spill, n: u64): u64 {
    match s.nonce case Some(v) => v case None => WrappingAdd(n, s.cursor)
  }

  /** Frames of one burst with `room` left, the spill state after it, and the nonces of drained events. */
  function Burst(r: Renderer, phase: nat, events: nat, s: Spill, room: nat, n: u64): (Spill, seq<Frame>, seq<u64>)
    decreases if s.cursor < events then events - s.cursor else 0
  {
    if s.cursor >= events || room == 0 then (s, [], []) else
    var v := EventNonce(s, n);
    var remaining := Remaining(r, phase, s, v);
    if |remaining| <= room then
      var (t, frames, nonces) := Burst(r, phase, events, Spill(s.cursor + 1, 0, None), room - |remaining|, n);
      (t, remaining + frames, [v] + nonces)
    else
      (Spill(s.cursor, s.offset + room, Some(v)), remaining[..room], [])
  }

  /** A mid-event state is a real slice position, pinned to the nonce it was first rendered with. */
  ghost predicate SpillOk(r: Renderer, phase: nat, events: nat, s: Spill) {
    && s.cursor <= events
    && (s.nonce == None ==> s.offset == 0)
    && (s.nonce.Some? ==> s.cursor < events && 0 < s.offset < |r(phase, s.cursor, s.nonce.value)|)
  }

  /** The events before the cursor, each in full with its own nonce, then the part already sent. */
  ghost function Stream(r: Renderer, phase: nat, nonces: seq<u64>): seq<Frame> {
    if nonces == [] then [] else Stream(r, phase, nonces[..|nonces| - 1]) + r(phase, |nonces| - 1, nonces[|nonces| - 1])
  }

  /** The part of the event at the cursor that earlier bursts already sent. */
  ghost function Begun(r: Renderer, phase: nat, s: Spill): seq<Frame> {
    if s.nonce.Some? && s.offset <= |r(phase, s.cursor, s.nonce.value)|
    then r(phase, s.cursor, s.nonce.value)[..s.offset] else []
  }

  ghost function Sent(r: Renderer, phase: nat, nonces: seq<u64>, s: Spill): seq<Frame> {
    Stream(r, phase, nonces) + Begun(r, phase, s)
  }

  /** `nonces` names the nonce each of the first `s.cursor` events was drained with. */
  ghost predicate History(r: Renderer, phase: nat, events: nat, nonces: seq<u64>, s: Spill) {
    SpillOk(r, phase, events, s) && |nonces| == s.cursor
  }

  /** What is left of the event at the cursor. */
  function Remaining(r: Renderer, phase: nat, s: Spill, v: u64): seq<Frame> {
    if s.offset <= |r(phase, s.cursor, v)| then r(phase, s.cursor, v)[s.offset..] else []
  }

  lemma DrainStep(r: Renderer, phase: nat, events: nat, nonces: seq<u64>, s: Spill, n: u64)
    requires History(r, phase, events, nonces, s) && s.cursor < events
    ensures var v, next := EventNonce(s, n), Spill(s.cursor + 1, 0, None);
            && History(r, phase, events, nonces + [v], next)
            && Sent(r, phase, nonces + [v], next) == Sent(r, phase, nonces, s) + Remaining(r, phase, s, v)
  {
    var v := EventNonce(s, n);
    var all := r(phase, s.cursor, v);
    assert (nonces + [v])[..|nonces|] == nonces;
    assert Begun(r, phase, s) == all[..s.offset];
    assert all[..s.offset] + all[s.offset..] == all;
  }

  lemma SliceStep(r: Renderer, phase: nat, events: nat, nonces: seq<u64>, s: Spill, room: nat, n: u64)
    requires History(r, phase, events, nonces, s) && s.cursor < events
    requires var left := Remaining(r, phase, s, EventNonce(s, n)); 0 < room < |left|
    ensures var v := EventNonce(s, n);
            var t := Spill(s.cursor, s.offset + room, Some(v));
            && History(r, phase, events, nonces, t)
            && Sent(r, phase, nonces, t) == Sent(r, phase, nonces, s) + Remaining(r, phase, s, v)[..room]
  {
    var all := r(phase, s.cursor, EventNonce(s, n));
    assert Begun(r, phase, s) == all[..s.offset];
    assert all[..s.offset] + all[s.offset..][..room] == all[..s.offset + room];
  }

  /**
   Spill exactness for one burst: it sends at most `room` frames, and what has been sent in total
   grows by exactly those frames, staying a prefix of the full renders in order, each event under the
   nonce it was first rendered with.
   */
  lemma {:induction false} BurstExact(r: Renderer, phase: nat, events: nat, nonces: seq<u64>, s: Spill, room: nat,
                                      n: u64)
    requires History(r, phase, events, nonces, s)
    ensures var (t, frames, more) := Burst(r, phase, events, s, room, n);
            && |frames| <= room
            && History(r, phase, events, nonces + more, t)
            && Sent(r, phase, nonces + more, t) == Sent(r, phase, nonces, s) + frames
            && (forall i :: 0 <= i < |more| ==>
                  more[i] == if i == 0 then EventNonce(s, n) else WrappingAdd(n, s.cursor + i))
            && (t.nonce.Some? ==> t.nonce.value == if more == [] then EventNonce(s, n) else WrappingAdd(n, t.cursor))
    decreases if s.cursor < events then events - s.cursor else 0
  {
    hide History, Sent;
    assert nonces + [] == nonces;
    if s.cursor < events && room > 0 {
      var v := EventNonce(s, n);
      var left := Remaining(r, phase, s, v);
      if |left| <= room {
        DrainStep(r, phase, events, nonces, s, n);
        var next := Spill(s.cursor + 1, 0, None);
        BurstExact(r, phase, events, nonces + [v], next, room - |left|, n);
        var (t, frames, more) := Burst(r, phase, events, next, room - |left|, n);
        assert nonces + [v] + more == nonces + ([v] + more);
      } else {
        SliceStep(r, phase, events, nonces, s, room, n);
      }
    }
  }

  /** A burst in progress: `frames` are out, and the rest of the burst ends at `t` with `out` in all. */
  ghost predicate Continues(r: Renderer, phase: nat, events: nat, s: Spill, room: int, n: u64, frames: seq<Frame>,
                            t: Spill, out: seq<Frame>) {
    room >= 0 && var b := Burst(r, phase, events, s, room, n); b.0 == t && frames + b.1 == out
  }

  lemma ContinueStart(r: Renderer, phase: nat, events: nat, s: Spill, room: nat, n: u64)
    ensures var b := Burst(r, phase, events, s, room, n); Continues(r, phase, events, s, room, n, [], b.0, b.1)
  {
    var b := Burst(r, phase, events, s, room, n);
    assert [] + b.1 == b.1;
  }

  lemma ContinueEnd(r: Renderer, phase: nat, events: nat, s: Spill, room: int, n: u64, frames: seq<Frame>, t: Spill,
                    out: seq<Frame>)
    requires Continues(r, phase, events, s, room, n, frames, t, out)
    requires s.cursor >= events || room == 0
    ensures s == t && frames == out
  {
    assert frames + [] == frames;
  }

  lemma ContinueStep(r: Renderer, phase: nat, events: nat, s: Spill, room: nat, n: u64, frames: seq<Frame>, t: Spill,
                     out: seq<Frame>)
    requires Continues(r, phase, events, s, room, n, frames, t, out) && SpillOk(r, phase, events, s)
    requires s.cursor < events && room > 0
    ensures var v := EventNonce(s, n);
            var all := r(phase, s.cursor, v);
            && s.offset <= |all|
            && (|all| - s.offset <= room ==>
                  var next := Spill(s.cursor + 1, 0, None);
                  && SpillOk(r, phase, events, next)
                  && Continues(r, phase, events, next, room - (|all| - s.offset), n, frames + all[s.offset..], t, out))
            && (|all| - s.offset > room ==>
                  && t == Spill(s.cursor, s.offset + room, Some(v))
                  && SpillOk(r, phase, events, t)
                  && frames + all[s.offset..s.offset + room] == out)
  {
    var v := EventNonce(s, n);
    var all := r(phase, s.cursor, v);
    if |all| - s.offset <= room {
      var b := Burst(r, phase, events, Spill(s.cursor + 1, 0, None), room - (|all| - s.offset), n);
      assert frames + (all[s.offset..] + b.1) == frames + all[s.offset..] + b.1;
    } else {
      assert all[s.offset..][..room] == all[s.offset..s.offset + room];
    }
  }

  lemma StartOk(r: Renderer, phase: nat, events: nat)
    ensures SpillOk(r, phase, events, START)
  {
  }

  // ----- The engine ---------------------------------------------------------------------------

  class ScenarioEngine {
    const phases: seq<Phase>
    const campaign: Campaign
    const maxFramesPerBurst: nat
    const render: Renderer
    var phaseIdx: nat
    var eventCursor: nat
    var burstsInPhase: nat
    var eventFrameOffset: nat
    var spillNonce: Option<u64>

    ghost predicate Valid()
      reads this
    {
      && phaseIdx < |phases| && 1 <= maxFramesPerBurst
      && SpillOk(render, phaseIdx, phases[phaseIdx].events, SpillState())
    }

    function SpillState(): Spill
      reads this
    {
      Spill(eventCursor, eventFrameOffset, spillNonce)
    }

    constructor (phases: seq<Phase>, campaign: Campaign, maxFramesPerBurst: nat, render: Renderer)
      requires phases != []
      ensures Valid() && phaseIdx == 0 && SpillState() == START && burstsInPhase == 0
      ensures this.phases == phases && this.campaign == campaign && this.render == render
      ensures this.maxFramesPerBurst == if maxFramesPerBurst < 1 then 1 else maxFramesPerBurst
    {
      this.phases, this.campaign, this.render := phases, campaign, render;
      this.maxFramesPerBurst := if maxFramesPerBurst < 1 then 1 else maxFramesPerBurst;
      phaseIdx, eventCursor, burstsInPhase, eventFrameOffset, spillNonce := 0, 0, 0, 0, None;
    }

    /** Emits from the cursor, bounded by the per-burst frame cap, and leaves the spill state behind. */
    method EmitBurst(nonce: u64) returns (frames: seq<Frame>)
      requires Valid()
      modifies this`eventCursor, this`eventFrameOffset, this`spillNonce
      ensures Valid()
      ensures var b := Burst(render, phaseIdx, phases[phaseIdx].events, old(SpillState()), maxFramesPerBurst, nonce);
              SpillState() == b.0 && frames == b.1
    {
      hide Burst, SpillOk, Continues;
      var eventsLen := phases[phaseIdx].events;
      var cap := maxFramesPerBurst;
      frames := [];
      ghost var b := Burst(render, phaseIdx, eventsLen, SpillState(), cap, nonce);
      ContinueStart(render, phaseIdx, eventsLen, SpillState(), cap, nonce);
      while eventCursor < eventsLen
        invariant SpillOk(render, phaseIdx, eventsLen, SpillState())
        invariant |frames| <= cap
        invariant Continues(render, phaseIdx, eventsLen, SpillState(), cap - |frames|, nonce, frames, b.0, b.1)
        decreases eventsLen - eventCursor
      {
        var room := cap - |frames|;
        if room == 0 {
          break;
        }
        ContinueStep(render, phaseIdx, eventsLen, SpillState(), room, nonce, frames, b.0, b.1);
        var evNonce := match spillNonce case Some(v) => v case None => WrappingAdd(nonce, eventCursor);
        var evFrames := render(phaseIdx, eventCursor, evNonce);
        var remaining := |evFrames| - eventFrameOffset;
        var take := if remaining <= room then remaining else room;
        frames := frames + evFrames[eventFrameOffset..eventFrameOffset + take];
        if take == remaining {
          assert evFrames[eventFrameOffset..eventFrameOffset + take] == evFrames[eventFrameOffset..];
          eventFrameOffset := 0;
          spillNonce := None;
          eventCursor := eventCursor + 1;
        } else {
          eventFrameOffset := eventFrameOffset + take;
          spillNonce := Some(evNonce);
          return;
        }
      }
      ContinueEnd(render, phaseIdx, eventsLen, SpillState(), cap - |frames|, nonce, frames, b.0, b.1);
    }

    /** Renders one burst's frames and advances the timeline once the phase is drained and dwelt. */
    method PhaseFrames(nonce: u64) returns (frames: seq<Frame>)
      requires Valid()
      modifies this
      ensures Valid()
      ensures var p := old(phaseIdx);
              var b := Burst(render, p, phases[p].events, old(SpillState()), maxFramesPerBurst, nonce);
              && frames == b.1
              && State() ==
                 if b.0.cursor >= phases[p].events && b.0.offset == 0 && old(burstsInPhase) + 1 >= phases[p].dwellRuns
                 then Timeline(NextPhase(|phases|, campaign, p), START, 0)
                 else Timeline(p, b.0, old(burstsInPhase) + 1)
    {
      hide Burst, SpillOk;
      frames := EmitBurst(nonce);
      burstsInPhase := burstsInPhase + 1;
      var dwell := if phases[phaseIdx].dwellRuns < 1 then 1 else phases[phaseIdx].dwellRuns;
      if eventCursor >= phases[phaseIdx].events && eventFrameOffset == 0 && burstsInPhase >= dwell {
        Advance();
        StartOk(render, phaseIdx, phases[phaseIdx].events);
      }
    }

    function State(): Timeline
      reads this
    {
      Timeline(phaseIdx, SpillState(), burstsInPhase)
    }

    /** To the next phase; from the last one back to the first, or holding it. */
    method Advance()
      requires phaseIdx < |phases|
      modifies this
      ensures State() == Timeline(NextPhase(|phases|, campaign, old(phaseIdx)), START, 0)
    {
      eventCursor := 0;
      burstsInPhase := 0;
      eventFrameOffset := 0;
      spillNonce := None;
      var last := |phases| - 1;
      if phaseIdx < last {
        phaseIdx := phaseIdx + 1;
      } else if campaign == Loop {
        phaseIdx := 0;
      }
    }
  }

  datatype Timeline = Timeline(phase: nat, spill: Spill, bursts: nat)

  function NextPhase(count: nat, campaign: Campaign, phase: nat): nat {
    if phase + 1 < count then phase + 1 else if campaign == Loop then 0 else phase
  }

  function Dwell(p: Phase): nat {
    if p.dwellRuns < 1 then 1 else p.dwellRuns
  }

  /** The timeline after a burst that left the phase's events at `t`. */
  function NextState(phases: seq<Phase>, campaign: Campaign, s: Timeline, t: Spill): Timeline
    requires s.phase < |phases|
  {
    if t.cursor >= phases[s.phase].events && t.offset == 0 && s.bursts + 1 >= Dwell(phases[s.phase])
    then Timeline(NextPhase(|phases|, campaign, s.phase), START, 0)
    else Timeline(s.phase, t, s.bursts + 1)
  }

  // ----- A whole pass over a phase ------------------------------------------------------------

  ghost function Concat(bursts: seq<seq<Frame>>): seq<Frame> {
    if bursts == [] then [] else Concat(bursts[..|bursts| - 1]) + bursts[|bursts| - 1]
  }

  /** The bursts of a phase from its start, under any nonces: the state, what each sent, nonces drained. */
  function Pass(r: Renderer, phase: nat, events: nat, cap: nat, ns: seq<u64>): (Spill, seq<seq<Frame>>, seq<u64>) {
    if ns == [] then (START, [], [])
    else
      var (s, outs, nonces) := Pass(r, phase, events, cap, ns[..|ns| - 1]);
      var (t, frames, more) := Burst(r, phase, events, s, cap, ns[|ns| - 1]);
      (t, outs + [frames], nonces + more)
  }

  /** No burst so far has rendered the event. */
  predicate Untouched(s: Spill, event: nat) {
    s.cursor < event || (s.cursor == event && s.nonce == None)
  }

  /** `v` is what the one burst that first renders the event, the `k`th, gives it: its nonce plus the event index. */
  ghost predicate FirstIn(r: Renderer, phase: nat, events: nat, cap: nat, ns: seq<u64>, k: nat, event: nat, v: u64)
    requires k < |ns|
  {
    && v == WrappingAdd(ns[k], event)
    && Untouched(Pass(r, phase, events, cap, ns[..k]).0, event)
    && !Untouched(Pass(r, phase, events, cap, ns[..k + 1]).0, event)
  }

  ghost predicate FirstRendered(r: Renderer, phase: nat, events: nat, cap: nat, ns: seq<u64>, event: nat, v: u64) {
    exists k :: 0 <= k < |ns| && FirstIn(r, phase, events, cap, ns, k, event, v)
  }

  ghost predicate AllFirstRendered(r: Renderer, phase: nat, events: nat, cap: nat, ns: seq<u64>, nonces: seq<u64>,
                                   s: Spill) {
    && (forall e :: 0 <= e < |nonces| ==> FirstRendered(r, phase, events, cap, ns, e, nonces[e]))
    && (s.nonce.Some? ==> FirstRendered(r, phase, events, cap, ns, s.cursor, s.nonce.value))
  }

  /**
   Over any number of bursts under any nonces, no frame is lost, repeated or reordered: the bursts
   concatenate to every drained event's full render in order, then the part of the event in progress.
   */
  lemma {:induction false} PassExact(r: Renderer, phase: nat, events: nat, cap: nat, ns: seq<u64>)
    ensures var (s, outs, nonces) := Pass(r, phase, events, cap, ns);
            && History(r, phase, events, nonces, s)
            && Concat(outs) == Sent(r, phase, nonces, s)
            && |outs| == |ns| && (forall i :: 0 <= i < |outs| ==> |outs[i]| <= cap)
            && AllFirstRendered(r, phase, events, cap, ns, nonces, s)
  {
    hide Sent, Burst, FirstRendered;
    if ns == [] {
      StartSent(r, phase, events);
      return;
    }
    var k := |ns| - 1;
    PassExact(r, phase, events, cap, ns[..k]);
    var (s, outs, nonces) := Pass(r, phase, events, cap, ns[..k]);
    BurstExact(r, phase, events, nonces, s, cap, ns[k]);
    var (t, frames, more) := Burst(r, phase, events, s, cap, ns[k]);
    assert (outs + [frames])[..k] == outs;
    NamesExtend(r, phase, events, cap, ns, nonces, s, t, more);
  }

  lemma StartSent(r: Renderer, phase: nat, events: nat)
    ensures History(r, phase, events, [], START) && Sent(r, phase, [], START) == []
  {
  }

  lemma NamesExtend(r: Renderer, phase: nat, events: nat, cap: nat, ns: seq<u64>, nonces: seq<u64>, s: Spill, t: Spill,
                    more: seq<u64>)
    requires ns != [] && |nonces| == s.cursor && t.cursor == |nonces + more|
    requires s == Pass(r, phase, events, cap, ns[..|ns| - 1]).0 && t == Pass(r, phase, events, cap, ns).0
    requires AllFirstRendered(r, phase, events, cap, ns[..|ns| - 1], nonces, s)
    requires forall i :: 0 <= i < |more| ==>
      more[i] == if i == 0 then EventNonce(s, ns[|ns| - 1]) else WrappingAdd(ns[|ns| - 1], s.cursor + i)
    requires t.nonce.Some? ==>
      t.nonce.value == if more == [] then EventNonce(s, ns[|ns| - 1]) else WrappingAdd(ns[|ns| - 1], t.cursor)
    ensures AllFirstRendered(r, phase, events, cap, ns, nonces + more, t)
  {
    var k := |ns| - 1;
    hide WrappingAdd, FirstRendered, Pass;
    forall e: nat, v: u64 | FirstRendered(r, phase, events, cap, ns[..k], e, v)
      ensures FirstRendered(r, phase, events, cap, ns, e, v)
    {
      Longer(r, phase, events, cap, ns, e, v);
    }
    forall e: nat | Untouched(s, e) && !Untouched(t, e)
      ensures FirstRendered(r, phase, events, cap, ns, e, WrappingAdd(ns[k], e))
    {
      ByLast(r, phase, events, cap, ns, e);
    }
  }

  lemma Longer(r: Renderer, phase: nat, events: nat, cap: nat, ns: seq<u64>, event: nat, v: u64)
    requires ns != [] && FirstRendered(r, phase, events, cap, ns[..|ns| - 1], event, v)
    ensures FirstRendered(r, phase, events, cap, ns, event, v)
  {
    hide Pass;
    var front := ns[..|ns| - 1];
    var k :| 0 <= k < |front| && FirstIn(r, phase, events, cap, front, k, event, v);
    assert front[..k] == ns[..k] && front[..k + 1] == ns[..k + 1];
    assert FirstIn(r, phase, events, cap, ns, k, event, v);
  }

  lemma ByLast(r: Renderer, phase: nat, events: nat, cap: nat, ns: seq<u64>, event: nat)
    requires ns != []
    requires Untouched(Pass(r, phase, events, cap, ns[..|ns| - 1]).0, event)
    requires !Untouched(Pass(r, phase, events, cap, ns).0, event)
    ensures FirstRendered(r, phase, events, cap, ns, event, WrappingAdd(ns[|ns| - 1], event))
  {
    hide Pass;
    assert ns[..|ns| - 1 + 1] == ns;
    assert FirstIn(r, phase, events, cap, ns, |ns| - 1, event, WrappingAdd(ns[|ns| - 1], event));
  }

  /** A drained phase has sent exactly the full render of every event, each once, in order. */
  lemma DrainedPass(r: Renderer, phase: nat, events: nat, cap: nat, ns: seq<u64>)
    ensures var (s, outs, nonces) := Pass(r, phase, events, cap, ns);
            s.cursor >= events ==> |nonces| == events && Concat(outs) == Stream(r, phase, nonces)
  {
    hide Stream;
    PassExact(r, phase, events, cap, ns);
    var (s, outs, nonces) := Pass(r, phase, events, cap, ns);
    if s.cursor >= events {
      assert Stream(r, phase, nonces) + [] == Stream(r, phase, nonces);
    }
  }

  // ----- How long a phase is held -------------------------------------------------------------

  /** Frame counts that do not depend on the nonce. */
  ghost predicate Counts(r: Renderer, phase: nat, events: nat, count: nat -> nat) {
    forall e: nat, v: u64 :: e < events ==> |r(phase, e, v)| == count(e)
  }

  /** Frames of the first `e` events. */
  ghost function Before(count: nat -> nat, e: nat): nat {
    if e == 0 then 0 else Before(count, e - 1) + count(e - 1)
  }

  lemma {:induction false} BeforeMonotone(count: nat -> nat, d: nat, e: nat)
    requires d <= e
    ensures Before(count, d) <= Before(count, e)
  {
    if d < e {
      BeforeMonotone(count, d, e - 1);
    }
  }

  /** A burst moves the position by its room, and drains the phase exactly when the frames run out. */
  lemma {:induction false} BurstPosition(r: Renderer, phase: nat, events: nat, count: nat -> nat, s: Spill, room: nat,
                                         n: u64)
    requires Counts(r, phase, events, count) && SpillOk(r, phase, events, s) && s.cursor < events && room > 0
    ensures var t := Burst(r, phase, events, s, room, n).0;
            var at, total := Before(count, s.cursor) + s.offset, Before(count, events);
            && SpillOk(r, phase, events, t)
            && (t.cursor == events <==> at + room > total || (at + room == total && count(events - 1) > 0))
            && (t.cursor < events ==> Before(count, t.cursor) + t.offset == at + room)
    decreases events - s.cursor
  {
    hide SpillOk, Counts, Before;
    var at := Before(count, s.cursor) + s.offset;
    var left := OneEvent(r, phase, events, count, s, n);
    BeforeMonotone(count, s.cursor + 1, events);
    if left <= room {
      var next := Spill(s.cursor + 1, 0, None);
      if next.cursor < events && left < room {
        BurstPosition(r, phase, events, count, next, room - left, n);
      } else if next.cursor < events {
        TailEmpty(count, next.cursor, events);
      }
    } else {
      SlicedOk(r, phase, events, s, room, n);
    }
  }

  lemma SlicedOk(r: Renderer, phase: nat, events: nat, s: Spill, room: nat, n: u64)
    requires SpillOk(r, phase, events, s) && s.cursor < events && 0 < room < |Remaining(r, phase, s, EventNonce(s, n))|
    ensures SpillOk(r, phase, events, Spill(s.cursor, s.offset + room, Some(EventNonce(s, n))))
  {
  }

  lemma OneEvent(r: Renderer, phase: nat, events: nat, count: nat -> nat, s: Spill, n: u64) returns (left: nat)
    requires Counts(r, phase, events, count) && SpillOk(r, phase, events, s) && s.cursor < events
    ensures left == |Remaining(r, phase, s, EventNonce(s, n))|
    ensures Before(count, s.cursor) + s.offset + left == Before(count, s.cursor + 1)
    ensures s.cursor + 1 == events ==> s.offset <= count(events - 1)
    ensures s.nonce.Some? ==> left > 0
    ensures s.offset > 0 ==> s.nonce.Some?
    ensures left == count(s.cursor) - s.offset
    ensures SpillOk(r, phase, events, Spill(s.cursor + 1, 0, None))
  {
    var v := EventNonce(s, n);
    assert |r(phase, s.cursor, v)| == count(s.cursor);
    left := count(s.cursor) - s.offset;
  }

  /** With a position on the total and events still waiting, the last event renders nothing. */
  lemma {:induction false} TailEmpty(count: nat -> nat, e: nat, events: nat)
    requires e < events
    ensures Before(count, e) == Before(count, events) ==> count(events - 1) == 0
    ensures Before(count, e) <= Before(count, events)
  {
    BeforeMonotone(count, e, events - 1);
    BeforeMonotone(count, e, events);
  }

  /** Bursts it takes to drain a phase: one extra when the frames fill bursts exactly and the last event is silent. */
  function DrainBursts(total: nat, cap: nat, lastSilent: bool): (r: nat)
    requires cap > 0
    ensures r >= 1 || total > 0
  {
    if total > 0 && total % cap == 0 && !lastSilent then total / cap else total / cap + 1
  }

  ghost function PhaseDrain(count: nat -> nat, events: nat, cap: nat): nat
    requires cap > 0
  {
    DrainBursts(Before(count, events), cap, events == 0 || count(events - 1) == 0)
  }

  /** Where a pass stands after `k` bursts: at `k` full bursts of frames until the phase drains. */
  lemma {:induction false} PassPosition(r: Renderer, phase: nat, events: nat, cap: nat, ns: seq<u64>, count: nat -> nat)
    requires Counts(r, phase, events, count) && cap > 0
    ensures var s := Pass(r, phase, events, cap, ns).0;
            && SpillOk(r, phase, events, s)
            && (ns != [] ==> (s.cursor == events <==> |ns| >= PhaseDrain(count, events, cap)))
            && (s.cursor < events ==> Before(count, s.cursor) + s.offset == |ns| * cap)
            && (s.cursor == events ==> s == Spill(events, 0, None))
  {
    hide SpillOk, Counts, Burst, Before;
    if ns == [] {
      StartOk(r, phase, events);
      BeforeStart(count);
      return;
    }
    PassPosition(r, phase, events, cap, ns[..|ns| - 1], count);
    PositionStep(r, phase, events, cap, Pass(r, phase, events, cap, ns[..|ns| - 1]).0, |ns| - 1, ns[|ns| - 1], count);
  }

  lemma PositionStep(r: Renderer, phase: nat, events: nat, cap: nat, s: Spill, k: nat, n: u64, count: nat -> nat)
    requires Counts(r, phase, events, count) && cap > 0 && SpillOk(r, phase, events, s)
    requires k > 0 ==> (s.cursor == events <==> k >= PhaseDrain(count, events, cap))
    requires k == 0 ==> s == START
    requires s.cursor < events ==> Before(count, s.cursor) + s.offset == k * cap
    requires s.cursor == events ==> s == Spill(events, 0, None)
    ensures var t := Burst(r, phase, events, s, cap, n).0;
            && SpillOk(r, phase, events, t)
            && (t.cursor == events <==> k + 1 >= PhaseDrain(count, events, cap))
            && (t.cursor < events ==> Before(count, t.cursor) + t.offset == (k + 1) * cap)
            && (t.cursor == events ==> t == Spill(events, 0, None))
  {
    hide SpillOk, Counts, Burst, Before, DrainBursts;
    CursorBound(r, phase, events, s);
    if s.cursor < events {
      BurstPosition(r, phase, events, count, s, cap, n);
      DrainTest(Before(count, events), cap, count(events - 1) == 0, k + 1);
      assert (k + 1) * cap == k * cap + cap;
      DrainedState(r, phase, events, Burst(r, phase, events, s, cap, n).0);
    } else {
      NoMoreEvents(r, phase, events, s, cap, n);
      EmptyPhase(count, events, cap, k);
    }
  }

  lemma BeforeStart(count: nat -> nat)
    ensures Before(count, 0) == 0
  {
  }

  lemma DrainedState(r: Renderer, phase: nat, events: nat, s: Spill)
    requires SpillOk(r, phase, events, s)
    ensures s.cursor == events ==> s == Spill(events, 0, None)
  {
  }

  lemma NoMoreEvents(r: Renderer, phase: nat, events: nat, s: Spill, room: nat, n: u64)
    requires s.cursor >= events
    ensures Burst(r, phase, events, s, room, n) == (s, [], [])
  {
  }

  lemma EmptyPhase(count: nat -> nat, events: nat, cap: nat, k: nat)
    requires cap > 0 && (k > 0 ==> k >= PhaseDrain(count, events, cap)) && (k == 0 ==> events == 0)
    ensures k + 1 >= PhaseDrain(count, events, cap)
  {
    if k == 0 {
      BeforeStart(count);
    }
  }

  lemma DrainTest(total: nat, cap: nat, lastSilent: bool, k: nat)
    requires cap > 0 && k > 0
    ensures k >= DrainBursts(total, cap, lastSilent) <==> k * cap > total || (k * cap == total && !lastSilent)
  {
    var q, m := total / cap, total % cap;
    assert total == q * cap + m;
    if k > q {
      assert k * cap >= (q + 1) * cap;
    } else if k < q {
      assert (k + 1) * cap <= q * cap;
    }
  }

  // ----- The timeline -------------------------------------------------------------------------

  /** One burst of the engine on its timeline; `PhaseFrames` refines this. */
  function Step(phases: seq<Phase>, campaign: Campaign, r: Renderer, cap: nat, s: Timeline, n: u64): (t: Timeline)
    requires s.phase < |phases|
    ensures t.phase < |phases|
  {
    NextState(phases, campaign, s, Burst(r, s.phase, phases[s.phase].events, s.spill, cap, n).0)
  }

  function Play(phases: seq<Phase>, campaign: Campaign, r: Renderer, cap: nat, s: Timeline, ns: seq<u64>): (t: Timeline)
    requires s.phase < |phases|
    ensures t.phase < |phases|
  {
    if ns == [] then s
    else Step(phases, campaign, r, cap, Play(phases, campaign, r, cap, s, ns[..|ns| - 1]), ns[|ns| - 1])
  }

  /** Bursts a phase is held for. */
  ghost function Hold(p: Phase, count: nat -> nat, cap: nat): nat
    requires cap > 0
  {
    var drain := PhaseDrain(count, p.events, cap);
    if drain > Dwell(p) then drain else Dwell(p)
  }

  /**
   A phase entered fresh is held for exactly the longer of its dwell and its drain, whatever the
   nonces: before that the engine is still in it, and then it is at the start of the next one.
   */
  lemma {:induction false} HeldExactly(phases: seq<Phase>, campaign: Campaign, r: Renderer, cap: nat, phase: nat,
                                       ns: seq<u64>, count: nat -> nat)
    requires phase < |phases| && cap > 0 && Counts(r, phase, phases[phase].events, count)
    requires |ns| <= Hold(phases[phase], count, cap)
    ensures Play(phases, campaign, r, cap, Timeline(phase, START, 0), ns) ==
              if |ns| < Hold(phases[phase], count, cap)
              then Timeline(phase, Pass(r, phase, phases[phase].events, cap, ns).0, |ns|)
              else Timeline(NextPhase(|phases|, campaign, phase), START, 0)
  {
    hide Counts, Burst, PhaseDrain;
    if ns != [] {
      var events := phases[phase].events;
      var k := |ns| - 1;
      HeldExactly(phases, campaign, r, cap, phase, ns[..k], count);
      PassPosition(r, phase, events, cap, ns, count);
      CursorBound(r, phase, events, Pass(r, phase, events, cap, ns).0);
    }
  }

  lemma CursorBound(r: Renderer, phase: nat, events: nat, s: Spill)
    requires SpillOk(r, phase, events, s)
    ensures s.cursor <= events
  {
  }

  /** The frames fill bursts exactly, no dwell outlasts them, and the last event renders nothing. */
  ghost predicate SilentTail(p: Phase, count: nat -> nat, cap: nat)
    requires cap > 0
  {
    var total := Before(count, p.events);
    p.events > 0 && count(p.events - 1) == 0 && total > 0 && total % cap == 0 && total / cap >= p.dwellRuns
  }

  /** The hold is the longer of the dwell and the rounded-up quotient, and one burst more exactly for a silent tail. */
  lemma HoldFormula(p: Phase, count: nat -> nat, cap: nat)
    requires cap > 0
    ensures var ceiling := (Before(count, p.events) + cap - 1) / cap;
            var longer := if ceiling > p.dwellRuns then ceiling else p.dwellRuns;
            Hold(p, count, cap) ==
              if longer == 0 then 1 else longer + if SilentTail(p, count, cap) then 1 else 0
  {
    hide Before;
    var total := Before(count, p.events);
    if p.events == 0 {
      BeforeStart(count);
    }
    if total == 0 {
      CeilZero(cap);
    } else {
      Ceiling(total, cap);
    }
  }

  lemma CeilZero(cap: nat)
    requires cap > 0
    ensures (cap - 1) / cap == 0 && 0 / cap == 0
  {
  }

  lemma Ceiling(total: nat, cap: nat)
    requires cap > 0
    ensures (total + cap - 1) / cap == if total % cap == 0 then total / cap else total / cap + 1
  {
    var q, m := total / cap, total % cap;
    assert total == q * cap + m;
    Quotient(total + cap - 1, cap, if m == 0 then q else q + 1);
  }

  /** A silent last event on a full burst costs one burst more than the quotient says. */
  lemma SilentTailCostsABurst()
    ensures var count := (e: nat) => if e == 0 then 2 else 0;
            SilentTail(Phase(1, 2), count, 2) && Hold(Phase(1, 2), count, 2) == 2 && Before(count, 2) == 2
  {
    var count := (e: nat) => if e == 0 then 2 else 0;
    assert Before(count, 1) == 2;
  }

  ghost function Visited(phases: nat, campaign: Campaign, k: nat): nat {
    if k == 0 then 0 else NextPhase(phases, campaign, Visited(phases, campaign, k - 1))
  }

  /** A one-shot campaign runs through its phases once and stays in the last; a loop cycles them in order. */
  lemma {:induction false} PhaseOrder(phases: nat, campaign: Campaign, k: nat)
    requires phases > 0
    ensures Visited(phases, campaign, k) ==
              if campaign == Loop then k % phases else if k < phases then k else phases - 1
  {
    if k > 0 {
      PhaseOrder(phases, campaign, k - 1);
      if campaign == Loop {
        NextMod(k - 1, phases);
      }
    } else {
      ZeroMod(phases);
    }
  }

  lemma ZeroMod(m: nat)
    requires m > 0
    ensures 0 % m == 0
  {
  }

  lemma NextMod(k: nat, m: nat)
    requires m > 0
    ensures (k + 1) % m == if k % m + 1 < m then k % m + 1 else 0
  {
    var q, x := k / m, k % m;
    assert k == q * m + x;
    if x + 1 < m {
      Remainder(k + 1, m, q, x + 1);
    } else {
      assert (q + 1) * m == q * m + m;
      Remainder(k + 1, m, q + 1, 0);
    }
  }

  /** Under a one-shot campaign the phase never goes back, over any run. */
  lemma {:induction false} OneshotNeverReturns(phases: seq<Phase>, r: Renderer, cap: nat, s: Timeline, ns: seq<u64>)
    requires s.phase < |phases|
    ensures Play(phases, Oneshot, r, cap, s, ns).phase >= s.phase
  {
    hide Burst;
    if ns != [] {
      OneshotNeverReturns(phases, r, cap, s, ns[..|ns| - 1]);
    }
  }

  lemma {:induction false} PlayAppend(phases: seq<Phase>, campaign: Campaign, r: Renderer, cap: nat, s: Timeline,
                                      ns: seq<u64>, ms: seq<u64>)
    requires s.phase < |phases|
    ensures Play(phases, campaign, r, cap, s, ns + ms) ==
            Play(phases, campaign, r, cap, Play(phases, campaign, r, cap, s, ns), ms)
  {
    hide Step;
    if ms == [] {
      assert ns + ms == ns;
    } else {
      var k := |ms| - 1;
      PlayAppend(phases, campaign, r, cap, s, ns, ms[..k]);
      assert (ns + ms)[..|ns + ms| - 1] == ns + ms[..k];
    }
  }

  /** Bursts until the campaign enters its `k`-th phase visit. */
  ghost function EntryTime(phases: seq<Phase>, campaign: Campaign, counts: nat -> nat -> nat, cap: nat, k: nat): nat
    requires phases != [] && cap > 0
  {
    if k == 0 then 0
    else
      PhaseOrder(|phases|, campaign, k - 1);
      var p := Visited(|phases|, campaign, k - 1);
      EntryTime(phases, campaign, counts, cap, k - 1) + Hold(phases[p], counts(p), cap)
  }

  /** The whole schedule: from a fresh start, the `k`-th visit begins exactly at its entry time. */
  lemma {:induction false} Schedule(phases: seq<Phase>, campaign: Campaign, r: Renderer, cap: nat,
                                    counts: nat -> nat -> nat, k: nat, ns: seq<u64>)
    requires phases != [] && cap > 0
    requires forall p :: 0 <= p < |phases| ==> Counts(r, p, phases[p].events, counts(p))
    requires |ns| == EntryTime(phases, campaign, counts, cap, k)
    ensures Play(phases, campaign, r, cap, Timeline(0, START, 0), ns) ==
              Timeline(Visited(|phases|, campaign, k), START, 0)
  {
    hide Counts, Hold, Step;
    if k > 0 {
      var at := EntryTime(phases, campaign, counts, cap, k - 1);
      var p := Visited(|phases|, campaign, k - 1);
      PhaseOrder(|phases|, campaign, k - 1);
      Schedule(phases, campaign, r, cap, counts, k - 1, ns[..at]);
      assert ns[..at] + ns[at..] == ns;
      PlayAppend(phases, campaign, r, cap, Timeline(0, START, 0), ns[..at], ns[at..]);
      HeldExactly(phases, campaign, r, cap, p, ns[at..], counts(p));
    }
  }

  // ----- The frames of a whole run ------------------------------------------------------------

  /** One stay in a phase: the nonces of its bursts. */
  datatype Visit = Visit(phase: nat, ns: seq<u64>)

  ghost function RunFrames(phases: seq<Phase>, campaign: Campaign, r: Renderer, cap: nat, s: Timeline,
                           ns: seq<u64>): seq<Frame>
    requires s.phase < |phases|
  {
    if ns == [] then []
    else
      var k := |ns| - 1;
      var at := Play(phases, campaign, r, cap, s, ns[..k]);
      RunFrames(phases, campaign, r, cap, s, ns[..k])
      + Burst(r, at.phase, phases[at.phase].events, at.spill, cap, ns[k]).1
  }

  /** The phase's events are drained and it was dwelt in for long enough. */
  ghost predicate Over(p: Phase, s: Spill, bursts: nat) {
    s.cursor >= p.events && s.offset == 0 && bursts >= 1 && bursts >= p.dwellRuns
  }

  /** At no burst of this pass was the phase over. */
  ghost predicate Staying(p: Phase, r: Renderer, phase: nat, cap: nat, ns: seq<u64>) {
    forall k :: 0 < k <= |ns| ==> !Over(p, Pass(r, phase, p.events, cap, ns[..k]).0, k)
  }

  /** A finished stay: over with its last burst and not before. */
  ghost predicate Finished(phases: seq<Phase>, r: Renderer, cap: nat, v: Visit) {
    && v.phase < |phases| && v.ns != []
    && Over(phases[v.phase], Pass(r, v.phase, phases[v.phase].events, cap, v.ns).0, |v.ns|)
    && Staying(phases[v.phase], r, v.phase, cap, v.ns[..|v.ns| - 1])
  }

  ghost function AllBursts(visits: seq<Visit>): seq<u64> {
    if visits == [] then [] else AllBursts(visits[..|visits| - 1]) + visits[|visits| - 1].ns
  }

  /** The full renders of every event of every visit, each event under the nonce of its own pass. */
  ghost function AllStreams(phases: seq<Phase>, r: Renderer, cap: nat, visits: seq<Visit>): seq<Frame>
    requires forall v :: v in visits ==> v.phase < |phases|
  {
    if visits == [] then []
    else
      var v := visits[|visits| - 1];
      AllStreams(phases, r, cap, visits[..|visits| - 1])
      + Stream(r, v.phase, Pass(r, v.phase, phases[v.phase].events, cap, v.ns).2)
  }

  /** A run so far: finished stays in campaign order, and the pass under way. */
  ghost predicate RunIs(phases: seq<Phase>, campaign: Campaign, r: Renderer, cap: nat, ns: seq<u64>,
                        visits: seq<Visit>, now: seq<u64>, at: Timeline, sent: seq<Frame>) {
    && ns == AllBursts(visits) + now
    && (forall i :: 0 <= i < |visits| ==>
          visits[i].phase == Visited(|phases|, campaign, i) && Finished(phases, r, cap, visits[i]))
    && at.phase == Visited(|phases|, campaign, |visits|) && at.phase < |phases|
    && Staying(phases[at.phase], r, at.phase, cap, now)
    && var (s, outs, nonces) := Pass(r, at.phase, phases[at.phase].events, cap, now);
       && at == Timeline(at.phase, s, |now|)
       && sent == AllStreams(phases, r, cap, visits) + Sent(r, at.phase, nonces, s)
  }

  /**
   Any run of the timeline, whatever is rendered: the bursts split into finished stays, in campaign
   order, and the stay under way. A phase is left exactly at the first burst that finds it drained
   and dwelt, and what was sent in all is every finished stay's events in full, then the stay under
   way's so far: nothing is lost, repeated or reordered over the whole campaign.
   */
  lemma {:induction false} RunExact(phases: seq<Phase>, campaign: Campaign, r: Renderer, cap: nat, ns: seq<u64>)
    returns (visits: seq<Visit>, now: seq<u64>)
    requires phases != []
    ensures var fresh_ := Timeline(0, START, 0);
            RunIs(phases, campaign, r, cap, ns, visits, now, Play(phases, campaign, r, cap, fresh_, ns),
                  RunFrames(phases, campaign, r, cap, fresh_, ns))
  {
    hide RunIs, Burst, Pass;
    if ns == [] {
      NothingRun(phases, campaign, r, cap);
      return [], [];
    }
    var k := |ns| - 1;
    visits, now := RunExact(phases, campaign, r, cap, ns[..k]);
    var at := Play(phases, campaign, r, cap, Timeline(0, START, 0), ns[..k]);
    var sent := RunFrames(phases, campaign, r, cap, Timeline(0, START, 0), ns[..k]);
    assert ns == ns[..k] + [ns[k]];
    visits, now := OneMoreBurst(phases, campaign, r, cap, ns[..k], visits, now, at, sent, ns[k]);
  }

  lemma NothingRun(phases: seq<Phase>, campaign: Campaign, r: Renderer, cap: nat)
    requires phases != []
    ensures RunIs(phases, campaign, r, cap, [], [], [], Timeline(0, START, 0), [])
  {
    StartSent(r, 0, phases[0].events);
  }

  lemma OneMoreBurst(phases: seq<Phase>, campaign: Campaign, r: Renderer, cap: nat, ns: seq<u64>, visits: seq<Visit>,
                     now: seq<u64>, at: Timeline, sent: seq<Frame>, n: u64)
    returns (more: seq<Visit>, then_: seq<u64>)
    requires RunIs(phases, campaign, r, cap, ns, visits, now, at, sent) && at.phase < |phases|
    ensures RunIs(phases, campaign, r, cap, ns + [n], more, then_, Step(phases, campaign, r, cap, at, n),
                  sent + Burst(r, at.phase, phases[at.phase].events, at.spill, cap, n).1)
  {
    hide Burst, Pass, Finished, Staying, Sent, AllStreams, AllBursts, Stream, Over, Step;
    StepIs(phases, campaign, r, cap, at, n);
    var phase, p := at.phase, phases[at.phase];
    var t := Burst(r, phase, p.events, at.spill, cap, n).0;
    PassMore(r, phase, p.events, cap, now, n);
    StayMore(p, r, phase, cap, now, n);
    if Over(p, t, |now| + 1) {
      var v := Visit(phase, now + [n]);
      more, then_ := visits + [v], [];
      StayDone(phases, r, cap, v, now, n);
      forall w | w in visits ensures w.phase < |phases| {
        var i :| 0 <= i < |visits| && visits[i] == w;
        FinishedHere(phases, r, cap, visits[i]);
      }
      NewVisit(phases, r, cap, visits, v);
      Entered(phases, campaign, r, cap, NextPhase(|phases|, campaign, phase));
    } else {
      more, then_ := visits, now + [n];
    }
  }

  lemma StepIs(phases: seq<Phase>, campaign: Campaign, r: Renderer, cap: nat, at: Timeline, n: u64)
    requires at.phase < |phases|
    ensures var t := Burst(r, at.phase, phases[at.phase].events, at.spill, cap, n).0;
            Step(phases, campaign, r, cap, at, n) ==
              if Over(phases[at.phase], t, at.bursts + 1)
              then Timeline(NextPhase(|phases|, campaign, at.phase), START, 0)
              else Timeline(at.phase, t, at.bursts + 1)
    ensures forall s, bursts :: Over(phases[at.phase], s, bursts) ==> s.cursor >= phases[at.phase].events
  {
    hide Burst;
  }

  /** One burst more of a pass, and what it has sent by then. */
  lemma PassMore(r: Renderer, phase: nat, events: nat, cap: nat, now: seq<u64>, n: u64)
    ensures var (s, outs, nonces) := Pass(r, phase, events, cap, now);
            var (t, more, drained) := Pass(r, phase, events, cap, now + [n]);
            && t == Burst(r, phase, events, s, cap, n).0
            && Sent(r, phase, drained, t) == Sent(r, phase, nonces, s) + Burst(r, phase, events, s, cap, n).1
            && (t.cursor >= events ==> Sent(r, phase, drained, t) == Stream(r, phase, drained))
  {
    hide Burst, Sent, AllFirstRendered;
    assert (now + [n])[..|now|] == now;
    PassExact(r, phase, events, cap, now);
    PassExact(r, phase, events, cap, now + [n]);
    DrainedPass(r, phase, events, cap, now + [n]);
    var (s, outs, nonces) := Pass(r, phase, events, cap, now);
    var frames := Burst(r, phase, events, s, cap, n).1;
    assert (outs + [frames])[..|outs|] == outs;
  }

  lemma StayMore(p: Phase, r: Renderer, phase: nat, cap: nat, now: seq<u64>, n: u64)
    requires Staying(p, r, phase, cap, now)
    ensures !Over(p, Pass(r, phase, p.events, cap, now + [n]).0, |now| + 1) ==> Staying(p, r, phase, cap, now + [n])
  {
    hide Pass, Over;
    forall k | 0 < k <= |now| ensures (now + [n])[..k] == now[..k] {
    }
    assert (now + [n])[..|now| + 1] == now + [n];
  }

  lemma StayDone(phases: seq<Phase>, r: Renderer, cap: nat, v: Visit, now: seq<u64>, n: u64)
    requires v.ns == now + [n] && v.phase < |phases|
    requires Staying(phases[v.phase], r, v.phase, cap, now)
    requires Over(phases[v.phase], Pass(r, v.phase, phases[v.phase].events, cap, v.ns).0, |v.ns|)
    ensures Finished(phases, r, cap, v)
  {
    hide Pass, Staying, Over;
    assert v.ns[..|v.ns| - 1] == now;
  }

  lemma FinishedHere(phases: seq<Phase>, r: Renderer, cap: nat, v: Visit)
    requires Finished(phases, r, cap, v)
    ensures v.phase < |phases|
  {
  }

  lemma NewVisit(phases: seq<Phase>, r: Renderer, cap: nat, visits: seq<Visit>, v: Visit)
    requires v.phase < |phases| && forall w :: w in visits ==> w.phase < |phases|
    ensures AllBursts(visits + [v]) == AllBursts(visits) + v.ns
    ensures AllStreams(phases, r, cap, visits + [v]) ==
              AllStreams(phases, r, cap, visits)
              + Stream(r, v.phase, Pass(r, v.phase, phases[v.phase].events, cap, v.ns).2)
  {
    hide Pass;
    assert (visits + [v])[..|visits|] == visits;
  }

  lemma Entered(phases: seq<Phase>, campaign: Campaign, r: Renderer, cap: nat, phase: nat)
    requires phase < |phases|
    ensures Staying(phases[phase], r, phase, cap, []) && Pass(r, phase, phases[phase].events, cap, []).0 == START
    ensures Sent(r, phase, Pass(r, phase, phases[phase].events, cap, []).2, START) == []
  {
  }
}
