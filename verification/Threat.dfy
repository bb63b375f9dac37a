/** The rate limit on external-threat promotions, over any run of attempts and restarts. */
module Threat {
  import opened Wire
  import opened Rng

  const FLOOR_SECS: u64 := 86_400
  const MAX_U64: u64 := 0xffff_ffff_ffff_ffff

  function Max(a: u64, b: u64): u64 {
    if a < b then b else a
  }

  function SaturatingAdd(a: u64, b: u64): u64 {
    if a + b as int > MAX_U64 then MAX_U64 else a + b as int
  }

  /** Draws the next due time in the configured interval, never below the daily floor. */
  class ThreatScheduler {
    const min: u64
    const max: u64
    var nextDue: u64

    ghost predicate Valid() {
      FLOOR_SECS <= min <= max
    }

    constructor (minInterval: u64, maxInterval: u64, lastThreat: Option<u64>, now: u64, rng: Rng)
      modifies rng
      ensures Valid() && min == Max(minInterval, FLOOR_SECS) && max == Max(maxInterval, min)
      ensures minInterval >= 86_400 ==> min == minInterval
      ensures minInterval < 86_400 ==> min == 86_400
      ensures max == if maxInterval >= min then maxInterval else min
      ensures var anchor := if lastThreat.Some? then lastThreat.value else now;
              SaturatingAdd(anchor, min) <= nextDue <= SaturatingAdd(anchor, max)
    {
      min := Max(minInterval, FLOOR_SECS);
      max := Max(maxInterval, Max(minInterval, FLOOR_SECS));
      nextDue := 0;
      new;
      Schedule(match lastThreat case Some(t) => t case None => now, rng);
    }

    method Schedule(anchor: u64, rng: Rng)
      requires Valid()
      modifies this, rng
      ensures SaturatingAdd(anchor, min) <= nextDue <= SaturatingAdd(anchor, max)
      ensures anchor + min <= MAX_U64 ==> anchor + min <= nextDue as int <= anchor + max
      ensures anchor + min > MAX_U64 ==> nextDue == MAX_U64
    {
      var span := max - min;
      var draw := 0;
      if span != 0 {
        draw := rng.GenRange(span + 1);
      }
      nextDue := SaturatingAdd(anchor, min + draw);
    }

    predicate Due(now: u64)
      reads this
    {
      now >= nextDue
    }
  }

  /** How an attempt that was due may end. */
  datatype Outcome = ReadFailed | NoHost | WriteFailed | Promoted

  /** What happens to the engine: an attempt at some wall-clock time, or a restart, perhaps with other settings. */
  datatype Event = Attempt(now: u64, outcome: Outcome) | Restart(now: u64, minInterval: u64, maxInterval: u64)

  /** Each promotion comes at least a day after the one before, up to saturation of the clock. */
  ghost predicate Spaced(times: seq<u64>) {
    forall i :: 0 < i < |times| ==> times[i] as int >= times[i - 1] as int + 86_400 || times[i] == MAX_U64
  }

  class ThreatEngine {
    const rng: Rng
    var scheduler: ThreatScheduler
    /** The ledger's record, which a restart reads back. */
    var lastThreat: Option<u64>
    ghost var promotions: seq<u64>

    ghost predicate Valid()
      reads this, scheduler
    {
      && scheduler.Valid()
      && lastThreat == (if promotions == [] then None else Some(promotions[|promotions| - 1]))
      && (lastThreat.Some? ==> scheduler.nextDue >= SaturatingAdd(lastThreat.value, FLOOR_SECS))
      && Spaced(promotions)
    }

    constructor (rng: Rng, minInterval: u64, maxInterval: u64, now: u64)
      modifies rng
      ensures Valid() && fresh(scheduler) && this.rng == rng && promotions == []
      ensures scheduler.nextDue >= SaturatingAdd(now, FLOOR_SECS)
    {
      this.rng := rng;
      scheduler := new ThreatScheduler(minInterval, maxInterval, None, now, rng);
      lastThreat := None;
      promotions := [];
    }

    /** Not due: nothing happens. Due: the timer restarts whatever the outcome, and only a promotion is recorded. */
    method MaybePromote(now: u64, outcome: Outcome) returns (promoted: bool)
      requires Valid()
      modifies this`lastThreat, this`promotions, scheduler, rng
      ensures Valid()
      ensures promoted <==> old(scheduler.Due(now)) && outcome == Promoted
      ensures promotions == if promoted then old(promotions) + [now] else old(promotions)
      ensures if old(scheduler.Due(now)) then scheduler.nextDue >= SaturatingAdd(now, FLOOR_SECS)
              else scheduler.nextDue == old(scheduler.nextDue)
    {
      if !scheduler.Due(now) {
        return false;
      }
      if outcome == ReadFailed {
        scheduler.Schedule(now, rng);
        return false;
      }
      scheduler.Schedule(now, rng);
      if outcome == NoHost {
        return false;
      }
      if outcome == WriteFailed {
        return false;
      }
      lastThreat := Some(now);
      promotions := promotions + [now];
      promoted := true;
    }

    method Restarted(now: u64, minInterval: u64, maxInterval: u64)
      requires Valid()
      modifies this`scheduler, rng
      ensures Valid() && fresh(scheduler) && promotions == old(promotions)
    {
      scheduler := new ThreatScheduler(minInterval, maxInterval, lastThreat, now, rng);
    }

    /**
     Over any run of attempts and restarts, with any settings, clock readings and draws, recorded
     promotions stay a day apart.
     */
    method RunEvents(events: seq<Event>)
      requires Valid()
      modifies this, scheduler, rng
      ensures Valid() && Spaced(promotions)
      ensures old(promotions) <= promotions
    {
      for i := 0 to |events|
        invariant Valid() && old(promotions) <= promotions
        invariant scheduler == old(scheduler) || fresh(scheduler)
      {
        match events[i] {
          case Attempt(now, outcome) =>
            var promoted := MaybePromote(now, outcome);
          case Restart(now, minInterval, maxInterval) =>
            Restarted(now, minInterval, maxInterval);
        }
      }
    }
  }

  /** From one promotion, `j - i` more take that many days exactly when the clock can still count them. */
  lemma {:induction false} RateLimited(times: seq<u64>, i: nat, j: nat)
    requires Spaced(times) && i <= j < |times|
    ensures times[j] >= times[i] + (j - i) * FLOOR_SECS <==> times[i] + (j - i) * FLOOR_SECS <= MAX_U64
    decreases j
  {
    if i < j {
      assert times[j] as int >= times[j - 1] as int + 86_400 || times[j] == MAX_U64;
      RateLimited(times, i, j - 1);
    }
  }

  /** At the end of the clock's range the engine promotes twice in the same second. */
  method ClockEndsTheLimit(rng: Rng) returns (e: ThreatEngine)
    modifies rng
    ensures fresh(e) && e.Valid() && e.promotions == [MAX_U64, MAX_U64]
  {
    e := new ThreatEngine(rng, 0, 0, 0);
    var first := e.MaybePromote(MAX_U64, Promoted);
    var second := e.MaybePromote(MAX_U64, Promoted);
  }
}
