/** Seeded, capture-wide consistent identifier remapping. */
module Mapper {
  import opened Wire
  import opened Rng

  datatype Domain =
    | ModbusUnitId | EnipVendor | EnipDeviceType | EnipProductCode | EnipSerial | S7ModuleId | S7Serial | Dnp3Addr

  const RETRIES: nat := 64

  /** The draw the source would return `k` draws from now, scaled into `lo..=hi`. */
  function DrawAt(draws: nat -> nat, pos: nat, lo: u64, hi: u64): int
    requires lo <= hi
  {
    lo + draws(pos) % (hi - lo + 1)
  }

  /** `n` draws in a row from `pos` all hit `taken`. */
  ghost predicate AllHit(draws: nat -> nat, pos: nat, n: nat, lo: u64, hi: u64, taken: set<u64>)
    requires lo <= hi
  {
    n == 0 || (AllHit(draws, pos, n - 1, lo, hi, taken) && DrawAt(draws, pos + n - 1, lo, hi) in taken)
  }

  ghost predicate InjectiveIn(fwd: map<(Domain, u64), u64>, d: Domain) {
    forall a, b :: (d, a) in fwd && (d, b) in fwd && fwd[(d, a)] == fwd[(d, b)] ==> a == b
  }

  /** The values drawn between two points of the stream, scaled to 16 bits. */
  ghost function Drawn(draws: nat -> nat, from: nat, to: nat): set<u64>
  {
    if to <= from then {} else Drawn(draws, from, to - 1) + {DrawAt(draws, to - 1, 0, 0xffff)}
  }

  /** Every attempt of one `u16` draw starting at `at` hits a value held by then, those drawn since `from` included. */
  ghost predicate UnluckyAt(draws: nat -> nat, from: nat, at: nat, taken: set<u64>) {
    AllHit(draws, at, RETRIES + 1, 0, 0xffff, taken + Drawn(draws, from, at))
  }

  /** Somewhere between two points of the stream 65 draws in a row hit values held before them. */
  ghost predicate Exhausted(draws: nat -> nat, from: nat, to: nat, taken: set<u64>) {
    exists at: nat :: from <= at && at + RETRIES + 1 <= to && UnluckyAt(draws, from, at, taken)
  }

  /** The last draw before `to` gave a value nobody held, or an attempt had been exhausted by then. */
  ghost predicate EndsFresh(draws: nat -> nat, from: nat, to: nat, taken: set<u64>) {
    from < to && !Exhausted(draws, from, to, taken) ==>
        DrawAt(draws, to - 1, 0, 0xffff) !in taken + Drawn(draws, from, to - 1)
  }

  /** The table of a domain is one to one, into 16-bit values. */
  ghost predicate OneToOne16(fwd: map<(Domain, u64), u64>, d: Domain) {
    InjectiveIn(fwd, d) && forall o :: (d, o) in fwd ==> fwd[(d, o)] <= 0xffff
  }

  lemma {:induction false} AllHitAt(draws: nat -> nat, pos: nat, n: nat, lo: u64, hi: u64, taken: set<u64>, k: nat)
    requires lo <= hi && k < n && AllHit(draws, pos, n, lo, hi, taken)
    ensures DrawAt(draws, pos + k, lo, hi) in taken
    decreases n
  {
    if k < n - 1 {
      AllHitAt(draws, pos, n - 1, lo, hi, taken, k);
    }
  }

  lemma {:induction false} DrawnSplit(draws: nat -> nat, from: nat, mid: nat, to: nat)
    requires from <= mid <= to
    ensures Drawn(draws, from, to) == Drawn(draws, from, mid) + Drawn(draws, mid, to)
  {
    if to > mid {
      DrawnSplit(draws, from, mid, to - 1);
    }
  }

  /** Draws that all hit add nothing to the values held. */
  lemma {:induction false} HitsAddNothing(draws: nat -> nat, pos: nat, n: nat, taken: set<u64>)
    requires AllHit(draws, pos, n, 0, 0xffff, taken)
    ensures Drawn(draws, pos, pos + n) <= taken
  {
    if n != 0 {
      HitsAddNothing(draws, pos, n - 1, taken);
    }
  }

  /** What one draw from `from` to `to` ends with, and whether it was exhausted. */
  lemma OneDraw(draws: nat -> nat, from: nat, n: nat, taken: set<u64>, v: u64)
    requires n <= RETRIES && AllHit(draws, from, n, 0, 0xffff, taken) && v == DrawAt(draws, from + n, 0, 0xffff)
    requires v in taken ==> n == RETRIES
    ensures taken + Drawn(draws, from, from + n + 1) == taken + {v}
    ensures Exhausted(draws, from, from + n + 1, taken) <==> v in taken
    ensures EndsFresh(draws, from, from + n + 1, taken)
  {
    HitsAddNothing(draws, from, n, taken);
    assert Drawn(draws, from, from) == {} && taken + {} == taken;
    if v in taken {
      assert AllHit(draws, from, RETRIES + 1, 0, 0xffff, taken);
      assert UnluckyAt(draws, from, from, taken);
    } else if Exhausted(draws, from, from + n + 1, taken) {
      var at: nat :| from <= at && at + RETRIES + 1 <= from + n + 1 && UnluckyAt(draws, from, at, taken);
      AllHitAt(draws, from, RETRIES + 1, 0, 0xffff, taken, n);
    }
  }

  /**
   Two stretches of draws, the first ending on a finished draw: one of the whole was exhausted
   exactly when one of either was.
   */
  lemma ExhaustedTwice(draws: nat -> nat, from: nat, mid: nat, to: nat, taken: set<u64>)
    requires from <= mid <= to && EndsFresh(draws, from, mid, taken)
    ensures Exhausted(draws, from, to, taken) <==>
              Exhausted(draws, from, mid, taken) || Exhausted(draws, mid, to, taken + Drawn(draws, from, mid))
  {
    hide UnluckyAt, Drawn;
    var held := taken + Drawn(draws, from, mid);
    if Exhausted(draws, from, to, taken) {
      var at: nat :| from <= at && at + RETRIES + 1 <= to && UnluckyAt(draws, from, at, taken);
      if at >= mid {
        Rebased(draws, from, mid, at, taken);
      } else if mid < at + RETRIES + 1 {
        Straddle(draws, from, mid, at, taken);
      }
    }
    if Exhausted(draws, mid, to, held) {
      var at: nat :| mid <= at && at + RETRIES + 1 <= to && UnluckyAt(draws, mid, at, held);
      Rebased(draws, from, mid, at, taken);
    }
  }

  lemma Rebased(draws: nat -> nat, from: nat, mid: nat, at: nat, taken: set<u64>)
    requires from <= mid <= at
    ensures UnluckyAt(draws, from, at, taken) <==> UnluckyAt(draws, mid, at, taken + Drawn(draws, from, mid))
  {
    DrawnSplit(draws, from, mid, at);
    assert taken + Drawn(draws, from, mid) + Drawn(draws, mid, at) == taken + Drawn(draws, from, at);
  }

  /** A run of hits across `mid` would make the draw that ended at `mid` a hit as well. */
  lemma Straddle(draws: nat -> nat, from: nat, mid: nat, at: nat, taken: set<u64>)
    requires from <= at < mid < at + RETRIES + 1
    requires UnluckyAt(draws, from, at, taken) && EndsFresh(draws, from, mid, taken)
    ensures Exhausted(draws, from, mid, taken)
  {
    AllHitAt(draws, at, RETRIES + 1, 0, 0xffff, taken + Drawn(draws, from, at), mid - 1 - at);
    DrawnSplit(draws, from, at, mid - 1);
  }

  lemma EndsFreshTwice(draws: nat -> nat, from: nat, mid: nat, to: nat, taken: set<u64>)
    requires from <= mid <= to && EndsFresh(draws, from, mid, taken)
    requires EndsFresh(draws, mid, to, taken + Drawn(draws, from, mid))
    ensures EndsFresh(draws, from, to, taken)
  {
    hide Drawn, Exhausted, DrawAt;
    ExhaustedTwice(draws, from, mid, to, taken);
    if to > mid {
      DrawnSplit(draws, from, mid, to - 1);
      var held := taken + Drawn(draws, from, mid);
      assert held + Drawn(draws, mid, to - 1) == taken + Drawn(draws, from, to - 1);
    }
  }

  function UsedOf(used: map<Domain, set<u64>>, d: Domain): set<u64> {
    if d in used then used[d] else {}
  }

  /** The used set of a domain is exactly the values handed out in it. */
  ghost predicate Tracks(fwd: map<(Domain, u64), u64>, used: map<Domain, set<u64>>) {
    && (forall d, o :: (d, o) in fwd ==> fwd[(d, o)] in UsedOf(used, d))
    && (forall d, v :: v in UsedOf(used, d) ==> exists o :: (d, o) in fwd && fwd[(d, o)] == v)
  }

  /** One more entry is tracked, and keeps a table one to one exactly when its value was not in use. */
  lemma EntryAdded(fwd: map<(Domain, u64), u64>, used: map<Domain, set<u64>>, d: Domain, orig: u64, v: u64)
    requires Tracks(fwd, used) && (d, orig) !in fwd
    ensures Tracks(fwd[(d, orig) := v], used[d := UsedOf(used, d) + {v}])
    ensures InjectiveIn(fwd, d) ==> (InjectiveIn(fwd[(d, orig) := v], d) <==> v !in UsedOf(used, d))
  {
    var more, held := fwd[(d, orig) := v], used[d := UsedOf(used, d) + {v}];
    forall e, w | w in UsedOf(held, e) ensures exists o :: (e, o) in more && more[(e, o)] == w {
      if w in UsedOf(used, e) {
        var o :| (e, o) in fwd && fwd[(e, o)] == w;
        assert (e, o) in more && more[(e, o)] == w;
      } else {
        assert (e, orig) in more && more[(e, orig)] == w;
      }
    }
    if v in UsedOf(used, d) {
      var o :| (d, o) in fwd && fwd[(d, o)] == v;
      assert (d, o) in more && more[(d, o)] == more[(d, orig)];
    }
  }

  class SeededMapper {
    const rng: Rng
    var fwd: map<(Domain, u64), u64>
    var used: map<Domain, set<u64>>

    constructor (rng: Rng)
      ensures Valid() && fwd == map[] && this.rng == rng
    {
      this.rng := rng;
      fwd, used := map[], map[];
    }

    function UsedIn(d: Domain): set<u64>
      reads this
    {
      UsedOf(used, d)
    }

    ghost predicate Valid()
      reads this
    {
      Tracks(fwd, used)
    }

    /**
     The value of `orig`, the same for the whole capture. A new value collides with an older one of
     its domain exactly when the range is a single used value or 65 draws in a row hit used values.
     */
    method MapRange(d: Domain, orig: u64, lo: u64, hi: u64) returns (v: u64)
      requires Valid()
      modifies this, rng
      ensures Valid()
      ensures (d, orig) in fwd && fwd[(d, orig)] == v
      ensures fwd == if (d, orig) in old(fwd) then old(fwd) else old(fwd)[(d, orig) := v]
      ensures (d, orig) !in old(fwd) ==> if lo < hi then lo <= v <= hi else v == lo
      ensures (d, orig) !in old(fwd) ==>
                (v in old(UsedIn(d)) <==> Collides(rng.draws, old(rng.pos), lo, hi, old(UsedIn(d))))
      ensures old(InjectiveIn(fwd, d)) ==>
                (InjectiveIn(fwd, d) <==>
                   (d, orig) in old(fwd) || !Collides(rng.draws, old(rng.pos), lo, hi, old(UsedIn(d))))
      ensures if (d, orig) in old(fwd) then rng.pos == old(rng.pos)
              else lo < hi ==> DrewTo(rng.draws, old(rng.pos), rng.pos, lo, hi, old(UsedIn(d)), v)
      ensures forall e :: UsedIn(e) == old(UsedIn(e)) + if e == d && (d, orig) !in old(fwd) then {v} else {}
    {
      hide Tracks, InjectiveIn, AllHit, Collides, DrewTo;
      if (d, orig) in fwd {
        return fwd[(d, orig)];
      }
      v := DrawUnused(d, lo, hi);
      EntryAdded(fwd, used, d, orig, v);
      fwd := fwd[(d, orig) := v];
      used := used[d := UsedIn(d) + {v}];
    }

    /** Bounded retries: after them the last draw is accepted even if it is used. */
    method DrawUnused(d: Domain, lo: u64, hi: u64) returns (candidate: u64)
      modifies rng
      ensures if lo < hi then lo <= candidate <= hi else candidate == lo
      ensures candidate in UsedIn(d) <==> Collides(rng.draws, old(rng.pos), lo, hi, UsedIn(d))
      ensures lo < hi ==> DrewTo(rng.draws, old(rng.pos), rng.pos, lo, hi, UsedIn(d), candidate)
    {
      if hi <= lo {
        return lo;
      }
      var taken := UsedIn(d);
      var r := rng.GenRange(hi - lo + 1);
      candidate := lo + r;
      for i := 0 to RETRIES
        invariant rng.pos == old(rng.pos) + i + 1
        invariant lo <= candidate <= hi && candidate == DrawAt(rng.draws, old(rng.pos) + i, lo, hi)
        invariant AllHit(rng.draws, old(rng.pos), i, lo, hi, taken)
      {
        if candidate !in taken {
          MissedAt(rng.draws, old(rng.pos), i, lo, hi, taken);
          return;
        }
        r := rng.GenRange(hi - lo + 1);
        candidate := lo + r;
      }
    }

    /** One to one stays one to one exactly unless every retry of the draw hit a value in use. */
    method MapU16(d: Domain, orig: u16) returns (v: u16)
      requires Valid()
      modifies this, rng
      ensures Valid()
      ensures (d, orig) in fwd && v == fwd[(d, orig)] % 0x1_0000
      ensures fwd.Keys == old(fwd).Keys + {(d, orig)} && forall k :: k in old(fwd) ==> fwd[k] == old(fwd)[k]
      ensures rng.pos >= old(rng.pos) && UsedIn(d) == old(UsedIn(d)) + Drawn(rng.draws, old(rng.pos), rng.pos)
      ensures EndsFresh(rng.draws, old(rng.pos), rng.pos, old(UsedIn(d)))
      ensures old(OneToOne16(fwd, d)) ==>
                (OneToOne16(fwd, d) <==> !Exhausted(rng.draws, old(rng.pos), rng.pos, old(UsedIn(d))))
    {
      hide InjectiveIn, Exhausted, AllHit, Drawn, EndsFresh, Tracks;
      ghost var held, start := UsedIn(d), rng.pos;
      var x := MapRange(d, orig, 0, 0xffff);
      if (d, orig) !in old(fwd) {
        ghost var n := rng.pos - start - 1;
        CollidesIff(rng.draws, start, n, held, x);
        OneDraw(rng.draws, start, n, held, x);
      } else {
        NoDraw(rng.draws, start, held);
      }
      v := x % 0x1_0000;
    }
  }

  /** A new value of the range must repeat one already in use. */
  ghost predicate Collides(draws: nat -> nat, pos: nat, lo: u64, hi: u64, taken: set<u64>) {
    if hi <= lo then lo in taken else AllHit(draws, pos, RETRIES + 1, lo, hi, taken)
  }

  /** The draw ended on `v`: every draw before it hit, and it stopped there for a miss or for want of retries. */
  ghost predicate DrewTo(draws: nat -> nat, from: nat, to: nat, lo: u64, hi: u64, taken: set<u64>, v: u64)
    requires lo <= hi
  {
    && from < to <= from + RETRIES + 1
    && v == DrawAt(draws, to - 1, lo, hi) && AllHit(draws, from, to - from - 1, lo, hi, taken)
    && (v in taken ==> to == from + RETRIES + 1)
  }

  lemma MissedAt(draws: nat -> nat, pos: nat, k: nat, lo: u64, hi: u64, taken: set<u64>)
    requires lo <= hi && k <= RETRIES && DrawAt(draws, pos + k, lo, hi) !in taken
    ensures !AllHit(draws, pos, RETRIES + 1, lo, hi, taken)
  {
    if AllHit(draws, pos, RETRIES + 1, lo, hi, taken) {
      AllHitAt(draws, pos, RETRIES + 1, lo, hi, taken, k);
    }
  }

  lemma CollidesIff(draws: nat -> nat, from: nat, n: nat, taken: set<u64>, v: u64)
    requires DrewTo(draws, from, from + n + 1, 0, 0xffff, taken, v)
    ensures n <= RETRIES && AllHit(draws, from, n, 0, 0xffff, taken) && v == DrawAt(draws, from + n, 0, 0xffff)
    ensures v in taken ==> n == RETRIES
  {
  }

  lemma NoDraw(draws: nat -> nat, at: nat, taken: set<u64>)
    ensures taken + Drawn(draws, at, at) == taken
    ensures !Exhausted(draws, at, at, taken) && EndsFresh(draws, at, at, taken)
  {
  }

  // ----- A stream that collides ---------------------------------------------------------------

  /** A stuck source. */
  function Sevens(pos: nat): nat { 7 }

  lemma {:induction false} SevensHit(n: nat)
    ensures AllHit(Sevens, 0, n, 0, 0xffff, {7})
  {
    if n != 0 {
      SevensHit(n - 1);
    }
  }

  /** With 7 in use the stuck source collides, although 65535 values are free. */
  lemma StuckSourceCollides()
    ensures Collides(Sevens, 0, 0, 0xffff, {7}) && Exhausted(Sevens, 0, RETRIES + 1, {7})
  {
    SevensHit(RETRIES + 1);
    assert {7} + Drawn(Sevens, 0, 0) == {7};
    assert UnluckyAt(Sevens, 0, 0, {7});
  }

  /** So two originals end up under one value. */
  method CollidingMapper() returns (mapper: SeededMapper)
    ensures !InjectiveIn(mapper.fwd, Dnp3Addr)
  {
    hide AllHit, Collides, Tracks, InjectiveIn;
    var rng := new Rng(Sevens);
    mapper := new SeededMapper(rng);
    var a := mapper.MapRange(Dnp3Addr, 1, 0, 0xffff);
    var b := mapper.MapRange(Dnp3Addr, 2, 0, 0xffff);
    assert a == 7 && b == 7;
    NotInjective(mapper.fwd, Dnp3Addr, 1, 2);
  }

  lemma NotInjective(fwd: map<(Domain, u64), u64>, d: Domain, a: u64, b: u64)
    requires a != b && (d, a) in fwd && (d, b) in fwd && fwd[(d, a)] == fwd[(d, b)]
    ensures !InjectiveIn(fwd, d)
  {
  }
}
