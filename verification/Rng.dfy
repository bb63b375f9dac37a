/** A seeded random source, modelled as an arbitrary stream of draws and a position in it. */
module Rng {
  class Rng {
    const draws: nat -> nat
    var pos: nat

    constructor (draws: nat -> nat)
      ensures this.draws == draws && pos == 0
    {
      this.draws := draws;
      pos := 0;
    }

    /** Uniform-looking draw from `0..count`; any value in range may come up. */
    method GenRange(count: nat) returns (r: nat)
      requires count > 0
      modifies this
      ensures r == draws(old(pos)) % count && r < count
      ensures pos == old(pos) + 1
    {
      r := draws(pos) % count;
      pos := pos + 1;
    }

    /** A weighted coin whose weight is not modelled: either side may come up. */
    method GenBool() returns (b: bool)
      modifies this
      ensures b <==> draws(old(pos)) % 2 == 1
      ensures pos == old(pos) + 1
    {
      b := draws(pos) % 2 == 1;
      pos := pos + 1;
    }
  }
}
