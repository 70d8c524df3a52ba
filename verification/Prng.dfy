/** The pseudo-random source of the generators, as an arbitrary stream of draws.
    Quantifying over `stream` quantifies over every seed and every PRNG. */
module Prng {

  class Rng {
    const stream: nat -> nat
    var pos: nat

    constructor (stream: nat -> nat)
      ensures this.stream == stream && pos == 0
    {
      this.stream := stream;
      pos := 0;
    }

    /** A draw in `min..max`; callers must not pass an empty range. */
    method NextInt(min: int, max: int) returns (r: int)
      requires min <= max
      modifies this
      ensures min <= r <= max
      ensures r == min + stream(old(pos)) % (max - min + 1) && pos == old(pos) + 1
    {
      r := min + stream(pos) % (max - min + 1);
      pos := pos + 1;
    }

    method NextBool() returns (b: bool)
      modifies this
      ensures b == (stream(old(pos)) % 2 == 1) && pos == old(pos) + 1
    {
      var r := NextInt(0, 1);
      b := r == 1;
    }

    /** One element of a nonempty list. */
    method Pick<T>(xs: seq<T>) returns (x: T)
      requires |xs| > 0
      modifies this
      ensures x in xs && pos == old(pos) + 1
      ensures x == xs[stream(old(pos)) % |xs|]
    {
      var i := NextInt(0, |xs| - 1);
      x := xs[i];
    }
  }
}
