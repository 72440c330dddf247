/** The pseudo-random source threaded through every stochastic operation.
    The generator is modelled by the canonical values it will produce, each
    in [0, 1); the uniform distributions scale one canonical value each. */
module Random {
  import opened Numerics

  /** A canonical value of the generator: a real in [0, 1). */
  type Draw = u: real | 0.0 <= u < 1.0

  /** The integer uniform_int_distribution(lo, hi) makes of the canonical
      value u: lo plus the whole part of u scaled to the hi - lo + 1
      possible values. */
  function UniformIntValue(lo: int, hi: int, u: Draw): (k: int)
    requires lo <= hi
    ensures lo <= k <= hi
  {
    lo + Lerp(0.0, (hi - lo + 1) as real, u).Floor
  }

  class Generator {
    /** The canonical values still to be drawn, in order. */
    var draws: seq<Draw>

    constructor (s: seq<Draw>)
      ensures draws == s
    {
      draws := s;
    }

    /** One canonical draw in [0, 1). */
    method Next() returns (u: Draw)
      requires draws != []
      modifies this
      ensures draws == old(draws)[1..] && u == old(draws)[0]
    {
      u := draws[0];
      draws := draws[1..];
    }

    /** A draw of uniform_real_distribution(lo, hi): a value in [lo, hi). */
    method UniformReal(lo: real, hi: real) returns (x: real)
      requires draws != [] && lo < hi
      modifies this
      ensures draws == old(draws)[1..]
      ensures x == Lerp(lo, hi, old(draws)[0]) && lo <= x < hi
    {
      var u := Next();
      x := Lerp(lo, hi, u);
    }

    /** A draw of uniform_int_distribution(lo, hi): an integer in [lo, hi]. */
    method UniformInt(lo: int, hi: int) returns (k: int)
      requires draws != [] && lo <= hi
      modifies this
      ensures draws == old(draws)[1..]
      ensures k == UniformIntValue(lo, hi, old(draws)[0]) && lo <= k <= hi
    {
      var u := Next();
      k := UniformIntValue(lo, hi, u);
    }
  }
}
