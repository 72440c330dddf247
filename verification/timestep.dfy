/** One site of the ring (TimestepContainer): its position, the ids of its
    two neighbours and its angle. Sites are stored by value inside the
    lattice, so each operation that updates a site yields the updated site. */
module Timestep {
  import opened Numerics

  datatype Site = Site(id: int, idBefore: int, idAfter: int, phi: real)

  /** Site with a given id and angle: its neighbours are the ids on either side. */
  function SiteAt(id: int, phi: real): (s: Site)
    ensures s.id == id && s.phi == phi
    ensures s.idBefore + 1 == s.id == s.idAfter - 1
  {
    Site(id, id - 1, id + 1, phi)
  }

  /** The phi-only constructor: the site at id 1. */
  function SiteWithPhi(phi: real): (s: Site)
    ensures s == SiteAt(1, phi)
  {
    Site(1, 0, 2, phi)
  }

  /** The default constructor: the site at id 1 with angle 0. */
  function DefaultSite(): (s: Site)
    ensures s == SiteWithPhi(0.0)
  {
    Site(1, 0, 2, 0.0)
  }

  /** Reduce the angle by a whole number of turns into [-Pi, Pi]. */
  function Mod2Pi(s: Site): (r: Site)
    ensures r == s.(phi := r.phi)
    ensures -Pi <= r.phi <= Pi
    ensures var turns := (s.phi - r.phi) / TwoPi; turns == turns.Floor as real
  {
    var k := Round(s.phi / TwoPi);
    assert (s.phi - (s.phi - TwoPi * k as real)) / TwoPi == k as real;
    s.(phi := s.phi - TwoPi * k as real)
  }

  /** Rounding half away from zero sends both ends of [-Pi, Pi] to the other
      end, so the reduction is not idempotent there. */
  lemma Mod2PiSwapsEnds(s: Site)
    ensures s.phi == Pi ==> Mod2Pi(s).phi == -Pi && Mod2Pi(Mod2Pi(s)).phi == Pi
    ensures s.phi == -Pi ==> Mod2Pi(s).phi == Pi
  {
    if s.phi == Pi {
      assert s.phi / TwoPi == 0.5;
      var t := Mod2Pi(s);
      assert t.phi / TwoPi == -0.5;
    } else if s.phi == -Pi {
      assert s.phi / TwoPi == -0.5;
    }
  }

  /** Reflection of the angle about the axis `angle` (the site is not changed). */
  function ProjectedAngle(s: Site, angle: real): (r: real)
    ensures (r + s.phi) / 2.0 == angle + Pi / 2.0
    ensures Pi - r + 2.0 * angle == s.phi
  {
    Pi - s.phi + 2.0 * angle
  }

  /** Rotate the angle by sym/Nsym of a full turn. */
  function ApplySymmetrization(s: Site, sym: int, nsym: int): (r: Site)
    requires nsym != 0
    ensures r == s.(phi := r.phi)
    ensures sym == 0 ==> r == s
    ensures sym == nsym ==> r.phi == s.phi + TwoPi
  {
    s.(phi := s.phi + TwoPi * sym as real / nsym as real)
  }

  /** Two symmetrizations by the same Nsym compose into one. */
  lemma {:induction false} SymmetrizationsCompose(s: Site, sym1: int, sym2: int, nsym: int)
    requires nsym != 0
    ensures ApplySymmetrization(ApplySymmetrization(s, sym1, nsym), sym2, nsym)
         == ApplySymmetrization(s, sym1 + sym2, nsym)
  {
    var n := nsym as real;
    assert TwoPi * sym1 as real / n + TwoPi * sym2 as real / n == TwoPi * (sym1 + sym2) as real / n;
  }

  /** setRandom: the angle becomes a draw of uniform_real_distribution(0, 2Pi)
      computed from the canonical value u. */
  function WithRandomAngle(s: Site, u: real): (r: Site)
    requires 0.0 <= u < 1.0
    ensures r == s.(phi := r.phi)
    ensures 0.0 <= r.phi < TwoPi
  {
    s.(phi := Lerp(0.0, TwoPi, u))
  }
}
