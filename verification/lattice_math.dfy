/** The pure part of the lattice (LatticeContainer): ring indexing, the
    neighbour structure, and the action and observables as functions of the
    sites. The class in module Lattice computes these in loops. */
module LatticeMath {
  import opened Numerics
  import opened Timestep

  /** Tolerance of the half-winding test in the charge computation. */
  const ChargeTolerance: real := 0.000000000001

  // ---------------------------------------------------------------- indexing

  /** A position at most one turn outside 0 .. n-1, brought back onto the ring. */
  function Wrap(x: int, n: int): (r: int)
    requires n > 0 && -n <= x < 2 * n
    ensures 0 <= r < n && (r == x || r == x + n || r == x - n)
  {
    if x < 0 then x + n else if x < n then x else x - n
  }

  /** getId: the ring position of a possibly out-of-range index, with C's
      truncating `%`. */
  function GetId(i: int, xdim: int): (r: int)
    requires xdim > 0
    ensures i >= -xdim ==> 0 <= r < xdim
    ensures -xdim <= i < 2 * xdim ==> r == Wrap(i, xdim)
  {
    ModBand(i + xdim, xdim);
    TruncRem(i + xdim, xdim)
  }

  /** Euclidean remainder of a value within three periods. */
  lemma ModBand(x: int, n: int)
    requires n > 0
    ensures 0 <= x < n ==> x % n == x
    ensures n <= x < 2 * n ==> x % n == x - n
    ensures 2 * n <= x < 3 * n ==> x % n == x - 2 * n
  {
    if 0 <= x < 3 * n {
      var q := x / n;
      assert n * q == x - x % n;
      assert 0 <= q <= 2;
    }
  }

  /** Every neighbour id points into the ring. */
  predicate Linked(ts: seq<Site>)
  {
    forall i :: 0 <= i < |ts| ==> 0 <= ts[i].idBefore < |ts| && 0 <= ts[i].idAfter < |ts|
  }

  /** The right neighbour of ring position i: i+1, or 0 after the last site. */
  function After(i: int, n: int): int
  {
    if i == n - 1 then 0 else i + 1
  }

  /** The left neighbour of ring position i: i-1, or the last site before 0. */
  function Before(i: int, n: int): int
  {
    if i == 0 then n - 1 else i - 1
  }

  /** The closed ring: site i has id i and the neighbours i-1 and i+1
      around the ring. */
  predicate Periodic(ts: seq<Site>)
  {
    && Linked(ts)
    && forall i :: 0 <= i < |ts| ==>
         ts[i].id == i && ts[i].idBefore == Before(i, |ts|) && ts[i].idAfter == After(i, |ts|)
  }

  /** The neighbours of a periodic ring are those of C's modular indexing. */
  lemma PeriodicIsModular(ts: seq<Site>, i: int)
    requires Periodic(ts) && 0 <= i < |ts|
    ensures ts[i].idBefore == (i - 1 + |ts|) % |ts| && ts[i].idAfter == (i + 1) % |ts|
  {
    ModBand(i - 1 + |ts|, |ts|);
    ModBand(i + 1, |ts|);
  }

  /** Sites as the constructor leaves them: site i at id i with angle 0, an
      open chain whose ends point one past either end. */
  function Initial(n: nat): (ts: seq<Site>)
    ensures |ts| == n
    ensures forall i :: 0 <= i < n ==> ts[i] == SiteAt(i, 0.0)
  {
    seq(n, i => SiteAt(i, 0.0))
  }

  /** setPeriodicBoundaries on the sites: the first site's left neighbour
      becomes the last site and the last site's right neighbour the first. */
  function ClosedRing(ts: seq<Site>): (r: seq<Site>)
    requires |ts| > 0
    ensures |r| == |ts|
    ensures r[0].idBefore == |ts| - 1 && r[|ts| - 1].idAfter == 0
    ensures forall i :: 0 <= i < |ts| ==> r[i].id == ts[i].id && r[i].phi == ts[i].phi
    ensures forall i :: 0 < i < |ts| ==> r[i].idBefore == ts[i].idBefore
    ensures forall i :: 0 <= i < |ts| - 1 ==> r[i].idAfter == ts[i].idAfter
  {
    var n := |ts|;
    var first := ts[0 := ts[0].(idBefore := n - 1)];
    first[n - 1 := first[n - 1].(idAfter := 0)]
  }

  /** Closing the sites a constructor built yields the periodic ring. */
  lemma ClosedInitialIsPeriodic(ts: seq<Site>)
    requires |ts| > 0
    requires forall i :: 0 <= i < |ts| ==> ts[i].id == i && ts[i].idBefore == i - 1 && ts[i].idAfter == i + 1
    ensures Periodic(ClosedRing(ts))
  {}

  /** Closing a ring that is already periodic changes nothing. */
  lemma ClosingPeriodicIsIdentity(ts: seq<Site>)
    requires |ts| > 0 && Periodic(ts)
    ensures ClosedRing(ts) == ts
  {
    var r := ClosedRing(ts);
    forall i | 0 <= i < |ts| ensures r[i] == ts[i] {}
  }

  // ------------------------------------------------------------------ action

  /** getActionSummand: the action of the link from x to its right neighbour. */
  function ActionSummand(f: Analytic, I: real, a: real, ts: seq<Site>, x: int): (r: real)
    requires a != 0.0 && Linked(ts) && 0 <= x < |ts|
    ensures Admissible(f) && I / a >= 0.0 ==> r >= 0.0
    ensures Admissible(f) && ts[ts[x].idAfter].phi == ts[x].phi ==> r == 0.0
  {
    Scale(I / a, 1.0 - f.cos(ts[ts[x].idAfter].phi - ts[x].phi))
  }

  /** getLocalAction(x, t): the action of x's two links if x had the angle t. */
  function LocalAction(f: Analytic, I: real, a: real, ts: seq<Site>, x: int, t: real): (r: real)
    requires a != 0.0 && Linked(ts) && 0 <= x < |ts|
    ensures Admissible(f) && I / a >= 0.0 ==> r >= 0.0
    ensures Admissible(f) && ts[ts[x].idAfter].phi == t && ts[ts[x].idBefore].phi == t ==> r == 0.0
  {
    Scale(I / a, 1.0 - f.cos(ts[ts[x].idAfter].phi - t) + 1.0 - f.cos(t - ts[ts[x].idBefore].phi))
  }

  /** getLocalAction(x): the local action at the site's own angle. */
  function CurrentLocalAction(f: Analytic, I: real, a: real, ts: seq<Site>, x: int): (r: real)
    requires a != 0.0 && Linked(ts) && 0 <= x < |ts|
    ensures ts[ts[x].idBefore].idAfter == x ==>
      r == ActionSummand(f, I, a, ts, x) + ActionSummand(f, I, a, ts, ts[x].idBefore)
  {
    LocalAction(f, I, a, ts, x, ts[x].phi)
  }

  /** The local action reads only the trial angle and the angles of the two
      neighbours named by the site's ids. */
  lemma LocalActionIsLocal(f: Analytic, I: real, a: real, ts: seq<Site>, us: seq<Site>, x: int, t: real)
    requires a != 0.0 && Linked(ts) && Linked(us) && 0 <= x < |ts| && 0 <= x < |us|
    requires ts[x].idAfter == us[x].idAfter && ts[x].idBefore == us[x].idBefore
    requires ts[ts[x].idAfter].phi == us[us[x].idAfter].phi
    requires ts[ts[x].idBefore].phi == us[us[x].idBefore].phi
    ensures LocalAction(f, I, a, ts, x, t) == LocalAction(f, I, a, us, x, t)
  {}

  /** Sum of the first k summands, in index order. */
  function ActionUpTo(f: Analytic, I: real, a: real, ts: seq<Site>, k: int): real
    requires a != 0.0 && Linked(ts) && 0 <= k <= |ts|
  {
    if k == 0 then 0.0 else ActionUpTo(f, I, a, ts, k - 1) + ActionSummand(f, I, a, ts, k - 1)
  }

  /** getAction: the total action. */
  function Action(f: Analytic, I: real, a: real, ts: seq<Site>): real
    requires a != 0.0 && Linked(ts)
  {
    ActionUpTo(f, I, a, ts, |ts|)
  }

  /** All angles equal. */
  predicate Constant(ts: seq<Site>)
  {
    forall i :: 0 <= i < |ts| ==> ts[i].phi == ts[0].phi
  }

  lemma {:induction false} ConstantActionUpTo(f: Analytic, I: real, a: real, ts: seq<Site>, k: int)
    requires Admissible(f) && a != 0.0 && Linked(ts) && Constant(ts) && 0 <= k <= |ts|
    ensures ActionUpTo(f, I, a, ts, k) == 0.0
  {
    if k > 0 {
      ConstantActionUpTo(f, I, a, ts, k - 1);
      assert ts[ts[k - 1].idAfter].phi - ts[k - 1].phi == 0.0;
    }
  }

  /** A constant configuration has action 0. */
  lemma ConstantAction(f: Analytic, I: real, a: real, ts: seq<Site>)
    requires Admissible(f) && a != 0.0 && Linked(ts) && Constant(ts)
    ensures Action(f, I, a, ts) == 0.0
  {
    ConstantActionUpTo(f, I, a, ts, |ts|);
  }

  lemma {:induction false} ActionUpToNonNegative(f: Analytic, I: real, a: real, ts: seq<Site>, k: int)
    requires Admissible(f) && a != 0.0 && I / a >= 0.0 && Linked(ts) && 0 <= k <= |ts|
    ensures ActionUpTo(f, I, a, ts, k) >= 0.0
  {
    if k > 0 {
      ActionUpToNonNegative(f, I, a, ts, k - 1);
      var c := 1.0 - f.cos(ts[ts[k - 1].idAfter].phi - ts[k - 1].phi);
      assert c >= 0.0;
      NonNegativeProduct(I / a, c);
    }
  }

  lemma NonNegativeProduct(y: real, w: real)
    requires y >= 0.0 && w >= 0.0
    ensures Scale(y, w) >= 0.0
  {}

  /** With a non-negative coupling I/a the action is never negative. */
  lemma ActionNonNegative(f: Analytic, I: real, a: real, ts: seq<Site>)
    requires Admissible(f) && a != 0.0 && I / a >= 0.0 && Linked(ts)
    ensures Action(f, I, a, ts) >= 0.0
  {
    ActionUpToNonNegative(f, I, a, ts, |ts|);
  }

  // --------------------------------------------------------------- plaquette

  /** computeLocalPlaquetteAt: cos of the angle difference across the link. */
  function LocalPlaquette(f: Analytic, ts: seq<Site>, x: int): (r: real)
    requires Linked(ts) && 0 <= x < |ts|
    ensures Admissible(f) ==> -1.0 <= r <= 1.0
    ensures Admissible(f) && ts[ts[x].idAfter].phi == ts[x].phi ==> r == 1.0
  {
    f.cos(ts[ts[x].idAfter].phi - ts[x].phi)
  }

  function PlaquetteUpTo(f: Analytic, ts: seq<Site>, k: int): real
    requires Linked(ts) && 0 <= k <= |ts|
  {
    if k == 0 then 0.0 else PlaquetteUpTo(f, ts, k - 1) + LocalPlaquette(f, ts, k - 1)
  }

  /** computePlaquette: the mean of the local plaquettes. */
  function Plaquette(f: Analytic, ts: seq<Site>): real
    requires Linked(ts) && |ts| > 0
  {
    PlaquetteUpTo(f, ts, |ts|) / |ts| as real
  }

  lemma {:induction false} ConstantPlaquetteUpTo(f: Analytic, ts: seq<Site>, k: int)
    requires Admissible(f) && Linked(ts) && Constant(ts) && 0 <= k <= |ts|
    ensures PlaquetteUpTo(f, ts, k) == k as real
  {
    if k > 0 {
      ConstantPlaquetteUpTo(f, ts, k - 1);
      assert ts[ts[k - 1].idAfter].phi - ts[k - 1].phi == 0.0;
    }
  }

  /** A constant configuration has plaquette 1. */
  lemma ConstantPlaquette(f: Analytic, ts: seq<Site>)
    requires Admissible(f) && Linked(ts) && Constant(ts) && |ts| > 0
    ensures Plaquette(f, ts) == 1.0
  {
    ConstantPlaquetteUpTo(f, ts, |ts|);
  }

  // ---------------------------------------------------------------- charge

  /** The contribution of one link with angle difference d to the charge sum:
      Pi on the branch cut (within the tolerance), otherwise d reduced to the
      nearest branch. */
  function ChargeLink(d: real): (r: real)
    ensures -Pi <= r <= Pi
    ensures Abs(Fmod(d - Pi, TwoPi)) <= ChargeTolerance ==> r == Pi
  {
    if Abs(Fmod(d - Pi, TwoPi)) <= ChargeTolerance then Pi
    else d - TwoPi * Round(d / TwoPi) as real
  }

  /** Every link contributes d up to a whole number of turns, except on the
      branch cut where Pi is forced. */
  lemma ChargeLinkIsReducedDifference(d: real)
    ensures Abs(Fmod(d - Pi, TwoPi)) > ChargeTolerance ==>
      var turns := (d - ChargeLink(d)) / TwoPi; turns == turns.Floor as real
  {
    var k := Round(d / TwoPi);
    assert (d - (d - TwoPi * k as real)) / TwoPi == k as real;
  }

  function LinkDifference(ts: seq<Site>, i: int): real
    requires Linked(ts) && 0 <= i < |ts|
  {
    ts[ts[i].idAfter].phi - ts[i].phi
  }

  function ChargeSumUpTo(ts: seq<Site>, k: int): (r: real)
    requires Linked(ts) && 0 <= k <= |ts|
    ensures -(k as real) * Pi <= r <= k as real * Pi
  {
    if k == 0 then 0.0 else ChargeSumUpTo(ts, k - 1) + ChargeLink(LinkDifference(ts, k - 1))
  }

  /** computeQ: the winding number, the charge sum over 2 Pi; it never
      exceeds half the ring size in magnitude. */
  function Charge(ts: seq<Site>): (q: real)
    requires Linked(ts)
    ensures Abs(q) <= |ts| as real / 2.0
  {
    Turns(ChargeSumUpTo(ts, |ts|))
  }

  /** An angle measured in whole turns. */
  function Turns(angle: real): real
  {
    1.0 / TwoPi * angle
  }

  lemma {:induction false} ConstantChargeSumUpTo(ts: seq<Site>, k: int)
    requires Linked(ts) && Constant(ts) && 0 <= k <= |ts|
    ensures ChargeSumUpTo(ts, k) == 0.0
  {
    if k > 0 {
      ConstantChargeSumUpTo(ts, k - 1);
      assert LinkDifference(ts, k - 1) == 0.0;
      assert Fmod(0.0 - Pi, TwoPi) == -Pi by {
        assert (0.0 - Pi) / TwoPi == -0.5;
      }
    }
  }

  /** A constant configuration has charge 0. */
  lemma ConstantCharge(ts: seq<Site>)
    requires Linked(ts) && Constant(ts)
    ensures Charge(ts) == 0.0
  {
    ConstantChargeSumUpTo(ts, |ts|);
  }

  /** Four sites at 0, Pi/2, Pi and 3Pi/2 on a closed ring wind once. */
  lemma OneWinding()
    ensures var ts := [Site(0, 3, 1, 0.0), Site(1, 0, 2, Pi / 2.0),
                       Site(2, 1, 3, Pi), Site(3, 2, 0, 3.0 * Pi / 2.0)];
            Linked(ts) && Periodic(ts) && Charge(ts) == 1.0
  {
    var ts := [Site(0, 3, 1, 0.0), Site(1, 0, 2, Pi / 2.0),
               Site(2, 1, 3, Pi), Site(3, 2, 0, 3.0 * Pi / 2.0)];
    assert Linked(ts);
    QuarterTurnLink();
    assert ChargeLink(LinkDifference(ts, 0)) == Pi / 2.0;
    assert ChargeLink(LinkDifference(ts, 1)) == Pi / 2.0;
    assert ChargeLink(LinkDifference(ts, 2)) == Pi / 2.0;
    WrapLink();
    assert LinkDifference(ts, 3) == -3.0 * Pi / 2.0;
    assert ChargeSumUpTo(ts, 1) == Pi / 2.0;
    assert ChargeSumUpTo(ts, 2) == Pi;
    assert ChargeSumUpTo(ts, 3) == 3.0 * Pi / 2.0;
    assert ChargeSumUpTo(ts, 4) == TwoPi;
  }

  lemma QuarterTurnLink()
    ensures ChargeLink(Pi / 2.0) == Pi / 2.0
  {
    assert (Pi / 2.0 - Pi) / TwoPi == -0.25;
    assert Fmod(Pi / 2.0 - Pi, TwoPi) == -Pi / 2.0;
    assert (Pi / 2.0) / TwoPi == 0.25;
  }

  lemma WrapLink()
    ensures ChargeLink(-3.0 * Pi / 2.0) == Pi / 2.0
  {
    assert (-3.0 * Pi / 2.0 - Pi) / TwoPi == -1.25;
    assert Fmod(-3.0 * Pi / 2.0 - Pi, TwoPi) == -Pi / 2.0;
    assert (-3.0 * Pi / 2.0) / TwoPi == -0.75;
  }

  // ------------------------------------------------------------- mean values

  function PhiSumUpTo(ts: seq<Site>, k: int): real
    requires 0 <= k <= |ts|
  {
    if k == 0 then 0.0 else PhiSumUpTo(ts, k - 1) + ts[k - 1].phi
  }

  /** All angles equal the first one. */
  predicate ConstantAngles(ts: seq<Site>)
    requires |ts| > 0
  {
    forall i :: 0 <= i < |ts| ==> ts[i].phi == ts[0].phi
  }

  lemma {:induction false} PhiSumConstant(ts: seq<Site>, k: int)
    requires 0 <= k <= |ts| && |ts| > 0
    ensures ConstantAngles(ts) ==> PhiSumUpTo(ts, k) == k as real * ts[0].phi
  {
    if k > 0 {
      PhiSumConstant(ts, k - 1);
    }
  }

  /** computeMeanPhi: on a configuration with one angle everywhere, the
      mean is that angle. */
  function MeanPhi(ts: seq<Site>): (r: real)
    requires |ts| > 0
    ensures ConstantAngles(ts) ==> r == ts[0].phi
  {
    PhiSumConstant(ts, |ts|);
    PhiSumUpTo(ts, |ts|) / |ts| as real
  }

  function PhiSqSumUpTo(ts: seq<Site>, k: int): (r: real)
    requires 0 <= k <= |ts|
    ensures r >= 0.0
  {
    if k == 0 then 0.0 else PhiSqSumUpTo(ts, k - 1) + ts[k - 1].phi * ts[k - 1].phi
  }

  /** computeMeanPhiSq. */
  function MeanPhiSq(ts: seq<Site>): (r: real)
    requires |ts| > 0
    ensures r >= 0.0
  {
    PhiSqSumUpTo(ts, |ts|) / |ts| as real
  }

  // ------------------------------------------------------------ correlation

  /** Sum over i < k of phi[i] * phi[(i + j) mod xdim]. */
  function CorrSumUpTo(ts: seq<Site>, j: int, k: int): real
    requires |ts| > 0 && 0 <= j < |ts| && 0 <= k <= |ts|
  {
    if k == 0 then 0.0
    else CorrSumUpTo(ts, j, k - 1) + ts[k - 1].phi * ts[GetId(k - 1 + j, |ts|)].phi
  }

  lemma {:induction false} CorrSumConstant(ts: seq<Site>, j: int, k: int)
    requires |ts| > 0 && 0 <= j < |ts| && 0 <= k <= |ts|
    ensures ConstantAngles(ts) ==> CorrSumUpTo(ts, j, k) == k as real * (ts[0].phi * ts[0].phi)
  {
    if k > 0 {
      CorrSumConstant(ts, j, k - 1);
    }
  }

  /** corr[j] after computeCorr: on a configuration with one angle
      everywhere, every separation gives that angle squared. */
  function CorrAt(ts: seq<Site>, j: int): (r: real)
    requires |ts| > 0 && 0 <= j < |ts|
    ensures ConstantAngles(ts) ==> r == ts[0].phi * ts[0].phi
  {
    CorrSumConstant(ts, j, |ts|);
    CorrSumUpTo(ts, j, |ts|) / |ts| as real
  }

  lemma {:induction false} CorrSumAtZero(ts: seq<Site>, k: int)
    requires |ts| > 0 && 0 <= k <= |ts|
    ensures CorrSumUpTo(ts, 0, k) == PhiSqSumUpTo(ts, k)
  {
    if k > 0 {
      CorrSumAtZero(ts, k - 1);
      assert GetId(k - 1 + 0, |ts|) == k - 1;
    }
  }

  /** The correlation at separation 0 is the mean squared angle. */
  lemma CorrAtZeroIsMeanPhiSq(ts: seq<Site>)
    requires |ts| > 0
    ensures CorrAt(ts, 0) == MeanPhiSq(ts)
  {
    CorrSumAtZero(ts, |ts|);
  }
}
