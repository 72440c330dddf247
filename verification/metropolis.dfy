/** The Metropolis update: one sweep visits the sites in increasing order,
    proposes a new angle for each and accepts it by comparing a draw with
    exp(-dS), where dS is the change of the site's local action on the
    lattice as already updated earlier in the same sweep. */
module Metropolis {
  import opened Numerics
  import opened Timestep
  import opened LatticeMath
  import opened Random
  import opened Lattice
  import Parameters

  // ------------------------------------------------------------ one site

  /** The move deltaIn * (2x - 1) of a draw x in [0, 1) is at most |deltaIn|. */
  lemma MoveWithinDelta(delta: real, x: Draw)
    ensures Abs(Scale(delta, 2.0 * x - 1.0)) <= Abs(delta)
  {
    if delta > 0.0 {
      ScaleBelow(2.0 * delta, x);
      assert Scale(delta, 2.0 * x - 1.0) == Scale(2.0 * delta, x) - delta;
    } else if delta < 0.0 {
      ScaleBelow(-2.0 * delta, x);
      assert Scale(delta, 2.0 * x - 1.0) == -Scale(-2.0 * delta, x) - delta;
    }
  }

  /** The proposed angle: phi moved by deltaIn * (2x - 1), where x is the
      uniform draw in [0, 1). It stays within |deltaIn| of the old angle,
      and a zero width proposes the old angle. */
  function Proposal(phi: real, delta: real, x: Draw): (t: real)
    ensures Abs(t - phi) <= Abs(delta)
    ensures delta == 0.0 ==> t == phi
  {
    MoveWithinDelta(delta, x);
    phi + Scale(delta, 2.0 * x - 1.0)
  }

  /** The change of the local action at site x when its angle goes from its
      current value to t. */
  function ActionChange(f: Analytic, I: real, a: real, ts: seq<Site>, x: int, t: real): real
    requires a != 0.0 && Linked(ts) && 0 <= x < |ts|
  {
    LocalAction(f, I, a, ts, x, t) - LocalAction(f, I, a, ts, x, ts[x].phi)
  }

  /** The acceptance test: the second draw is at most exp(-dS). A
      proposal that lowers or keeps the local action is always accepted. */
  predicate Accepts(f: Analytic, I: real, a: real, ts: seq<Site>, x: int, t: real, u: Draw)
    requires a != 0.0 && Linked(ts) && 0 <= x < |ts|
    ensures Admissible(f) && ActionChange(f, I, a, ts, x, t) <= 0.0 ==> Accepts(f, I, a, ts, x, t, u)
  {
    var d := -ActionChange(f, I, a, ts, x, t);
    assert Admissible(f) && d > 0.0 ==> f.exp(d) > 1.0;
    u <= f.exp(d)
  }

  // ------------------------------------------------------------ the sweep

  /** The neighbour structure is kept: only angles differ. */
  predicate SameLinks(ts: seq<Site>, us: seq<Site>)
  {
    && |us| == |ts|
    && forall i :: 0 <= i < |ts| ==>
         us[i].id == ts[i].id && us[i].idBefore == ts[i].idBefore && us[i].idAfter == ts[i].idAfter
  }

  /** The sites after a part of a sweep, and how many proposals were accepted. */
  datatype SweepState = SweepState(sites: seq<Site>, accepted: int)

  lemma SameLinksLinked(ts: seq<Site>, us: seq<Site>)
    requires Linked(ts) && SameLinks(ts, us)
    ensures Linked(us)
  {}

  /** An acceptance test: it answers for the current sites, a site, the
      proposed angle and the acceptance draw. */
  type Test = (seq<Site>, int, real, Draw) --> bool

  /** The test can be asked about any site of a linked ring. */
  ghost predicate Defined(test: Test)
  {
    forall ts: seq<Site>, x: int, t: real, u: Draw :: Linked(ts) && 0 <= x < |ts| ==> test.requires(ts, x, t, u)
  }

  /** The test of metropolis.cpp on a lattice with coupling I and spacing a. */
  function MetropolisTest(f: Analytic, I: real, a: real): (test: Test)
    requires a != 0.0
    ensures Defined(test)
  {
    (ts: seq<Site>, x: int, t: real, u: Draw) requires Linked(ts) && 0 <= x < |ts| =>
      Accepts(f, I, a, ts, x, t, u)
  }

  /** The visit of site i: a proposal from the site's current angle, judged
      on the current sites; only site i may change, and only its angle. */
  function Visit(test: Test, st: SweepState, delta: real, i: int, x: Draw, u: Draw): (r: SweepState)
    requires Defined(test) && Linked(st.sites) && 0 <= i < |st.sites|
    ensures SameLinks(st.sites, r.sites)
    ensures forall j :: 0 <= j < |st.sites| && j != i ==> r.sites[j] == st.sites[j]
    ensures r.accepted == st.accepted || r.accepted == st.accepted + 1
  {
    var phiNew := Proposal(st.sites[i].phi, delta, x);
    if test(st.sites, i, phiNew, u) then
      SweepState(st.sites[i := st.sites[i].(phi := phiNew)], st.accepted + 1)
    else
      st
  }

  /** The first k sites of a sweep: site i uses draws 2i (proposal) and 2i+1
      (acceptance) and sees the sites before it already updated. */
  function SweepUpTo(test: Test, ts: seq<Site>, delta: real, ds: seq<Draw>, k: nat): (r: SweepState)
    requires Defined(test) && Linked(ts) && k <= |ts| && 2 * k <= |ds|
    ensures SameLinks(ts, r.sites) && 0 <= r.accepted <= k
    decreases k
  {
    if k == 0 then SweepState(ts, 0)
    else
      var prev := SweepUpTo(test, ts, delta, ds, k - 1);
      SameLinksLinked(ts, prev.sites);
      Visit(test, prev, delta, k - 1, ds[2 * (k - 1)], ds[2 * (k - 1) + 1])
  }

  /** doStep(seed, deltaIn) on the sites: a full sweep with the Metropolis test. */
  function Sweep(f: Analytic, I: real, a: real, ts: seq<Site>, delta: real, ds: seq<Draw>): (r: SweepState)
    requires a != 0.0 && Linked(ts) && 2 * |ts| <= |ds|
    ensures SameLinks(ts, r.sites) && 0 <= r.accepted <= |ts|
  {
    SweepUpTo(MetropolisTest(f, I, a), ts, delta, ds, |ts|)
  }

  /** Sites at and after position k have not been visited yet. */
  lemma {:induction false} SweepLeavesRest(test: Test, ts: seq<Site>, delta: real, ds: seq<Draw>, k: nat, j: int)
    requires Defined(test) && Linked(ts) && k <= |ts| && 2 * k <= |ds|
    requires k <= j < |ts|
    ensures SweepUpTo(test, ts, delta, ds, k).sites[j] == ts[j]
    decreases k
  {
    if k > 0 {
      SweepLeavesRest(test, ts, delta, ds, k - 1, j);
    }
  }

  /** A visited site is never visited again. */
  lemma {:induction false} SweepKeepsVisited(test: Test, ts: seq<Site>, delta: real, ds: seq<Draw>, k: nat, m: nat, j: int)
    requires Defined(test) && Linked(ts) && k <= m <= |ts| && 2 * m <= |ds|
    requires 0 <= j < k
    ensures SweepUpTo(test, ts, delta, ds, m).sites[j] == SweepUpTo(test, ts, delta, ds, k).sites[j]
    decreases m
  {
    if m > k {
      SweepKeepsVisited(test, ts, delta, ds, k, m - 1, j);
    }
  }

  /** The fate of site j once the sweep has passed it: its proposal is made
      from its pre-sweep angle and judged on the sites as updated for the
      sites before it; accepted, the site takes the proposal, rejected, it
      keeps its angle exactly. */
  lemma SweepSite(test: Test, ts: seq<Site>, delta: real, ds: seq<Draw>, j: int, m: nat)
    requires Defined(test) && Linked(ts) && m <= |ts| && 2 * m <= |ds|
    requires 0 <= j < m
    ensures var seen := SweepUpTo(test, ts, delta, ds, j).sites;
            var phiNew := Proposal(ts[j].phi, delta, ds[2 * j]);
      && seen[j] == ts[j]
      && Linked(seen)
      && SweepUpTo(test, ts, delta, ds, m).sites[j] ==
           (if test(seen, j, phiNew, ds[2 * j + 1]) then ts[j].(phi := phiNew) else ts[j])
  {
    SweepLeavesRest(test, ts, delta, ds, j, j);
    SweepKeepsVisited(test, ts, delta, ds, j + 1, m, j);
    SameLinksLinked(ts, SweepUpTo(test, ts, delta, ds, j).sites);
  }

  /** On a closed ring the first site sees the last site's pre-sweep angle,
      and every later site sees its left neighbour's updated angle and its
      right neighbour's pre-sweep angle. */
  lemma SweepNeighbours(test: Test, ts: seq<Site>, delta: real, ds: seq<Draw>, j: int)
    requires Defined(test) && Periodic(ts) && 2 * |ts| <= |ds|
    requires 0 <= j < |ts|
    ensures var seen := SweepUpTo(test, ts, delta, ds, j).sites;
            var swept := SweepUpTo(test, ts, delta, ds, |ts|).sites;
      && (j == 0 ==> seen[seen[j].idBefore] == ts[|ts| - 1])
      && (j > 0 ==> seen[seen[j].idBefore] == swept[j - 1])
      && (j < |ts| - 1 ==> seen[seen[j].idAfter] == ts[j + 1])
  {
    var n := |ts|;
    var seen := SweepUpTo(test, ts, delta, ds, j).sites;
    assert seen[j].idBefore == Before(j, n) && seen[j].idAfter == After(j, n);
    if j == 0 {
      SweepLeavesRest(test, ts, delta, ds, 0, n - 1);
    } else {
      SweepKeepsVisited(test, ts, delta, ds, j, n, j - 1);
    }
    if j < n - 1 {
      SweepLeavesRest(test, ts, delta, ds, j, j + 1);
    }
  }

  /** No angle moves by more than |deltaIn| in a sweep. */
  lemma SweepMovesWithinDelta(test: Test, ts: seq<Site>, delta: real, ds: seq<Draw>)
    requires Defined(test) && Linked(ts) && 2 * |ts| <= |ds|
    ensures var r := SweepUpTo(test, ts, delta, ds, |ts|).sites;
      forall j :: 0 <= j < |ts| ==> Abs(r[j].phi - ts[j].phi) <= Abs(delta)
  {
    forall j | 0 <= j < |ts|
      ensures Abs(SweepUpTo(test, ts, delta, ds, |ts|).sites[j].phi - ts[j].phi) <= Abs(delta)
    {
      SweepSite(test, ts, delta, ds, j, |ts|);
    }
  }

  /** The test accepts a proposal equal to the current angle. */
  ghost predicate AcceptsUnchanged(test: Test)
    requires Defined(test)
  {
    forall ts: seq<Site>, x: int, u: Draw :: Linked(ts) && 0 <= x < |ts| ==> test(ts, x, ts[x].phi, u)
  }

  /** With an admissible exp the Metropolis test accepts an unchanged angle:
      dS is 0 and exp(0) = 1 is not below any draw. */
  lemma MetropolisAcceptsUnchanged(f: Analytic, I: real, a: real)
    requires Admissible(f) && a != 0.0
    ensures AcceptsUnchanged(MetropolisTest(f, I, a))
  {
    forall ts: seq<Site>, x: int, u: Draw | Linked(ts) && 0 <= x < |ts|
      ensures MetropolisTest(f, I, a)(ts, x, ts[x].phi, u)
    {
      assert ActionChange(f, I, a, ts, x, ts[x].phi) == 0.0;
    }
  }

  /** With deltaIn = 0 every proposal is the old angle: a test that accepts
      it leaves the sites as they were and accepts at every site. */
  lemma {:induction false} ZeroWidthSweepUpTo(test: Test, ts: seq<Site>, ds: seq<Draw>, k: nat)
    requires Defined(test) && AcceptsUnchanged(test) && Linked(ts) && k <= |ts| && 2 * k <= |ds|
    ensures SweepUpTo(test, ts, 0.0, ds, k) == SweepState(ts, k)
    decreases k
  {
    if k > 0 {
      ZeroWidthSweepUpTo(test, ts, ds, k - 1);
      var i := k - 1;
      assert test(ts, i, ts[i].phi, ds[2 * i + 1]);
      assert ts[i := ts[i].(phi := ts[i].phi)] == ts;
    }
  }

  /** doStep with deltaIn = 0 changes no angle and has acceptance 1. */
  lemma ZeroWidthSweep(f: Analytic, I: real, a: real, ts: seq<Site>, ds: seq<Draw>)
    requires Admissible(f) && a != 0.0 && Linked(ts) && 2 * |ts| <= |ds|
    ensures Sweep(f, I, a, ts, 0.0, ds) == SweepState(ts, |ts|)
  {
    MetropolisAcceptsUnchanged(f, I, a);
    ZeroWidthSweepUpTo(MetropolisTest(f, I, a), ts, ds, |ts|);
  }

  /** One more site of a sweep, in the terms the loop of doStep computes:
      the proposal from the current angle and the Metropolis decision. */
  lemma SweepAdvance(f: Analytic, I: real, a: real, ts: seq<Site>, delta: real, ds: seq<Draw>, i: nat,
                     st: SweepState, phiNew: real, accepted: bool)
    requires a != 0.0 && Linked(ts) && i < |ts| && 2 * |ts| <= |ds|
    requires st == SweepUpTo(MetropolisTest(f, I, a), ts, delta, ds, i)
    requires Linked(st.sites) && |st.sites| == |ts|
    requires phiNew == Proposal(st.sites[i].phi, delta, ds[2 * i])
    requires accepted <==> Accepts(f, I, a, st.sites, i, phiNew, ds[2 * i + 1])
    ensures SweepUpTo(MetropolisTest(f, I, a), ts, delta, ds, i + 1) ==
      if accepted then SweepState(st.sites[i := st.sites[i].(phi := phiNew)], st.accepted + 1) else st
  {
    assert 2 * (i + 1 - 1) == 2 * i;
  }

  /** acceptance: the accepted fraction of the sites. */
  function Acceptance(accepted: int, xdim: int): (r: real)
    requires 0 <= accepted <= xdim && xdim > 0
    ensures 0.0 <= r <= 1.0
    ensures r == 1.0 <==> accepted == xdim
  {
    accepted as real / xdim as real
  }

  /** The body of the sweep loop for site i: draw the proposal, compute the
      change of the local action, draw the acceptance value and test it. */
  method ProposeAndTest(f: Analytic, I: real, a: real, ts: seq<Site>, delta: real, i: int, gen: Generator)
    returns (phiNew: real, accepted: bool)
    requires a != 0.0 && Linked(ts) && 0 <= i < |ts| && |gen.draws| >= 2
    modifies gen
    ensures phiNew == Proposal(ts[i].phi, delta, old(gen.draws)[0])
    ensures accepted <==> Accepts(f, I, a, ts, i, phiNew, old(gen.draws)[1])
    ensures gen.draws == old(gen.draws)[2..]
  {
    var x := gen.UniformReal(0.0, 1.0);
    var r := 2.0 * x - 1.0;
    var phiOld := ts[i].phi;
    phiNew := phiOld + Scale(delta, r);
    var deltaS := LocalAction(f, I, a, ts, i, phiNew) - LocalAction(f, I, a, ts, i, phiOld);
    var r2 := gen.UniformReal(0.0, 1.0);
    accepted := r2 <= f.exp(-deltaS);
  }

  /** The loop of doStep(seed, deltaIn): sites 0 .. xdim-1 in increasing
      order, each accepted angle written into the sites in place. */
  method SweepSites(f: Analytic, I: real, a: real, ts: seq<Site>, deltaIn: real, gen: Generator)
    returns (sites: seq<Site>, acceptCount: int)
    requires a != 0.0 && Linked(ts) && |gen.draws| >= 2 * |ts|
    modifies gen
    ensures SweepState(sites, acceptCount) == Sweep(f, I, a, ts, deltaIn, old(gen.draws))
    ensures gen.draws == old(gen.draws)[2 * |ts|..]
  {
    ghost var ds := gen.draws;
    sites, acceptCount := ts, 0;
    var i := 0;
    while i < |ts|
      invariant 0 <= i <= |ts|
      invariant SweepState(sites, acceptCount) == SweepUpTo(MetropolisTest(f, I, a), ts, deltaIn, ds, i)
      invariant gen.draws == ds[2 * i..]
    {
      sites, acceptCount := SweepStep(f, I, a, ts, deltaIn, ds, i, sites, acceptCount, gen);
      i := i + 1;
    }
  }

  /** The body of the sweep loop for site i: propose, test, and write the
      accepted angle in place. */
  method SweepStep(f: Analytic, I: real, a: real, ghost ts: seq<Site>, deltaIn: real, ghost ds: seq<Draw>, i: nat,
                   sites: seq<Site>, acceptCount: int, gen: Generator)
    returns (sites': seq<Site>, acceptCount': int)
    requires a != 0.0 && Linked(ts) && i < |ts| && 2 * |ts| <= |ds|
    requires SweepState(sites, acceptCount) == SweepUpTo(MetropolisTest(f, I, a), ts, deltaIn, ds, i)
    requires gen.draws == ds[2 * i..]
    modifies gen
    ensures SweepState(sites', acceptCount') == SweepUpTo(MetropolisTest(f, I, a), ts, deltaIn, ds, i + 1)
    ensures gen.draws == ds[2 * (i + 1)..]
  {
    SameLinksLinked(ts, sites);
    var phiNew, accepted := ProposeAndTest(f, I, a, sites, deltaIn, i, gen);
    SweepAdvance(f, I, a, ts, deltaIn, ds, i, SweepState(sites, acceptCount), phiNew, accepted);
    sites', acceptCount' := sites, acceptCount;
    if accepted {
      sites' := sites'[i := sites'[i].(phi := phiNew)];
      acceptCount' := acceptCount' + 1;
    }
  }

  // ------------------------------------------------------------ the container

  class MetropolisContainer {
    var lattice: LatticeContainer
    var delta: real
    var acceptance: real

    /** The container works on the given lattice (not a copy), with the
        proposal width deltaMetro of the parameters and acceptance 0. */
    constructor (l: LatticeContainer, p: Parameters.Settings)
      ensures lattice == l && delta == p.deltaMetro && acceptance == 0.0
    {
      lattice, delta, acceptance := l, p.deltaMetro, 0.0;
    }

    /** The lattice a sweep can run on: a site per position, neighbour ids
        inside the ring, and a non-zero spacing. */
    predicate Ready()
      reads this`lattice, lattice`tslice, lattice`xdim, lattice`a
    {
      |lattice.tslice| == lattice.xdim && lattice.xdim >= 1 && Linked(lattice.tslice) && lattice.a != 0.0
    }

    /** doStep(seed, deltaIn): one sweep over the sites in increasing order;
        then algorithm 'm' and the accepted fraction. */
    method DoStepWithDelta(f: Analytic, gen: Generator, deltaIn: real)
      requires Ready()
      requires |gen.draws| >= 2 * lattice.xdim
      modifies this`acceptance, gen, lattice`tslice, lattice`algorithm
      ensures Ready() && lattice.algorithm == 'm'
      ensures var r := Sweep(f, old(lattice.I), old(lattice.a), old(lattice.tslice), deltaIn, old(gen.draws));
        && lattice.tslice == r.sites
        && acceptance == Acceptance(r.accepted, |old(lattice.tslice)|)
        && gen.draws == old(gen.draws)[2 * |old(lattice.tslice)|..]
    {
      var acceptCount;
      lattice.tslice, acceptCount := SweepSites(f, lattice.I, lattice.a, lattice.tslice, deltaIn, gen);
      lattice.algorithm := 'm';
      acceptance := acceptCount as real / lattice.xdim as real;
    }

    /** doStep(seed): a sweep with the width fixed at construction. */
    method DoStep(f: Analytic, gen: Generator)
      requires Ready()
      requires |gen.draws| >= 2 * lattice.xdim
      modifies this`acceptance, gen, lattice`tslice, lattice`algorithm
      ensures Ready() && lattice.algorithm == 'm'
      ensures var r := Sweep(f, old(lattice.I), old(lattice.a), old(lattice.tslice), delta, old(gen.draws));
        && lattice.tslice == r.sites
        && acceptance == Acceptance(r.accepted, |old(lattice.tslice)|)
        && gen.draws == old(gen.draws)[2 * |old(lattice.tslice)|..]
    {
      DoStepWithDelta(f, gen, delta);
    }
  }
}
