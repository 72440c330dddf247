/** ClusterContainer: the single-cluster update. A random reflection angle
    and a random start site are drawn; bonds to the right and then to the
    left of the start are accepted one at a time with the bond probability
    until one is rejected or the cluster covers the ring; every angle in
    the cluster is then reflected about the drawn angle. */
module Cluster {
  import opened Numerics
  import opened Timestep
  import opened LatticeMath
  import opened Random
  import opened Lattice

  // ------------------------------------------------------------ ring walks

  /** The weight of the link from index to its right neighbour for the
      reflection angle: (I/a) cos(angle - phi_index) cos(angle - phi_next). */
  function BondWeight(f: Analytic, I: real, a: real, ts: seq<Site>, angle: real, index: int): real
    requires a != 0.0 && Linked(ts) && 0 <= index < |ts|
  {
    (I / a) * f.cos(angle - ts[index].phi) * f.cos(angle - ts[ts[index].idAfter].phi)
  }

  /** getBondProbability: the probability 1 - exp(-2 w) that the link from
      index to its right neighbour joins the cluster. */
  function BondProbability(f: Analytic, I: real, a: real, ts: seq<Site>, angle: real, index: int): (p: real)
    requires a != 0.0 && Linked(ts) && 0 <= index < |ts|
    ensures Admissible(f) ==> p < 1.0
  {
    1.0 - f.exp(-2.0 * BondWeight(f, I, a, ts, angle, index))
  }

  /** The bond probability is positive, zero or negative with the weight
      (a negative one is never accepted by a draw in [0, 1)). */
  lemma BondProbabilitySign(f: Analytic, I: real, a: real, ts: seq<Site>, angle: real, index: int)
    requires Admissible(f) && a != 0.0 && Linked(ts) && 0 <= index < |ts|
    ensures var w := BondWeight(f, I, a, ts, angle, index);
            var p := BondProbability(f, I, a, ts, angle, index);
            (w > 0.0 ==> p > 0.0) && (w == 0.0 ==> p == 0.0) && (w < 0.0 ==> p < 0.0)
  {
    var e := -2.0 * BondWeight(f, I, a, ts, angle, index);
    assert f.exp(e) > 0.0;
  }

  /** getBondProbability for every link of the ring, indexed by the link's
      left site. The walks below are written against such a function p. */
  function LinkProbability(f: Analytic, I: real, a: real, ts: seq<Site>, angle: real): (p: int --> real)
    requires a != 0.0 && Linked(ts)
    ensures Total(p, |ts|)
  {
    k requires 0 <= k < |ts| => BondProbability(f, I, a, ts, angle, k)
  }

  lemma LinkProbabilityAt(f: Analytic, I: real, a: real, ts: seq<Site>, angle: real, k: int)
    requires a != 0.0 && Linked(ts) && 0 <= k < |ts|
    ensures LinkProbability(f, I, a, ts, angle)(k) == BondProbability(f, I, a, ts, angle, k)
  {}

  /** Every link probability is below 1. */
  lemma LinkProbabilityBelowOne(f: Analytic, I: real, a: real, ts: seq<Site>, angle: real)
    requires Admissible(f) && a != 0.0 && Linked(ts)
    ensures forall k :: 0 <= k < |ts| ==> LinkProbability(f, I, a, ts, angle)(k) < 1.0
  {
    forall k | 0 <= k < |ts| ensures LinkProbability(f, I, a, ts, angle)(k) < 1.0 {
      LinkProbabilityAt(f, I, a, ts, angle, k);
    }
  }

  /** p is defined on every site of a ring of n sites. */
  ghost predicate Total(p: int --> real, n: int)
  {
    forall k :: 0 <= k < n ==> p.requires(k)
  }

  /** Probabilities of the links the right walk tries, step by step: the
      t-th step tries the link from ring position start + t to its right
      neighbour. */
  function RightProbs(p: int --> real, n: int, start: int): (ps: seq<real>)
    requires 0 <= start < n && Total(p, n)
    ensures |ps| == n
  {
    RightLinks(p, n, start, n)
  }

  function RightLinks(p: int --> real, n: int, start: int, k: nat): (ps: seq<real>)
    requires 0 <= start < n && Total(p, n) && k <= n
    ensures |ps| == k
  {
    if k == 0 then [] else RightLinks(p, n, start, k - 1) + [p(Wrap(start + (k - 1), n))]
  }

  lemma {:induction false} RightLinksAt(p: int --> real, n: int, start: int, k: nat, t: int)
    requires 0 <= start < n && Total(p, n) && 0 <= t < k <= n
    ensures RightLinks(p, n, start, k)[t] == p(Wrap(start + t, n))
  {
    if t < k - 1 {
      RightLinksAt(p, n, start, k - 1, t);
    }
  }

  lemma RightProbsAt(p: int --> real, n: int, start: int, t: int)
    requires 0 <= start < n && Total(p, n) && 0 <= t < n
    ensures RightProbs(p, n, start)[t] == p(Wrap(start + t, n))
  {
    RightLinksAt(p, n, start, n, t);
  }

  /** Probabilities of the links the left walk tries: the t-th step tries
      the link from ring position start - t - 1 to its right neighbour. */
  function LeftProbs(p: int --> real, n: int, start: int): (ps: seq<real>)
    requires 0 <= start < n && Total(p, n)
    ensures |ps| == n
  {
    LeftLinks(p, n, start, n)
  }

  function LeftLinks(p: int --> real, n: int, start: int, k: nat): (ps: seq<real>)
    requires 0 <= start < n && Total(p, n) && k <= n
    ensures |ps| == k
  {
    if k == 0 then [] else LeftLinks(p, n, start, k - 1) + [p(Wrap(start - k, n))]
  }

  lemma {:induction false} LeftLinksAt(p: int --> real, n: int, start: int, k: nat, t: int)
    requires 0 <= start < n && Total(p, n) && 0 <= t < k <= n
    ensures LeftLinks(p, n, start, k)[t] == p(Wrap(start - (t + 1), n))
  {
    if t < k - 1 {
      LeftLinksAt(p, n, start, k - 1, t);
    }
  }

  lemma LeftProbsAt(p: int --> real, n: int, start: int, t: int)
    requires 0 <= start < n && Total(p, n) && 0 <= t < n
    ensures LeftProbs(p, n, start)[t] == p(Wrap(start - (t + 1), n))
  {
    LeftLinksAt(p, n, start, n, t);
  }

  /** The number of steps of a walk: the first step whose draw exceeds its
      probability, or the limit. */
  function Run(ps: seq<real>, ds: seq<real>, limit: nat): (m: nat)
    requires 1 <= limit <= |ps| && limit <= |ds|
    ensures 1 <= m <= limit
    decreases limit
  {
    if limit == 1 || ds[0] > ps[0] then 1 else 1 + Run(ps[1..], ds[1..], limit - 1)
  }

  /** A walk accepts every link before its last step, and its last step is
      rejected unless the walk reached its limit. */
  lemma {:induction false} RunStops(ps: seq<real>, ds: seq<real>, limit: nat)
    requires 1 <= limit <= |ps| && limit <= |ds|
    ensures var m := Run(ps, ds, limit);
      && (forall t :: 0 <= t < m - 1 ==> ds[t] <= ps[t])
      && (m < limit ==> ds[m - 1] > ps[m - 1])
    decreases limit
  {
    if !(limit == 1 || ds[0] > ps[0]) {
      RunStops(ps[1..], ds[1..], limit - 1);
      var m := Run(ps, ds, limit);
      forall t | 1 <= t < m - 1 ensures ds[t] <= ps[t] {
        assert ds[1..][t - 1] == ds[t] && ps[1..][t - 1] == ps[t];
      }
      assert m < limit ==> ds[1..][m - 2] == ds[m - 1] && ps[1..][m - 2] == ps[m - 1];
    }
  }

  /** A walk length with the two properties above is the one Run gives. */
  lemma {:induction false} RunUnique(ps: seq<real>, ds: seq<real>, limit: nat, m: nat)
    requires 1 <= limit <= |ps| && limit <= |ds|
    requires 1 <= m <= limit
    requires forall t :: 0 <= t < m - 1 ==> ds[t] <= ps[t]
    requires m < limit ==> ds[m - 1] > ps[m - 1]
    ensures Run(ps, ds, limit) == m
    decreases limit
  {
    if limit > 1 && ds[0] <= ps[0] {
      assert m > 1;
      forall t | 0 <= t < m - 2 ensures ds[1..][t] <= ps[1..][t] {
        assert ds[1..][t] == ds[t + 1] && ps[1..][t] == ps[t + 1];
      }
      assert m - 1 < limit - 1 ==> ds[1..][m - 2] == ds[m - 1] && ps[1..][m - 2] == ps[m - 1];
      RunUnique(ps[1..], ds[1..], limit - 1, m - 1);
    }
  }

  function SumUpTo(ps: seq<real>, k: int): real
    requires 0 <= k <= |ps|
  {
    if k == 0 then 0.0 else SumUpTo(ps, k - 1) + ps[k - 1]
  }

  /** The result of createCluster: the steps of both walks, the borders
      (possibly outside 0 .. xdim-1 when the cluster wraps around), the
      size and the mean probability of the bonds inside. */
  datatype Walk = Walk(rightSteps: nat, leftSteps: nat, leftBorder: int, rightBorder: int, size: int, bondProb: real)

  /** The walks of createCluster on a ring of |psR| sites, given the
      probabilities of the links the right walk tries (psR) and of those the
      left walk tries (psL), and the uniform draws ds: the right walk may
      take every link; the left walk uses the draws after the right walk's
      and stops at the link that would close the ring. */
  function ClusterWalk(psR: seq<real>, psL: seq<real>, start: int, ds: seq<real>): (w: Walk)
    requires |psL| == |psR| && 0 <= start < |psR| && |ds| >= |psR| + 1
    ensures w.rightBorder == start + w.rightSteps - 1 && w.leftBorder == start - w.leftSteps + 1
    ensures w.size == w.rightBorder + 1 - w.leftBorder
    ensures 1 <= w.size <= |psR| && w.rightSteps + w.leftSteps <= |psR| + 1
    ensures -|psR| < w.leftBorder <= start <= w.rightBorder < 2 * |psR| - 1
    ensures w.bondProb == MeanProbability(SumUpTo(psR, w.rightSteps - 1) + SumUpTo(psL, w.leftSteps - 1), w.size)
  {
    var n := |psR|;
    var m := Run(psR, ds, n);
    var m2 := Run(psL, ds[m..], n - m + 1);
    var probAdd := SumUpTo(psR, m - 1) + SumUpTo(psL, m2 - 1);
    var size := m + m2 - 1;
    Walk(m, m2, start - m2 + 1, start + m - 1, size, MeanProbability(probAdd, size))
  }

  /** The mean probability of the size - 1 bonds of a cluster of size
      sites, 0 for a single site. */
  function MeanProbability(probAdd: real, size: int): real
  {
    if size > 1 then probAdd / (size - 1) as real else 0.0
  }

  /** A right walk of m links and a left walk of m2 links, each ending at
      its first rejected link or at its limit, are the walks of ClusterWalk. */
  lemma WalkStepsDetermineCluster(psR: seq<real>, psL: seq<real>, start: int, ds: seq<real>, m: nat, m2: nat)
    requires |psL| == |psR| && 0 <= start < |psR| && |ds| >= |psR| + 1
    requires 1 <= m <= |psR|
    requires forall u :: 0 <= u < m - 1 ==> ds[u] <= psR[u]
    requires m < |psR| ==> ds[m - 1] > psR[m - 1]
    requires 1 <= m2 <= |psR| - m + 1
    requires forall u :: 0 <= u < m2 - 1 ==> ds[m..][u] <= psL[u]
    requires m2 < |psR| - m + 1 ==> ds[m..][m2 - 1] > psL[m2 - 1]
    ensures ClusterWalk(psR, psL, start, ds)
      == Walk(m, m2, start - m2 + 1, start + m - 1, m + m2 - 1,
              MeanProbability(SumUpTo(psR, m - 1) + SumUpTo(psL, m2 - 1), m + m2 - 1))
  {
    RunUnique(psR, ds, |psR|, m);
    RunUnique(psL, ds[m..], |psR| - m + 1, m2);
  }

  // The cluster is the longest run of accepted links around the start:
  // the three lemmas below say that every link inside had its draw at most
  // its probability, and that unless the cluster covers the ring the links
  // just outside both borders were rejected.

  /** The links the right walk took were accepted. */
  lemma RightLinksAccepted(psR: seq<real>, psL: seq<real>, start: int, ds: seq<real>)
    requires |psL| == |psR| && 0 <= start < |psR| && |ds| >= |psR| + 1
    ensures var w := ClusterWalk(psR, psL, start, ds);
      forall t :: 0 <= t < w.rightSteps - 1 ==> ds[t] <= psR[t]
  {
    RunStops(psR, ds, |psR|);
  }

  /** The links the left walk took were accepted, with the draws after the
      right walk's. */
  lemma LeftLinksAccepted(psR: seq<real>, psL: seq<real>, start: int, ds: seq<real>)
    requires |psL| == |psR| && 0 <= start < |psR| && |ds| >= |psR| + 1
    ensures var w := ClusterWalk(psR, psL, start, ds);
      forall t :: 0 <= t < w.leftSteps - 1 ==> ds[w.rightSteps + t] <= psL[t]
  {
    var m := Run(psR, ds, |psR|);
    RunAcceptedFrom(psL, ds, m, |psR| - m + 1);
  }

  /** A walk on the draws from m on accepts the links before its last step. */
  lemma RunAcceptedFrom(ps: seq<real>, ds: seq<real>, m: nat, limit: nat)
    requires 1 <= limit <= |ps| && m + limit <= |ds|
    ensures forall t :: 0 <= t < Run(ps, ds[m..], limit) - 1 ==> ds[m + t] <= ps[t]
  {
    RunStops(ps, ds[m..], limit);
    forall t | 0 <= t < Run(ps, ds[m..], limit) - 1 ensures ds[m + t] <= ps[t]
    {
      assert ds[m..][t] == ds[m + t];
    }
  }

  /** A cluster smaller than the ring ends at rejected links on both sides. */
  lemma BorderLinksRejected(psR: seq<real>, psL: seq<real>, start: int, ds: seq<real>)
    requires |psL| == |psR| && 0 <= start < |psR| && |ds| >= |psR| + 1
    ensures var w := ClusterWalk(psR, psL, start, ds);
      w.size < |psR| ==>
        && ds[w.rightSteps - 1] > psR[w.rightSteps - 1]
        && ds[w.rightSteps + w.leftSteps - 1] > psL[w.leftSteps - 1]
  {
    var n := |psR|;
    var m := Run(psR, ds, n);
    var rest := ds[m..];
    var m2 := Run(psL, rest, n - m + 1);
    RunStops(psR, ds, n);
    RunStops(psL, rest, n - m + 1);
    assert m2 < n - m + 1 ==> rest[m2 - 1] == ds[m + m2 - 1];
  }

  /** Both walks take at least one step; the cluster never sticks out on
      both sides of 0 .. n-1; and once either walk has gone all the way
      round, the cluster is the whole ring. */
  lemma ClusterShape(psR: seq<real>, psL: seq<real>, start: int, ds: seq<real>)
    requires |psL| == |psR| && 0 <= start < |psR| && |ds| >= |psR| + 1
    ensures var w := ClusterWalk(psR, psL, start, ds);
      && 1 <= w.rightSteps <= |psR| && 1 <= w.leftSteps <= |psR| - w.rightSteps + 1
      && !(w.leftBorder < 0 && w.rightBorder > |psR| - 1)
      && (w.rightSteps == |psR| ==> w.size == |psR| && w.leftSteps == 1)
      && (w.leftSteps == |psR| - w.rightSteps + 1 ==> w.size == |psR|)
  {
    var m := Run(psR, ds, |psR|);
    assert ClusterWalk(psR, psL, start, ds).rightSteps == m;
  }

  lemma {:induction false} SumOfAccepted(ps: seq<real>, ds: seq<real>, k: int)
    requires 0 <= k <= |ps| && k <= |ds|
    requires forall t :: 0 <= t < k ==> 0.0 <= ds[t] <= ps[t] < 1.0
    ensures 0.0 <= SumUpTo(ps, k) <= k as real
    ensures k > 0 ==> SumUpTo(ps, k) < k as real
  {
    if k > 0 {
      SumOfAccepted(ps, ds, k - 1);
    }
  }

  lemma MeanBelowOne(sum: real, size: int)
    requires size >= 1 && 0.0 <= sum && (size > 1 ==> sum < (size - 1) as real)
    ensures 0.0 <= MeanProbability(sum, size) < 1.0
  {}

  /** The mean of the probabilities of m - 1 accepted right links and
      m2 - 1 accepted left links lies in [0, 1). */
  lemma MeanOfAccepted(psR: seq<real>, psL: seq<real>, ds: seq<Draw>, m: nat, m2: nat)
    requires 1 <= m <= |psR| && 1 <= m2 <= |psL| && m - 1 + m2 - 1 < |ds|
    requires forall t :: 0 <= t < m - 1 ==> ds[t] <= psR[t] < 1.0
    requires forall t :: 0 <= t < m2 - 1 ==> ds[m + t] <= psL[t] < 1.0
    ensures 0.0 <= MeanProbability(SumUpTo(psR, m - 1) + SumUpTo(psL, m2 - 1), m + m2 - 1) < 1.0
  {
    var rest := ds[m..];
    forall t | 0 <= t < m2 - 1 ensures 0.0 <= rest[t] <= psL[t] < 1.0 {
      assert rest[t] == ds[m + t];
    }
    SumOfAccepted(psR, ds, m - 1);
    SumOfAccepted(psL, rest, m2 - 1);
    MeanBelowOne(SumUpTo(psR, m - 1) + SumUpTo(psL, m2 - 1), m + m2 - 1);
  }

  /** With draws in [0, 1) and probabilities below 1, the mean bond
      probability of a cluster lies in [0, 1): accepted bonds have a
      probability at least their draw. */
  lemma BondProbInUnitInterval(psR: seq<real>, psL: seq<real>, start: int, ds: seq<Draw>)
    requires |psL| == |psR| && 0 <= start < |psR| && |ds| >= |psR| + 1
    requires forall t :: 0 <= t < |psR| ==> psR[t] < 1.0 && psL[t] < 1.0
    ensures 0.0 <= ClusterWalk(psR, psL, start, ds).bondProb < 1.0
  {
    var w := ClusterWalk(psR, psL, start, ds);
    RightLinksAccepted(psR, psL, start, ds);
    LeftLinksAccepted(psR, psL, start, ds);
    MeanOfAccepted(psR, psL, ds, w.rightSteps, w.leftSteps);
  }

  /** Every probability a walk tries is one of the link probabilities. */
  lemma WalkProbsBelowOne(p: int --> real, n: int, start: int)
    requires 0 <= start < n && Total(p, n)
    requires forall k :: 0 <= k < n ==> p(k) < 1.0
    ensures forall t :: 0 <= t < n ==> RightProbs(p, n, start)[t] < 1.0 && LeftProbs(p, n, start)[t] < 1.0
  {
    forall t | 0 <= t < n ensures RightProbs(p, n, start)[t] < 1.0 && LeftProbs(p, n, start)[t] < 1.0 {
      RightProbsAt(p, n, start, t);
      LeftProbsAt(p, n, start, t);
    }
  }

  // ----------------------------------------------------------- ring steps

  /** Positions of the right walk: the right neighbour of start + t - 1 is
      start + t, which is the start again only after a full turn and is 0
      exactly when the walk wraps. */
  lemma RingRight(start: int, t: int, n: int)
    requires 0 <= start < n && 1 <= t <= n
    ensures Wrap(start + t, n) == start <==> t == n
    ensures Wrap(start + t, n) == 0 <==> start + t == n
    ensures After(Wrap(start + (t - 1), n), n) == Wrap(start + t, n)
    ensures Before(Wrap(start + t, n), n) == Wrap(start + (t - 1), n)
  {}

  /** Positions of the left walk: the left neighbour of start - t + 1 is
      start - t, which is n - 1 exactly when the walk wraps. */
  lemma RingLeft(start: int, t: int, n: int)
    requires 0 <= start < n && 1 <= t <= n
    ensures Before(Wrap(start - (t - 1), n), n) == Wrap(start - t, n)
    ensures Wrap(start - t, n) == n - 1 <==> t == start + 1
    ensures After(Wrap(start - t, n), n) == Wrap(start - (t - 1), n)
  {}

  /** The left walk meets the right border's position after n - m + 1
      steps and not before. */
  lemma LeftWalkMeetsRightBorder(start: int, m: int, t: int, n: int)
    requires 0 <= start < n && 1 <= m <= n && 1 <= t <= n
    ensures Wrap(start - t, n) == Wrap(start + m - 1, n) <==> t == n - m + 1
  {}

  /** The right border reduced with C's `%` is its ring position. */
  lemma RightEndOnRing(start: int, m: int, n: int)
    requires 0 <= start < n && 1 <= m <= n
    ensures TruncRem(start + m - 1, n) == Wrap(start + m - 1, n)
  {
    ModBand(start + m - 1, n);
  }

  /** The projection loop's next index: adding position i to the part of
      a cluster shorter than the ring that is already reflected adds one
      new ring position, Wrap(i, n). */
  lemma ClusterGrowsByOne(lb: int, i: int, n: int, k: int)
    requires -n < lb <= i < lb + n && i < 2 * n && 0 <= k < n
    ensures InCluster(k, lb, i, n) <==> InCluster(k, lb, i - 1, n) || k == Wrap(i, n)
    ensures k == Wrap(i, n) ==> !InCluster(k, lb, i - 1, n)
  {}

  // ----------------------------------------------------------- reflection

  /** Ring position k lies in the cluster from lb to rb (borders possibly
      outside 0 .. n-1). */
  predicate InCluster(k: int, lb: int, rb: int, n: int)
  {
    (lb <= k <= rb) || (lb <= k + n <= rb) || (lb <= k - n <= rb)
  }

  /** The sites after reflecting every angle of the cluster about angle. */
  function Reflect(ts: seq<Site>, lb: int, rb: int, angle: real): (r: seq<Site>)
    ensures |r| == |ts|
    ensures forall k :: 0 <= k < |ts| ==>
      r[k] == if InCluster(k, lb, rb, |ts|) then ts[k].(phi := ProjectedAngle(ts[k], angle)) else ts[k]
  {
    seq(|ts|, k requires 0 <= k < |ts| =>
      if InCluster(k, lb, rb, |ts|) then ts[k].(phi := ProjectedAngle(ts[k], angle)) else ts[k])
  }

  /** Reflecting the same cluster twice restores the sites. */
  lemma ReflectTwice(ts: seq<Site>, lb: int, rb: int, angle: real)
    ensures Reflect(Reflect(ts, lb, rb, angle), lb, rb, angle) == ts
  {
    var r := Reflect(Reflect(ts, lb, rb, angle), lb, rb, angle);
    forall k | 0 <= k < |ts| ensures r[k] == ts[k] {
      var once := Reflect(ts, lb, rb, angle);
      if InCluster(k, lb, rb, |ts|) {
        assert ProjectedAngle(once[k], angle) == ts[k].phi;
      }
    }
  }

  /** The reflection changes angles only, so a periodic ring stays one. */
  lemma ReflectKeepsRing(ts: seq<Site>, lb: int, rb: int, angle: real)
    requires Periodic(ts)
    ensures Periodic(Reflect(ts, lb, rb, angle))
  {
    var r := Reflect(ts, lb, rb, angle);
    forall k | 0 <= k < |ts|
      ensures r[k].id == ts[k].id && r[k].idBefore == ts[k].idBefore && r[k].idAfter == ts[k].idAfter
    {}
  }

  /** The reflection keeps the ring and the action of every link whose both
      ends lie in the cluster. */
  lemma ReflectionKeepsInnerLinks(f: Analytic, I: real, a: real, ts: seq<Site>, lb: int, rb: int, angle: real, k: int)
    requires Admissible(f) && a != 0.0 && Linked(ts) && 0 <= k < |ts|
    requires InCluster(k, lb, rb, |ts|) && InCluster(ts[k].idAfter, lb, rb, |ts|)
    ensures Linked(Reflect(ts, lb, rb, angle))
    ensures ActionSummand(f, I, a, Reflect(ts, lb, rb, angle), k) == ActionSummand(f, I, a, ts, k)
  {
    var r := Reflect(ts, lb, rb, angle);
    var j := ts[k].idAfter;
    var d := ts[j].phi - ts[k].phi;
    assert r[j].phi - r[k].phi == -d;
    assert f.cos(-d) == f.cos(d);
  }

  // ------------------------------------------------------------ the walks

  /** One pass of the right walk's do-while body, as the t-th step from
      start: add the previous probability, step to the right neighbour, flag
      the wrap past the last site, draw, and take the probability of the
      link just crossed. */
  method StepRight(p: int --> real, ts: seq<Site>, start: int, gen: Generator,
                   ghost t: int, i: int, overflow: int, probAdd: real, prob: real)
    returns (i': int, overflow': int, probAdd': real, prob': real, r: real)
    requires Periodic(ts) && Total(p, |ts|) && 0 <= start < |ts| && 0 <= t < |ts|
    requires i == Wrap(start + t, |ts|) && overflow == (if start + t >= |ts| then 1 else 0)
    requires gen.draws != []
    modifies gen
    ensures gen.draws == old(gen.draws)[1..]
    ensures i' == Wrap(start + t + 1, |ts|) && (i' == start <==> t + 1 == |ts|)
    ensures overflow' == (if start + t + 1 >= |ts| then 1 else 0)
    ensures probAdd' == probAdd + prob
    ensures r == old(gen.draws)[0] && prob' == RightProbs(p, |ts|, start)[t]
  {
    probAdd' := probAdd + prob;
    RingRight(start, t + 1, |ts|);
    i' := ts[i].idAfter;
    overflow' := overflow;
    if i' == 0 { overflow' := 1; }
    r := gen.UniformReal(0.0, 1.0);
    prob' := p(ts[i'].idBefore);
    RightProbsAt(p, |ts|, start, t);
  }

  /** The right walk of createCluster over the sites ts of a periodic ring,
      with link probabilities p: step right from start, drawing one value
      per link, until a draw exceeds the link's probability or the walk is
      back at start. Returns the right border (start plus the accepted
      links, beyond n - 1 when the walk wrapped) and the sum of the accepted
      probabilities. */
  method WalkRight(p: int --> real, ts: seq<Site>, start: int, gen: Generator)
    returns (rightBorder: int, probAdd: real, ghost steps: nat)
    requires Periodic(ts) && Total(p, |ts|) && 0 <= start < |ts|
    requires |gen.draws| >= |ts|
    modifies gen
    ensures 1 <= steps <= |ts| && rightBorder == start + steps - 1
    ensures gen.draws == old(gen.draws)[steps..]
    ensures probAdd == SumUpTo(RightProbs(p, |ts|, start), steps - 1)
    ensures forall u :: 0 <= u < steps - 1 ==> old(gen.draws)[u] <= RightProbs(p, |ts|, start)[u]
    ensures steps < |ts| ==> old(gen.draws)[steps - 1] > RightProbs(p, |ts|, start)[steps - 1]
  {
    var n := |ts|;
    ghost var psR := RightProbs(p, n, start);
    ghost var pool := gen.draws;
    var i := ts[start].id;
    var overflow := 0;
    var r, prob;
    // the do-while's first pass, then the passes while its condition holds
    i, overflow, probAdd, prob, r := StepRight(p, ts, start, gen, 0, i, overflow, 0.0, 0.0);
    ghost var t := 1;
    while r <= prob && i != start
      invariant 1 <= t <= n && gen.draws == pool[t..]
      invariant i == Wrap(start + t, n) && (i == start <==> t == n)
      invariant r == pool[t - 1] && prob == psR[t - 1] && probAdd == SumUpTo(psR, t - 1)
      invariant overflow == (if start + t >= n then 1 else 0)
      invariant forall u :: 0 <= u < t - 1 ==> pool[u] <= psR[u]
      decreases n - t
    {
      i, overflow, probAdd, prob, r := StepRight(p, ts, start, gen, t, i, overflow, probAdd, prob);
      t := t + 1;
    }
    if i == 0 { overflow := 0; }
    assert overflow * n == (if overflow == 1 then n else 0);
    rightBorder := ts[i].idBefore + overflow * n;
    steps := t;
  }

  /** One pass of the left walk's do-while body, as the t-th step from
      start: add the previous probability, step to the left neighbour, flag
      the wrap below site 0, draw, and take the probability of the link
      just crossed. */
  method StepLeft(p: int --> real, ts: seq<Site>, start: int, ghost m: int, ghost rightEnd: int, gen: Generator,
                  ghost t: int, i: int, overflow: int, probAdd: real, prob: real)
    returns (i': int, overflow': int, probAdd': real, prob': real, r: real)
    requires Periodic(ts) && Total(p, |ts|) && 0 <= start < |ts| && 0 <= t < |ts|
    requires 1 <= m <= |ts| && rightEnd == Wrap(start + m - 1, |ts|)
    requires i == Wrap(start - t, |ts|) && overflow == (if t > start then 1 else 0)
    requires gen.draws != []
    modifies gen
    ensures gen.draws == old(gen.draws)[1..]
    ensures i' == Wrap(start - (t + 1), |ts|) && (i' == rightEnd <==> t + 1 == |ts| - m + 1)
    ensures overflow' == (if t + 1 > start then 1 else 0)
    ensures probAdd' == probAdd + prob
    ensures r == old(gen.draws)[0] && prob' == LeftProbs(p, |ts|, start)[t]
  {
    probAdd' := probAdd + prob;
    RingLeft(start, t + 1, |ts|);
    LeftWalkMeetsRightBorder(start, m, t + 1, |ts|);
    i' := ts[i].idBefore;
    overflow' := overflow;
    if i' == |ts| - 1 { overflow' := 1; }
    r := gen.UniformReal(0.0, 1.0);
    prob' := p(ts[i'].id);
    LeftProbsAt(p, |ts|, start, t);
  }

  /** The left walk of createCluster, after a right walk of m links ending
      at rightBorder: step left from start until a draw exceeds the
      probability of the link or the walk reaches the right border's
      position. Returns the left border (below 0 when the walk wrapped) and
      probAdd increased by the accepted probabilities. */
  method WalkLeft(p: int --> real, ts: seq<Site>, start: int,
                  ghost m: int, rightBorder: int, probIn: real, gen: Generator)
    returns (leftBorder: int, probAdd: real, ghost steps: nat)
    requires Periodic(ts) && Total(p, |ts|) && 0 <= start < |ts|
    requires 1 <= m <= |ts| && rightBorder == start + m - 1
    requires |gen.draws| >= |ts| - m + 1
    modifies gen
    ensures 1 <= steps <= |ts| - m + 1 && leftBorder == start - steps + 1
    ensures gen.draws == old(gen.draws)[steps..]
    ensures probAdd == probIn + SumUpTo(LeftProbs(p, |ts|, start), steps - 1)
    ensures forall u :: 0 <= u < steps - 1 ==> old(gen.draws)[u] <= LeftProbs(p, |ts|, start)[u]
    ensures steps < |ts| - m + 1 ==> old(gen.draws)[steps - 1] > LeftProbs(p, |ts|, start)[steps - 1]
  {
    var n := |ts|;
    ghost var psL := LeftProbs(p, n, start);
    ghost var pool := gen.draws;
    ghost var limit := n - m + 1;
    var rightEnd := TruncRem(rightBorder, n);
    RightEndOnRing(start, m, n);
    var i := ts[start].id;
    var overflow := 0;
    var r, prob;
    // the do-while's first pass, then the passes while its condition holds
    i, overflow, probAdd, prob, r := StepLeft(p, ts, start, m, rightEnd, gen, 0, i, overflow, probIn, 0.0);
    ghost var t := 1;
    while r <= prob && i != rightEnd
      invariant 1 <= t <= limit && gen.draws == pool[t..]
      invariant i == Wrap(start - t, n) && (i == rightEnd <==> t == limit)
      invariant r == pool[t - 1] && prob == psL[t - 1] && probAdd == probIn + SumUpTo(psL, t - 1)
      invariant overflow == (if t > start then 1 else 0)
      invariant forall u :: 0 <= u < t - 1 ==> pool[u] <= psL[u]
      decreases limit - t
    {
      i, overflow, probAdd, prob, r := StepLeft(p, ts, start, m, rightEnd, gen, t, i, overflow, probAdd, prob);
      t := t + 1;
    }
    RingLeft(start, t, n);
    if i == n - 1 { overflow := 0; }
    assert overflow * n == (if overflow == 1 then n else 0);
    leftBorder := ts[i].idAfter - overflow * n;
    steps := t;
  }

  /** createCluster on the sites ts of a periodic ring, from start, with
      link probabilities p: the right walk, then the left walk, then the
      size and mean bond probability of the cluster. */
  method GrowCluster(p: int --> real, ts: seq<Site>, start: int, gen: Generator)
    returns (leftBorder: int, rightBorder: int, size: int, bondProb: real)
    requires Periodic(ts) && Total(p, |ts|) && 0 <= start < |ts|
    requires |gen.draws| >= |ts| + 1
    modifies gen
    ensures var w := ClusterWalk(RightProbs(p, |ts|, start), LeftProbs(p, |ts|, start), start, old(gen.draws));
      && leftBorder == w.leftBorder && rightBorder == w.rightBorder
      && size == w.size && bondProb == w.bondProb
      && gen.draws == old(gen.draws)[w.rightSteps + w.leftSteps..]
  {
    ghost var ds := gen.draws;
    var probAdd;
    ghost var m, m2;
    rightBorder, probAdd, m := WalkRight(p, ts, start, gen);
    assert gen.draws == ds[m..];
    leftBorder, probAdd, m2 := WalkLeft(p, ts, start, m, rightBorder, probAdd, gen);
    ghost var psR, psL := RightProbs(p, |ts|, start), LeftProbs(p, |ts|, start);
    WalkStepsDetermineCluster(psR, psL, start, ds, m, m2);
    ghost var w := ClusterWalk(psR, psL, start, ds);
    assert gen.draws == ds[m + m2..];
    size := rightBorder + 1 - leftBorder;
    assert size == w.size && probAdd == SumUpTo(psR, m - 1) + SumUpTo(psL, m2 - 1);
    bondProb := MeanProbability(probAdd, size);
  }

  /** The walk of one cluster step on ts: the reflection angle comes from
      the first draw, the start site from the second, and createCluster uses
      the draws after them. */
  function StepWalk(f: Analytic, I: real, a: real, ts: seq<Site>, ds: seq<Draw>): Walk
    requires Periodic(ts) && a != 0.0 && |ts| >= 1 && |ds| >= |ts| + 3
  {
    PiBounds();
    var angle := Lerp(0.0, TwoPi, ds[0]);
    var start := UniformIntValue(0, |ts| - 1, ds[1]);
    var p := LinkProbability(f, I, a, ts, angle);
    ClusterWalk(RightProbs(p, |ts|, start), LeftProbs(p, |ts|, start), start, ds[2..])
  }

  /** The random part of doStep on the sites ts: the reflection angle is
      drawn in [0, 2 Pi), the start site uniformly among the n sites, and
      the cluster is grown from there. */
  method DrawAndGrow(f: Analytic, I: real, a: real, ts: seq<Site>, gen: Generator)
    returns (angle: real, start: int, leftBorder: int, rightBorder: int, size: int, bondProb: real)
    requires Periodic(ts) && a != 0.0 && |ts| >= 1
    requires |gen.draws| >= |ts| + 3
    modifies gen
    ensures angle == Lerp(0.0, TwoPi, old(gen.draws)[0])
    ensures start == UniformIntValue(0, |ts| - 1, old(gen.draws)[1])
    ensures var w := StepWalk(f, I, a, ts, old(gen.draws));
      && leftBorder == w.leftBorder && rightBorder == w.rightBorder
      && size == w.size && bondProb == w.bondProb
      && gen.draws == old(gen.draws)[2 + w.rightSteps + w.leftSteps..]
    ensures -|ts| < leftBorder <= rightBorder < 2 * |ts| && rightBorder + 1 - leftBorder <= |ts|
  {
    PiBounds();
    angle := gen.UniformReal(0.0, TwoPi);
    start := gen.UniformInt(0, |ts| - 1);
    var p := LinkProbability(f, I, a, ts, angle);
    leftBorder, rightBorder, size, bondProb := GrowCluster(p, ts, start, gen);
  }

  // ------------------------------------------------------------- the class

  class ClusterContainer {
    var lattice: LatticeContainer
    var start: int
    var angle: real
    var leftBorder: int
    var rightBorder: int
    var size: int
    var bondProb: real

    /** The cluster update on lattice l, every cluster variable 0. */
    constructor (l: LatticeContainer)
      ensures lattice == l && start == 0 && angle == 0.0
      ensures leftBorder == 0 && rightBorder == 0 && size == 0 && bondProb == 0.0
    {
      lattice := l;
      start, angle := 0, 0.0;
      leftBorder, rightBorder, size, bondProb := 0, 0, 0, 0.0;
    }

    /** A non-empty periodic ring with a non-zero lattice spacing. */
    predicate Ready()
      reads this`lattice, lattice`tslice, lattice`xdim, lattice`corr, lattice`a
    {
      |lattice.tslice| == lattice.xdim && |lattice.corr| == lattice.xdim
        && lattice.xdim >= 1 && Periodic(lattice.tslice) && lattice.a != 0.0
    }

    /** createCluster: walk right, then left, from start, drawing one
        uniform value in [0, 1) per tried link. */
    method CreateCluster(f: Analytic, gen: Generator)
      requires Ready() && 0 <= start < lattice.xdim
      requires |gen.draws| >= lattice.xdim + 1
      modifies this`leftBorder, this`rightBorder, this`size, this`bondProb, gen
      ensures -lattice.xdim < leftBorder <= start <= rightBorder < 2 * lattice.xdim
      ensures 1 <= size == rightBorder + 1 - leftBorder <= lattice.xdim
      ensures var p := LinkProbability(f, lattice.I, lattice.a, lattice.tslice, angle);
              var w := ClusterWalk(RightProbs(p, lattice.xdim, start), LeftProbs(p, lattice.xdim, start),
                                   start, old(gen.draws));
        && leftBorder == w.leftBorder && rightBorder == w.rightBorder
        && size == w.size && bondProb == w.bondProb
        && gen.draws == old(gen.draws)[w.rightSteps + w.leftSteps..]
    {
      var ts, I, a := lattice.tslice, lattice.I, lattice.a;
      var p := LinkProbability(f, I, a, ts, angle);
      leftBorder, rightBorder, size, bondProb := GrowCluster(p, ts, start, gen);
      assert lattice.tslice == ts && lattice.I == I && lattice.a == a;
    }

    /** The projection loop of doStep: every site from leftBorder to
        rightBorder, taken modulo xdim, gets its angle reflected about
        angle; the ring is kept. */
    method ReflectCluster()
      requires |lattice.tslice| == lattice.xdim
      requires -lattice.xdim < leftBorder <= rightBorder < 2 * lattice.xdim
      requires rightBorder + 1 - leftBorder <= lattice.xdim
      modifies lattice`tslice
      ensures lattice.tslice == Reflect(old(lattice.tslice), leftBorder, rightBorder, angle)
    {
      var n := lattice.xdim;
      ghost var ts0 := lattice.tslice;
      var i := leftBorder;
      while i <= rightBorder
        invariant leftBorder <= i <= rightBorder + 1 && |lattice.tslice| == n
        invariant forall k :: 0 <= k < n ==>
          lattice.tslice[k] == (if InCluster(k, leftBorder, i - 1, n) then ts0[k].(phi := ProjectedAngle(ts0[k], angle)) else ts0[k])
      {
        var index := GetId(i, n);
        var s := lattice.tslice[index];
        lattice.tslice := lattice.tslice[index := s.(phi := ProjectedAngle(s, angle))];
        forall k | 0 <= k < n
          ensures InCluster(k, leftBorder, i, n) <==> InCluster(k, leftBorder, i - 1, n) || k == index
          ensures k == index ==> !InCluster(k, leftBorder, i - 1, n)
        {
          ClusterGrowsByOne(leftBorder, i, n, k);
        }
        i := i + 1;
      }
    }

    /** doStep: draw the reflection angle in [0, 2 Pi) and the start site,
        create the cluster, reflect it, and mark the configuration as made
        by the cluster algorithm. */
    method DoStep(f: Analytic, gen: Generator)
      requires Ready()
      requires |gen.draws| >= lattice.xdim + 3
      modifies this`angle, this`start, this`leftBorder, this`rightBorder, this`size, this`bondProb
      modifies gen, lattice`tslice, lattice`algorithm
      ensures Ready() && lattice.algorithm == 'c'
      ensures angle == Lerp(0.0, TwoPi, old(gen.draws)[0])
      ensures start == UniformIntValue(0, |old(lattice.tslice)| - 1, old(gen.draws)[1])
      ensures var w := StepWalk(f, old(lattice.I), old(lattice.a), old(lattice.tslice), old(gen.draws));
        && leftBorder == w.leftBorder && rightBorder == w.rightBorder
        && size == w.size && bondProb == w.bondProb
        && lattice.tslice == Reflect(old(lattice.tslice), w.leftBorder, w.rightBorder, angle)
        && gen.draws == old(gen.draws)[2 + w.rightSteps + w.leftSteps..]
    {
      ghost var ts0 := lattice.tslice;
      angle, start, leftBorder, rightBorder, size, bondProb := DrawAndGrow(f, lattice.I, lattice.a, lattice.tslice, gen);
      ReflectCluster();
      ReflectKeepsRing(ts0, leftBorder, rightBorder, angle);
      lattice.algorithm := 'c';
    }

    /** doStep with a proposal width: the width is ignored. */
    method DoStepWithDelta(f: Analytic, gen: Generator, delta: real)
      requires Ready()
      requires |gen.draws| >= lattice.xdim + 3
      modifies this`angle, this`start, this`leftBorder, this`rightBorder, this`size, this`bondProb
      modifies gen, lattice`tslice, lattice`algorithm
      ensures Ready() && lattice.algorithm == 'c'
      ensures angle == Lerp(0.0, TwoPi, old(gen.draws)[0])
      ensures start == UniformIntValue(0, |old(lattice.tslice)| - 1, old(gen.draws)[1])
      ensures var w := StepWalk(f, old(lattice.I), old(lattice.a), old(lattice.tslice), old(gen.draws));
        && leftBorder == w.leftBorder && rightBorder == w.rightBorder
        && size == w.size && bondProb == w.bondProb
        && lattice.tslice == Reflect(old(lattice.tslice), w.leftBorder, w.rightBorder, angle)
        && gen.draws == old(gen.draws)[2 + w.rightSteps + w.leftSteps..]
    {
      DoStep(f, gen);
    }
  }
}
