/** LatticeContainer: the ring of sites with the coupling I, the lattice
    spacing a, the size xdim and theta, the markers of the boundary and of
    the algorithm, and the measured charge, mean squared angle and
    correlation. The loops of the source are methods here, each proved
    against the functions of module LatticeMath. */
module Lattice {
  import opened Numerics
  import opened Timestep
  import opened LatticeMath
  import opened ConfigFormat
  import opened Random
  import Parameters

  /** Tolerance of the angle comparison in operator==. */
  const EqualityTolerance: real := 0.000000000001

  /** The angles of the sites, in order. */
  function Phis(ts: seq<Site>): (phis: seq<real>)
    ensures |phis| == |ts| && forall i :: 0 <= i < |ts| ==> phis[i] == ts[i].phi
  {
    seq(|ts|, i requires 0 <= i < |ts| => ts[i].phi)
  }

  /** The sites with their angles replaced by phis (ids unchanged). */
  function WithPhis(ts: seq<Site>, phis: seq<real>): (r: seq<Site>)
    requires |phis| <= |ts|
    ensures |r| == |ts|
    ensures forall i :: 0 <= i < |phis| ==> r[i] == ts[i].(phi := phis[i])
    ensures forall i :: |phis| <= i < |ts| ==> r[i] == ts[i]
  {
    seq(|ts|, i requires 0 <= i < |ts| => if i < |phis| then ts[i].(phi := phis[i]) else ts[i])
  }

  /** The part of a lattice operator== looks at. */
  datatype LatticeValue = LatticeValue(
    I: real, a: real, xdim: int, theta: real, tslice: seq<Site>, algorithm: char, boundary: char)

  /** The constants and markers operator== compares. */
  predicate SameConstants(x: LatticeValue, y: LatticeValue)
  {
    && x.I == y.I && x.a == y.a && x.xdim == y.xdim && x.theta == y.theta
    && x.algorithm == y.algorithm && x.boundary == y.boundary
  }

  /** Each of the first k angles of ts1 is at most the tolerance above the
      angle of ts2 at the same position. */
  predicate AnglesWithin(ts1: seq<Site>, ts2: seq<Site>, k: int)
    requires 0 <= k <= |ts1| && k <= |ts2|
  {
    forall i :: 0 <= i < k ==> ts1[i].phi - ts2[i].phi <= EqualityTolerance
  }

  /** operator==: equal constants and markers, and every angle of the first
      lattice at most the tolerance above the second's. Only the signed
      difference is bounded. */
  predicate Matches(x: LatticeValue, y: LatticeValue)
    requires |x.tslice| == x.xdim && |y.tslice| == y.xdim
  {
    SameConstants(x, y) && AnglesWithin(x.tslice, y.tslice, x.xdim)
  }

  /** Every lattice matches itself. */
  lemma MatchesReflexive(x: LatticeValue)
    requires |x.tslice| == x.xdim
    ensures Matches(x, x)
  {}

  /** The comparison is not symmetric: a lattice whose angle lies far below
      the other's matches it, but not the other way round. */
  lemma MatchesNotSymmetric()
    ensures var x := LatticeValue(0.25, 0.2, 1, 0.0, [SiteAt(0, 0.0)], 'm', 'p');
            var y := x.(tslice := [SiteAt(0, 1.0)]);
            Matches(x, y) && !Matches(y, x)
  {
    var x := LatticeValue(0.25, 0.2, 1, 0.0, [SiteAt(0, 0.0)], 'm', 'p');
    var y := x.(tslice := [SiteAt(0, 1.0)]);
    assert y.tslice[0].phi - x.tslice[0].phi > EqualityTolerance;
  }

  class LatticeContainer {
    var I: real
    var a: real
    var xdim: int
    var theta: real
    var tslice: seq<Site>
    var algorithm: char
    var boundary: char
    var q: real
    var meanPhiSq: real
    var corr: seq<real>

    /** One site and one correlation entry per position. */
    predicate Valid()
      reads this
    {
      |tslice| == xdim && |corr| == xdim
    }

    function Value(): (v: LatticeValue)
      reads this
      ensures v.tslice == tslice && v.xdim == xdim
    {
      LatticeValue(I, a, xdim, theta, tslice, algorithm, boundary)
    }

    /** The four-argument constructor: xdim sites at ids 0 .. xdim-1 with
        angle 0 (an open chain), zero correlations, and null markers. */
    constructor (IIn: real, aIn: real, xdimIn: int, thetaIn: real)
      requires xdimIn >= 0
      ensures Valid()
      ensures I == IIn && a == aIn && xdim == xdimIn && theta == thetaIn
      ensures algorithm == '\0' && boundary == '\0' && q == 0.0 && meanPhiSq == 0.0
      ensures tslice == Initial(xdimIn) && corr == seq(xdimIn, _ => 0.0)
    {
      I, a, xdim, theta := IIn, aIn, xdimIn, thetaIn;
      algorithm, boundary := '\0', '\0';
      q, meanPhiSq := 0.0, 0.0;
      var ts: seq<Site> := [];
      var cs: seq<real> := [];
      var i := 0;
      while i < xdimIn
        invariant 0 <= i <= xdimIn
        invariant ts == Initial(i) && cs == seq(i, _ => 0.0)
      {
        ts := ts + [SiteAt(i, 0.0)];
        cs := cs + [0.0];
        i := i + 1;
      }
      tslice, corr := ts, cs;
    }

    /** The three-argument constructor as written: it hands the member
        xdim, not yet initialised, to the four-argument constructor, so the
        size is whatever member held and xdimIn is ignored. */
    constructor WithoutTheta(IIn: real, aIn: real, xdimIn: int, member: int)
      requires member >= 0
      ensures Valid()
      ensures I == IIn && a == aIn && xdim == member && theta == 0.0
      ensures algorithm == '\0' && boundary == '\0' && q == 0.0 && meanPhiSq == 0.0
      ensures tslice == Initial(member) && corr == seq(member, _ => 0.0)
    {
      I, a, xdim, theta := IIn, aIn, member, 0.0;
      algorithm, boundary := '\0', '\0';
      q, meanPhiSq := 0.0, 0.0;
      tslice, corr := Initial(member), seq(member, _ => 0.0);
    }

    /** The three-argument constructor as intended: xdimIn sites, theta 0. */
    constructor WithoutThetaIntended(IIn: real, aIn: real, xdimIn: int)
      requires xdimIn >= 0
      ensures Valid()
      ensures I == IIn && a == aIn && xdim == xdimIn && theta == 0.0
      ensures algorithm == '\0' && boundary == '\0' && q == 0.0 && meanPhiSq == 0.0
      ensures tslice == Initial(xdimIn) && corr == seq(xdimIn, _ => 0.0)
    {
      I, a, xdim, theta := IIn, aIn, xdimIn, 0.0;
      algorithm, boundary := '\0', '\0';
      q, meanPhiSq := 0.0, 0.0;
      tslice, corr := Initial(xdimIn), seq(xdimIn, _ => 0.0);
    }

    /** The constructor from the run parameters: their I, a, xdim and
        theta, as the four-argument constructor takes them. */
    constructor FromParameters(p: Parameters.Settings)
      requires p.xdim >= 0
      ensures Valid()
      ensures I == p.I && a == p.a && xdim == p.xdim && theta == p.theta
      ensures algorithm == '\0' && boundary == '\0' && q == 0.0 && meanPhiSq == 0.0
      ensures tslice == Initial(p.xdim) && corr == seq(p.xdim, _ => 0.0)
    {
      I, a, xdim, theta := p.I, p.a, p.xdim, p.theta;
      algorithm, boundary := '\0', '\0';
      q, meanPhiSq := 0.0, 0.0;
      tslice, corr := Initial(p.xdim), seq(p.xdim, _ => 0.0);
    }

    /** The default constructor as written: I = 0.25 and a = 0.2 through
        the three-argument constructor, so the 10 it asks for is dropped and
        the size is what the member xdim held. */
    constructor Default(member: int)
      requires member >= 0
      ensures Valid()
      ensures I == 0.25 && a == 0.2 && xdim == member && theta == 0.0
      ensures algorithm == '\0' && boundary == '\0' && q == 0.0 && meanPhiSq == 0.0
      ensures tslice == Initial(member) && corr == seq(member, _ => 0.0)
    {
      I, a, xdim, theta := 0.25, 0.2, member, 0.0;
      algorithm, boundary := '\0', '\0';
      q, meanPhiSq := 0.0, 0.0;
      tslice, corr := Initial(member), seq(member, _ => 0.0);
    }

    /** The default constructor as intended: I = 0.25, a = 0.2, 10 sites. */
    constructor DefaultIntended()
      ensures Valid()
      ensures I == 0.25 && a == 0.2 && xdim == 10 && theta == 0.0
      ensures algorithm == '\0' && boundary == '\0' && q == 0.0 && meanPhiSq == 0.0
      ensures tslice == Initial(10) && corr == seq(10, _ => 0.0)
    {
      I, a, xdim, theta := 0.25, 0.2, 10, 0.0;
      algorithm, boundary := '\0', '\0';
      q, meanPhiSq := 0.0, 0.0;
      tslice, corr := Initial(10), seq(10, _ => 0.0);
    }

    /** The copy constructor: constants, markers, charge, sites and
        correlations of l; a periodic l gets its ring closed again. The mean
        squared angle is not copied. */
    constructor Copy(l: LatticeContainer)
      requires l.Valid() && (l.boundary == 'p' ==> l.xdim > 0)
      ensures Valid()
      ensures I == l.I && a == l.a && xdim == l.xdim && theta == l.theta
      ensures algorithm == l.algorithm && boundary == l.boundary && q == l.q && meanPhiSq == 0.0
      ensures tslice == (if l.boundary == 'p' then ClosedRing(l.tslice) else l.tslice)
      ensures corr == l.corr
      ensures Value() == l.Value().(tslice := tslice)
    {
      I, a, xdim, theta := l.I, l.a, l.xdim, l.theta;
      algorithm, boundary, q, meanPhiSq := l.algorithm, l.boundary, l.q, 0.0;
      tslice, corr := l.tslice, l.corr;
      new;
      if boundary == 'p' {
        SetPeriodicBoundaries();
      }
    }

    /** operator==, with the short-circuit of the source: the angles of l2
        are read only while everything compared so far is equal. */
    method Equals(l2: LatticeContainer) returns (result: bool)
      requires Valid() && l2.Valid()
      ensures result == Matches(Value(), l2.Value())
    {
      result := I == l2.I && a == l2.a && xdim == l2.xdim && theta == l2.theta
        && algorithm == l2.algorithm && boundary == l2.boundary;
      var i := 0;
      while i < xdim
        invariant 0 <= i <= xdim
        invariant result == (SameConstants(Value(), l2.Value()) && AnglesWithin(tslice, l2.tslice, i))
      {
        result := result && tslice[i].phi - l2.tslice[i].phi <= EqualityTolerance;
        i := i + 1;
      }
    }

    /** copyContent: take the angles of l, keep ids and everything else. */
    method CopyContent(l: LatticeContainer)
      requires Valid() && |l.tslice| >= xdim
      modifies this`tslice
      ensures Valid()
      ensures tslice == WithPhis(old(tslice), Phis(l.tslice)[..xdim])
      ensures Phis(tslice) == Phis(l.tslice)[..xdim]
    {
      var i := 0;
      ghost var src := l.tslice;
      ghost var was := tslice;
      while i < xdim
        invariant 0 <= i <= xdim && |tslice| == xdim && l.tslice == src
        invariant tslice == WithPhis(was, Phis(src)[..i])
      {
        tslice := tslice[i := tslice[i].(phi := l.tslice[i].phi)];
        i := i + 1;
      }
    }

    /** setPeriodicBoundaries: close the ring and mark it periodic. */
    method SetPeriodicBoundaries()
      requires Valid() && xdim > 0
      modifies this`tslice, this`boundary
      ensures Valid()
      ensures tslice == ClosedRing(old(tslice)) && boundary == 'p'
    {
      tslice := ClosedRing(tslice);
      boundary := 'p';
    }

    /** setZero: every angle 0, ids unchanged. */
    method SetZero()
      requires Valid()
      modifies this`tslice
      ensures Valid()
      ensures tslice == WithPhis(old(tslice), seq(xdim, _ => 0.0))
      ensures Constant(tslice) && forall i :: 0 <= i < xdim ==> tslice[i].phi == 0.0
    {
      var i := 0;
      ghost var was := tslice;
      while i < xdim
        invariant 0 <= i <= xdim && |tslice| == xdim
        invariant tslice == WithPhis(was, seq(i, _ => 0.0))
      {
        tslice := tslice[i := tslice[i].(phi := 0.0)];
        i := i + 1;
      }
    }

    /** setRandom: every site draws its angle in [0, 2 Pi), in order. */
    method SetRandom(gen: Generator)
      requires Valid() && |gen.draws| >= xdim
      modifies this`tslice, gen
      ensures Valid()
      ensures gen.draws == old(gen.draws)[xdim..]
      ensures forall i :: 0 <= i < xdim ==> tslice[i] == WithRandomAngle(old(tslice[i]), old(gen.draws)[i])
      ensures forall i :: 0 <= i < xdim ==> 0.0 <= tslice[i].phi < TwoPi
    {
      var i := 0;
      ghost var was := tslice;
      ghost var pool := gen.draws;
      while i < xdim
        invariant 0 <= i <= xdim && |tslice| == xdim
        invariant gen.draws == pool[i..]
        invariant forall k :: 0 <= k < i ==> tslice[k] == WithRandomAngle(was[k], pool[k])
        invariant forall k :: i <= k < xdim ==> tslice[k] == was[k]
      {
        var x := gen.UniformReal(0.0, TwoPi);
        tslice := tslice[i := tslice[i].(phi := x)];
        i := i + 1;
      }
    }

    /** mod2Pi: reduce every angle into [-Pi, Pi]. */
    method Mod2Pi()
      requires Valid()
      modifies this`tslice
      ensures Valid()
      ensures forall i :: 0 <= i < xdim ==> tslice[i] == Timestep.Mod2Pi(old(tslice[i]))
      ensures forall i :: 0 <= i < xdim ==> -Pi <= tslice[i].phi <= Pi
    {
      var i := 0;
      ghost var was := tslice;
      while i < xdim
        invariant 0 <= i <= xdim && |tslice| == xdim
        invariant forall k :: 0 <= k < i ==> tslice[k] == Timestep.Mod2Pi(was[k])
        invariant forall k :: i <= k < xdim ==> tslice[k] == was[k]
      {
        tslice := tslice[i := Timestep.Mod2Pi(tslice[i])];
        i := i + 1;
      }
    }

    /** getAction: the sum of the link actions. */
    method GetAction(f: Analytic) returns (sum: real)
      requires Valid() && a != 0.0 && Linked(tslice)
      ensures sum == Action(f, I, a, tslice)
    {
      sum := 0.0;
      var i := 0;
      while i < xdim
        invariant 0 <= i <= xdim
        invariant sum == ActionUpTo(f, I, a, tslice, i)
      {
        sum := sum + ActionSummand(f, I, a, tslice, i);
        i := i + 1;
      }
    }

    /** computeQ: store the winding number. */
    method ComputeQ()
      requires Valid() && Linked(tslice)
      modifies this`q
      ensures q == Charge(tslice)
    {
      var ts, n := tslice, xdim;
      var sum := 0.0;
      var i := 0;
      while i < n
        invariant 0 <= i <= n
        invariant sum == ChargeSumUpTo(ts, i)
      {
        var diff := ts[ts[i].idAfter].phi - ts[i].phi;
        sum := sum + ChargeLink(diff);
        i := i + 1;
      }
      q := Turns(sum);
    }

    /** computeCorr: corr[j] becomes the mean of phi[i] * phi[i + j] around
        the ring. */
    method ComputeCorr()
      requires Valid()
      modifies this`corr
      ensures Valid()
      ensures forall j :: 0 <= j < xdim ==> corr[j] == CorrAt(tslice, j)
    {
      var n := xdim;
      var i := 0;
      while i < n
        invariant 0 <= i <= n && |corr| == n
        invariant forall k :: 0 <= k < i ==> corr[k] == 0.0
      {
        corr := corr[i := 0.0];
        i := i + 1;
      }
      var j := 0;
      while j < n
        invariant 0 <= j <= n && |corr| == n
        invariant forall k :: 0 <= k < j ==> corr[k] == CorrSumUpTo(tslice, k, n)
        invariant forall k :: j <= k < n ==> corr[k] == 0.0
      {
        AccumulateCorr(j);
        j := j + 1;
      }
      i := 0;
      while i < n
        invariant 0 <= i <= n && |corr| == n
        invariant forall k :: 0 <= k < i ==> corr[k] == CorrAt(tslice, k)
        invariant forall k :: i <= k < n ==> corr[k] == CorrSumUpTo(tslice, k, n)
      {
        corr := corr[i := corr[i] / n as real];
        i := i + 1;
      }
    }

    /** The inner loop of computeCorr: add phi[i] * phi[i + j] over the ring
        to corr[j]. */
    method AccumulateCorr(j: int)
      requires Valid() && 0 <= j < xdim
      modifies this`corr
      ensures Valid()
      ensures corr == old(corr)[j := old(corr)[j] + CorrSumUpTo(tslice, j, xdim)]
    {
      var ts, n := tslice, xdim;
      var sum := corr[j];
      var i := 0;
      while i < n
        invariant 0 <= i <= n
        invariant sum == old(corr)[j] + CorrSumUpTo(ts, j, i)
      {
        sum := sum + ts[i].phi * ts[GetId(i + j, n)].phi;
        i := i + 1;
      }
      corr := corr[j := sum];
    }

    /** computePlaquette: the mean of cos over the links. */
    method ComputePlaquette(f: Analytic) returns (plaquette: real)
      requires Valid() && xdim > 0 && Linked(tslice)
      ensures plaquette == Plaquette(f, tslice)
    {
      plaquette := 0.0;
      var i := 0;
      while i < xdim
        invariant 0 <= i <= xdim
        invariant plaquette == PlaquetteUpTo(f, tslice, i)
      {
        plaquette := plaquette + LocalPlaquette(f, tslice, i);
        i := i + 1;
      }
      plaquette := plaquette / xdim as real;
    }

    /** computeMeanPhi. */
    method ComputeMeanPhi() returns (res: real)
      requires Valid() && xdim > 0
      ensures res == MeanPhi(tslice)
    {
      res := 0.0;
      var i := 0;
      while i < xdim
        invariant 0 <= i <= xdim
        invariant res == PhiSumUpTo(tslice, i)
      {
        res := res + tslice[i].phi;
        i := i + 1;
      }
      res := res / xdim as real;
    }

    /** computeMeanPhiSq: store and return the mean squared angle. */
    method ComputeMeanPhiSq() returns (res: real)
      requires Valid() && xdim > 0
      modifies this`meanPhiSq
      ensures res == MeanPhiSq(tslice) && meanPhiSq == res && res >= 0.0
    {
      res := 0.0;
      var i := 0;
      while i < xdim
        invariant 0 <= i <= xdim
        invariant res == PhiSqSumUpTo(tslice, i)
      {
        res := res + tslice[i].phi * tslice[i].phi;
        i := i + 1;
      }
      meanPhiSq := res / xdim as real;
      res := meanPhiSq;
    }

    /** dumpHeader: the bytes written for I, a, xdim, boundary, algorithm. */
    method DumpHeader(c: HostCodec) returns (bs: seq<Byte>)
      requires Faithful(c) && boundary as int < 256 && algorithm as int < 256
      ensures bs == HeaderBytes(c, Header(I, a, xdim, boundary, algorithm))
      ensures |bs| == HeaderSize
    {
      bs := c.double(I) + c.double(a) + c.int32(xdim) + [CharByte(boundary), CharByte(algorithm)];
    }

    /** readHeader from the stream s. A complete header sets I, a, boundary
        and algorithm (theta is not stored) and closes the ring when the
        boundary is periodic; the stored size must be the lattice's own,
        since the sites are not reallocated. */
    method ReadHeader(c: HostCodec, s: seq<Byte>) returns (good: bool, rest: seq<Byte>)
      requires Valid()
      requires |s| >= HeaderSize ==> ParseHeader(c, s).0.xdim == xdim
      requires |s| >= HeaderSize && ParseHeader(c, s).0.boundary == 'p' ==> xdim > 0
      modifies this`I, this`a, this`boundary, this`algorithm, this`tslice
      ensures Valid()
      ensures good <==> |s| >= HeaderSize
      ensures good ==> var (h, r) := ParseHeader(c, s);
        && rest == r && I == h.I && a == h.a && xdim == h.xdim
        && boundary == h.boundary && algorithm == h.algorithm
        && tslice == (if h.boundary == 'p' then ClosedRing(old(tslice)) else old(tslice))
      ensures !good ==>
        && rest == [] && I == old(I) && a == old(a) && tslice == old(tslice)
        && boundary == old(boundary) && algorithm == old(algorithm)
    {
      if |s| < HeaderSize {
        return false, [];
      }
      I := c.readDouble(s[..8]);
      a := c.readDouble(s[8..16]);
      boundary := ByteChar(s[20]);
      algorithm := ByteChar(s[21]);
      if boundary == 'p' {
        SetPeriodicBoundaries();
      }
      good, rest := true, s[HeaderSize..];
    }

    /** dumpConf: the bytes of the angles, in order. */
    method DumpConf(c: HostCodec) returns (bs: seq<Byte>)
      requires Valid() && Faithful(c)
      ensures bs == RecordBytes(c, Phis(tslice))
    {
      bs := [];
      var i := xdim;
      while i > 0
        invariant 0 <= i <= xdim
        invariant bs == RecordBytes(c, Phis(tslice)[i..])
      {
        i := i - 1;
        assert Phis(tslice)[i..][1..] == Phis(tslice)[i + 1..];
        bs := c.double(tslice[i].phi) + bs;
      }
    }

    /** readConf from the stream s: the outcome of the record read (the
        source returns true exactly for a whole record, and stops the
        program on a record cut off after some whole doubles). The doubles
        read before the end of the stream are stored. */
    method ReadConf(c: HostCodec, s: seq<Byte>) returns (r: ConfRead)
      requires Valid()
      modifies this`tslice
      ensures Valid()
      ensures r == DecodeRecord(c, s, xdim)
      ensures r.Record? ==> tslice == WithPhis(old(tslice), r.phis)
      ensures r.CleanEnd? ==> tslice == old(tslice)
      ensures r.Truncated? ==> tslice == WithPhis(old(tslice), Doubles(c, s, r.count))
    {
      var i := 0;
      ghost var was := tslice;
      while i < xdim && DoubleSize * (i + 1) <= |s|
        invariant 0 <= i <= xdim && DoubleSize * i <= |s| && |tslice| == xdim
        invariant tslice == WithPhis(was, Doubles(c, s, i))
      {
        tslice := tslice[i := tslice[i].(phi := c.readDouble(s[DoubleSize * i..DoubleSize * i + DoubleSize]))];
        i := i + 1;
      }
      if i == xdim {
        r := Record(Doubles(c, s, xdim), s[DoubleSize * xdim..]);
      } else if i == 0 {
        r := CleanEnd;
      } else {
        r := Truncated(i);
      }
    }
  }

  /** As written, a default lattice built over a member xdim that held 0
      has no sites at all, where the default constructor asks for 10; the
      intended one has 10 sites at rest. */
  method DefaultSizeIndeterminate() returns (l: LatticeContainer, m: LatticeContainer)
    ensures l.Valid() && l.I == 0.25 && l.a == 0.2
    ensures l.xdim == 0 && l.tslice == []
    ensures m.Valid() && m.xdim == 10 && m.tslice == Initial(10)
  {
    l := new LatticeContainer.Default(0);
    m := new LatticeContainer.DefaultIntended();
  }
}
