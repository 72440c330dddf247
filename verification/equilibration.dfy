/** The common interface of the two lattice updates and the factory that
    picks one by the parameter equilibrationAlgorithm. */
module Equilibration {
  import opened Wrappers
  import opened Numerics
  import opened Random
  import opened Lattice
  import opened Metropolis
  import opened Cluster
  import Parameters

  /** The updates the factory knows. */
  datatype Variant = MetropolisVariant | ClusterVariant

  /** The update a name selects: exact, case-sensitive comparison. */
  function SelectVariant(name: string): (r: Option<Variant>)
    ensures r == Some(MetropolisVariant) <==> name == "metropolis"
    ensures r == Some(ClusterVariant) <==> name == "cluster"
    ensures r == None <==> name != "metropolis" && name != "cluster"
  {
    if name == "metropolis" then Some(MetropolisVariant)
    else if name == "cluster" then Some(ClusterVariant)
    else None
  }

  /** The algorithm marker each update leaves on the lattice. */
  function Marker(v: Variant): (c: char)
    ensures c == 'm' <==> v == MetropolisVariant
    ensures c == 'c' <==> v == ClusterVariant
  {
    match v
    case MetropolisVariant => 'm'
    case ClusterVariant => 'c'
  }

  /** A LatticeEquilibration: one of the two updates. */
  datatype Update = MetropolisUpdate(m: MetropolisContainer) | ClusterUpdate(c: ClusterContainer)
  {
    function Kind(): Variant
    {
      match this
      case MetropolisUpdate(_) => MetropolisVariant
      case ClusterUpdate(_) => ClusterVariant
    }

    /** The container object behind the update. */
    function Owner(): object
    {
      match this
      case MetropolisUpdate(m) => m
      case ClusterUpdate(c) => c
    }

    /** The lattice the update works on. */
    function LatticeOf(): LatticeContainer
      reads Owner()
    {
      match this
      case MetropolisUpdate(m) => m.lattice
      case ClusterUpdate(c) => c.lattice
    }

    /** The update can run a step. */
    predicate Ready()
      reads Owner(), LatticeOf()
    {
      match this
      case MetropolisUpdate(m) => m.Ready()
      case ClusterUpdate(c) => c.Ready()
    }

    /** The canonical draws one step may take at most. */
    function DrawsNeeded(): int
      reads Owner(), LatticeOf()
    {
      match this
      case MetropolisUpdate(m) => 2 * m.lattice.xdim
      case ClusterUpdate(c) => c.lattice.xdim + 3
    }
  }

  /** NewLatticeEquilibrationFor: a fresh Metropolis or cluster update on
      the given lattice (not a copy), or none for any other name. */
  method NewLatticeEquilibrationFor(l: LatticeContainer, p: Parameters.Settings) returns (e: Option<Update>)
    ensures e.None? <==> SelectVariant(p.equilibrationAlgorithm).None?
    ensures e.Some? ==> Some(e.value.Kind()) == SelectVariant(p.equilibrationAlgorithm)
    ensures e.Some? ==> fresh(e.value.Owner()) && e.value.LatticeOf() == l
    ensures e.Some? && e.value.MetropolisUpdate? ==> e.value.m.delta == p.deltaMetro && e.value.m.acceptance == 0.0
    ensures e.Some? && e.value.ClusterUpdate? ==>
      var c := e.value.c;
      c.start == 0 && c.angle == 0.0 && c.leftBorder == 0 && c.rightBorder == 0 && c.size == 0 && c.bondProb == 0.0
  {
    if p.equilibrationAlgorithm == "metropolis" {
      var m := new MetropolisContainer(l, p);
      e := Some(MetropolisUpdate(m));
    } else if p.equilibrationAlgorithm == "cluster" {
      var c := new ClusterContainer(l);
      e := Some(ClusterUpdate(c));
    } else {
      e := None;
    }
  }

  /** doStep(seed, deltaIn) through the interface: the update's own step,
      leaving its marker on the lattice. Of the lattice only the sites and
      the marker change; a Metropolis update keeps its width. */
  method DoStepWithDelta(e: Update, f: Analytic, gen: Generator, deltaIn: real)
    requires e.Ready() && |gen.draws| >= e.DrawsNeeded()
    modifies e.Owner(), e.LatticeOf()`tslice, e.LatticeOf()`algorithm, gen
    ensures e.LatticeOf() == old(e.LatticeOf())
    ensures e.Ready() && e.LatticeOf().algorithm == Marker(e.Kind())
    ensures e.MetropolisUpdate? ==>
      var r := Sweep(f, old(e.m.lattice.I), old(e.m.lattice.a), old(e.m.lattice.tslice), deltaIn, old(gen.draws));
      && e.m.lattice.tslice == r.sites && e.m.acceptance == Acceptance(r.accepted, |old(e.m.lattice.tslice)|)
      && e.m.delta == old(e.m.delta)
      && gen.draws == old(gen.draws)[2 * |old(e.m.lattice.tslice)|..]
    ensures e.ClusterUpdate? ==>
      var w := StepWalk(f, old(e.c.lattice.I), old(e.c.lattice.a), old(e.c.lattice.tslice), old(gen.draws));
      && e.c.angle == Lerp(0.0, TwoPi, old(gen.draws)[0])
      && e.c.lattice.tslice == Reflect(old(e.c.lattice.tslice), w.leftBorder, w.rightBorder, e.c.angle)
      && gen.draws == old(gen.draws)[2 + w.rightSteps + w.leftSteps..]
  {
    match e
    case MetropolisUpdate(m) => m.DoStepWithDelta(f, gen, deltaIn);
    case ClusterUpdate(c) => c.DoStepWithDelta(f, gen, deltaIn);
  }

  /** doStep(seed) through the interface: as doStepWithDelta, with a
      Metropolis update's own width. */
  method DoStep(e: Update, f: Analytic, gen: Generator)
    requires e.Ready() && |gen.draws| >= e.DrawsNeeded()
    modifies e.Owner(), e.LatticeOf()`tslice, e.LatticeOf()`algorithm, gen
    ensures e.LatticeOf() == old(e.LatticeOf())
    ensures e.Ready() && e.LatticeOf().algorithm == Marker(e.Kind())
    ensures e.MetropolisUpdate? ==>
      var r := Sweep(f, old(e.m.lattice.I), old(e.m.lattice.a), old(e.m.lattice.tslice), old(e.m.delta), old(gen.draws));
      && e.m.lattice.tslice == r.sites && e.m.acceptance == Acceptance(r.accepted, |old(e.m.lattice.tslice)|)
      && e.m.delta == old(e.m.delta)
      && gen.draws == old(gen.draws)[2 * |old(e.m.lattice.tslice)|..]
    ensures e.ClusterUpdate? ==>
      var w := StepWalk(f, old(e.c.lattice.I), old(e.c.lattice.a), old(e.c.lattice.tslice), old(gen.draws));
      && e.c.angle == Lerp(0.0, TwoPi, old(gen.draws)[0])
      && e.c.lattice.tslice == Reflect(old(e.c.lattice.tslice), w.leftBorder, w.rightBorder, e.c.angle)
      && gen.draws == old(gen.draws)[2 + w.rightSteps + w.leftSteps..]
  {
    match e
    case MetropolisUpdate(m) => m.DoStep(f, gen);
    case ClusterUpdate(c) => c.DoStep(f, gen);
  }
}
