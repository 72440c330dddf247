# Topological oscillator: a verified model of the lattice simulation core

The simulation handles a quantum rotor in Euclidean time. The rotor is
discretised on a periodic time lattice of `xdim` sites, and each site
carries an angle `phi`. Two Markov-chain updates equilibrate the lattice:
- a Metropolis sweep;
- a single-cluster update, which grows a cluster of linked sites and
  reflects it about a random axis.

The lattice measures the action, the topological charge `q`, the
plaquette, the correlator and the means of `phi` and `phi^2`. It writes
and reads binary configuration files. A parameter container collects the
run settings from the command line or from a tab-separated input file,
and file names are built from those settings.

This project models that core in Dafny:

- `timestep.dfy` (`Timestep`): one site (TimestepContainer) as a value:
  - its three constructors;
  - `mod2Pi`, `setRandom`, `applySymmetrization` and the reflection
    `getProjectedAngle`.
- `lattice_math.dfy` (`LatticeMath`): the lattice's observables as
  functions of the ring of sites. It proves locality, sign, bounds and
  reference values for them.
- `lattice.dfy` (`Lattice`): LatticeContainer as a class whose methods
  change its fields in place, each proved against the functions of
  `LatticeMath`.
- `config_format.dfy` (`ConfigFormat`): the byte layout of
  `dumpHeader`/`dumpConf`. Its round trips are proved.
- `metropolis.dfy` (`Metropolis`): the Metropolis sweep, as a loop
  proved against a specification fold over the sites.
- `cluster.dfy` (`Cluster`): the cluster update:
  - the two do-while walks of `createCluster` as loops, proved against a
    specification walk;
  - the borders, size and mean bond probability that follow;
  - the reflection of the cluster.
- `equilibration.dfy` (`Equilibration`): the factory that picks an
  update by name, and the common `doStep` interface.
- `parameters.dfy` (`Parameters`): ParameterContainer:
  - the name-to-field dispatch of `process`;
  - the blank and tab handling of input-file lines;
  - the command-line and input-file readers.
- `files.dfy` (`Files`): FileExtension and FileName:
  - the order and presence of the parts of a file name;
  - the search for the first free file id.
- `numerics.dfy`, `random.dfy`, `wrappers.dfy`: the C library numerics
  the code relies on, the random source, and `Option`.

The random generator (`mt19937_64`) is modelled as the sequence of the
canonical values in [0, 1) it will deliver. The distributions are written
over those values: `uniform_real_distribution(lo, hi)` is `lo + u*(hi -
lo)`, and `uniform_int_distribution(lo, hi)` is `lo + floor(u*(hi - lo +
1))`. The `Generator` class consumes the values one call at a time.

`cos` and `exp` are a parameter (`Analytic`). Where a lemma needs their
properties, it requires only the facts it uses (`Admissible`): bounds and
the sign of `exp` and `cos`.

Doubles are exact reals. `M_PI` is the exact rational value of its
binary64 representation.

## Model

| member | source | states |
|---|---|---|
| Timestep.SiteAt | timestep.cpp:24-28 | the site has the given id and angle, and its neighbours are the ids just before and after it |
| Timestep.SiteWithPhi | timestep.cpp:17-21 | the phi-only constructor is the site at id 1 with that angle |
| Timestep.DefaultSite | timestep.cpp:10-14 | the default constructor is the phi-only constructor with angle 0 |
| Timestep.Mod2Pi | timestep.cpp:40-44 | only the angle changes; it lands in [-Pi, Pi] and differs from the old angle by a whole number of turns |
| Timestep.Mod2PiSwapsEnds | timestep.cpp:43 | rounding half away from zero sends Pi to -Pi and -Pi to Pi, so mod2Pi is not idempotent at the ends |
| Timestep.ProjectedAngle | timestep.cpp:61-68 | the new angle is the mirror image of phi about the axis angle + Pi/2 (their midpoint); reflecting it again gives back phi |
| Timestep.ApplySymmetrization | timestep.cpp:55-58 | only the angle changes; sym 0 leaves the site alone, and sym = Nsym adds one full turn |
| Timestep.SymmetrizationsCompose | timestep.cpp:55-58 | two rotations with the same Nsym equal one rotation by the sum of the two syms |
| Timestep.WithRandomAngle | timestep.cpp:47-53 | only the angle changes, to a value in [0, 2*Pi) |
| Numerics.Abs | file.cpp:34 | fabs: a non-negative value equal to x or -x |
| Numerics.Round | lattice.cpp:210 | round: within 1/2 of x, with ties going away from zero |
| Numerics.Trunc | lattice.cpp:207 | truncation toward zero: it never passes x, and is within 1 of it |
| Numerics.FmodTwoPiBounds | lattice.cpp:207 | fmod by 2*Pi keeps the dividend's sign and stays strictly below 2*Pi in magnitude |
| Numerics.Lerp | timestep.cpp:50-51 | a uniform real draw from [lo, hi) lies in [lo, hi) |
| Numerics.TruncRem | cluster.cpp:123 | C's % on int: for a non-negative dividend it is the mathematical remainder; for a negative one it is in (-n, 0] |
| Random.UniformIntValue | cluster.cpp:148-149 | a uniform integer draw from [lo, hi] lies in [lo, hi] |
| Random.Generator.Next | cluster.cpp:87 | one draw returns the first pending value and consumes it |
| Random.Generator.UniformReal | timestep.cpp:50-51 | a real draw consumes one value and returns the point that fraction of the way from lo to hi |
| Random.Generator.UniformInt | cluster.cpp:148-149 | an integer draw consumes one value and lies in [lo, hi] |
| LatticeMath.GetId | lattice.cpp:100-103 | getId maps any index from -xdim upwards onto the ring; an index less than one turn outside it is shifted by exactly one turn |
| LatticeMath.PeriodicIsModular | lattice.cpp:112-121 | on a closed ring the neighbour ids are (i-1+xdim) mod xdim and (i+1) mod xdim |
| LatticeMath.Initial | lattice.cpp:24-28 | the constructor's loop puts site i at id i with angle 0, for each of the xdim sites |
| LatticeMath.ClosedRing | lattice.cpp:112-121 | setPeriodicBoundaries rewires only the first site's left neighbour (to xdim-1) and the last site's right neighbour (to 0); ids, angles and all other links stay |
| LatticeMath.ClosedInitialIsPeriodic | lattice.cpp:9-29 | closing the sites a constructor built gives the periodic ring |
| LatticeMath.ClosingPeriodicIsIdentity | lattice.cpp:112-121 | closing an already periodic ring changes nothing (setPeriodicBoundaries is idempotent) |
| LatticeMath.ActionSummand | lattice.cpp:137-140 | a link's action is never negative when I/a >= 0, and is 0 when the two angles are equal |
| LatticeMath.LocalAction | lattice.cpp:148-153 | the local action at a trial angle is never negative when I/a >= 0, and is 0 when both neighbours hold that angle |
| LatticeMath.CurrentLocalAction | lattice.cpp:142-146 | where the left neighbour links back to x, the local action at x's own angle is the sum of the action summands of the two links at x |
| LatticeMath.LocalActionIsLocal | lattice.cpp:148-153 | the local action at x depends only on the trial angle and the angles of x's two neighbours |
| LatticeMath.ConstantAction | lattice.cpp:156-166 | a configuration with all angles equal has action 0 |
| LatticeMath.ActionNonNegative | lattice.cpp:156-166 | with a non-negative coupling I/a the action is never negative |
| LatticeMath.LocalPlaquette | lattice.cpp:242-245 | a local plaquette lies in [-1, 1], and is 1 when the two angles are equal |
| LatticeMath.ConstantPlaquette | lattice.cpp:234-240 | a configuration with all angles equal has plaquette 1 |
| LatticeMath.ChargeLink | lattice.cpp:206-210 | one link contributes a value in [-Pi, Pi], and exactly Pi on the branch cut |
| LatticeMath.ChargeLinkIsReducedDifference | lattice.cpp:206-210 | off the branch cut, a link contributes the angle difference less a whole number of turns |
| LatticeMath.ChargeSumUpTo | lattice.cpp:204-214 | the sum over k links lies within [-k*Pi, k*Pi] |
| LatticeMath.Charge | lattice.cpp:201-216 | the topological charge is at most xdim/2 in magnitude |
| LatticeMath.ConstantCharge | lattice.cpp:201-216 | a configuration with all angles equal has charge 0 |
| LatticeMath.OneWinding | lattice.cpp:201-216 | four sites at 0, Pi/2, Pi and 3Pi/2 on a closed ring have charge exactly 1 |
| LatticeMath.MeanPhi | lattice.cpp:260-268 | a configuration with one angle everywhere has that angle as its mean |
| LatticeMath.MeanPhiSq | lattice.cpp:270-279 | the mean of phi squared is never negative |
| LatticeMath.CorrAt | lattice.cpp:219-232 | a configuration with one angle everywhere has that angle squared as its correlation at every separation |
| LatticeMath.CorrAtZeroIsMeanPhiSq | lattice.cpp:219-232 | the correlator at separation 0 equals the mean of phi squared |
| Lattice.MatchesReflexive | lattice.cpp:78-97 | every lattice equals itself under operator== |
| Lattice.MatchesNotSymmetric | lattice.cpp:94 | the angle test is one-sided, so operator== is not symmetric: a lattice whose angle lies far below another's equals it, but not the other way round |
| Lattice.DefaultSizeIndeterminate | lattice.cpp:32-37 | as written, a default lattice built over a member xdim that held 0 has no sites at all, while the intended default has 10 sites at rest |
| Lattice.LatticeContainer.constructor | lattice.cpp:9-29 | the constants are the arguments; markers, charge and mean are cleared; there are xdim sites at ids 0 .. xdim-1 with angle 0 and xdim zero correlation entries |
| Lattice.LatticeContainer.WithoutTheta | lattice.cpp:32-33 | as written: the size and the number of sites at rest are the value the member xdim held, whatever xdimIn is; theta is 0 and the markers are cleared |
| Lattice.LatticeContainer.WithoutThetaIntended | lattice.cpp:32-33 | as intended: xdimIn sites at rest, theta 0, markers cleared |
| Lattice.LatticeContainer.FromParameters | lattice.cpp:40-41 | as the four-argument constructor with the run parameters' I, a, xdim and theta |
| Lattice.LatticeContainer.Default | lattice.cpp:36-37 | as written: I = 0.25 and a = 0.2 through the three-argument constructor, so the size is the value the member xdim held, not 10 |
| Lattice.LatticeContainer.DefaultIntended | lattice.cpp:36-37 | as intended: I = 0.25, a = 0.2 and 10 sites at rest |
| Lattice.LatticeContainer.Copy | lattice.cpp:44-58 | constants, markers, charge and correlation are copied; the sites are copied and re-closed when the boundary is periodic |
| Lattice.LatticeContainer.Equals | lattice.cpp:78-97 | the result is true exactly when constants and markers agree and no angle of the other lattice lies more than the tolerance above this one's |
| Lattice.LatticeContainer.CopyContent | lattice.cpp:105-109 | the first xdim angles of the other lattice are taken; ids and everything else stay |
| Lattice.LatticeContainer.SetPeriodicBoundaries | lattice.cpp:112-121 | the ring is closed and the boundary marked periodic |
| Lattice.LatticeContainer.SetZero | lattice.cpp:124-128 | every angle becomes 0 and nothing else changes, so the configuration is constant |
| Lattice.LatticeContainer.SetRandom | lattice.cpp:131-135 | site i takes draw i as its angle, in [0, 2*Pi); exactly xdim draws are consumed |
| Lattice.LatticeContainer.Mod2Pi | lattice.cpp:194-198 | every site is reduced by the site's mod2Pi, so every angle is in [-Pi, Pi] |
| Lattice.LatticeContainer.GetAction | lattice.cpp:156-166 | the loop returns the total action |
| Lattice.LatticeContainer.ComputeQ | lattice.cpp:201-216 | q becomes the winding number of the ring, so it is at most xdim/2 in magnitude |
| Lattice.LatticeContainer.ComputeCorr | lattice.cpp:219-232 | every corr[j] becomes the mean of phi[i]*phi[i+j] around the ring |
| Lattice.LatticeContainer.AccumulateCorr | lattice.cpp:226-228 | the inner loop adds the ring sum for separation j to corr[j] alone |
| Lattice.LatticeContainer.ComputePlaquette | lattice.cpp:234-240 | the loop returns the mean plaquette |
| Lattice.LatticeContainer.ComputeMeanPhi | lattice.cpp:260-268 | the loop returns the mean angle |
| Lattice.LatticeContainer.ComputeMeanPhiSq | lattice.cpp:270-279 | the loop stores and returns the mean squared angle, which is non-negative |
| Lattice.LatticeContainer.DumpHeader | lattice.cpp:303-320 | the bytes written are the encoded header (I, a, xdim, boundary, algorithm) and have the header size |
| Lattice.LatticeContainer.ReadHeader | lattice.cpp:323-350 | a complete header sets I, a, boundary and algorithm and closes the ring when the boundary is 'p'; a stream that is too short changes nothing |
| Lattice.LatticeContainer.DumpConf | lattice.cpp:353-363 | the bytes written are the angles' record, in site order |
| Lattice.LatticeContainer.ReadConf | lattice.cpp:366-393 | the outcome is the record decoder's (a whole record, a clean end, or a record cut off); the angles read are stored and the rest of the lattice stays |
| ConfigFormat.CharByte | lattice.cpp:312-313 | a marker char is written as the one byte with its code |
| ConfigFormat.ByteChar | lattice.cpp:332-333 | a byte read into a char gives the char with that code |
| ConfigFormat.CharRoundTrip | lattice.cpp:312-333 | a marker written and read back is the same char |
| ConfigFormat.HeaderBytes | lattice.cpp:309-313 | the header is 22 bytes: I (8), a (8), xdim (4), then boundary and algorithm (one byte each) |
| ConfigFormat.ParseHeader | lattice.cpp:329-333 | reading a header takes the first 22 bytes in the same layout and leaves the rest of the stream |
| ConfigFormat.HeaderRoundTrip | lattice.cpp:303-350 | a header written and read back is the same header, and the bytes after it are untouched |
| ConfigFormat.RecordBytes | lattice.cpp:353-363 | a configuration is 8 bytes per angle |
| ConfigFormat.Doubles | lattice.cpp:369-374 | the first k angles read are the decoded consecutive 8-byte groups of the stream |
| ConfigFormat.DecodeRecord | lattice.cpp:366-393 | readConf for n sites reads a whole record exactly when the stream holds n doubles; it reports a clean end when not even one double is left, and a cut-off record otherwise |
| ConfigFormat.RecordBytesAt | lattice.cpp:355-356 | the i-th group of 8 bytes written is the encoding of the i-th angle |
| ConfigFormat.RecordRoundTrip | lattice.cpp:353-393 | a configuration written and read back gives the same angles and leaves the bytes after it |
| ConfigFormat.RecordsBytesAppend | createConfigs.cpp:71-86 | dumping more configurations appends their records after the records already written |
| ConfigFormat.FileRoundTrip | lattice.cpp:303-393 | a file of a header followed by configurations reads back as the same header and the same configurations, in order |
| ConfigFormat.RecordsRoundTrip | lattice.cpp:353-393 | a run of configurations reads back record for record, until the clean end |
| Metropolis.Proposal | metropolis.cpp:40-43 | the proposed angle is within abs(deltaIn) of the old one, and deltaIn 0 proposes the old angle |
| Metropolis.Accepts | metropolis.cpp:45-49 | a proposal that lowers or keeps the local action is accepted whatever the draw |
| Metropolis.MetropolisTest | metropolis.cpp:45-49 | the acceptance test can be asked about any site of a linked ring |
| Metropolis.Visit | metropolis.cpp:40-54 | a visit of site i changes only site i's angle, and raises the accepted count by at most one |
| Metropolis.SweepUpTo | metropolis.cpp:38-56 | a partial sweep keeps every neighbour link, and accepts at most one proposal per visited site |
| Metropolis.Sweep | metropolis.cpp:38-56 | a sweep keeps every neighbour link, and accepts between 0 and xdim proposals |
| Metropolis.SweepLeavesRest | metropolis.cpp:38 | sites the sweep has not reached yet keep their angles |
| Metropolis.SweepKeepsVisited | metropolis.cpp:38 | a site the sweep has passed is never changed again |
| Metropolis.SweepSite | metropolis.cpp:40-54 | after the sweep, site j holds its proposal if the test accepted it on the sites as updated so far, and its pre-sweep angle otherwise |
| Metropolis.SweepNeighbours | metropolis.cpp:38-56 | on a closed ring, site j's test sees its left neighbour already updated (for site 0, the last site not yet updated) and its right neighbour not yet updated |
| Metropolis.SweepMovesWithinDelta | metropolis.cpp:38-56 | no angle moves by more than abs(deltaIn) in a sweep |
| Metropolis.MetropolisAcceptsUnchanged | metropolis.cpp:45-49 | with dS = 0 the test always accepts, since exp(0) = 1 is at least any draw |
| Metropolis.ZeroWidthSweep | metropolis.cpp:30-59 | a sweep with deltaIn = 0 changes no angle and accepts every site |
| Metropolis.SweepAdvance | metropolis.cpp:40-54 | one loop body extends the specified sweep by exactly one site |
| Metropolis.Acceptance | metropolis.cpp:58 | the acceptance lies in [0, 1] and is 1 exactly when every proposal was accepted |
| Metropolis.ProposeAndTest | metropolis.cpp:40-49 | the body draws the proposal and then the test value, consuming two draws, and accepts exactly when the test holds |
| Metropolis.SweepSites | metropolis.cpp:38-56 | the loop computes the specified sweep and consumes exactly 2*xdim draws |
| Metropolis.SweepStep | metropolis.cpp:40-54 | one pass of the loop extends the specified sweep by one site and consumes two draws |
| Metropolis.MetropolisContainer.constructor | metropolis.cpp:10-19 | the update works on the given lattice (not a copy), with the parameters' delta and acceptance 0 |
| Metropolis.MetropolisContainer.DoStepWithDelta | metropolis.cpp:30-59 | the lattice's angles become the sweep's, the algorithm marker becomes 'm', and acceptance is the accepted fraction |
| Metropolis.MetropolisContainer.DoStep | metropolis.cpp:61-64 | the same, with the delta fixed at construction |
| Cluster.BondProbability | cluster.cpp:54-59 | a bond probability is always below 1 |
| Cluster.BondProbabilitySign | cluster.cpp:54-59 | a bond probability has the sign of the weight (I/a) cos(angle - phi_i) cos(angle - phi_i+1) |
| Cluster.LinkProbability | cluster.cpp:54-59 | getBondProbability is defined for every link of the ring |
| Cluster.LinkProbabilityBelowOne | cluster.cpp:54-59 | every link's bond probability is below 1 |
| Cluster.RightProbsAt | cluster.cpp:81-90 | the t-th step of the right walk tries the link from start+t to its right neighbour, taken around the ring |
| Cluster.LeftProbsAt | cluster.cpp:112-121 | the t-th step of the left walk tries the link from start-t-1 to its right neighbour, taken around the ring |
| Cluster.Run | cluster.cpp:75-92 | a walk takes between one step and its limit |
| Cluster.RunStops | cluster.cpp:75-92 | a walk accepted every link before its last step, and when it stops short of its limit, its last draw exceeded that link's probability |
| Cluster.RunUnique | cluster.cpp:75-92 | any step count with those two properties is the walk's own: the stopping rule determines the walk |
| Cluster.ClusterWalk | cluster.cpp:62-138 | the right border is start plus the right steps less one, the left border is start less the left steps plus one, and the size is the span between them; the cluster holds between 1 and xdim sites and contains start; bondProb is the mean of the accepted probabilities |
| Cluster.WalkStepsDetermineCluster | cluster.cpp:62-138 | two walks that stop by the rule fix the borders, the size and the mean bond probability |
| Cluster.RightLinksAccepted | cluster.cpp:75-92 | every link inside the cluster right of start had its draw at most its probability |
| Cluster.LeftLinksAccepted | cluster.cpp:106-123 | every link inside the cluster left of start had its draw, taken after the right walk's draws, at most its probability |
| Cluster.BorderLinksRejected | cluster.cpp:92-123 | unless the cluster covers the ring, the links just outside both borders were rejected |
| Cluster.ClusterShape | cluster.cpp:95-129 | the cluster never sticks out on both sides of the range 0 .. xdim-1; a right walk all the way round leaves one left step; a left walk that reaches the right border makes the cluster the whole ring |
| Cluster.SumOfAccepted | cluster.cpp:78 | when each of the first k draws is in [0, 1) and at most its probability, which is below 1, the sum of those k probabilities lies in [0, k], strictly below k when k > 0 |
| Cluster.MeanOfAccepted | cluster.cpp:133-137 | the mean of the accepted probabilities is in [0, 1) |
| Cluster.BondProbInUnitInterval | cluster.cpp:133-137 | when every link probability is below 1, bondProb is in [0, 1) |
| Cluster.WalkProbsBelowOne | cluster.cpp:54-59 | every probability a walk tries is a link probability, hence below 1 |
| Cluster.RingRight | cluster.cpp:81-84 | step t of the right walk is at start+t around the ring; it is back at start exactly after xdim steps, and at 0 exactly when it wrapped past the last site |
| Cluster.RingLeft | cluster.cpp:112-115 | step t of the left walk is at start-t around the ring, and at xdim-1 exactly when it wrapped below 0 |
| Cluster.LeftWalkMeetsRightBorder | cluster.cpp:123 | the left walk reaches the right border's position exactly after xdim - m + 1 steps, where m is the number of right steps |
| Cluster.RightEndOnRing | cluster.cpp:123 | rightBorder % xdim, with C's remainder, is the right border's ring position |
| Cluster.ClusterGrowsByOne | cluster.cpp:156-160 | each pass of the projection loop adds exactly one new ring position to the part already reflected |
| Cluster.Reflect | cluster.cpp:155-160 | a site in the cluster (borders taken around the ring) gets its angle reflected; every other site is unchanged |
| Cluster.ReflectTwice | cluster.cpp:155-160 | reflecting the same cluster about the same angle twice restores the sites |
| Cluster.ReflectKeepsRing | cluster.cpp:155-160 | the reflection changes only angles, so a periodic ring stays periodic |
| Cluster.ReflectionKeepsInnerLinks | cluster.cpp:155-160 | a link with both ends in the cluster keeps its action under the reflection |
| Cluster.StepRight | cluster.cpp:78-90 | one pass of the right do-while: it adds the previous probability, moves one site right, sets the overflow flag exactly when it wrapped, and draws once |
| Cluster.WalkRight | cluster.cpp:69-98 | the right loop stops by the rule and returns the right border, the accepted-probability sum and the draws it used |
| Cluster.StepLeft | cluster.cpp:109-121 | one pass of the left do-while: it adds the previous probability, moves one site left, sets the overflow flag exactly when it wrapped, and draws once |
| Cluster.WalkLeft | cluster.cpp:101-129 | the left loop stops by the rule, at the latest at the right border's position, and returns the left border and the sum |
| Cluster.GrowCluster | cluster.cpp:62-138 | createCluster's borders, size and bondProb are those of the specified walk, and it consumes exactly the draws the walks used |
| Cluster.DrawAndGrow | cluster.cpp:143-152 | the angle is uniform in [0, 2*Pi) and the start is uniform among the sites; the cluster then grows from there as specified |
| Cluster.ClusterContainer.constructor | cluster.cpp:10-25 | the update works on the given lattice, with every cluster variable 0 |
| Cluster.ClusterContainer.CreateCluster | cluster.cpp:62-138 | the borders, size and bondProb become those of the specified walk; the cluster contains start and has 1 to xdim sites |
| Cluster.ClusterContainer.ReflectCluster | cluster.cpp:155-160 | the sites become the reflection of the cluster |
| Cluster.ClusterContainer.DoStep | cluster.cpp:141-163 | one cluster step: the drawn angle and start, the specified cluster, its reflection, and the marker 'c' |
| Cluster.ClusterContainer.DoStepWithDelta | cluster.cpp:165-168 | the same as doStep: the width is ignored |
| Equilibration.SelectVariant | latticeEquilibrationFactory.hpp:17-28 | exactly "metropolis" selects the Metropolis update and exactly "cluster" the cluster update; every other name selects none |
| Equilibration.Marker | metropolis.cpp:57 | the Metropolis update marks the lattice 'm' and the cluster update marks it 'c' |
| Equilibration.NewLatticeEquilibrationFor | latticeEquilibrationFactory.hpp:13-29 | the factory returns nothing exactly for an unknown name; otherwise it returns a fresh update of the named kind on the given lattice, with its constructor's initial state |
| Equilibration.DoStepWithDelta | latticeEquilibration.hpp:12 | a step through the interface keeps the lattice, changes only its sites and marker, and leaves the update's marker; for Metropolis it is the specified sweep with deltaIn, the width is kept and 2 xdim draws are used; for the cluster update the angle is the first draw, the sites are those reflected about it over the specified walk, and exactly the walk's draws are used |
| Equilibration.DoStep | latticeEquilibration.hpp:13 | the same, with Metropolis using the width fixed at construction |
| Parameters.FieldNamed | parameters.cpp:223-306 | a name that process accepts selects the parameter with exactly that name |
| Parameters.FieldNamedInverse | parameters.cpp:223-306 | every parameter is selected by its own name, so no branch of process shadows another; with FieldNamed, a name selects a parameter exactly when it is that parameter's name |
| Parameters.NamesAreCaseSensitive | parameters.cpp:223-306 | names that differ only in case, such as "Xdim", "i" and "runname", are not accepted |
| Parameters.SettingsEqual | parameters.cpp:54-73 | settings that agree on every parameter compared by operator== are equal, so the comparison covers every field of the settings |
| Parameters.Assign | parameters.cpp:223-306 | storing a value sets that parameter to its converted text (stof, stoi or the string itself) and leaves every other parameter as it was |
| Parameters.ProcessedOverrides | parameters.cpp:223-306 | a later value for the same name overrides an earlier one |
| Parameters.ProcessedCommutes | parameters.cpp:223-306 | values for two different parameters can be given in either order |
| Parameters.ProcessAllAppend | parameters.cpp:141-144 | processing two lists of pairs in a row is processing their concatenation |
| Parameters.FindFrom | parameters.cpp:150 | a position string::find returns is at or after the start and holds an occurrence |
| Parameters.FindFromFirst | parameters.cpp:150 | the occurrence found is the first at or after the start, and none is missed when npos is returned |
| Parameters.Find | parameters.cpp:150 | a position found holds an occurrence |
| Parameters.FindFirst | parameters.cpp:150 | find returns the first occurrence, and npos exactly when there is none |
| Parameters.RemoveAllClean | parameters.cpp:171-180 | after erasing, no occurrence of the pattern is left, and the string has not grown |
| Parameters.Without | parameters.cpp:151-152 | the reference filter: the result holds no copy of the character |
| Parameters.WithoutAppend | parameters.cpp:151-152 | the filter distributes over concatenation |
| Parameters.RemoveCharIsWithout | parameters.cpp:171-180 | erasing a one-character pattern first-occurrence-first removes exactly every copy of that character, as the reference filter does |
| Parameters.RemoveSubstringFrom | parameters.cpp:171-180 | the loop returns the string with the pattern erased until no occurrence is left |
| Parameters.FilteredHasNoBlank | parameters.cpp:151-152 | a line with blanks and tabs removed holds neither |
| Parameters.FilteredAppend | parameters.cpp:151-152 | removing blanks and tabs distributes over concatenation |
| Parameters.SqueezedIsFiltered | parameters.cpp:151-152 | the two removals of extractAndProcessParameterFromLine together drop exactly the blanks and tabs and keep every other character in order |
| Parameters.TabAt | parameters.cpp:150 | the tab found is the first one: the line is the text before it, the tab, and the text after it |
| Parameters.SplitAsWritten | parameters.cpp:150-164 | as written: there is no split exactly when the line has no tab; substr throws exactly when the tab's position lies past the squeezed line; otherwise name and value together are the squeezed line, cut at the tab's position in the original line |
| Parameters.SplitLine | parameters.cpp:147-169 | a line has no name/value split exactly when it holds no tab; otherwise name and value are free of blanks and tabs |
| Parameters.SplitAgreesWithoutLeadingBlanks | parameters.cpp:150-164 | when no blank comes before the first tab, the split as written is the intended one |
| Parameters.SplitShape | parameters.cpp:150-164 | the intended split is the filtered text on either side of the tab; the split as written cuts the filtered line at the tab's position in the unfiltered line |
| Parameters.BlankBeforeTab | parameters.cpp:150-164 | with one blank between name and tab, the intended split gives the name and the value, while the split as written moves the value's first character onto the name |
| Parameters.BlankBeforeTabMisplacesSplit | parameters.cpp:150-164 | "xdim \t10" is read as xdim1 = 0 as written, and as xdim = 10 as intended |
| Parameters.BlankBeforeFinalTabThrows | parameters.cpp:164 | "I \t" makes the substr as written go out of range; the intended split gives I an empty value |
| Parameters.CommandPairs | parameters.cpp:183-220 | reading the command line ends in success, in the format error, or past the end of argv |
| Parameters.CommandPairsOfOptions | parameters.cpp:189-218 | from an odd position, "--name value" pairs whose values are not options read back as exactly those pairs, in order |
| Parameters.CommandLineOfOptions | parameters.cpp:183-220 | a command line of "--name value" pairs whose values are not options reads back as exactly those pairs, in order |
| Parameters.LinePairs | parameters.cpp:137-169 | reading a file takes each line's pair as the source splits it, and ends in success, at the first line without a tab, or at the first line whose substr throws |
| Parameters.LinePairsIntended | parameters.cpp:137-169 | the corrected reading: each line's pair as intended, ending in success or at the first line without a tab |
| Parameters.LinePairsAgreeWithoutLeadingBlanks | parameters.cpp:150-164 | a file none of whose lines has a blank before its tab is read as written exactly as intended: the same pairs and the same ending |
| Parameters.LinePairsStep | parameters.cpp:141-144 | reading lines k onwards processes line k's pair and then reads the rest; a line without a tab, or whose substr throws, ends the reading there with that status |
| Parameters.ParameterContainer.constructor | parameters.cpp:13-29 | the defaults: runName "test", I 1, theta 0, a 1, xdim 4, Nsteps 10000, NPermutationSets 1, Nsym -1, minNormConst 0, both directories "./out/", Nthermal 1000, algorithm "cluster", deltaMetro 0.5, fileId 0, verbosity 10; configFile is empty |
| Parameters.ParameterContainer.Equals | parameters.cpp:54-73 | true exactly when every parameter except configFile agrees |
| Parameters.ParameterContainer.Process | parameters.cpp:223-306 | the settings become those with the named parameter set from the text; an unknown name changes nothing |
| Parameters.ParameterContainer.ExtractAndProcessParameterFromLine | parameters.cpp:147-169 | the line is split as the source splits it: a pair sets its parameter; a line without a tab, or one whose substr would throw, changes nothing and reports which |
| Parameters.ParameterContainer.ExtractAndProcessParametersFromFile | parameters.cpp:137-145 | the lines' pairs are processed in order, as the source splits them, up to the first line without a tab or whose substr throws |
| Parameters.ParameterContainer.ReadInputCommand | parameters.cpp:183-220 | the command line's pairs are processed in order, up to the end or the first format error |
| Parameters.ParameterContainer.ReadInput | parameters.cpp:100-121 | with no argument nothing changes; one argument reads that parameter file, and a file that does not open changes nothing; more arguments are read as the command line |
| Parameters.ParameterContainer.ReadInputFile | parameters.cpp:123-135 | a file that does not open changes nothing; otherwise its lines are read as the source splits them |
| Files.Extension | file.cpp:19-53 | the extension is what appending each candidate part in fillExtension's order, when its condition holds, to the empty string gives |
| Files.JoinedSnoc | file.cpp:65-68 | writing out one more part appends "_" and its text |
| Files.Candidate | file.cpp:19-53 | the candidate part of each kind carries that kind |
| Files.Candidates | file.cpp:19-53 | fillExtension considers ten candidate parts, the i-th of rank i |
| Files.UptoJoined | file.cpp:19-53 | appending the candidates one at a time gives the prefix followed by the selected parts written out |
| Files.ExtensionByKind | file.cpp:19-53 | the extension after any prefix is that prefix with the ten candidates appended in the order of fillExtension |
| Files.SelectedAscending | file.cpp:19-53 | candidates selected from ranks 0, 1, 2, ... keep their ranks strictly increasing |
| Files.PartsAscending | file.cpp:19-53 | the parts appear in the fixed order runName, minC, I, theta, a, xdim, Metro, delta, Cluster, Nsym, each at most once, all before the id |
| Files.SnocHasKind | file.cpp:65-68 | appending a part adds exactly its kind to the kinds present |
| Files.SelectedHasKind | file.cpp:19-53 | a kind is among the selected parts exactly when the candidate at its rank was selected |
| Files.CandidateAtRank | file.cpp:19-53 | the candidate at a kind's rank is the candidate of that kind |
| Files.KindPresent | file.cpp:19-53 | a kind other than the id is in the extension exactly when its condition holds |
| Files.PartsAlwaysPresent | file.cpp:33-38 | I, a and xdim are always in the extension, and fillExtension never adds an id |
| Files.RunPartsPresent | file.cpp:21-52 | the run name appears exactly outside configuration files; minC exactly outside them when minNormConst > 1e-20; theta exactly outside them when abs(theta) > 1e-15; Nsym exactly outside them when Nsym >= 0 |
| Files.AlgorithmPartsPresent | file.cpp:40-48 | Metro and delta appear exactly for "metropolis", and Cluster exactly for "cluster" |
| Files.ConfOmitsRunParts | file.cpp:21-52 | a configuration file's name never holds the run name, minC, theta or Nsym |
| Files.NextFreeIndex | file.cpp:108-120 | the probe loop returns the least id from 0 upwards whose name has no file |
| Files.EmptyPrefixPicksTakenName | file.cpp:108-120 | probing names built from the empty fullName can choose id 0 while the full name of id 0 already exists, where probing the full name would not |
| Files.FileExtension.constructor | file.cpp:13-17 | the extension is the one fillExtension builds for the file type and the parameters |
| Files.FileExtension.AddToExtension | file.cpp:65-68 | appends "_" and the text |
| Files.FileExtension.AddIntToExtension | file.cpp:55-58 | appends "_", the name and the int's text |
| Files.FileExtension.AddRealToExtension | file.cpp:60-63 | appends "_", the name and the double's text |
| Files.FileExtension.FillExtension | file.cpp:19-53 | the extension grows by exactly the specified parts, in order |
| Files.FileName.constructor | file.cpp:71-78 | the name keeps the type and directory; the id is fileId, or for -1 the least id free for the probe on the still empty fullName, so the names probed are "_id0", "_id1", ...; the extension ends with that id; the full name is directory, type and extension |
| Files.FileName.Intended | file.cpp:71-78 | as intended: for fileId -1 the least id whose full name, directory + type + extension + "_id" + id, has no file |
| Files.FileName.FillFileName | file.cpp:80-85 | the id is added, searched for on the current fullName when it is -1, then the full name is formed |
| Files.FileName.FillFileNameIntended | file.cpp:80-85 | as intended: the id is searched for on the full name being built, then the full name is formed |
| Files.FileName.AddIdToExtension | file.cpp:101-106 | an id other than -1 is kept, -1 becomes the least id free for the probe on fullName, and "_id" with that id is appended |
| Files.FileName.AddIdToExtensionIntended | file.cpp:101-106 | as intended: -1 becomes the least id whose full name has no file |
| Files.FileName.GetNextFreeIndex | file.cpp:108-120 | the id becomes the least one from 0 upwards for which fullName + "_id" + id has no file |
| Files.FileName.GetNextFreeIndexIntended | file.cpp:108-120 | as intended: the least id from 0 upwards whose full name has no file |
| Files.FileName.CreateNameString | file.cpp:128-131 | the full name is directory, type and extension, with no separator |

## Left out

- Files and streams are not modelled: opening, creating, removing and closing files, `mkdir`/`stat` (`checkAndCreateDirectory`), the text dumps, `writeInfosToFile` and the `File`, `FileObs` and `FileConfig` classes. Instead:
  - the existence test of `getNextFreeIndex` is a function parameter `exist`;
  - the parameter file is a function `contents` from a name to its lines;
  - configurations are byte sequences.
- `exit(0)` on a fatal input error, and the messages printed to `cout`/`cerr`, become a returned status (`NoInput`, `Unopenable`, `WrongFormat`, `MissingTab`, or the `Truncated` outcome of a record). The `out_of_range` exception that `substr` throws for a misplaced tab ends the program too; it becomes the status `SubstrThrows`.
- `mt19937_64` and the standard distributions are modelled as the sequence of canonical draws in [0, 1) and the formulas over them given above. The real engine's bit stream and its distribution algorithms are not reproduced.
- Floating point is modelled as exact real arithmetic. `cos` and `exp` are supplied functions, with only the facts the proofs use. No rounding error, NaN or infinity is modelled.
- `stof`, `stoi`, `to_string` and the `scientific` stream format are supplied functions (`Parsers`, `Formats`). Their exceptions on malformed text are not modelled.
- The host's byte encodings of `double` and `int` are a supplied `HostCodec`. The model assumes only that encodings have the C sizes and decode back to the value (`Faithful`).
- The complex-action functions of the lattice (the theta/alpha weights and `computeComplexPlaquette`) are not modelled. theta is only stored and compared.
- Pretty-printers are not modelled: the `operator<<` overloads, with their ANSI colouring, and `showOptions`.
- The `ParameterContainer` argument of the Metropolis and cluster constructors serves only their output files. The cluster constructor takes just the lattice, and the Metropolis constructor takes only `deltaMetro` from the settings.
- `configFile` is declared but never set by the source. The model keeps it as a field that every method leaves unchanged.
- Lattice.LatticeContainer.ReadHeader: requires the stored xdim to equal the lattice's own, because the source overwrites xdim without resizing the sites. A header cut short changes nothing, whereas the source would keep the bytes read so far.
- Lattice.LatticeContainer.ReadConf: a double cut short at the end of the stream is not stored. The source would keep its partly overwritten bytes.
- Lattice.LatticeContainer.constructor: requires a non-negative xdimIn. With a negative one, `reserve` throws `length_error`, and that is not modelled.
- Lattice.LatticeContainer.FromParameters: requires a non-negative xdim in the settings, for the same reason; a negative `--xdim` reaches `reserve` through this constructor.
- Lattice.LatticeContainer.WithoutTheta: the value the uninitialised member xdim held is a parameter, and it must be non-negative. With a negative one, `reserve` throws `length_error`, and that is not modelled.
- Lattice.LatticeContainer.Default: takes the uninitialised member's value as a parameter, as WithoutTheta does, with the same requirement. DefaultIntended gives the 10 sites the source asks for.
- The action, the Metropolis test and the bond probability require a != 0. The source divides by a, and with a = 0 the result would be infinite.
- Metropolis.MetropolisContainer.DoStepWithDelta: requires at least one site, because the source's acceptance would be 0/0 on an empty lattice.
- Cluster.ClusterContainer.DoStep: requires a closed ring with at least one site, because the walk follows neighbour ids that must stay inside the ring.
- Timestep.ApplySymmetrization: requires Nsym != 0, because the source's division by 0 gives an infinite angle.
- Parameters.RemoveSubstringFrom: requires a non-empty pattern, because with an empty one the source's loop never ends.
- Parameters.ParameterContainer.ReadInputCommand: requires that the walk never reaches a name in the last position, because the source then reads `argv[argc]`.
- Files.NextFreeIndex: requires that some id is free. With every name taken, the source's `int` counter would overflow. The FileName constructors and the methods that search for an id carry the same requirement.

## Findings

| source | as written | input that shows it | evidently intended | confidence | as-written member | corrected member |
|---|---|---|---|---|---|---|
| parameters.cpp:150-164 | the position of the first tab in the original line is used to cut the line after all blanks and tabs have been removed | the line "xdim \t10" sets xdim1 to "0" instead of xdim to "10"; "I \t" makes `substr` throw | the name is the text before the first tab and the value the text after it, each without blanks | high, not executed | Parameters.BlankBeforeTabMisplacesSplit | Parameters.LinePairsIntended |
| file.cpp:80-85 | `getNextFreeIndex` runs before `createNameString`, so it probes `fullName + "_id" + i` while `fullName` is still empty | fileId -1 with the file "<dir><type><extension>_id0" present and no file "_id0" in the working directory: id 0 is chosen, the name of a file that already exists | probe directory + type + extension + "_id" + i | high, not executed | Files.EmptyPrefixPicksTakenName | Files.FileName.AddIdToExtensionIntended |
| lattice.cpp:32-33 | the three-argument constructor forwards the member `xdim`, which is not yet initialised, instead of its argument | the default constructor asks for 10 sites, and the size it gets is whatever the member held | forward `xdimIn` | high, not executed | Lattice.DefaultSizeIndeterminate | Lattice.LatticeContainer.WithoutThetaIntended |
