/** Output file names: an extension made of "_"-prefixed parts chosen from
    the run parameters, an id part, and the name directory + type +
    extension. The library conversions to_string and scientific output are
    supplied as functions, the file system as an existence test. */
module Files {
  import opened Numerics
  import Parameters

  /** to_string(int), to_string(double) and scientific output. */
  datatype Formats = Formats(intText: int -> string, realText: real -> string, scientific: real -> string)

  /** minNormConst is part of the name above this value. */
  const MinNormConstShown: real := 0.000_000_000_000_000_000_01

  /** theta is part of the name when its magnitude exceeds this value. */
  const ThetaShown: real := 0.000_000_000_000_001

  /** The parts an extension can hold, in their order. */
  datatype PartKind =
    | RunNamePart | MinCPart | IPart | ThetaPart | APart | XdimPart
    | MetroPart | DeltaPart | ClusterPart | NsymPart | IdPart

  function Rank(k: PartKind): nat
  {
    match k
    case RunNamePart => 0
    case MinCPart => 1
    case IPart => 2
    case ThetaPart => 3
    case APart => 4
    case XdimPart => 5
    case MetroPart => 6
    case DeltaPart => 7
    case ClusterPart => 8
    case NsymPart => 9
    case IdPart => 10
  }

  /** One part: its kind and its text, the "_" not included. */
  datatype Part = Part(kind: PartKind, text: string)

  /** What addToExtension appends for a text. */
  function Piece(text: string): string
  {
    "_" + text
  }

  /** The parts written out, each after a "_". */
  function Joined(ps: seq<Part>): (s: string)
    ensures |s| >= |ps|
  {
    if ps == [] then [] else Joined(ps[..|ps| - 1]) + Piece(ps[|ps| - 1].text)
  }

  lemma JoinedSnoc(ps: seq<Part>, part: Part)
    ensures Joined(ps + [part]) == Joined(ps) + Piece(part.text)
  {
    assert (ps + [part])[..|ps|] == ps;
  }

  /** The part of kind k that fillExtension may append, with the condition
      under which it is appended: the run name only outside configurations,
      minC only outside configurations and when set, I, theta only outside
      configurations and when visible, a, xdim, Metro and delta for
      "metropolis", Cluster for "cluster", Nsym only outside configurations
      and when set. The id is not appended here. */
  function Candidate(k: PartKind, filetype: string, p: Parameters.Settings, fmt: Formats): (c: (bool, Part))
    requires k != IdPart
    ensures c.1.kind == k
  {
    var notConf := filetype != "Conf";
    var metro := p.equilibrationAlgorithm == "metropolis";
    match k
    case RunNamePart => (notConf, Part(k, p.runName))
    case MinCPart => (notConf && p.minNormConst > MinNormConstShown, Part(k, "minC" + fmt.scientific(p.minNormConst)))
    case IPart => (true, Part(k, "I" + fmt.realText(p.I)))
    case ThetaPart => (notConf && Abs(p.theta) > ThetaShown, Part(k, "theta" + fmt.realText(p.theta)))
    case APart => (true, Part(k, "a" + fmt.realText(p.a)))
    case XdimPart => (true, Part(k, "xdim" + fmt.intText(p.xdim)))
    case MetroPart => (metro, Part(k, "Metro"))
    case DeltaPart => (metro, Part(k, "delta" + fmt.realText(p.deltaMetro)))
    case ClusterPart => (!metro && p.equilibrationAlgorithm == "cluster", Part(k, "Cluster"))
    case NsymPart => (notConf && p.Nsym >= 0, Part(k, "Nsym" + fmt.intText(p.Nsym)))
  }

  /** The kind of rank i. */
  function KindAt(i: nat): (k: PartKind)
    requires i <= 10
    ensures Rank(k) == i
  {
    if i == 0 then RunNamePart
    else if i == 1 then MinCPart
    else if i == 2 then IPart
    else if i == 3 then ThetaPart
    else if i == 4 then APart
    else if i == 5 then XdimPart
    else if i == 6 then MetroPart
    else if i == 7 then DeltaPart
    else if i == 8 then ClusterPart
    else if i == 9 then NsymPart
    else IdPart
  }

  /** The candidates in the order fillExtension appends them. */
  function Candidates(filetype: string, p: Parameters.Settings, fmt: Formats): (cs: seq<(bool, Part)>)
    ensures |cs| == 10 && forall i :: 0 <= i < 10 ==> Rank(cs[i].1.kind) == i
  {
    seq(10, i requires 0 <= i < 10 => Candidate(KindAt(i), filetype, p, fmt))
  }

  /** The candidates whose condition holds, in order. */
  function Selected(cs: seq<(bool, Part)>): seq<Part>
  {
    if cs == [] then []
    else Selected(cs[..|cs| - 1]) + (if cs[|cs| - 1].0 then [cs[|cs| - 1].1] else [])
  }

  /** s with a candidate's piece appended when its condition holds. */
  function AddChunk(s: string, c: (bool, Part)): string
  {
    if c.0 then s + Piece(c.1.text) else s
  }

  /** A prefix with the pieces of the first k candidates appended in turn,
      each only when its condition holds. */
  function Upto(start: string, cs: seq<(bool, Part)>, k: nat): string
    requires k <= |cs|
  {
    if k == 0 then start else AddChunk(Upto(start, cs, k - 1), cs[k - 1])
  }

  /** Appending the candidates one by one gives the prefix followed by the
      join of the selected ones. */
  lemma {:induction false} UptoJoined(start: string, cs: seq<(bool, Part)>, k: nat)
    requires k <= |cs|
    ensures Upto(start, cs, k) == start + Joined(Selected(cs[..k]))
  {
    if k == 0 {
      assert cs[..0] == [] && start + [] == start;
    } else {
      var n := k - 1;
      UptoJoined(start, cs, n);
      SelectedStep(cs, k);
      var ps := Selected(cs[..n]);
      if cs[n].0 {
        JoinedSnoc(ps, cs[n].1);
        ConcatAssoc(start, Joined(ps), Piece(cs[n].1.text));
      } else {
        assert ps + [] == ps;
      }
    }
  }

  lemma ConcatAssoc(a: string, b: string, c: string)
    ensures (a + b) + c == a + (b + c)
  {
  }

  lemma SelectedStep(cs: seq<(bool, Part)>, k: nat)
    requires 1 <= k <= |cs|
    ensures Selected(cs[..k]) == Selected(cs[..k - 1]) + (if cs[k - 1].0 then [cs[k - 1].1] else [])
  {
    assert cs[..k][..k - 1] == cs[..k - 1];
  }

  /** Ten candidates appended in turn, written out. */
  lemma TenUpto(start: string, cs: seq<(bool, Part)>)
    requires |cs| == 10
    ensures Upto(start, cs, 10)
      == AddChunk(AddChunk(AddChunk(AddChunk(AddChunk(AddChunk(AddChunk(AddChunk(AddChunk(AddChunk(
           start, cs[0]), cs[1]), cs[2]), cs[3]), cs[4]), cs[5]), cs[6]), cs[7]), cs[8]), cs[9])
  {
    assert Upto(start, cs, 1) == AddChunk(start, cs[0]);
    assert Upto(start, cs, 2) == AddChunk(Upto(start, cs, 1), cs[1]);
    assert Upto(start, cs, 3) == AddChunk(Upto(start, cs, 2), cs[2]);
    assert Upto(start, cs, 4) == AddChunk(Upto(start, cs, 3), cs[3]);
    assert Upto(start, cs, 5) == AddChunk(Upto(start, cs, 4), cs[4]);
    assert Upto(start, cs, 6) == AddChunk(Upto(start, cs, 5), cs[5]);
    assert Upto(start, cs, 7) == AddChunk(Upto(start, cs, 6), cs[6]);
    assert Upto(start, cs, 8) == AddChunk(Upto(start, cs, 7), cs[7]);
    assert Upto(start, cs, 9) == AddChunk(Upto(start, cs, 8), cs[8]);
  }

  /** The parts of fillExtension for a file type and the run parameters. */
  function Parts(filetype: string, p: Parameters.Settings, fmt: Formats): seq<Part>
  {
    Selected(Candidates(filetype, p, fmt))
  }

  /** The extension fillExtension builds: the selected parts joined, which
      is the empty string with each candidate appended in turn when its
      condition holds. */
  function Extension(filetype: string, p: Parameters.Settings, fmt: Formats): (e: string)
    ensures e == Upto([], Candidates(filetype, p, fmt), 10)
  {
    var cs := Candidates(filetype, p, fmt);
    UptoJoined([], cs, 10);
    assert cs[..10] == cs;
    Joined(Parts(filetype, p, fmt))
  }

  /** The extension after a prefix, candidate by candidate in the order
      fillExtension appends them. */
  lemma ExtensionByKind(start: string, filetype: string, p: Parameters.Settings, fmt: Formats)
    ensures start + Extension(filetype, p, fmt)
      == AddChunk(AddChunk(AddChunk(AddChunk(AddChunk(AddChunk(AddChunk(AddChunk(AddChunk(AddChunk(start,
           Candidate(RunNamePart, filetype, p, fmt)), Candidate(MinCPart, filetype, p, fmt)),
           Candidate(IPart, filetype, p, fmt)), Candidate(ThetaPart, filetype, p, fmt)),
           Candidate(APart, filetype, p, fmt)), Candidate(XdimPart, filetype, p, fmt)),
           Candidate(MetroPart, filetype, p, fmt)), Candidate(DeltaPart, filetype, p, fmt)),
           Candidate(ClusterPart, filetype, p, fmt)), Candidate(NsymPart, filetype, p, fmt))
  {
    var cs := Candidates(filetype, p, fmt);
    UptoJoined(start, cs, 10);
    TenUpto(start, cs);
    assert cs[..10] == cs;
  }

  // ------------------------------------------------------------ order and presence

  /** Ranks strictly increase along the parts. */
  predicate Ascending(ps: seq<Part>)
  {
    forall i, j :: 0 <= i < j < |ps| ==> Rank(ps[i].kind) < Rank(ps[j].kind)
  }

  /** Every part ranks below r. */
  predicate Below(ps: seq<Part>, r: nat)
  {
    forall i :: 0 <= i < |ps| ==> Rank(ps[i].kind) < r
  }

  /** Selecting from candidates ranked 0, 1, 2, ... keeps ranks increasing. */
  lemma {:induction false} SelectedAscending(cs: seq<(bool, Part)>)
    requires forall i :: 0 <= i < |cs| ==> Rank(cs[i].1.kind) == i
    ensures Ascending(Selected(cs)) && Below(Selected(cs), |cs|)
    decreases |cs|
  {
    if cs != [] {
      var n := |cs| - 1;
      SelectedAscending(cs[..n]);
      if cs[n].0 {
        var ps := Selected(cs[..n]);
        assert Selected(cs) == ps + [cs[n].1];
        assert forall i :: 0 <= i < |ps| ==> (ps + [cs[n].1])[i] == ps[i];
      }
    }
  }

  /** The parts appear in the fixed order runName, minC, I, theta, a, xdim,
      Metro, delta, Cluster, Nsym, each at most once, and all rank below
      the id part. */
  lemma PartsAscending(filetype: string, p: Parameters.Settings, fmt: Formats)
    ensures Ascending(Parts(filetype, p, fmt)) && Below(Parts(filetype, p, fmt), Rank(IdPart))
  {
    SelectedAscending(Candidates(filetype, p, fmt));
  }

  /** Some part is of kind k. */
  predicate HasKind(ps: seq<Part>, k: PartKind)
  {
    exists i :: 0 <= i < |ps| && ps[i].kind == k
  }

  lemma SnocHasKind(ps: seq<Part>, part: Part, k: PartKind)
    ensures HasKind(ps + [part], k) <==> HasKind(ps, k) || part.kind == k
  {
    if HasKind(ps, k) {
      var i :| 0 <= i < |ps| && ps[i].kind == k;
      assert (ps + [part])[i] == ps[i];
    }
    assert (ps + [part])[|ps|] == part;
  }

  /** Different kinds have different ranks. */
  lemma RankDetermines(k1: PartKind, k2: PartKind)
    ensures Rank(k1) == Rank(k2) <==> k1 == k2
  {
  }

  /** From candidates ranked 0, 1, 2, ..., a kind is selected exactly when
      the candidate at its rank is. */
  lemma {:induction false} SelectedHasKind(cs: seq<(bool, Part)>, k: PartKind)
    requires forall i :: 0 <= i < |cs| ==> Rank(cs[i].1.kind) == i
    ensures HasKind(Selected(cs), k) <==> Rank(k) < |cs| && cs[Rank(k)].0
    decreases |cs|
  {
    if cs != [] {
      var n := |cs| - 1;
      assert Rank(cs[n].1.kind) == n;
      SelectedHasKind(cs[..n], k);
      RankDetermines(cs[n].1.kind, k);
      if Rank(k) < n {
        assert cs[..n][Rank(k)] == cs[Rank(k)];
      }
      if cs[n].0 {
        assert Selected(cs) == Selected(cs[..n]) + [cs[n].1];
        SnocHasKind(Selected(cs[..n]), cs[n].1, k);
      } else {
        assert Selected(cs) == Selected(cs[..n]) + [] == Selected(cs[..n]);
        assert HasKind(Selected(cs), k) == HasKind(Selected(cs[..n]), k);
      }
    }
  }

  /** The candidate at a kind's rank is the candidate of that kind. */
  lemma CandidateAtRank(filetype: string, p: Parameters.Settings, fmt: Formats, k: PartKind)
    requires k != IdPart
    ensures Rank(k) < 10 && Candidates(filetype, p, fmt)[Rank(k)] == Candidate(k, filetype, p, fmt)
  {
    RankDetermines(KindAt(Rank(k)), k);
  }

  /** A kind other than the id is among the parts exactly when its
      candidate's condition holds. */
  lemma KindPresent(filetype: string, p: Parameters.Settings, fmt: Formats, k: PartKind)
    requires k != IdPart
    ensures HasKind(Parts(filetype, p, fmt), k) <==> Candidate(k, filetype, p, fmt).0
  {
    SelectedHasKind(Candidates(filetype, p, fmt), k);
    CandidateAtRank(filetype, p, fmt, k);
  }

  /** I, a and xdim are always in the extension; an id never is. */
  lemma PartsAlwaysPresent(filetype: string, p: Parameters.Settings, fmt: Formats)
    ensures var ps := Parts(filetype, p, fmt);
      HasKind(ps, IPart) && HasKind(ps, APart) && HasKind(ps, XdimPart) && !HasKind(ps, IdPart)
  {
    KindPresent(filetype, p, fmt, IPart);
    KindPresent(filetype, p, fmt, APart);
    KindPresent(filetype, p, fmt, XdimPart);
    SelectedHasKind(Candidates(filetype, p, fmt), IdPart);
  }

  /** The run name only outside configurations; minC, theta and Nsym only
      outside configurations and only when set. */
  lemma RunPartsPresent(filetype: string, p: Parameters.Settings, fmt: Formats)
    ensures var ps := Parts(filetype, p, fmt); var notConf := filetype != "Conf";
      && (HasKind(ps, RunNamePart) <==> notConf)
      && (HasKind(ps, MinCPart) <==> notConf && p.minNormConst > MinNormConstShown)
      && (HasKind(ps, ThetaPart) <==> notConf && Abs(p.theta) > ThetaShown)
      && (HasKind(ps, NsymPart) <==> notConf && p.Nsym >= 0)
  {
    KindPresent(filetype, p, fmt, RunNamePart);
    KindPresent(filetype, p, fmt, MinCPart);
    KindPresent(filetype, p, fmt, ThetaPart);
    KindPresent(filetype, p, fmt, NsymPart);
  }

  /** Metro and delta exactly for "metropolis", Cluster exactly for
      "cluster". */
  lemma AlgorithmPartsPresent(filetype: string, p: Parameters.Settings, fmt: Formats)
    ensures var ps := Parts(filetype, p, fmt);
      && (HasKind(ps, MetroPart) <==> p.equilibrationAlgorithm == "metropolis")
      && (HasKind(ps, DeltaPart) <==> p.equilibrationAlgorithm == "metropolis")
      && (HasKind(ps, ClusterPart) <==> p.equilibrationAlgorithm == "cluster")
  {
    KindPresent(filetype, p, fmt, MetroPart);
    KindPresent(filetype, p, fmt, DeltaPart);
    KindPresent(filetype, p, fmt, ClusterPart);
  }

  /** A configuration file's name never holds the run name, minC, theta or
      Nsym. */
  lemma ConfOmitsRunParts(p: Parameters.Settings, fmt: Formats)
    ensures var ps := Parts("Conf", p, fmt);
      !HasKind(ps, RunNamePart) && !HasKind(ps, MinCPart) && !HasKind(ps, ThetaPart) && !HasKind(ps, NsymPart)
  {
    RunPartsPresent("Conf", p, fmt);
  }

  // ------------------------------------------------------------ free index

  /** The name probed for index i. */
  function NameWithId(prefix: string, fmt: Formats, i: int): string
  {
    prefix + "_id" + fmt.intText(i)
  }

  /** Some index at or above 0 has no file. */
  ghost predicate SomeFree(exist: string -> bool, prefix: string, fmt: Formats)
  {
    exists k :: 0 <= k && !exist(NameWithId(prefix, fmt, k))
  }

  /** i is the least index at or above 0 whose name has no file. */
  ghost predicate IsLeastFree(exist: string -> bool, prefix: string, fmt: Formats, i: int)
  {
    0 <= i && !exist(NameWithId(prefix, fmt, i))
      && forall j :: 0 <= j < i ==> exist(NameWithId(prefix, fmt, j))
  }

  /** The loop of getNextFreeIndex: probe 0, 1, 2, ... until a name has no
      file. It ends because some index is free. */
  method NextFreeIndex(exist: string -> bool, prefix: string, fmt: Formats) returns (i: int)
    requires SomeFree(exist, prefix, fmt)
    ensures IsLeastFree(exist, prefix, fmt, i)
  {
    ghost var k :| 0 <= k && !exist(NameWithId(prefix, fmt, k));
    i := 0;
    var dummyName := NameWithId(prefix, fmt, i);
    while exist(dummyName)
      invariant 0 <= i <= k && dummyName == NameWithId(prefix, fmt, i)
      invariant forall j :: 0 <= j < i ==> exist(NameWithId(prefix, fmt, j))
      decreases k - i
    {
      i := i + 1;
      dummyName := NameWithId(prefix, fmt, i);
    }
  }

  /** With nothing yet in fullName the probed names lack directory, type
      and extension: when only the full name of id 0 exists, the probe
      finds id 0 free and the file name chosen is the existing one, where
      probing the full name would have moved on. */
  lemma EmptyPrefixPicksTakenName(prefix: string, fmt: Formats)
    requires prefix != []
    ensures var exist := (s: string) => s == NameWithId(prefix, fmt, 0);
      && IsLeastFree(exist, [], fmt, 0)
      && exist(NameWithId(prefix, fmt, 0))
      && !IsLeastFree(exist, prefix, fmt, 0)
  {
    assert |NameWithId([], fmt, 0)| < |NameWithId(prefix, fmt, 0)|;
  }

  // ------------------------------------------------------------ the classes

  class FileExtension {
    var fullExtension: string

    /** An extension filled for the file type and the parameters. */
    constructor (filetype: string, p: Parameters.Settings, fmt: Formats)
      ensures fullExtension == Extension(filetype, p, fmt)
    {
      fullExtension := "";
      new;
      FillExtension(filetype, p, fmt);
    }

    /** addToExtension(variable). */
    method AddToExtension(variable: string)
      modifies this
      ensures fullExtension == old(fullExtension) + Piece(variable)
    {
      fullExtension := fullExtension + "_" + variable;
    }

    /** addToExtension(variable, int value). */
    method AddIntToExtension(variable: string, value: int, fmt: Formats)
      modifies this
      ensures fullExtension == old(fullExtension) + Piece(variable + fmt.intText(value))
    {
      fullExtension := fullExtension + Piece(variable + fmt.intText(value));
    }

    /** addToExtension(variable, double value). */
    method AddRealToExtension(variable: string, value: real, fmt: Formats)
      modifies this
      ensures fullExtension == old(fullExtension) + Piece(variable + fmt.realText(value))
    {
      fullExtension := fullExtension + Piece(variable + fmt.realText(value));
    }

    /** fillExtension: the parts for the file type appended in order. */
    method FillExtension(filetype: string, p: Parameters.Settings, fmt: Formats)
      modifies this
      ensures fullExtension == old(fullExtension) + Extension(filetype, p, fmt)
    {
      ExtensionByKind(fullExtension, filetype, p, fmt);
      ghost var want := fullExtension;
      if filetype != "Conf" {
        AddToExtension(p.runName);
        if p.minNormConst > MinNormConstShown {
          AddToExtension("minC" + fmt.scientific(p.minNormConst));
        }
      }
      want := AddChunk(AddChunk(want, Candidate(RunNamePart, filetype, p, fmt)), Candidate(MinCPart, filetype, p, fmt));
      assert fullExtension == want;
      AddRealToExtension("I", p.I, fmt);
      if filetype != "Conf" && Abs(p.theta) > ThetaShown {
        AddRealToExtension("theta", p.theta, fmt);
      }
      want := AddChunk(AddChunk(want, Candidate(IPart, filetype, p, fmt)), Candidate(ThetaPart, filetype, p, fmt));
      assert fullExtension == want;
      AddRealToExtension("a", p.a, fmt);
      AddIntToExtension("xdim", p.xdim, fmt);
      want := AddChunk(AddChunk(want, Candidate(APart, filetype, p, fmt)), Candidate(XdimPart, filetype, p, fmt));
      assert fullExtension == want;
      if p.equilibrationAlgorithm == "metropolis" {
        AddToExtension("Metro");
        AddRealToExtension("delta", p.deltaMetro, fmt);
      } else if p.equilibrationAlgorithm == "cluster" {
        AddToExtension("Cluster");
      }
      want := AddChunk(AddChunk(AddChunk(want, Candidate(MetroPart, filetype, p, fmt)), Candidate(DeltaPart, filetype, p, fmt)),
                       Candidate(ClusterPart, filetype, p, fmt));
      assert fullExtension == want;
      if filetype != "Conf" {
        if p.Nsym >= 0 {
          AddIntToExtension("Nsym", p.Nsym, fmt);
        }
      }
      want := AddChunk(want, Candidate(NsymPart, filetype, p, fmt));
    }
  }

  class FileName {
    var fullName: string
    var fileType: string
    var extension: FileExtension
    var directory: string
    var index: int

    /** A file name of the given type in the given directory: the extension
        for the parameters, the id fileId and the full name. For fileId -1
        the id is the least one free for the probe of getNextFreeIndex,
        which runs while fullName is still empty: the names probed are
        "_id0", "_id1", ... without directory, type or extension. */
    constructor (filetype: string, dir: string, p: Parameters.Settings, fmt: Formats, exist: string -> bool)
      requires p.fileId == -1 ==> SomeFree(exist, [], fmt)
      ensures fileType == filetype && directory == dir && fresh(extension)
      ensures p.fileId != -1 ==> index == p.fileId
      ensures p.fileId == -1 ==> IsLeastFree(exist, [], fmt, index)
      ensures extension.fullExtension == Extension(filetype, p, fmt) + Piece("id" + fmt.intText(index))
      ensures fullName == dir + filetype + extension.fullExtension
    {
      fullName, fileType, directory, index := "", filetype, dir, p.fileId;
      extension := new FileExtension(filetype, p, fmt);
      new;
      FillFileName(fmt, exist);
    }

    /** The constructor as intended: for fileId -1, the least id whose
        full name has no file. */
    constructor Intended(filetype: string, dir: string, p: Parameters.Settings, fmt: Formats, exist: string -> bool)
      requires p.fileId == -1 ==> SomeFree(exist, dir + filetype + Extension(filetype, p, fmt), fmt)
      ensures fileType == filetype && directory == dir && fresh(extension)
      ensures p.fileId != -1 ==> index == p.fileId
      ensures p.fileId == -1 ==> IsLeastFree(exist, dir + filetype + Extension(filetype, p, fmt), fmt, index)
      ensures extension.fullExtension == Extension(filetype, p, fmt) + Piece("id" + fmt.intText(index))
      ensures fullName == dir + filetype + extension.fullExtension
    {
      fullName, fileType, directory, index := "", filetype, dir, p.fileId;
      extension := new FileExtension(filetype, p, fmt);
      new;
      FillFileNameIntended(fmt, exist);
    }

    /** fillFileName: the id is added, then the full name is formed. The
        directory creation is not part of this model. */
    method FillFileName(fmt: Formats, exist: string -> bool)
      requires index == -1 ==> SomeFree(exist, fullName, fmt)
      modifies this`index, this`fullName, extension
      ensures old(index) != -1 ==> index == old(index)
      ensures old(index) == -1 ==> IsLeastFree(exist, old(fullName), fmt, index)
      ensures extension.fullExtension == old(extension.fullExtension) + Piece("id" + fmt.intText(index))
      ensures fullName == directory + fileType + extension.fullExtension
    {
      AddIdToExtension(fmt, exist);
      CreateNameString();
    }

    /** fillFileName as intended, probing the full name being built. */
    method FillFileNameIntended(fmt: Formats, exist: string -> bool)
      requires index == -1 ==> SomeFree(exist, directory + fileType + extension.fullExtension, fmt)
      modifies this`index, this`fullName, extension
      ensures old(index) != -1 ==> index == old(index)
      ensures old(index) == -1 ==> IsLeastFree(exist, directory + fileType + old(extension.fullExtension), fmt, index)
      ensures extension.fullExtension == old(extension.fullExtension) + Piece("id" + fmt.intText(index))
      ensures fullName == directory + fileType + extension.fullExtension
    {
      AddIdToExtensionIntended(fmt, exist);
      CreateNameString();
    }

    /** addIdToExtension: for index -1 the least id free for the probe on
        fullName, then the id part. */
    method AddIdToExtension(fmt: Formats, exist: string -> bool)
      requires index == -1 ==> SomeFree(exist, fullName, fmt)
      modifies this`index, extension
      ensures old(index) != -1 ==> index == old(index)
      ensures old(index) == -1 ==> IsLeastFree(exist, fullName, fmt, index)
      ensures extension.fullExtension == old(extension.fullExtension) + Piece("id" + fmt.intText(index))
    {
      if index == -1 {
        GetNextFreeIndex(fmt, exist);
      }
      extension.AddIntToExtension("id", index, fmt);
    }

    /** addIdToExtension as intended: for index -1 the least id whose full
        name has no file, then the id part. */
    method AddIdToExtensionIntended(fmt: Formats, exist: string -> bool)
      requires index == -1 ==> SomeFree(exist, directory + fileType + extension.fullExtension, fmt)
      modifies this`index, extension
      ensures old(index) != -1 ==> index == old(index)
      ensures old(index) == -1 ==> IsLeastFree(exist, directory + fileType + old(extension.fullExtension), fmt, index)
      ensures extension.fullExtension == old(extension.fullExtension) + Piece("id" + fmt.intText(index))
    {
      if index == -1 {
        GetNextFreeIndexIntended(fmt, exist);
      }
      extension.AddIntToExtension("id", index, fmt);
    }

    /** getNextFreeIndex: probe fullName + "_id" + i for i = 0, 1, ... */
    method GetNextFreeIndex(fmt: Formats, exist: string -> bool)
      requires SomeFree(exist, fullName, fmt)
      modifies this`index
      ensures IsLeastFree(exist, fullName, fmt, index)
    {
      index := NextFreeIndex(exist, fullName, fmt);
    }

    /** getNextFreeIndex as intended, probing the full name with each id. */
    method GetNextFreeIndexIntended(fmt: Formats, exist: string -> bool)
      requires SomeFree(exist, directory + fileType + extension.fullExtension, fmt)
      modifies this`index
      ensures IsLeastFree(exist, directory + fileType + extension.fullExtension, fmt, index)
    {
      index := NextFreeIndex(exist, directory + fileType + extension.fullExtension, fmt);
    }

    /** createNameString: directory, type and extension, no separator. */
    method CreateNameString()
      modifies this`fullName
      ensures fullName == directory + fileType + extension.fullExtension
    {
      fullName := directory + fileType + extension.fullExtension;
    }
  }
}
