/** The run parameters: their defaults, the assignment of one parameter
    named by a string, equality, and the two ways of reading them: a
    parameter file of tab-separated name/value lines, or name/value pairs
    on the command line. The library conversions stof and stoi are
    supplied as functions. */
module Parameters {
  import opened Wrappers

  /** stof and stoi. */
  datatype Parsers = Parsers(stof: string -> real, stoi: string -> int)

  /** The parameters process can set, one per accepted name. */
  datatype Field =
    | RunNameParam | IParam | ThetaParam | AParam | XdimParam | NstepsParam
    | NPermutationSetsParam | NsymParam | MinNormConstParam | ConfigDirectoryParam
    | OutputDirectoryParam | NthermalParam | EquilibrationAlgorithmParam
    | DeltaMetroParam | FileIdParam | VerbosityParam

  /** The name under which process accepts a parameter. */
  function Name(f: Field): string
  {
    match f
    case RunNameParam => "runName"
    case IParam => "I"
    case ThetaParam => "theta"
    case AParam => "a"
    case XdimParam => "xdim"
    case NstepsParam => "Nsteps"
    case NPermutationSetsParam => "NPermutationSets"
    case NsymParam => "Nsym"
    case MinNormConstParam => "minNormConst"
    case ConfigDirectoryParam => "configDirectory"
    case OutputDirectoryParam => "outputDirectory"
    case NthermalParam => "Nthermal"
    case EquilibrationAlgorithmParam => "equilibrationAlgorithm"
    case DeltaMetroParam => "deltaMetro"
    case FileIdParam => "fileId"
    case VerbosityParam => "verbosity"
  }

  /** The parameter a name selects: exact, case-sensitive comparison with
      each accepted name in turn. */
  function FieldNamed(name: string): (r: Option<Field>)
    ensures r.Some? ==> Name(r.value) == name
  {
    if name == "runName" then Some(RunNameParam)
    else if name == "I" then Some(IParam)
    else if name == "theta" then Some(ThetaParam)
    else if name == "xdim" then Some(XdimParam)
    else if name == "a" then Some(AParam)
    else if name == "Nsteps" then Some(NstepsParam)
    else if name == "NPermutationSets" then Some(NPermutationSetsParam)
    else if name == "Nsym" then Some(NsymParam)
    else if name == "minNormConst" then Some(MinNormConstParam)
    else if name == "Nthermal" then Some(NthermalParam)
    else if name == "equilibrationAlgorithm" then Some(EquilibrationAlgorithmParam)
    else if name == "deltaMetro" then Some(DeltaMetroParam)
    else if name == "configDirectory" then Some(ConfigDirectoryParam)
    else if name == "outputDirectory" then Some(OutputDirectoryParam)
    else if name == "fileId" then Some(FileIdParam)
    else if name == "verbosity" then Some(VerbosityParam)
    else None
  }

  /** Every parameter is reached by its own name, so no branch of process
      is shadowed by an earlier one. */
  lemma FieldNamedInverse(f: Field)
    ensures FieldNamed(Name(f)) == Some(f)
  {
    match f
    case RunNameParam =>
    case IParam =>
    case ThetaParam =>
    case AParam =>
    case XdimParam =>
    case NstepsParam =>
    case NPermutationSetsParam =>
    case NsymParam =>
    case MinNormConstParam =>
    case ConfigDirectoryParam =>
    case OutputDirectoryParam =>
    case NthermalParam =>
    case EquilibrationAlgorithmParam =>
    case DeltaMetroParam =>
    case FileIdParam =>
    case VerbosityParam =>
  }

  /** Names differing only in case are not accepted. */
  lemma NamesAreCaseSensitive()
    ensures FieldNamed("Xdim") == None && FieldNamed("i") == None && FieldNamed("runname") == None
  {}

  /** A parameter's value, of the type of its field. */
  datatype Value = Text(s: string) | Real(r: real) | Int(k: int)

  /** The parameters that operator== compares: all but configFile. */
  datatype Settings = Settings(
    runName: string, I: real, theta: real, a: real, xdim: int, Nsteps: int,
    NPermutationSets: int, Nsym: int, minNormConst: real, configDirectory: string,
    outputDirectory: string, Nthermal: int, equilibrationAlgorithm: string,
    deltaMetro: real, fileId: int, verbosity: int)

  /** The defaults of the parameter constructor. */
  const Defaults: Settings := Settings(
    "test", 1.0, 0.0, 1.0, 4, 10000, 1, -1, 0.0, "./out/", "./out/", 1000, "cluster", 0.5, 0, 10)

  function Get(v: Settings, f: Field): Value
  {
    match f
    case RunNameParam => Text(v.runName)
    case IParam => Real(v.I)
    case ThetaParam => Real(v.theta)
    case AParam => Real(v.a)
    case XdimParam => Int(v.xdim)
    case NstepsParam => Int(v.Nsteps)
    case NPermutationSetsParam => Int(v.NPermutationSets)
    case NsymParam => Int(v.Nsym)
    case MinNormConstParam => Real(v.minNormConst)
    case ConfigDirectoryParam => Text(v.configDirectory)
    case OutputDirectoryParam => Text(v.outputDirectory)
    case NthermalParam => Int(v.Nthermal)
    case EquilibrationAlgorithmParam => Text(v.equilibrationAlgorithm)
    case DeltaMetroParam => Real(v.deltaMetro)
    case FileIdParam => Int(v.fileId)
    case VerbosityParam => Int(v.verbosity)
  }

  /** Settings agreeing on every parameter are equal. */
  lemma SettingsEqual(v: Settings, w: Settings)
    requires forall f :: Get(v, f) == Get(w, f)
    ensures v == w
  {
    assert Get(v, RunNameParam) == Get(w, RunNameParam);
    assert Get(v, IParam) == Get(w, IParam);
    assert Get(v, ThetaParam) == Get(w, ThetaParam);
    assert Get(v, AParam) == Get(w, AParam);
    assert Get(v, XdimParam) == Get(w, XdimParam);
    assert Get(v, NstepsParam) == Get(w, NstepsParam);
    assert Get(v, NPermutationSetsParam) == Get(w, NPermutationSetsParam);
    assert Get(v, NsymParam) == Get(w, NsymParam);
    assert Get(v, MinNormConstParam) == Get(w, MinNormConstParam);
    assert Get(v, ConfigDirectoryParam) == Get(w, ConfigDirectoryParam);
    assert Get(v, OutputDirectoryParam) == Get(w, OutputDirectoryParam);
    assert Get(v, NthermalParam) == Get(w, NthermalParam);
    assert Get(v, EquilibrationAlgorithmParam) == Get(w, EquilibrationAlgorithmParam);
    assert Get(v, DeltaMetroParam) == Get(w, DeltaMetroParam);
    assert Get(v, FileIdParam) == Get(w, FileIdParam);
    assert Get(v, VerbosityParam) == Get(w, VerbosityParam);
  }

  /** The value process stores for a parameter given as text: strings as
      they are, doubles through stof, ints through stoi. */
  function Converted(ps: Parsers, f: Field, text: string): Value
  {
    match f
    case RunNameParam => Text(text)
    case ConfigDirectoryParam => Text(text)
    case OutputDirectoryParam => Text(text)
    case EquilibrationAlgorithmParam => Text(text)
    case IParam => Real(ps.stof(text))
    case ThetaParam => Real(ps.stof(text))
    case AParam => Real(ps.stof(text))
    case MinNormConstParam => Real(ps.stof(text))
    case DeltaMetroParam => Real(ps.stof(text))
    case XdimParam => Int(ps.stoi(text))
    case NstepsParam => Int(ps.stoi(text))
    case NPermutationSetsParam => Int(ps.stoi(text))
    case NsymParam => Int(ps.stoi(text))
    case NthermalParam => Int(ps.stoi(text))
    case FileIdParam => Int(ps.stoi(text))
    case VerbosityParam => Int(ps.stoi(text))
  }

  /** The settings with one parameter set from its text: that parameter
      takes the converted value and every other keeps its own. */
  function Assign(v: Settings, ps: Parsers, f: Field, text: string): (r: Settings)
    ensures Get(r, f) == Converted(ps, f, text)
    ensures forall g :: g != f ==> Get(r, g) == Get(v, g)
  {
    match f
    case RunNameParam => v.(runName := text)
    case IParam => v.(I := ps.stof(text))
    case ThetaParam => v.(theta := ps.stof(text))
    case AParam => v.(a := ps.stof(text))
    case XdimParam => v.(xdim := ps.stoi(text))
    case NstepsParam => v.(Nsteps := ps.stoi(text))
    case NPermutationSetsParam => v.(NPermutationSets := ps.stoi(text))
    case NsymParam => v.(Nsym := ps.stoi(text))
    case MinNormConstParam => v.(minNormConst := ps.stof(text))
    case ConfigDirectoryParam => v.(configDirectory := text)
    case OutputDirectoryParam => v.(outputDirectory := text)
    case NthermalParam => v.(Nthermal := ps.stoi(text))
    case EquilibrationAlgorithmParam => v.(equilibrationAlgorithm := text)
    case DeltaMetroParam => v.(deltaMetro := ps.stof(text))
    case FileIdParam => v.(fileId := ps.stoi(text))
    case VerbosityParam => v.(verbosity := ps.stoi(text))
  }

  /** process(name, value) on the settings: the parameter of that name is
      set, an unknown name changes nothing. */
  function Processed(v: Settings, ps: Parsers, name: string, text: string): Settings
  {
    match FieldNamed(name)
    case None => v
    case Some(f) => Assign(v, ps, f, text)
  }

  /** A later value for the same name overrides an earlier one. */
  lemma ProcessedOverrides(v: Settings, ps: Parsers, name: string, x: string, y: string)
    ensures Processed(Processed(v, ps, name, x), ps, name, y) == Processed(v, ps, name, y)
  {
    if FieldNamed(name).Some? {
      var f := FieldNamed(name).value;
      var l, r := Assign(Assign(v, ps, f, x), ps, f, y), Assign(v, ps, f, y);
      forall g ensures Get(l, g) == Get(r, g) {}
      SettingsEqual(l, r);
    }
  }

  /** Values for two different parameters may be given in either order. */
  lemma ProcessedCommutes(v: Settings, ps: Parsers, n1: string, x: string, n2: string, y: string)
    requires FieldNamed(n1) != FieldNamed(n2)
    ensures Processed(Processed(v, ps, n1, x), ps, n2, y) == Processed(Processed(v, ps, n2, y), ps, n1, x)
  {
    if FieldNamed(n1).Some? && FieldNamed(n2).Some? {
      var f1, f2 := FieldNamed(n1).value, FieldNamed(n2).value;
      var l, r := Assign(Assign(v, ps, f1, x), ps, f2, y), Assign(Assign(v, ps, f2, y), ps, f1, x);
      forall g ensures Get(l, g) == Get(r, g) {}
      SettingsEqual(l, r);
    }
  }

  /** The settings after processing name/value pairs in order. */
  function ProcessAll(v: Settings, ps: Parsers, pairs: seq<(string, string)>): Settings
    decreases |pairs|
  {
    if pairs == [] then v else ProcessAll(Processed(v, ps, pairs[0].0, pairs[0].1), ps, pairs[1..])
  }

  lemma {:induction false} ProcessAllAppend(v: Settings, ps: Parsers, xs: seq<(string, string)>, ys: seq<(string, string)>)
    ensures ProcessAll(v, ps, xs + ys) == ProcessAll(ProcessAll(v, ps, xs), ps, ys)
    decreases |xs|
  {
    if xs != [] {
      assert (xs + ys)[0] == xs[0] && (xs + ys)[1..] == xs[1..] + ys;
      ProcessAllAppend(Processed(v, ps, xs[0].0, xs[0].1), ps, xs[1..], ys);
    } else {
      assert xs + ys == ys;
    }
  }

  // ------------------------------------------------------------ strings

  /** p occurs in s at position i. */
  predicate OccursAt(s: string, p: string, i: int)
  {
    0 <= i && i + |p| <= |s| && s[i..i + |p|] == p
  }

  /** string::find from position i: the first occurrence at or after i. */
  function FindFrom(s: string, p: string, i: nat): (r: Option<nat>)
    ensures r.Some? ==> i <= r.value && OccursAt(s, p, r.value)
    decreases |s| - i
  {
    if i + |p| > |s| then None
    else if s[i..i + |p|] == p then Some(i)
    else FindFrom(s, p, i + 1)
  }

  /** No occurrence at or after i comes before the one found, and none is
      missed. */
  lemma {:induction false} FindFromFirst(s: string, p: string, i: nat)
    ensures FindFrom(s, p, i).Some? ==> forall j :: i <= j < FindFrom(s, p, i).value ==> !OccursAt(s, p, j)
    ensures FindFrom(s, p, i).None? ==> forall j :: i <= j ==> !OccursAt(s, p, j)
    decreases |s| - i
  {
    if i + |p| <= |s| && s[i..i + |p|] != p {
      FindFromFirst(s, p, i + 1);
    }
  }

  /** string::find: the first position of p in s. */
  function Find(s: string, p: string): (r: Option<nat>)
    ensures r.Some? ==> OccursAt(s, p, r.value)
  {
    FindFrom(s, p, 0)
  }

  /** Find finds the first occurrence, and fails only when there is none. */
  lemma FindFirst(s: string, p: string)
    ensures Find(s, p).Some? ==> forall j :: 0 <= j < Find(s, p).value ==> !OccursAt(s, p, j)
    ensures Find(s, p).None? <==> forall j :: !OccursAt(s, p, j)
  {
    FindFromFirst(s, p, 0);
  }

  /** s with p erased, first occurrence first, until none is left. */
  function RemoveAll(s: string, p: string): string
    requires |p| > 0
    decreases |s|
  {
    match Find(s, p)
    case None => s
    case Some(i) => RemoveAll(s[..i] + s[i + |p|..], p)
  }

  /** Nothing of p is left after erasing, and nothing is added. */
  lemma {:induction false} RemoveAllClean(s: string, p: string)
    requires |p| > 0
    ensures forall j :: !OccursAt(RemoveAll(s, p), p, j)
    ensures |RemoveAll(s, p)| <= |s|
    decreases |s|
  {
    FindFirst(s, p);
    match Find(s, p)
    case None =>
    case Some(i) => RemoveAllClean(s[..i] + s[i + |p|..], p);
  }

  /** s without the character c: a reference for erasing one character. */
  function Without(s: string, c: char): (r: string)
    ensures forall k :: 0 <= k < |r| ==> r[k] != c
  {
    if s == [] then [] else (if s[0] == c then [] else [s[0]]) + Without(s[1..], c)
  }

  lemma {:induction false} WithoutAppend(s: string, t: string, c: char)
    ensures Without(s + t, c) == Without(s, c) + Without(t, c)
    decreases |s|
  {
    if s != [] {
      assert (s + t)[1..] == s[1..] + t;
      WithoutAppend(s[1..], t, c);
    } else {
      assert s + t == t;
    }
  }

  lemma {:induction false} WithoutNone(s: string, c: char)
    requires forall k :: 0 <= k < |s| ==> s[k] != c
    ensures Without(s, c) == s
    decreases |s|
  {
    if s != [] {
      WithoutNone(s[1..], c);
    }
  }

  /** Before the first occurrence of [c] there is no copy of c. */
  lemma NoOccurrenceNoChar(s: string, c: char, n: nat)
    requires n <= |s|
    requires forall j :: 0 <= j < n ==> !OccursAt(s, [c], j)
    ensures Without(s[..n], c) == s[..n]
  {
    forall k | 0 <= k < n ensures s[..n][k] != c {
      assert !OccursAt(s, [c], k);
      assert s[k..k + 1] == [s[k]];
    }
    WithoutNone(s[..n], c);
  }

  /** Dropping one copy of c does not change what Without keeps. */
  lemma WithoutDrop(s: string, c: char, i: nat)
    requires i < |s| && s[i] == c
    ensures Without(s, c) == Without(s[..i] + s[i + 1..], c)
  {
    var rest := s[i + 1..];
    assert s == s[..i] + ([c] + rest);
    assert ([c] + rest)[1..] == rest;
    WithoutAppend(s[..i], [c] + rest, c);
    WithoutAppend(s[..i], rest, c);
  }

  /** Erasing a one-character string erases every copy of the character
      and keeps the others in order. */
  lemma {:induction false} RemoveCharIsWithout(s: string, c: char)
    ensures RemoveAll(s, [c]) == Without(s, c)
    decreases |s|
  {
    match Find(s, [c])
    case None =>
      FindFirst(s, [c]);
      NoOccurrenceNoChar(s, c, |s|);
      assert s[..|s|] == s;
    case Some(i) =>
      assert s[i..i + 1] == [c];
      RemoveAllStep(s, [c], i);
      RemoveCharIsWithout(s[..i] + s[i + 1..], c);
      WithoutDrop(s, c, i);
  }

  lemma RemoveAllStep(s: string, p: string, i: nat)
    requires |p| > 0 && Find(s, p) == Some(i)
    ensures RemoveAll(s, p) == RemoveAll(s[..i] + s[i + |p|..], p)
  {}

  /** removeSubstringFrom(s, p): erase the first occurrence of p until
      none is left. The source loops forever on an empty p. */
  method RemoveSubstringFrom(s: string, p: string) returns (r: string)
    requires |p| > 0
    ensures r == RemoveAll(s, p)
  {
    r := s;
    var i := Find(r, p);
    while i.Some?
      invariant i == Find(r, p) && RemoveAll(r, p) == RemoveAll(s, p)
      decreases |r|
    {
      RemoveAllStep(r, p, i.value);
      r := r[..i.value] + r[i.value + |p|..];
      i := Find(r, p);
    }
  }

  /** The line with every blank and tab removed. */
  function Squeezed(line: string): string
  {
    RemoveAll(RemoveAll(line, " "), "\t")
  }

  /** s holds neither blank nor tab. */
  predicate NoBlank(s: string)
  {
    forall k :: 0 <= k < |s| ==> s[k] != ' ' && s[k] != '\t'
  }

  /** The reference for Squeezed: the line with blanks and tabs filtered out. */
  function Filtered(s: string): string
  {
    Without(Without(s, ' '), '\t')
  }

  lemma {:induction false} WithoutKeeps(s: string, c: char, d: char)
    requires forall k :: 0 <= k < |s| ==> s[k] != d
    ensures forall k :: 0 <= k < |Without(s, c)| ==> Without(s, c)[k] != d
    decreases |s|
  {
    if s != [] {
      WithoutKeeps(s[1..], c, d);
    }
  }

  lemma FilteredHasNoBlank(s: string)
    ensures NoBlank(Filtered(s))
  {
    WithoutKeeps(Without(s, ' '), '\t', ' ');
  }

  lemma FilteredAppend(s: string, t: string)
    ensures Filtered(s + t) == Filtered(s) + Filtered(t)
  {
    WithoutAppend(s, t, ' ');
    WithoutAppend(Without(s, ' '), Without(t, ' '), '\t');
  }

  lemma FilteredNone(s: string)
    requires NoBlank(s)
    ensures Filtered(s) == s
  {
    WithoutNone(s, ' ');
    WithoutNone(s, '\t');
  }

  lemma FilteredBlank(c: char)
    requires c == ' ' || c == '\t'
    ensures Filtered([c]) == []
  {
    assert [c][1..] == [];
    assert Without([], ' ') == [] && Without([], '\t') == [];
    assert Without([c], ' ') == (if c == ' ' then [] else [c]) + Without([], ' ');
    assert Without([c], '\t') == (if c == '\t' then [] else [c]) + Without([], '\t');
  }

  lemma SqueezedIsFiltered(line: string)
    ensures Squeezed(line) == Filtered(line)
  {
    RemoveCharIsWithout(line, ' ');
    RemoveCharIsWithout(Without(line, ' '), '\t');
  }

  /** What string::find of one character finds: the first position
      holding it. */
  lemma FindChar(s: string, c: char, d: nat)
    requires d < |s| && s[d] == c && forall k :: 0 <= k < d ==> s[k] != c
    ensures Find(s, [c]) == Some(d)
  {
    assert s[d..d + 1] == [c];
    assert OccursAt(s, [c], d);
    FindFirst(s, [c]);
    var r := Find(s, [c]).value;
    assert s[r] == s[r..r + 1][0] == c;
  }

  lemma TabAt(line: string, d: nat)
    requires Find(line, "\t") == Some(d)
    ensures d < |line| && forall k :: 0 <= k < d ==> line[k] != '\t'
    ensures line == line[..d] + "\t" + line[d + 1..]
  {
    FindFirst(line, "\t");
    assert line[d] == line[d..d + 1][0];
    forall k | 0 <= k < d ensures line[k] != '\t' {
      assert !OccursAt(line, "\t", k);
      assert line[k..k + 1] == [line[k]];
    }
    assert line == line[..d] + [line[d]] + line[d + 1..];
  }

  /** How a parameter-file line splits into name and value. */
  datatype Split = NameValue(name: string, value: string) | NoTab | OutOfRange

  /** extractAndProcessParameterFromLine as written: the position of the
      first tab in the line is applied to the line with blanks and tabs
      removed; substr past the end throws. */
  function SplitAsWritten(line: string): (r: Split)
    ensures r.NoTab? <==> Find(line, "\t").None?
    ensures r.OutOfRange? <==> Find(line, "\t").Some? && Find(line, "\t").value > |Squeezed(line)|
    ensures r.NameValue? ==> r.name + r.value == Squeezed(line) && |r.name| == Find(line, "\t").value
  {
    match Find(line, "\t")
    case None => NoTab
    case Some(d) =>
      var squeezed := Squeezed(line);
      if d > |squeezed| then OutOfRange else NameValue(squeezed[..d], squeezed[d..])
  }

  /** The evident intention: the name is the text before the first tab and
      the value the text after it, each without blanks and tabs. */
  function SplitLine(line: string): (r: Split)
    ensures r.NoTab? <==> Find(line, "\t").None?
    ensures r.NameValue? ==> NoBlank(r.name) && NoBlank(r.value)
  {
    match Find(line, "\t")
    case None => NoTab
    case Some(d) =>
      SqueezedIsFiltered(line[..d]);
      FilteredHasNoBlank(line[..d]);
      FilteredHasNoBlank(line[d + 1..]);
      SqueezedIsFiltered(line[d + 1..]);
      NameValue(Squeezed(line[..d]), Squeezed(line[d + 1..]))
  }

  /** Filtering a line whose text before a tab has no blanks keeps that
      text and drops the tab. */
  lemma FilteredAroundTab(before: string, after: string)
    requires NoBlank(before)
    ensures Filtered(before + "\t" + after) == before + Filtered(after)
  {
    FilteredAppend(before + "\t", after);
    FilteredAppend(before, "\t");
    FilteredBlank('\t');
    FilteredNone(before);
  }

  /** Without blanks before the tab, the line splits as intended. */
  lemma SplitAgreesWithoutLeadingBlanks(line: string)
    requires Find(line, "\t").Some?
    requires forall k :: 0 <= k < Find(line, "\t").value ==> line[k] != ' '
    ensures SplitAsWritten(line) == SplitLine(line)
  {
    var d := Find(line, "\t").value;
    TabAt(line, d);
    var before, after := line[..d], line[d + 1..];
    SqueezedIsFiltered(line);
    SqueezedIsFiltered(before);
    SqueezedIsFiltered(after);
    FilteredAroundTab(before, after);
    FilteredNone(before);
  }

  /** Both splits in terms of the filtered line and its two sides. */
  lemma SplitShape(line: string, d: nat)
    requires Find(line, "\t") == Some(d)
    ensures SplitLine(line) == NameValue(Filtered(line[..d]), Filtered(line[d + 1..]))
    ensures SplitAsWritten(line) ==
      if d > |Filtered(line)| then OutOfRange else NameValue(Filtered(line)[..d], Filtered(line)[d..])
  {
    SqueezedIsFiltered(line);
    SqueezedIsFiltered(line[..d]);
    SqueezedIsFiltered(line[d + 1..]);
  }

  lemma FilteredBlankAfter(s: string, c: char)
    requires c == ' ' || c == '\t'
    requires NoBlank(s)
    ensures Filtered(s + [c]) == s
  {
    FilteredAppend(s, [c]);
    FilteredBlank(c);
    FilteredNone(s);
  }

  /** Where the tab of name, blank, tab, value is, and what lies on either
      side of it. */
  lemma BlankTabLine(name: string, value: string)
    requires NoBlank(name)
    ensures var line := name + [' ', '\t'] + value;
      && Find(line, "\t") == Some(|name| + 1)
      && line[..|name| + 1] == name + [' '] && line[|name| + 2..] == value
  {
    var line := name + [' ', '\t'] + value;
    assert forall k :: 0 <= k < |name| ==> line[k] == name[k];
    FindChar(line, '\t', |name| + 1);
  }

  /** Filtering name, blank, tab, value leaves name and value. */
  lemma FilteredBlankTabLine(name: string, value: string)
    requires NoBlank(name) && NoBlank(value)
    ensures Filtered(name + [' ', '\t'] + value) == name + value
  {
    var blanked, tabbed := name + [' '], "\t" + value;
    assert name + [' ', '\t'] == blanked + "\t";
    assert name + [' ', '\t'] + value == blanked + tabbed;
    FilteredBlankAfter(name, ' ');
    FilteredAroundTab([], value);
    FilteredNone(value);
    assert [] + "\t" + value == tabbed;
    FilteredAppend(blanked, tabbed);
  }

  /** With a blank before the tab, the tab position read off the line
      overshoots the squeezed name by one: the name takes the first
      character of the value, and a line with nothing after the tab
      makes substr throw. */
  lemma BlankBeforeTab(name: string, value: string)
    requires NoBlank(name) && NoBlank(value)
    ensures SplitLine(name + [' ', '\t'] + value) == NameValue(name, value)
    ensures SplitAsWritten(name + [' ', '\t'] + value) ==
      if value == [] then OutOfRange else NameValue(name + value[..1], value[1..])
  {
    var line := name + [' ', '\t'] + value;
    var d := |name| + 1;
    BlankTabLine(name, value);
    SplitShape(line, d);
    FilteredBlankAfter(name, ' ');
    FilteredNone(value);
    FilteredBlankTabLine(name, value);
    var squeezed := name + value;
    if value != [] {
      assert squeezed[..d] == name + value[..1];
      assert squeezed[d..] == value[1..];
    }
  }

  /** "xdim \t10" is read as xdim1 = 0, not xdim = 10. */
  lemma BlankBeforeTabMisplacesSplit()
    ensures SplitAsWritten("xdim \t10") == NameValue("xdim1", "0")
    ensures SplitLine("xdim \t10") == NameValue("xdim", "10")
  {
    var name, value := "xdim", "10";
    assert NoBlank(name) && NoBlank(value);
    BlankBeforeTab(name, value);
    assert name + [' ', '\t'] + value == "xdim \t10";
    assert name + value[..1] == "xdim1" && value[1..] == "0";
  }

  /** "I \t" makes substr throw instead of setting I from an empty value. */
  lemma BlankBeforeFinalTabThrows()
    ensures SplitAsWritten("I \t") == OutOfRange
    ensures SplitLine("I \t") == NameValue("I", "")
  {
    var name, value := "I", "";
    assert NoBlank(name) && NoBlank(value);
    BlankBeforeTab(name, value);
    assert name + [' ', '\t'] + value == "I \t";
  }

  // ------------------------------------------------------------ command line

  /** A token that names a parameter: it starts with "--". */
  predicate IsOption(t: string)
  {
    |t| >= 2 && t[0] == '-' && t[1] == '-'
  }

  /** How reading the parameters ends. */
  datatype Status =
    | Done          // every input processed
    | NoInput       // no argument at all: fatal
    | Unopenable    // the parameter file cannot be opened: nothing read
    | MissingTab    // a file line without a tab: fatal
    | WrongFormat   // a name followed by another name: fatal
    | PastEnd       // the walk reaches a name in last position: its value would be read past argv
    | SubstrThrows  // a file line's tab position lies past its squeezed text: out_of_range, fatal

  /** The name/value pairs readInputCommand processes from position i on,
      and how the walk ends. Positions step by two; a name position whose
      token is not an option is skipped together with its successor. */
  function CommandPairs(argv: seq<string>, i: nat): (r: (seq<(string, string)>, Status))
    ensures r.1 in {Done, WrongFormat, PastEnd}
    decreases |argv| - i
  {
    if i >= |argv| then ([], Done)
    else if !IsOption(argv[i]) then CommandPairs(argv, i + 2)
    else if i + 1 >= |argv| then ([], PastEnd)
    else if IsOption(argv[i + 1]) then ([], WrongFormat)
    else
      var rest := CommandPairs(argv, i + 2);
      ([(argv[i][2..], argv[i + 1])] + rest.0, rest.1)
  }

  /** The tokens of name/value pairs, each name written with "--". */
  function OptionTokens(pairs: seq<(string, string)>): (ts: seq<string>)
    ensures |ts| == 2 * |pairs|
  {
    if pairs == [] then [] else ["--" + pairs[0].0, pairs[0].1] + OptionTokens(pairs[1..])
  }

  /** From an odd position, "--name value" pairs whose values are not
      options yield exactly those pairs, in order. */
  lemma {:induction false} CommandPairsOfOptions(pre: seq<string>, pairs: seq<(string, string)>)
    requires |pre| % 2 == 1
    requires forall k :: 0 <= k < |pairs| ==> !IsOption(pairs[k].1)
    ensures CommandPairs(pre + OptionTokens(pairs), |pre|) == (pairs, Done)
    decreases |pairs|
  {
    var argv := pre + OptionTokens(pairs);
    if pairs == [] {
      assert argv == pre;
    } else {
      var p := pairs[0];
      var pre' := pre + ["--" + p.0, p.1];
      assert argv == pre' + OptionTokens(pairs[1..]);
      assert argv[|pre|] == "--" + p.0 && argv[|pre| + 1] == p.1;
      assert ("--" + p.0)[2..] == p.0;
      assert IsOption("--" + p.0) && !IsOption(p.1);
      CommandPairsOfOptions(pre', pairs[1..]);
      assert pairs == [p] + pairs[1..];
    }
  }

  /** A command line of "--name value" pairs whose values are not options
      is read as exactly those pairs. */
  lemma CommandLineOfOptions(prog: string, pairs: seq<(string, string)>)
    requires forall k :: 0 <= k < |pairs| ==> !IsOption(pairs[k].1)
    ensures CommandPairs([prog] + OptionTokens(pairs), 1) == (pairs, Done)
  {
    CommandPairsOfOptions([prog], pairs);
  }

  /** The name/value pairs extractAndProcessParametersFromFile processes
      from the lines of a file, in order, each line split as written; the
      reading stops at the first line without a tab or whose split throws. */
  function LinePairs(lines: seq<string>): (r: (seq<(string, string)>, Status))
    ensures r.1 in {Done, MissingTab, SubstrThrows}
    decreases |lines|
  {
    if lines == [] then ([], Done)
    else match SplitAsWritten(lines[0])
      case NameValue(name, value) =>
        var rest := LinePairs(lines[1..]);
        ([(name, value)] + rest.0, rest.1)
      case NoTab => ([], MissingTab)
      case OutOfRange => ([], SubstrThrows)
  }

  /** The corrected reading: every line split as intended (SplitLine), so
      only a line without a tab stops it. */
  function LinePairsIntended(lines: seq<string>): (r: (seq<(string, string)>, Status))
    ensures r.1 in {Done, MissingTab}
    decreases |lines|
  {
    if lines == [] then ([], Done)
    else match SplitLine(lines[0])
      case NameValue(name, value) =>
        var rest := LinePairsIntended(lines[1..]);
        ([(name, value)] + rest.0, rest.1)
      case _ => ([], MissingTab)
  }

  /** No blank precedes the first tab of the line. */
  predicate NoBlankBeforeTab(line: string)
  {
    match Find(line, "\t")
    case None => true
    case Some(d) => forall k :: 0 <= k < d ==> line[k] != ' '
  }

  /** A file none of whose lines has a blank before its tab is read as
      intended, pair for pair and with the same ending. */
  lemma {:induction false} LinePairsAgreeWithoutLeadingBlanks(lines: seq<string>)
    requires forall k :: 0 <= k < |lines| ==> NoBlankBeforeTab(lines[k])
    ensures LinePairs(lines) == LinePairsIntended(lines)
    decreases |lines|
  {
    if lines != [] {
      if Find(lines[0], "\t").Some? {
        assert NoBlankBeforeTab(lines[0]);
        SplitAgreesWithoutLeadingBlanks(lines[0]);
      }
      LinePairsAgreeWithoutLeadingBlanks(lines[1..]);
    }
  }

  /** Processing the pairs of lines k.. is processing line k, then the
      pairs of lines k + 1..; a line without a tab, or whose split throws,
      ends the reading. */
  lemma LinePairsStep(v: Settings, ps: Parsers, lines: seq<string>, k: nat)
    requires k < |lines|
    ensures SplitAsWritten(lines[k]).NameValue? ==>
      var nv := SplitAsWritten(lines[k]);
      && ProcessAll(v, ps, LinePairs(lines[k..]).0)
         == ProcessAll(Processed(v, ps, nv.name, nv.value), ps, LinePairs(lines[k + 1..]).0)
      && LinePairs(lines[k..]).1 == LinePairs(lines[k + 1..]).1
    ensures !SplitAsWritten(lines[k]).NameValue? ==>
      && ProcessAll(v, ps, LinePairs(lines[k..]).0) == v
      && LinePairs(lines[k..]).1 == if SplitAsWritten(lines[k]).NoTab? then MissingTab else SubstrThrows
  {
    assert lines[k..][0] == lines[k] && lines[k..][1..] == lines[k + 1..];
  }

  // ------------------------------------------------------------ the container

  class ParameterContainer {
    var runName: string
    var I: real
    var theta: real
    var a: real
    var xdim: int
    var Nsteps: int
    var NPermutationSets: int
    var Nsym: int
    var minNormConst: real
    var configDirectory: string
    var outputDirectory: string
    var Nthermal: int
    var equilibrationAlgorithm: string
    var deltaMetro: real
    var configFile: string
    var fileId: int
    var verbosity: int

    /** Every parameter except configFile. */
    function Value(): Settings
      reads this
    {
      Settings(runName, I, theta, a, xdim, Nsteps, NPermutationSets, Nsym, minNormConst,
               configDirectory, outputDirectory, Nthermal, equilibrationAlgorithm,
               deltaMetro, fileId, verbosity)
    }

    constructor ()
      ensures Value() == Defaults && configFile == ""
    {
      runName, I, theta, a, xdim := "test", 1.0, 0.0, 1.0, 4;
      Nsteps, NPermutationSets, Nsym, minNormConst := 10000, 1, -1, 0.0;
      configDirectory, outputDirectory, Nthermal := "./out/", "./out/", 1000;
      equilibrationAlgorithm, deltaMetro, fileId, verbosity := "cluster", 0.5, 0, 10;
      configFile := "";
    }

    /** operator==: every parameter compared, except configFile. */
    method Equals(p2: ParameterContainer) returns (result: bool)
      ensures result <==> forall f :: Get(Value(), f) == Get(p2.Value(), f)
    {
      result := runName == p2.runName && I == p2.I && theta == p2.theta && a == p2.a
        && xdim == p2.xdim && Nsteps == p2.Nsteps && NPermutationSets == p2.NPermutationSets
        && Nsym == p2.Nsym && minNormConst == p2.minNormConst
        && configDirectory == p2.configDirectory && outputDirectory == p2.outputDirectory
        && Nthermal == p2.Nthermal && equilibrationAlgorithm == p2.equilibrationAlgorithm
        && deltaMetro == p2.deltaMetro && fileId == p2.fileId && verbosity == p2.verbosity;
      if result {
        assert Value() == p2.Value();
      } else {
        assert Value() != p2.Value();
        if forall f :: Get(Value(), f) == Get(p2.Value(), f) {
          SettingsEqual(Value(), p2.Value());
        }
      }
    }

    /** process(name, value): the name selects the parameter (FieldNamed
        is the source's chain of comparisons) and the value, converted to
        the parameter's type, is stored in that parameter alone (Assign);
        an unknown name changes nothing. */
    method Process(ps: Parsers, name: string, value: string)
      modifies this
      ensures Value() == Processed(old(Value()), ps, name, value)
      ensures configFile == old(configFile)
    {
      var field := FieldNamed(name);
      if field.Some? {
        Store(Assign(Value(), ps, field.value, value));
      }
    }

    /** Stores every parameter of v; the config file is kept. */
    method Store(v: Settings)
      modifies this
      ensures Value() == v
      ensures configFile == old(configFile)
    {
      StoreLattice(v);
      StoreRun(v);
      StoreFiles(v);
      StoreAlgorithm(v);
    }

    method StoreLattice(v: Settings)
      modifies this`runName, this`I, this`theta, this`a, this`xdim
      ensures runName == v.runName && I == v.I && theta == v.theta && a == v.a && xdim == v.xdim
    {
      runName, I, theta, a, xdim := v.runName, v.I, v.theta, v.a, v.xdim;
    }

    method StoreRun(v: Settings)
      modifies this`Nsteps, this`NPermutationSets, this`Nsym, this`minNormConst
      ensures Nsteps == v.Nsteps && NPermutationSets == v.NPermutationSets && Nsym == v.Nsym
      ensures minNormConst == v.minNormConst
    {
      Nsteps, NPermutationSets, Nsym, minNormConst := v.Nsteps, v.NPermutationSets, v.Nsym, v.minNormConst;
    }

    method StoreFiles(v: Settings)
      modifies this`configDirectory, this`outputDirectory, this`Nthermal
      ensures configDirectory == v.configDirectory && outputDirectory == v.outputDirectory && Nthermal == v.Nthermal
    {
      configDirectory, outputDirectory, Nthermal := v.configDirectory, v.outputDirectory, v.Nthermal;
    }

    method StoreAlgorithm(v: Settings)
      modifies this`equilibrationAlgorithm, this`deltaMetro, this`fileId, this`verbosity
      ensures equilibrationAlgorithm == v.equilibrationAlgorithm && deltaMetro == v.deltaMetro
      ensures fileId == v.fileId && verbosity == v.verbosity
    {
      equilibrationAlgorithm, deltaMetro, fileId, verbosity := v.equilibrationAlgorithm, v.deltaMetro, v.fileId, v.verbosity;
    }

    /** extractAndProcessParameterFromLine: the tab is looked for in the
        line, then blanks and tabs are removed and the squeezed line is cut
        at the tab's position. A line without a tab is fatal; a position
        past the squeezed text makes substr throw. */
    method ExtractAndProcessParameterFromLine(ps: Parsers, line: string) returns (status: Status)
      modifies this
      ensures match SplitAsWritten(line)
        case NameValue(name, value) => status == Done && Value() == Processed(old(Value()), ps, name, value)
        case NoTab => status == MissingTab && Value() == old(Value())
        case OutOfRange => status == SubstrThrows && Value() == old(Value())
      ensures configFile == old(configFile)
    {
      var delimPos := Find(line, "\t");
      var squeezed := RemoveSubstringFrom(line, " ");
      squeezed := RemoveSubstringFrom(squeezed, "\t");
      if delimPos.None? {
        status := MissingTab;
      } else if delimPos.value > |squeezed| {
        status := SubstrThrows;
      } else {
        var d := delimPos.value;
        var paramName := squeezed[..d];
        var paramValue := squeezed[d..];
        Process(ps, paramName, paramValue);
        status := Done;
      }
    }

    /** extractAndProcessParametersFromFile: the lines in order, stopping at
        the first line without a tab or whose split throws. */
    method ExtractAndProcessParametersFromFile(ps: Parsers, lines: seq<string>) returns (status: Status)
      modifies this
      ensures Value() == ProcessAll(old(Value()), ps, LinePairs(lines).0)
      ensures status == LinePairs(lines).1
      ensures configFile == old(configFile)
    {
      var k := 0;
      while k < |lines|
        invariant 0 <= k <= |lines| && configFile == old(configFile)
        invariant ProcessAll(Value(), ps, LinePairs(lines[k..]).0) == ProcessAll(old(Value()), ps, LinePairs(lines).0)
        invariant LinePairs(lines[k..]).1 == LinePairs(lines).1
      {
        ghost var before := Value();
        LinePairsStep(before, ps, lines, k);
        status := ExtractAndProcessParameterFromLine(ps, lines[k]);
        if status != Done {
          return;
        }
        k := k + 1;
      }
      assert lines[k..] == [];
      status := Done;
    }

    /** readInputCommand: positions 1, 3, 5, ... name a parameter with "--",
        the following token is its value. The source reads past argv when
        the walk reaches a name in last position; callers must avoid it. */
    method ReadInputCommand(ps: Parsers, argv: seq<string>) returns (status: Status)
      requires CommandPairs(argv, 1).1 != PastEnd
      modifies this
      ensures Value() == ProcessAll(old(Value()), ps, CommandPairs(argv, 1).0)
      ensures status == CommandPairs(argv, 1).1
      ensures configFile == old(configFile)
    {
      var i := 1;
      while i < |argv|
        invariant 1 <= i && configFile == old(configFile)
        invariant ProcessAll(Value(), ps, CommandPairs(argv, i).0) == ProcessAll(old(Value()), ps, CommandPairs(argv, 1).0)
        invariant CommandPairs(argv, i).1 == CommandPairs(argv, 1).1
        decreases |argv| - i
      {
        if IsOption(argv[i]) {
          var paramName := argv[i][2..];
          if IsOption(argv[i + 1]) {
            return WrongFormat;
          }
          var paramValue := argv[i + 1];
          Process(ps, paramName, paramValue);
        }
        i := i + 2;
      }
      status := Done;
    }

    /** readInput: no argument is fatal, one argument names a parameter
        file, more are read as the command line. The file system is the
        function contents, which gives the lines of a file that opens. */
    method ReadInput(ps: Parsers, argv: seq<string>, contents: string -> Option<seq<string>>) returns (status: Status)
      requires |argv| >= 1
      requires |argv| > 2 ==> CommandPairs(argv, 1).1 != PastEnd
      modifies this
      ensures |argv| == 1 ==> status == NoInput && Value() == old(Value())
      ensures |argv| == 2 && contents(argv[1]).None? ==> status == Unopenable && Value() == old(Value())
      ensures |argv| == 2 && contents(argv[1]).Some? ==>
        var r := LinePairs(contents(argv[1]).value);
        status == r.1 && Value() == ProcessAll(old(Value()), ps, r.0)
      ensures |argv| > 2 ==>
        var r := CommandPairs(argv, 1);
        status == r.1 && Value() == ProcessAll(old(Value()), ps, r.0)
      ensures configFile == old(configFile)
    {
      if |argv| == 1 {
        status := NoInput;
      } else if |argv| == 2 {
        status := ReadInputFile(ps, contents(argv[1]));
      } else {
        status := ReadInputCommand(ps, argv);
      }
    }

    /** readInputFile: a file that does not open leaves every parameter
        unchanged. */
    method ReadInputFile(ps: Parsers, file: Option<seq<string>>) returns (status: Status)
      modifies this
      ensures file.None? ==> status == Unopenable && Value() == old(Value())
      ensures file.Some? ==>
        status == LinePairs(file.value).1 && Value() == ProcessAll(old(Value()), ps, LinePairs(file.value).0)
      ensures configFile == old(configFile)
    {
      if file.Some? {
        status := ExtractAndProcessParametersFromFile(ps, file.value);
      } else {
        status := Unopenable;
      }
    }
  }
}
