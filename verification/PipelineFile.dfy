/** Definition files with named pipelines, path patterns and selection (src/ci/config.rs). */
module PipelineFile {
  import opened Wrappers
  import opened Text
  import opened Paths
  import opened Graph
  import opened Topo
  import opened Config

  datatype NamedPipeline = NamedPipeline(
    name: string, category: string, needs: seq<string>, runnerOs: string, sparseView: Option<string>,
    changes: seq<string>, workingDirectory: string, config: PipelineConfig)

  datatype DefinitionFile = DefinitionFile(root: PipelineConfig, pipelines: seq<NamedPipeline>)

  datatype FileError =
    | RootError(error: ConfigError)
    | MixedRoot
    | TooManyPipelines
    | InvalidPipelineName(index: nat)
    | InvalidCategory(index: nat)
    | InvalidRunnerOs(index: nat)
    | InvalidSparseView(index: nat)
    | InvalidWorkingDirectory(index: nat)
    | InvalidChanges(index: nat)
    | PipelineError(index: nat, error: ConfigError)
    | PipelineNeedsError(error: ConfigError)

  // ---------- paths ----------

  predicate ValidRelativePath(path: string) {
    && path != "" && '\\' !in path && ':' !in path && '\0' !in path
    && forall k | 0 <= k < |Split(path, '/')| ::
         Split(path, '/')[k] != "" && Split(path, '/')[k] != "." && Split(path, '/')[k] != ".."
  }

  predicate HasSuffix(s: string, suffix: string): (has: bool)
    ensures has <==> exists start :: s == start + suffix
  {
    assert |s| >= |suffix| ==> s == s[..|s|-|suffix|] + s[|s|-|suffix|..];
    |s| >= |suffix| && s[|s|-|suffix|..] == suffix
  }

  function Directory(pattern: string): (directory: string)
    requires HasSuffix(pattern, "/**")
    ensures pattern == directory + "/**"
  {
    pattern[..|pattern|-3]
  }

  predicate ChangePathMatches(pattern: string, path: string) {
    if HasSuffix(pattern, "/**") then
      var directory := Directory(pattern);
      path == directory || (directory <= path && "/" <= path[|directory|..])
    else path == pattern
  }

  /** What a change pattern names: a directory with all that is below it, or one file. */
  function NamedPath(pattern: string): string {
    if HasSuffix(pattern, "/**") then Directory(pattern) else pattern
  }

  predicate ValidChangePattern(pattern: string) {
    var path := NamedPath(pattern);
    ValidRelativePath(path) && forall k | 0 <= k < |path| :: path[k] !in ['*', '?', '[', ']']
  }

  /**
   * The paths that are accepted are those that lead, from any directory and without ever leaving it, exactly their
   * components further down, and that no drive, stream or terminator can turn into something else.
   */
  lemma AcceptedPathStaysInside(path: string, from: seq<string>)
    ensures ValidRelativePath(path)
       <==> (forall k | 0 <= k < |path| :: path[k] !in ['\\', ':', '\0'])
            && Resolve(from, Split(path, '/')) == from + Split(path, '/')
    ensures ValidRelativePath(path) ==> StaysBelow(from, Split(path, '/'))
  {
    var parts := Split(path, '/');
    EndsBelowExactly(from, parts);
    if path == "" {
      assert parts == [""];
    }
    if AllNames(parts) {
      NamesStayBelow(from, parts);
    }
  }

  /** The same for what a change pattern names; wildcards are accepted nowhere else in it. */
  lemma AcceptedPatternStaysInside(pattern: string, from: seq<string>)
    ensures ValidChangePattern(pattern)
       <==> (forall k | 0 <= k < |NamedPath(pattern)| ::
               NamedPath(pattern)[k] !in ['\\', ':', '\0', '*', '?', '[', ']'])
            && Resolve(from, Split(NamedPath(pattern), '/')) == from + Split(NamedPath(pattern), '/')
    ensures ValidChangePattern(pattern) ==> StaysBelow(from, Split(NamedPath(pattern), '/'))
  {
    AcceptedPathStaysInside(NamedPath(pattern), from);
  }

  /** Where work of a pipeline starts: at the top of the checkout, or below it. */
  lemma WorkingDirectoryStaysInside(directory: string, top: seq<string>)
    requires directory == "." || ValidRelativePath(directory)
    ensures StaysBelow(top, Split(directory, '/'))
    ensures Resolve(top, Split(directory, '/')) == if directory == "." then top else top + Split(directory, '/')
  {
    if directory == "." {
      SplitHead(".", "", '/');
      assert Split(directory, '/')[..0] == [];
      assert Split(directory, '/')[..1] == ["."];
    } else {
      AcceptedPathStaysInside(directory, top);
    }
  }

  lemma {:induction false} JoinConcat(a: seq<string>, b: seq<string>, sep: char)
    requires a != [] && b != []
    ensures Join(a + b, sep) == Join(a, sep) + [sep] + Join(b, sep)
  {
    if |a| == 1 {
      assert (a + b)[1..] == b;
    } else {
      JoinConcat(a[1..], b, sep);
      assert (a + b)[1..] == a[1..] + b;
    }
  }

  /** A directory pattern matches by whole path components: exactly the paths the directory prefixes. */
  lemma DirectoryPatternMatchesComponents(pattern: string, path: string)
    requires HasSuffix(pattern, "/**")
    ensures ChangePathMatches(pattern, path) <==> Split(Directory(pattern), '/') <= Split(path, '/')
  {
    var directory := Directory(pattern);
    var d, p := Split(directory, '/'), Split(path, '/');
    JoinSplit(directory, '/');
    JoinSplit(path, '/');
    if ChangePathMatches(pattern, path) && path != directory {
      var tail := path[|directory|+1..];
      assert path == directory + ['/'] + tail;
      SplitConcat(directory, tail, '/');
    }
    if d <= p && d != p {
      var rest := p[|d|..];
      assert p == d + rest;
      JoinConcat(d, rest, '/');
    }
  }

  /**
   * What an accepted pattern matches, component by component and wherever the checkout lies: a directory pattern
   * the directory and all paths below it, any other pattern its own path and nothing else.
   */
  lemma MatchesExactly(pattern: string, path: string, from: seq<string>)
    requires ValidChangePattern(pattern) && ValidRelativePath(path)
    ensures var (named, changed) := (Resolve(from, Split(NamedPath(pattern), '/')), Resolve(from, Split(path, '/')));
            ChangePathMatches(pattern, path)
            <==> if HasSuffix(pattern, "/**") then named <= changed else named == changed
  {
    AcceptedPatternStaysInside(pattern, from);
    AcceptedPathStaysInside(path, from);
    var p, q := Split(NamedPath(pattern), '/'), Split(path, '/');
    assert from + p <= from + q <==> p <= q by {
      assert from + p <= from + q ==> (from + q)[|from|..] == q && (from + p)[|from|..] == p;
    }
    assert from + p == from + q <==> p == q by {
      assert (from + q)[|from|..] == q && (from + p)[|from|..] == p;
    }
    if HasSuffix(pattern, "/**") {
      DirectoryPatternMatchesComponents(pattern, path);
    } else {
      JoinSplit(pattern, '/');
      JoinSplit(path, '/');
    }
  }

  // ---------- names of sparse views ----------

  function TrimStart(s: string): string {
    if s != "" && IsWhitespace(s[0]) then TrimStart(s[1..]) else s
  }

  function TrimEnd(s: string): (r: string)
    ensures r <= s && (r != "" ==> !IsWhitespace(r[|r|-1]))
  {
    if s != "" && IsWhitespace(s[|s|-1]) then TrimEnd(s[..|s|-1]) else s
  }

  /** `str::trim`. */
  function Trim(s: string): string {
    TrimEnd(TrimStart(s))
  }

  predicate IsTrimmed(s: string) {
    s != "" ==> !IsWhitespace(s[0]) && !IsWhitespace(s[|s|-1])
  }

  lemma {:induction false} StartIsTrimmed(s: string)
    ensures TrimStart(s) != "" ==> !IsWhitespace(TrimStart(s)[0])
    decreases s
  {
    if s != "" && IsWhitespace(s[0]) {
      StartIsTrimmed(s[1..]);
    }
  }

  /** Trimming leaves no white space at either end, and a second time changes nothing. */
  lemma TrimIsIdempotent(s: string)
    ensures IsTrimmed(Trim(s)) && Trim(Trim(s)) == Trim(s)
  {
    StartIsTrimmed(s);
  }

  lemma {:induction false} BlankTrimsAway(s: string)
    requires forall k | 0 <= k < |s| :: IsWhitespace(s[k])
    ensures TrimStart(s) == ""
  {
    if s != "" {
      BlankTrimsAway(s[1..]);
    }
  }

  lemma {:induction false} TrimKeepsInk(s: string, k: nat)
    requires k < |s| && !IsWhitespace(s[k])
    ensures s[k] in TrimStart(s) && s[k] in TrimEnd(s)
    decreases |s|
  {
    if IsWhitespace(s[0]) {
      TrimKeepsInkAtStart(s[1..], k - 1);
    }
    if IsWhitespace(s[|s|-1]) {
      TrimKeepsInk(s[..|s|-1], k);
    }
  }

  lemma {:induction false} TrimKeepsInkAtStart(s: string, k: nat)
    requires k < |s| && !IsWhitespace(s[k])
    ensures s[k] in TrimStart(s)
  {
    if IsWhitespace(s[0]) {
      TrimKeepsInkAtStart(s[1..], k - 1);
    }
  }

  /** A script line is accepted exactly when trimming leaves something of it and it contains no terminator. */
  lemma ScriptLineIsNotBlank(line: string)
    ensures ValidScriptLine(line) <==> Trim(line) != "" && '\0' !in line
  {
    if k :| 0 <= k < |line| && !IsWhitespace(line[k]) {
      TrimKeepsInk(line, k);
      var start := TrimStart(line);
      var m :| 0 <= m < |start| && start[m] == line[k];
      TrimKeepsInk(start, m);
    } else {
      BlankTrimsAway(line);
    }
  }

  function Utf8Length(s: string): nat {
    if s == "" then 0
    else
      var c := s[|s|-1] as int;
      Utf8Length(s[..|s|-1]) + if c < 0x80 then 1 else if c < 0x800 then 2 else if c < 0x10000 then 3 else 4
  }

  predicate IsControl(c: char) {
    c as int < 0x20 || 0x7F <= c as int < 0xA0
  }

  predicate ValidView(view: string) {
    view != "" && Utf8Length(view) <= 100 && forall k | 0 <= k < |view| :: !IsControl(view[k])
  }

  function TrimmedView(view: Option<string>): Option<string> {
    if view.Some? then Some(Trim(view.value)) else None
  }

  lemma {:induction false} AsciiLength(s: string)
    requires forall k | 0 <= k < |s| :: s[k] as int < 0x80
    ensures Utf8Length(s) == |s|
  {
    if s != "" {
      AsciiLength(s[..|s|-1]);
    }
  }

  /** A valid name is the name of an entry of any directory, and as many bytes long as it has characters. */
  lemma NameLeadsOneDown(name: string, from: seq<string>)
    requires ValidName(name)
    ensures ValidRelativePath(name) && Resolve(from, Split(name, '/')) == from + [name]
    ensures Utf8Length(name) == |name| <= 100
  {
    SplitHead(name, "", '/');
    assert IsNameChar(name[0]);
    AcceptedPathStaysInside(name, from);
    AsciiLength(name);
  }

  // ---------- needs between pipelines ----------

  /** The needs of pipelines as a one-stage configuration, so both graphs are checked by one loop. */
  function NeedsView(pipelines: seq<NamedPipeline>): (c: PipelineConfig)
    ensures |c.jobs| == |pipelines| && forall k | 0 <= k < |pipelines| ::
              && c.jobs[k].name == pipelines[k].name && c.jobs[k].needs == pipelines[k].needs
              && c.jobs[k].stage in c.stages
  {
    PipelineConfig(1, [""], seq(|pipelines|, k requires 0 <= k < |pipelines| =>
      JobConfig(pipelines[k].name, "", pipelines[k].needs, [], 0)))
  }

  function NeedsLimits(l: Limits): Limits {
    l.(needs := l.pipelineNeeds)
  }

  ghost predicate PipelineNeedsOk(l: Limits, pipelines: seq<NamedPipeline>) {
    Linkable(NeedsLimits(l), NeedsView(pipelines)) && Acyclic(JobGraph(NeedsView(pipelines).jobs))
  }

  // ---------- validation ----------

  ghost predicate Acceptable(l: Limits, c: PipelineConfig) {
    WellFormed(l, c) && Acyclic(JobGraph(c.jobs))
  }

  predicate PlainFieldsOk(p: NamedPipeline) {
    && ValidName(p.name) && ValidName(p.category)
    && p.runnerOs in ["windows", "macos", "linux"]
    && (p.sparseView.Some? ==> ValidView(Trim(p.sparseView.value)))
    && (p.workingDirectory == "." || ValidRelativePath(p.workingDirectory))
    && 0 < |p.changes| <= 128
    && forall k | 0 <= k < |p.changes| :: ValidChangePattern(p.changes[k])
  }

  function PipelineNames(pipelines: seq<NamedPipeline>): (names: seq<string>)
    ensures |names| == |pipelines| && forall k | 0 <= k < |pipelines| :: names[k] == pipelines[k].name
  {
    seq(|pipelines|, k requires 0 <= k < |pipelines| => pipelines[k].name)
  }

  ghost predicate PipelineOk(l: Limits, p: NamedPipeline) {
    PlainFieldsOk(p) && Acceptable(l, p.config)
  }

  ghost predicate FileOk(l: Limits, f: DefinitionFile) {
    if f.pipelines == [] then Acceptable(l, f.root)
    else
      && f.root.stages == [] && f.root.jobs == [] && f.root.maxParallelJobs == 1
      && |f.pipelines| <= l.pipelines
      && NoDup(PipelineNames(f.pipelines))
      && (forall k | 0 <= k < |f.pipelines| :: PipelineOk(l, f.pipelines[k]))
      && PipelineNeedsOk(l, f.pipelines)
  }

  /** Nothing that is written in an accepted file is ignored: its named pipelines, if there are any, are all of it. */
  lemma PipelinesDetermineFile(l: Limits, f: DefinitionFile, g: DefinitionFile)
    requires FileOk(l, f) && FileOk(l, g) && f.pipelines == g.pipelines && f.pipelines != []
    ensures f == g
  {
  }

  ghost predicate SamePipeline(l: Limits, p: NamedPipeline, q: NamedPipeline) {
    q == p.(config := q.config, sparseView := TrimmedView(p.sparseView)) && IsValidation(l, p.config, Ok(q.config))
  }

  ghost predicate SamePipelines(l: Limits, ps: seq<NamedPipeline>, qs: seq<NamedPipeline>) {
    |ps| == |qs| && forall k | 0 <= k < |ps| :: SamePipeline(l, ps[k], qs[k])
  }

  /** Everything stays as written except the order of the jobs and white space around a view's name. */
  ghost predicate SameButOrdered(l: Limits, f: DefinitionFile, g: DefinitionFile) {
    if f.pipelines == [] then g.pipelines == [] && IsValidation(l, f.root, Ok(g.root))
    else
      g.root == f.root && SamePipelines(l, f.pipelines, g.pipelines)
  }

  /** What is wrong with the pipeline at that position, `names` being those before it. */
  ghost predicate FieldReports(p: NamedPipeline, index: nat, names: set<string>, e: FileError) {
    match e
    case InvalidPipelineName(k) => k == index && (!ValidName(p.name) || p.name in names)
    case InvalidCategory(k) => k == index && !ValidName(p.category)
    case InvalidRunnerOs(k) => k == index && p.runnerOs !in ["windows", "macos", "linux"]
    case InvalidSparseView(k) => k == index && p.sparseView.Some? && !ValidView(Trim(p.sparseView.value))
    case InvalidWorkingDirectory(k) => k == index && p.workingDirectory != "." && !ValidRelativePath(p.workingDirectory)
    case InvalidChanges(k) =>
      k == index && (!(0 < |p.changes| <= 128) || exists m | 0 <= m < |p.changes| :: !ValidChangePattern(p.changes[m]))
    case _ => false
  }

  ghost predicate PipelineReports(l: Limits, p: NamedPipeline, index: nat, names: set<string>, e: FileError) {
    FieldReports(p, index, names, e) || (e.PipelineError? && e.index == index && Reports(l, p.config, e.error))
  }

  /** What each error of `validate` says about the file. */
  ghost predicate FileReports(l: Limits, f: DefinitionFile, e: FileError) {
    match e
    case RootError(error) => f.pipelines == [] && Reports(l, f.root, error)
    case MixedRoot => f.pipelines != [] && !(f.root.stages == [] && f.root.jobs == [] && f.root.maxParallelJobs == 1)
    case TooManyPipelines => |f.pipelines| > l.pipelines
    case PipelineNeedsError(error) => f.pipelines != [] && Reports(NeedsLimits(l), NeedsView(f.pipelines), error)
    case _ => ListReports(l, f.pipelines, e)
  }

  ghost predicate ListReports(l: Limits, pipelines: seq<NamedPipeline>, e: FileError) {
    exists index :: 0 <= index < |pipelines| && ReportsAt(l, pipelines, index, e)
  }

  ghost predicate ReportsAt(l: Limits, pipelines: seq<NamedPipeline>, index: nat, e: FileError)
    requires index < |pipelines|
  {
    PipelineReports(l, pipelines[index], index, NameSet(pipelines, index), e)
  }

  ghost function NameSet(pipelines: seq<NamedPipeline>, n: nat): (names: set<string>)
    requires n <= |pipelines|
  {
    set name | name in PipelineNames(pipelines)[..n]
  }

  method CheckFields(p: NamedPipeline, index: nat, names: set<string>) returns (e: Option<FileError>)
    ensures e.Some? ==> FieldReports(p, index, names, e.value)
    ensures e.None? <==> PlainFieldsOk(p) && p.name !in names
  {
    if !ValidName(p.name) || p.name in names {
      return Some(InvalidPipelineName(index));
    }
    if !ValidName(p.category) {
      return Some(InvalidCategory(index));
    }
    if p.runnerOs !in ["windows", "macos", "linux"] {
      return Some(InvalidRunnerOs(index));
    }
    if p.sparseView.Some? && !ValidView(Trim(p.sparseView.value)) {
      return Some(InvalidSparseView(index));
    }
    if p.workingDirectory != "." && !ValidRelativePath(p.workingDirectory) {
      return Some(InvalidWorkingDirectory(index));
    }
    if !(0 < |p.changes| <= 128) || exists k | 0 <= k < |p.changes| :: !ValidChangePattern(p.changes[k]) {
      return Some(InvalidChanges(index));
    }
    return None;
  }

  /** `PipelineFile::validate`. */
  method ValidateFile(l: Limits, f: DefinitionFile) returns (r: Result<DefinitionFile, FileError>)
    ensures r.Ok? <==> FileOk(l, f)
    ensures r.Ok? ==> SameButOrdered(l, f, r.value)
    ensures r.Err? ==> FileReports(l, f, r.error)
    ensures r.Err? && r.error.PipelineNeedsError? && r.error.error.DependencyCycle? ==>
              && r.error.error.member.Some? && r.error.error.member.value < |f.pipelines|
              && OnCycle(JobGraph(NeedsView(f.pipelines).jobs), f.pipelines[r.error.error.member.value].name)
  {
    if f.pipelines == [] {
      var validated := Validate(l, f.root);
      return if validated.Ok? then Ok(f.(root := validated.value)) else Err(RootError(validated.error));
    }
    if !(f.root.stages == [] && f.root.jobs == [] && f.root.maxParallelJobs == 1) {
      return Err(MixedRoot);
    }
    if |f.pipelines| > l.pipelines {
      return Err(TooManyPipelines);
    }
    var validated := ValidatePipelines(l, f.pipelines);
    if validated.Err? {
      return Err(validated.error);
    }
    assert PipelineNames(f.pipelines) == Names(NeedsView(f.pipelines).jobs);
    var ordered := OrderJobs(NeedsLimits(l), NeedsView(f.pipelines));
    if ordered.Err? {
      return Err(PipelineNeedsError(ordered.error));
    }
    return Ok(f.(pipelines := validated.value));
  }

  method ValidateOne(l: Limits, p: NamedPipeline, index: nat, names: set<string>)
    returns (r: Result<NamedPipeline, FileError>)
    ensures r.Ok? <==> PipelineOk(l, p) && p.name !in names
    ensures r.Ok? ==> SamePipeline(l, p, r.value)
    ensures r.Err? ==> PipelineReports(l, p, index, names, r.error)
  {
    var e := CheckFields(p, index, names);
    if e.Some? {
      return Err(e.value);
    }
    var config := Validate(l, p.config);
    if config.Err? {
      return Err(PipelineError(index, config.error));
    }
    return Ok(p.(config := config.value, sparseView := TrimmedView(p.sparseView)));
  }

  /** The loop over the named pipelines: plain fields and unique names first, then the jobs. */
  method ValidatePipelines(l: Limits, pipelines: seq<NamedPipeline>) returns (r: Result<seq<NamedPipeline>, FileError>)
    ensures r.Ok? <==> NoDup(PipelineNames(pipelines)) && forall k | 0 <= k < |pipelines| :: PipelineOk(l, pipelines[k])
    ensures r.Ok? ==> SamePipelines(l, pipelines, r.value)
    ensures r.Err? ==> ListReports(l, pipelines, r.error)
  {
    var names: set<string> := {};
    var validated: seq<NamedPipeline> := [];
    ghost var all := PipelineNames(pipelines);
    for index := 0 to |pipelines|
      invariant forall x :: x in names <==> x in all[..index]
      invariant NoDup(all[..index])
      invariant forall k | 0 <= k < index :: PipelineOk(l, pipelines[k])
      invariant SamePipelines(l, pipelines[..index], validated)
    {
      var pipeline := pipelines[index];
      assert all[..index+1] == all[..index] + [pipeline.name];
      assert pipeline.name in names ==> !NoDup(all);
      var one := ValidateOne(l, pipeline, index, names);
      if one.Err? {
        assert names == NameSet(pipelines, index);
        assert ReportsAt(l, pipelines, index, one.error);
        return Err(one.error);
      }
      assert pipelines[..index+1] == pipelines[..index] + [pipeline];
      names := names + {pipeline.name};
      validated := validated + [one.value];
    }
    assert all[..|pipelines|] == all && pipelines[..|pipelines|] == pipelines;
    return Ok(validated);
  }

  lemma ViewIsTrimmed(view: Option<string>)
    ensures TrimmedView(TrimmedView(view)) == TrimmedView(view)
  {
    if view.Some? {
      TrimIsIdempotent(view.value);
    }
  }

  /** A validated file is accepted again, unchanged. */
  lemma FileValidationIsIdempotent(l: Limits, f: DefinitionFile, g: DefinitionFile, h: DefinitionFile)
    requires SameButOrdered(l, f, g) && SameButOrdered(l, g, h)
    ensures h == g
  {
    if f.pipelines == [] {
      ValidationIsIdempotent(l, f.root, g.root, Ok(h.root));
    } else {
      forall k | 0 <= k < |f.pipelines|
        ensures h.pipelines[k] == g.pipelines[k]
      {
        assert SamePipeline(l, f.pipelines[k], g.pipelines[k]) && SamePipeline(l, g.pipelines[k], h.pipelines[k]);
        ValidationIsIdempotent(l, f.pipelines[k].config, g.pipelines[k].config, Ok(h.pipelines[k].config));
        ViewIsTrimmed(f.pipelines[k].sparseView);
      }
    }
  }

  lemma ValidatedFileIsOk(l: Limits, f: DefinitionFile, g: DefinitionFile)
    requires FileOk(l, f) && SameButOrdered(l, f, g)
    ensures FileOk(l, g)
  {
    if f.pipelines == [] {
      ValidationGivesAcceptable(l, f.root, g.root);
    } else {
      forall k | 0 <= k < |f.pipelines|
        ensures PipelineOk(l, g.pipelines[k])
      {
        assert PipelineOk(l, f.pipelines[k]) && SamePipeline(l, f.pipelines[k], g.pipelines[k]);
        ValidationGivesAcceptable(l, f.pipelines[k].config, g.pipelines[k].config);
        ViewIsTrimmed(f.pipelines[k].sparseView);
      }
      assert PipelineNames(g.pipelines) == PipelineNames(f.pipelines);
      assert NeedsView(g.pipelines).jobs == NeedsView(f.pipelines).jobs;
    }
  }

  lemma ValidationGivesAcceptable(l: Limits, c: PipelineConfig, v: PipelineConfig)
    requires IsValidation(l, c, Ok(v))
    ensures Acceptable(l, v) && Validated(l, v)
  {
    var order :| Reorders(l, c, order, v);
    AcceptedIsValidated(l, c, order);
    ValidatedIsAcyclic(l, v);
  }
}
