/** internal/pipeline: the spec of a pipeline and its compilation, which is a
    scope check followed by a translation of each step on its own. */
module Pipeline {
  import opened Wrappers
  import opened Strings
  import opened Templates
  import opened SourceRefs

  const VALUES_KEY := "values"

  /** A template fragment as written in the spec, after parsing. */
  datatype ExprSource = Blank | Malformed | Parsed(expr: Expr)

  datatype LoadSpec = LoadSpec(from: string, format: string, shape: string, keyExpr: ExprSource)
  datatype FilterSpec = FilterSpec(from: string, where: ExprSource)
  datatype MapSpec = MapSpec(from: string, expr: ExprSource)
  datatype GroupSpec = GroupSpec(from: string, keyExpr: ExprSource)
  datatype MergeSpec = MergeSpec(from: seq<string>)

  datatype PipelineStep = PipelineStep(
    name: string,
    load: Option<LoadSpec>, filter: Option<FilterSpec>, mapEach: Option<MapSpec>,
    group: Option<GroupSpec>, merge: Option<MergeSpec>)

  datatype Step =
    | Load(name: string, alias: string, pattern: string, format: string, loadKey: Option<Expr>)
    | Filter(name: string, from: string, where: Expr)
    | MapEach(name: string, from: string, expr: Expr)
    | Group(name: string, from: string, groupKey: Expr)
    | MergeAll(name: string, sources: seq<string>)

  datatype CompileError =
    | DuplicateStep | ReservedName | NoVerb
    | BadSourceRef | UnknownAlias(alias: string) | BadGlob | BadFormat
    | KeyExprMissing | KeyExprUnexpected | BadExpr
    | FromNotPrior(from: string) | FromRepeated(from: string)

  // ------------------------------------------------------------------- load

  /** validateGlob. */
  predicate ValidGlob(pattern: string) {
    pattern != "" && pattern[0] != '/' && ".." !in Split(pattern, '/')
  }

  predicate HasGlobMeta(pattern: string) {
    exists c :: c in pattern && c in "*?[{"
  }

  function CompileLoad(ps: PipelineStep, aliases: set<string>): Result<Step, CompileError>
    requires ps.load.Some?
  {
    var ls := ps.load.value;
    match SplitSourceRef(ls.from)
    case None => Failure(BadSourceRef)
    case Some(ref) =>
      var format := if ls.format == "" then "yaml" else ls.format;
      if ref.alias !in aliases then Failure(UnknownAlias(ref.alias))
      else if !ValidGlob(ref.rest) then Failure(BadGlob)
      else if format !in ["yaml", "json", "text", "raw"] then Failure(BadFormat)
      else if ls.shape == "map" then
        match ls.keyExpr
        case Blank => Failure(KeyExprMissing)
        case Malformed => Failure(BadExpr)
        case Parsed(e) => Success(Load(ps.name, ref.alias, ref.rest, format, Some(e)))
      else if ls.keyExpr != Blank then Failure(KeyExprUnexpected)
      else Success(Load(ps.name, ref.alias, ref.rest, format, None))
  }

  // ------------------------------------------------------------------ merge

  ghost predicate Distinct<T>(xs: seq<T>) {
    forall i, j :: 0 <= i < j < |xs| ==> xs[i] != xs[j]
  }

  /** x occurs at two positions of xs. */
  ghost predicate Repeats<T>(xs: seq<T>, x: T) {
    exists i, j :: 0 <= i < j < |xs| && xs[i] == x && xs[j] == x
  }

  /** compileMerge: every source is a prior step and none is named twice. */
  method CompileMerge(ps: PipelineStep, seen: set<string>) returns (r: Result<Step, CompileError>)
    requires ps.merge.Some?
    ensures r.Success? <==> (forall n :: n in ps.merge.value.from ==> n in seen) && Distinct(ps.merge.value.from)
    ensures r.Success? ==> r.value == MergeAll(ps.name, ps.merge.value.from)
    ensures r.Failure? ==> r.error.FromNotPrior? || r.error.FromRepeated?
    ensures r.Failure? && r.error.FromNotPrior? ==> r.error.from in ps.merge.value.from && r.error.from !in seen
    ensures r.Failure? && r.error.FromRepeated? ==> Repeats(ps.merge.value.from, r.error.from)
  {
    var from := ps.merge.value.from;
    var dedup: set<string> := {};
    for i := 0 to |from|
      invariant dedup == set j | 0 <= j < i :: from[j]
      invariant dedup <= seen && Distinct(from[..i])
    {
      if from[i] !in seen {
        return Failure(FromNotPrior(from[i]));
      }
      if from[i] in dedup {
        var j :| 0 <= j < i && from[j] == from[i];
        return Failure(FromRepeated(from[i]));
      }
      dedup := dedup + {from[i]};
    }
    assert from[..|from|] == from;
    return Success(MergeAll(ps.name, from));
  }

  // --------------------------------------------------------------- one step

  /** The translation of a well-formed step. It does not depend on the steps
      before it: they only decide whether the step is in scope. */
  ghost function Translated(ps: PipelineStep): Option<Step> {
    match ps
    case PipelineStep(name, Some(ls), _, _, _, _) =>
      (match SplitSourceRef(ls.from)
       case None => None
       case Some(ref) => if CompileLoad(ps, {ref.alias}).Success? then Some(CompileLoad(ps, {ref.alias}).value) else None)
    case PipelineStep(name, None, Some(fs), _, _, _) =>
      if fs.where.Parsed? then Some(Filter(name, fs.from, fs.where.expr)) else None
    case PipelineStep(name, None, None, Some(ms), _, _) =>
      if ms.expr.Parsed? then Some(MapEach(name, ms.from, ms.expr.expr)) else None
    case PipelineStep(name, None, None, None, Some(gs), _) =>
      if gs.keyExpr.Parsed? then Some(Group(name, gs.from, gs.keyExpr.expr)) else None
    case PipelineStep(name, None, None, None, None, Some(ms)) =>
      if Distinct(ms.from) then Some(MergeAll(name, ms.from)) else None
    case _ => None
  }

  /** The steps a compiled step takes its input from. */
  function From(s: Step): set<string> {
    match s
    case Load(_, _, _, _, _) => {}
    case Filter(_, from, _) => {from}
    case MapEach(_, from, _) => {from}
    case Group(_, from, _) => {from}
    case MergeAll(_, sources) => set n | n in sources
  }

  ghost predicate InScope(s: Step, aliases: set<string>, seen: set<string>) {
    (s.Load? ==> s.alias in aliases) && From(s) <= seen
  }

  function CompileUnary(name: string, from: string, e: ExprSource, seen: set<string>, make: (string, string, Expr) -> Step)
    : Result<Step, CompileError>
  {
    if from !in seen then Failure(FromNotPrior(from))
    else if e.Parsed? then Success(make(name, from, e.expr))
    else Failure(BadExpr)
  }

  /** compileStep dispatches on the first verb that is set. */
  method CompileStep(ps: PipelineStep, aliases: set<string>, seen: set<string>) returns (r: Result<Step, CompileError>)
    ensures r.Success? <==> Translated(ps).Some? && InScope(Translated(ps).value, aliases, seen)
    ensures r.Success? ==> Translated(ps) == Some(r.value)
    ensures r.Failure? && r.error.UnknownAlias? ==> r.error.alias !in aliases
    ensures r.Failure? && r.error.FromNotPrior? ==> r.error.from !in seen
    ensures r.Failure? ==> !r.error.DuplicateStep? && !r.error.ReservedName?
  {
    if ps.load.Some? {
      return CompileLoad(ps, aliases);
    }
    if ps.filter.Some? {
      return CompileUnary(ps.name, ps.filter.value.from, ps.filter.value.where, seen, (n, f, e) => Filter(n, f, e));
    }
    if ps.mapEach.Some? {
      return CompileUnary(ps.name, ps.mapEach.value.from, ps.mapEach.value.expr, seen, (n, f, e) => MapEach(n, f, e));
    }
    if ps.group.Some? {
      return CompileUnary(ps.name, ps.group.value.from, ps.group.value.keyExpr, seen, (n, f, e) => Group(n, f, e));
    }
    if ps.merge.Some? {
      r := CompileMerge(ps, seen);
      return;
    }
    return Failure(NoVerb);
  }

  // ------------------------------------------------------------ all of them

  ghost function StepNames(spec: seq<PipelineStep>): set<string> {
    set i | 0 <= i < |spec| :: spec[i].name
  }

  /** Step i compiles in the scope of the steps before it. */
  ghost predicate StepCompiles(spec: seq<PipelineStep>, i: nat, aliases: set<string>)
    requires i < |spec|
  {
    && spec[i].name !in StepNames(spec[..i])
    && spec[i].name != VALUES_KEY
    && Translated(spec[i]).Some?
    && InScope(Translated(spec[i]).value, aliases, StepNames(spec[..i]))
  }

  ghost predicate Compiles(spec: seq<PipelineStep>, aliases: set<string>) {
    forall i :: 0 <= i < |spec| ==> StepCompiles(spec, i, aliases)
  }

  /** The compiled steps of a pipeline that compiles. */
  ghost function Program(spec: seq<PipelineStep>, aliases: set<string>): (steps: seq<Step>)
    requires Compiles(spec, aliases)
    ensures |steps| == |spec|
  {
    seq(|spec|, i requires 0 <= i < |spec| => assert StepCompiles(spec, i, aliases); Translated(spec[i]).value)
  }

  datatype CompileFailure = CompileFailure(step: string, error: CompileError)

  /** Step i is the first that does not compile, and the failure says why: its
      name is taken, or reserved, or the step itself is malformed or out of
      scope, checked in this order. */
  ghost predicate FailsAt(spec: seq<PipelineStep>, i: nat, aliases: set<string>, f: CompileFailure) {
    && i < |spec| && spec[i].name == f.step
    && (forall j: nat :: j < i ==> StepCompiles(spec, j, aliases))
    && var prior := StepNames(spec[..i]);
       match f.error
       case DuplicateStep => f.step in prior
       case ReservedName => f.step !in prior && f.step == VALUES_KEY
       case _ =>
         && f.step !in prior && f.step != VALUES_KEY
         && !(Translated(spec[i]).Some? && InScope(Translated(spec[i]).value, aliases, prior))
         && (f.error.UnknownAlias? ==> f.error.alias !in aliases)
         && (f.error.FromNotPrior? ==> f.error.from !in prior)
  }

  /** Compile: succeeds exactly when every step compiles in the scope of the
      earlier ones, and names a step that does not otherwise. */
  method Compile(spec: seq<PipelineStep>, aliases: set<string>) returns (r: Result<seq<Step>, CompileFailure>)
    ensures r.Success? <==> Compiles(spec, aliases)
    ensures r.Success? ==> r.value == Program(spec, aliases)
    ensures r.Failure? ==> exists i :: FailsAt(spec, i, aliases, r.error)
  {
    hide Translated, InScope;
    var seen: set<string> := {};
    var steps: seq<Step> := [];
    for i := 0 to |spec|
      invariant seen == StepNames(spec[..i])
      invariant forall j: nat :: j < i ==> StepCompiles(spec, j, aliases)
      invariant |steps| == i && forall j :: 0 <= j < i ==> Translated(spec[j]) == Some(steps[j])
    {
      var ps := spec[i];
      if ps.name in seen {
        assert FailsAt(spec, i, aliases, CompileFailure(ps.name, DuplicateStep)) && !StepCompiles(spec, i, aliases);
        return Failure(CompileFailure(ps.name, DuplicateStep));
      }
      if ps.name == VALUES_KEY {
        assert FailsAt(spec, i, aliases, CompileFailure(ps.name, ReservedName)) && !StepCompiles(spec, i, aliases);
        return Failure(CompileFailure(ps.name, ReservedName));
      }
      var s := CompileStep(ps, aliases, seen);
      if s.Failure? {
        assert FailsAt(spec, i, aliases, CompileFailure(ps.name, s.error)) && !StepCompiles(spec, i, aliases);
        return Failure(CompileFailure(ps.name, s.error));
      }
      assert StepNames(spec[..i + 1]) == seen + {ps.name} by {
        assert spec[..i + 1][..i] == spec[..i] && spec[..i + 1][i] == ps;
        assert forall j :: 0 <= j < i ==> spec[..i + 1][j] == spec[..i][j];
      }
      seen := seen + {ps.name};
      steps := steps + [s.value];
    }
    return Success(steps);
  }
}
