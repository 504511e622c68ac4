/** The middle of a reconcile: resolving values, running the pipeline, and
    building every artifact, on a spec that validation has accepted. */
module Generation {
  import opened Wrappers
  import opened ValueTree
  import opened Templates
  import V = Values
  import P = Pipeline
  import E = PipelineEval
  import opened Staging
  import opened ExactStaging
  import B = Builder
  import opened Validation

  /** What a reconcile has at hand once the sources are fetched: the directory of
      every alias, and what fetching left in it. */
  datatype Environment = Environment(
    resolver: V.Resolver, world: E.World, workshop: B.Workshop,
    directories: map<string, string>, fetched: map<string, FileTree>)

  ghost predicate Fetched(g: GeneratorSpec, env: Environment) {
    && env.directories.Keys == Aliases(g.sources) == env.fetched.Keys
    && forall alias :: alias in env.fetched ==> WellFormed(env.fetched[alias])
  }

  datatype StageError =
    | ValuesFailed(valuesError: V.ResolveError)
    | CompileFailed(compileFailure: P.CompileFailure)
    | RunFailed(runFailure: E.RunFailure)
    | BuildFailed(artifact: nat, buildError: B.BuildError)

  // ----------------------------------------------------------- specification

  ghost predicate ValuesResolve(g: GeneratorSpec, env: Environment) {
    V.Resolvable(env.resolver, g.valuesFrom, g.values, g.namespace)
  }

  ghost function ResolvedValues(g: GeneratorSpec, env: Environment): Value
    requires ValuesResolve(g, env)
  {
    V.ValuesTree(env.resolver, g.valuesFrom, g.values, g.namespace)
  }

  ghost predicate PipelineCompiles(g: GeneratorSpec) {
    P.Compiles(g.pipeline, Aliases(g.sources))
  }

  /** The pipeline's outputs, or its first failure. */
  ghost function PipelineRan(g: GeneratorSpec, env: Environment): Result<Data, E.RunFailure>
    requires ValuesResolve(g, env) && PipelineCompiles(g)
  {
    E.Ran(P.Program(g.pipeline, Aliases(g.sources)),
          E.EvaluatorFor(env.directories, ResolvedValues(g, env), env.world))
  }

  ghost predicate DataReady(g: GeneratorSpec, env: Environment) {
    ValuesResolve(g, env) && PipelineCompiles(g) && PipelineRan(g, env).Success?
  }

  /** The scope the templates see: the outputs, and the merged tree as .values. */
  ghost function TemplateData(g: GeneratorSpec, env: Environment): Data
    requires DataReady(g, env)
  {
    PipelineRan(g, env).value[P.VALUES_KEY := ResolvedValues(g, env)]
  }

  /** What is in the staging directory workspace/name before anything is written:
      the sources of the alias of the same name, if there is one. */
  function StagingStart(env: Environment, name: string): FileTree {
    if name in env.fetched then env.fetched[name] else map[]
  }

  ghost predicate ArtifactBuilt(a: B.ManifestArtifact, data: Data, env: Environment, tree: FileTree) {
    && B.Iterations(a.forEach, data).Success?
    && var plan := B.PlanOf(B.Iterations(a.forEach, data).value, a, env.directories, data, env.workshop);
       && Doable(plan, StagingStart(env, a.name))
       && tree == StageAll(StagingStart(env, a.name), Outputs(plan))
  }

  ghost predicate ValuesExplain(g: GeneratorSpec, env: Environment, e: V.ResolveError) {
    || V.FirstFailure(env.resolver, g.valuesFrom, g.namespace, e)
    || (e.InInline? && V.Inline(g.values, env.resolver.decode) == Failure(e.inlineError))
  }

  /** Why generation failed. */
  ghost predicate FailsBecause(g: GeneratorSpec, env: Environment, e: StageError) {
    match e
    case ValuesFailed(err) => ValuesExplain(g, env, err)
    case CompileFailed(_) => !PipelineCompiles(g)
    case RunFailed(err) => ValuesResolve(g, env) && PipelineCompiles(g) && PipelineRan(g, env) == Failure(err)
    case BuildFailed(i, err) =>
      && DataReady(g, env) && i < |g.artifacts|
      && B.ArtifactExplains(err, g.artifacts[i], env.directories, TemplateData(g, env))
  }

  // ---------------------------------------------------------------- the stages

  /** runPipeline. */
  method RunPipeline(g: GeneratorSpec, env: Environment, values: Value) returns (r: Result<Data, StageError>)
    requires ValuesResolve(g, env) && values == ResolvedValues(g, env)
    ensures r.Success? ==> PipelineCompiles(g) && PipelineRan(g, env) == Success(r.value)
    ensures r.Failure? ==> FailsBecause(g, env, r.error)
  {
    if |g.pipeline| == 0 {
      assert P.Program(g.pipeline, Aliases(g.sources)) == [];
      return Success(map[]);
    }
    var aliases: set<string> := {};
    for i := 0 to |g.sources|
      invariant aliases == set j | 0 <= j < i :: g.sources[j].alias
    {
      aliases := aliases + {g.sources[i].alias};
    }
    assert aliases == Aliases(g.sources);
    var ev := P.Compile(g.pipeline, aliases);
    if ev.Failure? {
      return Failure(CompileFailed(ev.error));
    }
    var outs := E.Run(ev.value, env.directories, values, env.world);
    return if outs.Failure? then Failure(RunFailed(outs.error)) else Success(outs.value);
  }

  /** Build, up to the archive: stages one artifact in its own directory. */
  method BuildArtifact(a: B.ManifestArtifact, data: Data, env: Environment) returns (r: Result<FileTree, B.BuildError>)
    requires WellFormed(StagingStart(env, a.name))
    ensures r.Success? ==> ArtifactBuilt(a, data, env, r.value)
    ensures r.Failure? ==> B.ArtifactExplains(r.error, a, env.directories, data)
  {
    var root := new StagingRoot(StagingStart(env, a.name));
    var failed := B.ApplyArtifact(a, env.directories, data, root, env.workshop);
    return if failed.Some? then Failure(failed.value) else Success(root.entries);
  }

  /** reconcile, from the fetched sources to the staged artifacts. */
  method Generate(g: GeneratorSpec, env: Environment) returns (r: Result<seq<FileTree>, StageError>)
    requires Fetched(g, env)
    ensures r.Success? ==>
              && DataReady(g, env) && |r.value| == |g.artifacts|
              && forall i :: 0 <= i < |g.artifacts| ==> ArtifactBuilt(g.artifacts[i], TemplateData(g, env), env, r.value[i])
    ensures r.Failure? ==> FailsBecause(g, env, r.error)
  {
    hide ArtifactBuilt, B.ArtifactExplains, PipelineCompiles, PipelineRan, ResolvedValues, TemplateData;
    var values := V.Resolve(env.resolver, g.valuesFrom, g.values, g.namespace);
    if values.Failure? {
      return Failure(ValuesFailed(values.error));
    }
    ResolvedIs(g, env, values.value);
    var outputs := RunPipeline(g, env, values.value);
    if outputs.Failure? {
      return Failure(outputs.error);
    }
    var data := CopyInto(map[], outputs.value);
    assert data == outputs.value;
    data := data[P.VALUES_KEY := values.value];
    DataIs(g, env, outputs.value);
    var trees: seq<FileTree> := [];
    for i := 0 to |g.artifacts|
      invariant |trees| == i
      invariant forall j :: 0 <= j < i ==> ArtifactBuilt(g.artifacts[j], data, env, trees[j])
    {
      StagingStartsWellFormed(g, env, g.artifacts[i].name);
      var tree := BuildArtifact(g.artifacts[i], data, env);
      if tree.Failure? {
        return Failure(BuildFailed(i, tree.error));
      }
      trees := trees + [tree.value];
    }
    return Success(trees);
  }

  lemma DataIs(g: GeneratorSpec, env: Environment, outputs: Data)
    requires ValuesResolve(g, env) && PipelineCompiles(g) && PipelineRan(g, env) == Success(outputs)
    ensures DataReady(g, env) && TemplateData(g, env) == outputs[P.VALUES_KEY := ResolvedValues(g, env)]
  {
  }

  lemma ResolvedIs(g: GeneratorSpec, env: Environment, v: Value)
    requires ValuesResolve(g, env) && v == V.ValuesTree(env.resolver, g.valuesFrom, g.values, g.namespace)
    ensures v == ResolvedValues(g, env)
  {
  }

  lemma StagingStartsWellFormed(g: GeneratorSpec, env: Environment, name: string)
    requires Fetched(g, env)
    ensures WellFormed(StagingStart(env, name))
  {
  }
}
