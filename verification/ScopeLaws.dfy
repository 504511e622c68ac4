/** The scope of the templates, from the spec to the data: every step's name stands
    for what the spec's verb means, and .values for the merged tree. */
module ScopeLaws {
  import opened Wrappers
  import opened ValueTree
  import opened Templates
  import P = Pipeline
  import E = PipelineEval
  import R = PipelineRuns
  import L = PipelineLaws
  import opened Validation
  import opened Generation
  import opened SpecLaws
  import opened StepLaws
  import opened Staging
  import opened ExactStaging
  import opened Partials
  import B = Builder
  import opened BuilderLaws

  /** Of the i-th step of the spec, a template sees what the step's verb means for
      the outputs of the steps before it. */
  lemma ScopeMeans(g: GeneratorSpec, env: Environment, i: nat) returns (s: P.Step, before: Data)
    requires DataReady(g, env) && i < |g.pipeline|
    ensures StepDenotes(g.pipeline[i], s, Aliases(g.sources), EarlierNames(g.pipeline, i))
    ensures var data, name := TemplateData(g, env), g.pipeline[i].name;
            && name in data && name != "values"
            && before.Keys == EarlierNames(g.pipeline, i)
            && (forall n :: n in before ==> n in data && data[n] == before[n])
            && StepMeans(s, E.Scope(env.directories, ResolvedValues(g, env), before), env.world, Success(data[name]))
  {
    hide StepDenotes, StepMeans, E.Ran, P.Program, ResolvedValues, ValuesResolve, P.StepCompiles, P.InScope;
    var aliases, values := Aliases(g.sources), ResolvedValues(g, env);
    var steps, outputs := P.Program(g.pipeline, aliases), PipelineRan(g, env).value;
    s := steps[i];
    before := map n | n in outputs && (exists j :: 0 <= j < i && steps[j].name == n) :: outputs[n];
    L.CompiledIsWellScoped(g.pipeline, aliases);
    ProgramDenotes(g.pipeline, aliases, i);
    EveryStepIsMeant(steps, env.directories, values, env.world, outputs, i);
    forall j | 0 <= j <= i
      ensures steps[j].name == g.pipeline[j].name && steps[j].name != "values"
    {
      L.ProgramStep(g.pipeline, aliases, j);
    }
  }

  /** A built artifact holds, for every iteration and template, the text that the
      engine made of that template's file in that iteration's scope, at the place
      the template's destination leads to. */
  lemma FileMeans(a: B.ManifestArtifact, data: Data, env: Environment, tree: FileTree, iters: seq<B.Iteration>, i: nat,
                  t: nat)
    returns (alias: string, rest: string, content: string, partials: seq<Partial>, to: string, text: string, p: Planned)
    requires ArtifactBuilt(a, data, env, tree)
    requires B.Iterations(a.forEach, data) == Success(iters) && i < |iters| && t < |a.templates|
    ensures RenderedAs(B.Job(a.templates[t], iters[i].tag, data + iters[i].bindings), env.directories, env.workshop,
                       alias, rest, content, partials, to, text, p)
    ensures p.out.path in tree && tree[p.out.path] == File(p.out.content)
  {
    hide RenderedAs, B.PlanOf, B.Iterations, StageAll, AllStageable, WellFormed;
    var plan, k := B.PlanOf(iters, a, env.directories, data, env.workshop), i * |a.templates| + t;
    alias, rest, content, partials, to, text := EveryFileIsItsOwn(a, iters, env.directories, data, env.workshop, i, t);
    p := plan[k].value;
    var outs := Outputs(plan);
    assert outs[k] == p.out && outs[k] in outs;
    StagingOverLeftovers(StagingStart(env, a.name), outs);
    StagingFromEmpty(outs);
  }
}
