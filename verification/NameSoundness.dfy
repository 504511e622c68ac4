/** What acceptance by validateSpec buys the rest of the reconcile: no name in the
    spec can turn out to be undefined later on. */
module NameSoundness {
  import opened Wrappers
  import opened ValueTree
  import opened Strings
  import opened Templates
  import opened SourceRefs
  import V = Values
  import P = Pipeline
  import E = PipelineEval
  import R = PipelineRuns
  import L = PipelineLaws
  import opened DestPath
  import opened Staging
  import opened ExactStaging
  import B = Builder
  import opened Validation
  import opened Generation

  /** Validation and resolution use the same decoder and the same flag. */
  ghost predicate SamePolicy(p: Policy, env: Environment) {
    p.decode == env.resolver.decode && p.noCrossNamespaceRefs == env.resolver.noCrossNamespaceRefs
  }

  // -------------------------------------------------------------------- values

  lemma AcceptedValues(g: GeneratorSpec, p: Policy, env: Environment, e: V.ResolveError)
    requires Accepted(g, p) && SamePolicy(p, env) && ValuesExplain(g, env, e)
    ensures e.InEntry? && !e.error.AccessDenied? && !e.error.EmptySegment?
  {
    hide V.Contribution, V.Inline;
    AcceptedResolution(g, p, env.resolver, e);
  }

  /** Whatever the ConfigMaps hold, resolving the values of an accepted spec is not
      denied and meets no malformed target path or inline tree. */
  lemma AcceptedResolution(g: GeneratorSpec, p: Policy, r: V.Resolver, e: V.ResolveError)
    requires Accepted(g, p) && p.decode == r.decode && p.noCrossNamespaceRefs == r.noCrossNamespaceRefs
    requires V.FirstFailure(r, g.valuesFrom, g.namespace, e)
             || (e.InInline? && V.Inline(g.values, r.decode) == Failure(e.inlineError))
    ensures e.InEntry? && !e.error.AccessDenied? && !e.error.EmptySegment?
  {
    hide V.Contribution, V.Inline;
    var ref := g.valuesFrom[e.index];
    V.AccessDeniedExactly(r, ref, g.namespace);
  }

  // ------------------------------------------------------------------ pipeline

  lemma AcceptedPipeline(g: GeneratorSpec, p: Policy, env: Environment)
    requires Accepted(g, p) && Fetched(g, env) && ValuesResolve(g, env)
    ensures PipelineCompiles(g)
    ensures PipelineRan(g, env).Failure? ==> !L.ScopeError(PipelineRan(g, env).error.error)
  {
    var aliases := Aliases(g.sources);
    var steps := P.Program(g.pipeline, aliases);
    L.CompiledIsWellScoped(g.pipeline, aliases);
    L.CompiledNeverUndefined(steps, |steps|, aliases, env.directories, ResolvedValues(g, env), env.world);
    assert steps[..|steps|] == steps;
  }

  /** The templates' scope binds exactly the step names and "values". */
  lemma ScopeNames(g: GeneratorSpec, env: Environment)
    requires DataReady(g, env)
    ensures TemplateData(g, env).Keys == P.StepNames(g.pipeline) + {P.VALUES_KEY}
    ensures P.VALUES_KEY !in PipelineRan(g, env).value
  {
    var aliases := Aliases(g.sources);
    var steps := P.Program(g.pipeline, aliases);
    var f := E.EvaluatorFor(env.directories, ResolvedValues(g, env), env.world);
    assert steps[..|steps|] == steps && g.pipeline[..|g.pipeline|] == g.pipeline;
    R.DomainIsPrefix(steps, |steps|, f);
    L.ProgramNames(g.pipeline, aliases, |steps|);
    forall i | 0 <= i < |g.pipeline|
      ensures g.pipeline[i].name != P.VALUES_KEY
    {
      assert P.StepCompiles(g.pipeline, i, aliases);
    }
  }

  // ----------------------------------------------------------------- artifacts

  lemma AcceptedArtifact(g: GeneratorSpec, p: Policy, env: Environment, i: nat, e: B.BuildError)
    requires Accepted(g, p) && Fetched(g, env) && FailsBecause(g, env, BuildFailed(i, e))
    ensures !e.ForEachNotDefined? && !e.UnknownAlias?
    ensures e.BadDestination? ==> !B.WrongDestination(e.destError)
    ensures e.BadSource? ==> e.refError == ArtifactAsSource && "artifact" in Aliases(g.sources)
  {
    hide P.Compiles, PipelineRan;
    var a := g.artifacts[i];
    assert ArtifactAccepted(a, Aliases(g.sources), P.StepNames(g.pipeline), p);
    ScopeNames(g, env);
    forall t | t in a.templates
      ensures B.WellPrefixed(t.to)
      ensures SplitSourceRef(t.from).Some? && SplitSourceRef(t.from).value.alias in Aliases(g.sources)
      ensures ParseSourceRef(t.from).Failure? ==>
                ParseSourceRef(t.from).error == ArtifactAsSource && SplitSourceRef(t.from).value.alias == "artifact"
      ensures ParseSourceRef(t.from).Success? ==>
                ParseSourceRef(t.from).value.alias in Aliases(g.sources)
    {
      assert TemplateAccepted(t, Aliases(g.sources), p);
      ParsersAgree(t.from);
    }
  }

  // ------------------------------------------------------------------- theorem

  /** Failures that mean a name in the spec is undefined, malformed or out of
      bounds. */
  predicate NameError(e: StageError) {
    match e
    case ValuesFailed(err) => err.InInline? || err.error.AccessDenied? || err.error.EmptySegment?
    case CompileFailed(_) => true
    case RunFailed(err) => L.ScopeError(err.error)
    case BuildFailed(_, err) =>
      || err.ForEachNotDefined? || err.UnknownAlias?
      || (err.BadSource? && err.refError != ArtifactAsSource)
      || (err.BadDestination? && B.WrongDestination(err.destError))
  }

  /** End-to-end name soundness. When validation accepts a spec, the rest of that
      reconcile cannot fail on an undefined step, an undefined forEach.from, an
      unknown alias, an empty target path segment, a cross-namespace reference or
      malformed inline values. A template source can only be refused by the
      builder if one of the aliases is "artifact". */
  lemma AcceptedNamesResolve(g: GeneratorSpec, p: Policy, env: Environment, e: StageError)
    requires Accepted(g, p) && Fetched(g, env) && SamePolicy(p, env) && FailsBecause(g, env, e)
    ensures !NameError(e)
    ensures e.BuildFailed? && e.buildError.BadSource? ==> "artifact" in Aliases(g.sources)
  {
    hide ValuesExplain, PipelineRan, B.ArtifactExplains;
    match e
    case ValuesFailed(err) => AcceptedValues(g, p, env, err);
    case CompileFailed(_) =>
    case RunFailed(_) => AcceptedPipeline(g, p, env);
    case BuildFailed(i, err) => AcceptedArtifact(g, p, env, i, err);
  }

  /** The carve-out is exact: the builder parses every template source of an
      accepted spec unless one of them uses the alias "artifact". */
  lemma BuilderRefusesExactly(g: GeneratorSpec, p: Policy, i: nat, t: nat)
    requires Accepted(g, p) && i < |g.artifacts| && t < |g.artifacts[i].templates|
    ensures var from := g.artifacts[i].templates[t].from;
            && SplitSourceRef(from).Some?
            && (ParseSourceRef(from).Failure? <==> SplitSourceRef(from).value.alias == "artifact")
  {
    var tpl := g.artifacts[i].templates[t];
    assert ArtifactAccepted(g.artifacts[i], Aliases(g.sources), P.StepNames(g.pipeline), p);
    assert tpl in g.artifacts[i].templates;
    assert TemplateAccepted(tpl, Aliases(g.sources), p);
    ParsersAgree(tpl.from);
  }

  // ---------------------------------------------------------------- .values

  /** .values is the merged tree wherever a fragment or a template is evaluated:
      in every expression of the pipeline, whatever its item bindings, and in
      every template of every iteration of an accepted artifact. */
  lemma ValuesEverywhere(g: GeneratorSpec, p: Policy, env: Environment, i: nat, iters: seq<B.Iteration>, job: B.Job)
    requires Accepted(g, p) && DataReady(g, env) && i < |g.artifacts|
    requires B.Iterations(g.artifacts[i].forEach, TemplateData(g, env)) == Success(iters)
    requires job in B.Jobs(iters, g.artifacts[i].templates, TemplateData(g, env))
    ensures P.VALUES_KEY in job.data && job.data[P.VALUES_KEY] == ResolvedValues(g, env)
  {
    hide P.Compiles, PipelineRan, ResolvedValues, DataReady;
    var a, data := g.artifacts[i], TemplateData(g, env);
    assert LoopAccepted(a.forEach, P.StepNames(g.pipeline)) by {
      assert ArtifactAccepted(a, Aliases(g.sources), P.StepNames(g.pipeline), p);
    }
    var k := JobComesFrom(iters, a.templates, data, job);
    IterationsBind(a.forEach, data, k);
  }

  lemma {:induction false} JobComesFrom(iters: seq<B.Iteration>, templates: seq<B.TemplateSpec>, data: Data, job: B.Job)
    returns (k: nat)
    requires job in B.Jobs(iters, templates, data)
    ensures k < |iters| && job.data == data + iters[k].bindings
  {
    var n := |iters| - 1;
    if job in B.Jobs(iters[..n], templates, data) {
      k := JobComesFrom(iters[..n], templates, data, job);
    } else {
      k := n;
    }
  }

  /** An iteration binds nothing but the loop's own name. */
  lemma IterationsBind(forEach: Option<B.ForEachSpec>, data: Data, k: nat)
    requires B.Iterations(forEach, data).Success? && k < |B.Iterations(forEach, data).value|
    ensures B.Iterations(forEach, data).value[k].bindings.Keys
         == if forEach.Some? then {forEach.value.bind} else {}
  {
    if forEach.Some? && data[forEach.value.from].Map? {
      assert Listing(data[forEach.value.from].entries.Keys)[k] in Listing(data[forEach.value.from].entries.Keys);
    }
  }

  /** The bindings of pipeline expressions never hide .values. */
  lemma ValuesInExpressions(scope: E.Scope, item: Value, key: string, index: nat, rel: string)
    ensures forall b :: b in [E.ListBindings(item, index), E.MapBindings(item, key), E.PathBindings(rel)] ==>
                          && P.VALUES_KEY in E.Bound(b, scope)
                          && E.Bound(b, scope)[P.VALUES_KEY] == scope.values
  {
  }

  // ------------------------------------------------------------ staging dirs

  /** An artifact's tarball holds exactly its rendered files if and only if its
      staging directory held nothing else beforehand; a name that is no alias
      suffices for that. */
  lemma StagedExactly(a: B.ManifestArtifact, data: Data, env: Environment, tree: FileTree)
    requires ArtifactBuilt(a, data, env, tree) && WellFormed(StagingStart(env, a.name))
    ensures var outs := Outputs(B.PlanOf(B.Iterations(a.forEach, data).value, a, env.directories, data, env.workshop));
            var before := if a.name in env.fetched then env.fetched[a.name] else map[];
            && before.Keys <= tree.Keys
            && (ExactlyHolds(tree, outs) <==> forall q :: q in before ==> AtOrAbove(q, outs))
            && (a.name !in env.directories && env.directories.Keys == env.fetched.Keys ==> ExactlyHolds(tree, outs))
  {
    hide AllStageable, StageAll, ExactlyHolds, AtOrAbove, B.PlanOf, B.Iterations;
    var outs := Outputs(B.PlanOf(B.Iterations(a.forEach, data).value, a, env.directories, data, env.workshop));
    ExactOverLeftovers(StagingStart(env, a.name), outs);
    StagingOverLeftovers(StagingStart(env, a.name), outs);
  }

  /** Validation does not keep artifact names and aliases apart, nor does it
      refuse the alias "artifact": for every destination parser that accepts
      "out" this spec is accepted. */
  function Clashing(alias: string): GeneratorSpec {
    GeneratorSpec("ns", [SourceReference(alias, "repo", "", "GitRepository")], "", [], [],
                  [B.ManifestArtifact(alias, "", "", None, [B.TemplateSpec("@" + alias + "/file", "@artifact/out")])])
  }

  lemma ClashesAreAccepted(alias: string, p: Policy)
    requires alias != "" && '/' !in alias && p.parsesDest("out")
    ensures Accepted(Clashing(alias), p)
    ensures Clashing(alias).artifacts[0].name in Aliases(Clashing(alias).sources)
    ensures alias == "artifact" ==>
              ParseSourceRef(Clashing(alias).artifacts[0].templates[0].from) == Failure(ArtifactAsSource)
  {
    hide ArtifactAccepted, ParseSourceRef, SplitSourceRef, V.ValidTargetPath;
    var g := Clashing(alias);
    assert g.sources[0].alias == alias;
    ClashingArtifact(alias, Aliases(g.sources), P.StepNames(g.pipeline), p);
  }

  lemma ClashingArtifact(alias: string, aliases: set<string>, steps: set<string>, p: Policy)
    requires alias in aliases && alias != "" && '/' !in alias && p.parsesDest("out")
    ensures ArtifactAccepted(Clashing(alias).artifacts[0], aliases, steps, p)
    ensures alias == "artifact" ==>
              ParseSourceRef(Clashing(alias).artifacts[0].templates[0].from) == Failure(ArtifactAsSource)
  {
    hide ParseSourceRef, SplitSourceRef;
    var from := "@" + alias + "/file";
    SpelledReference(alias, "file");
    assert "@" + alias + "/" + "file" == from;
    assert "@artifact/out"[|ARTIFACT_PREFIX|..] == "out";
  }

  lemma SpelledReference(alias: string, rest: string)
    requires alias != "" && '/' !in alias && rest != ""
    ensures var from := "@" + alias + "/" + rest;
            && SplitSourceRef(from) == Some(Ref(alias, rest))
            && (ParseSourceRef(from) == Failure(ArtifactAsSource) <==> alias == "artifact")
  {
    hide ParseSourceRef, SplitSourceRef;
    var from := "@" + alias + "/" + rest;
    SplitMeaning(from, alias, rest);
    ParsersAgree(from);
  }
}
