/** The checks made on a spec before anything is fetched. */
module Validation {
  import opened Wrappers
  import opened Values
  import opened Pipeline
  import opened SourceRefs
  import opened DestPath
  import V = ValueTree
  import B = Builder

  datatype SourceReference = SourceReference(alias: string, name: string, namespace: string, kind: string)

  datatype GeneratorSpec = GeneratorSpec(
    namespace: string, sources: seq<SourceReference>, values: string, valuesFrom: seq<ValuesReference>,
    pipeline: seq<PipelineStep>, artifacts: seq<B.ManifestArtifact>)

  /** The --no-cross-namespace-refs flag, the YAML decoder, and whether a
      destination template parses. */
  datatype Policy = Policy(
    noCrossNamespaceRefs: bool, decode: string -> Option<V.Value>, parsesDest: string -> bool)

  /** A defect, at a position of the list it was found in. */
  datatype Issue =
    | DuplicateAlias(source: nat) | ForeignSource(source: nat)
    | BadValues(valuesError: ValuesError)
    | BadTargetPath(ref: nat) | ForeignValues(ref: nat)
    | BadPipeline(failure: CompileFailure)
    | DuplicateArtifact(artifact: nat)
    | UnknownForEach(artifact: nat) | ReservedBinding(artifact: nat)
    | UnknownRevision(artifact: nat) | UnknownOrigin(artifact: nat)
    | BadTemplateSource(artifact: nat, template: nat)
    | UnknownTemplateAlias(artifact: nat, template: nat)
    | BadTemplateDestination(artifact: nat, template: nat)

  const ACCESS_DENIED := "AccessDenied"
  const VALIDATION_FAILED := "ValidationFailed"

  /** The reason put on the conditions. */
  function ReasonFor(issue: Issue): string {
    if issue.ForeignSource? || issue.ForeignValues? then ACCESS_DENIED else VALIDATION_FAILED
  }

  // ---------------------------------------------------------- what is accepted

  predicate Foreign(namespace: string, home: string, p: Policy) {
    p.noCrossNamespaceRefs && namespace != "" && namespace != home
  }

  ghost function Aliases(sources: seq<SourceReference>): set<string> {
    set i | 0 <= i < |sources| :: sources[i].alias
  }

  ghost predicate SourcesAccepted(sources: seq<SourceReference>, home: string, p: Policy) {
    && (forall i, j :: 0 <= i < j < |sources| ==> sources[i].alias != sources[j].alias)
    && forall i :: 0 <= i < |sources| ==> !Foreign(sources[i].namespace, home, p)
  }

  ghost predicate RefsAccepted(refs: seq<ValuesReference>, home: string, p: Policy) {
    forall i :: 0 <= i < |refs| ==> ValidTargetPath(refs[i].targetPath) && !Foreign(refs[i].namespace, home, p)
  }

  /** ValidateDestTemplate. */
  predicate ValidDestination(to: string, p: Policy) {
    ARTIFACT_PREFIX <= to && |to| > |ARTIFACT_PREFIX| && p.parsesDest(to[|ARTIFACT_PREFIX|..])
  }

  ghost predicate TemplateAccepted(t: B.TemplateSpec, aliases: set<string>, p: Policy) {
    && SplitSourceRef(t.from).Some? && SplitSourceRef(t.from).value.alias in aliases
    && ValidDestination(t.to, p)
  }

  /** strings.TrimPrefix(ref, "@"). */
  function TrimAt(ref: string): string {
    if ref != "" && ref[0] == '@' then ref[1..] else ref
  }

  predicate MirrorsAlias(ref: string, aliases: set<string>) {
    ref == "" || TrimAt(ref) in aliases
  }

  ghost predicate LoopAccepted(forEach: Option<B.ForEachSpec>, steps: set<string>) {
    forEach.Some? ==> forEach.value.from in steps && forEach.value.bind != VALUES_KEY
  }

  ghost predicate ArtifactAccepted(a: B.ManifestArtifact, aliases: set<string>, steps: set<string>, p: Policy) {
    && LoopAccepted(a.forEach, steps)
    && MirrorsAlias(a.revision, aliases) && MirrorsAlias(a.originRevision, aliases)
    && TemplatesAccepted(a.templates, aliases, p)
  }

  ghost predicate ArtifactsAccepted(artifacts: seq<B.ManifestArtifact>, aliases: set<string>, steps: set<string>,
                                    p: Policy)
  {
    && (forall i, j :: 0 <= i < j < |artifacts| ==> artifacts[i].name != artifacts[j].name)
    && forall i :: 0 <= i < |artifacts| ==> ArtifactAccepted(artifacts[i], aliases, steps, p)
  }

  /** The specs validateSpec lets through. */
  ghost predicate Accepted(g: GeneratorSpec, p: Policy) {
    && SourcesAccepted(g.sources, g.namespace, p)
    && Inline(g.values, p.decode).Success?
    && RefsAccepted(g.valuesFrom, g.namespace, p)
    && Compiles(g.pipeline, Aliases(g.sources))
    && ArtifactsAccepted(g.artifacts, Aliases(g.sources), StepNames(g.pipeline), p)
  }

  // --------------------------------------------------- what is wrong otherwise

  ghost predicate SourceDefect(issue: Issue, sources: seq<SourceReference>, home: string, p: Policy) {
    match issue
    case DuplicateAlias(i) =>
      i < |sources| && SourcesAccepted(sources[..i], home, p) && sources[i].alias in Aliases(sources[..i])
    case ForeignSource(i) =>
      && i < |sources| && SourcesAccepted(sources[..i], home, p) && sources[i].alias !in Aliases(sources[..i])
      && Foreign(sources[i].namespace, home, p)
    case _ => false
  }

  ghost predicate RefDefect(issue: Issue, refs: seq<ValuesReference>, home: string, p: Policy) {
    match issue
    case BadTargetPath(i) => i < |refs| && RefsAccepted(refs[..i], home, p) && !ValidTargetPath(refs[i].targetPath)
    case ForeignValues(i) =>
      && i < |refs| && RefsAccepted(refs[..i], home, p)
      && ValidTargetPath(refs[i].targetPath) && Foreign(refs[i].namespace, home, p)
    case _ => false
  }

  /** Something about artifact i, whose predecessors are all fine. */
  ghost predicate ArtifactDefect(issue: Issue, i: nat, artifacts: seq<B.ManifestArtifact>, aliases: set<string>,
                                 steps: set<string>, p: Policy)
  {
    && i < |artifacts| && ArtifactsAccepted(artifacts[..i], aliases, steps, p)
    && var a, prior := artifacts[i], artifacts[..i];
       match issue
       case DuplicateArtifact(k) => k == i && exists b :: b in prior && b.name == a.name
       case UnknownForEach(k) => k == i && IsNew(a, prior) && a.forEach.Some? && a.forEach.value.from !in steps
       case ReservedBinding(k) =>
         && k == i && IsNew(a, prior)
         && a.forEach.Some? && a.forEach.value.from in steps && a.forEach.value.bind == VALUES_KEY
       case UnknownRevision(k) =>
         k == i && IsNew(a, prior) && LoopAccepted(a.forEach, steps) && !MirrorsAlias(a.revision, aliases)
       case UnknownOrigin(k) =>
         && k == i && IsNew(a, prior) && LoopAccepted(a.forEach, steps)
         && MirrorsAlias(a.revision, aliases) && !MirrorsAlias(a.originRevision, aliases)
       case _ =>
         && IsNew(a, prior) && LoopAccepted(a.forEach, steps)
         && MirrorsAlias(a.revision, aliases) && MirrorsAlias(a.originRevision, aliases)
         && TemplateDefect(issue, i, a.templates, aliases, p)
  }

  ghost predicate IsNew(a: B.ManifestArtifact, prior: seq<B.ManifestArtifact>) {
    forall b :: b in prior ==> b.name != a.name
  }

  ghost predicate TemplatesAccepted(templates: seq<B.TemplateSpec>, aliases: set<string>, p: Policy) {
    forall t :: t in templates ==> TemplateAccepted(t, aliases, p)
  }

  /** Something about a template of artifact i whose predecessors are all fine. */
  ghost predicate TemplateDefect(issue: Issue, i: nat, templates: seq<B.TemplateSpec>, aliases: set<string>, p: Policy) {
    match issue
    case BadTemplateSource(k, t) =>
      && k == i && t < |templates| && TemplatesAccepted(templates[..t], aliases, p)
      && SplitSourceRef(templates[t].from) == None
    case UnknownTemplateAlias(k, t) =>
      && k == i && t < |templates| && TemplatesAccepted(templates[..t], aliases, p)
      && SplitSourceRef(templates[t].from).Some? && SplitSourceRef(templates[t].from).value.alias !in aliases
    case BadTemplateDestination(k, t) =>
      && k == i && t < |templates| && TemplatesAccepted(templates[..t], aliases, p)
      && SplitSourceRef(templates[t].from).Some? && SplitSourceRef(templates[t].from).value.alias in aliases
      && !ValidDestination(templates[t].to, p)
    case _ => false
  }

  /** The issue is a defect of the spec, and everything that is checked before it
      passes. */
  ghost predicate Justified(issue: Issue, g: GeneratorSpec, p: Policy) {
    var sourcesFine := SourcesAccepted(g.sources, g.namespace, p);
    var valuesFine := sourcesFine && Inline(g.values, p.decode).Success? && RefsAccepted(g.valuesFrom, g.namespace, p);
    || SourceDefect(issue, g.sources, g.namespace, p)
    || (sourcesFine && issue.BadValues? && Inline(g.values, p.decode) == Failure(issue.valuesError))
    || (sourcesFine && Inline(g.values, p.decode).Success? && RefDefect(issue, g.valuesFrom, g.namespace, p))
    || (valuesFine && issue.BadPipeline?
        && exists i :: FailsAt(g.pipeline, i, Aliases(g.sources), issue.failure))
    || (valuesFine && Compiles(g.pipeline, Aliases(g.sources))
        && exists i :: ArtifactDefect(issue, i, g.artifacts, Aliases(g.sources), StepNames(g.pipeline), p))
  }

  // ------------------------------------------------------------- validateSpec

  method ValidateSources(sources: seq<SourceReference>, home: string, p: Policy)
    returns (aliases: set<string>, issue: Option<Issue>)
    ensures issue == None <==> SourcesAccepted(sources, home, p)
    ensures issue == None ==> aliases == Aliases(sources)
    ensures issue.Some? ==> SourceDefect(issue.value, sources, home, p)
  {
    aliases := {};
    for i := 0 to |sources|
      invariant aliases == Aliases(sources[..i]) && SourcesAccepted(sources[..i], home, p)
    {
      var src := sources[i];
      if src.alias in aliases {
        return aliases, Some(DuplicateAlias(i));
      }
      aliases := aliases + {src.alias};
      if Foreign(src.namespace, home, p) {
        return aliases, Some(ForeignSource(i));
      }
      AliasesSnoc(sources, i);
    }
    assert sources[..|sources|] == sources;
    return aliases, None;
  }

  lemma AliasesSnoc(sources: seq<SourceReference>, i: nat)
    requires i < |sources|
    ensures Aliases(sources[..i + 1]) == Aliases(sources[..i]) + {sources[i].alias}
  {
    assert sources[..i + 1] == sources[..i] + [sources[i]];
    assert sources[..i + 1][i] == sources[i];
    assert forall j :: 0 <= j < i ==> sources[..i + 1][j] == sources[..i][j];
  }

  method ValidateRefs(refs: seq<ValuesReference>, home: string, p: Policy) returns (issue: Option<Issue>)
    ensures issue == None <==> RefsAccepted(refs, home, p)
    ensures issue.Some? ==> RefDefect(issue.value, refs, home, p)
  {
    hide ValidTargetPath, Foreign;
    for i := 0 to |refs|
      invariant RefsAccepted(refs[..i], home, p)
    {
      if !ValidTargetPath(refs[i].targetPath) {
        return Some(BadTargetPath(i));
      }
      if Foreign(refs[i].namespace, home, p) {
        return Some(ForeignValues(i));
      }
    }
    assert refs[..|refs|] == refs;
    return None;
  }

  /** The loop over the templates of artifact i. */
  method ValidateTemplates(a: B.ManifestArtifact, i: nat, aliases: set<string>, p: Policy) returns (issue: Option<Issue>)
    ensures issue == None <==> TemplatesAccepted(a.templates, aliases, p)
    ensures issue.Some? ==> TemplateDefect(issue.value, i, a.templates, aliases, p)
  {
    for t := 0 to |a.templates|
      invariant TemplatesAccepted(a.templates[..t], aliases, p)
    {
      var ref := SplitSourceRef(a.templates[t].from);
      assert a.templates[t] in a.templates;
      if ref.None? {
        return Some(BadTemplateSource(i, t));
      }
      if ref.value.alias !in aliases {
        return Some(UnknownTemplateAlias(i, t));
      }
      if !ValidDestination(a.templates[t].to, p) {
        return Some(BadTemplateDestination(i, t));
      }
      assert a.templates[..t + 1] == a.templates[..t] + [a.templates[t]];
    }
    assert a.templates[..|a.templates|] == a.templates;
    return None;
  }

  /** The body of the loop over artifacts, past the duplicate check. */
  method ValidateArtifact(artifacts: seq<B.ManifestArtifact>, i: nat, aliases: set<string>, steps: set<string>, p: Policy)
    returns (issue: Option<Issue>)
    requires i < |artifacts| && ArtifactsAccepted(artifacts[..i], aliases, steps, p)
    requires IsNew(artifacts[i], artifacts[..i])
    ensures issue == None <==> ArtifactAccepted(artifacts[i], aliases, steps, p)
    ensures issue.Some? ==> ArtifactDefect(issue.value, i, artifacts, aliases, steps, p)
  {
    var a := artifacts[i];
    if a.forEach.Some? {
      if a.forEach.value.from !in steps {
        return Some(UnknownForEach(i));
      }
      if a.forEach.value.bind == VALUES_KEY {
        return Some(ReservedBinding(i));
      }
    }
    if !MirrorsAlias(a.revision, aliases) {
      return Some(UnknownRevision(i));
    }
    if !MirrorsAlias(a.originRevision, aliases) {
      return Some(UnknownOrigin(i));
    }
    issue := ValidateTemplates(a, i, aliases, p);
  }

  method ValidateArtifacts(artifacts: seq<B.ManifestArtifact>, aliases: set<string>, steps: set<string>, p: Policy)
    returns (issue: Option<Issue>)
    ensures issue == None <==> ArtifactsAccepted(artifacts, aliases, steps, p)
    ensures issue.Some? ==> exists i :: ArtifactDefect(issue.value, i, artifacts, aliases, steps, p)
  {
    hide ArtifactAccepted;
    var names: set<string> := {};
    for i := 0 to |artifacts|
      invariant ArtifactsAccepted(artifacts[..i], aliases, steps, p)
      invariant forall n :: n in names <==> exists b :: b in artifacts[..i] && b.name == n
    {
      var a := artifacts[i];
      if a.name in names {
        assert ArtifactDefect(DuplicateArtifact(i), i, artifacts, aliases, steps, p);
        return Some(DuplicateArtifact(i));
      }
      names := names + {a.name};
      issue := ValidateArtifact(artifacts, i, aliases, steps, p);
      if issue.Some? {
        return;
      }
      OneMoreArtifact(artifacts, i, aliases, steps, p);
    }
    assert artifacts[..|artifacts|] == artifacts;
    return None;
  }

  lemma OneMoreArtifact(artifacts: seq<B.ManifestArtifact>, i: nat, aliases: set<string>, steps: set<string>, p: Policy)
    requires i < |artifacts| && ArtifactsAccepted(artifacts[..i], aliases, steps, p)
    requires ArtifactAccepted(artifacts[i], aliases, steps, p)
    requires forall b :: b in artifacts[..i] ==> b.name != artifacts[i].name
    ensures ArtifactsAccepted(artifacts[..i + 1], aliases, steps, p)
    ensures forall b :: b in artifacts[..i + 1] <==> b in artifacts[..i] || b == artifacts[i]
  {
    var now := artifacts[..i + 1];
    assert now == artifacts[..i] + [artifacts[i]];
    forall j, k | 0 <= j < k < |now|
      ensures now[j].name != now[k].name
    {
      assert now[j] in artifacts[..i];
    }
  }

  lemma EmptyPipelineCompiles(pipeline: seq<PipelineStep>, aliases: set<string>)
    requires pipeline == []
    ensures Compiles(pipeline, aliases) && StepNames(pipeline) == {}
  {
  }

  method DeclaredSteps(pipeline: seq<PipelineStep>) returns (names: set<string>)
    ensures names == StepNames(pipeline)
  {
    names := {};
    for i := 0 to |pipeline|
      invariant names == set j | 0 <= j < i :: pipeline[j].name
    {
      names := names + {pipeline[i].name};
    }
  }

  /** validateSpec accepts exactly the specs with none of the defects, and
      otherwise reports the first defect in the order of its checks. */
  method ValidateSpec(g: GeneratorSpec, p: Policy) returns (issue: Option<Issue>)
    ensures issue == None <==> Accepted(g, p)
    ensures issue.Some? ==> Justified(issue.value, g, p)
  {
    hide SourcesAccepted, RefsAccepted, Compiles, ArtifactsAccepted, SourceDefect, RefDefect, ArtifactDefect;
    var aliases;
    aliases, issue := ValidateSources(g.sources, g.namespace, p);
    if issue.Some? {
      return;
    }
    var inline := Inline(g.values, p.decode);
    if inline.Failure? {
      return Some(BadValues(inline.error));
    }
    issue := ValidateRefs(g.valuesFrom, g.namespace, p);
    if issue.Some? {
      return;
    }
    var steps: set<string> := {};
    if |g.pipeline| > 0 {
      var compiled := Compile(g.pipeline, aliases);
      if compiled.Failure? {
        return Some(BadPipeline(compiled.error));
      }
      steps := DeclaredSteps(g.pipeline);
    } else {
      EmptyPipelineCompiles(g.pipeline, aliases);
    }
    issue := ValidateArtifacts(g.artifacts, aliases, steps, p);
  }

  // ------------------------------------------------------------ uniqueness

  lemma SourceDefectRejects(issue: Issue, sources: seq<SourceReference>, n: nat, home: string, p: Policy)
    requires SourceDefect(issue, sources, home, p) && issue.source < n <= |sources|
    ensures !SourcesAccepted(sources[..n], home, p)
  {
    var i := issue.source;
    assert sources[..n][i] == sources[i];
    if issue.DuplicateAlias? {
      var j :| 0 <= j < i && sources[..i][j].alias == sources[i].alias;
      assert sources[..n][j] == sources[j];
    }
  }

  lemma RefDefectRejects(issue: Issue, refs: seq<ValuesReference>, n: nat, home: string, p: Policy)
    requires RefDefect(issue, refs, home, p) && issue.ref < n <= |refs|
    ensures !RefsAccepted(refs[..n], home, p)
  {
    assert refs[..n][issue.ref] == refs[issue.ref];
  }

  lemma ArtifactDefectRejects(issue: Issue, i: nat, artifacts: seq<B.ManifestArtifact>, n: nat, aliases: set<string>,
                              steps: set<string>, p: Policy)
    requires ArtifactDefect(issue, i, artifacts, aliases, steps, p) && i < n <= |artifacts|
    ensures !ArtifactsAccepted(artifacts[..n], aliases, steps, p)
  {
    var a := artifacts[i];
    assert artifacts[..n][i] == a;
    match issue
    case DuplicateArtifact(_) =>
      var b :| b in artifacts[..i] && b.name == a.name;
      var j :| 0 <= j < i && artifacts[j] == b;
      assert artifacts[..n][j] == b;
    case BadTemplateSource(_, t) => assert a.templates[t] in a.templates;
    case UnknownTemplateAlias(_, t) => assert a.templates[t] in a.templates;
    case BadTemplateDestination(_, t) => assert a.templates[t] in a.templates;
    case _ =>
  }

  lemma TemplateDefectRejects(x: Issue, i: nat, templates: seq<B.TemplateSpec>, n: nat, aliases: set<string>, p: Policy)
    requires TemplateDefect(x, i, templates, aliases, p) && x.template < n <= |templates|
    ensures !TemplatesAccepted(templates[..n], aliases, p)
  {
    assert templates[..n][x.template] == templates[x.template];
    assert templates[x.template] in templates[..n];
  }

  lemma TemplateDefectUnique(x: Issue, y: Issue, i: nat, templates: seq<B.TemplateSpec>, aliases: set<string>, p: Policy)
    requires TemplateDefect(x, i, templates, aliases, p) && TemplateDefect(y, i, templates, aliases, p)
    ensures x == y
  {
    if x.template < y.template {
      TemplateDefectRejects(x, i, templates, y.template, aliases, p);
    } else if y.template < x.template {
      TemplateDefectRejects(y, i, templates, x.template, aliases, p);
    }
  }

  lemma ArtifactDefectUnique(x: Issue, i: nat, y: Issue, j: nat, artifacts: seq<B.ManifestArtifact>, aliases: set<string>,
                             steps: set<string>, p: Policy)
    requires ArtifactDefect(x, i, artifacts, aliases, steps, p) && ArtifactDefect(y, j, artifacts, aliases, steps, p)
    ensures x == y
  {
    if i < j {
      ArtifactDefectRejects(x, i, artifacts, j, aliases, steps, p);
    } else if j < i {
      ArtifactDefectRejects(y, j, artifacts, i, aliases, steps, p);
    } else if TemplateDefect(x, i, artifacts[i].templates, aliases, p)
              && TemplateDefect(y, i, artifacts[i].templates, aliases, p) {
      TemplateDefectUnique(x, y, i, artifacts[i].templates, aliases, p);
    }
  }

  /** Justified pins the reported defect down: whatever validateSpec may report
      for a spec is the same defect, up to the wording of a pipeline error. */
  lemma DefectIsDetermined(x: Issue, y: Issue, g: GeneratorSpec, p: Policy)
    requires Justified(x, g, p) && Justified(y, g, p)
    ensures x == y || (x.BadPipeline? && y.BadPipeline? && x.failure.step == y.failure.step)
  {
    hide SourcesAccepted, RefsAccepted, ArtifactsAccepted, Compiles, SourceDefect, RefDefect, ArtifactDefect, FailsAt;
    var aliases, steps := Aliases(g.sources), StepNames(g.pipeline);
    SectionOf(x, g, p);
    SectionOf(y, g, p);
    if SourceDefect(x, g.sources, g.namespace, p) && SourceDefect(y, g.sources, g.namespace, p) {
      SourceDefectUnique(x, y, g.sources, g.namespace, p);
    } else if RefDefect(x, g.valuesFrom, g.namespace, p) && RefDefect(y, g.valuesFrom, g.namespace, p) {
      RefDefectUnique(x, y, g.valuesFrom, g.namespace, p);
    } else if x.BadPipeline? && y.BadPipeline? {
      var i :| FailsAt(g.pipeline, i, aliases, x.failure);
      var j :| FailsAt(g.pipeline, j, aliases, y.failure);
      SameFailingStep(g.pipeline, i, x.failure, j, y.failure, aliases);
    } else if i, j :| ArtifactDefect(x, i, g.artifacts, aliases, steps, p)
                      && ArtifactDefect(y, j, g.artifacts, aliases, steps, p) {
      ArtifactDefectUnique(x, i, y, j, g.artifacts, aliases, steps, p);
    }
  }

  lemma SourceDefectUnique(x: Issue, y: Issue, sources: seq<SourceReference>, home: string, p: Policy)
    requires SourceDefect(x, sources, home, p) && SourceDefect(y, sources, home, p)
    ensures x == y
  {
    if x.source < y.source {
      SourceDefectRejects(x, sources, y.source, home, p);
    } else if y.source < x.source {
      SourceDefectRejects(y, sources, x.source, home, p);
    }
  }

  lemma RefDefectUnique(x: Issue, y: Issue, refs: seq<ValuesReference>, home: string, p: Policy)
    requires RefDefect(x, refs, home, p) && RefDefect(y, refs, home, p)
    ensures x == y
  {
    if x.ref < y.ref {
      RefDefectRejects(x, refs, y.ref, home, p);
    } else if y.ref < x.ref {
      RefDefectRejects(y, refs, x.ref, home, p);
    }
  }

  lemma SameFailingStep(pipeline: seq<PipelineStep>, i: nat, x: CompileFailure, j: nat, y: CompileFailure,
                        aliases: set<string>)
    requires FailsAt(pipeline, i, aliases, x) && FailsAt(pipeline, j, aliases, y)
    ensures i == j && x.step == y.step
  {
    hide Translated, InScope;
    assert !StepCompiles(pipeline, i, aliases) && !StepCompiles(pipeline, j, aliases);
  }

  /** An issue found in one section means that the section is not fine. */
  lemma SectionOf(x: Issue, g: GeneratorSpec, p: Policy)
    requires Justified(x, g, p)
    ensures SourceDefect(x, g.sources, g.namespace, p) ==>
              !SourcesAccepted(g.sources, g.namespace, p) && (x.DuplicateAlias? || x.ForeignSource?)
    ensures RefDefect(x, g.valuesFrom, g.namespace, p) ==>
              !RefsAccepted(g.valuesFrom, g.namespace, p) && (x.BadTargetPath? || x.ForeignValues?)
    ensures x.BadPipeline? && (exists i :: FailsAt(g.pipeline, i, Aliases(g.sources), x.failure)) ==>
              !Compiles(g.pipeline, Aliases(g.sources))
    ensures (exists i :: ArtifactDefect(x, i, g.artifacts, Aliases(g.sources), StepNames(g.pipeline), p)) ==>
              !x.BadValues? && !x.BadPipeline? && !x.DuplicateAlias? && !x.ForeignSource?
              && !x.BadTargetPath? && !x.ForeignValues?
  {
    if SourceDefect(x, g.sources, g.namespace, p) {
      SourceDefectRejects(x, g.sources, |g.sources|, g.namespace, p);
      assert g.sources[..|g.sources|] == g.sources;
    }
    if RefDefect(x, g.valuesFrom, g.namespace, p) {
      RefDefectRejects(x, g.valuesFrom, |g.valuesFrom|, g.namespace, p);
      assert g.valuesFrom[..|g.valuesFrom|] == g.valuesFrom;
    }
    hide Translated, InScope;
    if i :| x.BadPipeline? && FailsAt(g.pipeline, i, Aliases(g.sources), x.failure) {
      assert !StepCompiles(g.pipeline, i, Aliases(g.sources));
    }
  }
}
