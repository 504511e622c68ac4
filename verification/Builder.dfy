/** internal/builder: expanding forEach, rendering every template once per
    iteration, and staging the results. */
module Builder {
  import opened Wrappers
  import opened ValueTree
  import opened Strings
  import opened Templates
  import opened SourceRefs
  import opened DestPath
  import opened Staging
  import opened ExactStaging
  import Partials

  datatype TemplateSpec = TemplateSpec(from: string, to: string)
  datatype ForEachSpec = ForEachSpec(from: string, bind: string)
  datatype ManifestArtifact = ManifestArtifact(
    name: string, revision: string, originRevision: string,
    forEach: Option<ForEachSpec>, templates: seq<TemplateSpec>)

  /** How an iteration is named in errors and in the template's own name. */
  datatype Label = NoLabel | AtIndex(index: nat) | AtKey(key: string)

  datatype Iteration = Iteration(tag: Label, bindings: Data)

  /** The fetched directories, and the rendering engine for destination paths and
      for template files with their partials. */
  datatype Workshop = Workshop(
    files: string -> string -> Partials.FileInfo,
    renderPath: (string, Data) -> Option<string>,
    render: (string, Label, string, Data, seq<Partials.Partial>, string) -> Option<string>)

  datatype BuildError =
    | ForEachNotDefined(from: string) | ForEachNotCollection(from: string)
    | BadSource(refError: RefError) | UnknownAlias(alias: string) | UnusableSource
    | BadDestination(destError: DestError) | DestinationTaken(dest: string)
    | UnusablePartial | RenderFailed | WriteFailed

  // -------------------------------------------------------------- iterations

  function ListIteration(bind: string, item: Value, i: nat): Iteration {
    Iteration(AtIndex(i), map[bind := Map(map["index" := Leaf(Number(i as real)), "value" := item])])
  }

  function MapIteration(bind: string, item: Value, key: string): Iteration {
    Iteration(AtKey(key), map[bind := Map(map["key" := Leaf(Text(key)), "value" := item])])
  }

  ghost function ListIterations(bind: string, xs: seq<Value>): seq<Iteration> {
    seq(|xs|, i requires 0 <= i < |xs| => ListIteration(bind, xs[i], i))
  }

  ghost function MapIterations(bind: string, m: Data): seq<Iteration> {
    var keys := Listing(m.Keys);
    seq(|keys|, i requires 0 <= i < |keys| => assert keys[i] in keys; MapIteration(bind, m[keys[i]], keys[i]))
  }

  ghost function Iterations(forEach: Option<ForEachSpec>, data: Data): Result<seq<Iteration>, BuildError> {
    match forEach
    case None => Success([Iteration(NoLabel, map[])])
    case Some(fe) =>
      if fe.from !in data then Failure(ForEachNotDefined(fe.from))
      else
        match data[fe.from]
        case Leaf(_) => Failure(ForEachNotCollection(fe.from))
        case List(xs) => Success(ListIterations(fe.bind, xs))
        case Map(m) => Success(MapIterations(fe.bind, m))
  }

  method ExpandList(bind: string, xs: seq<Value>) returns (iters: seq<Iteration>)
    ensures iters == ListIterations(bind, xs)
  {
    iters := [];
    for i := 0 to |xs|
      invariant iters == ListIterations(bind, xs)[..i]
    {
      iters := iters + [ListIteration(bind, xs[i], i)];
    }
  }

  method ExpandMap(bind: string, m: Data) returns (iters: seq<Iteration>)
    ensures iters == MapIterations(bind, m)
  {
    var keys := SortedKeys(m);
    iters := [];
    for i := 0 to |keys|
      invariant iters == MapIterations(bind, m)[..i]
    {
      assert keys[i] in keys;
      iters := iters + [MapIteration(bind, m[keys[i]], keys[i])];
    }
  }

  /** buildIterations: list order, or the map's keys in ascending order. */
  method BuildIterations(forEach: Option<ForEachSpec>, data: Data) returns (r: Result<seq<Iteration>, BuildError>)
    ensures r == Iterations(forEach, data)
  {
    if forEach.None? {
      return Success([Iteration(NoLabel, map[])]);
    }
    var fe := forEach.value;
    if fe.from !in data {
      return Failure(ForEachNotDefined(fe.from));
    }
    match data[fe.from] {
      case Leaf(_) =>
        return Failure(ForEachNotCollection(fe.from));
      case List(xs) =>
        var iters := ExpandList(fe.bind, xs);
        return Success(iters);
      case Map(m) =>
        var iters := ExpandMap(fe.bind, m);
        return Success(iters);
    }
  }

  /** overlayData: the iteration's bindings over a copy of the scope. */
  method OverlayData(base: Data, overlay: Data) returns (out: Data)
    ensures out == base + overlay
  {
    out := CopyInto(map[], base);
    assert out == base;
    out := CopyInto(out, overlay);
  }

  // ------------------------------------------------------------ one template

  /** A template to be rendered in one iteration's scope. */
  datatype Job = Job(spec: TemplateSpec, tag: Label, data: Data)

  datatype Opened = Opened(dir: string, path: string, content: string)

  /** Resolving and reading the template's source file. */
  function OpenSource(from: string, sources: map<string, string>, w: Workshop): Result<Opened, BuildError> {
    match ParseSourceRef(from)
    case Failure(e) => Failure(BadSource(e))
    case Success(ref) =>
      if ref.alias !in sources then Failure(UnknownAlias(ref.alias))
      else
        match w.files(sources[ref.alias])(Clean(ref.rest))
        case Readable(content) => Success(Opened(sources[ref.alias], Clean(ref.rest), content))
        case _ => Failure(UnusableSource)
  }

  function Destination(job: Job, w: Workshop): Result<string, BuildError> {
    match RenderDestPath(job.spec.to, t => w.renderPath(t, job.data))
    case Failure(e) => Failure(BadDestination(e))
    case Success(dest) => Success(dest)
  }

  ghost function Rendering(job: Job, source: Opened, w: Workshop): Result<string, BuildError> {
    match Partials.Discovered(source.path, w.files(source.dir))
    case None => Failure(UnusablePartial)
    case Some(partials) =>
      match w.render(job.spec.from, job.tag, source.content, job.data, partials, source.dir)
      case None => Failure(BuildError.RenderFailed)
      case Some(out) => Success(out)
  }

  /** What the job would stage; None if its source does not open, its destination
      is invalid or its template does not render. */
  ghost function PlanFor(job: Job, sources: map<string, string>, w: Workshop): (p: Option<Planned>)
    ensures p.Some? ==> Canonical(p.value)
  {
    match OpenSource(job.spec.from, sources, w)
    case Failure(_) => None
    case Success(source) =>
      match Destination(job, w)
      case Failure(_) => None
      case Success(dest) =>
        match Rendering(job, source, w)
        case Failure(_) => None
        case Success(content) =>
          DestinationsAreCanonical(job.spec.to, t => w.renderPath(t, job.data));
          Some(Planned(dest, Output(ComponentsOf(dest), content)))
  }

  lemma DestinationNamesAFile(job: Job, w: Workshop)
    requires Destination(job, w).Success?
    ensures ComponentsOf(Destination(job, w).value) != []
  {
    DestinationsAreCanonical(job.spec.to, t => w.renderPath(t, job.data));
  }

  /** The writtenPaths map that the templates of one artifact share. */
  class Ledger {
    var paths: map<string, string>

    constructor ()
      ensures paths == map[]
    {
      paths := map[];
    }
  }

  /** What an error of one template says about its inputs. */
  ghost predicate Explains(e: BuildError, job: Job, sources: map<string, string>) {
    && (e.BadSource? ==> ParseSourceRef(job.spec.from) == Failure(e.refError))
    && (e.UnknownAlias? ==>
          && ParseSourceRef(job.spec.from).Success?
          && ParseSourceRef(job.spec.from).value.alias == e.alias
          && e.alias !in sources)
    && (e.BadDestination? ==> !WrongDestination(e.destError) || !WellPrefixed(job.spec.to))
    && !e.ForEachNotDefined? && !e.ForEachNotCollection?
  }

  /** The "to" reference has the "@artifact/" prefix and something after it. */
  predicate WellPrefixed(to: string) {
    ARTIFACT_PREFIX <= to && |to| > |ARTIFACT_PREFIX|
  }

  predicate WrongDestination(e: DestError) {
    e.NoArtifactPrefix? || e.EmptyTemplate?
  }

  lemma ClassifyErrors(job: Job, sources: map<string, string>, w: Workshop)
    ensures OpenSource(job.spec.from, sources, w).Failure? ==>
              Explains(OpenSource(job.spec.from, sources, w).error, job, sources)
    ensures Destination(job, w).Failure? ==>
              Destination(job, w).error.BadDestination? && Explains(Destination(job, w).error, job, sources)
    ensures forall o :: Rendering(job, o, w).Failure? ==>
                          Rendering(job, o, w).error.UnusablePartial? || Rendering(job, o, w).error.RenderFailed?
  {
  }

  /** applyTemplate: stages the rendered template, or changes nothing. */
  method ApplyTemplate(job: Job, sources: map<string, string>, root: StagingRoot, written: Ledger, w: Workshop)
    returns (r: Option<BuildError>)
    requires WellFormed(root.entries)
    modifies root, written
    ensures WellFormed(root.entries)
    ensures var p := PlanFor(job, sources, w);
            && (r == None <==>
                  p.Some? && p.value.dest !in old(written.paths) && Stageable(old(root.entries), p.value.out.path))
            && (r == None ==>
                  && root.entries == Staged(old(root.entries), p.value.out.path, p.value.out.content)
                  && written.paths == old(written.paths)[p.value.dest := job.spec.from]
                  && written.paths.Keys == old(written.paths).Keys + {p.value.dest})
    ensures r.Some? ==> root.entries == old(root.entries) && written.paths == old(written.paths)
    ensures r.Some? ==> Explains(r.value, job, sources)
  {
    hide WellFormed, Stageable, Staged, ComponentsOf, Canonical, OpenSource, Destination, Rendering;
    ClassifyErrors(job, sources, w);
    var source := OpenSource(job.spec.from, sources, w);
    if source.Failure? {
      return Some(source.error);
    }
    var dest := Destination(job, w);
    if dest.Failure? {
      return Some(dest.error);
    }
    if dest.value in written.paths {
      return Some(DestinationTaken(dest.value));
    }
    var rendered := RenderTemplate(job, source.value, w);
    if rendered.Failure? {
      return Some(rendered.error);
    }
    DestinationNamesAFile(job, w);
    var ok := root.WriteStagedFile(ComponentsOf(dest.value), rendered.value);
    if !ok {
      return Some(WriteFailed);
    }
    written.paths := written.paths[dest.value := job.spec.from];
    return None;
  }

  /** renderTemplate. */
  method RenderTemplate(job: Job, source: Opened, w: Workshop) returns (r: Result<string, BuildError>)
    ensures r == Rendering(job, source, w)
  {
    var partials := Partials.DiscoverPartials(source.path, w.files(source.dir));
    if partials.None? {
      return Failure(UnusablePartial);
    }
    var out := w.render(job.spec.from, job.tag, source.content, job.data, partials.value, source.dir);
    return if out.None? then Failure(BuildError.RenderFailed) else Success(out.value);
  }

  // ------------------------------------------------------------ one artifact

  ghost function IterationJobs(iter: Iteration, templates: seq<TemplateSpec>, data: Data): seq<Job> {
    seq(|templates|, t requires 0 <= t < |templates| => Job(templates[t], iter.tag, data + iter.bindings))
  }

  /** Every template of every iteration, iterations first. */
  ghost function Jobs(iters: seq<Iteration>, templates: seq<TemplateSpec>, data: Data): seq<Job> {
    if iters == [] then []
    else Jobs(iters[..|iters| - 1], templates, data) + IterationJobs(iters[|iters| - 1], templates, data)
  }

  lemma {:induction false} JobCount(iters: seq<Iteration>, templates: seq<TemplateSpec>, data: Data)
    ensures |Jobs(iters, templates, data)| == |iters| * |templates|
  {
    if iters != [] {
      JobCount(iters[..|iters| - 1], templates, data);
      assert |iters| * |templates| == (|iters| - 1) * |templates| + |templates|;
    }
  }

  ghost function PlanAll(jobs: seq<Job>, sources: map<string, string>, w: Workshop): (ps: Plan)
    ensures |ps| == |jobs| && forall i :: 0 <= i < |jobs| ==> ps[i] == PlanFor(jobs[i], sources, w)
  {
    seq(|jobs|, i requires 0 <= i < |jobs| => PlanFor(jobs[i], sources, w))
  }

  /** The whole plan of an artifact whose iterations are known. */
  ghost function PlanOf(iters: seq<Iteration>, spec: ManifestArtifact, sources: map<string, string>, data: Data,
                        w: Workshop): Plan
  {
    PlanAll(Jobs(iters, spec.templates, data), sources, w)
  }

  /** The jobs done after i full iterations and t templates of the next. */
  ghost function JobsUpTo(iters: seq<Iteration>, i: nat, templates: seq<TemplateSpec>, t: nat, data: Data): seq<Job>
    requires i <= |iters| && t <= |templates| && (i < |iters| || t == 0)
  {
    Jobs(iters[..i], templates, data) + if t == 0 then [] else IterationJobs(iters[i], templates[..t], data)
  }

  ghost function PlanUpTo(iters: seq<Iteration>, i: nat, templates: seq<TemplateSpec>, t: nat, data: Data,
                          sources: map<string, string>, w: Workshop): Plan
    requires i <= |iters| && t <= |templates| && (i < |iters| || t == 0)
  {
    PlanAll(JobsUpTo(iters, i, templates, t, data), sources, w)
  }

  lemma PlanNextTemplate(iters: seq<Iteration>, i: nat, templates: seq<TemplateSpec>, t: nat, data: Data,
                         sources: map<string, string>, w: Workshop)
    requires i < |iters| && t < |templates|
    ensures PlanUpTo(iters, i, templates, t + 1, data, sources, w)
         == PlanUpTo(iters, i, templates, t, data, sources, w)
            + [PlanFor(Job(templates[t], iters[i].tag, data + iters[i].bindings), sources, w)]
  {
    var job := Job(templates[t], iters[i].tag, data + iters[i].bindings);
    assert JobsUpTo(iters, i, templates, t + 1, data) == JobsUpTo(iters, i, templates, t, data) + [job];
  }

  lemma NextIteration(iters: seq<Iteration>, i: nat, templates: seq<TemplateSpec>, data: Data)
    requires i < |iters|
    ensures JobsUpTo(iters, i, templates, |templates|, data) == JobsUpTo(iters, i + 1, templates, 0, data)
  {
    assert iters[..i + 1][..i] == iters[..i];
    assert templates[..|templates|] == templates;
  }

  lemma NothingPlanned(iters: seq<Iteration>, templates: seq<TemplateSpec>, data: Data,
                       sources: map<string, string>, w: Workshop)
    ensures PlanUpTo(iters, 0, templates, 0, data, sources, w) == []
  {
  }

  lemma EverythingPlanned(iters: seq<Iteration>, spec: ManifestArtifact, data: Data,
                          sources: map<string, string>, w: Workshop)
    ensures PlanUpTo(iters, |iters|, spec.templates, 0, data, sources, w) == PlanOf(iters, spec, sources, data, w)
  {
    assert iters[..|iters|] == iters;
    assert JobsUpTo(iters, |iters|, spec.templates, 0, data) == Jobs(iters, spec.templates, data);
  }

  lemma NextIterationPlan(iters: seq<Iteration>, i: nat, templates: seq<TemplateSpec>, data: Data,
                          sources: map<string, string>, w: Workshop)
    requires i < |iters|
    ensures PlanUpTo(iters, i, templates, |templates|, data, sources, w)
         == PlanUpTo(iters, i + 1, templates, 0, data, sources, w)
  {
    NextIteration(iters, i, templates, data);
  }

  lemma {:induction false} JobsUpToIsPrefix(iters: seq<Iteration>, i: nat, templates: seq<TemplateSpec>, t: nat, data: Data)
    requires i <= |iters| && t <= |templates| && (i < |iters| || t == 0)
    ensures JobsUpTo(iters, i, templates, t, data) <= Jobs(iters, templates, data)
    decreases |iters| - i
  {
    if i == |iters| {
      assert iters[..i] == iters;
    } else {
      NextIteration(iters, i, templates, data);
      assert JobsUpTo(iters, i, templates, t, data) <= JobsUpTo(iters, i, templates, |templates|, data);
      JobsUpToIsPrefix(iters, i + 1, templates, 0, data);
    }
  }

  /** Getting stuck on the way means the whole plan cannot be done. */
  lemma StuckPlan(iters: seq<Iteration>, i: nat, spec: ManifestArtifact, t: nat, data: Data,
                  t0: FileTree, sources: map<string, string>, w: Workshop)
    requires i < |iters| && t <= |spec.templates|
    requires !Doable(PlanUpTo(iters, i, spec.templates, t, data, sources, w), t0)
    ensures !Doable(PlanOf(iters, spec, sources, data, w), t0)
  {
    JobsUpToIsPrefix(iters, i, spec.templates, t, data);
    var done, plan := PlanUpTo(iters, i, spec.templates, t, data, sources, w), PlanOf(iters, spec, sources, data, w);
    assert plan[..|done|] == done;
    if Doable(plan, t0) {
      DoablePrefix(plan, |done|, t0);
    }
  }

  /** Some template of the artifact explains the error. */
  ghost predicate ArtifactExplains(e: BuildError, spec: ManifestArtifact, sources: map<string, string>, data: Data) {
    && (e.ForEachNotDefined? ==> spec.forEach.Some? && spec.forEach.value.from == e.from && e.from !in data)
    && (e.BadSource? ==> exists t :: t in spec.templates && ParseSourceRef(t.from) == Failure(e.refError))
    && (e.UnknownAlias? ==>
          exists t :: t in spec.templates && ParseSourceRef(t.from).Success?
                      && ParseSourceRef(t.from).value.alias == e.alias && e.alias !in sources)
    && (e.BadDestination? && WrongDestination(e.destError) ==> exists t :: t in spec.templates && !WellPrefixed(t.to))
  }

  /** applyArtifact: succeeds exactly when forEach expands and every template of
      every iteration can be rendered and staged in turn; the root then holds what
      it held before overlaid with all the outputs. */
  method ApplyArtifact(spec: ManifestArtifact, sources: map<string, string>, data: Data, root: StagingRoot, w: Workshop)
    returns (r: Option<BuildError>)
    requires WellFormed(root.entries)
    modifies root
    ensures WellFormed(root.entries)
    ensures var iters := Iterations(spec.forEach, data);
            && (r == None <==> iters.Success? && Doable(PlanOf(iters.value, spec, sources, data, w), old(root.entries)))
            && (r == None ==>
                  root.entries == StageAll(old(root.entries), Outputs(PlanOf(iters.value, spec, sources, data, w))))
    ensures r.Some? ==> ArtifactExplains(r.value, spec, sources, data)
  {
    var iters := BuildIterations(spec.forEach, data);
    if iters.Failure? {
      return Some(iters.error);
    }
    r := ApplyIterations(iters.value, spec, sources, data, root, w);
  }

  /** The outer loop of applyArtifact. */
  method ApplyIterations(iters: seq<Iteration>, spec: ManifestArtifact, sources: map<string, string>, data: Data,
                         root: StagingRoot, w: Workshop)
    returns (r: Option<BuildError>)
    requires WellFormed(root.entries)
    modifies root
    ensures WellFormed(root.entries)
    ensures r == None <==> Doable(PlanOf(iters, spec, sources, data, w), old(root.entries))
    ensures r == None ==> root.entries == StageAll(old(root.entries), Outputs(PlanOf(iters, spec, sources, data, w)))
    ensures r.Some? ==> exists job :: Explains(r.value, job, sources) && job.spec in spec.templates
  {
    hide PlanUpTo, PlanOf, Explains, WellFormed;
    ghost var t0 := root.entries;
    var written := new Ledger();
    NothingPlanned(iters, spec.templates, data, sources, w);
    ProgressStarts(t0);
    for i := 0 to |iters|
      invariant WellFormed(root.entries) && fresh(written)
      invariant Progress(t0, root.entries, written.paths.Keys, PlanUpTo(iters, i, spec.templates, 0, data, sources, w))
    {
      r := ApplyIteration(iters, i, spec, sources, data, root, written, w, t0);
      if r.Some? {
        return;
      }
    }
    EverythingPlanned(iters, spec, data, sources, w);
    return None;
  }

  /** The inner loop: every template in the scope of iteration i. */
  method ApplyIteration(iters: seq<Iteration>, i: nat, spec: ManifestArtifact, sources: map<string, string>, data: Data,
                        root: StagingRoot, written: Ledger, w: Workshop, ghost t0: FileTree)
    returns (r: Option<BuildError>)
    requires i < |iters| && WellFormed(root.entries)
    requires Progress(t0, root.entries, written.paths.Keys, PlanUpTo(iters, i, spec.templates, 0, data, sources, w))
    modifies root, written
    ensures WellFormed(root.entries)
    ensures r == None ==>
              Progress(t0, root.entries, written.paths.Keys, PlanUpTo(iters, i + 1, spec.templates, 0, data, sources, w))
    ensures r.Some? ==> !Doable(PlanOf(iters, spec, sources, data, w), t0)
    ensures r.Some? ==> exists job :: Explains(r.value, job, sources) && job.spec in spec.templates
  {
    hide PlanUpTo, PlanOf, PlanFor, Doable, Progress, Explains, WellFormed;
    var iterData := OverlayData(data, iters[i].bindings);
    for t := 0 to |spec.templates|
      invariant WellFormed(root.entries)
      invariant Progress(t0, root.entries, written.paths.Keys, PlanUpTo(iters, i, spec.templates, t, data, sources, w))
    {
      var job := Job(spec.templates[t], iters[i].tag, iterData);
      PlanNextTemplate(iters, i, spec.templates, t, data, sources, w);
      r := ApplyStep(job, sources, root, written, w, t0, PlanUpTo(iters, i, spec.templates, t, data, sources, w));
      if r.Some? {
        StuckPlan(iters, i, spec, t + 1, data, t0, sources, w);
        assert job.spec in spec.templates;
        return;
      }
    }
    NextIterationPlan(iters, i, spec.templates, data, sources, w);
    return None;
  }

  /** One template of the loop, with the bookkeeping of what has been done. */
  method ApplyStep(job: Job, sources: map<string, string>, root: StagingRoot, written: Ledger, w: Workshop,
                   ghost t0: FileTree, ghost done: Plan) returns (r: Option<BuildError>)
    requires WellFormed(root.entries)
    requires Progress(t0, root.entries, written.paths.Keys, done)
    modifies root, written
    ensures WellFormed(root.entries)
    ensures r == None ==> Progress(t0, root.entries, written.paths.Keys, done + [PlanFor(job, sources, w)])
    ensures r.Some? ==> !Doable(done + [PlanFor(job, sources, w)], t0) && Explains(r.value, job, sources)
  {
    ghost var p, before, paths := PlanFor(job, sources, w), root.entries, written.paths;
    NextPlanned(t0, before, paths.Keys, done, p);
    r := ApplyTemplate(job, sources, root, written, w);
    if r == None {
      ProgressStep(t0, before, paths.Keys, done, p.value);
    }
  }

  // ---------------------------------------------------------------- theorems

  /** Exact staging. From an empty root, an artifact is assembled exactly when
      its forEach expands, every template renders in every iteration, and no
      destination equals or lies below another. The root then holds one file per
      iteration and template, each with the content rendered for it, the
      directories above them, and nothing else. */
  lemma ExactlyRendered(spec: ManifestArtifact, iters: seq<Iteration>, sources: map<string, string>, data: Data,
                        w: Workshop)
    requires Iterations(spec.forEach, data) == Success(iters)
    ensures var plan := PlanOf(iters, spec, sources, data, w);
            && (Doable(plan, map[]) <==> AllPlanned(plan) && PrefixFree(Outputs(plan)))
            && (Doable(plan, map[]) ==>
                  && ExactlyHolds(StageAll(map[], Outputs(plan)), Outputs(plan))
                  && |Files(StageAll(map[], Outputs(plan)))| == |iters| * |spec.templates|)
  {
    var plan := PlanOf(iters, spec, sources, data, w);
    JobCount(iters, spec.templates, data);
    if AllPlanned(plan) {
      StagingFromEmpty(Outputs(plan));
      if PrefixFree(Outputs(plan)) {
        OneFileEach(StageAll(map[], Outputs(plan)), Outputs(plan));
      }
    }
  }
}
