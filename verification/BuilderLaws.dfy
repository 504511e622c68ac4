/** What the builder hands to the rendering engine and where it puts the result,
    said of the spec's strings, the source files and the iteration; and what an
    engine that parses partials first makes of it. */
module BuilderLaws {
  import opened Wrappers
  import opened ValueTree
  import opened Strings
  import opened Templates
  import opened SourceRefs
  import opened DestPath
  import opened Staging
  import opened ExactStaging
  import opened Partials
  import opened Builder
  import opened Texts

  // ---------------------------------------------------------------- iterations

  /** The bindings of an item of a list and of an entry of a map. */
  ghost function ItemAt(i: nat, item: Value): Value {
    Map(map["index" := Leaf(Number(i as real)), "value" := item])
  }

  ghost function EntryAt(key: string, item: Value): Value {
    Map(map["key" := Leaf(Text(key)), "value" := item])
  }

  /** The iterations of an artifact: one without a label, one per item of a list
      in order, or one per key of a map in ascending order. */
  ghost predicate IterationsMean(forEach: Option<ForEachSpec>, data: Data, r: Result<seq<Iteration>, BuildError>) {
    match forEach
    case None => r == Success([Iteration(NoLabel, map[])])
    case Some(fe) =>
      if fe.from !in data then r == Failure(ForEachNotDefined(fe.from))
      else
        match data[fe.from]
        case Leaf(_) => r == Failure(ForEachNotCollection(fe.from))
        case List(xs) =>
          && r.Success? && |r.value| == |xs|
          && forall i: nat :: i < |xs| ==> r.value[i] == Iteration(AtIndex(i), map[fe.bind := ItemAt(i, xs[i])])
        case Map(m) =>
          var keys := Listing(m.Keys);
          && r.Success? && |r.value| == |keys|
          && forall i: nat :: i < |keys| ==>
                                && keys[i] in m
                                && r.value[i] == Iteration(AtKey(keys[i]), map[fe.bind := EntryAt(keys[i], m[keys[i]])])
  }

  lemma IterationsAreMeant(forEach: Option<ForEachSpec>, data: Data)
    ensures IterationsMean(forEach, data, Iterations(forEach, data))
  {
    if forEach.Some? && forEach.value.from in data && data[forEach.value.from].Map? {
      var keys := Listing(data[forEach.value.from].entries.Keys);
      assert forall i :: 0 <= i < |keys| ==> keys[i] in keys;
    }
  }

  // ------------------------------------------------------------------ partials

  /** "_helpers.tpl" in the directory of the first i components of a path. */
  function HelperAt(cs: Components, i: nat): string
    requires i <= |cs|
  {
    Join(cs[..i] + ["_helpers.tpl"], '/')
  }

  /** The readable helpers above a file, from the source root down to the file's
      own directory, the first n of these directories. */
  ghost function HelpersAbove(cs: Components, n: nat, files: string -> FileInfo): seq<Partial>
    requires n <= |cs|
  {
    if n == 0 then []
    else
      var front, path := HelpersAbove(cs, n - 1, files), HelperAt(cs, n - 1);
      if files(path).Readable? then front + [Partial(path, files(path).content)] else front
  }

  /** No helper above the file exists but cannot be used safely. */
  ghost predicate HelpersUsable(cs: Components, files: string -> FileInfo) {
    forall i :: 0 <= i < |cs| ==>
                  var info := files(HelperAt(cs, i)); info.Missing? || info.Irregular? || info.Readable?
  }

  lemma HelperPath(cs: Components, i: nat)
    requires "" !in cs && i <= |cs|
    ensures PartialPath(Join(cs[..i], '/')) == HelperAt(cs, i)
  {
    assert "" !in cs[..i];
    ExtendJoin(cs[..i], "_helpers.tpl");
  }

  lemma {:induction false} FoundAbove(cs: Components, n: nat, dirs: seq<string>, files: string -> FileInfo)
    requires "" !in cs && n == |dirs| <= |cs| && forall i :: 0 <= i < n ==> dirs[i] == Join(cs[..i], '/')
    ensures Found(dirs, files) == HelpersAbove(cs, n, files)
    decreases n
  {
    if n > 0 {
      HelperPath(cs, n - 1);
      FoundAbove(cs, n - 1, dirs[..n - 1], files);
    }
  }

  lemma ChainAbove(path: string)
    requires "" !in Split(path, '/')
    ensures var chain, cs := Chain(TemplateDir(path)), Split(path, '/');
            && |chain| == |cs|
            && forall i :: 0 <= i < |cs| ==> chain[i] == Join(cs[..i], '/') && PartialPath(chain[i]) == HelperAt(cs, i)
  {
    hide HelperAt, PartialPath, Join;
    var chain, cs := Chain(TemplateDir(path)), Split(path, '/');
    TemplateAncestors(path);
    forall i | 0 <= i < |cs|
      ensures chain[i] == Join(cs[..i], '/') && PartialPath(chain[i]) == HelperAt(cs, i)
    {
      assert cs[..|cs| - 1][..i] == cs[..i];
      HelperPath(cs, i);
    }
  }

  /** Discovery finds exactly the helpers above the file, or refuses. */
  lemma DiscoveredAbove(path: string, files: string -> FileInfo)
    requires "" !in Split(path, '/')
    ensures Discovered(path, files).Some? <==> HelpersUsable(Split(path, '/'), files)
    ensures Discovered(path, files).Some? ==>
              Discovered(path, files).value == HelpersAbove(Split(path, '/'), |Split(path, '/')|, files)
  {
    hide HelpersAbove, Found, HelperAt, PartialPath, Join, Split, Chain, TemplateDir;
    var chain, cs := Chain(TemplateDir(path)), Split(path, '/');
    ChainAbove(path);
    FoundAbove(cs, |cs|, chain, files);
    if d :| d in chain && Fatal(files(PartialPath(d))) {
      var i :| 0 <= i < |chain| && chain[i] == d;
      assert !HelpersUsable(cs, files);
    } else {
      forall i | 0 <= i < |cs|
        ensures !Fatal(files(HelperAt(cs, i)))
      {
        assert chain[i] in chain;
      }
    }
  }

  // --------------------------------------------------------------- destination

  /** dest is where the text, taken without the white space around it, leads from
      the staging root: to the components of path. */
  ghost predicate LeadsTo(text: string, path: Components, dest: string) {
    exists core :: Framed(text, core) && core != "" && !White(core[0]) && !White(core[|core| - 1])
                   && !IsAbs(core) && Target(core) == Location(0, path) && path != [] && dest == Join(path, '/')
  }

  lemma DestinationLeads(to: string, render: string -> Option<string>) returns (t: string, text: string)
    requires RenderDestPath(to, render).Success?
    ensures to == "@artifact/" + t && t != "" && render(t) == Some(text)
    ensures var dest := RenderDestPath(to, render).value; LeadsTo(text, ComponentsOf(dest), dest)
  {
    hide Clean, TrimSpace, Target;
    t := to[|ARTIFACT_PREFIX|..];
    text := render(t).value;
    assert to == ARTIFACT_PREFIX + t;
    var core := TrimSpace(text);
    TrimIsFramed(text);
    AcceptedExactly(core);
    DestinationsAreCanonical(to, render);
    assert Target(core) == Location(0, ComponentsOf(Clean(core)));
  }

  /** A rendered text that leads strictly below the root is accepted, unless its
      first component starts with two dots. */
  lemma DestinationAccepted(t: string, text: string, render: string -> Option<string>, path: Components, dest: string)
    requires t != "" && render(t) == Some(text) && LeadsTo(text, path, dest) && !(".." <= path[0])
    ensures RenderDestPath("@artifact/" + t, render) == Success(dest) && ComponentsOf(dest) == path
  {
    hide Clean, TrimSpace, Target, Framed;
    var core :| Framed(text, core) && core != "" && !White(core[0]) && !White(core[|core| - 1])
                && !IsAbs(core) && Target(core) == Location(0, path) && dest == Join(path, '/');
    TrimIsCore(text, core);
    AcceptedExactly(core);
    JoinSplit(Clean(core), '/');
    assert ("@artifact/" + t)[|ARTIFACT_PREFIX|..] == t;
  }

  // ------------------------------------------------------------------ one file

  /** Everything about one rendered template: what was read, what the engine was
      given and answered, and where the answer goes. */
  ghost predicate RenderedAs(job: Job, sources: map<string, string>, w: Workshop, alias: string, rest: string,
                             content: string, partials: seq<Partial>, to: string, text: string, p: Planned)
  {
    && job.spec.from == "@" + alias + "/" + rest && '/' !in alias && alias in sources
    && w.files(sources[alias])(Clean(rest)) == Readable(content)
    && (!IsAbs(rest) ==>
          var cs := Split(Clean(rest), '/');
          HelpersUsable(cs, w.files(sources[alias])) && partials == HelpersAbove(cs, |cs|, w.files(sources[alias])))
    && w.render(job.spec.from, job.tag, content, job.data, partials, sources[alias]) == Some(p.out.content)
    && job.spec.to == "@artifact/" + to && w.renderPath(to, job.data) == Some(text)
    && LeadsTo(text, p.out.path, p.dest)
  }

  lemma PlannedIsRendered(job: Job, sources: map<string, string>, w: Workshop)
    returns (alias: string, rest: string, content: string, partials: seq<Partial>, to: string, text: string)
    requires PlanFor(job, sources, w).Some?
    ensures RenderedAs(job, sources, w, alias, rest, content, partials, to, text, PlanFor(job, sources, w).value)
  {
    hide SplitSourceRef, ParseSourceRef, RenderDestPath, Clean, Discovered, LeadsTo;
    var ref := ParseSourceRef(job.spec.from).value;
    ParsersAgree(job.spec.from);
    alias, rest := ref.alias, ref.rest;
    SplitMeaning(job.spec.from, alias, rest);
    var dir := sources[alias];
    content := w.files(dir)(Clean(rest)).content;
    partials := Discovered(Clean(rest), w.files(dir)).value;
    to, text := DestinationLeads(job.spec.to, t => w.renderPath(t, job.data));
    if !IsAbs(rest) {
      CleanHasParts(rest);
      DiscoveredAbove(Clean(rest), w.files(dir));
    }
  }

  /** Conversely, whatever can be read and rendered, and leads below the root, is
      planned; only the alias "artifact" and a leading ".." are refused. */
  lemma RenderedIsPlanned(job: Job, sources: map<string, string>, w: Workshop, alias: string, rest: string,
                          content: string, partials: seq<Partial>, to: string, text: string, p: Planned)
    requires RenderedAs(job, sources, w, alias, rest, content, partials, to, text, p)
    requires alias != "" && alias != "artifact" && rest != "" && !IsAbs(rest) && to != "" && !(".." <= p.out.path[0])
    ensures PlanFor(job, sources, w) == Some(p)
  {
    hide SplitSourceRef, ParseSourceRef, RenderDestPath, Clean, Discovered, LeadsTo;
    ParsersAgree(job.spec.from);
    SplitMeaning(job.spec.from, alias, rest);
    DestinationAccepted(to, text, t => w.renderPath(t, job.data), p.out.path, p.dest);
    CleanHasParts(rest);
    DiscoveredAbove(Clean(rest), w.files(sources[alias]));
  }

  lemma CleanHasParts(path: string)
    requires !IsAbs(path)
    ensures "" !in Split(Clean(path), '/')
  {
    hide Split;
    CleanSpellsTarget(path);
    if CleanComponents(path) == [] {
      SplitFree(".", '/');
    } else {
      SplitSpelled(Target(path));
    }
  }

  // ------------------------------------------------------------- all the files

  lemma {:induction false} JobAt(iters: seq<Iteration>, templates: seq<TemplateSpec>, data: Data, i: nat, t: nat)
    requires i < |iters| && t < |templates|
    ensures var jobs, k := Jobs(iters, templates, data), i * |templates| + t;
            k < |jobs| && jobs[k] == Job(templates[t], iters[i].tag, data + iters[i].bindings)
  {
    var n := |iters| - 1;
    JobCount(iters[..n], templates, data);
    if i < n {
      JobAt(iters[..n], templates, data, i, t);
    }
  }

  /** The file of template t in iteration i is rendered from that template's source
      file, in that iteration's scope and under its label, and is put where the
      template's destination leads in the same scope. */
  lemma EveryFileIsItsOwn(spec: ManifestArtifact, iters: seq<Iteration>, sources: map<string, string>, data: Data,
                          w: Workshop, i: nat, t: nat)
    returns (alias: string, rest: string, content: string, partials: seq<Partial>, to: string, text: string)
    requires AllPlanned(PlanOf(iters, spec, sources, data, w)) && i < |iters| && t < |spec.templates|
    ensures var plan, k := PlanOf(iters, spec, sources, data, w), i * |spec.templates| + t;
            && k < |plan| && plan[k].Some? && Outputs(plan)[k] == plan[k].value.out
            && RenderedAs(Job(spec.templates[t], iters[i].tag, data + iters[i].bindings), sources, w,
                          alias, rest, content, partials, to, text, plan[k].value)
  {
    hide RenderedAs, PlanFor;
    var plan, k := PlanOf(iters, spec, sources, data, w), i * |spec.templates| + t;
    JobAt(iters, spec.templates, data, i, t);
    assert plan[k] in plan;
    alias, rest, content, partials, to, text :=
      PlannedIsRendered(Job(spec.templates[t], iters[i].tag, data + iters[i].bindings), sources, w);
  }

  // ------------------------------------------------------------------ the engine

  /** The Go engine: how texts parse, how a template is named after its reference and
      label, and how the named template of a parsed tree is executed. */
  datatype Engine = Engine(
    parse: Parser, name: (string, Label) -> string, execute: (Defines, string, Data, string) -> Option<string>)

  /** GoEngine.Render: partials and main template are parsed, as ParseAll does, and
      the main template is executed. */
  ghost function EngineRender(g: Engine, from: string, tag: Label, content: string, data: Data, partials: seq<Partial>,
                              dir: string): Option<string>
  {
    var main := Partial(g.name(from, tag), content);
    if (forall p :: p in partials ==> g.parse(p.name, p.src).Some?) && g.parse(main.name, main.src).Some? then
      g.execute(Associated(ParseOrder(partials, main, g.parse)), main.name, data, dir)
    else None
  }

  ghost predicate RendersBy(w: Workshop, g: Engine) {
    forall from, tag, content, data, partials, dir ::
      w.render(from, tag, content, data, partials, dir) == EngineRender(g, from, tag, content, data, partials, dir)
  }

  /** The helper in the directory of the first i components defines n. */
  ghost predicate HelperDefines(g: Engine, cs: Components, i: nat, files: string -> FileInfo, n: string)
    requires i <= |cs|
  {
    var path := HelperAt(cs, i);
    && files(path).Readable? && g.parse(path, files(path).content).Some?
    && Solid(g.parse(path, files(path).content).value, n)
  }

  /** In what is executed for a rendered template, a name that the template's own
      text does not define is the one of the deepest helper above it that does. */
  lemma IncludesResolve(g: Engine, job: Job, sources: map<string, string>, w: Workshop, n: string)
    returns (alias: string, rest: string, content: string, tree: Defines)
    requires RendersBy(w, g) && PlanFor(job, sources, w).Some?
    ensures job.spec.from == "@" + alias + "/" + rest && '/' !in alias && alias in sources
    ensures w.files(sources[alias])(Clean(rest)) == Readable(content)
    ensures var name := g.name(job.spec.from, job.tag);
            && g.execute(tree, name, job.data, sources[alias]) == Some(PlanFor(job, sources, w).value.out.content)
            && g.parse(name, content).Some?
            && (Solid(g.parse(name, content).value, n) ==> n in tree && tree[n] == g.parse(name, content).value[n])
            && (!Solid(g.parse(name, content).value, n) && !IsAbs(rest) ==>
                  var cs, files := Split(Clean(rest), '/'), w.files(sources[alias]);
                  forall i: nat ::
                    i < |cs| && HelperDefines(g, cs, i, files, n)
                    && (forall j :: i < j < |cs| ==> !HelperDefines(g, cs, j, files, n)) ==>
                      n in tree && tree[n] == g.parse(HelperAt(cs, i), files(HelperAt(cs, i)).content).value[n])
  {
    hide PlanFor, LeadsTo, ParseOrder, Associated, Clean, HelpersAbove, HelperAt;
    var partials, to, text;
    alias, rest, content, partials, to, text := PlannedIsRendered(job, sources, w);
    var main := Partial(g.name(job.spec.from, job.tag), content);
    assert w.render(job.spec.from, job.tag, content, job.data, partials, sources[alias])
        == EngineRender(g, job.spec.from, job.tag, content, job.data, partials, sources[alias]);
    var order := ParseOrder(partials, main, g.parse);
    tree := Associated(order);
    MainIsLast(partials, main, g.parse);
    if Solid(g.parse(main.name, main.src).value, n) {
      LastSolidDefineWins(order, n, |partials|);
    } else if !IsAbs(rest) {
      var cs, files := Split(Clean(rest), '/'), w.files(sources[alias]);
      forall i: nat | i < |cs| && HelperDefines(g, cs, i, files, n)
                      && (forall j :: i < j < |cs| ==> !HelperDefines(g, cs, j, files, n))
        ensures n in tree && tree[n] == g.parse(HelperAt(cs, i), files(HelperAt(cs, i)).content).value[n]
      {
        var at := HelperPosition(g, cs, |cs|, files, n, i);
        LaterAreSilent(partials, main, g.parse, n, at);
        LastSolidDefineWins(order, n, at);
      }
    }
  }

  lemma MainIsLast(partials: seq<Partial>, main: Partial, parse: Parser)
    requires forall p :: p in partials ==> parse(p.name, p.src).Some?
    requires parse(main.name, main.src).Some?
    ensures var order := ParseOrder(partials, main, parse);
            && |order| == |partials| + 1 && order[|partials|] == parse(main.name, main.src).value
            && forall i :: 0 <= i < |partials| ==>
                             partials[i] in partials && order[i] == parse(partials[i].name, partials[i].src).value
  {
    assert forall i :: 0 <= i < |partials| ==> partials[i] in partials;
  }

  lemma LaterAreSilent(partials: seq<Partial>, main: Partial, parse: Parser, n: string, at: nat)
    requires forall p :: p in partials ==> parse(p.name, p.src).Some?
    requires parse(main.name, main.src).Some? && !Solid(parse(main.name, main.src).value, n)
    requires at < |partials|
    requires forall b :: at < b < |partials| ==>
                           partials[b] in partials && !Solid(parse(partials[b].name, partials[b].src).value, n)
    ensures var order := ParseOrder(partials, main, parse);
            at < |order| == |partials| + 1 && forall j :: at < j < |order| ==> !Solid(order[j], n)
  {
    hide ParseOrder, Solid;
    MainIsLast(partials, main, parse);
  }

  /** Where the deepest defining helper sits among the helpers that are found. */
  lemma {:induction false} HelperPosition(g: Engine, cs: Components, k: nat, files: string -> FileInfo, n: string,
                                          i: nat)
    returns (at: nat)
    requires i < k <= |cs| && HelperDefines(g, cs, i, files, n)
    requires forall j :: i < j < k ==> !HelperDefines(g, cs, j, files, n)
    requires forall p :: p in HelpersAbove(cs, k, files) ==> g.parse(p.name, p.src).Some?
    ensures var ps := HelpersAbove(cs, k, files);
            && at < |ps| && ps[at] == Partial(HelperAt(cs, i), files(HelperAt(cs, i)).content)
            && forall b :: at < b < |ps| ==> ps[b] in ps && !Solid(g.parse(ps[b].name, ps[b].src).value, n)
    decreases k
  {
    hide HelperAt, Solid;
    var front := HelpersAbove(cs, k - 1, files);
    if i == k - 1 {
      at := |front|;
    } else {
      var ps, path := HelpersAbove(cs, k, files), HelperAt(cs, k - 1);
      assert forall p :: p in front ==> p in ps;
      if files(path).Readable? {
        assert ps == front + [Partial(path, files(path).content)];
        assert Partial(path, files(path).content) in ps;
      }
      assert !HelperDefines(g, cs, k - 1, files, n);
      at := HelperPosition(g, cs, k - 1, files, n, i);
    }
  }
}
