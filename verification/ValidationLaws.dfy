/** Which specs validateSpec accepts, and for what reason it rejects the others:
    said of the strings and fields of the spec. */
module ValidationLaws {
  import opened Wrappers
  import opened Strings
  import opened SourceRefs
  import opened Validation
  import opened ValuesLaws
  import opened SpecLaws
  import B = Builder
  import D = DestPath
  import P = Pipeline
  import V = Values

  /** alias is one of the declared aliases. */
  ghost predicate Declared(alias: string, g: GeneratorSpec) {
    exists i :: 0 <= i < |g.sources| && g.sources[i].alias == alias
  }

  /** Cross-namespace references are off and this namespace is another one. */
  predicate Forbidden(namespace: string, g: GeneratorSpec, p: Policy) {
    p.noCrossNamespaceRefs && namespace != "" && namespace != g.namespace
  }

  /** A revision to mirror: none, "@" and a declared alias, or the bare alias. */
  ghost predicate Mirrors(ref: string, g: GeneratorSpec) {
    || ref == ""
    || (exists alias :: Declared(alias, g) && ref == "@" + alias)
    || (ref[0] != '@' && Declared(ref, g))
  }

  /** "@alias/path" with a declared alias. */
  ghost predicate IsSource(from: string, g: GeneratorSpec) {
    exists alias, path ::
      Declared(alias, g) && alias != "" && '/' !in alias && path != "" && from == "@" + alias + "/" + path
  }

  /** "@artifact/path" with a path that parses as a template. */
  ghost predicate IsDestination(to: string, p: Policy) {
    exists path :: path != "" && p.parsesDest(path) && to == "@artifact/" + path
  }

  ghost predicate IsStep(name: string, g: GeneratorSpec) {
    exists i :: 0 <= i < |g.pipeline| && g.pipeline[i].name == name
  }

  ghost predicate GoodArtifact(a: B.ManifestArtifact, g: GeneratorSpec, p: Policy) {
    && (a.forEach.Some? ==> IsStep(a.forEach.value.from, g) && a.forEach.value.bind != "values")
    && Mirrors(a.revision, g) && Mirrors(a.originRevision, g)
    && forall t :: 0 <= t < |a.templates| ==> IsSource(a.templates[t].from, g) && IsDestination(a.templates[t].to, p)
  }

  lemma MirrorsIsMeant(ref: string, g: GeneratorSpec)
    ensures MirrorsAlias(ref, Aliases(g.sources)) <==> Mirrors(ref, g)
  {
    if ref != "" && ref[0] == '@' {
      assert ref == "@" + ref[1..];
      forall alias | ref == "@" + alias
        ensures alias == ref[1..]
      {
      }
    }
  }

  lemma SourceIsMeant(from: string, g: GeneratorSpec)
    ensures IsSource(from, g) <==> SplitSourceRef(from).Some? && SplitSourceRef(from).value.alias in Aliases(g.sources)
  {
    hide SplitSourceRef;
    if SplitSourceRef(from).Some? {
      var ref := SplitSourceRef(from).value;
      SplitMeaning(from, ref.alias, ref.rest);
    }
    if alias, path :| Declared(alias, g) && alias != "" && '/' !in alias && path != ""
                      && from == "@" + alias + "/" + path {
      SplitMeaning(from, alias, path);
    }
  }

  lemma DestinationIsMeant(to: string, p: Policy)
    ensures IsDestination(to, p) <==> ValidDestination(to, p)
  {
    if ValidDestination(to, p) {
      assert to == D.ARTIFACT_PREFIX + to[|D.ARTIFACT_PREFIX|..];
    }
    if path :| path != "" && p.parsesDest(path) && to == "@artifact/" + path {
      assert to[|D.ARTIFACT_PREFIX|..] == path;
    }
  }

  lemma ArtifactIsMeant(a: B.ManifestArtifact, g: GeneratorSpec, p: Policy)
    ensures GoodArtifact(a, g, p) <==> ArtifactAccepted(a, Aliases(g.sources), P.StepNames(g.pipeline), p)
  {
    hide SplitSourceRef, ValidDestination, MirrorsAlias, Mirrors, IsSource, IsDestination;
    MirrorsIsMeant(a.revision, g);
    MirrorsIsMeant(a.originRevision, g);
    forall t | 0 <= t < |a.templates|
      ensures TemplateAccepted(a.templates[t], Aliases(g.sources), p) <==>
                IsSource(a.templates[t].from, g) && IsDestination(a.templates[t].to, p)
    {
      SourceIsMeant(a.templates[t].from, g);
      DestinationIsMeant(a.templates[t].to, p);
    }
    assert forall t :: t in a.templates <==> exists i :: 0 <= i < |a.templates| && a.templates[i] == t;
  }

  /** Acceptance, spelled out. */
  lemma AcceptedExactly(g: GeneratorSpec, p: Policy)
    ensures Accepted(g, p) <==>
              && (forall i, j :: 0 <= i < j < |g.sources| ==> g.sources[i].alias != g.sources[j].alias)
              && (forall i :: 0 <= i < |g.sources| ==> !Forbidden(g.sources[i].namespace, g, p))
              && InlineIsUsable(g.values, p.decode)
              && (forall i :: 0 <= i < |g.valuesFrom| ==>
                    !Malformed(g.valuesFrom[i].targetPath) && !Forbidden(g.valuesFrom[i].namespace, g, p))
              && P.Compiles(g.pipeline, Aliases(g.sources))
              && (forall i, j :: 0 <= i < j < |g.artifacts| ==> g.artifacts[i].name != g.artifacts[j].name)
              && (forall i :: 0 <= i < |g.artifacts| ==> GoodArtifact(g.artifacts[i], g, p))
  {
    hide GoodArtifact, ArtifactAccepted, P.Compiles, V.ValidTargetPath, Malformed;
    forall i | 0 <= i < |g.valuesFrom|
      ensures V.ValidTargetPath(g.valuesFrom[i].targetPath) <==> !Malformed(g.valuesFrom[i].targetPath)
    {
      RefusedExactly(g.valuesFrom[i].targetPath);
    }
    forall i | 0 <= i < |g.artifacts|
      ensures GoodArtifact(g.artifacts[i], g, p) <==>
                ArtifactAccepted(g.artifacts[i], Aliases(g.sources), P.StepNames(g.pipeline), p)
    {
      ArtifactIsMeant(g.artifacts[i], g, p);
    }
  }

  /** The reason shown is "AccessDenied" exactly if the first defect is a forbidden
      namespace, and "ValidationFailed" otherwise. */
  lemma ReasonIsMeant(issue: Issue, g: GeneratorSpec, p: Policy)
    requires Justified(issue, g, p)
    ensures ReasonFor(issue) == "AccessDenied" || ReasonFor(issue) == "ValidationFailed"
    ensures ReasonFor(issue) == "AccessDenied" <==>
              || (issue.ForeignSource? && issue.source < |g.sources|
                  && Forbidden(g.sources[issue.source].namespace, g, p))
              || (issue.ForeignValues? && issue.ref < |g.valuesFrom|
                  && Forbidden(g.valuesFrom[issue.ref].namespace, g, p))
  {
    hide SourcesAccepted, RefsAccepted, ArtifactsAccepted, P.FailsAt;
  }
}
