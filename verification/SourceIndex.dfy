/** The indices behind "which generators must run again": by source reference and
    by ConfigMap reference. */
module SourceIndex {
  import opened Strings
  import O = Observation
  import V = Values
  import opened Validation

  type ConfigMaps = (string, string) -> V.ConfigMapRead

  /** A ManifestGenerator as the index functions see it. */
  datatype Indexed = Indexed(name: string, spec: GeneratorSpec)

  datatype Request = Request(namespace: string, name: string)

  // --------------------------------------------------------- what is referred to

  function Home(namespace: string, g: Indexed): string {
    O.Home(namespace, g.spec.namespace)
  }

  /** A source of g names this object, after namespace defaulting. */
  ghost predicate RefersToSource(g: Indexed, kind: string, namespace: string, name: string) {
    O.RefersToSource(g.spec.sources, g.spec.namespace, kind, namespace, name)
  }

  /** A valuesFrom entry of g names this ConfigMap, after namespace defaulting. */
  ghost predicate RefersToConfigMap(g: Indexed, namespace: string, name: string) {
    exists i :: 0 <= i < |g.spec.valuesFrom|
                && g.spec.valuesFrom[i].name == name
                && namespace == if g.spec.valuesFrom[i].namespace == "" then g.spec.namespace
                                else g.spec.valuesFrom[i].namespace
  }

  // ------------------------------------------------------------------- the keys

  function SourceKey(kind: string, namespace: string, name: string): string {
    kind + "/" + namespace + "/" + name
  }

  function ConfigMapKey(namespace: string, name: string): string {
    namespace + "/" + name
  }

  method IndexBySourceRef(g: Indexed) returns (keys: seq<string>)
    ensures |keys| == |g.spec.sources|
    ensures forall i :: 0 <= i < |keys| ==>
              keys[i] == SourceKey(g.spec.sources[i].kind, Home(g.spec.sources[i].namespace, g), g.spec.sources[i].name)
  {
    keys := [];
    for i := 0 to |g.spec.sources|
      invariant |keys| == i
      invariant forall j :: 0 <= j < i ==>
                  var src := g.spec.sources[j]; keys[j] == SourceKey(src.kind, Home(src.namespace, g), src.name)
    {
      var src := g.spec.sources[i];
      var ns := src.namespace;
      if ns == "" {
        ns := g.spec.namespace;
      }
      keys := keys + [SourceKey(src.kind, ns, src.name)];
    }
  }

  method IndexByValuesFromRef(g: Indexed) returns (keys: seq<string>)
    ensures |keys| == |g.spec.valuesFrom|
    ensures forall i :: 0 <= i < |keys| ==>
              keys[i] == ConfigMapKey(V.TargetNamespace(g.spec.valuesFrom[i], g.spec.namespace), g.spec.valuesFrom[i].name)
  {
    keys := [];
    for i := 0 to |g.spec.valuesFrom|
      invariant |keys| == i
      invariant forall j :: 0 <= j < i ==>
                  var ref := g.spec.valuesFrom[j];
                  keys[j] == ConfigMapKey(V.TargetNamespace(ref, g.spec.namespace), ref.name)
    {
      var ref := g.spec.valuesFrom[i];
      var ns := ref.namespace;
      if ns == "" {
        ns := g.spec.namespace;
      }
      keys := keys + [ConfigMapKey(ns, ref.name)];
    }
  }

  // -------------------------------------------------------- keys are unambiguous

  /** The names, namespaces and kinds of a generator contain no slash. */
  ghost predicate SlashFree(g: Indexed) {
    && '/' !in g.spec.namespace
    && (forall i :: 0 <= i < |g.spec.sources| ==>
          && '/' !in g.spec.sources[i].kind && '/' !in g.spec.sources[i].namespace && '/' !in g.spec.sources[i].name)
    && (forall i :: 0 <= i < |g.spec.valuesFrom| ==>
          '/' !in g.spec.valuesFrom[i].namespace && '/' !in g.spec.valuesFrom[i].name)
  }

  lemma ConfigMapKeyInjective(ns: string, name: string, ns': string, name': string)
    requires '/' !in ns && '/' !in ns'
    ensures ConfigMapKey(ns, name) == ConfigMapKey(ns', name') <==> ns == ns' && name == name'
  {
    if ConfigMapKey(ns, name) == ConfigMapKey(ns', name') {
      assert ns + ['/'] + name == ns' + ['/'] + name';
      CutOnce(ns, name, ns', name', '/');
    }
  }

  lemma SourceKeyInjective(kind: string, ns: string, name: string, kind': string, ns': string, name': string)
    requires '/' !in kind && '/' !in kind' && '/' !in ns && '/' !in ns'
    ensures SourceKey(kind, ns, name) == SourceKey(kind', ns', name') <==> kind == kind' && ns == ns' && name == name'
  {
    assert SourceKey(kind, ns, name) == kind + ['/'] + ConfigMapKey(ns, name);
    assert SourceKey(kind', ns', name') == kind' + ['/'] + ConfigMapKey(ns', name');
    if SourceKey(kind, ns, name) == SourceKey(kind', ns', name') {
      CutOnce(kind, ConfigMapKey(ns, name), kind', ConfigMapKey(ns', name'), '/');
      ConfigMapKeyInjective(ns, name, ns', name');
    }
  }

  // ----------------------------------------------------------------- the requests

  /** What listing by an index key and turning the items into requests yields:
      the generators in rs are exactly those of all that satisfy p, in order. */
  ghost function RequestsFor(all: seq<Indexed>, p: Indexed -> bool): seq<Request> {
    if all == [] then []
    else
      var g := all[|all| - 1];
      RequestsFor(all[..|all| - 1], p) + if p(g) then [Request(g.spec.namespace, g.name)] else []
  }

  /** A request is made exactly for the generators that satisfy p. */
  lemma {:induction false} RequestsMeaning(all: seq<Indexed>, p: Indexed -> bool, r: Request)
    ensures r in RequestsFor(all, p) <==>
              exists g :: g in all && p(g) && r == Request(g.spec.namespace, g.name)
  {
    if all != [] {
      var n := |all| - 1;
      RequestsMeaning(all[..n], p, r);
      assert all == all[..n] + [all[n]];
    }
  }

  /** requestsForSourceChange. Sources without an artifact trigger nothing. */
  method RequestsForSourceChange(all: seq<Indexed>, kind: string, namespace: string, name: string, hasArtifact: bool)
    returns (reqs: seq<Request>)
    requires forall g :: g in all ==> SlashFree(g)
    requires '/' !in kind && '/' !in namespace && '/' !in name
    ensures reqs == if hasArtifact then RequestsFor(all, g => RefersToSource(g, kind, namespace, name)) else []
  {
    if !hasArtifact {
      return [];
    }
    ghost var p := g => RefersToSource(g, kind, namespace, name);
    reqs := [];
    for i := 0 to |all|
      invariant reqs == RequestsFor(all[..i], p)
    {
      var keys := IndexBySourceRef(all[i]);
      assert all[i] in all;
      forall j | 0 <= j < |keys|
        ensures keys[j] == SourceKey(kind, namespace, name) <==>
                  && all[i].spec.sources[j].kind == kind && all[i].spec.sources[j].name == name
                  && Home(all[i].spec.sources[j].namespace, all[i]) == namespace
      {
        var src := all[i].spec.sources[j];
        SourceKeyInjective(src.kind, Home(src.namespace, all[i]), src.name, kind, namespace, name);
      }
      assert p(all[i]) <==> SourceKey(kind, namespace, name) in keys;
      assert all[..i + 1][..i] == all[..i];
      if SourceKey(kind, namespace, name) in keys {
        reqs := reqs + [Request(all[i].spec.namespace, all[i].name)];
      }
    }
    assert all[..|all|] == all;
  }

  /** requestsForConfigMapChange. */
  method RequestsForConfigMapChange(all: seq<Indexed>, namespace: string, name: string) returns (reqs: seq<Request>)
    requires forall g :: g in all ==> SlashFree(g)
    requires '/' !in namespace && '/' !in name
    ensures reqs == RequestsFor(all, g => RefersToConfigMap(g, namespace, name))
  {
    ghost var p := g => RefersToConfigMap(g, namespace, name);
    reqs := [];
    for i := 0 to |all|
      invariant reqs == RequestsFor(all[..i], p)
    {
      var keys := IndexByValuesFromRef(all[i]);
      assert all[i] in all;
      forall j | 0 <= j < |keys|
        ensures keys[j] == ConfigMapKey(namespace, name) <==>
                  && all[i].spec.valuesFrom[j].name == name
                  && V.TargetNamespace(all[i].spec.valuesFrom[j], all[i].spec.namespace) == namespace
      {
        var ref := all[i].spec.valuesFrom[j];
        ConfigMapKeyInjective(V.TargetNamespace(ref, all[i].spec.namespace), ref.name, namespace, name);
      }
      assert p(all[i]) <==> ConfigMapKey(namespace, name) in keys;
      assert all[..i + 1][..i] == all[..i];
      if ConfigMapKey(namespace, name) in keys {
        reqs := reqs + [Request(all[i].spec.namespace, all[i].name)];
      }
    }
    assert all[..|all|] == all;
  }

  // -------------------------------------------------- requested means dependent

  ghost predicate SameReadsElsewhere(read: ConfigMaps, read': ConfigMaps, namespace: string, name: string) {
    forall ns, n :: (ns, n) != (namespace, name) ==> read(ns, n) == read'(ns, n)
  }

  /** A generator that is not requested resolves to the same values, or fails for
      the same reason, whatever happened to the ConfigMap. */
  lemma NotRequestedIsUnaffected(g: Indexed, r: V.Resolver, read': ConfigMaps,
                                 namespace: string, name: string)
    requires SameReadsElsewhere(r.read, read', namespace, name) && !RefersToConfigMap(g, namespace, name)
    ensures var r' := r.(read := read');
            var refs, raw, ns := g.spec.valuesFrom, g.spec.values, g.spec.namespace;
            && (V.Resolvable(r, refs, raw, ns) <==> V.Resolvable(r', refs, raw, ns))
            && (V.Resolvable(r, refs, raw, ns) ==> V.ValuesTree(r, refs, raw, ns) == V.ValuesTree(r', refs, raw, ns))
            && forall e :: V.FirstFailure(r, refs, ns, e) <==> V.FirstFailure(r', refs, ns, e)
  {
    hide V.Contribution;
    var r', refs, ns := r.(read := read'), g.spec.valuesFrom, g.spec.namespace;
    forall ref | ref in refs
      ensures V.Contribution(r, ref, ns) == V.Contribution(r', ref, ns)
    {
      var i :| 0 <= i < |refs| && refs[i] == ref;
      assert (V.TargetNamespace(ref, ns), ref.name) != (namespace, name);
      SameReadSameContribution(r, read', ref, ns);
    }
    if V.AllResolve(r, refs, ns) {
      SameContributions(r, r', refs, ns);
    }
  }

  lemma SameReadSameContribution(r: V.Resolver, read': ConfigMaps, ref: V.ValuesReference, ns: string)
    requires r.read(V.TargetNamespace(ref, ns), ref.name) == read'(V.TargetNamespace(ref, ns), ref.name)
    ensures V.Contribution(r, ref, ns) == V.Contribution(r.(read := read'), ref, ns)
  {
  }

  lemma {:induction false} SameContributions(r: V.Resolver, r': V.Resolver, refs: seq<V.ValuesReference>, ns: string)
    requires V.AllResolve(r, refs, ns)
    requires forall ref :: ref in refs ==> V.Contribution(r, ref, ns) == V.Contribution(r', ref, ns)
    ensures V.AllResolve(r', refs, ns) && V.Contributed(r, refs, ns) == V.Contributed(r', refs, ns)
  {
    hide V.Contribution;
    if refs != [] {
      SameContributions(r, r', refs[..|refs| - 1], ns);
    }
  }

  /** A reference whose checks pass does depend on the ConfigMap it names: changing
      nothing else can change its contribution. */
  lemma RequestedIsDependent(r: V.Resolver, ref: V.ValuesReference, ns: string)
    returns (read: ConfigMaps, read': ConfigMaps)
    requires V.Readable(r, ref, ns)
    ensures SameReadsElsewhere(read, read', V.TargetNamespace(ref, ns), ref.name)
    ensures V.Contribution(r.(read := read), ref, ns) != V.Contribution(r.(read := read'), ref, ns)
  {
    read := (_, _) => V.NotFound;
    if ref.optional {
      read' := (n, m) => if (n, m) == (V.TargetNamespace(ref, ns), ref.name) then V.Unreadable else V.NotFound;
    } else {
      var data := if ref.valuesKey == "" then map[] else map[ref.valuesKey := ""];
      read' := (n, m) => if (n, m) == (V.TargetNamespace(ref, ns), ref.name) then V.Found(data) else V.NotFound;
    }
  }

  /** A reference whose checks fail does not: it is refused before any read. */
  lemma RefusedIsIndependent(r: V.Resolver, ref: V.ValuesReference, ns: string, read': ConfigMaps)
    requires !V.Readable(r, ref, ns)
    ensures V.Contribution(r, ref, ns) == V.Contribution(r.(read := read'), ref, ns)
    ensures V.Contribution(r, ref, ns).Failure?
  {
  }

  /** validateSpec leaves no forbidden references, so for accepted specs with the
      supported kind every request is for a generator that does depend on the
      ConfigMap. */
  lemma AcceptedRequestsAreReads(g: Indexed, p: Policy, r: V.Resolver, namespace: string, name: string)
    returns (ref: V.ValuesReference)
    requires Accepted(g.spec, p) && p.noCrossNamespaceRefs == r.noCrossNamespaceRefs
    requires forall x :: x in g.spec.valuesFrom ==> x.kind == "" || x.kind == "ConfigMap"
    requires RefersToConfigMap(g, namespace, name)
    ensures ref in g.spec.valuesFrom && V.Readable(r, ref, g.spec.namespace)
    ensures V.TargetNamespace(ref, g.spec.namespace) == namespace && ref.name == name
  {
    hide ArtifactsAccepted, SourcesAccepted;
    var refs := g.spec.valuesFrom;
    var i :| 0 <= i < |refs| && refs[i].name == name && V.TargetNamespace(refs[i], g.spec.namespace) == namespace;
    ref := refs[i];
    assert ref in refs && !Foreign(ref.namespace, g.spec.namespace, p);
  }

  lemma RequestedSourceMatters(g: Indexed, kind: string, namespace: string, name: string)
    returns (get: O.Lookup, get': O.Lookup)
    requires forall src :: src in g.spec.sources ==> src.kind in O.SOURCE_KINDS
    requires RefersToSource(g, kind, namespace, name)
    ensures O.SameElsewhere(get, get', kind, namespace, name)
    ensures O.AllAvailable(g.spec.sources, g.spec.namespace, get)
    ensures !O.AllAvailable(g.spec.sources, g.spec.namespace, get')
  {
    get, get' := O.NamedSourceMatters(g.spec.sources, g.spec.namespace, kind, namespace, name);
  }
}
