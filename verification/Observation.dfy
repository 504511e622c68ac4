/** observeSources: looking up the artifact of every source reference. */
module Observation {
  import opened Wrappers
  import opened DriftKey
  import opened Validation

  /** What the API server answers for one source object. */
  datatype SourceRead = NotFound | Unreadable | NoArtifact | Available(source: ObservedSource)

  type Lookup = (string, string, string) -> SourceRead

  datatype ObserveProblem = UnsupportedKind | ReadFailed | NotReady

  datatype ObserveError = ObserveError(index: nat, problem: ObserveProblem)

  const SOURCE_KINDS := ["GitRepository", "OCIRepository", "Bucket", "HelmChart", "ExternalArtifact"]

  function Home(namespace: string, home: string): string {
    if namespace == "" then home else namespace
  }

  /** The artifact of one reference, read from its own or the generator's
      namespace. */
  function Observe(src: SourceReference, home: string, get: Lookup): Result<ObservedSource, ObserveProblem> {
    if src.kind !in SOURCE_KINDS then Failure(UnsupportedKind)
    else
      match get(src.kind, Home(src.namespace, home), src.name)
      case Available(s) => Success(s)
      case NoArtifact => Failure(NotReady)
      case _ => Failure(ReadFailed)
  }

  /** A reference is observed exactly when its kind is one of the five and the
      object it names, in its own namespace or else the generator's, has an
      artifact. */
  lemma ObservedExactly(src: SourceReference, home: string, get: Lookup, s: ObservedSource)
    ensures Observe(src, home, get) == Success(s) <==>
              && (src.kind == "GitRepository" || src.kind == "OCIRepository" || src.kind == "Bucket"
                  || src.kind == "HelmChart" || src.kind == "ExternalArtifact")
              && get(src.kind, if src.namespace == "" then home else src.namespace, src.name) == Available(s)
  {
  }

  ghost predicate AllAvailable(sources: seq<SourceReference>, home: string, get: Lookup) {
    forall i :: 0 <= i < |sources| ==> Observe(sources[i], home, get).Success?
  }

  /** The observations by alias; a repeated alias keeps the last. */
  ghost function ByAlias(sources: seq<SourceReference>, home: string, get: Lookup): Sources
    requires AllAvailable(sources, home, get)
  {
    if sources == [] then map[]
    else
      var n := |sources| - 1;
      ByAlias(sources[..n], home, get)[sources[n].alias := Observe(sources[n], home, get).value]
  }

  ghost predicate FirstUnavailable(sources: seq<SourceReference>, home: string, get: Lookup, e: ObserveError) {
    && e.index < |sources|
    && Observe(sources[e.index], home, get) == Failure(e.problem)
    && AllAvailable(sources[..e.index], home, get)
  }

  lemma OneMoreAvailable(sources: seq<SourceReference>, i: nat, home: string, get: Lookup)
    requires i < |sources| && AllAvailable(sources[..i], home, get) && Observe(sources[i], home, get).Success?
    ensures AllAvailable(sources[..i + 1], home, get)
    ensures ByAlias(sources[..i + 1], home, get)
         == ByAlias(sources[..i], home, get)[sources[i].alias := Observe(sources[i], home, get).value]
  {
    hide Observe;
    assert sources[..i + 1][..i] == sources[..i] && sources[..i + 1][i] == sources[i];
    assert forall j :: 0 <= j < i ==> sources[..i + 1][j] == sources[..i][j];
  }

  method ObserveSources(sources: seq<SourceReference>, home: string, get: Lookup)
    returns (r: Result<Sources, ObserveError>)
    ensures r.Success? <==> AllAvailable(sources, home, get)
    ensures r.Success? ==> r.value == ByAlias(sources, home, get)
    ensures r.Failure? ==> FirstUnavailable(sources, home, get, r.error)
  {
    hide Observe;
    var out: Sources := map[];
    for i := 0 to |sources|
      invariant AllAvailable(sources[..i], home, get) && out == ByAlias(sources[..i], home, get)
    {
      var src := sources[i];
      var s := Observe(src, home, get);
      if s.Failure? {
        return Failure(ObserveError(i, s.error));
      }
      OneMoreAvailable(sources, i, home, get);
      out := out[src.alias := s.value];
    }
    assert sources[..|sources|] == sources;
    return Success(out);
  }

  lemma NothingByAlias(home: string, get: Lookup)
    ensures ByAlias([], home, get) == map[] && Aliases([]) == {}
  {
  }

  /** With distinct aliases every reference is found under its own alias. */
  lemma {:induction false} AliasesKeepTheirSource(sources: seq<SourceReference>, home: string, get: Lookup)
    requires AllAvailable(sources, home, get)
    requires forall i, j :: 0 <= i < j < |sources| ==> sources[i].alias != sources[j].alias
    ensures ByAlias(sources, home, get).Keys == Aliases(sources)
    ensures forall i :: 0 <= i < |sources| ==>
                          && sources[i].alias in ByAlias(sources, home, get)
                          && Observe(sources[i], home, get) == Success(ByAlias(sources, home, get)[sources[i].alias])
  {
    hide Observe, ByAlias;
    if sources == [] {
      NothingByAlias(home, get);
    } else {
      var n := |sources| - 1;
      AliasesKeepTheirSource(sources[..n], home, get);
      assert sources[..n + 1] == sources;
      OneMoreAvailable(sources, n, home, get);
      AliasesSnoc(sources, n);
      forall i | 0 <= i < n
        ensures sources[i] == sources[..n][i] && sources[i].alias in ByAlias(sources[..n], home, get)
      {
      }
    }
  }

  // ------------------------------------------------------- what it depends on

  /** The two servers differ at most in one object. */
  ghost predicate SameElsewhere(get: Lookup, get': Lookup, kind: string, namespace: string, name: string) {
    forall k, ns, n :: (k, ns, n) != (kind, namespace, name) ==> get(k, ns, n) == get'(k, ns, n)
  }

  /** Some reference names the object, after namespace defaulting. */
  ghost predicate RefersToSource(sources: seq<SourceReference>, home: string, kind: string, namespace: string,
                                 name: string)
  {
    exists i :: 0 <= i < |sources|
                && sources[i].kind == kind && sources[i].name == name
                && namespace == if sources[i].namespace == "" then home else sources[i].namespace
  }

  /** An object no reference names has no influence on the observation. */
  lemma {:induction false} UnnamedSourceIsIrrelevant(sources: seq<SourceReference>, home: string, get: Lookup,
                                                     get': Lookup, kind: string, namespace: string, name: string)
    requires SameElsewhere(get, get', kind, namespace, name)
    requires !RefersToSource(sources, home, kind, namespace, name)
    ensures AllAvailable(sources, home, get) <==> AllAvailable(sources, home, get')
    ensures AllAvailable(sources, home, get) ==> ByAlias(sources, home, get) == ByAlias(sources, home, get')
    ensures forall e :: FirstUnavailable(sources, home, get, e) <==> FirstUnavailable(sources, home, get', e)
  {
    forall i | 0 <= i < |sources|
      ensures Observe(sources[i], home, get) == Observe(sources[i], home, get')
    {
      assert (sources[i].kind, Home(sources[i].namespace, home), sources[i].name) != (kind, namespace, name);
    }
    hide Observe;
    if sources != [] {
      var n := |sources| - 1;
      assert forall i :: 0 <= i < n ==> sources[..n][i] == sources[i];
      UnnamedSourceIsIrrelevant(sources[..n], home, get, get', kind, namespace, name);
    }
  }

  /** An object that some reference names decides whether all sources can be
      observed, the kinds being supported. */
  lemma NamedSourceMatters(sources: seq<SourceReference>, home: string, kind: string, namespace: string, name: string)
    returns (get: Lookup, get': Lookup)
    requires forall i :: 0 <= i < |sources| ==> sources[i].kind in SOURCE_KINDS
    requires RefersToSource(sources, home, kind, namespace, name)
    ensures SameElsewhere(get, get', kind, namespace, name)
    ensures AllAvailable(sources, home, get) && !AllAvailable(sources, home, get')
  {
    get := (_, _, _) => Available(ObservedSource("", "", "", ""));
    get' := (k, ns, n) =>
      if (k, ns, n) == (kind, namespace, name) then NotFound else Available(ObservedSource("", "", "", ""));
    var i :| 0 <= i < |sources|
             && sources[i].kind == kind && sources[i].name == name && Home(sources[i].namespace, home) == namespace;
    assert Observe(sources[i], home, get').Failure?;
  }
}
