/** internal/values: how spec.valuesFrom and spec.values become the .values tree. */
module Values {
  import opened Wrappers
  import opened ValueTree
  import opened MergeLaws
  import opened Strings

  datatype ValuesReference = ValuesReference(
    kind: string, name: string, namespace: string, valuesKey: string, targetPath: string, optional: bool)

  /** What the API server answers for one ConfigMap. */
  datatype ConfigMapRead = Found(data: map<string, string>) | NotFound | Unreadable

  datatype ValuesError =
    | UnsupportedKind | AccessDenied | FetchFailed | Undecodable | RootNeedsObject | EmptySegment

  datatype ResolveError = InEntry(index: nat, error: ValuesError) | InInline(inlineError: ValuesError)

  /** The API server, the YAML decoder (None when the text does not parse) and
      the --no-cross-namespace-refs flag. */
  datatype Resolver = Resolver(
    read: (string, string) -> ConfigMapRead, decode: string -> Option<Value>, noCrossNamespaceRefs: bool)

  // ------------------------------------------------------------ target paths

  function Segments(targetPath: string): Path {
    if targetPath == "" then [] else Split(targetPath, '.')
  }

  /** ValidateTargetPath. */
  predicate ValidTargetPath(targetPath: string) {
    "" !in Segments(targetPath)
  }

  ghost function Placed(targetPath: string, v: Value): Result<Value, ValuesError> {
    if targetPath == "" && !v.Map? then Failure(RootNeedsObject)
    else if !ValidTargetPath(targetPath) then Failure(EmptySegment)
    else Success(PlaceAt(Segments(targetPath), v))
  }

  /** placeAtPath wraps the value from the innermost segment outwards. */
  method PlaceAtPath(targetPath: string, value: Value) returns (r: Result<Value, ValuesError>)
    ensures r == Placed(targetPath, value)
    ensures r.Success? ==> r.value.Map? && Get(r.value, Segments(targetPath)) == Some(value)
  {
    if targetPath == "" {
      return if value.Map? then Success(value) else Failure(RootNeedsObject);
    }
    var parts := Split(targetPath, '.');
    for i := 0 to |parts|
      invariant "" !in parts[..i]
    {
      if parts[i] == "" {
        return Failure(EmptySegment);
      }
    }
    assert parts[..|parts|] == parts;
    var out := value;
    var i := |parts|;
    while i > 0
      invariant 0 <= i <= |parts|
      invariant out == PlaceAt(parts[i..], value)
    {
      i := i - 1;
      assert parts[i..][1..] == parts[i + 1..];
      out := Map(map[parts[i] := out]);
    }
    PlaceAtRoundTrip(parts, value);
    return Success(out);
  }

  // ------------------------------------------------------------ one reference

  ghost function Injected(data: map<string, string>, valuesKey: string, decode: string -> Option<Value>)
    : Result<Value, ValuesError>
  {
    if valuesKey == "" then Success(Map(map k | k in data :: Leaf(Text(data[k]))))
    else if valuesKey !in data then Failure(FetchFailed)
    else
      match decode(data[valuesKey])
      case None => Failure(Undecodable)
      case Some(v) => Success(v)
  }

  method SelectContent(data: map<string, string>, valuesKey: string, decode: string -> Option<Value>)
    returns (r: Result<Value, ValuesError>)
    ensures r == Injected(data, valuesKey, decode)
  {
    if valuesKey != "" {
      if valuesKey !in data {
        return Failure(FetchFailed);
      }
      match decode(data[valuesKey]) {
        case None => return Failure(Undecodable);
        case Some(v) => return Success(v);
      }
    }
    var out: map<string, Value> := map[];
    var rest := data.Keys;
    while rest != {}
      invariant rest <= data.Keys
      invariant out == map k | k in data.Keys - rest :: Leaf(Text(data[k]))
      decreases rest
    {
      var k :| k in rest;
      out, rest := out[k := Leaf(Text(data[k]))], rest - {k};
    }
    assert out == map k | k in data :: Leaf(Text(data[k]));
    return Success(Map(out));
  }

  /** The namespace a reference is read from. */
  function TargetNamespace(ref: ValuesReference, ns: string): string {
    if ref.namespace == "" then ns else ref.namespace
  }

  ghost predicate Denied(r: Resolver, ref: ValuesReference, ns: string) {
    r.noCrossNamespaceRefs && TargetNamespace(ref, ns) != ns
  }

  /** What one reference contributes: nothing, a map, or an error. */
  ghost function Contribution(r: Resolver, ref: ValuesReference, ns: string): Result<Option<Value>, ValuesError> {
    if ref.kind != "" && ref.kind != "ConfigMap" then Failure(UnsupportedKind)
    else if Denied(r, ref, ns) then Failure(AccessDenied)
    else
      match r.read(TargetNamespace(ref, ns), ref.name)
      case NotFound => if ref.optional then Success(None) else Failure(FetchFailed)
      case Unreadable => Failure(FetchFailed)
      case Found(data) =>
        match Injected(data, ref.valuesKey, r.decode)
        case Failure(e) => if ref.optional then Success(None) else Failure(e)
        case Success(v) =>
          if v == Leaf(Null) && ref.targetPath == "" then Success(None)
          else
            match Placed(ref.targetPath, v)
            case Failure(e) => Failure(e)
            case Success(w) => Success(Some(w))
  }

  method ResolveOne(r: Resolver, ref: ValuesReference, ns: string) returns (c: Result<Option<Value>, ValuesError>)
    ensures c == Contribution(r, ref, ns)
    ensures c.Success? && c.value.Some? ==> c.value.value.Map?
  {
    if ref.kind != "" && ref.kind != "ConfigMap" {
      return Failure(UnsupportedKind);
    }
    var target := if ref.namespace == "" then ns else ref.namespace;
    if r.noCrossNamespaceRefs && target != ns {
      return Failure(AccessDenied);
    }
    var read := r.read(target, ref.name);
    if read.NotFound? && ref.optional {
      return Success(None);
    }
    if !read.Found? {
      return Failure(FetchFailed);
    }
    var injected := SelectContent(read.data, ref.valuesKey, r.decode);
    if injected.Failure? {
      return if ref.optional then Success(None) else Failure(injected.error);
    }
    if injected.value == Leaf(Null) {
      if ref.targetPath == "" {
        return Success(None);
      }
      var placed := PlaceAtPath(ref.targetPath, Leaf(Null));
      return if placed.Failure? then Failure(placed.error) else Success(Some(placed.value));
    }
    var placed := PlaceAtPath(ref.targetPath, injected.value);
    return if placed.Failure? then Failure(placed.error) else Success(Some(placed.value));
  }

  // ------------------------------------------------------------- all of them

  /** decodeInline on spec.values; empty input and YAML null contribute nothing. */
  function Inline(raw: string, decode: string -> Option<Value>): Result<Option<Value>, ValuesError> {
    if raw == "" then Success(None)
    else
      match decode(raw)
      case None => Failure(Undecodable)
      case Some(Leaf(Null)) => Success(None)
      case Some(Map(m)) => Success(Some(Map(m)))
      case Some(_) => Failure(RootNeedsObject)
  }

  ghost predicate AllResolve(r: Resolver, refs: seq<ValuesReference>, ns: string) {
    forall ref :: ref in refs ==> Contribution(r, ref, ns).Success?
  }

  function ToSeq(o: Option<Value>): seq<Value> {
    if o.Some? then [o.value] else []
  }

  /** The maps the references contribute, in spec order. */
  ghost function Contributed(r: Resolver, refs: seq<ValuesReference>, ns: string): seq<Value>
    requires AllResolve(r, refs, ns)
  {
    if refs == [] then []
    else
      Contributed(r, refs[..|refs| - 1], ns) + ToSeq(Contribution(r, refs[|refs| - 1], ns).value)
  }

  ghost predicate Resolvable(r: Resolver, refs: seq<ValuesReference>, raw: string, ns: string) {
    AllResolve(r, refs, ns) && Inline(raw, r.decode).Success?
  }

  /** Everything that is merged: valuesFrom in spec order, then the inline tree. */
  ghost function Layers(r: Resolver, refs: seq<ValuesReference>, raw: string, ns: string): seq<Value>
    requires Resolvable(r, refs, raw, ns)
  {
    Contributed(r, refs, ns) + ToSeq(Inline(raw, r.decode).value)
  }

  ghost function ValuesTree(r: Resolver, refs: seq<ValuesReference>, raw: string, ns: string): Value
    requires Resolvable(r, refs, raw, ns)
  {
    Fold(EMPTY, Layers(r, refs, raw, ns))
  }

  /** The error names the first reference that does not resolve. */
  ghost predicate FirstFailure(r: Resolver, refs: seq<ValuesReference>, ns: string, e: ResolveError) {
    && e.InEntry? && e.index < |refs|
    && Contribution(r, refs[e.index], ns) == Failure(e.error)
    && AllResolve(r, refs[..e.index], ns)
  }

  /** Resolver.Resolve: succeeds exactly when every layer resolves, and then
      yields their fold, which is a map; otherwise it reports the first layer
      that does not resolve. */
  method Resolve(r: Resolver, refs: seq<ValuesReference>, raw: string, ns: string)
    returns (res: Result<Value, ResolveError>)
    ensures res.Success? <==> Resolvable(r, refs, raw, ns)
    ensures res.Success? ==> res.value == ValuesTree(r, refs, raw, ns) && res.value.Map?
    ensures res.Failure? ==>
              || FirstFailure(r, refs, ns, res.error)
              || (AllResolve(r, refs, ns) && res.error.InInline? && Inline(raw, r.decode) == Failure(res.error.inlineError))
  {
    var merged := ResolveRefs(r, refs, ns);
    if merged.Failure? {
      return merged;
    }
    var inline := Inline(raw, r.decode);
    if inline.Failure? {
      return Failure(InInline(inline.error));
    }
    FoldOptional(EMPTY, Contributed(r, refs, ns), inline.value);
    if inline.value.Some? {
      return Success(Merge(merged.value, inline.value.value));
    }
    return merged;
  }

  /** The loop over valuesFrom. */
  method ResolveRefs(r: Resolver, refs: seq<ValuesReference>, ns: string) returns (res: Result<Value, ResolveError>)
    ensures res.Success? <==> AllResolve(r, refs, ns)
    ensures res.Success? ==> res.value == Fold(EMPTY, Contributed(r, refs, ns)) && res.value.Map?
    ensures res.Failure? ==> FirstFailure(r, refs, ns, res.error)
  {
    var out := EMPTY;
    for i := 0 to |refs|
      invariant AllResolve(r, refs[..i], ns)
      invariant out == Fold(EMPTY, Contributed(r, refs[..i], ns)) && out.Map?
    {
      var contrib := ResolveOne(r, refs[i], ns);
      if contrib.Failure? {
        assert refs[i] in refs;
        return Failure(InEntry(i, contrib.error));
      }
      AddLayer(r, refs, i, ns);
      if contrib.value.Some? {
        out := Merge(out, contrib.value.value);
      }
    }
    assert refs[..|refs|] == refs;
    return Success(out);
  }

  lemma AddLayer(r: Resolver, refs: seq<ValuesReference>, i: nat, ns: string)
    requires i < |refs| && AllResolve(r, refs[..i], ns) && Contribution(r, refs[i], ns).Success?
    ensures AllResolve(r, refs[..i + 1], ns)
    ensures var c, sofar := Contribution(r, refs[i], ns).value, Fold(EMPTY, Contributed(r, refs[..i], ns));
            Fold(EMPTY, Contributed(r, refs[..i + 1], ns)) == if c.Some? then Merge(sofar, c.value) else sofar
  {
    assert refs[..i + 1] == refs[..i] + [refs[i]];
    assert refs[..i + 1][..i] == refs[..i];
    FoldOptional(EMPTY, Contributed(r, refs[..i], ns), Contribution(r, refs[i], ns).value);
  }

  lemma FoldOptional(init: Value, cs: seq<Value>, c: Option<Value>)
    ensures Fold(init, cs + ToSeq(c)) == if c.Some? then Merge(Fold(init, cs), c.value) else Fold(init, cs)
  {
    if c.Some? {
      FoldSnoc(init, cs, c.value);
    } else {
      assert cs + ToSeq(c) == cs;
    }
  }

  lemma FoldSnoc(init: Value, cs: seq<Value>, c: Value)
    ensures Fold(init, cs + [c]) == Merge(Fold(init, cs), c)
  {
    assert (cs + [c])[..|cs + [c]| - 1] == cs;
  }

  // -------------------------------------------------------------- theorems

  /** Inline data always wins: wherever spec.values defines something, or has a
      scalar or list above, the resolved tree shows exactly spec.values. */
  lemma InlineAlwaysWins(r: Resolver, refs: seq<ValuesReference>, raw: string, ns: string, p: Path)
    requires Resolvable(r, refs, raw, ns)
    requires Inline(raw, r.decode).value.Some? && Touches(Inline(raw, r.decode).value.value, p)
    ensures ShapeAt(ValuesTree(r, refs, raw, ns), p) == ShapeAt(Inline(raw, r.decode).value.value, p)
  {
    var inline := Inline(raw, r.decode).value.value;
    FoldSnoc(EMPTY, Contributed(r, refs, ns), inline);
    MergeShape(Fold(EMPTY, Contributed(r, refs, ns)), inline, p);
  }

  /** A contribution with a target path says nothing outside that path: merged
      as the last valuesFrom layer it keeps every path beside it. */
  lemma TargetPathFrames(r: Resolver, ref: ValuesReference, ns: string, base: Value, p: Path)
    requires Contribution(r, ref, ns).Success? && Contribution(r, ref, ns).value.Some?
    requires !(p <= Segments(ref.targetPath)) && !(Segments(ref.targetPath) <= p)
    ensures ShapeAt(Merge(base, Contribution(r, ref, ns).value.value), p) == ShapeAt(base, p)
  {
    var c := Contribution(r, ref, ns).value.value;
    var data := r.read(TargetNamespace(ref, ns), ref.name).data;
    var v := Injected(data, ref.valuesKey, r.decode).value;
    assert c == PlaceAt(Segments(ref.targetPath), v);
    PlaceAtTouches(Segments(ref.targetPath), v, p);
    MergeShape(base, c, p);
  }

  ghost predicate Incomparable(a: ValuesReference, b: ValuesReference) {
    && !(Segments(a.targetPath) <= Segments(b.targetPath))
    && !(Segments(b.targetPath) <= Segments(a.targetPath))
  }

  lemma IncomparableContributionsCommute(r: Resolver, a: ValuesReference, b: ValuesReference, ns: string, base: Value)
    requires Incomparable(a, b)
    requires Contribution(r, a, ns).Success? && Contribution(r, b, ns).Success?
    ensures var ca, cb := ToSeq(Contribution(r, a, ns).value), ToSeq(Contribution(r, b, ns).value);
            Fold(base, ca + cb) == Fold(base, cb + ca)
  {
    var oa, ob := Contribution(r, a, ns).value, Contribution(r, b, ns).value;
    if oa.Some? && ob.Some? {
      var va := Injected(r.read(TargetNamespace(a, ns), a.name).data, a.valuesKey, r.decode).value;
      var vb := Injected(r.read(TargetNamespace(b, ns), b.name).data, b.valuesKey, r.decode).value;
      assert oa.value == PlaceAt(Segments(a.targetPath), va);
      assert ob.value == PlaceAt(Segments(b.targetPath), vb);
      IncomparablePlacementsAgree(Segments(a.targetPath), va, Segments(b.targetPath), vb);
      CommuteExactly(base, oa.value, ob.value);
      FoldPair(base, oa.value, ob.value);
      FoldPair(base, ob.value, oa.value);
    } else {
      assert ToSeq(oa) + ToSeq(ob) == ToSeq(ob) + ToSeq(oa);
    }
  }

  lemma FoldPair(base: Value, c: Value, d: Value)
    ensures Fold(base, [c] + [d]) == Merge(Merge(base, c), d)
  {
    FoldSnoc(base, [], c);
    assert [] + [c] == [c];
    FoldSnoc(base, [c], d);
  }

  lemma {:induction false} ContributedAppend(r: Resolver, xs: seq<ValuesReference>, ys: seq<ValuesReference>, ns: string)
    requires AllResolve(r, xs + ys, ns)
    ensures AllResolve(r, xs, ns) && AllResolve(r, ys, ns)
    ensures Contributed(r, xs + ys, ns) == Contributed(r, xs, ns) + Contributed(r, ys, ns)
    decreases |ys|
  {
    hide Contribution;
    assert forall ref :: ref in xs || ref in ys ==> ref in xs + ys;
    if ys == [] {
      assert xs + ys == xs;
    } else {
      assert (xs + ys)[..|xs + ys| - 1] == xs + ys[..|ys| - 1];
      ContributedAppend(r, xs, ys[..|ys| - 1], ns);
    }
  }

  lemma ContributedPair(r: Resolver, a: ValuesReference, b: ValuesReference, ns: string)
    requires AllResolve(r, [a, b], ns)
    ensures Contribution(r, a, ns).Success? && Contribution(r, b, ns).Success?
    ensures Contributed(r, [a, b], ns)
         == ToSeq(Contribution(r, a, ns).value) + ToSeq(Contribution(r, b, ns).value)
  {
    assert a in [a, b] && b in [a, b];
    assert [a, b][..1] == [a] && [a][..0] == [];
    assert Contributed(r, [a], ns) == [] + ToSeq(Contribution(r, a, ns).value);
  }

  /** Swapping two adjacent valuesFrom entries with incomparable target paths
      changes neither whether the values resolve nor the resolved tree. */
  lemma SwapIncomparable(r: Resolver, xs: seq<ValuesReference>, a: ValuesReference, b: ValuesReference,
                         ys: seq<ValuesReference>, raw: string, ns: string)
    requires Incomparable(a, b)
    ensures Resolvable(r, xs + [a, b] + ys, raw, ns) <==> Resolvable(r, xs + [b, a] + ys, raw, ns)
    ensures Resolvable(r, xs + [a, b] + ys, raw, ns) ==>
              ValuesTree(r, xs + [a, b] + ys, raw, ns) == ValuesTree(r, xs + [b, a] + ys, raw, ns)
  {
    assert forall ref :: ref in xs + [a, b] + ys <==> ref in xs + [b, a] + ys;
    if Resolvable(r, xs + [a, b] + ys, raw, ns) {
      SplitTree(r, xs, a, b, ys, raw, ns);
      SplitTree(r, xs, b, a, ys, raw, ns);
      IncomparableContributionsCommute(r, a, b, ns, Fold(EMPTY, Contributed(r, xs, ns)));
    }
  }

  lemma FoldInThree(init: Value, x: seq<Value>, y: seq<Value>, z: seq<Value>, rest: seq<Value>)
    ensures Fold(init, x + y + z + rest) == Fold(Fold(Fold(init, x), y), z + rest)
  {
    assert x + y + z + rest == (x + y) + (z + rest);
    FoldAppend(init, x + y, z + rest);
    FoldAppend(init, x, y);
  }

  lemma SplitTree(r: Resolver, xs: seq<ValuesReference>, a: ValuesReference, b: ValuesReference,
                  ys: seq<ValuesReference>, raw: string, ns: string)
    requires Resolvable(r, xs + [a, b] + ys, raw, ns)
    ensures AllResolve(r, xs, ns) && AllResolve(r, ys, ns)
    ensures Contribution(r, a, ns).Success? && Contribution(r, b, ns).Success?
    ensures ValuesTree(r, xs + [a, b] + ys, raw, ns)
         == Fold(Fold(Fold(EMPTY, Contributed(r, xs, ns)),
                      ToSeq(Contribution(r, a, ns).value) + ToSeq(Contribution(r, b, ns).value)),
                 Contributed(r, ys, ns) + ToSeq(Inline(raw, r.decode).value))
  {
    ContributedAppend(r, xs + [a, b], ys, ns);
    ContributedAppend(r, xs, [a, b], ns);
    ContributedPair(r, a, b, ns);
    FoldInThree(EMPTY, Contributed(r, xs, ns), Contributed(r, [a, b], ns), Contributed(r, ys, ns),
                ToSeq(Inline(raw, r.decode).value));
  }

  /** An access error is raised exactly for a reference into another namespace
      while cross-namespace references are switched off. */
  lemma AccessDeniedExactly(r: Resolver, ref: ValuesReference, ns: string)
    ensures Contribution(r, ref, ns) == Failure(AccessDenied) <==>
              && (ref.kind == "" || ref.kind == "ConfigMap")
              && r.noCrossNamespaceRefs && ref.namespace != "" && ref.namespace != ns
    ensures Contribution(r, ref, ns) == Failure(EmptySegment) ==> !ValidTargetPath(ref.targetPath)
  {
  }

  // ------------------------------------------------------ optional references

  /** The checks that come before any read pass. */
  ghost predicate Readable(r: Resolver, ref: ValuesReference, ns: string) {
    (ref.kind == "" || ref.kind == "ConfigMap") && !Denied(r, ref, ns)
  }

  /** The ConfigMap, or the key that is asked for, does not exist. */
  ghost predicate SelectedIsAbsent(r: Resolver, ref: ValuesReference, ns: string) {
    var read := r.read(TargetNamespace(ref, ns), ref.name);
    read.NotFound? || (read.Found? && ref.valuesKey != "" && ref.valuesKey !in read.data)
  }

  /** The key that is asked for exists; decoded is what its text decodes to. */
  ghost predicate SelectedDecodesTo(r: Resolver, ref: ValuesReference, ns: string, decoded: Option<Value>) {
    var read := r.read(TargetNamespace(ref, ns), ref.name);
    read.Found? && ref.valuesKey != "" && ref.valuesKey in read.data && r.decode(read.data[ref.valuesKey]) == decoded
  }

  /** Exactly when an optional reference contributes nothing. */
  lemma OptionalContributesNothingExactly(r: Resolver, ref: ValuesReference, ns: string)
    requires ref.optional
    ensures Contribution(r, ref, ns) == Success(None) <==>
              && Readable(r, ref, ns)
              && (|| SelectedIsAbsent(r, ref, ns)
                  || SelectedDecodesTo(r, ref, ns, None)
                  || (ref.targetPath == "" && SelectedDecodesTo(r, ref, ns, Some(Leaf(Null)))))
  {
    var read := r.read(TargetNamespace(ref, ns), ref.name);
    if Readable(r, ref, ns) && read.Found? && ref.valuesKey == "" {
      var data := map k | k in read.data :: Leaf(Text(read.data[k]));
      assert Injected(read.data, ref.valuesKey, r.decode) == Success(Map(data));
    }
  }

  /** resolveOne documents that an optional reference is a no-op when the object
      or the key is absent; a null at the root is a no-op for every reference. */
  ghost predicate NoOpIsDocumented(r: Resolver, ref: ValuesReference, ns: string) {
    Contribution(r, ref, ns) == Success(None) ==>
      SelectedIsAbsent(r, ref, ns) || (ref.targetPath == "" && SelectedDecodesTo(r, ref, ns, Some(Leaf(Null))))
  }

  /** For an optional reference that may be read the documentation is right if and
      only if the selected key, when there is one, decodes. */
  lemma OptionalIsAsDocumentedExactly(r: Resolver, ref: ValuesReference, ns: string)
    requires ref.optional && Readable(r, ref, ns)
    ensures NoOpIsDocumented(r, ref, ns) <==> !SelectedDecodesTo(r, ref, ns, None)
  {
    hide Contribution;
    OptionalContributesNothingExactly(r, ref, ns);
  }

  /** A reference for which it is wrong: the key is there, but its text is not
      YAML, and the entry silently disappears. */
  lemma OptionalHidesUndecodable(ns: string)
    ensures var r := Resolver((_, _) => Found(map["values.yaml" := "{"]),
                              t => if t == "{" then None else Some(Leaf(Text(t))), false);
            var ref := ValuesReference("ConfigMap", "settings", "", "values.yaml", "", true);
            Contribution(r, ref, ns) == Success(None) && !NoOpIsDocumented(r, ref, ns)
  {
    var r := Resolver((_, _) => Found(map["values.yaml" := "{"]),
                      t => if t == "{" then None else Some(Leaf(Text(t))), false);
    var ref := ValuesReference("ConfigMap", "settings", "", "values.yaml", "", true);
    OptionalIsAsDocumentedExactly(r, ref, ns);
  }

  /** An entry that contributes nothing, such as an optional one that does not
      decode, can be removed without changing whether the values resolve or what
      they resolve to. */
  lemma NoOpEntryVanishes(r: Resolver, xs: seq<ValuesReference>, ref: ValuesReference, ys: seq<ValuesReference>,
                          raw: string, ns: string)
    requires Contribution(r, ref, ns) == Success(None)
    ensures Resolvable(r, xs + [ref] + ys, raw, ns) <==> Resolvable(r, xs + ys, raw, ns)
    ensures Resolvable(r, xs + ys, raw, ns) ==>
              ValuesTree(r, xs + [ref] + ys, raw, ns) == ValuesTree(r, xs + ys, raw, ns)
  {
    hide Contribution, Inline;
    assert forall x :: x in xs + [ref] + ys <==> x in xs + ys || x == ref;
    if Resolvable(r, xs + ys, raw, ns) {
      ContributedAppend(r, xs + [ref], ys, ns);
      ContributedAppend(r, xs, [ref], ns);
      ContributedAppend(r, xs, ys, ns);
      assert [ref][..0] == [];
      assert Contributed(r, [ref], ns) == [];
      assert Contributed(r, xs, ns) + [] == Contributed(r, xs, ns);
    }
  }
}
