/** internal/pipeline: evaluating the five verbs and running a compiled pipeline.
    Each verb is a loop proved against a specification function. */
module PipelineEval {
  import opened Wrappers
  import opened ValueTree
  import opened Strings
  import opened Templates
  import opened Pipeline

  type FileError = string

  datatype EvalError =
    | NotDefined(from: string) | NotAMap(from: string) | NotAList(from: string) | NotACollection(from: string)
    | NoArtifact(alias: string) | NotOneFile | File(fileError: FileError)
    | BadTemplate(templateError: TemplateError) | Undecodable | EmptyKey | DuplicateKey(key: string) | NotBoolean

  /** What evaluation takes from outside: how values print and parse, and what
      the fetched source directories contain. */
  datatype World = World(
    show: Value -> string,
    decode: string -> Option<Value>,
    expand: (string, string) -> Result<seq<string>, FileError>,
    readDecode: (string, string, string) -> Result<Value, FileError>)

  datatype Scope = Scope(sources: map<string, string>, values: Value, outputs: Data)

  // -------------------------------------------------------------- sequencing

  /** All the results, or the first failure: what a loop that returns on error
      computes. */
  ghost function Sequence<T, E>(rs: seq<Result<T, E>>): Result<seq<T>, E> {
    if rs == [] then Success([])
    else
      match Sequence(rs[..|rs| - 1])
      case Failure(e) => Failure(e)
      case Success(vs) =>
        match rs[|rs| - 1]
        case Failure(e) => Failure(e)
        case Success(v) => Success(vs + [v])
  }

  lemma {:induction false} SequenceMeaning<T, E>(rs: seq<Result<T, E>>)
    ensures Sequence(rs).Success? <==> forall i :: 0 <= i < |rs| ==> rs[i].Success?
    ensures Sequence(rs).Success? ==>
              |Sequence(rs).value| == |rs| && forall i :: 0 <= i < |rs| ==> rs[i] == Success(Sequence(rs).value[i])
  {
    if rs != [] {
      SequenceMeaning(rs[..|rs| - 1]);
      assert forall i :: 0 <= i < |rs| - 1 ==> rs[..|rs| - 1][i] == rs[i];
    }
  }

  /** The first n results are the values vs. */
  ghost predicate Yields<T, E>(rs: seq<Result<T, E>>, n: nat, vs: seq<T>) {
    n == |vs| <= |rs| && forall j :: 0 <= j < n ==> rs[j] == Success(vs[j])
  }

  lemma {:induction false} YieldsPrefix<T, E>(rs: seq<Result<T, E>>, n: nat, vs: seq<T>)
    requires Yields(rs, n, vs)
    ensures Sequence(rs[..n]) == Success(vs)
    decreases n
  {
    if n == 0 {
      assert rs[..0] == [];
    } else {
      YieldsPrefix(rs, n - 1, vs[..n - 1]);
      assert rs[..n][..n - 1] == rs[..n - 1] && rs[..n][n - 1] == Success(vs[n - 1]);
      assert vs == vs[..n - 1] + [vs[n - 1]];
    }
  }

  lemma NoFailure<T, E>(rs: seq<Result<T, E>>, vs: seq<T>)
    requires Yields(rs, |rs|, vs)
    ensures Sequence(rs) == Success(vs)
  {
    YieldsPrefix(rs, |rs|, vs);
    assert rs[..|rs|] == rs;
  }

  lemma FirstFailure<T, E>(rs: seq<Result<T, E>>, n: nat, vs: seq<T>)
    requires Yields(rs, n, vs) && n < |rs| && rs[n].Failure?
    ensures Sequence(rs) == Failure(rs[n].error)
  {
    YieldsPrefix(rs, n, vs);
    SequenceStep(rs, n);
  }

  lemma SequenceStep<T, E>(rs: seq<Result<T, E>>, i: nat)
    requires i < |rs| && Sequence(rs[..i]).Success?
    ensures rs[i].Success? ==> Sequence(rs[..i + 1]) == Success(Sequence(rs[..i]).value + [rs[i].value])
    ensures rs[i].Failure? ==> Sequence(rs) == Failure(rs[i].error)
  {
    assert rs[..i + 1][..i] == rs[..i];
    if rs[i].Failure? {
      FailureSticks(rs, i + 1);
    }
  }

  lemma {:induction false} FailureSticks<T, E>(rs: seq<Result<T, E>>, n: nat)
    requires n <= |rs| && Sequence(rs[..n]).Failure?
    ensures Sequence(rs) == Sequence(rs[..n])
    decreases |rs|
  {
    if n == |rs| {
      assert rs[..n] == rs;
    } else {
      assert rs[..|rs| - 1][..n] == rs[..n];
      FailureSticks(rs[..|rs| - 1], n);
    }
  }

  // ------------------------------------------------------------- template data

  /** What a fragment sees: the outputs, then .values, then the item bindings. */
  function Bound(bindings: Data, scope: Scope): Data {
    scope.outputs[VALUES_KEY := scope.values] + bindings
  }

  /** withOutputs writes the three layers into one map, the later ones over the
      earlier. */
  method WithOutputs(bindings: Data, scope: Scope) returns (data: Data)
    ensures data == Bound(bindings, scope)
  {
    data := CopyInto(map[], scope.outputs);
    assert data == scope.outputs;
    data := data[VALUES_KEY := scope.values];
    data := CopyInto(data, bindings);
  }

  function ListBindings(item: Value, i: nat): Data {
    map["value" := item, "index" := Leaf(Number(i as real))]
  }

  function MapBindings(item: Value, key: string): Data {
    map["value" := item, "key" := Leaf(Text(key))]
  }

  function PathBindings(rel: string): Data {
    map["path" := Leaf(Text(rel))]
  }

  function Rendered(e: Expr, bindings: Data, scope: Scope, w: World): Result<string, EvalError> {
    match Render(e, Bound(bindings, scope), w.show)
    case Failure(err) => Failure(BadTemplate(err))
    case Success(s) => Success(s)
  }

  method RenderItem(e: Expr, bindings: Data, scope: Scope, w: World) returns (r: Result<string, EvalError>)
    ensures r == Rendered(e, bindings, scope, w)
  {
    var data := WithOutputs(bindings, scope);
    var out := Render(e, data, w.show);
    return if out.Failure? then Failure(BadTemplate(out.error)) else Success(out.value);
  }

  /** keyExprEvaluator.eval: the trimmed rendering, which must not be empty. */
  function KeyFor(e: Expr, bindings: Data, scope: Scope, w: World): (r: Result<string, EvalError>)
    ensures r.Success? ==> r.value != ""
  {
    var s :- Rendered(e, bindings, scope, w);
    if TrimSpace(s) == "" then Failure(EmptyKey) else Success(TrimSpace(s))
  }

  /** truthyString, with the literals strconv.ParseBool accepts. */
  function TruthyString(s: string): Result<bool, EvalError> {
    var t := TrimSpace(s);
    if t == "" then Success(false)
    else if t in TRUE_LITERALS then Success(true)
    else if t in FALSE_LITERALS then Success(false)
    else Failure(NotBoolean)
  }

  const TRUE_LITERALS := ["1", "t", "T", "TRUE", "true", "True"]
  const FALSE_LITERALS := ["0", "f", "F", "FALSE", "false", "False"]

  function Keep(e: Expr, bindings: Data, scope: Scope, w: World): Result<bool, EvalError> {
    var s :- Rendered(e, bindings, scope, w);
    TruthyString(s)
  }

  /** filterStep.evalPredicate. */
  method EvalPredicate(e: Expr, bindings: Data, scope: Scope, w: World) returns (r: Result<bool, EvalError>)
    ensures r == Keep(e, bindings, scope, w)
  {
    var raw := RenderItem(e, bindings, scope, w);
    return if raw.Failure? then Failure(raw.error) else TruthyString(raw.value);
  }

  function NewItem(e: Expr, bindings: Data, scope: Scope, w: World): Result<Value, EvalError> {
    var s :- Rendered(e, bindings, scope, w);
    match w.decode(s)
    case None => Failure(Undecodable)
    case Some(v) => Success(v)
  }

  // ------------------------------------------------------------------ filter

  /** The items whose flag is set, in order. */
  ghost function Select<T>(items: seq<T>, flags: seq<bool>): seq<T>
    requires |items| == |flags|
  {
    if items == [] then []
    else
      var front := Select(items[..|items| - 1], flags[..|items| - 1]);
      if flags[|items| - 1] then front + [items[|items| - 1]] else front
  }

  lemma SelectStep<T>(items: seq<T>, i: nat, flags: seq<bool>, flag: bool)
    requires i < |items| && |flags| == i
    ensures Select(items[..i + 1], flags + [flag])
         == if flag then Select(items[..i], flags) + [items[i]] else Select(items[..i], flags)
  {
    assert items[..i + 1][..i] == items[..i] && (flags + [flag])[..i] == flags;
  }

  /** The items whose result is true, or the first failure. */
  ghost function Kept<T>(items: seq<T>, rs: seq<Result<bool, EvalError>>): Result<seq<T>, EvalError>
    requires |items| == |rs|
  {
    match Sequence(rs)
    case Failure(e) => Failure(e)
    case Success(flags) => SequenceMeaning(rs); Success(Select(items, flags))
  }

  lemma KeptNone<T>()
    ensures Kept<T>([], []) == Success([])
  {
  }

  lemma KeptStep<T>(items: seq<T>, rs: seq<Result<bool, EvalError>>, i: nat, out: seq<T>)
    requires |items| == |rs| && i < |rs| && Kept(items[..i], rs[..i]) == Success(out)
    ensures rs[i].Failure? ==> Kept(items, rs) == Failure(rs[i].error)
    ensures rs[i].Success? ==>
              Kept(items[..i + 1], rs[..i + 1]) == Success(if rs[i].value then out + [items[i]] else out)
  {
    SequenceStep(rs, i);
    if rs[i].Success? {
      SequenceMeaning(rs[..i]);
      SelectStep(items, i, Sequence(rs[..i]).value, rs[i].value);
    }
  }

  ghost function KeepList(e: Expr, xs: seq<Value>, scope: Scope, w: World): seq<Result<bool, EvalError>> {
    seq(|xs|, i requires 0 <= i < |xs| => Keep(e, ListBindings(xs[i], i), scope, w))
  }

  ghost function KeepMap(e: Expr, m: Data, scope: Scope, w: World): seq<Result<bool, EvalError>> {
    var keys := Listing(m.Keys);
    seq(|keys|, i requires 0 <= i < |keys| => assert keys[i] in keys; Keep(e, MapBindings(m[keys[i]], keys[i]), scope, w))
  }

  ghost function Restrict(m: Data, ks: set<string>): Data {
    map k | k in m && k in ks :: m[k]
  }

  ghost function ToSet(ks: seq<string>): set<string> {
    set k | k in ks
  }

  ghost function Filtered(e: Expr, from: string, scope: Scope, w: World): Result<Value, EvalError> {
    if from !in scope.outputs then Failure(NotDefined(from))
    else
      match scope.outputs[from]
      case Leaf(_) => Failure(NotACollection(from))
      case List(xs) =>
        (match Kept(xs, KeepList(e, xs, scope, w))
         case Failure(err) => Failure(err)
         case Success(kept) => Success(List(kept)))
      case Map(m) =>
        (match Kept(Listing(m.Keys), KeepMap(e, m, scope, w))
         case Failure(err) => Failure(err)
         case Success(kept) => Success(Map(Restrict(m, ToSet(kept)))))
  }

  method EvalFilterList(e: Expr, xs: seq<Value>, scope: Scope, w: World) returns (r: Result<seq<Value>, EvalError>)
    ensures r == Kept(xs, KeepList(e, xs, scope, w))
  {
    hide Kept;
    ghost var rs := KeepList(e, xs, scope, w);
    KeptNone<Value>();
    assert xs[..0] == [] && rs[..0] == [];
    var out: seq<Value> := [];
    for i := 0 to |xs|
      invariant Kept(xs[..i], rs[..i]) == Success(out)
    {
      KeptStep(xs, rs, i, out);
      var keep := EvalPredicate(e, ListBindings(xs[i], i), scope, w);
      assert rs[i] == keep;
      if keep.Failure? {
        return Failure(keep.error);
      }
      if keep.value {
        out := out + [xs[i]];
      }
    }
    assert xs[..|xs|] == xs && rs[..|xs|] == rs;
    return Success(out);
  }

  lemma RestrictNone(m: Data)
    ensures Restrict(m, ToSet([])) == map[]
  {
  }

  lemma RestrictAdd(m: Data, ks: seq<string>, key: string)
    requires key in m
    ensures Restrict(m, ToSet(ks + [key])) == Restrict(m, ToSet(ks))[key := m[key]]
  {
  }

  method EvalFilterMap(e: Expr, m: Data, scope: Scope, w: World) returns (r: Result<Data, EvalError>)
    ensures match Kept(Listing(m.Keys), KeepMap(e, m, scope, w))
            case Failure(err) => r == Failure(err)
            case Success(kept) => r == Success(Restrict(m, ToSet(kept)))
  {
    hide Kept, Restrict;
    ghost var rs := KeepMap(e, m, scope, w);
    ghost var kept: seq<string> := [];
    var keys := SortedKeys(m);
    KeptNone<string>();
    RestrictNone(m);
    assert keys[..0] == [] && rs[..0] == [];
    var out: Data := map[];
    for i := 0 to |keys|
      invariant Kept(keys[..i], rs[..i]) == Success(kept)
      invariant out == Restrict(m, ToSet(kept))
    {
      KeptStep(keys, rs, i, kept);
      var key := keys[i];
      assert key in keys;
      var keep := EvalPredicate(e, MapBindings(m[key], key), scope, w);
      assert rs[i] == keep;
      if keep.Failure? {
        return Failure(keep.error);
      }
      if keep.value {
        RestrictAdd(m, kept, key);
        kept := kept + [key];
        out := out[key := m[key]];
      }
    }
    assert keys[..|keys|] == keys && rs[..|keys|] == rs;
    return Success(out);
  }

  method EvalFilter(e: Expr, from: string, scope: Scope, w: World) returns (r: Result<Value, EvalError>)
    ensures r == Filtered(e, from, scope, w)
  {
    if from !in scope.outputs {
      return Failure(NotDefined(from));
    }
    match scope.outputs[from] {
      case List(xs) =>
        var out := EvalFilterList(e, xs, scope, w);
        return if out.Failure? then Failure(out.error) else Success(List(out.value));
      case Map(m) =>
        var out := EvalFilterMap(e, m, scope, w);
        return if out.Failure? then Failure(out.error) else Success(Map(out.value));
      case Leaf(_) =>
        return Failure(NotACollection(from));
    }
  }

  // --------------------------------------------------------------------- map

  ghost function NewList(e: Expr, xs: seq<Value>, scope: Scope, w: World): seq<Result<Value, EvalError>> {
    seq(|xs|, i requires 0 <= i < |xs| => NewItem(e, ListBindings(xs[i], i), scope, w))
  }

  ghost function NewEntries(e: Expr, m: Data, scope: Scope, w: World): seq<Result<Value, EvalError>> {
    var keys := Listing(m.Keys);
    seq(|keys|, i requires 0 <= i < |keys| => assert keys[i] in keys; NewItem(e, MapBindings(m[keys[i]], keys[i]), scope, w))
  }

  /** The map that gives keys[i] the value vs[i]. */
  ghost function Zip(keys: seq<string>, vs: seq<Value>): Data
    requires |keys| == |vs|
  {
    if keys == [] then map[]
    else Zip(keys[..|keys| - 1], vs[..|keys| - 1])[keys[|keys| - 1] := vs[|keys| - 1]]
  }

  ghost function ZipAll(keys: seq<string>, rs: seq<Result<Value, EvalError>>): Result<Data, EvalError>
    requires |keys| == |rs|
  {
    match Sequence(rs)
    case Failure(e) => Failure(e)
    case Success(vs) => SequenceMeaning(rs); Success(Zip(keys, vs))
  }

  lemma ZipStep(keys: seq<string>, rs: seq<Result<Value, EvalError>>, i: nat, out: Data)
    requires |keys| == |rs| && i < |rs| && ZipAll(keys[..i], rs[..i]) == Success(out)
    ensures rs[i].Failure? ==> ZipAll(keys, rs) == Failure(rs[i].error)
    ensures rs[i].Success? ==> ZipAll(keys[..i + 1], rs[..i + 1]) == Success(out[keys[i] := rs[i].value])
  {
    SequenceStep(rs, i);
    if rs[i].Success? {
      SequenceMeaning(rs[..i]);
      var vs := Sequence(rs[..i]).value;
      assert keys[..i + 1][..i] == keys[..i] && (vs + [rs[i].value])[..i] == vs;
    }
  }

  lemma ZipNone()
    ensures ZipAll([], []) == Success(map[])
  {
  }

  ghost function Mapped(e: Expr, from: string, scope: Scope, w: World): Result<Value, EvalError> {
    if from !in scope.outputs then Failure(NotDefined(from))
    else
      match scope.outputs[from]
      case Leaf(_) => Failure(NotACollection(from))
      case List(xs) =>
        (match Sequence(NewList(e, xs, scope, w))
         case Failure(err) => Failure(err)
         case Success(vs) => Success(List(vs)))
      case Map(m) =>
        (match ZipAll(Listing(m.Keys), NewEntries(e, m, scope, w))
         case Failure(err) => Failure(err)
         case Success(out) => Success(Map(out)))
  }

  /** mapStep.renderItem. */
  method DecodeItem(e: Expr, bindings: Data, scope: Scope, w: World) returns (r: Result<Value, EvalError>)
    ensures r == NewItem(e, bindings, scope, w)
  {
    var raw := RenderItem(e, bindings, scope, w);
    if raw.Failure? {
      return Failure(raw.error);
    }
    var v := w.decode(raw.value);
    return if v.None? then Failure(Undecodable) else Success(v.value);
  }

  method EvalMapList(e: Expr, xs: seq<Value>, scope: Scope, w: World) returns (r: Result<seq<Value>, EvalError>)
    ensures r == Sequence(NewList(e, xs, scope, w))
  {
    ghost var rs := NewList(e, xs, scope, w);
    var out: seq<Value> := [];
    for i := 0 to |xs|
      invariant Yields(rs, i, out)
    {
      var val := DecodeItem(e, ListBindings(xs[i], i), scope, w);
      assert rs[i] == val;
      if val.Failure? {
        FirstFailure(rs, i, out);
        return Failure(val.error);
      }
      out := out + [val.value];
    }
    NoFailure(rs, out);
    return Success(out);
  }

  method EvalMapMap(e: Expr, m: Data, scope: Scope, w: World) returns (r: Result<Data, EvalError>)
    ensures r == ZipAll(Listing(m.Keys), NewEntries(e, m, scope, w))
  {
    hide ZipAll;
    ghost var rs := NewEntries(e, m, scope, w);
    var keys := SortedKeys(m);
    ZipNone();
    assert keys[..0] == [] && rs[..0] == [];
    var out: Data := map[];
    for i := 0 to |keys|
      invariant ZipAll(keys[..i], rs[..i]) == Success(out)
    {
      ZipStep(keys, rs, i, out);
      var key := keys[i];
      assert key in keys;
      var val := DecodeItem(e, MapBindings(m[key], key), scope, w);
      assert rs[i] == val;
      if val.Failure? {
        return Failure(val.error);
      }
      out := out[key := val.value];
    }
    assert keys[..|keys|] == keys && rs[..|keys|] == rs;
    return Success(out);
  }

  method EvalMap(e: Expr, from: string, scope: Scope, w: World) returns (r: Result<Value, EvalError>)
    ensures r == Mapped(e, from, scope, w)
  {
    if from !in scope.outputs {
      return Failure(NotDefined(from));
    }
    match scope.outputs[from] {
      case List(xs) =>
        var out := EvalMapList(e, xs, scope, w);
        return if out.Failure? then Failure(out.error) else Success(List(out.value));
      case Map(m) =>
        var out := EvalMapMap(e, m, scope, w);
        return if out.Failure? then Failure(out.error) else Success(Map(out.value));
      case Leaf(_) =>
        return Failure(NotACollection(from));
    }
  }

  // ------------------------------------------------------------------- group

  ghost function GroupKeys(e: Expr, xs: seq<Value>, scope: Scope, w: World): seq<Result<string, EvalError>> {
    seq(|xs|, i requires 0 <= i < |xs| => KeyFor(e, ListBindings(xs[i], i), scope, w))
  }

  /** The items with the given key, in input order. */
  ghost function Bucket(xs: seq<Value>, keys: seq<string>, key: string): seq<Value>
    requires |xs| == |keys|
  {
    Select(xs, seq(|keys|, i requires 0 <= i < |keys| => keys[i] == key))
  }

  ghost function Buckets(xs: seq<Value>, keys: seq<string>): Data
    requires |xs| == |keys|
  {
    map k | k in keys :: List(Bucket(xs, keys, k))
  }

  /** The items in buckets by key, or the first key that fails. */
  ghost function Bucketed(xs: seq<Value>, rs: seq<Result<string, EvalError>>): Result<Data, EvalError>
    requires |xs| == |rs|
  {
    match Sequence(rs)
    case Failure(err) => Failure(err)
    case Success(keys) => SequenceMeaning(rs); Success(Buckets(xs, keys))
  }

  ghost function Grouped(e: Expr, from: string, scope: Scope, w: World): Result<Value, EvalError> {
    if from !in scope.outputs then Failure(NotDefined(from))
    else if !scope.outputs[from].List? then Failure(NotAList(from))
    else
      var xs := scope.outputs[from].items;
      match Bucketed(xs, GroupKeys(e, xs, scope, w))
      case Failure(err) => Failure(err)
      case Success(out) => Success(Map(out))
  }

  /** keyExprEvaluator.eval. */
  method EvalKey(e: Expr, bindings: Data, scope: Scope, w: World) returns (r: Result<string, EvalError>)
    ensures r == KeyFor(e, bindings, scope, w)
  {
    var raw := RenderItem(e, bindings, scope, w);
    if raw.Failure? {
      return Failure(raw.error);
    }
    var out := TrimSpace(raw.value);
    return if out == "" then Failure(EmptyKey) else Success(out);
  }

  lemma BucketStep(xs: seq<Value>, keys: seq<string>, x: Value, key: string, k: string)
    requires |xs| == |keys|
    ensures Bucket(xs + [x], keys + [key], k) == if k == key then Bucket(xs, keys, k) + [x] else Bucket(xs, keys, k)
  {
    var flags := seq(|keys| + 1, i requires 0 <= i < |keys| + 1 => (keys + [key])[i] == k);
    assert flags[..|keys|] == seq(|keys|, i requires 0 <= i < |keys| => keys[i] == k);
    assert (xs + [x])[..|xs|] == xs;
  }

  lemma {:induction false} BucketOfAbsentKey(xs: seq<Value>, keys: seq<string>, k: string)
    requires |xs| == |keys| && k !in keys
    ensures Bucket(xs, keys, k) == []
  {
    if xs != [] {
      var n := |xs| - 1;
      assert xs == xs[..n] + [xs[n]] && keys == keys[..n] + [keys[n]];
      BucketStep(xs[..n], keys[..n], xs[n], keys[n], k);
      BucketOfAbsentKey(xs[..n], keys[..n], k);
    }
  }

  function AddToBucket(result: Data, key: string, x: Value): Data {
    var bucket := if key in result && result[key].List? then result[key].items else [];
    result[key := List(bucket + [x])]
  }

  /** Appending an item to its bucket, creating the bucket if there is none. */
  lemma BucketsStep(xs: seq<Value>, keys: seq<string>, x: Value, key: string)
    requires |xs| == |keys|
    ensures Buckets(xs + [x], keys + [key]) == AddToBucket(Buckets(xs, keys), key, x)
  {
    forall k | k in keys + [key]
      ensures Bucket(xs + [x], keys + [key], k) == if k == key then Bucket(xs, keys, k) + [x] else Bucket(xs, keys, k)
    {
      BucketStep(xs, keys, x, key, k);
    }
    if key !in keys {
      BucketOfAbsentKey(xs, keys, key);
    }
  }

  lemma BucketedNone()
    ensures Bucketed([], []) == Success(map[])
  {
  }

  lemma BucketedStep(xs: seq<Value>, rs: seq<Result<string, EvalError>>, i: nat, out: Data)
    requires |xs| == |rs| && i < |rs| && Bucketed(xs[..i], rs[..i]) == Success(out)
    ensures rs[i].Failure? ==> Bucketed(xs, rs) == Failure(rs[i].error)
    ensures rs[i].Success? ==> Bucketed(xs[..i + 1], rs[..i + 1]) == Success(AddToBucket(out, rs[i].value, xs[i]))
  {
    hide Buckets, AddToBucket;
    SequenceStep(rs, i);
    if rs[i].Success? {
      SequenceMeaning(rs[..i]);
      assert xs[..i + 1] == xs[..i] + [xs[i]];
      BucketsStep(xs[..i], Sequence(rs[..i]).value, xs[i], rs[i].value);
    }
  }

  method EvalGroupList(e: Expr, list: seq<Value>, scope: Scope, w: World) returns (r: Result<Data, EvalError>)
    ensures r == Bucketed(list, GroupKeys(e, list, scope, w))
  {
    hide Bucketed, AddToBucket;
    ghost var rs := GroupKeys(e, list, scope, w);
    BucketedNone();
    assert list[..0] == [] && rs[..0] == [];
    var result: Data := map[];
    for i := 0 to |list|
      invariant Bucketed(list[..i], rs[..i]) == Success(result)
    {
      BucketedStep(list, rs, i, result);
      var key := EvalKey(e, ListBindings(list[i], i), scope, w);
      assert rs[i] == key;
      if key.Failure? {
        return Failure(key.error);
      }
      result := AddToBucket(result, key.value, list[i]);
    }
    assert list[..|list|] == list && rs[..|list|] == rs;
    return Success(result);
  }

  method EvalGroup(e: Expr, from: string, scope: Scope, w: World) returns (r: Result<Value, EvalError>)
    ensures r == Grouped(e, from, scope, w)
  {
    if from !in scope.outputs {
      return Failure(NotDefined(from));
    }
    if !scope.outputs[from].List? {
      return Failure(NotAList(from));
    }
    var out := EvalGroupList(e, scope.outputs[from].items, scope, w);
    return if out.Failure? then Failure(out.error) else Success(Map(out.value));
  }

  // -------------------------------------------------------------------- load

  function ReadOne(w: World, dir: string, rel: string, format: string): Result<Value, EvalError> {
    match w.readDecode(dir, rel, format)
    case Failure(e) => Failure(File(e))
    case Success(v) => Success(v)
  }

  ghost function ReadAll(w: World, dir: string, matches: seq<string>, format: string): seq<Result<Value, EvalError>> {
    seq(|matches|, i requires 0 <= i < |matches| => ReadOne(w, dir, matches[i], format))
  }

  ghost function PathKeys(e: Expr, matches: seq<string>, scope: Scope, w: World): seq<Result<string, EvalError>> {
    seq(|matches|, i requires 0 <= i < |matches| => KeyFor(e, PathBindings(matches[i]), scope, w))
  }

  /** The values under their keys; the first bad or repeated key stops it. */
  ghost function Keyed(keys: seq<Result<string, EvalError>>, vs: seq<Value>): Result<Data, EvalError>
    requires |keys| == |vs|
  {
    if keys == [] then Success(map[])
    else
      var n := |keys| - 1;
      match Keyed(keys[..n], vs[..n])
      case Failure(err) => Failure(err)
      case Success(m) =>
        match keys[n]
        case Failure(err) => Failure(err)
        case Success(key) => if key in m then Failure(DuplicateKey(key)) else Success(m[key := vs[n]])
  }

  ghost function Shaped(key: Option<Expr>, matches: seq<string>, vs: seq<Value>, scope: Scope, w: World)
    : Result<Value, EvalError>
    requires |matches| == |vs|
  {
    if key.None? then Success(List(vs))
    else
      match Keyed(PathKeys(key.value, matches, scope, w), vs)
      case Failure(err) => Failure(err)
      case Success(m) => Success(Map(m))
  }

  ghost function Loaded(s: Step, scope: Scope, w: World): Result<Value, EvalError>
    requires s.Load?
  {
    if s.alias !in scope.sources then Failure(NoArtifact(s.alias))
    else
      var dir := scope.sources[s.alias];
      match w.expand(dir, s.pattern)
      case Failure(e) => Failure(File(e))
      case Success(matches) =>
        if !HasGlobMeta(s.pattern) then
          if |matches| != 1 then Failure(NotOneFile) else ReadOne(w, dir, matches[0], s.format)
        else
          match Sequence(ReadAll(w, dir, matches, s.format))
          case Failure(err) => Failure(err)
          case Success(vs) => SequenceMeaning(ReadAll(w, dir, matches, s.format)); Shaped(s.loadKey, matches, vs, scope, w)
  }

  lemma {:induction false} KeyedFailureSticks(keys: seq<Result<string, EvalError>>, vs: seq<Value>, n: nat)
    requires |keys| == |vs| && n <= |keys| && Keyed(keys[..n], vs[..n]).Failure?
    ensures Keyed(keys, vs) == Keyed(keys[..n], vs[..n])
    decreases |keys|
  {
    if n == |keys| {
      assert keys[..n] == keys && vs[..n] == vs;
    } else {
      var k := |keys| - 1;
      assert keys[..k][..n] == keys[..n] && vs[..k][..n] == vs[..n];
      KeyedFailureSticks(keys[..k], vs[..k], n);
    }
  }

  lemma KeyedStep(keys: seq<Result<string, EvalError>>, vs: seq<Value>, i: nat)
    requires |keys| == |vs| && i < |keys| && Keyed(keys[..i], vs[..i]).Success?
    ensures var m, key := Keyed(keys[..i], vs[..i]).value, keys[i];
            && (key.Failure? ==> Keyed(keys, vs) == Failure(key.error))
            && (key.Success? && key.value in m ==> Keyed(keys, vs) == Failure(DuplicateKey(key.value)))
            && (key.Success? && key.value !in m ==> Keyed(keys[..i + 1], vs[..i + 1]) == Success(m[key.value := vs[i]]))
  {
    assert keys[..i + 1][..i] == keys[..i] && vs[..i + 1][..i] == vs[..i];
    if Keyed(keys[..i + 1], vs[..i + 1]).Failure? {
      KeyedFailureSticks(keys, vs, i + 1);
    }
  }

  method ShapeAsMap(e: Expr, matches: seq<string>, vs: seq<Value>, scope: Scope, w: World)
    returns (r: Result<Data, EvalError>)
    requires |matches| == |vs|
    ensures r == Keyed(PathKeys(e, matches, scope, w), vs)
  {
    ghost var keys := PathKeys(e, matches, scope, w);
    var result: Data := map[];
    for i := 0 to |matches|
      invariant Keyed(keys[..i], vs[..i]) == Success(result)
    {
      KeyedStep(keys, vs, i);
      var key := EvalKey(e, PathBindings(matches[i]), scope, w);
      if key.Failure? {
        return Failure(key.error);
      }
      if key.value in result {
        return Failure(DuplicateKey(key.value));
      }
      result := result[key.value := vs[i]];
    }
    assert keys[..|matches|] == keys && vs[..|vs|] == vs;
    return Success(result);
  }

  method ReadMatches(dir: string, matches: seq<string>, format: string, w: World) returns (r: Result<seq<Value>, EvalError>)
    ensures r == Sequence(ReadAll(w, dir, matches, format))
    ensures r.Success? ==> |r.value| == |matches|
  {
    ghost var rs := ReadAll(w, dir, matches, format);
    var items: seq<Value> := [];
    for i := 0 to |matches|
      invariant Yields(rs, i, items)
    {
      var v := ReadOne(w, dir, matches[i], format);
      assert rs[i] == v;
      if v.Failure? {
        FirstFailure(rs, i, items);
        return Failure(v.error);
      }
      items := items + [v.value];
    }
    NoFailure(rs, items);
    return Success(items);
  }

  method EvalLoad(s: Step, scope: Scope, w: World) returns (r: Result<Value, EvalError>)
    requires s.Load?
    ensures r == Loaded(s, scope, w)
  {
    if s.alias !in scope.sources {
      return Failure(NoArtifact(s.alias));
    }
    var srcDir := scope.sources[s.alias];
    var matches := w.expand(srcDir, s.pattern);
    if matches.Failure? {
      return Failure(File(matches.error));
    }
    if !HasGlobMeta(s.pattern) {
      return if |matches.value| != 1 then Failure(NotOneFile) else ReadOne(w, srcDir, matches.value[0], s.format);
    }
    var items := ReadMatches(srcDir, matches.value, s.format, w);
    if items.Failure? {
      return Failure(items.error);
    }
    if s.loadKey.Some? {
      var result := ShapeAsMap(s.loadKey.value, matches.value, items.value, scope, w);
      return if result.Failure? then Failure(result.error) else Success(Map(result.value));
    }
    return Success(List(items.value));
  }

  // ------------------------------------------------------------------- merge

  function MergeInput(outputs: Data, name: string): Result<Value, EvalError> {
    if name !in outputs then Failure(NotDefined(name))
    else if !outputs[name].Map? then Failure(NotAMap(name))
    else Success(outputs[name])
  }

  ghost function MergeInputs(sources: seq<string>, scope: Scope): seq<Result<Value, EvalError>> {
    seq(|sources|, i requires 0 <= i < |sources| => MergeInput(scope.outputs, sources[i]))
  }

  ghost function Merged(sources: seq<string>, scope: Scope): Result<Value, EvalError> {
    match Sequence(MergeInputs(sources, scope))
    case Failure(err) => Failure(err)
    case Success(vs) => Success(Fold(EMPTY, vs))
  }

  method EvalMerge(sources: seq<string>, scope: Scope) returns (r: Result<Value, EvalError>)
    ensures r == Merged(sources, scope)
  {
    ghost var rs := MergeInputs(sources, scope);
    ghost var vs: seq<Value> := [];
    var acc := EMPTY;
    for i := 0 to |sources|
      invariant Yields(rs, i, vs)
      invariant acc == Fold(EMPTY, vs)
    {
      var val := MergeInput(scope.outputs, sources[i]);
      assert rs[i] == val;
      if val.Failure? {
        FirstFailure(rs, i, vs);
        return Failure(val.error);
      }
      assert (vs + [val.value])[..|vs|] == vs;
      acc, vs := Merge(acc, val.value), vs + [val.value];
    }
    NoFailure(rs, vs);
    return Success(acc);
  }

  // --------------------------------------------------------------------- run

  ghost function StepValue(s: Step, scope: Scope, w: World): Result<Value, EvalError> {
    match s
    case Load(_, _, _, _, _) => Loaded(s, scope, w)
    case Filter(_, from, e) => Filtered(e, from, scope, w)
    case MapEach(_, from, e) => Mapped(e, from, scope, w)
    case Group(_, from, e) => Grouped(e, from, scope, w)
    case MergeAll(_, sources) => Merged(sources, scope)
  }

  method EvalStep(s: Step, scope: Scope, w: World) returns (r: Result<Value, EvalError>)
    ensures r == StepValue(s, scope, w)
  {
    match s {
      case Load(_, _, _, _, _) => r := EvalLoad(s, scope, w);
      case Filter(_, from, e) => r := EvalFilter(e, from, scope, w);
      case MapEach(_, from, e) => r := EvalMap(e, from, scope, w);
      case Group(_, from, e) => r := EvalGroup(e, from, scope, w);
      case MergeAll(_, sources) => r := EvalMerge(sources, scope);
    }
  }

  /** How a step turns the outputs so far into its own. */
  type Evaluator = (Step, Data) -> Result<Value, EvalError>

  ghost function EvaluatorFor(sources: map<string, string>, values: Value, w: World): Evaluator {
    (s: Step, outputs: Data) => StepValue(s, Scope(sources, values, outputs), w)
  }

  datatype RunFailure = RunFailure(step: string, error: EvalError)

  /** The outputs after all the steps, each evaluated on those of the steps
      before it, or the first failure. */
  ghost function Ran(steps: seq<Step>, f: Evaluator): Result<Data, RunFailure> {
    if steps == [] then Success(map[])
    else
      var s := steps[|steps| - 1];
      match Ran(steps[..|steps| - 1], f)
      case Failure(e) => Failure(e)
      case Success(outputs) =>
        match f(s, outputs)
        case Failure(e) => Failure(RunFailure(s.name, e))
        case Success(v) => Success(outputs[s.name := v])
  }

  lemma {:induction false} RunFailureSticks(steps: seq<Step>, n: nat, f: Evaluator)
    requires n <= |steps| && Ran(steps[..n], f).Failure?
    ensures Ran(steps, f) == Ran(steps[..n], f)
    decreases |steps|
  {
    if n == |steps| {
      assert steps[..n] == steps;
    } else {
      assert steps[..|steps| - 1][..n] == steps[..n];
      RunFailureSticks(steps[..|steps| - 1], n, f);
    }
  }

  /** Evaluator.Run. */
  method Run(steps: seq<Step>, sources: map<string, string>, values: Value, w: World) returns (r: Result<Data, RunFailure>)
    ensures r == Ran(steps, EvaluatorFor(sources, values, w))
  {
    ghost var f := EvaluatorFor(sources, values, w);
    var scope := Scope(sources, values, map[]);
    for i := 0 to |steps|
      invariant scope.sources == sources && scope.values == values
      invariant Ran(steps[..i], f) == Success(scope.outputs)
    {
      var val := EvalStep(steps[i], scope, w);
      assert steps[..i + 1][..i] == steps[..i];
      assert f(steps[i], scope.outputs) == val;
      if val.Failure? {
        RunFailureSticks(steps, i + 1, f);
        return Failure(RunFailure(steps[i].name, val.error));
      }
      scope := scope.(outputs := scope.outputs[steps[i].name := val.value]);
    }
    assert steps[..|steps|] == steps;
    return Success(scope.outputs);
  }
}
