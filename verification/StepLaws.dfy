/** What each verb makes of its input, as the documentation of the verbs has it:
    said of the rendered text of the items, of their positions and keys, and of
    what an item's fragment can see. Nothing here mentions the functions the
    evaluator is written with; the last theorem says that every step of every run
    means this. */
module StepLaws {
  import opened Wrappers
  import opened ValueTree
  import opened Strings
  import opened Templates
  import opened Pipeline
  import opened PipelineEval
  import opened PipelineRuns
  import opened CollectionLaws
  import opened Texts

  type Said = Result<string, TemplateError>

  type Outcome = Result<Value, EvalError>

  // --------------------------------------------------- what a fragment can see

  /** An item of a list, its position, .values and the outputs so far. */
  ghost function SeenInList(scope: Scope, item: Value, i: nat): Data {
    scope.outputs["values" := scope.values]["value" := item]["index" := Leaf(Number(i as real))]
  }

  /** An entry of a map, its key, .values and the outputs so far. */
  ghost function SeenInMap(scope: Scope, item: Value, key: string): Data {
    scope.outputs["values" := scope.values]["value" := item]["key" := Leaf(Text(key))]
  }

  /** The path of a loaded file, .values and the outputs so far. */
  ghost function SeenAtPath(scope: Scope, rel: string): Data {
    scope.outputs["values" := scope.values]["path" := Leaf(Text(rel))]
  }

  ghost function SaidInList(e: Expr, xs: seq<Value>, scope: Scope, w: World): seq<Said> {
    seq(|xs|, i requires 0 <= i < |xs| => Render(e, SeenInList(scope, xs[i], i), w.show))
  }

  ghost function SaidInMap(e: Expr, m: Data, keys: seq<string>, scope: Scope, w: World): seq<Said>
    requires forall k :: k in keys ==> k in m
  {
    seq(|keys|, i requires 0 <= i < |keys| =>
          assert keys[i] in keys; Render(e, SeenInMap(scope, m[keys[i]], keys[i]), w.show))
  }

  ghost function SaidAtPaths(e: Expr, paths: seq<string>, scope: Scope, w: World): seq<Said> {
    seq(|paths|, i requires 0 <= i < |paths| => Render(e, SeenAtPath(scope, paths[i]), w.show))
  }

  // ------------------------------------------------------- what one item yields

  ghost function Decision(said: Said): Result<bool, EvalError> {
    match said
    case Failure(err) => Failure(BadTemplate(err))
    case Success(text) =>
      if SaysYes(text) then Success(true) else if SaysNo(text) then Success(false) else Failure(NotBoolean)
  }

  ghost function Decoded(said: Said, decode: string -> Option<Value>): Outcome {
    match said
    case Failure(err) => Failure(BadTemplate(err))
    case Success(text) => if decode(text).Some? then Success(decode(text).value) else Failure(Undecodable)
  }

  ghost function KeyIn(said: Said): Result<string, EvalError> {
    match said
    case Failure(err) => Failure(BadTemplate(err))
    case Success(text) =>
      if AllWhite(text) then Failure(EmptyKey)
      else
        KeyExists(text);
        var key :| IsKey(text, key);
        Success(key)
  }

  lemma KeyExists(text: string)
    requires !AllWhite(text)
    ensures IsKey(text, TrimSpace(text)) && forall key :: IsKey(text, key) ==> key == TrimSpace(text)
  {
    TrimIsFramed(text);
    forall key
      ensures IsKey(text, key) <==> key != "" && TrimSpace(text) == key
    {
      TrimmedKey(text, key);
    }
  }

  ghost function Decisions(saids: seq<Said>): (ds: seq<Result<bool, EvalError>>)
    ensures |ds| == |saids|
  {
    seq(|saids|, i requires 0 <= i < |saids| => Decision(saids[i]))
  }

  ghost function AllDecoded(saids: seq<Said>, decode: string -> Option<Value>): (vs: seq<Outcome>)
    ensures |vs| == |saids|
  {
    seq(|saids|, i requires 0 <= i < |saids| => Decoded(saids[i], decode))
  }

  ghost function KeysIn(saids: seq<Said>): (ks: seq<Result<string, EvalError>>)
    ensures |ks| == |saids|
  {
    seq(|saids|, i requires 0 <= i < |saids| => KeyIn(saids[i]))
  }

  // ------------------------------------------------------ what a step amounts to

  /** The step succeeds if every item does, and otherwise fails as the first item
      that does not. */
  ghost predicate AllOrFirst<T>(items: seq<Result<T, EvalError>>, r: Outcome) {
    && (r.Success? <==> forall i :: 0 <= i < |items| ==> items[i].Success?)
    && (r.Failure? ==> FailsFirst(items, r.error))
  }

  ghost predicate FailsFirst<T>(items: seq<Result<T, EvalError>>, e: EvalError) {
    exists n :: 0 <= n < |items| && items[n] == Failure(e) && forall i :: 0 <= i < n ==> items[i].Success?
  }

  /** out is the subsequence of xs at the positions that are marked. */
  ghost predicate Subsequence(out: seq<Value>, xs: seq<Value>, marked: seq<bool>) {
    |marked| == |xs| && exists pos :: PicksExactly(out, xs, marked, pos)
  }

  ghost function Affirmed(ds: seq<Result<bool, EvalError>>): seq<bool> {
    seq(|ds|, i requires 0 <= i < |ds| => ds[i] == Success(true))
  }

  /** filter keeps the items whose text says yes: of a list in order, of a map
      under their keys. */
  ghost predicate FilterMeans(from: string, e: Expr, scope: Scope, w: World, r: Outcome) {
    if from !in scope.outputs then r == Failure(NotDefined(from))
    else
      match scope.outputs[from]
      case Leaf(_) => r == Failure(NotACollection(from))
      case List(xs) =>
        var ds := Decisions(SaidInList(e, xs, scope, w));
        AllOrFirst(ds, r) && (r.Success? ==> r.value.List? && Subsequence(r.value.items, xs, Affirmed(ds)))
      case Map(m) =>
        var keys := Listing(m.Keys);
        var ds := Decisions(SaidInMap(e, m, keys, scope, w));
        && AllOrFirst(ds, r)
        && (r.Success? ==>
              && r.value.Map?
              && (forall k :: k in r.value.entries ==> k in m && r.value.entries[k] == m[k])
              && forall i :: 0 <= i < |keys| ==> (keys[i] in r.value.entries <==> ds[i] == Success(true)))
  }

  /** map replaces every item by what its text decodes to. */
  ghost predicate MapMeans(from: string, e: Expr, scope: Scope, w: World, r: Outcome) {
    if from !in scope.outputs then r == Failure(NotDefined(from))
    else
      match scope.outputs[from]
      case Leaf(_) => r == Failure(NotACollection(from))
      case List(xs) =>
        var vs := AllDecoded(SaidInList(e, xs, scope, w), w.decode);
        && AllOrFirst(vs, r)
        && (r.Success? ==>
              && r.value.List? && |r.value.items| == |xs|
              && forall i :: 0 <= i < |xs| ==> vs[i] == Success(r.value.items[i]))
      case Map(m) =>
        var keys := Listing(m.Keys);
        var vs := AllDecoded(SaidInMap(e, m, keys, scope, w), w.decode);
        && AllOrFirst(vs, r)
        && (r.Success? ==>
              && r.value.Map? && r.value.entries.Keys == m.Keys
              && forall i :: 0 <= i < |keys| ==>
                               keys[i] in r.value.entries && vs[i] == Success(r.value.entries[keys[i]]))
  }

  /** group puts every item of a list into the bucket of its key, in order, and
      makes no other buckets. */
  ghost predicate GroupMeans(from: string, e: Expr, scope: Scope, w: World, r: Outcome) {
    if from !in scope.outputs then r == Failure(NotDefined(from))
    else if !scope.outputs[from].List? then r == Failure(NotAList(from))
    else
      var xs := scope.outputs[from].items;
      var ks := KeysIn(SaidInList(e, xs, scope, w));
      && AllOrFirst(ks, r)
      && (r.Success? ==>
            && r.value.Map?
            && (forall k :: k in r.value.entries <==> Success(k) in ks)
            && forall k :: k in r.value.entries ==>
                             && r.value.entries[k].List?
                             && Subsequence(r.value.entries[k].items, xs, WithKey(ks, k)))
  }

  ghost function WithKey(ks: seq<Result<string, EvalError>>, k: string): seq<bool> {
    seq(|ks|, i requires 0 <= i < |ks| => ks[i] == Success(k))
  }

  /** merge folds the named maps from left to right: at every path the last of
      them that touches it is seen, and without one there is only the root. */
  ghost predicate MergeMeans(sources: seq<string>, scope: Scope, r: Outcome) {
    var inputs := seq(|sources|, j requires 0 <= j < |sources| => Input(sources[j], scope.outputs));
    && AllOrFirst(inputs, r)
    && (r.Success? ==>
          var cs := seq(|inputs|, j requires 0 <= j < |inputs| =>
                          if inputs[j].Success? then inputs[j].value else EMPTY);
          forall p ::
            && (forall j: nat :: IsLastToucher(cs, p, j) ==> ShapeAt(r.value, p) == ShapeAt(cs[j], p))
            && (Untouched(cs, p) ==> ShapeAt(r.value, p) == ShapeAt(EMPTY, p)))
  }

  ghost function Input(name: string, outputs: Data): Outcome {
    if name !in outputs then Failure(NotDefined(name))
    else if outputs[name].Map? then Success(outputs[name])
    else Failure(NotAMap(name))
  }

  /** load reads the one file a plain path names; of a glob it reads every match,
      into a list in their order or under the keys of their paths. */
  ghost predicate LoadMeans(alias: string, pattern: string, format: string, key: Option<Expr>, scope: Scope, w: World,
                            r: Outcome)
  {
    if alias !in scope.sources then r == Failure(NoArtifact(alias))
    else
      var dir := scope.sources[alias];
      match w.expand(dir, pattern)
      case Failure(err) => r == Failure(File(err))
      case Success(matches) =>
        var contents := seq(|matches|, i requires 0 <= i < |matches| => ReadFile(w, dir, matches[i], format));
        if '*' !in pattern && '?' !in pattern && '[' !in pattern && '{' !in pattern then
          if |matches| == 1 then r == contents[0] else r == Failure(NotOneFile)
        else if r.Failure? && FailsFirst(contents, r.error) then true
        else
          && (forall i :: 0 <= i < |contents| ==> contents[i].Success?)
          && match key
             case None =>
               && r.Success? && r.value.List? && |r.value.items| == |contents|
               && forall i :: 0 <= i < |contents| ==> contents[i] == Success(r.value.items[i])
             case Some(e) =>
               KeyedMeans(KeysIn(SaidAtPaths(e, matches, scope, w)), contents, r)
  }

  ghost function ReadFile(w: World, dir: string, rel: string, format: string): Outcome {
    match w.readDecode(dir, rel, format)
    case Success(v) => Success(v)
    case Failure(err) => Failure(File(err))
  }

  /** A map with one entry per file; the first file without a key, or with the key
      of an earlier one, stops it. */
  ghost predicate KeyedMeans(ks: seq<Result<string, EvalError>>, contents: seq<Outcome>, r: Outcome)
    requires |ks| == |contents|
  {
    match r
    case Success(v) =>
      && Distinct(ks) && v.Map? && |v.entries| == |ks|
      && forall i :: 0 <= i < |ks| ==>
                       && ks[i].Success? && ks[i].value in v.entries
                       && contents[i] == Success(v.entries[ks[i].value])
    case Failure(err) =>
      exists n :: 0 <= n < |ks| && KeyFailsAt(ks, n, err)
  }

  ghost predicate KeyFailsAt(ks: seq<Result<string, EvalError>>, n: nat, err: EvalError)
    requires n < |ks|
  {
    && KeysSucceed(ks[..n]) && Distinct(ks[..n])
    && (ks[n] == Failure(err) || (ks[n].Success? && ks[n] in ks[..n] && err == DuplicateKey(ks[n].value)))
  }

  /** What a step means, verb by verb. */
  ghost predicate StepMeans(s: Step, scope: Scope, w: World, r: Outcome) {
    match s
    case Load(_, alias, pattern, format, key) => LoadMeans(alias, pattern, format, key, scope, w, r)
    case Filter(_, from, e) => FilterMeans(from, e, scope, w, r)
    case MapEach(_, from, e) => MapMeans(from, e, scope, w, r)
    case Group(_, from, e) => GroupMeans(from, e, scope, w, r)
    case MergeAll(_, sources) => MergeMeans(sources, scope, r)
  }

  // ------------------------------------------------------- the evaluator's verbs

  lemma {:induction false} FirstOfSequence<T>(rs: seq<Result<T, EvalError>>)
    requires Sequence(rs).Failure?
    ensures FailsFirst(rs, Sequence(rs).error)
  {
    var n := |rs| - 1;
    var front := rs[..n];
    assert forall i :: 0 <= i < n ==> front[i] == rs[i];
    if Sequence(front).Failure? {
      FirstOfSequence(front);
      var i :| 0 <= i < |front| && front[i] == Failure(Sequence(rs).error)
                  && forall j :: 0 <= j < i ==> front[j].Success?;
      assert rs[i] == Failure(Sequence(rs).error);
    } else {
      SequenceMeaning(front);
      assert rs[n] == Failure(Sequence(rs).error);
    }
  }

  /** A step that goes through its items in sequence does all or fails first. */
  lemma InSequence<T>(rs: seq<Result<T, EvalError>>, r: Outcome)
    requires match Sequence(rs) case Success(_) => r.Success? case Failure(err) => r == Failure(err)
    ensures AllOrFirst(rs, r)
  {
    SequenceMeaning(rs);
    if r.Failure? {
      FirstOfSequence(rs);
    }
  }

  lemma SeesListItem(item: Value, i: nat, scope: Scope)
    ensures Bound(ListBindings(item, i), scope) == SeenInList(scope, item, i)
  {
    SeesBoth(scope, "value", item, "index", Leaf(Number(i as real)));
  }

  lemma SeesMapItem(item: Value, key: string, scope: Scope)
    ensures Bound(MapBindings(item, key), scope) == SeenInMap(scope, item, key)
  {
    SeesBoth(scope, "value", item, "key", Leaf(Text(key)));
  }

  lemma SeesBoth(scope: Scope, n: string, v: Value, m: string, u: Value)
    ensures scope.outputs[VALUES_KEY := scope.values] + map[n := v, m := u]
         == scope.outputs["values" := scope.values][n := v][m := u]
  {
  }

  lemma SeesPath(rel: string, scope: Scope)
    ensures Bound(PathBindings(rel), scope) == SeenAtPath(scope, rel)
  {
  }

  lemma KeepIsDecision(e: Expr, bindings: Data, seen: Data, scope: Scope, w: World)
    requires Bound(bindings, scope) == seen
    ensures Keep(e, bindings, scope, w) == Decision(Render(e, seen, w.show))
    ensures NewItem(e, bindings, scope, w) == Decoded(Render(e, seen, w.show), w.decode)
    ensures KeyFor(e, bindings, scope, w) == KeyIn(Render(e, seen, w.show))
  {
    hide SaysYes, SaysNo, TruthyString, IsKey, TrimSpace, AllWhite;
    var said := Render(e, seen, w.show);
    if said.Success? {
      TruthyExactly(said.value);
      TrimIsFramed(said.value);
      if !AllWhite(said.value) {
        KeyExists(said.value);
      }
    }
  }

  lemma ListItems(e: Expr, xs: seq<Value>, scope: Scope, w: World)
    ensures var saids := SaidInList(e, xs, scope, w);
            && |saids| == |xs|
            && KeepList(e, xs, scope, w) == Decisions(saids)
            && NewList(e, xs, scope, w) == AllDecoded(saids, w.decode)
            && GroupKeys(e, xs, scope, w) == KeysIn(saids)
  {
    hide Keep, NewItem, KeyFor, Decision, Decoded, KeyIn, Bound, ListBindings, SeenInList;
    forall i: nat | i < |xs|
      ensures Keep(e, ListBindings(xs[i], i), scope, w) == Decision(Render(e, SeenInList(scope, xs[i], i), w.show))
      ensures NewItem(e, ListBindings(xs[i], i), scope, w)
           == Decoded(Render(e, SeenInList(scope, xs[i], i), w.show), w.decode)
      ensures KeyFor(e, ListBindings(xs[i], i), scope, w) == KeyIn(Render(e, SeenInList(scope, xs[i], i), w.show))
    {
      SeesListItem(xs[i], i, scope);
      KeepIsDecision(e, ListBindings(xs[i], i), SeenInList(scope, xs[i], i), scope, w);
    }
  }

  lemma MapItems(e: Expr, m: Data, scope: Scope, w: World)
    ensures var saids := SaidInMap(e, m, Listing(m.Keys), scope, w);
            && |saids| == |Listing(m.Keys)|
            && KeepMap(e, m, scope, w) == Decisions(saids)
            && NewEntries(e, m, scope, w) == AllDecoded(saids, w.decode)
  {
    hide Keep, NewItem, Decision, Decoded, Bound, MapBindings, SeenInMap;
    var keys := Listing(m.Keys);
    forall i | 0 <= i < |keys|
      ensures keys[i] in m
      ensures Keep(e, MapBindings(m[keys[i]], keys[i]), scope, w)
           == Decision(Render(e, SeenInMap(scope, m[keys[i]], keys[i]), w.show))
      ensures NewItem(e, MapBindings(m[keys[i]], keys[i]), scope, w)
           == Decoded(Render(e, SeenInMap(scope, m[keys[i]], keys[i]), w.show), w.decode)
    {
      assert keys[i] in keys;
      SeesMapItem(m[keys[i]], keys[i], scope);
      KeepIsDecision(e, MapBindings(m[keys[i]], keys[i]), SeenInMap(scope, m[keys[i]], keys[i]), scope, w);
    }
  }

  lemma PathItems(e: Expr, paths: seq<string>, scope: Scope, w: World)
    ensures |PathKeys(e, paths, scope, w)| == |paths|
    ensures PathKeys(e, paths, scope, w) == KeysIn(SaidAtPaths(e, paths, scope, w))
  {
    hide KeyFor, KeyIn, Bound, PathBindings, SeenAtPath;
    forall i | 0 <= i < |paths|
      ensures KeyFor(e, PathBindings(paths[i]), scope, w) == KeyIn(Render(e, SeenAtPath(scope, paths[i]), w.show))
    {
      SeesPath(paths[i], scope);
      KeepIsDecision(e, PathBindings(paths[i]), SeenAtPath(scope, paths[i]), scope, w);
    }
  }

  // ------------------------------------------------------------------- filter

  lemma KeptIsSubsequence(xs: seq<Value>, ds: seq<Result<bool, EvalError>>, r: Outcome)
    requires |xs| == |ds|
    requires match Kept(xs, ds)
             case Failure(err) => r == Failure(err)
             case Success(kept) => r == Success(List(kept))
    ensures AllOrFirst(ds, r) && (r.Success? ==> r.value.List? && Subsequence(r.value.items, xs, Affirmed(ds)))
  {
    hide AllOrFirst, PicksExactly, Select;
    SequenceMeaning(ds);
    InSequence(ds, r);
    if r.Success? {
      var flags := Sequence(ds).value;
      forall i | 0 <= i < |ds|
        ensures Affirmed(ds)[i] == flags[i]
      {
        assert ds[i] == Success(flags[i]);
      }
      assert Affirmed(ds) == flags;
      var pos := SelectPicksExactly(xs, flags);
    }
  }

  lemma KeptKeys(m: Data, ds: seq<Result<bool, EvalError>>, r: Outcome)
    requires |Listing(m.Keys)| == |ds|
    requires match Kept(Listing(m.Keys), ds)
             case Failure(err) => r == Failure(err)
             case Success(kept) => r == Success(Map(Restrict(m, ToSet(kept))))
    ensures AllOrFirst(ds, r)
    ensures r.Success? ==>
              && r.value.Map?
              && (forall k :: k in r.value.entries ==> k in m && r.value.entries[k] == m[k])
              && forall i :: 0 <= i < |ds| ==> (Listing(m.Keys)[i] in r.value.entries <==> ds[i] == Success(true))
  {
    hide AllOrFirst, Select;
    var keys := Listing(m.Keys);
    SequenceMeaning(ds);
    InSequence(ds, r);
    if r.Success? {
      var flags := Sequence(ds).value;
      var kept := Select(keys, flags);
      forall i | 0 <= i < |keys|
        ensures keys[i] in m && (keys[i] in kept <==> flags[i])
      {
        assert keys[i] in keys;
        SelectedKeys(keys, flags, i);
      }
    }
  }

  lemma SelectedKeys(keys: seq<string>, flags: seq<bool>, i: nat)
    requires Ascending(keys) && |flags| == |keys| && i < |keys|
    ensures keys[i] in Select(keys, flags) <==> flags[i]
  {
    hide Select, Ascending;
    var pos := SelectPicksExactly(keys, flags);
    if flags[i] {
      assert i in pos;
      var j :| 0 <= j < |pos| && pos[j] == i;
      assert Select(keys, flags)[j] == keys[i];
    } else if keys[i] in Select(keys, flags) {
      var j :| 0 <= j < |pos| && Select(keys, flags)[j] == keys[i];
      assert pos[j] in pos;
      SameKeySamePosition(keys, i, pos[j]);
    }
  }

  lemma FilterIsMeant(from: string, e: Expr, scope: Scope, w: World)
    ensures FilterMeans(from, e, scope, w, Filtered(e, from, scope, w))
  {
    hide KeepList, KeepMap, SaidInList, SaidInMap, Decisions, Affirmed, AllOrFirst, Kept, Subsequence, Listing, ToSet;
    if from in scope.outputs {
      match scope.outputs[from]
      case Leaf(_) =>
      case List(xs) =>
        ListItems(e, xs, scope, w);
        KeptIsSubsequence(xs, KeepList(e, xs, scope, w), Filtered(e, from, scope, w));
      case Map(m) =>
        MapItems(e, m, scope, w);
        KeptKeys(m, KeepMap(e, m, scope, w), Filtered(e, from, scope, w));
    }
  }

  // ---------------------------------------------------------------------- map

  lemma DecodedList(xs: seq<Value>, vs: seq<Outcome>, r: Outcome)
    requires |xs| == |vs|
    requires match Sequence(vs) case Failure(err) => r == Failure(err) case Success(out) => r == Success(List(out))
    ensures AllOrFirst(vs, r)
    ensures r.Success? ==>
              && r.value.List? && |r.value.items| == |xs|
              && forall i :: 0 <= i < |xs| ==> vs[i] == Success(r.value.items[i])
  {
    hide AllOrFirst;
    SequenceMeaning(vs);
    InSequence(vs, r);
  }

  lemma DecodedMap(m: Data, vs: seq<Outcome>, r: Outcome)
    requires |Listing(m.Keys)| == |vs|
    requires match ZipAll(Listing(m.Keys), vs)
             case Failure(err) => r == Failure(err)
             case Success(out) => r == Success(Map(out))
    ensures AllOrFirst(vs, r)
    ensures r.Success? ==>
              && r.value.Map? && r.value.entries.Keys == m.Keys
              && forall i :: 0 <= i < |vs| ==>
                               && Listing(m.Keys)[i] in r.value.entries
                               && vs[i] == Success(r.value.entries[Listing(m.Keys)[i]])
  {
    hide AllOrFirst, Zip;
    var keys := Listing(m.Keys);
    SequenceMeaning(vs);
    InSequence(vs, r);
    if r.Success? {
      ZipMeaning(keys, Sequence(vs).value);
      assert forall i :: 0 <= i < |keys| ==> keys[i] in keys;
    }
  }

  lemma MapIsMeant(from: string, e: Expr, scope: Scope, w: World)
    ensures MapMeans(from, e, scope, w, Mapped(e, from, scope, w))
  {
    hide NewList, NewEntries, SaidInList, SaidInMap, AllDecoded, AllOrFirst, ZipAll, Sequence;
    if from in scope.outputs {
      match scope.outputs[from]
      case Leaf(_) =>
      case List(xs) =>
        ListItems(e, xs, scope, w);
        DecodedList(xs, NewList(e, xs, scope, w), Mapped(e, from, scope, w));
      case Map(m) =>
        MapItems(e, m, scope, w);
        DecodedMap(m, NewEntries(e, m, scope, w), Mapped(e, from, scope, w));
    }
  }

  // -------------------------------------------------------------------- group

  lemma Grouping(xs: seq<Value>, ks: seq<Result<string, EvalError>>, r: Outcome)
    requires |xs| == |ks|
    requires match Bucketed(xs, ks) case Failure(err) => r == Failure(err) case Success(out) => r == Success(Map(out))
    ensures AllOrFirst(ks, r)
    ensures r.Success? ==>
              && r.value.Map?
              && (forall k :: k in r.value.entries <==> Success(k) in ks)
              && forall k :: k in r.value.entries ==>
                               && r.value.entries[k].List?
                               && Subsequence(r.value.entries[k].items, xs, WithKey(ks, k))
  {
    hide AllOrFirst, Subsequence, Bucket;
    SequenceMeaning(ks);
    InSequence(ks, r);
    if r.Success? {
      var keys := Sequence(ks).value;
      forall k
        ensures k in keys <==> Success(k) in ks
        ensures Subsequence(Bucket(xs, keys, k), xs, WithKey(ks, k))
      {
        if k in keys {
          var i :| 0 <= i < |keys| && keys[i] == k;
          assert ks[i] == Success(k);
        }
        if Success(k) in ks {
          var i :| 0 <= i < |ks| && ks[i] == Success(k);
          assert keys[i] == k;
        }
        BucketIsSubsequence(xs, ks, keys, k);
      }
    }
  }

  lemma BucketIsSubsequence(xs: seq<Value>, ks: seq<Result<string, EvalError>>, keys: seq<string>, k: string)
    requires |xs| == |ks| == |keys| && forall i :: 0 <= i < |ks| ==> ks[i] == Success(keys[i])
    ensures Subsequence(Bucket(xs, keys, k), xs, WithKey(ks, k))
  {
    hide PicksExactly, Select;
    var flags := seq(|keys|, i requires 0 <= i < |keys| => keys[i] == k);
    assert flags == WithKey(ks, k);
    var pos := SelectPicksExactly(xs, flags);
  }

  lemma GroupIsMeant(from: string, e: Expr, scope: Scope, w: World)
    ensures GroupMeans(from, e, scope, w, Grouped(e, from, scope, w))
  {
    hide GroupKeys, SaidInList, KeysIn, AllOrFirst, Bucketed, Subsequence, WithKey;
    if from in scope.outputs && scope.outputs[from].List? {
      var xs := scope.outputs[from].items;
      ListItems(e, xs, scope, w);
      Grouping(xs, GroupKeys(e, xs, scope, w), Grouped(e, from, scope, w));
    }
  }

  // -------------------------------------------------------------------- merge

  lemma MergeIsMeant(sources: seq<string>, scope: Scope)
    ensures MergeMeans(sources, scope, Merged(sources, scope))
  {
    hide AllOrFirst, Fold, Untouched, ShapeAt;
    var inputs := seq(|sources|, j requires 0 <= j < |sources| => Input(sources[j], scope.outputs));
    var r := Merged(sources, scope);
    assert MergeInputs(sources, scope) == inputs;
    SequenceMeaning(inputs);
    InSequence(inputs, r);
    if r.Success? {
      var vs := Sequence(inputs).value;
      assert vs == seq(|inputs|, j requires 0 <= j < |inputs| => if inputs[j].Success? then inputs[j].value else EMPTY);
      forall p
        ensures forall j: nat :: IsLastToucher(vs, p, j) ==> ShapeAt(r.value, p) == ShapeAt(vs[j], p)
        ensures Untouched(vs, p) ==> ShapeAt(r.value, p) == ShapeAt(EMPTY, p)
      {
        LastTouchWins(EMPTY, vs, p);
      }
    }
  }

  // --------------------------------------------------------------------- load

  lemma {:induction false} KeyedIsMeant(ks: seq<Result<string, EvalError>>, vs: seq<Value>, contents: seq<Outcome>,
                                        r: Outcome)
    requires |ks| == |vs| == |contents| && forall i :: 0 <= i < |vs| ==> contents[i] == Success(vs[i])
    requires match Keyed(ks, vs) case Failure(err) => r == Failure(err) case Success(m) => r == Success(Map(m))
    ensures KeyedMeans(ks, contents, r)
  {
    hide Keyed, Distinct;
    LoadAsMapIsBijection(ks, vs);
    if r.Failure? {
      KeyedFailsFirst(ks, vs);
    }
  }

  lemma {:induction false} KeyedFailsFirst(ks: seq<Result<string, EvalError>>, vs: seq<Value>)
    requires |ks| == |vs| && Keyed(ks, vs).Failure?
    ensures exists n :: 0 <= n < |ks| && KeyFailsAt(ks, n, Keyed(ks, vs).error)
  {
    hide Distinct;
    var n := |ks| - 1;
    LoadAsMapIsBijection(ks[..n], vs[..n]);
    if Keyed(ks[..n], vs[..n]).Failure? {
      KeyedFailsFirst(ks[..n], vs[..n]);
      var i :| 0 <= i < n && KeyFailsAt(ks[..n], i, Keyed(ks, vs).error);
      assert ks[..n][..i] == ks[..i];
      assert KeyFailsAt(ks, i, Keyed(ks, vs).error);
    } else {
      KeyedKeys(ks[..n], vs[..n]);
      assert KeyFailsAt(ks, n, Keyed(ks, vs).error);
    }
  }

  lemma Reading(w: World, dir: string, matches: seq<string>, format: string)
    ensures ReadAll(w, dir, matches, format)
         == seq(|matches|, i requires 0 <= i < |matches| => ReadFile(w, dir, matches[i], format))
  {
  }

  lemma GlobCharacters(pattern: string)
    ensures HasGlobMeta(pattern) <==> '*' in pattern || '?' in pattern || '[' in pattern || '{' in pattern
  {
    assert "*?[{" == ['*', '?', '[', '{'];
  }

  lemma LoadIsMeant(alias: string, pattern: string, format: string, key: Option<Expr>, s: Step, scope: Scope, w: World)
    requires s.Load? && s.alias == alias && s.pattern == pattern && s.format == format && s.loadKey == key
    ensures LoadMeans(alias, pattern, format, key, scope, w, Loaded(s, scope, w))
  {
    hide HasGlobMeta, KeyedMeans, KeysIn, SaidAtPaths, PathKeys, Keyed, ReadAll, ReadOne, ReadFile, FailsFirst;
    GlobCharacters(pattern);
    if alias in scope.sources && w.expand(scope.sources[alias], pattern).Success? {
      var dir := scope.sources[alias];
      var matches := w.expand(dir, pattern).value;
      var contents := ReadAll(w, dir, matches, format);
      Reading(w, dir, matches, format);
      ReadOneIsReadFile(w, dir, matches, format);
      SequenceMeaning(contents);
      if Sequence(contents).Failure? {
        FirstOfSequence(contents);
      } else if key.Some? {
        PathItems(key.value, matches, scope, w);
        if HasGlobMeta(pattern) {
          KeyedIsMeant(PathKeys(key.value, matches, scope, w), Sequence(contents).value, contents, Loaded(s, scope, w));
        }
      }
    }
  }

  lemma ReadOneIsReadFile(w: World, dir: string, matches: seq<string>, format: string)
    ensures forall i :: 0 <= i < |matches| ==>
                          ReadOne(w, dir, matches[i], format) == ReadFile(w, dir, matches[i], format)
    ensures |ReadAll(w, dir, matches, format)| == |matches|
  {
  }

  // --------------------------------------------------------------------- runs

  lemma StepIsMeant(s: Step, scope: Scope, w: World)
    ensures StepMeans(s, scope, w, StepValue(s, scope, w))
  {
    hide FilterMeans, MapMeans, GroupMeans, MergeMeans, LoadMeans, Filtered, Mapped, Grouped, Merged, Loaded;
    match s
    case Load(_, alias, pattern, format, key) => LoadIsMeant(alias, pattern, format, key, s, scope, w);
    case Filter(_, from, e) => FilterIsMeant(from, e, scope, w);
    case MapEach(_, from, e) => MapIsMeant(from, e, scope, w);
    case Group(_, from, e) => GroupIsMeant(from, e, scope, w);
    case MergeAll(_, sources) => MergeIsMeant(sources, scope);
  }

  /** In a run that succeeds every step has left, under its own name, what its verb
      means for the outputs of the steps before it, and there are no other outputs. */
  lemma EveryStepIsMeant(steps: seq<Step>, sources: map<string, string>, values: Value, w: World, outputs: Data, i: nat)
    requires Ran(steps, EvaluatorFor(sources, values, w)) == Success(outputs) && DistinctNames(steps)
    requires i < |steps|
    ensures outputs.Keys == set j | 0 <= j < |steps| :: steps[j].name
    ensures var before := map n | n in outputs && (exists j :: 0 <= j < i && steps[j].name == n) :: outputs[n];
            steps[i].name in outputs
            && StepMeans(steps[i], Scope(sources, values, before), w, Success(outputs[steps[i].name]))
  {
    hide StepMeans, StepValue, Ran;
    var f := EvaluatorFor(sources, values, w);
    var before := map n | n in outputs && (exists j :: 0 <= j < i && steps[j].name == n) :: outputs[n];
    assert steps[..|steps|] == steps;
    DomainIsPrefix(steps, |steps|, f);
    StepValueIsFinal(steps, i, f);
    assert before == Restrict(outputs, NamesOf(steps[..i])) by {
      assert forall j :: 0 <= j < i ==> steps[..i][j] == steps[j];
    }
    StepIsMeant(steps[i], Scope(sources, values, before), w);
    assert f(steps[i], before) == StepValue(steps[i], Scope(sources, values, before), w);
  }

  /** A run that fails has done the steps before the one it names, and fails as that
      step does on their outputs. */
  lemma {:induction false} FirstFailureIsMeant(steps: seq<Step>, sources: map<string, string>, values: Value, w: World)
    returns (i: nat, before: Data)
    requires Ran(steps, EvaluatorFor(sources, values, w)).Failure?
    ensures var err := Ran(steps, EvaluatorFor(sources, values, w)).error;
            && i < |steps| && steps[i].name == err.step
            && Ran(steps[..i], EvaluatorFor(sources, values, w)) == Success(before)
            && StepMeans(steps[i], Scope(sources, values, before), w, Failure(err.error))
  {
    hide StepMeans, StepValue;
    var f := EvaluatorFor(sources, values, w);
    var n := |steps| - 1;
    if Ran(steps[..n], f).Failure? {
      i, before := FirstFailureIsMeant(steps[..n], sources, values, w);
      assert steps[..n][..i] == steps[..i];
    } else {
      i, before := n, Ran(steps[..n], f).value;
      StepIsMeant(steps[n], Scope(sources, values, before), w);
      assert f(steps[n], before) == StepValue(steps[n], Scope(sources, values, before), w);
    }
  }
}
