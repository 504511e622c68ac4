/** The laws of compiled pipelines: a step's value depends only on the names it
    reads, nothing is read before it is defined, and the order of steps is
    immaterial as far as their data dependencies allow. */
module PipelineLaws {
  import opened Wrappers
  import opened ValueTree
  import opened Strings
  import opened Templates
  import opened Pipeline
  import opened PipelineEval
  import opened PipelineRuns

  // ------------------------------------------------------------------- frames

  /** Two scopes that differ at most in outputs outside ns. */
  ghost predicate SameView(s: Scope, t: Scope, ns: set<string>) {
    s.sources == t.sources && s.values == t.values && AgreeOn(s.outputs, t.outputs, ns)
  }

  lemma RenderedFrame(e: Expr, bindings: Data, s: Scope, t: Scope, w: World)
    requires SameView(s, t, Names(e) - bindings.Keys - {VALUES_KEY})
    ensures Rendered(e, bindings, s, w) == Rendered(e, bindings, t, w)
  {
    EvalFrame(e, Bound(bindings, s), Bound(bindings, t), w.show);
  }

  lemma KeepFrame(e: Expr, bindings: Data, s: Scope, t: Scope, w: World)
    requires SameView(s, t, Names(e) - bindings.Keys - {VALUES_KEY})
    ensures Keep(e, bindings, s, w) == Keep(e, bindings, t, w)
  {
    RenderedFrame(e, bindings, s, t, w);
  }

  lemma NewItemFrame(e: Expr, bindings: Data, s: Scope, t: Scope, w: World)
    requires SameView(s, t, Names(e) - bindings.Keys - {VALUES_KEY})
    ensures NewItem(e, bindings, s, w) == NewItem(e, bindings, t, w)
  {
    RenderedFrame(e, bindings, s, t, w);
  }

  lemma KeyForFrame(e: Expr, bindings: Data, s: Scope, t: Scope, w: World)
    requires SameView(s, t, Names(e) - bindings.Keys - {VALUES_KEY})
    ensures KeyFor(e, bindings, s, w) == KeyFor(e, bindings, t, w)
  {
    RenderedFrame(e, bindings, s, t, w);
  }

  lemma PathKeysFrame(e: Expr, matches: seq<string>, s: Scope, t: Scope, w: World)
    requires SameView(s, t, Names(e) - {"path", VALUES_KEY})
    ensures PathKeys(e, matches, s, w) == PathKeys(e, matches, t, w)
  {
    forall i | 0 <= i < |matches|
      ensures KeyFor(e, PathBindings(matches[i]), s, w) == KeyFor(e, PathBindings(matches[i]), t, w)
    {
      KeyForFrame(e, PathBindings(matches[i]), s, t, w);
    }
  }

  lemma KeepListFrame(e: Expr, xs: seq<Value>, s: Scope, t: Scope, w: World)
    requires SameView(s, t, Names(e) - {"value", "index", VALUES_KEY})
    ensures KeepList(e, xs, s, w) == KeepList(e, xs, t, w)
  {
    hide Keep;
    forall i | 0 <= i < |xs|
      ensures Keep(e, ListBindings(xs[i], i), s, w) == Keep(e, ListBindings(xs[i], i), t, w)
    {
      KeepFrame(e, ListBindings(xs[i], i), s, t, w);
    }
  }

  lemma NewListFrame(e: Expr, xs: seq<Value>, s: Scope, t: Scope, w: World)
    requires SameView(s, t, Names(e) - {"value", "index", VALUES_KEY})
    ensures NewList(e, xs, s, w) == NewList(e, xs, t, w)
  {
    hide NewItem;
    forall i | 0 <= i < |xs|
      ensures NewItem(e, ListBindings(xs[i], i), s, w) == NewItem(e, ListBindings(xs[i], i), t, w)
    {
      NewItemFrame(e, ListBindings(xs[i], i), s, t, w);
    }
  }

  lemma GroupKeysFrame(e: Expr, xs: seq<Value>, s: Scope, t: Scope, w: World)
    requires SameView(s, t, Names(e) - {"value", "index", VALUES_KEY})
    ensures GroupKeys(e, xs, s, w) == GroupKeys(e, xs, t, w)
  {
    forall i | 0 <= i < |xs|
      ensures KeyFor(e, ListBindings(xs[i], i), s, w) == KeyFor(e, ListBindings(xs[i], i), t, w)
    {
      KeyForFrame(e, ListBindings(xs[i], i), s, t, w);
    }
  }

  lemma KeepMapFrame(e: Expr, m: Data, s: Scope, t: Scope, w: World)
    requires SameView(s, t, Names(e) - {"value", "key", VALUES_KEY})
    ensures KeepMap(e, m, s, w) == KeepMap(e, m, t, w)
  {
    hide Keep;
    forall k | k in m
      ensures Keep(e, MapBindings(m[k], k), s, w) == Keep(e, MapBindings(m[k], k), t, w)
    {
      KeepFrame(e, MapBindings(m[k], k), s, t, w);
    }
    assert forall k :: k in Listing(m.Keys) ==> k in m;
  }

  lemma NewEntriesFrame(e: Expr, m: Data, s: Scope, t: Scope, w: World)
    requires SameView(s, t, Names(e) - {"value", "key", VALUES_KEY})
    ensures NewEntries(e, m, s, w) == NewEntries(e, m, t, w)
  {
    hide NewItem;
    forall k | k in m
      ensures NewItem(e, MapBindings(m[k], k), s, w) == NewItem(e, MapBindings(m[k], k), t, w)
    {
      NewItemFrame(e, MapBindings(m[k], k), s, t, w);
    }
    assert forall k :: k in Listing(m.Keys) ==> k in m;
  }

  lemma FilterFrame(e: Expr, from: string, s: Scope, t: Scope, w: World)
    requires SameView(s, t, {from} + (Names(e) - {"value", VALUES_KEY}))
    ensures Filtered(e, from, s, w) == Filtered(e, from, t, w)
  {
    hide KeepList, KeepMap, Kept, Restrict;
    if from in s.outputs {
      match s.outputs[from]
      case Leaf(_) =>
      case List(xs) => KeepListFrame(e, xs, s, t, w);
      case Map(m) => KeepMapFrame(e, m, s, t, w);
    }
  }

  lemma MapFrame(e: Expr, from: string, s: Scope, t: Scope, w: World)
    requires SameView(s, t, {from} + (Names(e) - {"value", VALUES_KEY}))
    ensures Mapped(e, from, s, w) == Mapped(e, from, t, w)
  {
    hide NewList, NewEntries, ZipAll, Sequence;
    if from in s.outputs {
      match s.outputs[from]
      case Leaf(_) =>
      case List(xs) => NewListFrame(e, xs, s, t, w);
      case Map(m) => NewEntriesFrame(e, m, s, t, w);
    }
  }

  /** A step's value depends only on the names the step reads. */
  lemma StepFrame(st: Step, s: Scope, t: Scope, w: World)
    requires SameView(s, t, Reads(st))
    ensures StepValue(st, s, w) == StepValue(st, t, w)
  {
    match st
    case Load(_, alias, pattern, format, key) =>
      if key.Some? && alias in s.sources && w.expand(s.sources[alias], pattern).Success? {
        var matches := w.expand(s.sources[alias], pattern).value;
        PathKeysFrame(key.value, matches, s, t, w);
      }
    case Filter(_, from, e) =>
      FilterFrame(e, from, s, t, w);
    case MapEach(_, from, e) =>
      MapFrame(e, from, s, t, w);
    case Group(_, from, e) =>
      if from in s.outputs && s.outputs[from].List? {
        GroupKeysFrame(e, s.outputs[from].items, s, t, w);
      }
    case MergeAll(_, sources) =>
      assert MergeInputs(sources, s) == MergeInputs(sources, t);
  }

  lemma VerbsDependOnReads(sources: map<string, string>, values: Value, w: World)
    ensures DependsOnReads(EvaluatorFor(sources, values, w))
  {
    var f := EvaluatorFor(sources, values, w);
    forall s, d, d' | AgreeOn(d, d', Reads(s))
      ensures f(s, d) == f(s, d')
    {
      StepFrame(s, Scope(sources, values, d), Scope(sources, values, d'), w);
    }
  }

  // ------------------------------------------------------- compiled programs

  /** What compilation guarantees of the compiled steps. */
  ghost predicate WellScoped(steps: seq<Step>, aliases: set<string>) {
    && DistinctNames(steps)
    && forall i :: 0 <= i < |steps| ==> steps[i].name != VALUES_KEY && InScope(steps[i], aliases, NamesOf(steps[..i]))
  }

  lemma ProgramStep(spec: seq<PipelineStep>, aliases: set<string>, i: nat)
    requires Compiles(spec, aliases) && i < |spec|
    ensures Translated(spec[i]) == Some(Program(spec, aliases)[i])
    ensures Program(spec, aliases)[i].name == spec[i].name
  {
    assert StepCompiles(spec, i, aliases);
  }

  lemma ProgramNames(spec: seq<PipelineStep>, aliases: set<string>, n: nat)
    requires Compiles(spec, aliases) && n <= |spec|
    ensures NamesOf(Program(spec, aliases)[..n]) == StepNames(spec[..n])
  {
    forall i | 0 <= i < n
      ensures Program(spec, aliases)[..n][i].name == spec[..n][i].name
    {
      ProgramStep(spec, aliases, i);
    }
  }

  lemma CompiledIsWellScoped(spec: seq<PipelineStep>, aliases: set<string>)
    requires Compiles(spec, aliases)
    ensures WellScoped(Program(spec, aliases), aliases)
  {
    var steps := Program(spec, aliases);
    forall i | 0 <= i < |steps|
      ensures steps[i].name != VALUES_KEY && InScope(steps[i], aliases, NamesOf(steps[..i]))
      ensures steps[i].name !in NamesOf(steps[..i])
    {
      assert StepCompiles(spec, i, aliases);
      ProgramStep(spec, aliases, i);
      ProgramNames(spec, aliases, i);
    }
    forall i, j | 0 <= i < j < |steps|
      ensures steps[i].name != steps[j].name
    {
      assert steps[..j][i] == steps[i];
    }
  }

  // ----------------------------------------------------------- scope soundness

  predicate ScopeError(e: EvalError) {
    e.NotDefined? || e.NoArtifact?
  }

  ghost predicate NoScopeErrors<T>(rs: seq<Result<T, EvalError>>) {
    forall i :: 0 <= i < |rs| && rs[i].Failure? ==> !ScopeError(rs[i].error)
  }

  lemma {:induction false} SequenceScopeErrors<T>(rs: seq<Result<T, EvalError>>)
    requires NoScopeErrors(rs)
    ensures Sequence(rs).Failure? ==> !ScopeError(Sequence(rs).error)
  {
    if rs != [] {
      var front := rs[..|rs| - 1];
      assert forall i :: 0 <= i < |front| ==> front[i] == rs[i];
      SequenceScopeErrors(front);
    }
  }

  lemma {:induction false} KeyedScopeErrors(keys: seq<Result<string, EvalError>>, vs: seq<Value>)
    requires |keys| == |vs| && NoScopeErrors(keys)
    ensures Keyed(keys, vs).Failure? ==> !ScopeError(Keyed(keys, vs).error)
  {
    if keys != [] {
      var n := |keys| - 1;
      assert forall i :: 0 <= i < n ==> keys[..n][i] == keys[i];
      KeyedScopeErrors(keys[..n], vs[..n]);
    }
  }

  lemma FragmentScopeErrors(e: Expr, bindings: Data, scope: Scope, w: World)
    ensures Keep(e, bindings, scope, w).Failure? ==> !ScopeError(Keep(e, bindings, scope, w).error)
    ensures NewItem(e, bindings, scope, w).Failure? ==> !ScopeError(NewItem(e, bindings, scope, w).error)
  {
  }

  lemma KeepListScopeErrors(e: Expr, xs: seq<Value>, scope: Scope, w: World)
    ensures NoScopeErrors(KeepList(e, xs, scope, w))
  {
  }

  lemma NewListScopeErrors(e: Expr, xs: seq<Value>, scope: Scope, w: World)
    ensures NoScopeErrors(NewList(e, xs, scope, w))
  {
  }

  lemma KeepMapScopeErrors(e: Expr, m: Data, scope: Scope, w: World)
    ensures NoScopeErrors(KeepMap(e, m, scope, w))
  {
    var keys := Listing(m.Keys);
    forall i | 0 <= i < |keys|
      ensures var r := KeepMap(e, m, scope, w)[i]; r.Failure? ==> !ScopeError(r.error)
    {
      assert keys[i] in keys;
      FragmentScopeErrors(e, MapBindings(m[keys[i]], keys[i]), scope, w);
    }
  }

  lemma FilterScopeErrors(e: Expr, from: string, scope: Scope, w: World)
    requires from in scope.outputs
    ensures Filtered(e, from, scope, w).Failure? ==> !ScopeError(Filtered(e, from, scope, w).error)
  {
    hide KeepList, KeepMap, Select, Restrict, Sequence, NoScopeErrors;
    match scope.outputs[from]
    case Leaf(_) =>
    case List(xs) =>
      KeepListScopeErrors(e, xs, scope, w);
      SequenceScopeErrors(KeepList(e, xs, scope, w));
    case Map(m) =>
      KeepMapScopeErrors(e, m, scope, w);
      SequenceScopeErrors(KeepMap(e, m, scope, w));
  }

  lemma NewEntriesScopeErrors(e: Expr, m: Data, scope: Scope, w: World)
    ensures NoScopeErrors(NewEntries(e, m, scope, w))
  {
    var keys := Listing(m.Keys);
    forall i | 0 <= i < |keys|
      ensures var r := NewEntries(e, m, scope, w)[i]; r.Failure? ==> !ScopeError(r.error)
    {
      assert keys[i] in keys;
      FragmentScopeErrors(e, MapBindings(m[keys[i]], keys[i]), scope, w);
    }
  }

  lemma MapScopeErrors(e: Expr, from: string, scope: Scope, w: World)
    requires from in scope.outputs
    ensures Mapped(e, from, scope, w).Failure? ==> !ScopeError(Mapped(e, from, scope, w).error)
  {
    hide NewList, NewEntries, Zip, Sequence, NoScopeErrors;
    match scope.outputs[from]
    case Leaf(_) =>
    case List(xs) =>
      NewListScopeErrors(e, xs, scope, w);
      SequenceScopeErrors(NewList(e, xs, scope, w));
    case Map(m) =>
      NewEntriesScopeErrors(e, m, scope, w);
      SequenceScopeErrors(NewEntries(e, m, scope, w));
  }

  lemma LoadScopeErrors(st: Step, scope: Scope, w: World)
    requires st.Load? && st.alias in scope.sources
    ensures Loaded(st, scope, w).Failure? ==> !ScopeError(Loaded(st, scope, w).error)
  {
    var dir := scope.sources[st.alias];
    if w.expand(dir, st.pattern).Success? {
      var matches := w.expand(dir, st.pattern).value;
      var rs := ReadAll(w, dir, matches, st.format);
      SequenceScopeErrors(rs);
      SequenceMeaning(rs);
      if Sequence(rs).Success? && st.loadKey.Some? {
        KeyedScopeErrors(PathKeys(st.loadKey.value, matches, scope, w), Sequence(rs).value);
      }
    }
  }

  /** A step whose sources are all in the environment cannot fail for want of a
      source, and one whose alias was fetched cannot fail for want of files. */
  lemma DefinedSources(st: Step, scope: Scope, w: World)
    requires InScope(st, scope.sources.Keys, scope.outputs.Keys)
    ensures StepValue(st, scope, w).Failure? ==> !ScopeError(StepValue(st, scope, w).error)
  {
    match st
    case Load(_, _, _, _, _) => LoadScopeErrors(st, scope, w);
    case Filter(_, from, e) => FilterScopeErrors(e, from, scope, w);
    case MapEach(_, from, e) => MapScopeErrors(e, from, scope, w);
    case Group(_, from, e) =>
      if scope.outputs[from].List? {
        SequenceScopeErrors(GroupKeys(e, scope.outputs[from].items, scope, w));
      }
    case MergeAll(_, sources) => SequenceScopeErrors(MergeInputs(sources, scope));
  }

  /** Scope soundness: a pipeline that compiled never fails at run time on an
      undefined step name or on an alias without files, provided every declared
      alias was fetched. */
  lemma {:induction false} CompiledNeverUndefined(steps: seq<Step>, n: nat, aliases: set<string>,
                                                  sources: map<string, string>, values: Value, w: World)
    requires WellScoped(steps, aliases) && aliases <= sources.Keys && n <= |steps|
    ensures var r := Ran(steps[..n], EvaluatorFor(sources, values, w));
            r.Failure? ==> !ScopeError(r.error.error)
  {
    var f := EvaluatorFor(sources, values, w);
    if n > 0 {
      var k := n - 1;
      CompiledNeverUndefined(steps, k, aliases, sources, values, w);
      if Ran(steps[..k], f).Success? {
        DomainIsPrefix(steps, k, f);
        RunSnoc(steps, k, f);
        var scope := Scope(sources, values, Ran(steps[..k], f).value);
        assert InScope(steps[k], aliases, NamesOf(steps[..k]));
        DefinedSources(steps[k], scope, w);
        assert f(steps[k], scope.outputs) == StepValue(steps[k], scope, w);
      } else {
        assert steps[..n][..k] == steps[..k];
        RunFailureSticks(steps[..n], k, f);
      }
    }
  }

  // ---------------------------------------------------------------- reordering

  /** Ordering comes from data dependency: every rearrangement of a pipeline that
      keeps each step on the same side of the steps whose names it reads also
      compiles, and runs to the same outputs. */
  lemma ReorderingInvariance(spec: seq<PipelineStep>, aliases: set<string>, perm: seq<nat>,
                             sources: map<string, string>, values: Value, w: World)
    requires Compiles(spec, aliases) && IsPermutation(perm, |spec|)
    requires KeepsDependencies(Program(spec, aliases), perm)
    requires Ran(Program(spec, aliases), EvaluatorFor(sources, values, w)).Success?
    ensures Compiles(Permuted(spec, perm), aliases)
    ensures Ran(Program(Permuted(spec, perm), aliases), EvaluatorFor(sources, values, w))
         == Ran(Program(spec, aliases), EvaluatorFor(sources, values, w))
  {
    CompiledIsWellScoped(spec, aliases);
    ReorderedCompiles(spec, aliases, perm);
    PermutedProgram(spec, aliases, perm);
    VerbsDependOnReads(sources, values, w);
    ReorderedRuns(Program(spec, aliases), perm, EvaluatorFor(sources, values, w));
  }

  lemma PermutedProgram(spec: seq<PipelineStep>, aliases: set<string>, perm: seq<nat>)
    requires Compiles(spec, aliases) && IsPermutation(perm, |spec|) && Compiles(Permuted(spec, perm), aliases)
    ensures Program(Permuted(spec, perm), aliases) == Permuted(Program(spec, aliases), perm)
  {
    forall k | 0 <= k < |spec|
      ensures Program(Permuted(spec, perm), aliases)[k] == Permuted(Program(spec, aliases), perm)[k]
    {
      ProgramStep(Permuted(spec, perm), aliases, k);
      ProgramStep(spec, aliases, perm[k]);
    }
  }

  lemma FromIsRead(s: Step)
    ensures From(s) <= Reads(s)
  {
  }

  lemma ReorderedCompiles(spec: seq<PipelineStep>, aliases: set<string>, perm: seq<nat>)
    requires Compiles(spec, aliases) && IsPermutation(perm, |spec|)
    requires KeepsDependencies(Program(spec, aliases), perm)
    ensures Compiles(Permuted(spec, perm), aliases)
  {
    CompiledIsWellScoped(spec, aliases);
    forall a | 0 <= a < |spec|
      ensures StepCompiles(Permuted(spec, perm), a, aliases)
    {
      ReorderedStepCompiles(spec, aliases, perm, a);
    }
  }

  lemma ReorderedStepCompiles(spec: seq<PipelineStep>, aliases: set<string>, perm: seq<nat>, a: nat)
    requires Compiles(spec, aliases) && IsPermutation(perm, |spec|) && a < |spec|
    requires KeepsDependencies(Program(spec, aliases), perm) && WellScoped(Program(spec, aliases), aliases)
    ensures StepCompiles(Permuted(spec, perm), a, aliases)
  {
    var steps, j := Program(spec, aliases), perm[a];
    var ys := Permuted(steps, perm);
    ProgramStep(spec, aliases, j);
    PermutedNames(spec, aliases, perm, a);
    assert InScope(steps[j], aliases, NamesOf(steps[..j]));
    FromIsRead(steps[j]);
    forall name | name in From(steps[j])
      ensures name in NamesOf(ys[..a])
    {
      SameNamesBefore(steps, perm, a, name);
    }
    assert forall b :: 0 <= b < a ==> ys[..a][b] == steps[perm[b]] && perm[b] != perm[a];
  }

  lemma PermutedNames(spec: seq<PipelineStep>, aliases: set<string>, perm: seq<nat>, a: nat)
    requires Compiles(spec, aliases) && IsPermutation(perm, |spec|) && a <= |spec|
    ensures StepNames(Permuted(spec, perm)[..a]) == NamesOf(Permuted(Program(spec, aliases), perm)[..a])
  {
    forall k | 0 <= k < a
      ensures Permuted(spec, perm)[..a][k].name == Permuted(Program(spec, aliases), perm)[..a][k].name
    {
      ProgramStep(spec, aliases, perm[k]);
    }
  }

  // ------------------------------------------------------- what a step may read

  ghost predicate IsPart(x: Expr, e: Expr) {
    x == e ||
    match e
    case Literal(_) => false
    case Field(_, _) => false
    case Equal(l, r) => IsPart(x, l) || IsPart(x, r)
    case If(c, t, f) => IsPart(x, c) || IsPart(x, t) || IsPart(x, f)
    case Concat(l, r) => IsPart(x, l) || IsPart(x, r)
  }

  /** The names an expression reads are those of the fields that occur in it. */
  lemma {:induction false} NamesAreFields(e: Expr, n: string)
    ensures n in Names(e) <==> exists rest :: IsPart(Field(n, rest), e)
  {
    match e
    case Literal(_) =>
    case Field(name, rest) =>
      assert IsPart(Field(name, rest), e);
    case Equal(l, r) =>
      NamesAreFields(l, n);
      NamesAreFields(r, n);
    case If(c, t, f) =>
      NamesAreFields(c, n);
      NamesAreFields(t, n);
      NamesAreFields(f, n);
    case Concat(l, r) =>
      NamesAreFields(l, n);
      NamesAreFields(r, n);
  }

  ghost function ExprOf(s: Step): Option<Expr> {
    match s
    case Load(_, _, _, _, key) => key
    case Filter(_, _, e) => Some(e)
    case MapEach(_, _, e) => Some(e)
    case Group(_, _, e) => Some(e)
    case MergeAll(_, _) => None
  }

  /** A step reads at most its sources and the fields of its expression, and never
      an output called "values". */
  lemma ReadsAtMost(s: Step, n: string)
    requires n in Reads(s) && n !in From(s)
    ensures n != "values" && ExprOf(s).Some? && exists rest :: IsPart(Field(n, rest), ExprOf(s).value)
  {
    NamesAreFields(ExprOf(s).value, n);
  }

  /** Two neighbouring steps that read nothing of each other can be swapped. */
  lemma NeighboursSwap(steps: seq<Step>, i: nat, sources: map<string, string>, values: Value, w: World)
    requires i + 1 < |steps| && DistinctNames(steps)
    requires steps[i].name !in Reads(steps[i + 1]) && steps[i + 1].name !in Reads(steps[i])
    requires Ran(steps, EvaluatorFor(sources, values, w)).Success?
    ensures Ran(steps[i := steps[i + 1]][i + 1 := steps[i]], EvaluatorFor(sources, values, w))
         == Ran(steps, EvaluatorFor(sources, values, w))
  {
    hide Reads, Ran, EvaluatorFor;
    var n := |steps|;
    var perm: seq<nat> := seq(n, k => if k == i then i + 1 else if k == i + 1 then i else k);
    forall k | 0 <= k < n
      ensures k in perm
    {
      assert perm[if k == i then i + 1 else if k == i + 1 then i else k] == k;
    }
    assert Permuted(steps, perm) == steps[i := steps[i + 1]][i + 1 := steps[i]];
    forall a, b | 0 <= a < n && 0 <= b < n && steps[perm[b]].name in Reads(steps[perm[a]])
      ensures perm[b] < perm[a] <==> b < a
    {
      assert !(perm[a] == i && perm[b] == i + 1) && !(perm[a] == i + 1 && perm[b] == i);
    }
    VerbsDependOnReads(sources, values, w);
    ReorderedRuns(steps, perm, EvaluatorFor(sources, values, w));
  }
}
