/** Runs of a pipeline whose steps are evaluated by any function that depends
    only on the names a step reads: earlier outputs are never rewritten, and the
    order of the steps matters only through those names. */
module PipelineRuns {
  import opened Wrappers
  import opened Templates
  import opened Pipeline
  import opened PipelineEval

  /** The step names whose outputs can influence a step: its sources, and the
      names its fragment mentions that the verb does not bind itself. */
  function Reads(s: Step): set<string> {
    match s
    case Load(_, _, _, _, None) => {}
    case Load(_, _, _, _, Some(e)) => Names(e) - {"path", VALUES_KEY}
    case Filter(_, from, e) => {from} + (Names(e) - {"value", VALUES_KEY})
    case MapEach(_, from, e) => {from} + (Names(e) - {"value", VALUES_KEY})
    case Group(_, from, e) => {from} + (Names(e) - {"value", "index", VALUES_KEY})
    case MergeAll(_, sources) => set n | n in sources
  }

  ghost predicate DependsOnReads(f: Evaluator) {
    forall s, d, d' :: AgreeOn(d, d', Reads(s)) ==> f(s, d) == f(s, d')
  }

  ghost function NamesOf(steps: seq<Step>): set<string> {
    set i | 0 <= i < |steps| :: steps[i].name
  }

  ghost predicate DistinctNames(steps: seq<Step>) {
    forall i, j :: 0 <= i < j < |steps| ==> steps[i].name != steps[j].name
  }

  lemma NamesOfSnoc(steps: seq<Step>, i: nat)
    requires i < |steps|
    ensures NamesOf(steps[..i + 1]) == NamesOf(steps[..i]) + {steps[i].name}
  {
    assert forall j :: 0 <= j < i ==> steps[..i + 1][j] == steps[..i][j];
    assert steps[..i + 1][i] == steps[i];
  }

  lemma RunSnoc(steps: seq<Step>, i: nat, f: Evaluator)
    requires i < |steps| && Ran(steps[..i], f).Success?
    ensures var outputs, v := Ran(steps[..i], f).value, f(steps[i], Ran(steps[..i], f).value);
            Ran(steps[..i + 1], f) == if v.Success? then Success(outputs[steps[i].name := v.value])
                                      else Failure(RunFailure(steps[i].name, v.error))
  {
    assert steps[..i + 1][..i] == steps[..i];
  }

  lemma RunPrefixSucceeds(steps: seq<Step>, n: nat, f: Evaluator)
    requires n <= |steps| && Ran(steps, f).Success?
    ensures Ran(steps[..n], f).Success?
  {
    if Ran(steps[..n], f).Failure? {
      RunFailureSticks(steps, n, f);
    }
  }

  lemma RestrictInsert(final: Data, ns: set<string>, name: string)
    requires name in final
    ensures Restrict(final, ns + {name}) == Restrict(final, ns)[name := final[name]]
  {
  }

  lemma RestrictAll(final: Data, ns: set<string>)
    requires final.Keys <= ns
    ensures Restrict(final, ns) == final
  {
  }

  // ------------------------------------------------- growth of the environment

  /** After any number of steps the environment binds exactly the names of the
      executed steps. */
  lemma {:induction false} DomainIsPrefix(steps: seq<Step>, n: nat, f: Evaluator)
    requires n <= |steps| && Ran(steps[..n], f).Success?
    ensures Ran(steps[..n], f).value.Keys == NamesOf(steps[..n])
  {
    if n > 0 {
      RunPrefixSucceeds(steps[..n], n - 1, f);
      assert steps[..n][..n - 1] == steps[..n - 1];
      DomainIsPrefix(steps, n - 1, f);
      RunSnoc(steps, n - 1, f);
      NamesOfSnoc(steps, n - 1);
    }
  }

  /** No binding ever changes: the environment after n steps is the final one
      restricted to the names of those steps. */
  lemma {:induction false} OutputsOnlyGrow(steps: seq<Step>, n: nat, m: nat, f: Evaluator)
    requires DistinctNames(steps) && n <= m <= |steps|
    requires Ran(steps[..m], f).Success?
    ensures Ran(steps[..n], f) == Success(Restrict(Ran(steps[..m], f).value, NamesOf(steps[..n])))
    ensures NamesOf(steps[..n]) <= Ran(steps[..m], f).value.Keys
    decreases m
  {
    DomainIsPrefix(steps, m, f);
    if n == m {
      var final := Ran(steps[..m], f).value;
      RestrictAll(final, final.Keys);
    } else {
      var k := m - 1;
      RunPrefixSucceeds(steps[..m], k, f);
      assert steps[..m][..k] == steps[..k];
      OutputsOnlyGrow(steps, n, k, f);
      DomainIsPrefix(steps, k, f);
      RunSnoc(steps, k, f);
      var before, after := Ran(steps[..k], f).value, Ran(steps[..m], f).value;
      NameIsNew(steps, n, k);
      NamesOfSnoc(steps, k);
      assert Restrict(after, NamesOf(steps[..n])) == Restrict(before, NamesOf(steps[..n]));
    }
  }

  lemma NameIsNew(steps: seq<Step>, n: nat, k: nat)
    requires DistinctNames(steps) && n <= k < |steps|
    ensures steps[k].name !in NamesOf(steps[..n])
  {
    assert forall i :: 0 <= i < n ==> steps[..n][i] == steps[i];
  }

  /** The final value of a step is its evaluation on the final values of the
      steps before it. */
  lemma StepValueIsFinal(steps: seq<Step>, i: nat, f: Evaluator)
    requires DistinctNames(steps) && i < |steps| && Ran(steps, f).Success?
    ensures steps[i].name in Ran(steps, f).value
    ensures f(steps[i], Restrict(Ran(steps, f).value, NamesOf(steps[..i]))) == Success(Ran(steps, f).value[steps[i].name])
  {
    assert steps[..|steps|] == steps;
    OutputsOnlyGrow(steps, i, |steps|, f);
    OutputsOnlyGrow(steps, i + 1, |steps|, f);
    NamesOfSnoc(steps, i);
    RunSnoc(steps, i, f);
  }

  // ----------------------------------------------------------------- reordering

  /** perm lists every position below n exactly once. */
  ghost predicate IsPermutation(perm: seq<nat>, n: nat) {
    && |perm| == n
    && Distinct(perm)
    && (forall k :: 0 <= k < n ==> perm[k] < n)
    && (forall i :: 0 <= i < n ==> i in perm)
  }

  ghost function Permuted<T>(xs: seq<T>, perm: seq<nat>): (ys: seq<T>)
    requires IsPermutation(perm, |xs|)
    ensures |ys| == |xs|
  {
    seq(|perm|, k requires 0 <= k < |perm| => xs[perm[k]])
  }

  /** The rearrangement keeps every step on the same side of each step whose name
      it reads. */
  ghost predicate KeepsDependencies(steps: seq<Step>, perm: seq<nat>)
    requires IsPermutation(perm, |steps|)
  {
    forall a, b :: 0 <= a < |perm| && 0 <= b < |perm| && steps[perm[b]].name in Reads(steps[perm[a]])
      ==> (perm[b] < perm[a] <==> b < a)
  }

  /** A step sees the same of the names it reads before and after. */
  lemma SameNamesBefore(steps: seq<Step>, perm: seq<nat>, a: nat, name: string)
    requires IsPermutation(perm, |steps|) && KeepsDependencies(steps, perm)
    requires a < |perm| && name in Reads(steps[perm[a]])
    ensures name in NamesOf(Permuted(steps, perm)[..a]) <==> name in NamesOf(steps[..perm[a]])
  {
    var ys := Permuted(steps, perm);
    if name in NamesOf(ys[..a]) {
      var b :| 0 <= b < a && ys[..a][b].name == name;
      assert steps[perm[b]].name == name;
      assert steps[..perm[a]][perm[b]].name == name;
    }
    if name in NamesOf(steps[..perm[a]]) {
      var q :| 0 <= q < perm[a] && steps[..perm[a]][q].name == name;
      assert q in perm;
      var b :| 0 <= b < |perm| && perm[b] == q;
      assert ys[..a][b].name == name;
    }
  }

  lemma SameViewBefore(steps: seq<Step>, perm: seq<nat>, a: nat, final: Data)
    requires IsPermutation(perm, |steps|) && KeepsDependencies(steps, perm) && a < |perm|
    ensures AgreeOn(Restrict(final, NamesOf(Permuted(steps, perm)[..a])), Restrict(final, NamesOf(steps[..perm[a]])),
                    Reads(steps[perm[a]]))
  {
    forall name | name in Reads(steps[perm[a]])
      ensures name in NamesOf(Permuted(steps, perm)[..a]) <==> name in NamesOf(steps[..perm[a]])
    {
      SameNamesBefore(steps, perm, a, name);
    }
  }

  lemma {:induction false} ReorderedPrefixRuns(steps: seq<Step>, perm: seq<nat>, a: nat, f: Evaluator)
    requires DistinctNames(steps) && IsPermutation(perm, |steps|) && KeepsDependencies(steps, perm)
    requires DependsOnReads(f) && Ran(steps, f).Success? && a <= |steps|
    ensures Ran(Permuted(steps, perm)[..a], f) == Success(Restrict(Ran(steps, f).value, NamesOf(Permuted(steps, perm)[..a])))
  {
    var ys, final := Permuted(steps, perm), Ran(steps, f).value;
    if a == 0 {
      assert Restrict(final, NamesOf(ys[..0])) == map[];
    } else {
      var k := a - 1;
      ReorderedPrefixRuns(steps, perm, k, f);
      SameViewBefore(steps, perm, k, final);
      StepValueIsFinal(steps, perm[k], f);
      RunSnoc(ys, k, f);
      NamesOfSnoc(ys, k);
      RestrictInsert(final, NamesOf(ys[..k]), ys[k].name);
    }
  }

  lemma PermutedKeepsNames(steps: seq<Step>, perm: seq<nat>)
    requires IsPermutation(perm, |steps|)
    ensures NamesOf(steps) <= NamesOf(Permuted(steps, perm))
  {
    forall q | 0 <= q < |steps|
      ensures steps[q].name in NamesOf(Permuted(steps, perm))
    {
      assert q in perm;
      var b :| 0 <= b < |perm| && perm[b] == q;
      assert Permuted(steps, perm)[b].name == steps[q].name;
    }
  }

  /** A rearrangement that keeps the dependencies of a successful run succeeds
      with the same outputs. */
  lemma {:induction false} ReorderedRuns(steps: seq<Step>, perm: seq<nat>, f: Evaluator)
    requires DistinctNames(steps) && IsPermutation(perm, |steps|) && KeepsDependencies(steps, perm)
    requires DependsOnReads(f) && Ran(steps, f).Success?
    ensures Ran(Permuted(steps, perm), f) == Ran(steps, f)
  {
    var ys, final := Permuted(steps, perm), Ran(steps, f).value;
    ReorderedPrefixRuns(steps, perm, |ys|, f);
    assert ys[..|ys|] == ys && steps[..|steps|] == steps;
    DomainIsPrefix(steps, |steps|, f);
    PermutedKeepsNames(steps, perm);
    RestrictAll(final, NamesOf(ys));
  }
}
