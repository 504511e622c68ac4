/** What every run of the controller keeps: arbitrary sequences of user edits,
    suspensions, deletions and reconciles with arbitrary failures. */
module ReconcilerRuns {
  import opened Wrappers
  import opened Conditions
  import opened Validation
  import opened Reconciler

  datatype Event =
    | Create(spec: GeneratorSpec, disabled: bool)
    | Edit(spec: GeneratorSpec)
    | SetDisabled(disabled: bool)
    | Delete
    | Reconcile(problem: Option<string>, answers: Answers)

  /** One event. Names and namespaces of objects never change; deleting an object
      without the finalizer removes it at once. */
  ghost function Next(w: World, e: Event): World {
    match e
    case Create(spec, disabled) =>
      if w.generator.Some? then w
      else w.(generator := Some(Generator(spec, 1, disabled, false, false, map[], Status([], "", 0))))
    case Edit(spec) =>
      if w.generator.None? then w
      else
        var g := w.generator.value;
        w.(generator := Some(g.(spec := spec.(namespace := g.spec.namespace), generation := g.generation + 1)))
    case SetDisabled(disabled) =>
      if w.generator.None? then w else w.(generator := Some(w.generator.value.(disabled := disabled)))
    case Delete =>
      if w.generator.None? then w
      else if !w.generator.value.finalizer then w.(generator := None)
      else w.(generator := Some(w.generator.value.(deleting := true)))
    case Reconcile(problem, a) => After(w, problem, a)
  }

  const START := World(None, {})

  ghost function RunOf(events: seq<Event>): World {
    if events == [] then START else Next(RunOf(events[..|events| - 1]), events[|events| - 1])
  }

  // ---------------------------------------------------------------- conditions

  ghost predicate ConditionsHold(w: World) {
    w.generator.Some? ==>
      var g := w.generator.value;
      Coherent(g.conditions) && (!g.finalizer ==> Stalled !in g.conditions)
  }

  /** g and h differ at most in their conditions and status. */
  ghost predicate SameObject(g: Generator, h: Generator) {
    && g.spec == h.spec && g.generation == h.generation && g.disabled == h.disabled
    && g.deleting == h.deleting && g.finalizer == h.finalizer
  }

  /** The conditions reconcile can leave on its working copy after announcing
      progress. */
  ghost predicate Concludes(cs: ConditionSet, busy: ConditionSet) {
    && Ready in cs
    && (|| cs == busy
        || cs == MarkTerminal(busy, ACCESS_DENIED)
        || cs == MarkReady(busy, True, SUCCEEDED)
        || cs == MarkReady(busy, False, cs[Ready].reason))
  }

  lemma ConclusionsAreCoherent(cs: ConditionSet, from: ConditionSet)
    requires Concludes(cs, MarkInProgress(from))
    ensures Coherent(Summarized(cs))
  {
    hide Coherent, Summarized, MarkInProgress;
    ProgressIsCoherent(from, SUCCEEDED);
    ProgressIsCoherent(from, cs[Ready].reason);
    TerminalIsCoherent(MarkInProgress(from), ACCESS_DENIED);
  }

  lemma FinishedConclusion(g: Generator, digest: string, a: Answers, stored: Generator, live: set<ObjectKey>)
    ensures var t := FinishedArtifacts(g, digest, a, stored, live);
            && Concludes(t.g.conditions, g.conditions) && SameObject(t.g, g)
            && t.stored == stored && (t.outcome.Stuck? || t.outcome.Published?)
  {
  }

  lemma WorkConclusion(busy: Generator, stored: Generator, live: set<ObjectKey>, a: Answers)
    ensures var t := Worked(busy, stored, live, a);
            && Concludes(t.g.conditions, busy.conditions) && SameObject(t.g, busy)
            && t.stored == stored && (t.outcome.Stuck? || t.outcome.Published?)
  {
    hide FinishedArtifacts;
    if a.observed.Some? {
      FinishedConclusion(busy, a.observed.value, a, stored, live);
    }
  }

  lemma ReconciledConclusion(g: Generator, live: set<ObjectKey>, a: Answers)
    ensures var t := Reconciled(g, live, a);
            && (t.g.conditions == g.conditions || Concludes(t.g.conditions, MarkInProgress(g.conditions)))
            && (t.stored.conditions == g.conditions || t.stored.conditions == MarkInProgress(g.conditions))
            && SameObject(t.g, g) && SameObject(t.stored, g) && t.stored.status == g.status
            && (t.outcome.Stuck? || t.outcome.Published?)
  {
    hide Worked;
    var busy := g.(conditions := MarkInProgress(g.conditions));
    WorkConclusion(busy, Overwritten(g, busy, a.progress), live, a);
  }

  lemma AttemptConditions(g: Generator, live: set<ObjectKey>, problem: Option<string>, a: Answers)
    requires Coherent(g.conditions) && (!g.finalizer ==> Stalled !in g.conditions)
    ensures var t := Attempt(g, live, problem, a);
            && Coherent(t.stored.conditions) && Coherent(Summarized(t.g.conditions))
            && (!g.finalizer && !g.deleting ==>
                  Stalled !in t.stored.conditions && Stalled !in Summarized(t.g.conditions))
            && t.stored.finalizer == g.finalizer && t.stored.deleting == g.deleting
            && (t.g.finalizer <==> !g.deleting)
  {
    hide Reconciled, Concludes;
    var t := Attempt(g, live, problem, a);
    if Judged(g) && problem == None {
      ReconciledConclusion(g, live, a);
      SummaryIsCoherent(g.conditions);
      ProgressIsCoherent(g.conditions, PROGRESSING);
      if t.g.conditions != g.conditions {
        ConclusionsAreCoherent(t.g.conditions, g.conditions);
      }
    } else if Judged(g) {
      TerminalIsCoherent(g.conditions, problem.value);
    } else {
      SummaryIsCoherent(g.conditions);
    }
  }

  lemma StepKeepsConditions(w: World, e: Event)
    requires ConditionsHold(w)
    ensures ConditionsHold(Next(w, e))
  {
    if e.Reconcile? && w.generator.Some? {
      hide Attempt, Coherent, Summarized;
      AttemptConditions(w.generator.value, w.live, e.problem, e.answers);
    }
  }

  /** After every event of every run: Stalled and Reconciling never coexist,
      Ready=True excludes both, Stalled comes with Ready=False for the same reason,
      and Ready=False without Stalled means a retry is announced. */
  lemma {:induction false} ConditionsAlwaysCoherent(events: seq<Event>)
    ensures ConditionsHold(RunOf(events))
  {
    if events != [] {
      ConditionsAlwaysCoherent(events[..|events| - 1]);
      StepKeepsConditions(RunOf(events[..|events| - 1]), events[|events| - 1]);
    }
  }

  /** The three ways a reconcile that reaches the spec ends: ready exactly when
      everything was published, stalled exactly when the failure is terminal, and
      otherwise retrying or still in progress. There is one exception: when the
      temporary directory cannot be created the failure is retried, but the
      conditions stay what they were, even if that is Ready=True. */
  lemma VerdictShows(g: Generator, live: set<ObjectKey>, problem: Option<string>, a: Answers)
    requires Judged(g) && Coherent(g.conditions)
    ensures var t := Attempt(g, live, problem, a);
            var cs := Summarized(t.g.conditions);
            if problem == None && !a.tmpDir then
              t.outcome == Stuck(Backoff) && cs == g.conditions
            else
              && (Is(cs, Ready, True) <==> t.outcome == Published)
              && (Stalled in cs <==> t.outcome == Stuck(Terminal))
              && (Reconciling in cs <==> t.outcome == Stuck(Backoff) || t.outcome == Stuck(Requeue))
  {
    hide Coherent, Worked, Summarized, MarkReady, MarkTerminal, MarkInProgress, Is;
    SummaryIsCoherent(g.conditions);
    if problem.Some? {
      TerminalShows(g.conditions, problem.value);
    } else if a.tmpDir {
      var busy := g.(conditions := MarkInProgress(g.conditions));
      var t := Worked(busy, Overwritten(g, busy, a.progress), live, a);
      WorkVerdict(busy, Overwritten(g, busy, a.progress), live, a);
      ProgressShows(g.conditions, if Ready in t.g.conditions then t.g.conditions[Ready].reason else "");
      TerminalShows(busy.conditions, ACCESS_DENIED);
    }
  }

  lemma WorkVerdict(busy: Generator, stored: Generator, live: set<ObjectKey>, a: Answers)
    ensures var t := Worked(busy, stored, live, a);
            var cs := t.g.conditions;
            || (t.outcome == Published && cs == MarkReady(busy.conditions, True, SUCCEEDED))
            || (t.outcome == Stuck(Terminal) && cs == MarkTerminal(busy.conditions, ACCESS_DENIED))
            || ((t.outcome == Stuck(Backoff) || t.outcome == Stuck(Requeue))
                && Ready in cs && cs == MarkReady(busy.conditions, False, cs[Ready].reason))
  {
    hide FinishedArtifacts, MarkTerminal;
    if a.observed.Some? {
      FinishedVerdict(busy, a.observed.value, a, stored, live);
    }
  }

  lemma FinishedVerdict(g: Generator, digest: string, a: Answers, stored: Generator, live: set<ObjectKey>)
    ensures var t := FinishedArtifacts(g, digest, a, stored, live);
            || (t.outcome == Published && t.g.conditions == MarkReady(g.conditions, True, SUCCEEDED))
            || (t.outcome == Stuck(Backoff) && Ready in t.g.conditions
                && t.g.conditions == MarkReady(g.conditions, False, t.g.conditions[Ready].reason))
  {
  }

  // ------------------------------------------------------------------- reasons

  /** The keys of the first n artifacts. */
  ghost function FirstKeys(spec: GeneratorSpec, n: nat): set<ObjectKey>
    requires n <= |spec.artifacts|
  {
    set i | 0 <= i < n :: ObjectKey(spec.namespace, spec.artifacts[i].name)
  }

  /** Publishing goes on exactly while every artifact is applied, recording its
      digest and file, and halts at the first that is not, saying why; that one may
      have landed all the same. */
  ghost predicate PublishingMeans(spec: GeneratorSpec, n: nat, a: Answers, live: set<ObjectKey>, p: Publishing)
    requires n <= |spec.artifacts|
  {
    match p
    case Going(refs, l) =>
      && l == live + FirstKeys(spec, n) && |refs| == n
      && forall i: nat :: i < n ==>
                            && refs[i].name == spec.artifacts[i].name && refs[i].namespace == spec.namespace
                            && a.artifact(i) == Applied(refs[i].digest, refs[i].filename)
    case Halted(reason, l) =>
      exists i: nat :: i < n && HaltsAt(spec, a, i, reason, live, l)
  }

  lemma {:induction false} PublishingShows(spec: GeneratorSpec, n: nat, a: Answers, live: set<ObjectKey>)
    requires n <= |spec.artifacts|
    ensures PublishingMeans(spec, n, a, live, PublishedUpTo(spec, n, a, live))
  {
    if n > 0 {
      PublishingShows(spec, n - 1, a, live);
      match PublishedUpTo(spec, n - 1, a, live)
      case Halted(reason, l) =>
        var i: nat :| i < n - 1 && HaltsAt(spec, a, i, reason, live, l);
        assert PublishedUpTo(spec, n, a, live) == Halted(reason, l);
      case Going(_, _) =>
        GoesOnOrHalts(spec, n, a, live);
    }
  }

  lemma GoesOnOrHalts(spec: GeneratorSpec, n: nat, a: Answers, live: set<ObjectKey>)
    requires 0 < n <= |spec.artifacts|
    requires PublishedUpTo(spec, n - 1, a, live).Going?
    requires PublishingMeans(spec, n - 1, a, live, PublishedUpTo(spec, n - 1, a, live))
    ensures PublishingMeans(spec, n, a, live, PublishedUpTo(spec, n, a, live))
  {
    hide FirstKeys;
    OneMoreKey(spec, n);
    var key := ObjectKey(spec.namespace, spec.artifacts[n - 1].name);
    var before, after := PublishedUpTo(spec, n - 1, a, live), PublishedUpTo(spec, n, a, live);
    assert before.live + {key} == live + FirstKeys(spec, n);
    if after.Halted? {
      assert HaltsAt(spec, a, n - 1, after.reason, live, after.live);
    }
  }

  lemma OneMoreKey(spec: GeneratorSpec, n: nat)
    requires 0 < n <= |spec.artifacts|
    ensures FirstKeys(spec, n) == FirstKeys(spec, n - 1) + {ObjectKey(spec.namespace, spec.artifacts[n - 1].name)}
  {
  }

  ghost predicate HaltsAt(spec: GeneratorSpec, a: Answers, i: nat, reason: string, before: set<ObjectKey>,
                          after: set<ObjectKey>)
    requires i < |spec.artifacts|
  {
    var done := before + FirstKeys(spec, i);
    && (forall j: nat :: j < i ==> a.artifact(j).Applied?)
    && match a.artifact(i)
       case NotBuilt(inRender) => reason == (if inRender then "RenderFailed" else "BuildFailed") && after == done
       case NotApplied(landed) =>
         reason == "ReconciliationFailed" && after == if landed then before + FirstKeys(spec, i + 1) else done
       case NoStatus => reason == "ReconciliationFailed" && after == before + FirstKeys(spec, i + 1)
       case Applied(_, _) => false
  }

  /** The Ready condition after progress was announced, by what happened, and what a
      failure has left live. */
  lemma ReasonShown(busy: Generator, stored: Generator, live: set<ObjectKey>, a: Answers)
    ensures var t := Worked(busy, stored, live, a);
            var cs := t.g.conditions;
            && Ready in cs
            && if a.observed == None || !a.fetched then
                 cs[Ready] == Condition(False, "SourceFetchFailed") && t.live == live
               else if a.values.NotResolved? then
                 && cs[Ready] == Condition(False, if IsAccessError(a.values.error) then "AccessDenied"
                                                  else "SourceFetchFailed")
                 && t.live == live
               else if !a.pipeline then cs[Ready] == Condition(False, "PipelineFailed") && t.live == live
               else if forall i: nat :: i < |busy.spec.artifacts| ==> a.artifact(i).Applied? then
                 cs[Ready] == Condition(True, "Succeeded")
               else
                 && cs[Ready].status == False
                 && exists i: nat ::
                      i < |busy.spec.artifacts| && HaltsAt(busy.spec, a, i, cs[Ready].reason, live, t.live)
  {
    hide FirstKeys, Orphans, Deleted, PublishedUpTo;
    var spec, n := busy.spec, |busy.spec.artifacts|;
    PublishingShows(spec, n, a, live);
    match PublishedUpTo(spec, n, a, live)
    case Going(refs, _) =>
    case Halted(reason, l) =>
      var i: nat :| i < n && HaltsAt(spec, a, i, reason, live, l);
      assert !a.artifact(i).Applied?;
  }
}
