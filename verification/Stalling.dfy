/** When a ManifestGenerator is stalled: over whole runs, exactly while validation
    has rejected the spec it last judged. Stalling for denied values, which the
    code provides for, cannot happen, because validation refuses the references
    that would be denied. */
module Stalling {
  import opened Wrappers
  import opened Conditions
  import opened Validation
  import opened Reconciler
  import opened ReconcilerRuns
  import V = Values
  import N = NameSoundness

  /** The answers fit the spec: validation judged it under the policy, and an error
      of values resolution is one that resolving under the same policy gives. */
  ghost predicate Honest(g: Generator, problem: Option<string>, a: Answers, r: V.Resolver, p: Policy) {
    && p.decode == r.decode && p.noCrossNamespaceRefs == r.noCrossNamespaceRefs
    && (Judged(g) ==> (problem == None <==> Accepted(g.spec, p)))
    && (a.values.NotResolved? ==>
          || V.FirstFailure(r, g.spec.valuesFrom, g.spec.namespace, a.values.error)
          || (a.values.error.InInline? && V.Inline(g.spec.values, r.decode) == Failure(a.values.error.inlineError)))
  }

  /** An accepted spec is never denied its values. */
  lemma AcceptedIsNotDenied(g: Generator, problem: Option<string>, a: Answers, r: V.Resolver, p: Policy)
    requires Honest(g, problem, a, r, p) && Accepted(g.spec, p) && a.values.NotResolved?
    ensures !IsAccessError(a.values.error)
  {
    N.AcceptedResolution(g.spec, p, r, a.values.error);
  }

  /** A reconcile ends terminally exactly when validation rejects the spec. */
  lemma OnlyRejectionIsTerminal(g: Generator, live: set<ObjectKey>, problem: Option<string>, a: Answers,
                                r: V.Resolver, p: Policy)
    requires Judged(g) && Honest(g, problem, a, r, p)
    ensures Attempt(g, live, problem, a).outcome == Stuck(Terminal) <==> !Accepted(g.spec, p)
  {
    hide Accepted, FinishedArtifacts, MarkInProgress, MarkTerminal;
    if problem == None {
      if a.values.NotResolved? {
        AcceptedIsNotDenied(g, problem, a, r, p);
      }
      if a.observed.Some? {
        var busy := g.(conditions := MarkInProgress(g.conditions));
        FinishedVerdict(busy, a.observed.value, a, Overwritten(g, busy, a.progress), live);
      }
    }
  }

  // --------------------------------------------------------------- whole runs

  /** A run in which every reconcile is told the truth, r being the resolver of
      that reconcile. */
  datatype Told = Told(event: Event, r: V.Resolver)

  function EventsOf(run: seq<Told>): seq<Event> {
    seq(|run|, i requires 0 <= i < |run| => run[i].event)
  }

  ghost predicate AllHonest(run: seq<Told>, p: Policy) {
    run != [] ==>
      var front, last := run[..|run| - 1], run[|run| - 1];
      var w := RunOf(EventsOf(front));
      && AllHonest(front, p)
      && (last.event.Reconcile? && w.generator.Some? ==>
            Honest(w.generator.value, last.event.problem, last.event.answers, last.r, p))
  }

  /** Whether the last judgement that reached the server rejected the spec. A
      reconcile judges when it gets past validation or is stopped by it; it tells
      the server in its final patch, or, past validation, already when it announces
      progress. */
  ghost predicate LastRejected(run: seq<Told>, p: Policy) {
    run != [] &&
    var front, e := run[..|run| - 1], run[|run| - 1].event;
    var w := RunOf(EventsOf(front));
    match e
    case Create(_, _) => w.generator.Some? && LastRejected(front, p)
    case Reconcile(_, a) =>
      if w.generator.None? || !Judged(w.generator.value) then LastRejected(front, p)
      else if !Accepted(w.generator.value.spec, p) then a.final.conditions || LastRejected(front, p)
      else if a.tmpDir && (a.progress.conditions || a.final.conditions) then false
      else LastRejected(front, p)
    case _ => LastRejected(front, p)
  }

  /** Stalled among the conditions the server holds after a reconcile. */
  lemma StalledAfterAttempt(g: Generator, live: set<ObjectKey>, problem: Option<string>, a: Answers,
                            r: V.Resolver, p: Policy)
    requires Coherent(g.conditions) && (!g.finalizer ==> Stalled !in g.conditions) && Honest(g, problem, a, r, p)
    requires After(World(Some(g), live), problem, a).generator.Some?
    ensures var stalled := Stalled in After(World(Some(g), live), problem, a).generator.value.conditions;
            if !Judged(g) then stalled <==> Stalled in g.conditions
            else if !Accepted(g.spec, p) then stalled <==> a.final.conditions || Stalled in g.conditions
            else if a.tmpDir && (a.progress.conditions || a.final.conditions) then !stalled
            else stalled <==> Stalled in g.conditions
  {
    hide Accepted, Reconciled, Coherent, MarkInProgress, FinishedArtifacts;
    var t := Attempt(g, live, problem, a);
    SummaryIsCoherent(g.conditions);
    if Judged(g) {
      OnlyRejectionIsTerminal(g, live, problem, a, r, p);
      VerdictShows(g, live, problem, a);
      ProgressReached(g, live, a);
    }
  }

  lemma ProgressReached(g: Generator, live: set<ObjectKey>, a: Answers)
    ensures var t := Reconciled(g, live, a);
            && (!a.tmpDir || !a.progress.conditions ==> t.stored.conditions == g.conditions)
            && (a.tmpDir && a.progress.conditions ==> Stalled !in t.stored.conditions)
  {
    ReconciledConclusion(g, live, a);
  }

  /** On every such run the server shows Stalled exactly while the last judgement
      that reached it was a rejection. */
  lemma {:induction false} StalledWhileRejected(run: seq<Told>, p: Policy)
    requires AllHonest(run, p)
    ensures var w := RunOf(EventsOf(run));
            w.generator.Some? ==> (Stalled in w.generator.value.conditions <==> LastRejected(run, p))
  {
    if run != [] {
      var front, last := run[..|run| - 1], run[|run| - 1];
      var w := RunOf(EventsOf(front));
      assert EventsOf(run)[..|run| - 1] == EventsOf(front);
      StalledWhileRejected(front, p);
      ConditionsAlwaysCoherent(EventsOf(front));
      hide Accepted, Attempt, Coherent, Honest, Judged, Summarized;
      if last.event.Reconcile? && w.generator.Some? && Next(w, last.event).generator.Some? {
        StalledAfterAttempt(w.generator.value, w.live, last.event.problem, last.event.answers, last.r, p);
      }
    }
  }
}
