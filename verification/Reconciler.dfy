/** The reconcile loop of internal/controller. The API server, the storage and the
    work on sources and templates answer through parameters; what the controller
    does to the object and to the published ExternalArtifacts is modelled. */
module Reconciler {
  import opened Wrappers
  import opened Conditions
  import opened Validation
  import V = Values

  /** An ExternalArtifactReference of the inventory. */
  datatype Ref = Ref(name: string, namespace: string, digest: string, filename: string)

  datatype ObjectKey = ObjectKey(namespace: string, name: string)

  datatype Status = Status(inventory: seq<Ref>, sourcesDigest: string, observedGeneration: nat)

  /** The stored ManifestGenerator. */
  datatype Generator = Generator(
    spec: GeneratorSpec, generation: nat, disabled: bool, deleting: bool,
    finalizer: bool, conditions: ConditionSet, status: Status)

  /** Which parts of a patch reached the API server. */
  datatype Patched = Patched(metadata: bool, conditions: bool, status: bool) {
    predicate Succeeded() {
      metadata && conditions && status
    }
  }

  /** Resolving the values, and the error it may end with. */
  datatype ValuesAnswer = Resolved | NotResolved(error: V.ResolveError)

  /** errors.As finds an AccessError in the chain. */
  predicate IsAccessError(e: V.ResolveError) {
    e.InEntry? && e.error.AccessDenied?
  }

  /** Building and publishing one artifact. A failed apply may still have landed. */
  datatype ArtifactAnswer =
    | NotBuilt(inRender: bool) | NotApplied(landed: bool) | NoStatus | Applied(digest: string, filename: string)

  /** Everything the outside answers during one reconcile. */
  datatype Answers = Answers(
    tmpDir: bool, progress: Patched,
    observed: Option<string>, fetched: bool, values: ValuesAnswer, pipeline: bool,
    artifact: nat -> ArtifactAnswer, deletes: ObjectKey -> bool, final: Patched)

  /** How the work queue sees a failure. */
  datatype Retry = Terminal | Backoff | Requeue

  datatype Outcome = Finalized | Adopted | Skipped | Stuck(retry: Retry) | Published

  // ------------------------------------------------------------ specification

  function KeyOf(r: Ref): ObjectKey {
    ObjectKey(r.namespace, r.name)
  }

  ghost function Keys(refs: seq<Ref>): set<ObjectKey> {
    set i | 0 <= i < |refs| :: KeyOf(refs[i])
  }

  /** The map key findOrphanedReferences compares references by. */
  function KeyText(r: Ref): string {
    r.namespace + "/" + r.name
  }

  ghost function KeyTexts(refs: seq<Ref>): set<string> {
    set i | 0 <= i < |refs| :: KeyText(refs[i])
  }

  ghost function Orphans(inventory: seq<Ref>, current: seq<Ref>): seq<Ref> {
    if inventory == [] then []
    else
      var n := |inventory| - 1;
      if KeyText(inventory[n]) in KeyTexts(current) then Orphans(inventory[..n], current)
      else Orphans(inventory[..n], current) + [inventory[n]]
  }

  /** The keys of refs whose deletion takes effect. */
  ghost function Deleted(refs: seq<Ref>, deletes: ObjectKey -> bool): set<ObjectKey> {
    set i | 0 <= i < |refs| && deletes(KeyOf(refs[i])) :: KeyOf(refs[i])
  }

  datatype Publishing = Going(refs: seq<Ref>, live: set<ObjectKey>) | Halted(reason: string, live: set<ObjectKey>)

  /** Publishing the artifacts one after another, up to the first failure. */
  ghost function PublishedUpTo(spec: GeneratorSpec, n: nat, a: Answers, live: set<ObjectKey>): Publishing
    requires n <= |spec.artifacts|
  {
    if n == 0 then Going([], live)
    else
      match PublishedUpTo(spec, n - 1, a, live)
      case Halted(reason, l) => Halted(reason, l)
      case Going(refs, l) =>
        var key := ObjectKey(spec.namespace, spec.artifacts[n - 1].name);
        match a.artifact(n - 1)
        case NotBuilt(inRender) => Halted(if inRender then RENDER_FAILED else BUILD_FAILED, l)
        case NotApplied(landed) => Halted(RECONCILIATION_FAILED, if landed then l + {key} else l)
        case NoStatus => Halted(RECONCILIATION_FAILED, l + {key})
        case Applied(digest, filename) => Going(refs + [Ref(key.name, key.namespace, digest, filename)], l + {key})
  }

  /** The working copy, what the server holds, and the live ExternalArtifacts when
      reconcile returns. */
  datatype Attempted = Attempted(g: Generator, stored: Generator, live: set<ObjectKey>, outcome: Outcome)

  /** The parts of a patch that reached the server. */
  function Overwritten(stored: Generator, g: Generator, p: Patched): Generator {
    stored.(finalizer := if p.metadata then g.finalizer else stored.finalizer,
            conditions := if p.conditions then g.conditions else stored.conditions,
            status := if p.status then g.status else stored.status)
  }

  /** The server drops a deleted object with its last finalizer. */
  function Landed(stored: Generator, g: Generator, p: Patched): Option<Generator> {
    var s := Overwritten(stored, g, p);
    if s.deleting && !s.finalizer then None else Some(s)
  }

  function Failing(g: Generator, reason: string): Generator {
    g.(conditions := MarkReady(g.conditions, False, reason))
  }

  ghost function FinishedArtifacts(g: Generator, digest: string, a: Answers, stored: Generator, live: set<ObjectKey>)
    : Attempted
  {
    match PublishedUpTo(g.spec, |g.spec.artifacts|, a, live)
    case Halted(reason, l) => Attempted(Failing(g, reason), stored, l, Stuck(Backoff))
    case Going(refs, l) =>
      Attempted(g.(status := Status(refs, digest, g.generation),
                   conditions := MarkReady(g.conditions, True, SUCCEEDED)),
                stored, l - Deleted(Orphans(g.status.inventory, refs), a.deletes), Published)
  }

  /** What reconcile does once progress has been announced. */
  ghost function Worked(busy: Generator, stored: Generator, live: set<ObjectKey>, a: Answers): Attempted {
    if a.observed == None || !a.fetched then
      Attempted(Failing(busy, SOURCE_FETCH_FAILED), stored, live, Stuck(Requeue))
    else if a.values.NotResolved? then
      if IsAccessError(a.values.error) then
        Attempted(busy.(conditions := MarkTerminal(busy.conditions, ACCESS_DENIED)), stored, live, Stuck(Terminal))
      else
        Attempted(Failing(busy, SOURCE_FETCH_FAILED), stored, live, Stuck(Requeue))
    else if !a.pipeline then
      Attempted(Failing(busy, PIPELINE_FAILED), stored, live, Stuck(Backoff))
    else FinishedArtifacts(busy, a.observed.value, a, stored, live)
  }

  /** reconcile. */
  ghost function Reconciled(g: Generator, live: set<ObjectKey>, a: Answers): Attempted {
    if !a.tmpDir then Attempted(g, g, live, Stuck(Backoff))
    else
      var busy := g.(conditions := MarkInProgress(g.conditions));
      var stored := Overwritten(g, busy, a.progress);
      if a.progress.Succeeded() then Worked(busy, stored, live, a)
      else Attempted(busy, stored, live, Stuck(Backoff))
  }

  function WithFinalizer(g: Generator): Generator {
    g.(finalizer := true,
       conditions := if g.disabled then MarkReady(g.conditions, True, RECONCILIATION_DISABLED)
                     else MarkReconciling(MarkReady(g.conditions, Unknown, PROGRESSING), PROGRESSING))
  }

  /** Whether Reconcile gets as far as validating the spec. */
  predicate Judged(g: Generator) {
    !g.deleting && g.finalizer && !g.disabled
  }

  /** Reconcile between loading the object and summarizeStatus. problem is the
      reason validateSpec gives, if it rejects the spec. */
  ghost function Attempt(g: Generator, live: set<ObjectKey>, problem: Option<string>, a: Answers): Attempted {
    if g.deleting then
      Attempted(g.(finalizer := false), g, live - Deleted(g.status.inventory, a.deletes), Finalized)
    else if !g.finalizer then Attempted(WithFinalizer(g), g, live, Adopted)
    else if g.disabled then Attempted(g, g, live, Skipped)
    else if problem.Some? then
      Attempted(g.(conditions := MarkTerminal(g.conditions, problem.value)), g, live, Stuck(Terminal))
    else Reconciled(g, live, a)
  }

  datatype World = World(generator: Option<Generator>, live: set<ObjectKey>)

  /** One whole Reconcile call. */
  ghost function After(w: World, problem: Option<string>, a: Answers): World {
    if w.generator.None? then w
    else
      var t := Attempt(w.generator.value, w.live, problem, a);
      World(Landed(t.stored, t.g.(conditions := Summarized(t.g.conditions)), a.final), t.live)
  }

  // ---------------------------------------------------------------- the objects

  /** The API server's side. */
  class Cluster {
    var generator: Option<Generator>
    var live: set<ObjectKey>

    ghost function Contents(): World
      reads this
    {
      World(generator, live)
    }

    /** client.Delete of an ExternalArtifact; errors are only logged. */
    method DeleteArtifact(key: ObjectKey, takesEffect: bool)
      modifies this`live
      ensures live == if takesEffect then old(live) - {key} else old(live)
    {
      if takesEffect {
        live := live - {key};
      }
    }

    method ApplyArtifact(key: ObjectKey)
      modifies this`live
      ensures live == old(live) + {key}
    {
      live := live + {key};
    }
  }

  /** The working copy Reconcile holds while it runs. */
  class WorkingCopy {
    var obj: Generator

    constructor (g: Generator)
      ensures obj == g
    {
      obj := g;
    }

    method SetReady(s: ConditionStatus, reason: string)
      modifies this
      ensures obj == old(obj).(conditions := MarkReady(old(obj).conditions, s, reason))
    {
      obj := obj.(conditions := MarkReady(obj.conditions, s, reason));
    }

    /** newTerminalErrorFor. */
    method NewTerminalErrorFor(reason: string)
      modifies this
      ensures obj == old(obj).(conditions := MarkTerminal(old(obj).conditions, reason))
    {
      SetReady(False, reason);
      obj := obj.(conditions := MarkStalled(obj.conditions, reason));
    }

    method AddFinalizer()
      modifies this
      ensures obj == WithFinalizer(old(obj))
    {
      obj := obj.(finalizer := true);
      if obj.disabled {
        SetReady(True, RECONCILIATION_DISABLED);
      } else {
        SetReady(Unknown, PROGRESSING);
        obj := obj.(conditions := MarkReconciling(obj.conditions, PROGRESSING));
      }
    }

    /** patchStatus. */
    method PatchStatus(c: Cluster, p: Patched) returns (ok: bool)
      requires c.generator.Some?
      modifies c`generator
      ensures c.generator == Landed(old(c.generator).value, obj, p)
      ensures ok <==> p.Succeeded()
    {
      c.generator := Landed(c.generator.value, obj, p);
      return p.Succeeded();
    }

    method SummarizeStatus(c: Cluster, p: Patched)
      requires c.generator.Some?
      modifies this, c`generator
      ensures obj == old(obj).(conditions := Summarized(old(obj).conditions))
      ensures c.generator == Landed(old(c.generator).value, obj, p)
    {
      var cs := obj.conditions;
      if Is(cs, Ready, False) && Reconciling in cs {
        cs := cs[Reconciling := cs[Reconciling].(reason := PROGRESSING_WITH_RETRY)];
      }
      if Is(cs, Ready, True) || Is(cs, Stalled, True) {
        cs := cs - {Reconciling};
      }
      obj := obj.(conditions := cs);
      var _ := PatchStatus(c, p);
    }
  }

  // ------------------------------------------------------------------- methods

  method FindOrphanedReferences(inventory: seq<Ref>, current: seq<Ref>) returns (orphaned: seq<Ref>)
    ensures orphaned == Orphans(inventory, current)
  {
    var currentSet: set<string> := {};
    for i := 0 to |current|
      invariant currentSet == set j | 0 <= j < i :: KeyText(current[j])
    {
      currentSet := currentSet + {KeyText(current[i])};
    }
    orphaned := [];
    for i := 0 to |inventory|
      invariant orphaned == Orphans(inventory[..i], current)
    {
      assert inventory[..i + 1][..i] == inventory[..i];
      if KeyText(inventory[i]) !in currentSet {
        orphaned := orphaned + [inventory[i]];
      }
    }
    assert inventory[..|inventory|] == inventory;
  }

  method FinalizeExternalArtifacts(c: Cluster, refs: seq<Ref>, deletes: ObjectKey -> bool)
    modifies c`live
    ensures c.live == old(c.live) - Deleted(refs, deletes)
  {
    for i := 0 to |refs|
      invariant c.live == old(c.live) - set j | 0 <= j < i && deletes(KeyOf(refs[j])) :: KeyOf(refs[j])
    {
      c.DeleteArtifact(KeyOf(refs[i]), deletes(KeyOf(refs[i])));
    }
  }

  /** Build and reconcileExternalArtifact for one artifact. */
  method PublishOne(c: Cluster, key: ObjectKey, answer: ArtifactAnswer) returns (r: Result<Ref, string>)
    modifies c`live
    ensures match answer
            case NotBuilt(inRender) =>
              r == Failure(if inRender then RENDER_FAILED else BUILD_FAILED) && c.live == old(c.live)
            case NotApplied(landed) =>
              r == Failure(RECONCILIATION_FAILED) && c.live == if landed then old(c.live) + {key} else old(c.live)
            case NoStatus => r == Failure(RECONCILIATION_FAILED) && c.live == old(c.live) + {key}
            case Applied(digest, filename) =>
              r == Success(Ref(key.name, key.namespace, digest, filename)) && c.live == old(c.live) + {key}
  {
    match answer {
      case NotBuilt(inRender) =>
        return Failure(if inRender then RENDER_FAILED else BUILD_FAILED);
      case NotApplied(landed) =>
        if landed {
          c.ApplyArtifact(key);
        }
        return Failure(RECONCILIATION_FAILED);
      case NoStatus =>
        c.ApplyArtifact(key);
        return Failure(RECONCILIATION_FAILED);
      case Applied(digest, filename) =>
        c.ApplyArtifact(key);
        return Success(Ref(key.name, key.namespace, digest, filename));
    }
  }

  lemma {:induction false} HaltedForGood(spec: GeneratorSpec, n: nat, m: nat, a: Answers, live: set<ObjectKey>)
    requires n <= m <= |spec.artifacts| && PublishedUpTo(spec, n, a, live).Halted?
    ensures PublishedUpTo(spec, m, a, live) == PublishedUpTo(spec, n, a, live)
    decreases m
  {
    if n < m {
      HaltedForGood(spec, n, m - 1, a, live);
    }
  }

  /** The loop over spec.artifacts. */
  method PublishArtifacts(c: Cluster, spec: GeneratorSpec, a: Answers) returns (r: Result<seq<Ref>, string>)
    modifies c`live
    ensures match PublishedUpTo(spec, |spec.artifacts|, a, old(c.live))
            case Going(refs, l) => r == Success(refs) && c.live == l
            case Halted(reason, l) => r == Failure(reason) && c.live == l
  {
    ghost var before := c.live;
    var eaRefs: seq<Ref> := [];
    for i := 0 to |spec.artifacts|
      invariant PublishedUpTo(spec, i, a, before) == Going(eaRefs, c.live)
    {
      var eaRef := PublishOne(c, ObjectKey(spec.namespace, spec.artifacts[i].name), a.artifact(i));
      if eaRef.Failure? {
        HaltedForGood(spec, i + 1, |spec.artifacts|, a, before);
        return Failure(eaRef.error);
      }
      eaRefs := eaRefs + [eaRef.value];
    }
    return Success(eaRefs);
  }

  /** The artifacts, the orphans and the new status. */
  method FinishArtifacts(c: Cluster, w: WorkingCopy, digest: string, a: Answers) returns (outcome: Outcome)
    requires c.generator.Some?
    modifies c`live, w
    ensures Attempted(w.obj, c.generator.value, c.live, outcome)
         == FinishedArtifacts(old(w.obj), digest, a, old(c.generator).value, old(c.live))
  {
    var eaRefs := PublishArtifacts(c, w.obj.spec, a);
    if eaRefs.Failure? {
      w.SetReady(False, eaRefs.error);
      return Stuck(Backoff);
    }
    var orphans := FindOrphanedReferences(w.obj.status.inventory, eaRefs.value);
    if |orphans| > 0 {
      FinalizeExternalArtifacts(c, orphans, a.deletes);
    }
    w.obj := w.obj.(status := Status(eaRefs.value, digest, w.obj.generation));
    w.SetReady(True, SUCCEEDED);
    return Published;
  }

  /** handleValuesError: an access error is terminal, anything else is retried. */
  method HandleValuesError(w: WorkingCopy, e: V.ResolveError) returns (outcome: Outcome)
    modifies w
    ensures var before := old(w.obj);
            w.obj == if IsAccessError(e) then before.(conditions := MarkTerminal(before.conditions, ACCESS_DENIED))
                     else Failing(before, SOURCE_FETCH_FAILED)
    ensures outcome == Stuck(if IsAccessError(e) then Terminal else Requeue)
  {
    if IsAccessError(e) {
      w.NewTerminalErrorFor(ACCESS_DENIED);
      return Stuck(Terminal);
    }
    w.SetReady(False, SOURCE_FETCH_FAILED);
    return Stuck(Requeue);
  }

  /** reconcile. */
  method ReconcileSpec(c: Cluster, w: WorkingCopy, a: Answers) returns (outcome: Outcome)
    requires c.generator == Some(w.obj) && !w.obj.deleting
    modifies c, w
    ensures c.generator.Some?
    ensures Attempted(w.obj, c.generator.value, c.live, outcome) == Reconciled(old(w.obj), old(c.live), a)
  {
    if !a.tmpDir {
      return Stuck(Backoff);
    }
    w.obj := w.obj.(conditions := MarkReconciling(w.obj.conditions, PROGRESSING));
    w.SetReady(Unknown, PROGRESSING);
    var ok := w.PatchStatus(c, a.progress);
    if !ok {
      return Stuck(Backoff);
    }
    if a.observed.None? || !a.fetched {
      w.SetReady(False, SOURCE_FETCH_FAILED);
      return Stuck(Requeue);
    }
    if !a.values.Resolved? {
      outcome := HandleValuesError(w, a.values.error);
      return;
    }
    if !a.pipeline {
      w.SetReady(False, PIPELINE_FAILED);
      return Stuck(Backoff);
    }
    outcome := FinishArtifacts(c, w, a.observed.value, a);
  }

  /** Between loading and summarizeStatus. */
  method Advance(c: Cluster, w: WorkingCopy, a: Answers, p: Policy) returns (outcome: Outcome, problem: Option<string>)
    requires c.generator == Some(w.obj)
    modifies c, w
    ensures c.generator.Some?
    ensures Attempted(w.obj, c.generator.value, c.live, outcome) == Attempt(old(w.obj), old(c.live), problem, a)
    ensures Judged(old(w.obj)) ==> (problem == None <==> Accepted(old(w.obj).spec, p))
  {
    if w.obj.deleting {
      FinalizeExternalArtifacts(c, w.obj.status.inventory, a.deletes);
      w.obj := w.obj.(finalizer := false);
      return Finalized, None;
    }
    if !w.obj.finalizer {
      w.AddFinalizer();
      return Adopted, None;
    }
    if w.obj.disabled {
      return Skipped, None;
    }
    var issue := ValidateSpec(w.obj.spec, p);
    if issue.Some? {
      w.NewTerminalErrorFor(ReasonFor(issue.value));
      return Stuck(Terminal), Some(ReasonFor(issue.value));
    }
    problem := None;
    outcome := ReconcileSpec(c, w, a);
  }

  /** Reconcile, with the deferred summarizeStatus. */
  method Reconcile(c: Cluster, a: Answers, p: Policy) returns (outcome: Outcome, problem: Option<string>)
    modifies c
    ensures c.Contents() == After(old(c.Contents()), problem, a)
    ensures old(c.generator).Some? ==>
              outcome == Attempt(old(c.generator).value, old(c.live), problem, a).outcome
    ensures old(c.generator).Some? && Judged(old(c.generator).value) ==>
              (problem == None <==> Accepted(old(c.generator).value.spec, p))
  {
    if c.generator.None? {
      return Skipped, None;
    }
    var w := new WorkingCopy(c.generator.value);
    outcome, problem := Advance(c, w, a, p);
    w.SummarizeStatus(c, a.final);
  }
}
