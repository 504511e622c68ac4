/** Which ExternalArtifacts the controller owns over whole runs: what the
    inventory says, what is published, and what can be left behind. */
module Ownership {
  import opened Wrappers
  import opened Strings
  import opened Conditions
  import opened Validation
  import opened Reconciler
  import opened ReconcilerRuns
  import B = Builder
  import DestPath
  import Pipeline
  import SourceRefs

  // ---------------------------------------------------------------- one attempt

  /** The ExternalArtifacts the spec asks for. */
  ghost function SpecKeys(spec: GeneratorSpec): set<ObjectKey> {
    set i | 0 <= i < |spec.artifacts| :: ObjectKey(spec.namespace, spec.artifacts[i].name)
  }

  ghost predicate InNamespace(refs: seq<Ref>, ns: string) {
    forall i :: 0 <= i < |refs| ==> refs[i].namespace == ns
  }

  /** One reference per artifact of the spec, in order. */
  ghost predicate Lists(refs: seq<Ref>, spec: GeneratorSpec, n: nat) {
    && |refs| == n <= |spec.artifacts|
    && forall i :: 0 <= i < n ==> refs[i].namespace == spec.namespace && refs[i].name == spec.artifacts[i].name
  }

  lemma {:induction false} PublishingLaw(spec: GeneratorSpec, n: nat, a: Answers, live: set<ObjectKey>)
    requires n <= |spec.artifacts|
    ensures live <= PublishedUpTo(spec, n, a, live).live <= live + SpecKeys(spec)
    ensures match PublishedUpTo(spec, n, a, live)
            case Going(refs, l) => Lists(refs, spec, n) && l == live + Keys(refs)
            case Halted(_, _) => true
  {
    if n > 0 {
      hide Keys, Lists, SpecKeys;
      PublishingLaw(spec, n - 1, a, live);
      WantsArtifact(spec, n - 1);
      match PublishedUpTo(spec, n - 1, a, live)
      case Halted(_, _) =>
      case Going(refs, _) =>
        match a.artifact(n - 1)
        case Applied(digest, filename) =>
          ListsSnoc(refs, spec, Ref(spec.artifacts[n - 1].name, spec.namespace, digest, filename));
        case _ =>
    }
  }

  lemma WantsArtifact(spec: GeneratorSpec, i: nat)
    requires i < |spec.artifacts|
    ensures ObjectKey(spec.namespace, spec.artifacts[i].name) in SpecKeys(spec)
  {
  }

  lemma ListsSnoc(refs: seq<Ref>, spec: GeneratorSpec, r: Ref)
    requires Lists(refs, spec, |refs|) && |refs| < |spec.artifacts|
    requires r.namespace == spec.namespace && r.name == spec.artifacts[|refs|].name
    ensures Lists(refs + [r], spec, |refs| + 1) && Keys(refs + [r]) == Keys(refs) + {KeyOf(r)}
  {
    KeysSnoc(refs, r);
  }

  lemma KeysSnoc(refs: seq<Ref>, r: Ref)
    ensures Keys(refs + [r]) == Keys(refs) + {KeyOf(r)}
  {
    assert (refs + [r])[|refs|] == r;
    assert forall i :: 0 <= i < |refs| ==> (refs + [r])[i] == refs[i];
  }

  lemma ListedKeys(refs: seq<Ref>, spec: GeneratorSpec)
    requires Lists(refs, spec, |spec.artifacts|)
    ensures Keys(refs) == SpecKeys(spec) && InNamespace(refs, spec.namespace)
  {
    forall i | 0 <= i < |refs|
      ensures KeyOf(refs[i]) == ObjectKey(spec.namespace, spec.artifacts[i].name)
    {
    }
    assert Keys(refs) <= SpecKeys(spec);
    forall k | k in SpecKeys(spec)
      ensures k in Keys(refs)
    {
      var i :| 0 <= i < |spec.artifacts| && k == ObjectKey(spec.namespace, spec.artifacts[i].name);
      assert KeyOf(refs[i]) == k;
    }
  }

  /** The comparison by "namespace/name" strings finds exactly the inventory
      entries that are no longer current, namespaces being free of slashes. */
  lemma KeyTextIdentifies(r: Ref, s: Ref)
    requires r.namespace == s.namespace || ('/' !in r.namespace && '/' !in s.namespace)
    ensures KeyText(r) == KeyText(s) <==> KeyOf(r) == KeyOf(s)
  {
    if KeyText(r) == KeyText(s) {
      assert r.namespace + ['/'] + r.name == s.namespace + ['/'] + s.name;
      if r.namespace == s.namespace {
        CutFront(r.namespace + ['/'], r.name, s.name);
      } else {
        CutOnce(r.namespace, r.name, s.namespace, s.name, '/');
      }
    }
  }

  lemma {:induction false} OrphansLaw(inventory: seq<Ref>, current: seq<Ref>, ns: string)
    requires InNamespace(inventory, ns) && InNamespace(current, ns)
    ensures Keys(Orphans(inventory, current)) == Keys(inventory) - Keys(current)
  {
    if inventory != [] {
      var n := |inventory| - 1;
      OrphansLaw(inventory[..n], current, ns);
      assert inventory == inventory[..n] + [inventory[n]];
      KeysSnoc(inventory[..n], inventory[n]);
      KeysSnoc(Orphans(inventory[..n], current), inventory[n]);
      assert KeyText(inventory[n]) in KeyTexts(current) <==> KeyOf(inventory[n]) in Keys(current) by {
        forall j | 0 <= j < |current|
          ensures KeyText(inventory[n]) == KeyText(current[j]) <==> KeyOf(inventory[n]) == KeyOf(current[j])
        {
          KeyTextIdentifies(inventory[n], current[j]);
        }
      }
    }
  }

  ghost function Where(ks: set<ObjectKey>, f: ObjectKey -> bool): set<ObjectKey> {
    set k | k in ks && f(k)
  }

  lemma DeletedLaw(refs: seq<Ref>, deletes: ObjectKey -> bool)
    ensures Deleted(refs, deletes) == Where(Keys(refs), deletes)
  {
  }

  /** The state of a generator's inventory that every run keeps. */
  ghost predicate TidyInventory(g: Generator) {
    InNamespace(g.status.inventory, g.spec.namespace)
  }

  /** Only a reconcile that publishes every artifact, and the finalization of a
      deleted object, remove ExternalArtifacts: the former those of the inventory
      that the spec no longer lists, the latter those of the inventory. Only the
      former changes the status, to one reference per artifact of the spec. */
  ghost predicate EffectOf(t: Attempted, g: Generator, live: set<ObjectKey>, a: Answers) {
    var inv := Keys(g.status.inventory);
    match t.outcome
    case Published =>
      && Judged(g) && a.observed.Some?
      && Lists(t.g.status.inventory, g.spec, |g.spec.artifacts|)
      && t.g.status.sourcesDigest == a.observed.value && t.g.status.observedGeneration == g.generation
      && t.live == live + SpecKeys(g.spec) - Where(inv - SpecKeys(g.spec), a.deletes)
    case Finalized =>
      g.deleting && t.g.status == g.status && t.live == live - Where(inv, a.deletes)
    case _ =>
      !g.deleting && t.g.status == g.status && live <= t.live <= live + SpecKeys(g.spec)
  }

  lemma FinishedEffect(busy: Generator, digest: string, a: Answers, stored: Generator, live: set<ObjectKey>)
    requires TidyInventory(busy)
    ensures FinishedArtifacts(busy, digest, a, stored, live).stored == stored
    ensures var t, inv := FinishedArtifacts(busy, digest, a, stored, live), Keys(busy.status.inventory);
            match t.outcome
            case Published =>
              && Lists(t.g.status.inventory, busy.spec, |busy.spec.artifacts|)
              && t.g.status.sourcesDigest == digest && t.g.status.observedGeneration == busy.generation
              && t.live == live + SpecKeys(busy.spec) - Where(inv - SpecKeys(busy.spec), a.deletes)
            case Finalized => false
            case _ => t.g.status == busy.status && live <= t.live <= live + SpecKeys(busy.spec)
  {
    PublishingLaw(busy.spec, |busy.spec.artifacts|, a, live);
    match PublishedUpTo(busy.spec, |busy.spec.artifacts|, a, live)
    case Halted(_, _) =>
    case Going(refs, _) =>
      ListedKeys(refs, busy.spec);
      OrphansLaw(busy.status.inventory, refs, busy.spec.namespace);
      DeletedLaw(Orphans(busy.status.inventory, refs), a.deletes);
  }

  lemma AttemptEffect(g: Generator, live: set<ObjectKey>, problem: Option<string>, a: Answers)
    requires TidyInventory(g)
    ensures EffectOf(Attempt(g, live, problem, a), g, live, a)
    ensures Attempt(g, live, problem, a).stored.status == g.status
  {
    hide FinishedArtifacts, MarkInProgress, MarkTerminal;
    DeletedLaw(g.status.inventory, a.deletes);
    if a.observed.Some? {
      var busy := g.(conditions := MarkInProgress(g.conditions));
      FinishedEffect(busy, a.observed.value, a, Overwritten(g, busy, a.progress), live);
    }
  }

  // -------------------------------------------------------------- whole runs

  /** What an observer of the run remembers: the status of the last reconcile
      whose success was recorded, the artifacts created since then, and those
      that have ever been left without a trace in any inventory. */
  datatype History = History(recorded: Status, pending: set<ObjectKey>, leaked: set<ObjectKey>)

  const BLANK := Status([], "", 0)

  /** The reconcile published everything and its status reached the server. */
  ghost predicate Recorded(g: Generator, live: set<ObjectKey>, problem: Option<string>, a: Answers) {
    Attempt(g, live, problem, a).outcome.Published? && a.final.status
  }

  ghost function Remember(w: World, h: History, e: Event): History {
    var w' := Next(w, e);
    match e
    case Create(_, _) => if w.generator.None? then h.(recorded := BLANK) else h
    case Reconcile(problem, a) =>
      if w.generator.None? then h
      else if w'.generator.None? then History(BLANK, {}, h.leaked + w'.live)
      else if Recorded(w.generator.value, w.live, problem, a) then
        var status := Attempt(w.generator.value, w.live, problem, a).g.status;
        History(status, {}, h.leaked + (w'.live - Keys(status.inventory)))
      else h.(pending := h.pending + (w'.live - w.live))
    case _ => h
  }

  ghost function HistoryOf(events: seq<Event>): History {
    if events == [] then History(BLANK, {}, {})
    else
      var front := events[..|events| - 1];
      Remember(RunOf(front), HistoryOf(front), events[|events| - 1])
  }

  /** The status is that of the last recorded success. That every live artifact is
      in its inventory, was created since, or has been leaked is how Remember keeps
      its books; what the books are worth is NothingLeaksExactly. */
  ghost predicate Owned(w: World, h: History) {
    match w.generator
    case None => h.pending == {} && w.live <= h.leaked
    case Some(g) =>
      && g.status == h.recorded && TidyInventory(g)
      && w.live <= Keys(g.status.inventory) + h.pending + h.leaked
      && (!g.finalizer ==> !g.deleting && g.status.inventory == [] && h.pending == {})
  }

  lemma ReconcileKeepsOwned(g: Generator, live: set<ObjectKey>, h: History, problem: Option<string>, a: Answers)
    requires Owned(World(Some(g), live), h)
    ensures var w := World(Some(g), live); var e := Reconcile(problem, a); Owned(Next(w, e), Remember(w, h, e))
  {
    hide Attempt, Coherent, Summarized;
    AttemptEffect(g, live, problem, a);
    AttemptObject(g, live, problem, a);
  }

  lemma AttemptObject(g: Generator, live: set<ObjectKey>, problem: Option<string>, a: Answers)
    ensures var t := Attempt(g, live, problem, a);
            && t.g.spec == t.stored.spec == g.spec
            && t.stored.finalizer == g.finalizer && t.stored.deleting == g.deleting
            && t.stored.generation == g.generation
            && (t.g.finalizer <==> !g.deleting)
            && (t.outcome.Adopted? ==> t.live == live)
            && (t.outcome.Finalized? <==> g.deleting)
            && (!g.finalizer && !g.deleting ==> t.outcome.Adopted?)
  {
    hide Reconciled, Concludes, MarkInProgress, MarkReady, MarkTerminal, MarkReconciling;
    if Judged(g) && problem == None {
      ReconciledConclusion(g, live, a);
    }
  }

  lemma StepKeepsOwned(w: World, h: History, e: Event)
    requires Owned(w, h)
    ensures Owned(Next(w, e), Remember(w, h, e))
  {
    if e.Reconcile? && w.generator.Some? {
      ReconcileKeepsOwned(w.generator.value, w.live, h, e.problem, e.answers);
    }
  }

  /** At every point of every run the status is exactly that of the last recorded
      success, whose inventory is what that success published. */
  lemma {:induction false} InventoryIsLastSuccess(events: seq<Event>)
    ensures Owned(RunOf(events), HistoryOf(events))
  {
    if events != [] {
      var front := events[..|events| - 1];
      InventoryIsLastSuccess(front);
      StepKeepsOwned(RunOf(front), HistoryOf(front), events[|events| - 1]);
    }
  }

  /** An artifact that disappears was in the inventory; it disappears either in a
      reconcile that published everything the spec asks for and it was not part
      of that, or in the finalization of a deleted object. A failing reconcile
      deletes nothing. */
  lemma OnlyOrphansAreDeleted(events: seq<Event>, e: Event, k: ObjectKey)
    requires k in RunOf(events).live && k !in Next(RunOf(events), e).live
    ensures e.Reconcile? && RunOf(events).generator.Some?
    ensures var g := RunOf(events).generator.value;
            var outcome := Attempt(g, RunOf(events).live, e.problem, e.answers).outcome;
            && k in Keys(g.status.inventory)
            && ((outcome.Finalized? && g.deleting) || (outcome.Published? && k !in SpecKeys(g.spec)))
  {
    hide Attempt;
    InventoryIsLastSuccess(events);
    var w := RunOf(events);
    if e.Reconcile? && w.generator.Some? {
      AttemptEffect(w.generator.value, w.live, e.problem, e.answers);
    }
  }

  // ------------------------------------------------------------------- leaks

  /** What the generator wants to exist after a reconcile that settles its
      artifacts. */
  ghost function Wanted(g: Generator): set<ObjectKey> {
    if g.deleting then {} else SpecKeys(g.spec)
  }

  /** The reconcile ends the bookkeeping for the live artifacts: a recorded
      success, or a finalization after which the object is gone. */
  ghost predicate Settles(g: Generator, live: set<ObjectKey>, problem: Option<string>, a: Answers) {
    if g.deleting then a.final.metadata else Recorded(g, live, problem, a)
  }

  /** When a reconcile settles, every delete of an unwanted artifact takes effect,
      and every artifact created by the unrecorded runs before it is wanted or
      already in the inventory. */
  ghost predicate Careful(w: World, h: History, e: Event) {
    e.Reconcile? && w.generator.Some? && Settles(w.generator.value, w.live, e.problem, e.answers) ==>
      var g := w.generator.value;
      var inv := Keys(g.status.inventory);
      && (forall k :: k in w.live && k in inv && k !in Wanted(g) ==> e.answers.deletes(k))
      && w.live * h.pending <= Wanted(g) + inv
  }

  lemma SettlingLeaks(g: Generator, live: set<ObjectKey>, h: History, problem: Option<string>, a: Answers)
    requires Owned(World(Some(g), live), h) && h.leaked == {}
    ensures var w := World(Some(g), live);
            var e := Reconcile(problem, a);
            Remember(w, h, e).leaked == {} <==> Careful(w, h, e)
  {
    hide Attempt, Coherent, Summarized, Keys, SpecKeys, Where;
    AttemptEffect(g, live, problem, a);
    AttemptObject(g, live, problem, a);
    var t, inv := Attempt(g, live, problem, a), Keys(g.status.inventory);
    LeftBehind(live, inv, h.pending, Wanted(g), a.deletes);
    if t.outcome.Published? {
      ListedKeys(t.g.status.inventory, g.spec);
    } else if t.outcome.Finalized? {
      var none: set<ObjectKey> := {};
      assert inv - none == inv && live + none == live;
      assert live - Where(inv, a.deletes) - none == live - Where(inv, a.deletes);
    }
  }

  /** What is live, unwanted and not deleted after settling. */
  lemma LeftBehind(live: set<ObjectKey>, inv: set<ObjectKey>, pending: set<ObjectKey>, wanted: set<ObjectKey>,
                   deletes: ObjectKey -> bool)
    requires live <= inv + pending
    ensures live + wanted - Where(inv - wanted, deletes) - wanted == {} <==>
              && (forall k :: k in live && k in inv && k !in wanted ==> deletes(k))
              && live * pending <= wanted + inv
  {
    var left := live + wanted - Where(inv - wanted, deletes) - wanted;
    forall k
      ensures k in left <==> k in live && k !in wanted && !(k in inv && deletes(k))
    {
    }
    if left == {} {
      assert forall k :: k in live && k !in wanted ==> k !in left;
    } else {
      var k :| k in left;
      if k !in inv {
        assert k in live * pending && k !in wanted + inv;
      }
    }
  }

  ghost predicate AllCareful(events: seq<Event>) {
    events != [] ==>
      var front := events[..|events| - 1];
      AllCareful(front) && Careful(RunOf(front), HistoryOf(front), events[|events| - 1])
  }

  /** Over a whole run nothing is leaked if and only if every reconcile that
      settles is careful. */
  lemma {:induction false} NothingLeaksExactly(events: seq<Event>)
    ensures HistoryOf(events).leaked == {} <==> AllCareful(events)
  {
    if events != [] {
      var front, e := events[..|events| - 1], events[|events| - 1];
      NothingLeaksExactly(front);
      InventoryIsLastSuccess(front);
      var w, h := RunOf(front), HistoryOf(front);
      if e.Reconcile? && w.generator.Some? && h.leaked == {} {
        SettlingLeaks(w.generator.value, w.live, h, e.problem, e.answers);
      }
    }
  }

  // ---------------------------------------------------- observed generation

  /** A status that has observed the current spec vouches for its artifacts: the
      inventory has one entry for each, in order, and all of them are live. */
  ghost predicate Vouched(w: World) {
    w.generator.Some? ==>
      var g := w.generator.value;
      && g.status.observedGeneration <= g.generation && g.generation > 0
      && (!g.deleting && g.status.observedGeneration == g.generation ==>
            Lists(g.status.inventory, g.spec, |g.spec.artifacts|) && SpecKeys(g.spec) <= w.live)
  }

  lemma StepKeepsVouched(w: World, h: History, e: Event)
    requires Vouched(w) && Owned(w, h)
    ensures Vouched(Next(w, e))
  {
    hide Attempt, Coherent, Summarized;
    if e.Reconcile? && w.generator.Some? {
      var g := w.generator.value;
      AttemptEffect(g, w.live, e.problem, e.answers);
      AttemptObject(g, w.live, e.problem, e.answers);
      if Lists(g.status.inventory, g.spec, |g.spec.artifacts|) {
        ListedKeys(g.status.inventory, g.spec);
      }
    } else if e.Edit? && w.generator.Some? {
      assert Next(w, e).generator.value.generation == w.generator.value.generation + 1;
    }
  }

  lemma {:induction false} ObservedMeansPublished(events: seq<Event>)
    ensures Vouched(RunOf(events))
  {
    if events != [] {
      var front := events[..|events| - 1];
      ObservedMeansPublished(front);
      InventoryIsLastSuccess(front);
      StepKeepsVouched(RunOf(front), HistoryOf(front), events[|events| - 1]);
    }
  }

  // ------------------------------------------------------------ limits of this

  /** The finalizer constant is documented as removed only after cleanup succeeds.
      The code removes it whatever the deletes did: the object is gone, and what
      could not be deleted stays. */
  lemma FinalizerGoesRegardless(g: Generator, live: set<ObjectKey>, problem: Option<string>, a: Answers)
    requires g.deleting && a.final.metadata && TidyInventory(g)
    ensures var w := After(World(Some(g), live), problem, a);
            && w.generator == None
            && (w.live !! Keys(g.status.inventory) <==>
                  forall k :: k in live && k in Keys(g.status.inventory) ==> a.deletes(k))
  {
    AttemptEffect(g, live, problem, a);
  }

  /** Answers of an undisturbed reconcile, but for the artifacts. */
  ghost function Undisturbed(artifact: nat -> ArtifactAnswer): Answers {
    var all := Patched(true, true, true);
    Answers(true, all, Some("digest"), true, Resolved, true, artifact, _ => true, all)
  }

  /** Created, adopted, a first reconcile that publishes artifact 0 and cannot
      build artifact 1, deleted, finalized. */
  ghost function FailedOnceThenDeleted(spec: GeneratorSpec): seq<Event> {
    [Create(spec, false),
     Reconcile(None, Undisturbed(_ => NotBuilt(false))),
     Reconcile(None, Undisturbed(i => if i == 0 then Applied("digest", "file") else NotBuilt(false))),
     Delete,
     Reconcile(None, Undisturbed(_ => NotBuilt(false)))]
  }

  /** A spec with two artifacts that validation accepts. */
  function TwoArtifacts(): GeneratorSpec {
    var template := B.TemplateSpec("@src/file", "@artifact/out");
    GeneratorSpec("ns", [SourceReference("src", "repo", "", "GitRepository")], "", [], [],
                  [B.ManifestArtifact("first", "", "", None, [template]),
                   B.ManifestArtifact("second", "", "", None, [template])])
  }

  lemma TwoArtifactsAccepted(p: Policy)
    requires p.parsesDest("out")
    ensures Accepted(TwoArtifacts(), p)
  {
    hide ArtifactAccepted, SourceRefs.SplitSourceRef;
    var g := TwoArtifacts();
    assert g.sources[0].alias == "src";
    AcceptableArtifact(g.artifacts[0], Aliases(g.sources), Pipeline.StepNames(g.pipeline), p);
    AcceptableArtifact(g.artifacts[1], Aliases(g.sources), Pipeline.StepNames(g.pipeline), p);
    assert "first" != "second";
  }

  lemma AcceptableArtifact(a: B.ManifestArtifact, aliases: set<string>, steps: set<string>, p: Policy)
    requires a.forEach == None && a.revision == "" && a.originRevision == ""
    requires a.templates == [B.TemplateSpec("@src/file", "@artifact/out")]
    requires "src" in aliases && p.parsesDest("out")
    ensures ArtifactAccepted(a, aliases, steps, p)
  {
    hide SourceRefs.SplitSourceRef;
    assert "@src/file" == "@" + "src" + "/" + "file";
    SourceRefs.SplitMeaning("@src/file", "src", "file");
    assert "@artifact/out"[|DestPath.ARTIFACT_PREFIX|..] == "out";
  }

  /** Even when the spec is accepted and every delete works, deleting a generator
      whose first reconcile failed half way leaves the artifact it had published
      behind: only recorded inventory entries are ever deleted. */
  lemma FailedFirstRunLeaks(p: Policy)
    requires p.parsesDest("out")
    ensures Accepted(TwoArtifacts(), p)
    ensures RunOf(FailedOnceThenDeleted(TwoArtifacts())) == World(None, {ObjectKey("ns", "first")})
  {
    hide Accepted;
    TwoArtifactsAccepted(p);
    HalfPublishedStays(TwoArtifacts());
  }

  lemma HalfPublishedStays(spec: GeneratorSpec)
    requires |spec.artifacts| == 2
    ensures RunOf(FailedOnceThenDeleted(spec)) == World(None, {ObjectKey(spec.namespace, spec.artifacts[0].name)})
  {
    hide Coherent;
    var es := FailedOnceThenDeleted(spec);
    assert es[..4][..3] == es[..3] && es[..3][..2] == es[..2] && es[..2][..1] == es[..1] && es[..1][..0] == [];
    var g := Generator(spec, 1, false, false, false, map[], BLANK);
    assert RunOf(es[..1]) == World(Some(g), {});
    var w2 := RunOf(es[..2]);
    assert w2.live == {} && w2.generator.Some? && Judged(w2.generator.value) && w2.generator.value.spec == spec
           && w2.generator.value.status == BLANK;
    PublishesFirst(spec, es[2].answers);
    var w3 := RunOf(es[..3]);
    assert w3.live == {ObjectKey(spec.namespace, spec.artifacts[0].name)};
    assert w3.generator.Some? && w3.generator.value.finalizer && w3.generator.value.status == BLANK;
    assert RunOf(es[..4]) == w3.(generator := Some(w3.generator.value.(deleting := true)));
  }

  lemma PublishesFirst(spec: GeneratorSpec, a: Answers)
    requires |spec.artifacts| == 2 && a.artifact(0).Applied? && a.artifact(1) == NotBuilt(false)
    ensures PublishedUpTo(spec, 2, a, {}) == Halted(BUILD_FAILED, {ObjectKey(spec.namespace, spec.artifacts[0].name)})
  {
    assert PublishedUpTo(spec, 0, a, {}) == Going([], {});
    assert PublishedUpTo(spec, 1, a, {}).Going?;
    assert PublishedUpTo(spec, 1, a, {}).live == {ObjectKey(spec.namespace, spec.artifacts[0].name)};
  }
}
